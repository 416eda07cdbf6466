/** Building and receiving Ethernet frames in packet buffers. */
module Ether {
  import opened Basics
  import opened Chain
  import opened PktBuf
  import PktWorld
  import opened Endian
  import opened Frames

  /** memcpy through the pointer to the first block's data. */
  method WriteFirst(buf: PktBuffer, at: nat, d: seq<byte>)
    requires buf.Valid() && buf.blkList != [] && 0 < |d| && at + |d| <= buf.blkList[0].size
    modifies buf.blkList[0].payload
    ensures buf.Valid() && buf.Content() == Splice(old(buf.Content()), at, d)
  {
    hide *;
    buf.Facts();
    HeldMember(buf.blkList, buf.mgr);
    ghost var c := Views(buf.blkList);
    var first := buf.blkList[0];
    LocateFirst(c, at);
    StoreIsSplice(c, at, d);
    WriteBlock(first, first.data + at, d, buf.blkList, 0, buf.mgr);
    buf.ValidIntro();
  }

  lemma LocateFirst(c: seq<View>, at: nat)
    requires Formed(c) && c != [] && at < c[0].len
    ensures Locate(c, at) == (0, c[0].off + at) && at < |Bytes(c)|
  {
    BytesFirst(c);
  }

  /** The first bytes of the packet are what the pointer to the first block's data shows. */
  lemma FirstWindow(buf: PktBuffer)
    requires buf.Valid() && buf.blkList != []
    ensures var b := buf.blkList[0];
      && b.data + b.size <= b.payload.Length && b.size <= buf.capacity
      && b.payload[b.data..b.data + b.size] == buf.Content()[..b.size]
  {
    BytesFirst(Views(buf.blkList));
  }

  /** The protocol field in the first block, loaded and converted, is the frame's. */
  lemma ProtocolAt(buf: PktBuffer, bigEndian: bool)
    requires buf.Valid() && buf.blkList != [] && HEADER <= buf.blkList[0].size
    ensures HEADER <= buf.capacity
    ensures var b := buf.blkList[0];
      && b.data + HEADER <= b.payload.Length
      && NetToHost(bigEndian, Loaded(bigEndian, b.payload[b.data + 12..b.data + 14]))
         == Pair(buf.Content()[12], buf.Content()[13])
  {
    hide PktBuffer.Valid, PktBuffer.Content, NetToHost, Loaded;
    FirstWindow(buf);
    var b := buf.blkList[0];
    var window, packet := b.payload[b.data..b.data + b.size], buf.Content();
    var bytes := b.payload[b.data + 12..b.data + 14];
    assert window == packet[..b.size];
    assert bytes == window[12..14] == packet[12..14];
    NetworkIsOnto(bytes);
    LoadedFromNetworkOrder(bigEndian, Pair(bytes[0], bytes[1]));
  }

  lemma FirstBlock(buf: PktBuffer)
    requires buf.Valid()
    ensures buf.blkList == [] <==> buf.capacity == 0
    ensures |buf.Content()| == buf.capacity
  {
    BytesLength(Views(buf.blkList));
  }

  lemma HeaderFits(buf: PktBuffer)
    requires buf.Valid() && HEADER <= buf.capacity
    ensures buf.blkList != []
  {
    FirstBlock(buf);
  }

  /** Where the blocks of a packet with a new header come from: none is lost. */
  lemma HeaderBlocks(p: seq<PktBlock>, l: seq<PktBlock>, k: nat, now: seq<PktBlock>)
    requires NoDup(p) && k <= |p| && now == Reverse(p[..k]) + l
    ensures Owned(now) + Owned(p[k..]) == Owned(l) + Owned(p)
    ensures forall b :: b in now ==> b in p || b in l
    ensures forall b :: b in p ==> b.payload in Payloads(p)
    ensures forall b :: b in l ==> b.payload in Payloads(l)
  {
    SplitOwned(p, k);
    ReverseOwned(p[..k]);
    PktWorld.OwnedPlus(Reverse(p[..k]), l);
    OwnedMember(now);
    OwnedMember(p);
    OwnedMember(l);
  }

  lemma PayloadsGrown(l: seq<PktBlock>, p: seq<PktBlock>, n: nat)
    requires n <= |p|
    ensures Payloads(l + p[..n]) <= Payloads(l) + Payloads(p)
  {
  }

  /** What a packet keeps of the pool's blocks and what it leaves. */
  lemma BlocksMoved(l: seq<PktBlock>, p: seq<PktBlock>, n: nat)
    requires NoDup(p) && n <= |p|
    ensures Owned(l + p[..n]) + Owned(p[n..]) == Owned(l) + Owned(p)
    ensures Owned(l + p[..n]) <= Owned(l) + Owned(p) && Owned(p[n..]) <= Owned(p)
    ensures Payloads(l + p[..n]) <= Payloads(l) + Payloads(p) && Payloads(p[n..]) <= Payloads(p)
    ensures n == 0 ==> l + p[..n] == l && p[n..] == p
  {
    SplitOwned(p, n);
    PktWorld.OwnedPlus(l, p[..n]);
  }

  /** The room behind the data in the packet's last block. */
  ghost function RoomOf(buf: PktBuffer): nat
    requires buf.Valid()
    reads buf, buf.mgr, Owned(buf.blkList), Payloads(buf.blkList)
  {
    buf.TailFits();
    buf.TailRoom()
  }

  /** The room before the data in the packet's first block. */
  ghost function HeadRoom(buf: PktBuffer): nat
    reads buf, Owned(buf.blkList)
  {
    if buf.blkList == [] then 0 else buf.blkList[0].data
  }

  /** How many blocks the padding of a packet takes from the pool. */
  function Missing(size: nat, room: nat, blkSize: nat): nat
    requires 0 < blkSize || DATA_MIN <= size + room
  {
    if DATA_MIN <= size + room then 0 else |Chunks(DATA_MIN - size - room, blkSize)|
  }

  /** What bringing a packet up to 46 bytes comes to. */
  function PadOf(code: Code, size: nat, room: nat, blkSize: nat, free: nat): Growth
    requires 0 < blkSize
  {
    if DATA_MIN <= size then Growth(NetOk, 0, size) else GrowthOf(code, size, DATA_MIN, room, blkSize, free)
  }

  /** What framing a packet comes to, from what a caller can see before the call: the packet's
      size, the room behind its data and before it, and the number of pooled blocks. The header
      finds no block exactly when it needs one and the padding took the last. */
  function FrameOf(code: Code, size: nat, room: nat, head: nat, blkSize: nat, free: nat): NetErr
    requires 0 < blkSize
  {
    var o := PadOf(code, size, room, blkSize, free);
    if o.r != NetOk then NetMem
    else if HEADER <= head then NetOk
    else if blkSize < HEADER then NetSize
    else if o.taken == free then NetNone
    else NetOk
  }

  lemma PadIs(code: Code, size: nat, room: nat, blkSize: nat, free: nat)
    requires 0 < blkSize
    ensures var o := PadOf(code, size, room, blkSize, free);
      && (o.r == NetOk || o.r == NetMem) && o.taken <= free
      && (size < DATA_MIN ==> o == GrowthOf(code, size, DATA_MIN, room, blkSize, free))
      && (DATA_MIN <= size ==> o == Growth(NetOk, 0, size))
      && (o.r == NetOk && size < DATA_MIN ==>
            (o.capacity == DATA_MIN <==> PadsRight(code, size, room)))
  {
    if 0 < size < DATA_MIN {
      GrowsRight(code, size, DATA_MIN, room, blkSize, free);
    }
  }

  /** Where the padding comes out right, framing succeeds exactly when the pool has the blocks
      the padding misses and the header has headroom or one block more. */
  lemma FramesRight(code: Code, size: nat, room: nat, head: nat, blkSize: nat, free: nat)
    requires 0 < blkSize && PadsRight(code, size, room) && (size == 0 ==> room == 0)
    ensures var n := Missing(size, room, blkSize);
      && (PadOf(code, size, room, blkSize, free).r == NetOk <==> n <= free)
      && (n <= free ==> PadOf(code, size, room, blkSize, free).taken == n)
      && (FrameOf(code, size, room, head, blkSize, free) == NetOk <==>
            n <= free && (HEADER <= head || (HEADER <= blkSize && n < free)))
      && (FrameOf(code, size, room, head, blkSize, free) == NetNone <==>
            head < HEADER <= blkSize && n == free)
  {
    if 0 < size < DATA_MIN {
      GrowsRight(code, size, DATA_MIN, room, blkSize, free);
    }
  }

  /** When the padding comes out right: nothing to pad, nothing there yet, or, as written, no
      more room behind the data than the padding takes. */
  predicate PadsRight(code: Code, size: nat, room: nat) {
    size == 0 || DATA_MIN <= size || code.Repaired? || room <= DATA_MIN - size
  }

  lemma FrameIs(dest: seq<byte>, src: seq<byte>, protocol: word, s: seq<byte>, t: seq<byte>)
    requires Mac(dest) && Mac(src)
    ensures Head(dest, src, protocol) + t == Frame(dest, src, protocol, s) <==> t == s + Padding(|s|)
    ensures DATA_MIN <= |s| ==> s + Padding(|s|) == s
  {
    var h := Head(dest, src, protocol);
    assert (h + t)[HEADER..] == t;
    assert (h + (s + Padding(|s|)))[HEADER..] == s + Padding(|s|);
  }

  /** Zeros written behind the old data, in a packet grown to fit. */
  lemma PaddedAt(s: seq<byte>, t: seq<byte>, n: nat)
    requires s <= t && |s| + n <= |t|
    ensures s <= Splice(t, |s|, Repeat(0, n))
    ensures Splice(t, |s|, Repeat(0, n)) == s + Repeat(0, n) <==> |t| == |s| + n
    ensures s == [] ==> s + Repeat(0, n) == Repeat(0, n)
  {
    var p := Splice(t, |s|, Repeat(0, n));
    assert p == s + Repeat(0, n) + t[|s| + n..];
  }

  function IsPktOk(totalSize: nat): (r: NetErr)
    ensures r == NetOk <==> HEADER <= totalSize <= HEADER + MTU
  {
    if totalSize > HEADER + MTU then NetSize
    else if totalSize < HEADER then NetSize
    else NetOk
  }

  class EtherNet {
    const hwaddr: seq<byte>   // the six bytes of m_hwaddr that are used
    const ipaddr: seq<byte>
    const bigEndian: bool     // the byte order of the machine
    const mgr: PktManager
    const queueLimit: nat     // what each queue holds when it is full
    var inQueue: seq<PktBuffer>
    var outQueue: seq<PktBuffer>
    var noticed: nat          // how often the network was told of input

    predicate Ready() {
      Mac(hwaddr) && Ip(ipaddr)
    }

    constructor (hwaddr: seq<byte>, ipaddr: seq<byte>, bigEndian: bool, mgr: PktManager, queueLimit: nat)
      requires Mac(hwaddr) && Ip(ipaddr)
      ensures Ready() && inQueue == [] && outQueue == [] && noticed == 0
      ensures this.hwaddr == hwaddr && this.ipaddr == ipaddr && this.bigEndian == bigEndian
      ensures this.mgr == mgr && this.queueLimit == queueLimit
    {
      this.hwaddr, this.ipaddr, this.bigEndian := hwaddr, ipaddr, bigEndian;
      this.mgr, this.queueLimit := mgr, queueLimit;
      inQueue, outQueue, noticed := [], [], 0;
    }

    method PutBufToInQueue(buf: PktBuffer) returns (r: NetErr)
      modifies this`inQueue, this`noticed
      ensures r == if |old(inQueue)| < queueLimit then NetOk else NetFull
      ensures inQueue == old(inQueue) + if r == NetOk then [buf] else []
      ensures noticed == old(noticed) + if r == NetOk then 1 else 0
    {
      if |inQueue| < queueLimit {
        inQueue := inQueue + [buf];
        noticed := noticed + 1;
        return NetOk;
      }
      assert inQueue == inQueue + [];
      return NetFull;
    }

    method PutBufToOutQueue(buf: PktBuffer) returns (r: NetErr)
      modifies this`outQueue
      ensures r == if |old(outQueue)| < queueLimit then NetOk else NetFull
      ensures outQueue == old(outQueue) + if r == NetOk then [buf] else []
    {
      if |outQueue| < queueLimit {
        outQueue := outQueue + [buf];
        return NetOk;
      }
      assert outQueue == outQueue + [];
      return NetFull;
    }

    /** A packet is accepted exactly when it is a frame of legal size; the protocol then comes
        from a header that lies in one block, and is the frame's. */
    method LinkIn(buf: PktBuffer) returns (r: NetErr, protocol: Option<word>)
      requires Ready() && buf.Valid() && HEADER <= buf.mgr.blkSize
      modifies buf`blkList, buf.mgr`pool, Owned(buf.blkList), if buf.blkList == [] then {} else {buf.blkList[0].payload}
      ensures buf.Valid() && buf.Content() == old(buf.Content())
      ensures r == if Parse(buf.Content()).Some? then NetOk else NetSize
      ensures r == NetOk ==> buf.blkList != [] && HEADER <= buf.blkList[0].size
      ensures protocol == if r == NetOk then Some(Parse(buf.Content()).value.protocol) else None
      ensures r == NetOk <==> 14 <= buf.capacity <= 1514
      ensures r == NetOk ==>
        protocol.value / 256 == buf.Content()[12] && protocol.value % 256 == buf.Content()[13]
    {
      hide PktBuffer.Valid, PktBuffer.Content, Views, Bytes, Owned, NoDup, Held, TrimFront, Dropped, NetToHost, Loaded;
      FirstBlock(buf);
      var _ := buf.SetContHeader(HEADER);
      r := IsPktOk(buf.capacity);
      if r != NetOk {
        return r, None;
      }
      ProtocolAt(buf, bigEndian);
      var first := buf.blkList[0];
      var loaded := Loaded(bigEndian, first.payload[first.data + 12..first.data + 14]);
      protocol := Some(NetToHost(bigEndian, loaded));
    }

    /** Short data is brought up to 46 bytes with zeros behind it. As written the packet comes out
        right exactly when the tail room of its last block does not exceed the growth. */
    method Pad(code: Code, buf: PktBuffer) returns (r: NetErr)
      requires buf.Valid()
      modifies buf, buf.mgr`pool, buf.mgr`bufPool, Owned(buf.mgr.pool), Owned(buf.blkList)
      modifies Payloads(buf.mgr.pool), Payloads(buf.blkList)
      ensures buf.Valid() && (r == NetOk || r == NetMem) && old(buf.Content()) <= buf.Content()
      ensures r == NetOk ==> DATA_MIN <= buf.capacity
      ensures (buf.refs == old(buf.refs) || buf.refs == 1) && buf.mgr.bufPool == old(buf.mgr.bufPool)
      ensures var n := |buf.blkList| - |old(buf.blkList)|;
        && 0 <= n <= |old(buf.mgr.pool)|
        && buf.blkList == old(buf.blkList) + old(buf.mgr.pool)[..n]
        && buf.mgr.pool == old(buf.mgr.pool)[n..]
      ensures r == NetOk ==> buf.blkList != [] && buf.blkList[0].data == old(HeadRoom(buf))
      ensures var size, room := old(buf.capacity), old(RoomOf(buf));
        var o := PadOf(code, size, room, buf.mgr.blkSize, |old(buf.mgr.pool)|);
        && r == o.r && |buf.blkList| == |old(buf.blkList)| + o.taken
        && (r == NetOk ==>
              (buf.Content() == old(buf.Content()) + Padding(size) <==> PadsRight(code, size, room)))
      ensures r == NetOk ==>
        && 46 <= buf.capacity && old(buf.capacity) <= buf.capacity
        && forall i :: old(buf.capacity) <= i < 46 ==> buf.Content()[i] == 0
    {
      hide PktBuffer.Valid, PktBuffer.Content, Views, Bytes, NoDup, Held, Owned, Payloads, Chunks, Splice, Repeat;
      hide GrowthOf, PadsRight, PadOf;
      buf.TailFits();
      buf.Facts();
      FirstBlock(buf);
      var size := buf.capacity;
      PadIs(code, size, RoomOf(buf), buf.mgr.blkSize, |buf.mgr.pool|);
      if DATA_MIN <= size {
        NoneLeft(buf.blkList, buf.mgr.pool, buf.mgr.nowhere);
        LongEnough(code, buf.Content(), RoomOf(buf));
        return NetOk;
      }
      r := buf.Resize(code, DATA_MIN);
      if r != NetOk {
        return;
      }
      PayloadsGrown(old(buf.blkList), old(buf.mgr.pool), |buf.blkList| - |old(buf.blkList)|);
      FillBehind(buf, size, old(buf.Content()));
    }

    method FillBehind(buf: PktBuffer, size: nat, ghost s: seq<byte>)
      requires buf.Valid() && size < DATA_MIN <= buf.capacity && |s| == size && s <= buf.Content()
      modifies buf`pos, buf`curBlk, buf`blkOffset, Payloads(buf.blkList)
      ensures buf.Valid() && s <= buf.Content() && buf.capacity == old(buf.capacity)
      ensures forall i :: size <= i < DATA_MIN ==> buf.Content()[i] == 0
      ensures buf.Content() == s + Padding(size) <==> buf.capacity == DATA_MIN
    {
      hide PktBuffer.Valid, PktBuffer.Content, Views, Bytes, NoDup, Held, Owned, Payloads, Splice, Repeat;
      buf.ResetAccess();
      var at := buf.Seek(size);
      ghost var t := buf.Content();
      var f := buf.Fill(0, DATA_MIN - size);
      PaddedAt(s, t, DATA_MIN - size);
    }

    /** alloc_header for the Ethernet header, and its three fields written in place. */
    method PutHeader(code: Code, protocol: word, dest: seq<byte>, buf: PktBuffer) returns (r: NetErr)
      requires Ready() && Mac(dest) && buf.Valid()
      modifies buf, buf.mgr`pool, Owned(buf.mgr.pool), Owned(buf.blkList)
      modifies Payloads(buf.mgr.pool), Payloads(buf.blkList)
      ensures r ==
        if old(buf.blkList) == [] then NetEmpty
        else if HEADER <= old(HeadRoom(buf)) then NetOk
        else if buf.mgr.blkSize < HEADER then NetSize
        else if old(buf.mgr.pool) == [] then NetNone else NetOk
      ensures buf.refs == old(buf.refs) || buf.refs == 1
      ensures r == NetOk ==> buf.Valid() && buf.Content() == Head(dest, hwaddr, protocol) + old(buf.Content())
      ensures r == NetEmpty || r == NetSize ==> buf.Valid() && buf.Content() == old(buf.Content())
      ensures r == NetNone ==> (buf.Valid() <==> code.Repaired?)
      ensures r == NetNone ==>
        && buf.mgr.pool == old(buf.mgr.pool) == []
        && buf.blkList == (if code.Written? then [buf.mgr.nowhere] else []) + old(buf.blkList)
      ensures buf.Valid() ==>
        Owned(buf.blkList) + Owned(buf.mgr.pool) == old(Owned(buf.blkList) + Owned(buf.mgr.pool))
    {
      hide *;
      r := RoomForHeader(code, buf);
      if r == NetOk {
        FillHeader(protocol, dest, buf);
      }
    }

    method RoomForHeader(code: Code, buf: PktBuffer) returns (r: NetErr)
      requires buf.Valid()
      modifies buf, buf.mgr`pool, Owned(buf.mgr.pool), Owned(buf.blkList)
      ensures r ==
        if old(buf.blkList) == [] then NetEmpty
        else if HEADER <= old(HeadRoom(buf)) then NetOk
        else if buf.mgr.blkSize < HEADER then NetSize
        else if old(buf.mgr.pool) == [] then NetNone else NetOk
      ensures buf.refs == old(buf.refs) || buf.refs == 1
      ensures r == NetOk ==>
        && buf.Valid() && buf.blkList != [] && HEADER <= buf.blkList[0].size && HEADER <= buf.capacity
        && buf.Content()[HEADER..] == old(buf.Content())
        && buf.blkList[0].payload in old(Payloads(buf.blkList) + Payloads(buf.mgr.pool))
      ensures r == NetEmpty || r == NetSize ==> buf.Valid() && buf.Content() == old(buf.Content())
      ensures r == NetNone ==> (buf.Valid() <==> code.Repaired?)
      ensures r == NetNone ==>
        && buf.mgr.pool == old(buf.mgr.pool) == []
        && buf.blkList == (if code.Written? then [buf.mgr.nowhere] else []) + old(buf.blkList)
      ensures buf.Valid() ==>
        Owned(buf.blkList) + Owned(buf.mgr.pool) == old(Owned(buf.blkList) + Owned(buf.mgr.pool))
    {
      assert buf.blkList != [] ==> HeadRoom(buf) == buf.blkList[0].data;
      hide *;
      buf.Facts();
      buf.mgr.PoolFacts();
      ghost var l, p := buf.blkList, buf.mgr.pool;
      r := buf.AllocHeader(code, HEADER, true);
      if r == NetOk {
        PktWorld.HeaderAddedMeans(buf, HEADER, l, old(Views(buf.blkList)), p);
        ghost var k := Dropped(Views(buf.blkList), HEADER);
        HeaderBlocks(p, l, k, buf.blkList);
        HeaderFits(buf);
      } else {
        assert [] + l == l;
        assert buf.Valid() ==> buf.blkList == l && buf.mgr.pool == p;
      }
    }

    method FillHeader(protocol: word, dest: seq<byte>, buf: PktBuffer)
      requires Ready() && Mac(dest) && buf.Valid() && buf.blkList != [] && HEADER <= buf.blkList[0].size
      modifies buf.blkList[0].payload
      ensures buf.Valid() && HEADER <= buf.capacity
      ensures buf.Content() == Head(dest, hwaddr, protocol) + old(buf.Content())[HEADER..]
    {
      hide PktBuffer.Valid, PktBuffer.Content, Splice, Head, HostToNet, Stored, Network;
      ghost var s := buf.Content();
      FirstWindow(buf);
      WriteFirst(buf, 0, dest);
      WriteFirst(buf, 6, hwaddr);
      StoredInNetworkOrder(bigEndian, protocol);
      WriteFirst(buf, 12, Stored(bigEndian, HostToNet(bigEndian, protocol)));
      HeadWritten(s, dest, hwaddr, protocol);
    }

    /** The padding and the header of a frame around the packet. */
    method MakeFrame(code: Code, protocol: word, dest: seq<byte>, buf: PktBuffer) returns (r: NetErr)
      requires Ready() && Mac(dest) && buf.Valid() && buf.mgr == mgr
      modifies buf, mgr`pool, mgr`bufPool, Owned(mgr.pool), Owned(buf.blkList)
      modifies Payloads(mgr.pool), Payloads(buf.blkList)
      ensures mgr.bufPool == old(mgr.bufPool) && (buf.refs == old(buf.refs) || buf.refs == 1)
      ensures r == FrameOf(code, old(buf.capacity), old(RoomOf(buf)), old(HeadRoom(buf)), mgr.blkSize, |old(mgr.pool)|)
      ensures buf.Valid() <==> r != NetNone || code.Repaired?
      ensures r == NetNone && code.Written? ==>
        mgr.pool == [] && buf.blkList == [mgr.nowhere] + old(buf.blkList) + old(mgr.pool)
      ensures buf.Valid() ==>
        Owned(buf.blkList) + Owned(mgr.pool) == old(Owned(buf.blkList) + Owned(mgr.pool))
      ensures r == NetOk ==>
        (buf.Content() == Frame(dest, hwaddr, protocol, old(buf.Content())) <==>
          PadsRight(code, old(buf.capacity), old(RoomOf(buf))))
    {
      hide PktBuffer.Valid, PktBuffer.Content, Views, Bytes, NoDup, Held, Owned, Payloads, Chunks, Repeat;
      hide RoomOf, HeadRoom, Head, Frame, Padding, PadsRight, PadOf;
      ghost var s := buf.Content();
      buf.Facts();
      mgr.PoolFacts();
      r := Pad(code, buf);
      BlocksMoved(old(buf.blkList), old(mgr.pool), |buf.blkList| - |old(buf.blkList)|);
      if r != NetOk {
        return;
      }
      ghost var t := buf.Content();
      FirstBlock(buf);
      HeadRoomIs(buf);
      FrameIs(dest, hwaddr, protocol, s, t);
      r := PutHeader(code, protocol, dest, buf);
      NoneLeft(old(buf.blkList), old(mgr.pool), mgr.nowhere);
    }

    /** A frame around the packet, handed to the network itself when it is addressed to it and to
        the output queue otherwise. The result follows from what a caller can see before the
        call; what is queued is the frame exactly when the padding comes out right. */
    method EtherRawOut(code: Code, protocol: word, dest: seq<byte>, buf: PktBuffer) returns (r: NetErr)
      requires Ready() && Mac(dest) && buf.Valid() && buf.mgr == mgr
      modifies this`inQueue, this`outQueue, this`noticed
      modifies buf, mgr`pool, mgr`bufPool, Owned(mgr.pool), Owned(buf.blkList)
      modifies Payloads(mgr.pool), Payloads(buf.blkList)
      ensures mgr.bufPool == old(mgr.bufPool) && (buf.refs == old(buf.refs) || buf.refs == 1)
      ensures var q := if r == NetOk then [buf] else [];
        && inQueue == old(inQueue) + (if dest == hwaddr then q else [])
        && outQueue == old(outQueue) + (if dest == hwaddr then [] else q)
        && noticed == old(noticed) + if dest == hwaddr then |q| else 0
      ensures var f := FrameOf(code, old(buf.capacity), old(RoomOf(buf)), old(HeadRoom(buf)),
                               mgr.blkSize, |old(mgr.pool)|);
        r == if f != NetOk then f
             else if |old(if dest == hwaddr then inQueue else outQueue)| < queueLimit then NetOk else NetFull
      ensures buf.Valid() <==> r != NetNone || code.Repaired?
      ensures r == NetNone && code.Written? ==>
        mgr.pool == [] && buf.blkList == [mgr.nowhere] + old(buf.blkList) + old(mgr.pool)
      ensures buf.Valid() ==>
        Owned(buf.blkList) + Owned(mgr.pool) == old(Owned(buf.blkList) + Owned(mgr.pool))
      ensures r == NetOk ==>
        (buf.Content() == Frame(dest, hwaddr, protocol, old(buf.Content())) <==>
          PadsRight(code, old(buf.capacity), old(RoomOf(buf))))
      ensures PadsRight(code, old(buf.capacity), old(RoomOf(buf))) ==>
        var n := Missing(old(buf.capacity), old(RoomOf(buf)), mgr.blkSize);
        && (r == NetOk <==>
              && n <= |old(mgr.pool)|
              && (HEADER <= old(HeadRoom(buf)) || (HEADER <= mgr.blkSize && n < |old(mgr.pool)|))
              && |old(if dest == hwaddr then inQueue else outQueue)| < queueLimit)
        && (r == NetNone <==> old(HeadRoom(buf)) < HEADER <= mgr.blkSize && n == |old(mgr.pool)|)
    {
      hide *;
      FrameFacts(code, buf);
      r := MakeFrame(code, protocol, dest, buf);
      if r != NetOk {
        assert inQueue == inQueue + [] && outQueue == outQueue + [];
        return;
      }
      label Made:
      if hwaddr == dest {
        assert outQueue == outQueue + [];
        r := PutBufToInQueue(buf);
      } else {
        assert inQueue == inQueue + [];
        r := PutBufToOutQueue(buf);
      }
      buf.PacketKept@Made();
    }
  }

  lemma FrameFacts(code: Code, buf: PktBuffer)
    requires buf.Valid()
    ensures 0 < buf.mgr.blkSize && (buf.capacity == 0 ==> RoomOf(buf) == 0)
    ensures var f := FrameOf(code, buf.capacity, RoomOf(buf), HeadRoom(buf), buf.mgr.blkSize, |buf.mgr.pool|);
      var n := Missing(buf.capacity, RoomOf(buf), buf.mgr.blkSize);
      && (f == NetOk || f == NetMem || f == NetSize || f == NetNone)
      && (PadsRight(code, buf.capacity, RoomOf(buf)) ==>
            && (f == NetOk <==>
                  && n <= |buf.mgr.pool|
                  && (HEADER <= HeadRoom(buf) || (HEADER <= buf.mgr.blkSize && n < |buf.mgr.pool|)))
            && (f == NetNone <==> HeadRoom(buf) < HEADER <= buf.mgr.blkSize && n == |buf.mgr.pool|))
  {
    hide GrowthOf, Missing, PadsRight, HeadRoom;
    buf.TailFits();
    buf.BlocksOrEmpty();
    if PadsRight(code, buf.capacity, RoomOf(buf)) {
      FramesRight(code, buf.capacity, RoomOf(buf), HeadRoom(buf), buf.mgr.blkSize, |buf.mgr.pool|);
    }
  }

  lemma HeadRoomIs(buf: PktBuffer)
    ensures HeadRoom(buf) == if buf.blkList == [] then 0 else buf.blkList[0].data
  {
  }

  lemma NoneLeft(l: seq<PktBlock>, p: seq<PktBlock>, b: PktBlock)
    ensures l + p[..|p|] == l + p && [b] + (l + p) == [b] + l + p && p[|p|..] == []
    ensures l + p[..0] == l && p[0..] == p
  {
  }

  lemma LongEnough(code: Code, s: seq<byte>, room: nat)
    ensures DATA_MIN <= |s| ==> PadsRight(code, |s|, room) && s + Padding(|s|) == s
  {
  }

  /** The manager as its clients leave it: the pool in order, every pooled buffer empty. */
  ghost predicate Stocked(mgr: PktManager)
    reads mgr, set b | b in mgr.bufPool
  {
    && mgr.Valid() && |mgr.bufPool| <= mgr.limit
    && (forall b :: b in mgr.bufPool ==> b.mgr == mgr && b.blkList == [])
    && (forall i, j :: 0 <= i < j < |mgr.bufPool| ==> mgr.bufPool[i] != mgr.bufPool[j])
  }

  lemma WorldStocked(mgr: PktManager, live: seq<PktBuffer>)
    requires PktWorld.World(mgr, live)
    ensures Stocked(mgr)
  {
  }

  /** An empty buffer fresh from the pool is a packet without bytes. */
  lemma EmptyPacket(buf: PktBuffer)
    requires buf.mgr.Valid() && buf.blkList == [] && buf.capacity == 0
    ensures buf.Valid() && buf.Content() == []
  {
    assert Views(buf.blkList) == [];
  }

  lemma OneChunk(n: nat, blkSize: nat)
    requires 0 < n <= blkSize
    ensures Chunks(n, blkSize) == [n]
  {
    assert Chunks(0, blkSize) == [];
  }

  /** A request asking who has target, in one block with no room behind it. */
  method MakeRequest(netif: EtherNet, target: seq<byte>) returns (buf: PktBuffer?)
    requires netif.Ready() && Ip(target) && Stocked(netif.mgr) && ARP_SIZE <= netif.mgr.blkSize
    modifies netif.mgr`pool, netif.mgr`bufPool, set b | b in netif.mgr.bufPool
    modifies Owned(netif.mgr.pool), Payloads(netif.mgr.pool)
    ensures Stocked(netif.mgr)
    ensures buf == null <==> old(netif.mgr.bufPool) == [] || old(netif.mgr.pool) == []
    ensures buf == null ==>
      netif.mgr.pool == old(netif.mgr.pool) && Rotated(old(netif.mgr.bufPool), netif.mgr.bufPool)
    ensures buf != null ==>
      && old(netif.mgr.bufPool) == [buf] + netif.mgr.bufPool && buf.mgr == netif.mgr
      && old(netif.mgr.pool) == buf.blkList + netif.mgr.pool && |buf.blkList| == 1
      && buf.Valid() && buf.refs == 1
      && buf.Content() == Request(netif.hwaddr, netif.ipaddr, target)
      && buf.blkList[0].data == netif.mgr.blkSize - ARP_SIZE && RoomOf(buf) == 0
  {
    hide PktBuffer.Valid, PktBuffer.Content, Views, Bytes, NoDup, Held, Cut, PktManager.Valid;
    hide Request, RoomOf, Stocked, Rotated;
    buf := AllocRequest(netif.mgr);
    if buf == null {
      return;
    }
    label Made:
    var r := buf.SetContHeader(ARP_SIZE);
    FillRequest(netif, target, buf);
    StockKept@Made(netif.mgr);
    RoomIs(buf);
  }

  /** A buffer with room for the request, allocated at the end of one block. */
  method AllocRequest(mgr: PktManager) returns (buf: PktBuffer?)
    requires Stocked(mgr) && ARP_SIZE <= mgr.blkSize
    modifies mgr`pool, mgr`bufPool, set b | b in mgr.bufPool
    modifies Owned(mgr.pool)
    ensures Stocked(mgr)
    ensures buf == null <==> old(mgr.bufPool) == [] || old(mgr.pool) == []
    ensures buf == null ==> mgr.pool == old(mgr.pool) && Rotated(old(mgr.bufPool), mgr.bufPool)
    ensures buf != null ==>
      && old(mgr.bufPool) == [buf] + mgr.bufPool && buf.mgr == mgr
      && old(mgr.pool) == buf.blkList + mgr.pool && |buf.blkList| == 1
      && buf.Valid() && buf.refs == 1 && buf.capacity == ARP_SIZE
      && buf.blkList[0].data == mgr.blkSize - ARP_SIZE && buf.blkList[0].size == ARP_SIZE
  {
    hide PktBuffer.Valid, PktBuffer.Content, Views, Bytes, NoDup, Held, Owned;
    buf := mgr.GetBuffer();
    if buf == null {
      return;
    }
    TakenOut(old(mgr.bufPool), buf, mgr.bufPool);
    EmptyPacket(buf);
    var ok := AllocOrFree(mgr, buf);
    if !ok {
      return null;
    }
  }

  method AllocOrFree(mgr: PktManager, buf: PktBuffer) returns (ok: bool)
    requires Stocked(mgr) && |mgr.bufPool| < mgr.limit && ARP_SIZE <= mgr.blkSize
    requires buf.Valid() && buf.mgr == mgr && buf.blkList == [] && buf.capacity == 0 && buf !in mgr.bufPool
    modifies buf, mgr`pool, mgr`bufPool, Owned(mgr.pool)
    ensures Stocked(mgr)
    ensures ok <==> old(mgr.pool) != []
    ensures !ok ==> mgr.pool == old(mgr.pool) && mgr.bufPool == old(mgr.bufPool) + [buf]
    ensures ok ==>
      && mgr.bufPool == old(mgr.bufPool)
      && old(mgr.pool) == buf.blkList + mgr.pool && |buf.blkList| == 1
      && buf.Valid() && buf.refs == 1 && buf.capacity == ARP_SIZE
      && buf.blkList[0].data == mgr.blkSize - ARP_SIZE && buf.blkList[0].size == ARP_SIZE
  {
    hide *;
    StockedParts(mgr);
    ok := AllocOne(buf);
    buf.Facts();
    if !ok {
      var freed := buf.Free();
      buf.Facts();
    }
    StockedIs(mgr);
  }

  /** The request's bytes, at the end of one block. */
  method AllocOne(buf: PktBuffer) returns (ok: bool)
    requires buf.Valid() && buf.blkList == [] && buf.capacity == 0 && ARP_SIZE <= buf.mgr.blkSize
    modifies buf, buf.mgr`pool, Owned(buf.mgr.pool)
    ensures buf.Valid() && buf.refs == 1 && (ok <==> old(buf.mgr.pool) != [])
    ensures !ok ==> buf.mgr.pool == old(buf.mgr.pool) && buf.blkList == []
    ensures ok ==>
      && old(buf.mgr.pool) == buf.blkList + buf.mgr.pool && |buf.blkList| == 1 && buf.capacity == ARP_SIZE
      && buf.blkList[0].data == buf.mgr.blkSize - ARP_SIZE && buf.blkList[0].size == ARP_SIZE
  {
    assert 0 < ARP_SIZE;
    hide *;
    OneChunk(ARP_SIZE, buf.mgr.blkSize);
    ghost var p := buf.mgr.pool;
    ok := buf.Alloc(ARP_SIZE, true, false);
    if ok {
      OneBlock(p[0], ARP_SIZE, buf.mgr.blkSize);
      assert p[..1] == [p[0]] && p == [p[0]] + p[1..];
      assert buf.blkList == [p[0]] && buf.mgr.pool == p[1..];
    }
  }

  lemma StockedIs(mgr: PktManager)
    requires mgr.Valid() && |mgr.bufPool| <= mgr.limit
    requires forall b :: b in mgr.bufPool ==> b.mgr == mgr && b.blkList == []
    requires forall i, j :: 0 <= i < j < |mgr.bufPool| ==> mgr.bufPool[i] != mgr.bufPool[j]
    ensures Stocked(mgr)
  {
  }

  /** An allocation that takes one block, with the room before it. */
  lemma OneBlock(b: PktBlock, n: nat, blkSize: nat)
    requires 0 < n <= blkSize
    ensures Cut([b], n, blkSize, true) ==> b.data == blkSize - n && b.size == n
    ensures Placed([b], true) == [b]
  {
    OneChunk(n, blkSize);
    assert Cut([b], n, blkSize, true) ==> [b][0].data == blkSize - n;
  }

  twostate lemma StockKept(mgr: PktManager)
    requires old(Stocked(mgr)) && mgr.pool == old(mgr.pool) && mgr.bufPool == old(mgr.bufPool)
    requires forall b :: b in mgr.bufPool ==> b.blkList == old(b.blkList)
    ensures Stocked(mgr)
  {
  }

  lemma RoomIs(buf: PktBuffer)
    requires buf.Valid() && |buf.blkList| == 1
    ensures RoomOf(buf) == buf.mgr.blkSize - (buf.blkList[0].data + buf.blkList[0].size)
  {
    buf.Facts();
    HeldMember(buf.blkList, buf.mgr);
  }

  /** No buffer lost: the same queue, or the first one back at its end. */
  predicate Rotated(was: seq<PktBuffer>, now: seq<PktBuffer>) {
    now == was || (was != [] && now == was[1..] + [was[0]])
  }

  /** The fields of the request, each written in place and in the order of the source. */
  method FillRequest(netif: EtherNet, target: seq<byte>, buf: PktBuffer)
    requires netif.Ready() && Ip(target) && buf.Valid()
    requires buf.capacity == ARP_SIZE && buf.blkList != [] && ARP_SIZE <= buf.blkList[0].size
    modifies buf.blkList[0].payload
    ensures buf.Valid() && buf.Content() == Request(netif.hwaddr, netif.ipaddr, target)
  {
    hide PktBuffer.Valid, PktBuffer.Content, Splice, HostToNet, Stored, Network, Request, Repeat;
    var big := netif.bigEndian;
    ghost var s := buf.Content();
    StoredInNetworkOrder(big, 1);
    StoredInNetworkOrder(big, IPV4);
    WriteFirst(buf, 0, Stored(big, HostToNet(big, 1)));
    WriteFirst(buf, 2, Stored(big, HostToNet(big, IPV4)));
    WriteFirst(buf, 4, [6]);
    WriteFirst(buf, 5, [4]);
    WriteFirst(buf, 6, Stored(big, HostToNet(big, 1)));
    RequestHead(s);
    ghost var t := buf.Content();
    WriteFirst(buf, 8, netif.hwaddr);
    WriteFirst(buf, 14, netif.ipaddr);
    WriteFirst(buf, 24, target);
    WriteFirst(buf, 18, Repeat(0, 6));
    RequestTail(t, netif.hwaddr, netif.ipaddr, target);
  }

  /** How many pooled blocks a request frame takes: the packet's, the padding's and, when the
      first block has no headroom left, the header's. */
  function RequestBlocks(blkSize: nat): nat {
    if HEADER + ARP_SIZE <= blkSize then 2 else 3
  }

  /** The one state of the pool in which a request, as written, spoils it: there is a buffer, the
      header needs a block of its own, and packet and padding take the last two. */
  predicate Spoils(code: Code, blkSize: nat, pooled: nat, buffers: nat) {
    code.Written? && blkSize < HEADER + ARP_SIZE && pooled == 2 && 0 < buffers
  }

  /** Sends a request for an address. It succeeds exactly when there are a buffer, the blocks, and
      room in the queue; the frame that is queued is the request, byte for byte, for all
      addresses. Otherwise everything is given back. No block is lost and the manager stays in
      order exactly when the request does not spoil the pool. */
  method MakeArpRequest(code: Code, netif: EtherNet, target: seq<byte>) returns (r: NetErr)
    requires netif.Ready() && Ip(target) && Stocked(netif.mgr) && ARP_SIZE <= netif.mgr.blkSize
    modifies netif`inQueue, netif`outQueue, netif`noticed
    modifies netif.mgr`pool, netif.mgr`bufPool, set b | b in netif.mgr.bufPool
    modifies Owned(netif.mgr.pool), Payloads(netif.mgr.pool)
    ensures Stocked(netif.mgr) <==>
      !Spoils(code, netif.mgr.blkSize, |old(netif.mgr.pool)|, |old(netif.mgr.bufPool)|)
    ensures var own := Broadcast() == netif.hwaddr;
      r == NetOk <==>
        && old(netif.mgr.bufPool) != [] && RequestBlocks(netif.mgr.blkSize) <= |old(netif.mgr.pool)|
        && |old(if own then netif.inQueue else netif.outQueue)| < netif.queueLimit
    ensures r == NetOk ==>
      var buf := old(netif.mgr.bufPool)[0];
      && buf.Valid() && buf.mgr == netif.mgr && buf.refs == 1
      && netif.mgr.bufPool == old(netif.mgr.bufPool)[1..]
      && Owned(buf.blkList) + Owned(netif.mgr.pool) == old(Owned(netif.mgr.pool))
      && buf.Content() == Frame(Broadcast(), netif.hwaddr, ARP, Request(netif.hwaddr, netif.ipaddr, target))
      && OnWire(buf.Content(), netif.hwaddr, netif.ipaddr, target)
      && if Broadcast() == netif.hwaddr then netif.inQueue == old(netif.inQueue) + [buf]
         else netif.outQueue == old(netif.outQueue) + [buf]
    ensures r != NetOk ==>
      && netif.inQueue == old(netif.inQueue) && netif.outQueue == old(netif.outQueue)
      && Rotated(old(netif.mgr.bufPool), netif.mgr.bufPool)
      && (Owned(netif.mgr.pool) == old(Owned(netif.mgr.pool)) <==>
            !Spoils(code, netif.mgr.blkSize, |old(netif.mgr.pool)|, |old(netif.mgr.bufPool)|))
    ensures Spoils(code, netif.mgr.blkSize, |old(netif.mgr.pool)|, |old(netif.mgr.bufPool)|) ==>
      r == NetNone && netif.mgr.nowhere in netif.mgr.pool
  {
    hide PktBuffer.Valid, PktBuffer.Content, Views, Bytes, NoDup, Held, Cut, PktManager.Valid, Chunks;
    hide Request, RoomOf, Frame, OnWire;
    hide Owned, Payloads, Stocked;
    StockedParts(netif.mgr);
    var buf := MakeRequest(netif, target);
    if buf == null {
      return NetNone;
    }
    PoolSplit(old(netif.mgr.pool), buf.blkList, netif.mgr.pool);
    OneChunk(DATA_MIN - ARP_SIZE, netif.mgr.blkSize);
    TakenOut(old(netif.mgr.bufPool), buf, netif.mgr.bufPool);
    r := SendOrFree(code, netif, buf);
    RequestOnWire(netif.hwaddr, netif.ipaddr, target,
                  Frame(Broadcast(), netif.hwaddr, ARP, Request(netif.hwaddr, netif.ipaddr, target)));
  }

  lemma TakenOut(was: seq<PktBuffer>, buf: PktBuffer, now: seq<PktBuffer>)
    requires was == [buf] + now && forall i, j :: 0 <= i < j < |was| ==> was[i] != was[j]
    ensures buf !in now && |was| == |now| + 1
  {
    assert forall k :: 0 <= k < |now| ==> now[k] == was[k + 1];
    assert was[0] == buf;
  }

  /** The header of a packet needs a block of its own, and the padding took the last one. */
  predicate Stuck(code: Code, head: nat, missing: nat, blkSize: nat, free: nat) {
    code.Written? && head < HEADER <= blkSize && missing == free
  }

  /** The second half of a request: what could not be queued is freed, in whatever state it is. */
  method SendOrFree(code: Code, netif: EtherNet, buf: PktBuffer) returns (r: NetErr)
    requires netif.Ready() && Stocked(netif.mgr) && |netif.mgr.bufPool| < netif.mgr.limit
    requires buf.Valid() && buf.mgr == netif.mgr && buf.refs == 1 && buf !in netif.mgr.bufPool
    requires buf.blkList != [] && 0 < buf.capacity && RoomOf(buf) == 0
    modifies netif`inQueue, netif`outQueue, netif`noticed
    modifies buf, netif.mgr`pool, netif.mgr`bufPool, Owned(netif.mgr.pool), Owned(buf.blkList)
    modifies Payloads(netif.mgr.pool), Payloads(buf.blkList)
    ensures var n := Missing(old(buf.capacity), 0, netif.mgr.blkSize);
      var stuck := Stuck(code, old(HeadRoom(buf)), n, netif.mgr.blkSize, |old(netif.mgr.pool)|);
      && (r == NetOk <==>
            && n <= |old(netif.mgr.pool)|
            && (HEADER <= old(HeadRoom(buf))
                || (HEADER <= netif.mgr.blkSize && n < |old(netif.mgr.pool)|))
            && |old(if Broadcast() == netif.hwaddr then netif.inQueue else netif.outQueue)| < netif.queueLimit)
      && (Stocked(netif.mgr) <==> !stuck)
      && (stuck ==> r == NetNone && netif.mgr.nowhere in netif.mgr.pool)
      && (r != NetOk ==>
            (Owned(netif.mgr.pool) == old(Owned(buf.blkList) + Owned(netif.mgr.pool)) <==> !stuck))
    ensures r == NetOk ==>
      && buf.Valid() && buf.refs == 1 && netif.mgr.bufPool == old(netif.mgr.bufPool)
      && Owned(buf.blkList) + Owned(netif.mgr.pool) == old(Owned(buf.blkList) + Owned(netif.mgr.pool))
      && buf.Content() == Frame(Broadcast(), netif.hwaddr, ARP, old(buf.Content()))
      && if Broadcast() == netif.hwaddr then netif.inQueue == old(netif.inQueue) + [buf]
         else netif.outQueue == old(netif.outQueue) + [buf]
    ensures r != NetOk ==>
      && netif.inQueue == old(netif.inQueue) && netif.outQueue == old(netif.outQueue)
      && netif.mgr.bufPool == old(netif.mgr.bufPool) + [buf]
  {
    hide PktBuffer.Valid, PktBuffer.Content, Views, Bytes, NoDup, Held, RoomOf, HeadRoom;
    hide PktManager.Valid, Frame, Chunks;
    hide Owned, Payloads, Missing, FrameOf, Filled;
    buf.Facts();
    LimitPositive(buf);
    r := netif.EtherRawOut(code, ARP, Broadcast(), buf);
    if r == NetNone && code.Written? {
      ghost var l := old(buf.blkList) + old(netif.mgr.pool);
      assert buf.blkList == [netif.mgr.nowhere] + l;
      var freed := buf.Free();
      Spoiled(netif.mgr, l);
      return;
    }
    buf.Facts();
    if r != NetOk {
      PktWorld.OwnedPlus(netif.mgr.pool, buf.blkList);
      var freed := buf.Free();
      buf.Facts();
    }
  }

  lemma LimitPositive(buf: PktBuffer)
    requires buf.Valid() && buf.blkList != []
    ensures 0 < buf.mgr.limit && Owned(buf.blkList) <= buf.mgr.blocks && Owned(buf.mgr.pool) <= buf.mgr.blocks
    ensures buf.mgr.Configured() && buf.mgr.nowhere !in buf.mgr.blocks
  {
    assert buf.blkList[0] in Owned(buf.blkList);
  }

  /** A pool that was refilled from a list headed by no block. */
  lemma Spoiled(mgr: PktManager, l: seq<PktBlock>)
    requires mgr.Configured() && 0 < mgr.limit
    requires mgr.pool == Filled([], [mgr.nowhere] + l, mgr.limit)
    ensures mgr.nowhere in mgr.pool && mgr.nowhere in Owned(mgr.pool) && !mgr.Valid() && !Stocked(mgr)
  {
    assert mgr.pool[0] == mgr.nowhere;
  }

  lemma PoolSplit(p: seq<PktBlock>, l: seq<PktBlock>, rest: seq<PktBlock>)
    requires p == l + rest
    ensures Owned(p) == Owned(l) + Owned(rest)
    ensures Payloads(p) == Payloads(l) + Payloads(rest)
  {
    PktWorld.OwnedPlus(l, rest);
  }

  /** In any state that a run of buffer operations leads to, a request keeps the partition of all
      blocks exactly when it does not spoil the pool; the buffer it queues is one more live one. */
  method RequestKeepsWorld(code: Code, netif: EtherNet, live: seq<PktBuffer>, target: seq<byte>)
    returns (r: NetErr, now: seq<PktBuffer>)
    requires netif.Ready() && Ip(target) && ARP_SIZE <= netif.mgr.blkSize && PktWorld.World(netif.mgr, live)
    modifies netif`inQueue, netif`outQueue, netif`noticed
    modifies netif.mgr`pool, netif.mgr`bufPool, set b | b in netif.mgr.bufPool
    modifies Owned(netif.mgr.pool), Payloads(netif.mgr.pool)
    ensures PktWorld.World(netif.mgr, now) <==>
      !Spoils(code, netif.mgr.blkSize, |old(netif.mgr.pool)|, |old(netif.mgr.bufPool)|)
    ensures r == NetOk ==> old(netif.mgr.bufPool) != [] && now == live + [old(netif.mgr.bufPool)[0]]
    ensures r != NetOk ==> now == live
  {
    hide *;
    var mgr := netif.mgr;
    var q := mgr.bufPool;
    ghost var s := PktWorld.Site(mgr, live, {});
    WorldStocked(mgr, live);
    StockedParts(mgr);
    PktWorld.LiveDistinct(mgr, live);
    PktWorld.PooledFacts(mgr, live);
    PktWorld.PartitionFacts(mgr, live);
    PktWorld.MovableNone(s);
    mgr.PoolFacts();
    PktWorld.OthersPayloads(mgr.pool, mgr);
    var spoils := Spoils(code, mgr.blkSize, |mgr.pool|, |mgr.bufPool|);
    r := MakeArpRequest(code, netif, target);
    now := live;
    if spoils {
      NoWorld(mgr, live);
      return;
    }
    StockedParts(mgr);
    mgr.PoolFacts();
    PktWorld.OthersKept(s);
    PktWorld.ListsKept(s);
    if r == NetOk {
      now := live + [q[0]];
      WorldMore(mgr, live, q[0], q, old(Owned(mgr.pool)));
    } else {
      WorldSame(s, q);
    }
  }

  /** The world after a request that was sent, and after one that was not. */
  lemma WorldMore(mgr: PktManager, live: seq<PktBuffer>, buf: PktBuffer, q: seq<PktBuffer>, m: set<PktBlock>)
    requires forall i, j :: 0 <= i < j < |live| ==> live[i] != live[j]
    requires forall b :: b in live ==> b.Valid() && b.refs == 1 && b.mgr == mgr && Owned(b.blkList) !! m
    requires forall a, b :: a in live && b in live && a != b ==> Owned(a.blkList) !! Owned(b.blkList)
    requires buf.Valid() && buf.refs == 1 && buf.mgr == mgr && mgr.Valid()
    requires m == Owned(mgr.pool) + Owned(buf.blkList)
    requires m + PktWorld.HeldElsewhere(PktWorld.Site(mgr, live, {})) == mgr.blocks
    requires q == [buf] + mgr.bufPool && |q| + |live| == mgr.limit
    requires forall b :: b in q ==> b.mgr == mgr && b !in live
    requires forall b :: b in mgr.bufPool ==> b.blkList == []
    requires forall i, j :: 0 <= i < j < |q| ==> q[i] != q[j]
    ensures PktWorld.World(mgr, live + [buf])
  {
    hide *;
    var now := live + [buf];
    TakenOut(q, buf, mgr.bufPool);
    PktWorld.LiveAdded(mgr, live, buf, m);
    assert forall b :: b in mgr.bufPool ==> b in q && b !in now;
    assert forall k :: 0 <= k < |mgr.bufPool| ==> mgr.bufPool[k] == q[k + 1];
    PktWorld.BuffersLeft(mgr, now, mgr.bufPool);
    PktWorld.WorldIs(mgr, now);
  }

  lemma WorldSame(s: PktWorld.Site, q: seq<PktBuffer>)
    requires s.busy == {} && forall i, j :: 0 <= i < j < |s.live| ==> s.live[i] != s.live[j]
    requires forall b :: b in s.live ==>
      b.Valid() && b.refs == 1 && b.mgr == s.mgr && Owned(b.blkList) !! Owned(s.mgr.pool)
    requires forall a, b :: a in s.live && b in s.live && a != b ==> Owned(a.blkList) !! Owned(b.blkList)
    requires s.mgr.Valid() && Owned(s.mgr.pool) + PktWorld.HeldElsewhere(s) == s.mgr.blocks
    requires Rotated(q, s.mgr.bufPool) && |q| + |s.live| == s.mgr.limit
    requires forall b :: b in q ==> b.mgr == s.mgr && b !in s.live
    requires forall b :: b in s.mgr.bufPool ==> b.blkList == []
    requires forall i, j :: 0 <= i < j < |s.mgr.bufPool| ==> s.mgr.bufPool[i] != s.mgr.bufPool[j]
    ensures PktWorld.World(s.mgr, s.live)
  {
    hide *;
    RotatedLength(q, s.mgr.bufPool);
    PktWorld.WorldIntro(s, s.live, Owned(s.mgr.pool));
    PktWorld.BuffersLeft(s.mgr, s.live, s.mgr.bufPool);
    PktWorld.WorldIs(s.mgr, s.live);
  }

  lemma NoWorld(mgr: PktManager, live: seq<PktBuffer>)
    requires !Stocked(mgr)
    ensures !PktWorld.World(mgr, live)
  {
    if PktWorld.World(mgr, live) {
      WorldStocked(mgr, live);
    }
  }

  lemma RotatedLength(was: seq<PktBuffer>, now: seq<PktBuffer>)
    requires Rotated(was, now)
    ensures |was| == |now| && forall b :: b in now <==> b in was
  {
    assert was != [] ==> was == [was[0]] + was[1..];
  }

  lemma StockedParts(mgr: PktManager)
    requires Stocked(mgr)
    ensures mgr.Valid() && |mgr.bufPool| <= mgr.limit
    ensures forall b :: b in mgr.bufPool ==> b.mgr == mgr && b.blkList == []
    ensures forall i, j :: 0 <= i < j < |mgr.bufPool| ==> mgr.bufPool[i] != mgr.bufPool[j]
  {
  }

  lemma OwnedPayloads(l: seq<PktBlock>)
    ensures forall b :: b in Owned(l) ==> b.payload in Payloads(l)
  {
  }

  lemma ParseData(f: seq<byte>)
    ensures Parse(f).Some? ==> HEADER <= |f| && Parse(f).value.data == f[HEADER..]
  {
  }

  /** From one machine to another, whatever the byte order of either: a request that was sent is
      accepted as an ARP frame, and reads as the question that was asked. */
  method RequestArrives(code: Code, sender: EtherNet, receiver: EtherNet, target: seq<byte>)
    returns (sent: NetErr, received: NetErr, protocol: Option<word>)
    requires sender.Ready() && receiver.Ready()
    requires Ip(target) && Stocked(sender.mgr) && ARP_SIZE <= sender.mgr.blkSize
    modifies sender`inQueue, sender`outQueue, sender`noticed
    modifies sender.mgr`pool, sender.mgr`bufPool, set b | b in sender.mgr.bufPool
    modifies Owned(sender.mgr.pool), Payloads(sender.mgr.pool)
    ensures sent == NetOk ==>
      && old(sender.mgr.bufPool) != []
      && var buf := old(sender.mgr.bufPool)[0];
      && received == NetOk && protocol == Some(0x0806) && buf.Valid() && buf.capacity == 60
      && OnWire(buf.Content(), sender.hwaddr, sender.ipaddr, target)
      && ParseArp(buf.Content()[14..])
         == Frames.Arp(1, 0x0800, 6, 4, 1, sender.hwaddr, sender.ipaddr, [0, 0, 0, 0, 0, 0], target)
  {
    hide PktBuffer.Valid, PktBuffer.Content, Views, Bytes, NoDup, Held, Request;
    hide Stocked, Frame, Parse, ParseArp, OnWire;
    hide Owned, Payloads, PktManager.Valid;
    received, protocol := NetNone, None;
    OwnedPayloads(sender.mgr.pool);
    sent := MakeArpRequest(code, sender, target);
    if sent == NetOk {
      var queue := if Broadcast() == sender.hwaddr then sender.inQueue else sender.outQueue;
      var buf := queue[|queue| - 1];
      OwnedMember(buf.blkList);
      assert Owned(buf.blkList) <= old(Owned(sender.mgr.pool));
      assert buf.blkList != [] ==> buf.blkList[0] in Owned(buf.blkList);
      assert buf.blkList != [] ==> buf.blkList[0].payload in old(Payloads(sender.mgr.pool));
      RequestFrameParses(sender.hwaddr, sender.ipaddr, target);
      ParseData(buf.Content());
      received, protocol := receiver.LinkIn(buf);
    }
  }
}
