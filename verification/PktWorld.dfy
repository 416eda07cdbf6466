/** Clients of the packet buffer: round trips over several calls, and the partition of all
    blocks that every sequence of calls keeps. */
module PktWorld {
  import opened Basics
  import opened Chain
  import opened PktBuf

  /** What was written at a position is what is read back there. */
  method WriteReadBack(b: PktBuffer, at: nat, src: array<byte>, dest: array<byte>)
    requires b.Valid() && b.Coherent() && 0 < src.Length == dest.Length && at + src.Length <= b.capacity
    requires src !in Payloads(b.blkList) && dest !in Payloads(b.blkList) && src != dest
    modifies b`pos, b`curBlk, b`blkOffset, Payloads(b.blkList), dest
    ensures b.Valid() && b.Coherent() && b.pos == at + src.Length
    ensures dest[..] == src[..] == old(src[..])
    ensures b.Content() == Splice(old(b.Content()), at, src[..])
  {
    hide *;
    var r := b.Seek(at);
    ghost var s, d := b.Content(), src[..src.Length];
    r := b.Write(src, src.Length);
    assert b.Content() == Splice(s, at, d);
    r := b.Seek(at);
    ghost var o := dest[..];
    r := b.Read(dest, dest.Length);
    SliceOfSplice(s, at, d);
    SpliceAll(o, d);
    assert src[..] == d;
  }

  /** A header that was added and removed again leaves no trace: the same blocks with the same
      windows and bytes, the same capacity, and the same set of pooled blocks. */
  method HeaderRoundTrip(b: PktBuffer, code: Code, n: nat, isCont: bool) returns (r: NetErr)
    requires b.Valid()
    modifies b, b.mgr`pool, Owned(b.mgr.pool), Owned(b.blkList)
    ensures r == NetOk ==>
      && b.Valid() && b.blkList == old(b.blkList) && Views(b.blkList) == old(Views(b.blkList))
      && b.capacity == old(b.capacity) && Owned(b.mgr.pool) == old(Owned(b.mgr.pool))
  {
    hide *;
    b.Facts();
    b.mgr.PoolFacts();
    ghost var l, p := b.blkList, b.mgr.pool;
    r := b.AllocHeader(code, n, isCont);
    if r == NetOk {
      HeaderAddedMeans(b, n, l, old(Views(b.blkList)), p);
      ghost var k := Dropped(Views(b.blkList), n);
      OwnedMember(b.blkList);
      OwnedMember(l);
      assert b.blkList[k..] == l && b.blkList[..k] == Reverse(p[..k]);
      SplitOwned(p, k);
      ReverseOwned(p[..k]);
      OwnedPlus(Reverse(p[..k]), l);
      var _ := b.RemoveHeader(n);
      RotatedPool(p, k);
    }
  }

  /** Two contiguous headers that fit one block together: the second goes into the room the first
      left, so that they take one block at most, and none exactly when the packet had room for
      both. */
  method TwoHeaders(b: PktBuffer, code: Code, n: nat, m: nat) returns (first: NetErr, second: NetErr)
    requires b.Valid() && b.blkList != [] && n + m <= b.mgr.blkSize
    modifies b, b.mgr`pool, Owned(b.mgr.pool), Owned(b.blkList)
    ensures first == NetOk <==> n <= old(b.blkList[0].data) || old(b.mgr.pool) != []
    ensures first == NetOk ==>
      (second == NetOk <==> n + m <= old(b.blkList[0].data) || old(b.mgr.pool) != [])
    ensures first == NetOk && second == NetOk ==>
      && b.Valid() && b.blkList != [] && m <= b.blkList[0].size
      && b.capacity == old(b.capacity) + n + m && b.Content()[n + m..] == old(b.Content())
      && var k := if n + m <= old(b.blkList[0].data) then 0 else 1;
        b.mgr.pool == old(b.mgr.pool)[k..] && |b.blkList| == |old(b.blkList)| + k
  {
    hide *;
    ghost var s, p := b.Content(), b.mgr.pool;
    second := NetNone;
    first := ContHeader(b, code, n);
    if first == NetOk {
      ghost var t := b.Content();
      second := ContHeader(b, code, m);
      if second == NetOk {
        DropTwice(b.Content(), m, t, n, s);
      }
    }
  }

  /** A contiguous header, and the room it leaves before it. */
  method ContHeader(b: PktBuffer, code: Code, n: nat) returns (r: NetErr)
    requires b.Valid() && b.blkList != [] && n <= b.mgr.blkSize
    modifies b, b.mgr`pool, Owned(b.mgr.pool), Owned(b.blkList)
    ensures r == NetOk <==> n <= old(b.blkList[0].data) || old(b.mgr.pool) != []
    ensures r == NetOk ==>
      && b.Valid() && b.blkList != [] && n <= b.blkList[0].size
      && b.capacity == old(b.capacity) + n && b.Content()[n..] == old(b.Content())
      && Owned(b.blkList) + Owned(b.mgr.pool) <= old(Owned(b.blkList) + Owned(b.mgr.pool))
      && var head := old(b.blkList[0].data);
        if n <= head then
          && b.mgr.pool == old(b.mgr.pool) && |b.blkList| == |old(b.blkList)|
          && b.blkList[0].data == head - n
        else
          && b.mgr.pool == old(b.mgr.pool)[1..] && |b.blkList| == |old(b.blkList)| + 1
          && b.blkList[0].data == b.mgr.blkSize - n
  {
    hide *;
    b.Facts();
    b.mgr.PoolFacts();
    ghost var l, c, p := b.blkList, Views(b.blkList), b.mgr.pool;
    r := b.AllocHeader(code, n, true);
    if r == NetOk {
      HeaderAddedMeans(b, n, l, c, p);
      TookBlocks(b.blkList, l, p, Dropped(Views(b.blkList), n), b.mgr.pool);
    }
  }

  lemma TookBlocks(now: seq<PktBlock>, l: seq<PktBlock>, p: seq<PktBlock>, k: nat, rest: seq<PktBlock>)
    requires k <= |p| && NoDup(p) && now == Reverse(p[..k]) + l && rest == p[k..]
    ensures |now| + |rest| == |l| + |p| && (l != [] ==> now != [])
    ensures Owned(now) + Owned(rest) == Owned(l) + Owned(p)
  {
    SplitOwned(p, k);
    ReverseOwned(p[..k]);
    OwnedPlus(Reverse(p[..k]), l);
  }

  lemma DropTwice(a: seq<byte>, m: nat, b: seq<byte>, n: nat, c: seq<byte>)
    requires m <= |a| && a[m..] == b && n <= |b| && b[n..] == c
    ensures a[n + m..] == c
  {
  }

  lemma HeaderAddedMeans(b: PktBuffer, n: nat, l: seq<PktBlock>, c: seq<View>, p: seq<PktBlock>)
    requires b.HeaderAdded(n, l, c, p)
    ensures b.Valid() && Formed(Views(b.blkList)) && n <= b.capacity && n <= |Bytes(Views(b.blkList))|
    ensures Formed(c) && b.capacity == |Bytes(c)| + n && b.Content()[n..] == Bytes(c)
    ensures TrimFront(Views(b.blkList), n) == c
    ensures var k := Dropped(Views(b.blkList), n);
      k <= |p| && b.blkList == Reverse(p[..k]) + l && b.mgr.pool == p[k..]
  {
  }

  lemma RotatedPool(p: seq<PktBlock>, k: nat)
    requires k <= |p| && NoDup(p)
    ensures Owned(p[k..] + Reverse(p[..k])) == Owned(p)
  {
    SplitOwned(p, k);
    ReverseOwned(p[..k]);
    OwnedConcat(p[k..], Reverse(p[..k]));
  }

  lemma OwnedPlus(a: seq<PktBlock>, b: seq<PktBlock>)
    ensures Owned(a + b) == Owned(a) + Owned(b)
  {
  }

  lemma SliceOfSplice(s: seq<byte>, p: nat, d: seq<byte>)
    requires p + |d| <= |s|
    ensures Slice(Splice(s, p, d), p, |d|) == d
  {
  }

  lemma SpliceAll(s: seq<byte>, d: seq<byte>)
    requires |s| == |d|
    ensures Splice(s, 0, d) == d
  {
  }

  /** One call on one live buffer, or a change in which buffers are live. */
  datatype Op =
    | Get
    | Alloc(i: nat, n: nat, allocFront: bool, insertFront: bool)
    | AllocHeader(i: nat, n: nat, isCont: bool)
    | RemoveHeader(i: nat, n: nat)
    | Resize(i: nat, n: nat)
    | SetContHeader(i: nat, n: nat)
    | FillAt(i: nat, at: nat, v: byte, n: nat)
    | Copy(i: nat, j: nat, n: nat)
    | Merge(i: nat, j: nat)
    | Free(i: nat)

  /** The union of what the live buffers hold. */
  ghost function HeldBy(live: seq<PktBuffer>): set<PktBlock>
    reads set b | b in live
  {
    set b, x | b in live && x in b.blkList :: x
  }

  ghost predicate Apart(live: seq<PktBuffer>)
    reads set b | b in live
  {
    forall i, j :: 0 <= i < j < |live| ==>
      live[i] != live[j] && Owned(live[i].blkList) !! Owned(live[j].blkList)
  }

  /** The pool and the lists of the live buffers partition the blocks. */
  ghost predicate Partition(mgr: PktManager, live: seq<PktBuffer>)
    reads mgr, set b | b in live
    reads set b, x | b in live && x in b.blkList :: x
    reads set b, x | b in live && x in b.blkList :: x.payload
  {
    && mgr.Valid()
    && (forall b :: b in live ==> b.mgr == mgr && b.refs == 1 && b.Valid())
    && Apart(live)
    && Owned(mgr.pool) + HeldBy(live) == mgr.blocks && Owned(mgr.pool) !! HeldBy(live)
  }

  /** Partition, and every buffer is live or pooled, the pooled ones holding nothing. */
  ghost predicate World(mgr: PktManager, live: seq<PktBuffer>)
    reads mgr, set b | b in live, set b | b in mgr.bufPool
    reads set b, x | b in live && x in b.blkList :: x
    reads set b, x | b in live && x in b.blkList :: x.payload
  {
    Partition(mgr, live) && PoolOfBuffers(mgr, live)
  }

  ghost predicate PoolOfBuffers(mgr: PktManager, live: seq<PktBuffer>)
    reads mgr, set b | b in mgr.bufPool
  {
    && (forall b :: b in mgr.bufPool ==> b.mgr == mgr && b.blkList == [] && b !in live)
    && (forall i, j :: 0 <= i < j < |mgr.bufPool| ==> mgr.bufPool[i] != mgr.bufPool[j])
    && |mgr.bufPool| + |live| == mgr.limit
  }

  /** The flat packets that the live buffers stand for. */
  ghost predicate Shows(live: seq<PktBuffer>, packets: seq<seq<byte>>)
    reads (set b | b in live), (set b | b in live :: b.mgr)
    reads set b, x | b in live && x in b.blkList :: x
    reads set b, x | b in live && x in b.blkList :: x.payload
  {
    |packets| == |live| && forall i :: 0 <= i < |live| ==> live[i].Valid() && live[i].Content() == packets[i]
  }

  /** What adding a header makes of the packet: bytes before it, all that were asked for when the pool
      has the blocks, and for a contiguous header all or none. */
  predicate HeaderPut(n: nat, isCont: bool, blkSize: nat, free: nat, a: seq<byte>, b: seq<byte>)
    requires 0 < blkSize
  {
    && |a| <= |b| <= |a| + n && b[|b| - |a|..] == a
    && (a == [] ==> b == a) && (isCont ==> |b| == |a| || |b| == |a| + n)
    && (a != [] && (if isCont then n <= blkSize && 0 < free else |Chunks(n, blkSize)| <= free) ==>
          |b| == |a| + n)
  }

  /** What a call on one buffer makes of its packet, from a to b, with so many pooled blocks. */
  predicate Change(code: Code, op: Op, blkSize: nat, free: nat, a: seq<byte>, b: seq<byte>)
    requires 0 < blkSize
  {
    match op
    case Alloc(_, n, _, insertFront) =>
      if |Chunks(n, blkSize)| <= free then |b| == |a| + n && if insertFront then b[n..] == a else a <= b
      else b == a
    case AllocHeader(_, n, isCont) => HeaderPut(n, isCont, blkSize, free, a, b)
    case RemoveHeader(_, n) => b == if n <= |a| then a[n..] else a
    case Resize(_, n) =>
      if n == 0 || TWO_32 <= n then b == a
      else if n <= |a| then b == a[..n] || (code.Written? && b == a)
      else a <= b && (code.Repaired? ==>
        |b| <= n && (|Chunks(n - |a|, blkSize)| <= free ==> |b| == n))
    case FillAt(_, at, v, n) => b == if 0 < n && at + n <= |a| then Splice(a, at, Repeat(v, n)) else a
    case _ => b == a
  }

  /** What a call makes of all the packets: a buffer comes or goes, one packet takes bytes of
      another, or one packet changes and no other. */
  predicate Effect(code: Code, op: Op, blkSize: nat, limit: nat, free: nat, was: seq<seq<byte>>, now: seq<seq<byte>>)
    requires 0 < blkSize
  {
    match op
    case Get => now == if |was| < limit then was + [[]] else was
    case Copy(i, j, n) =>
      now == if i < |was| && j < |was| && i != j && n <= |was[i]| && n <= |was[j]|
             then was[i := Splice(was[i], 0, was[j][..n])] else was
    case Merge(i, j) =>
      now == if i < |was| && j < |was| && i != j then Gone(was[i := was[i] + was[j]], j) else was
    case Free(j) => now == if j < |was| then Gone(was, j) else was
    case _ =>
      if op.i < |was| then
        && |now| == |was| && now == was[op.i := now[op.i]]
        && Change(code, op, blkSize, free, was[op.i], now[op.i])
      else now == was
  }

  function Gone(packets: seq<seq<byte>>, j: nat): seq<seq<byte>>
    requires j < |packets|
  {
    packets[..j] + packets[j + 1..]
  }

  /** The packets and the number of pooled blocks at one moment. */
  datatype Scene = Scene(packets: seq<seq<byte>>, free: nat)

  /** A script on packets: from nothing at all, each call with its effect. */
  ghost predicate Played(code: Code, script: seq<Op>, blkSize: nat, limit: nat, trace: seq<Scene>)
    requires 0 < blkSize
  {
    && |trace| == |script| + 1 && trace[0] == Scene([], limit)
    && forall k :: 0 <= k < |script| ==>
      Effect(code, script[k], blkSize, limit, trace[k].free, trace[k].packets, trace[k + 1].packets)
  }

  method Start(blkSize: nat, count: nat) returns (mgr: PktManager)
    requires 0 < blkSize && count * blkSize < TWO_31
    ensures World(mgr, []) && mgr.blkSize == blkSize && mgr.limit == count && fresh(mgr)
    ensures fresh(mgr.blocks) && forall b :: b in mgr.bufPool ==> fresh(b)
    ensures forall b :: b in mgr.blocks ==> fresh(b.payload)
  {
    mgr := new PktManager(blkSize, count);
  }

  /** From the start of the manager on: any script on any configuration keeps the World. */
  method RunFromStart(blkSize: nat, count: nat, code: Code, script: seq<Op>)
    returns (mgr: PktManager, live: seq<PktBuffer>, ghost trace: seq<Scene>)
    requires 0 < blkSize && count * blkSize < TWO_31
    ensures World(mgr, live) && mgr.blkSize == blkSize && mgr.limit == count
    ensures Played(code, script, blkSize, count, trace) && Shows(live, trace[|script|].packets)
    ensures |mgr.pool| == trace[|script|].free
  {
    hide *;
    mgr := Start(blkSize, count);
    live, trace := Run(mgr, code, script);
  }

  /** The buffers that a call is about to change, among the live ones. */
  datatype Site = Site(mgr: PktManager, live: seq<PktBuffer>, busy: set<PktBuffer>)

  /** The blocks a call may move about: the pool's and those of the buffers it changes. */
  ghost function Movable(s: Site): set<PktBlock>
    reads s.mgr, s.busy
  {
    Owned(s.mgr.pool) + (set b, x | b in s.busy && x in b.blkList :: x)
  }

  ghost function HeldElsewhere(s: Site): set<PktBlock>
    reads set b | b in s.live
  {
    set b, x | b in s.live && b !in s.busy && x in b.blkList :: x
  }

  /** A call that touches nothing but its buffers and the movable blocks leaves every other live
      buffer as it was. */
  twostate lemma OthersKept(s: Site)
    requires old(Partition(s.mgr, s.live)) && forall b :: b in s.busy ==> b in s.live
    requires forall x :: x in s.mgr.blocks && x !in old(Movable(s)) ==>
      x.data == old(x.data) && x.size == old(x.size) && x.payload[..] == old(x.payload[..])
    requires forall b :: b in s.live && b !in s.busy ==>
      b.blkList == old(b.blkList) && b.capacity == old(b.capacity) && b.refs == old(b.refs)
    requires NoDup(s.mgr.pool) && Owned(s.mgr.pool) <= old(Movable(s))
    ensures forall b :: b in s.live && b !in s.busy ==> b.Valid() && b.refs == 1 && b.mgr == s.mgr
    ensures forall b :: b in s.live && b !in s.busy ==> b.Content() == old(b.Content())
    ensures forall b :: b in s.live && b !in s.busy ==> Owned(b.blkList) !! old(Movable(s))
  {
    OwnedApart(s);
    forall b | b in s.live && b !in s.busy
      ensures b.Valid() && b.Content() == old(b.Content())
    {
      hide NoDup, Views, Bytes, Movable, Apart, HeldBy;
      OwnedMember(b.blkList);
      ViewsFrame(b.blkList);
      b.ValidIntro();
    }
  }

  twostate lemma OwnedApart(s: Site)
    requires old(Partition(s.mgr, s.live)) && forall b :: b in s.busy ==> b in s.live
    ensures forall b :: b in s.live && b !in s.busy ==> old(Owned(b.blkList) !! Movable(s))
    ensures old(Movable(s)) + old(HeldElsewhere(s)) == s.mgr.blocks
  {
    hide NoDup, Views, Bytes, PktBuffer.Valid, PktManager.Valid, PoolOfBuffers;
    forall b | b in s.live && b !in s.busy
      ensures old(Owned(b.blkList) !! Movable(s))
    {
      forall x | x in old(Owned(b.blkList))
        ensures x !in old(Movable(s))
      {
        assert x in old(HeldBy(s.live));
        forall c | c in s.busy
          ensures x !in old(c.blkList)
        {
          assert old(Owned(b.blkList)) !! old(Owned(c.blkList));
        }
      }
    }
  }

  twostate lemma ListsKept(s: Site)
    requires old(Partition(s.mgr, s.live)) && forall b :: b in s.busy ==> b in s.live
    requires forall b :: b in s.live && b !in s.busy ==> b.blkList == old(b.blkList)
    ensures old(Movable(s)) + HeldElsewhere(s) == s.mgr.blocks
    ensures forall a, b :: a in s.live && b in s.live && a !in s.busy && b !in s.busy && a != b ==>
      Owned(a.blkList) !! Owned(b.blkList)
  {
    hide NoDup, Views, Bytes, PktBuffer.Valid, PktManager.Valid, PoolOfBuffers;
    OwnedApart(s);
    assert HeldElsewhere(s) == old(HeldElsewhere(s));
    forall a, b | a in s.live && b in s.live && a !in s.busy && b !in s.busy && a != b
      ensures Owned(a.blkList) !! Owned(b.blkList)
    {
      assert old(Owned(a.blkList)) !! old(Owned(b.blkList));
    }
  }

  lemma WorldIntro(s: Site, now: seq<PktBuffer>, m: set<PktBlock>)
    requires forall i, j :: 0 <= i < j < |now| ==> now[i] != now[j]
    requires forall b :: b in now ==> b in s.live && b.Valid() && b.refs == 1 && b.mgr == s.mgr
    requires forall b :: b in s.live && b !in s.busy ==> b in now && Owned(b.blkList) !! m
    requires forall a, b :: a in s.live && b in s.live && a !in s.busy && b !in s.busy && a != b ==>
      Owned(a.blkList) !! Owned(b.blkList)
    requires forall a, b :: a in now && b in now && a in s.busy && b in s.busy ==> a == b
    requires forall b :: b in now && b in s.busy ==> Owned(b.blkList) <= m
    requires s.mgr.Valid() && Owned(s.mgr.pool) <= m && m + HeldElsewhere(s) == s.mgr.blocks
    requires forall x :: x in m ==> x in Owned(s.mgr.pool) || exists b :: b in now && b in s.busy && x in b.blkList
    ensures Partition(s.mgr, now)
  {
    NowApart(s, now, m);
    NowHeld(s, now, m);
  }

  /** The case of one busy buffer that stays live. */
  lemma WorldIntroOne(s: Site, now: seq<PktBuffer>, m: set<PktBlock>, me: PktBuffer)
    requires forall i, j :: 0 <= i < j < |now| ==> now[i] != now[j]
    requires forall b :: b in now ==> b in s.live && b.Valid() && b.refs == 1 && b.mgr == s.mgr
    requires forall b :: b in s.live && b !in s.busy ==> b in now && Owned(b.blkList) !! m
    requires forall a, b :: a in s.live && b in s.live && a !in s.busy && b !in s.busy && a != b ==>
      Owned(a.blkList) !! Owned(b.blkList)
    requires me in now && me in s.busy && forall a :: a in now && a in s.busy ==> a == me
    requires s.mgr.Valid() && m == Owned(s.mgr.pool) + Owned(me.blkList) && m + HeldElsewhere(s) == s.mgr.blocks
    ensures Partition(s.mgr, now)
  {
    hide *;
    OwnedMember(me.blkList);
    WorldIntro(s, now, m);
  }

  lemma NowApart(s: Site, now: seq<PktBuffer>, m: set<PktBlock>)
    requires forall i, j :: 0 <= i < j < |now| ==> now[i] != now[j]
    requires forall b :: b in now ==> b in s.live
    requires forall b :: b in s.live && b !in s.busy ==> Owned(b.blkList) !! m
    requires forall a, b :: a in s.live && b in s.live && a !in s.busy && b !in s.busy && a != b ==>
      Owned(a.blkList) !! Owned(b.blkList)
    requires forall a, b :: a in now && b in now && a in s.busy && b in s.busy ==> a == b
    requires forall b :: b in now && b in s.busy ==> Owned(b.blkList) <= m
    ensures Apart(now)
  {
    hide Owned;
    forall i, j | 0 <= i < j < |now|
      ensures Owned(now[i].blkList) !! Owned(now[j].blkList)
    {
      var a, b := now[i], now[j];
      assert a in s.live && b in s.live;
    }
  }

  lemma NowHeld(s: Site, now: seq<PktBuffer>, m: set<PktBlock>)
    requires forall b :: b in now ==> b in s.live && b.Valid() && b.mgr == s.mgr
    requires forall b :: b in s.live && b !in s.busy ==> b in now
    requires forall b :: b in now && b in s.busy ==> Owned(b.blkList) <= m
    requires s.mgr.Valid() && Owned(s.mgr.pool) <= m && m + HeldElsewhere(s) == s.mgr.blocks
    requires forall x :: x in m ==> x in Owned(s.mgr.pool) || exists b :: b in now && b in s.busy && x in b.blkList
    ensures Owned(s.mgr.pool) + HeldBy(now) == s.mgr.blocks && Owned(s.mgr.pool) !! HeldBy(now)
  {
    hide NoDup, Views, Bytes, PktBuffer.Valid, PktManager.Valid;
    forall x | x in HeldBy(now)
      ensures x in s.mgr.blocks && x !in Owned(s.mgr.pool)
    {
      var b :| b in now && x in b.blkList;
      b.Facts();
      assert x in Owned(b.blkList);
    }
    forall x | x in s.mgr.blocks
      ensures x in Owned(s.mgr.pool) || x in HeldBy(now)
    {
      if x !in m {
        var b :| b in s.live && b !in s.busy && x in b.blkList;
      }
    }
  }

  /** A call on one buffer that moves blocks only between it and the pool keeps the World. */
  twostate lemma CallKept(s: Site)
    requires old(World(s.mgr, s.live)) && s.busy != {} && forall b :: b in s.busy ==> b in s.live
    requires forall a, b :: a in s.busy && b in s.busy ==> a == b
    requires forall x :: x in s.mgr.blocks && x !in old(Movable(s)) ==>
      x.data == old(x.data) && x.size == old(x.size) && x.payload[..] == old(x.payload[..])
    requires forall b :: b in s.live && b !in s.busy ==>
      b.blkList == old(b.blkList) && b.capacity == old(b.capacity) && b.refs == old(b.refs)
    requires forall b :: b in s.busy ==> b.Valid() && b.refs == 1
    requires forall b :: b in s.busy ==>
      Owned(s.mgr.pool) + Owned(b.blkList) == old(Owned(s.mgr.pool) + Owned(b.blkList))
    requires s.mgr.bufPool == old(s.mgr.bufPool) && forall b :: b in s.mgr.bufPool ==> b.blkList == old(b.blkList)
    ensures World(s.mgr, s.live)
    ensures forall b :: b in s.live && b !in s.busy ==> b.Valid() && b.Content() == old(b.Content())
  {
    hide *;
    var me :| me in s.busy;
    OldFacts(s);
    me.Facts();
    s.mgr.PoolFacts();
    OthersKept(s);
    ListsKept(s);
    WorldIntroOne(s, s.live, old(Movable(s)), me);
    BuffersLeft(s.mgr, s.live, s.mgr.bufPool);
    WorldIs(s.mgr, s.live);
  }

  /** The packets after a call on the i-th live buffer. */
  lemma ShowsOne(live: seq<PktBuffer>, was: seq<seq<byte>>, i: nat)
    requires |was| == |live| && i < |live| && live[i].Valid()
    requires forall k :: 0 <= k < |live| && k != i ==> live[k].Valid() && live[k].Content() == was[k]
    ensures Shows(live, was[i := live[i].Content()])
  {
    hide PktBuffer.Valid, PktBuffer.Content;
  }

  lemma ShowsAt(live: seq<PktBuffer>, packets: seq<seq<byte>>)
    ensures Shows(live, packets) <==>
      |packets| == |live| && forall i :: 0 <= i < |live| ==> live[i].Valid() && live[i].Content() == packets[i]
  {
  }

  twostate lemma OldFacts(s: Site)
    requires old(World(s.mgr, s.live)) && forall b :: b in s.busy ==> b in s.live
    requires forall a, b :: a in s.busy && b in s.busy ==> a == b
    ensures old(Partition(s.mgr, s.live)) && old(PoolOfBuffers(s.mgr, s.live))
    ensures forall b :: b in s.busy ==> old(Movable(s)) == old(Owned(s.mgr.pool) + Owned(b.blkList))
    ensures forall b :: b in s.live ==> b.mgr == s.mgr
    ensures forall a, b :: 0 <= a < b < |s.live| ==> s.live[a] != s.live[b]
    ensures old(|s.mgr.bufPool| + |s.live| == s.mgr.limit)
    ensures forall b :: b in old(s.mgr.bufPool) ==> b.mgr == s.mgr && old(b.blkList) == [] && b !in s.live
    ensures forall i, j :: 0 <= i < j < old(|s.mgr.bufPool|) ==> old(s.mgr.bufPool[i]) != old(s.mgr.bufPool[j])
  {
    hide NoDup, Views, Bytes, PktBuffer.Valid, PktManager.Valid, HeldBy, Held;
  }

  lemma LiveFacts(mgr: PktManager, live: seq<PktBuffer>, b: PktBuffer)
    requires World(mgr, live) && b in live
    ensures b.mgr == mgr && b.refs == 1 && b.Valid() && mgr.Valid() && b !in mgr.bufPool
    ensures Movable(Site(mgr, live, {b})) == Owned(mgr.pool) + Owned(b.blkList)
    ensures forall x :: x in mgr.blocks && x !in Movable(Site(mgr, live, {b})) ==>
      x !in Owned(mgr.pool) && x !in Owned(b.blkList) && x.payload !in Payloads(b.blkList)
    ensures forall x :: x in b.blkList ==> x in Owned(b.blkList) && x in mgr.blocks
  {
    hide NoDup, Views, Bytes, Held, Apart, HeldBy;
    b.Facts();
    HeldMember(b.blkList, mgr);
    OthersPayloads(b.blkList, mgr);
  }

  lemma OthersPayloads(l: seq<PktBlock>, mgr: PktManager)
    requires mgr.Configured() && Owned(l) <= mgr.blocks
    ensures forall x :: x in mgr.blocks && x !in Owned(l) ==> x.payload !in Payloads(l)
  {
    assert forall y :: y in l ==> y in Owned(l);
  }

  /** Blocks taken from the front of the pool into a list, at either end of it. */
  lemma Moved(p: seq<PktBlock>, l: seq<PktBlock>, k: nat, allocFront: bool)
    requires NoDup(p) && k <= |p|
    ensures Owned(p[k..]) + Owned(Placed(p[..k], allocFront) + l) == Owned(p) + Owned(l)
    ensures Owned(p[k..]) + Owned(l + Placed(p[..k], allocFront)) == Owned(p) + Owned(l)
  {
    SplitOwned(p, k);
    ReverseOwned(p[..k]);
    OwnedPlus(Placed(p[..k], allocFront), l);
    OwnedPlus(l, Placed(p[..k], allocFront));
  }

  lemma AllocChange(code: Code, op: Op, blkSize: nat, free: nat, a: seq<byte>, b: seq<byte>)
    requires 0 < blkSize && op.Alloc?
    requires |Chunks(op.n, blkSize)| <= free ==>
      |b| == |a| + op.n && if op.insertFront then b[op.n..] == a else a <= b
    requires free < |Chunks(op.n, blkSize)| ==> b == a
    ensures Change(code, op, blkSize, free, a, b)
  {
  }

  lemma HeaderChange(code: Code, op: Op, blkSize: nat, free: nat, a: seq<byte>, b: seq<byte>)
    requires 0 < blkSize && op.AllocHeader? && HeaderPut(op.n, op.isCont, blkSize, free, a, b)
    ensures Change(code, op, blkSize, free, a, b)
  {
  }

  /** What a new size makes of the packet. */
  lemma SizeChange(code: Code, op: Op, blkSize: nat, free: nat, a: seq<byte>, b: seq<byte>)
    requires 0 < blkSize && op.Resize? && 0 < op.n < TWO_32
    requires op.n <= |a| ==> b == a[..op.n]
    requires |a| < op.n ==> a <= b
    requires |a| < op.n && code.Repaired? ==>
      |b| <= op.n && (|Chunks(op.n - |a|, blkSize)| <= free ==> |b| == op.n)
    ensures Change(code, op, blkSize, free, a, b)
  {
  }

  lemma TrimChange(code: Code, op: Op, blkSize: nat, free: nat, a: seq<byte>, b: seq<byte>)
    requires 0 < blkSize && op.RemoveHeader? && op.n <= |a| && b == a[op.n..]
    ensures Change(code, op, blkSize, free, a, b)
  {
  }

  lemma NoChange(code: Code, op: Op, blkSize: nat, free: nat, a: seq<byte>, b: seq<byte>)
    requires 0 < blkSize && op.SetContHeader? && b == a
    ensures Change(code, op, blkSize, free, a, b)
  {
  }

  lemma FillChange(code: Code, op: Op, blkSize: nat, free: nat, a: seq<byte>, b: seq<byte>)
    requires 0 < blkSize && op.FillAt?
    requires b == if 0 < op.n && op.at + op.n <= |a| then Splice(a, op.at, Repeat(op.v, op.n)) else a
    ensures Change(code, op, blkSize, free, a, b)
  {
  }

  method DoAlloc(mgr: PktManager, live: seq<PktBuffer>, i: nat, b: PktBuffer, code: Code, n: nat,
            allocFront: bool, insertFront: bool, ghost was: seq<seq<byte>>)
    returns (ghost now: seq<seq<byte>>)
    requires World(mgr, live) && i < |live| && b == live[i] && Shows(live, was)
    modifies b, mgr`pool, Owned(mgr.pool)
    ensures World(mgr, live) && Shows(live, now) && |now| == |was| && i < |was| && now == was[i := now[i]]
    ensures mgr.bufPool == old(mgr.bufPool) && 0 < mgr.blkSize
    ensures Change(code, Alloc(i, n, allocFront, insertFront), mgr.blkSize, |old(mgr.pool)|, was[i], now[i])
  {
    hide *;
    LiveFacts(mgr, live, b);
    LiveDistinct(mgr, live);
    ShowsAt(live, was);
    b.BlocksOrEmpty();
    ghost var l, p := b.blkList, mgr.pool;
    mgr.PoolFacts();
    var ok := b.Alloc(n, allocFront, insertFront);
    if ok {
      Moved(p, l, |Chunks(n, mgr.blkSize)|, allocFront);
    }
    AllocChange(code, Alloc(i, n, allocFront, insertFront), mgr.blkSize, |p|, was[i], b.Content());
    var s := Site(mgr, live, {b});
    CallKept(s);
    now := was[i := b.Content()];
    ShowsOne(live, was, i);
  }

  /** As written, adding a header keeps the blocks in order exactly when it does not ask an empty
      pool for a contiguous block. */
  predicate HeaderHarmless(code: Code, b: PktBuffer, n: nat, isCont: bool)
    reads b, b.mgr, if b.blkList == [] then {} else {b.blkList[0]}
  {
    || code.Repaired? || !isCont || b.blkList == []
    || n <= b.blkList[0].data || b.mgr.blkSize < n || b.mgr.pool != []
  }

  /** As written, shrinking does so exactly when what precedes the last block is shorter than the
      new size, so that no block is cut off. */
  predicate ShrinkHarmless(code: Code, b: PktBuffer, n: nat)
    reads b, if b.blkList == [] then {} else {b.blkList[|b.blkList| - 1]}
  {
    || code.Repaired? || b.blkList == [] || b.capacity <= n
    || b.capacity - b.blkList[|b.blkList| - 1].size < n
  }

  method DoAllocHeader(mgr: PktManager, live: seq<PktBuffer>, i: nat, b: PktBuffer, code: Code, n: nat,
            isCont: bool, ghost was: seq<seq<byte>>)
    returns (ghost now: seq<seq<byte>>)
    requires World(mgr, live) && i < |live| && b == live[i] && Shows(live, was) && HeaderHarmless(code, b, n, isCont)
    modifies b, mgr`pool, Owned(mgr.pool), Owned(b.blkList)
    ensures World(mgr, live) && Shows(live, now) && |now| == |was| && i < |was| && now == was[i := now[i]]
    ensures mgr.bufPool == old(mgr.bufPool) && 0 < mgr.blkSize
    ensures Change(code, AllocHeader(i, n, isCont), mgr.blkSize, |old(mgr.pool)|, was[i], now[i])
  {
    hide *;
    LiveFacts(mgr, live, b);
    LiveDistinct(mgr, live);
    ShowsAt(live, was);
    b.BlocksOrEmpty();
    AddHeader(code, b, n, isCont);
    HeaderChange(code, AllocHeader(i, n, isCont), mgr.blkSize, old(|mgr.pool|), was[i], b.Content());
    var s := Site(mgr, live, {b});
    CallKept(s);
    now := was[i := b.Content()];
    ShowsOne(live, was, i);
  }

  /** Whatever comes of it, the blocks of the packet and the pool are the same together, exactly
      when the call is harmless. */
  method AddHeader(code: Code, b: PktBuffer, n: nat, isCont: bool)
    requires b.Valid() && b.refs == 1
    modifies b, b.mgr`pool, Owned(b.mgr.pool), Owned(b.blkList)
    ensures b.refs == 1 && (b.Valid() <==> old(HeaderHarmless(code, b, n, isCont)))
    ensures b.Valid() ==>
      Owned(b.mgr.pool) + Owned(b.blkList) == old(Owned(b.mgr.pool) + Owned(b.blkList))
    ensures 0 < b.mgr.blkSize
    ensures b.Valid() ==>
      HeaderPut(n, isCont, b.mgr.blkSize, |old(b.mgr.pool)|, old(b.Content()), b.Content())
  {
    HarmlessHeaderIs(code, b, n, isCont);
    hide *;
    b.Facts();
    b.mgr.PoolFacts();
    b.BlocksOrEmpty();
    ghost var l, c, p, a := b.blkList, Views(b.blkList), b.mgr.pool, b.Content();
    ghost var head := if l == [] then 0 else l[0].data;
    var r := b.AllocHeader(code, n, isCont);
    if r == NetOk {
      HeaderAddedMeans(b, n, l, c, p);
      ghost var k := Dropped(Views(b.blkList), n);
      PlacedFront(p[..k]);
      Moved(p, l, k, true);
    } else {
      assert [] + l == l;
      assert b.Valid() ==> b.blkList == l && b.mgr.pool == p;
    }
    if b.Valid() {
      HeaderPutIs(n, isCont, head, b.mgr.blkSize, |p|, a, b.Content(), r);
    }
  }

  lemma HeaderPutIs(n: nat, isCont: bool, head: nat, blkSize: nat, free: nat, a: seq<byte>, b: seq<byte>, r: NetErr)
    requires 0 < blkSize && (a == [] <==> r == NetEmpty)
    requires r == NetOk ==> |b| == |a| + n && b[n..] == a
    requires r != NetOk && r != NetNone ==> b == a && (r == NetEmpty || (isCont && blkSize < n))
    requires r == NetNone && isCont ==> b == a && free == 0
    requires r == NetNone && !isCont ==>
      |b| == |a| + head && b[head..] == a && head < n && free < |Chunks(n - head, blkSize)|
    ensures HeaderPut(n, isCont, blkSize, free, a, b)
  {
    if r == NetNone && !isCont {
      ChunksMonotone(n - head, n, blkSize);
    }
  }

  lemma HarmlessHeaderIs(code: Code, b: PktBuffer, n: nat, isCont: bool)
    ensures HeaderHarmless(code, b, n, isCont) <==>
      || code.Repaired? || !isCont || b.blkList == []
      || n <= b.blkList[0].data || b.mgr.blkSize < n || b.mgr.pool != []
  {
  }

  method DoRemoveHeader(mgr: PktManager, live: seq<PktBuffer>, i: nat, b: PktBuffer, code: Code, n: nat,
            ghost was: seq<seq<byte>>)
    returns (ghost now: seq<seq<byte>>)
    requires World(mgr, live) && i < |live| && b == live[i] && Shows(live, was) && b.blkList != [] && n <= b.capacity
    modifies b`blkList, b`capacity, mgr`pool, Owned(b.blkList)
    ensures World(mgr, live) && Shows(live, now) && |now| == |was| && i < |was| && now == was[i := now[i]]
    ensures mgr.bufPool == old(mgr.bufPool) && 0 < mgr.blkSize
    ensures Change(code, RemoveHeader(i, n), mgr.blkSize, |old(mgr.pool)|, was[i], now[i])
  {
    hide *;
    LiveFacts(mgr, live, b);
    LiveDistinct(mgr, live);
    ShowsAt(live, was);
    b.BlocksOrEmpty();
    ghost var l, p := b.blkList, mgr.pool;
    b.Facts();
    ghost var k := Dropped(Views(l), n);
    var r := b.RemoveHeader(n);
    Released(p, l[..k], l[k..], l);
    TrimChange(code, RemoveHeader(i, n), mgr.blkSize, |p|, was[i], b.Content());
    var s := Site(mgr, live, {b});
    CallKept(s);
    now := was[i := b.Content()];
    ShowsOne(live, was, i);
  }

  /** Blocks leaving a list for the pool. */
  lemma Released(p: seq<PktBlock>, gone: seq<PktBlock>, kept: seq<PktBlock>, l: seq<PktBlock>)
    requires l == gone + kept || l == kept + gone
    ensures Owned(p + gone) + Owned(kept) == Owned(p) + Owned(l)
  {
    OwnedPlus(p, gone);
    OwnedPlus(gone, kept);
    OwnedPlus(kept, gone);
  }

  /** Blocks leaving the middle of a list, behind its first block. */
  lemma PulledOut(p: seq<PktBlock>, l: seq<PktBlock>, k: nat)
    requires k + 1 <= |l|
    ensures Owned(p + l[1..k + 1]) + Owned([l[0]] + l[k + 1..]) == Owned(p) + Owned(l)
  {
    assert l == [l[0]] + l[1..k + 1] + l[k + 1..];
    OwnedPlus(p, l[1..k + 1]);
    OwnedPlus([l[0]], l[k + 1..]);
    OwnedPlus([l[0]], l[1..k + 1]);
    OwnedPlus([l[0]] + l[1..k + 1], l[k + 1..]);
  }

  method DoResize(mgr: PktManager, live: seq<PktBuffer>, i: nat, b: PktBuffer, code: Code, n: nat,
            ghost was: seq<seq<byte>>)
    returns (ghost now: seq<seq<byte>>)
    requires World(mgr, live) && i < |live| && b == live[i] && Shows(live, was)
    requires 0 < n < TWO_32 && ShrinkHarmless(code, b, n)
    modifies b, mgr`pool, mgr`bufPool, Owned(mgr.pool), Owned(b.blkList)
    ensures World(mgr, live) && Shows(live, now) && |now| == |was| && i < |was| && now == was[i := now[i]]
    ensures mgr.bufPool == old(mgr.bufPool) && 0 < mgr.blkSize
    ensures Change(code, Resize(i, n), mgr.blkSize, |old(mgr.pool)|, was[i], now[i])
  {
    hide *;
    LiveFacts(mgr, live, b);
    LiveDistinct(mgr, live);
    ShowsAt(live, was);
    b.BlocksOrEmpty();
    ChangeSize(code, b, n);
    SizeChange(code, Resize(i, n), mgr.blkSize, old(|mgr.pool|), was[i], b.Content());
    var s := Site(mgr, live, {b});
    CallKept(s);
    now := was[i := b.Content()];
    ShowsOne(live, was, i);
  }

  /** Growing as written may come to a wrong size, but spoils no block; shrinking spoils none
      exactly when the call is harmless. */
  method ChangeSize(code: Code, b: PktBuffer, n: nat)
    requires b.Valid() && b.refs == 1 && 0 < n < TWO_32
    modifies b, b.mgr`pool, b.mgr`bufPool, Owned(b.mgr.pool), Owned(b.blkList)
    ensures b.refs == 1 && b.mgr.bufPool == old(b.mgr.bufPool)
    ensures b.Valid() <==> old(ShrinkHarmless(code, b, n))
    ensures b.Valid() ==>
      Owned(b.mgr.pool) + Owned(b.blkList) == old(Owned(b.mgr.pool) + Owned(b.blkList))
    ensures 0 < b.mgr.blkSize
    ensures b.Valid() && n <= old(b.capacity) ==> b.Content() == old(b.Content())[..n]
    ensures b.Valid() && old(b.capacity) < n ==>
      && old(b.Content()) <= b.Content()
      && (code.Repaired? ==>
            && b.capacity <= n
            && (|Chunks(n - old(b.capacity), b.mgr.blkSize)| <= |old(b.mgr.pool)| ==> b.capacity == n))
  {
    hide *;
    ghost var l, p, cap := b.blkList, b.mgr.pool, b.capacity;
    b.Facts();
    b.mgr.PoolFacts();
    HarmlessShrinkIs(code, b, n);
    ghost var cut := if n < cap then CutAt(Views(l), n) + 1 else 0;
    b.TailFits();
    if cap < n {
      GrowthRepaired(cap, n, b.TailRoom(), b.mgr.blkSize, |p|);
    }
    var r := b.Resize(code, n);
    if cap < n {
      ghost var k := |b.blkList| - |l|;
      PlacedBack(p[..k]);
      Moved(p, l, k, false);
    } else if n < cap && b.Valid() {
      NothingReleased(code, b, l[cut..]);
      Released(p, l[cut..], l[..cut], l);
    }
  }

  lemma HarmlessShrinkIs(code: Code, b: PktBuffer, n: nat)
    requires b.Valid() && 0 < n
    ensures b.capacity <= n ==> ShrinkHarmless(code, b, n)
    ensures n < b.capacity ==>
      && Formed(Views(b.blkList)) && n <= |Bytes(Views(b.blkList))|
      && (ShrinkHarmless(code, b, n) <==>
            code.Repaired? || CutAt(Views(b.blkList), n) + 1 == |b.blkList|)
  {
    hide PktBuffer.Valid, PktManager.Valid, Views, Bytes, NoDup, Held, Owned, CutAt;
    b.Facts();
    BytesLength(Views(b.blkList));
    if n < b.capacity {
      CutLast(Views(b.blkList), n);
    }
  }

  lemma NothingReleased(code: Code, b: PktBuffer, e: seq<PktBlock>)
    ensures code.Repaired? || e == [] ==> b.Released(code, e) == e
  {
  }

  method DoSetContHeader(mgr: PktManager, live: seq<PktBuffer>, i: nat, b: PktBuffer, code: Code, n: nat,
            ghost was: seq<seq<byte>>)
    returns (ghost now: seq<seq<byte>>)
    requires World(mgr, live) && i < |live| && b == live[i] && Shows(live, was) && (b.blkList != [] || 0 < n)
    modifies b`blkList, mgr`pool, Owned(b.blkList), Payloads(b.blkList)
    ensures World(mgr, live) && Shows(live, now) && |now| == |was| && i < |was| && now == was[i := now[i]]
    ensures mgr.bufPool == old(mgr.bufPool) && 0 < mgr.blkSize
    ensures Change(code, SetContHeader(i, n), mgr.blkSize, |old(mgr.pool)|, was[i], now[i])
  {
    hide *;
    LiveFacts(mgr, live, b);
    LiveDistinct(mgr, live);
    ShowsAt(live, was);
    b.BlocksOrEmpty();
    ghost var l, p := b.blkList, mgr.pool;
    PayloadMember(l);
    ghost var pulls := l != [] && l[0].size < n <= b.capacity;
    ghost var k := if pulls then Dropped(Views(l)[1..], b.BehindFirst(n)) else 0;
    var r := b.SetContHeader(n);
    if r == NetOk && pulls {
      PulledOut(p, l, k);
    }
    NoChange(code, SetContHeader(i, n), mgr.blkSize, |p|, was[i], b.Content());
    var s := Site(mgr, live, {b});
    CallKept(s);
    now := was[i := b.Content()];
    ShowsOne(live, was, i);
  }

  method DoFillAt(mgr: PktManager, live: seq<PktBuffer>, i: nat, b: PktBuffer, code: Code, at: nat, v: byte,
            n: nat, ghost was: seq<seq<byte>>)
    returns (ghost now: seq<seq<byte>>)
    requires World(mgr, live) && i < |live| && b == live[i] && Shows(live, was)
    modifies b`pos, b`curBlk, b`blkOffset, Payloads(b.blkList)
    ensures World(mgr, live) && Shows(live, now) && |now| == |was| && i < |was| && now == was[i := now[i]]
    ensures mgr.bufPool == old(mgr.bufPool) && 0 < mgr.blkSize
    ensures Change(code, FillAt(i, at, v, n), mgr.blkSize, |old(mgr.pool)|, was[i], now[i])
  {
    hide *;
    LiveFacts(mgr, live, b);
    LiveDistinct(mgr, live);
    ShowsAt(live, was);
    b.BlocksOrEmpty();
    b.ResetAccess();
    var r := b.Seek(at);
    if r == NetOk {
      r := b.Fill(v, n);
    }
    FillChange(code, FillAt(i, at, v, n), mgr.blkSize, |mgr.pool|, was[i], b.Content());
    var s := Site(mgr, live, {b});
    CallKept(s);
    now := was[i := b.Content()];
    ShowsOne(live, was, i);
  }

  method DoCopy(mgr: PktManager, live: seq<PktBuffer>, i: nat, j: nat, b: PktBuffer, src: PktBuffer, n: nat,
            ghost was: seq<seq<byte>>)
    returns (ghost now: seq<seq<byte>>)
    requires World(mgr, live) && i < |live| && j < |live| && i != j && Shows(live, was)
    requires b == live[i] && src == live[j]
    modifies b`pos, b`curBlk, b`blkOffset, Payloads(b.blkList)
    modifies src`pos, src`curBlk, src`blkOffset
    ensures World(mgr, live) && Shows(live, now) && i < |was| && j < |was|
    ensures now == if n <= |was[i]| && n <= |was[j]| then was[i := Splice(was[i], 0, was[j][..n])] else was
  {
    hide *;
    LiveFacts(mgr, live, b);
    LiveFacts(mgr, live, src);
    LiveDistinct(mgr, live);
    PairApart(mgr, live, b, src);
    ShowsAt(live, was);
    b.ResetAccess();
    src.PacketKept();
    label Rewound:
    src.ResetAccess();
    b.PacketKept@Rewound();
    var r := b.Copy(src, n);
    var s := Site(mgr, live, {b});
    CallKept(s);
    now := was[i := b.Content()];
    ShowsOne(live, was, i);
    assert was[i := was[i]] == was;
  }

  lemma PairApart(mgr: PktManager, live: seq<PktBuffer>, b: PktBuffer, c: PktBuffer)
    requires Partition(mgr, live) && b in live && c in live && b != c
    ensures Owned(b.blkList) !! Owned(c.blkList)
  {
    hide NoDup, Views, Bytes, PktBuffer.Valid, PktManager.Valid, HeldBy, Held;
  }

  function Without(live: seq<PktBuffer>, j: nat): seq<PktBuffer>
    requires j < |live|
  {
    live[..j] + live[j + 1..]
  }

  lemma WithoutMembers(live: seq<PktBuffer>, j: nat)
    requires j < |live| && forall a, b :: 0 <= a < b < |live| ==> live[a] != live[b]
    ensures var now := Without(live, j);
      && |now| == |live| - 1 && (forall a, b :: 0 <= a < b < |now| ==> now[a] != now[b])
      && (forall b :: b in now <==> b in live && b != live[j])
  {
    forall b | b in live && b != live[j]
      ensures b in Without(live, j)
    {
      var k :| 0 <= k < |live| && live[k] == b;
      assert Without(live, j)[if k < j then k else k - 1] == b;
    }
  }

  lemma WithoutIs(live: seq<PktBuffer>, j: nat)
    requires j < |live|
    ensures Without(live, j) == live[..j] + live[j + 1..]
  {
  }

  lemma LiveDistinct(mgr: PktManager, live: seq<PktBuffer>)
    requires World(mgr, live)
    ensures Partition(mgr, live)
    ensures forall a, b :: 0 <= a < b < |live| ==> live[a] != live[b]
    ensures forall b :: b in live ==> b.mgr == mgr && b.refs == 1 && b !in mgr.bufPool
    ensures PoolOfBuffers(mgr, live) && |mgr.bufPool| + |live| == mgr.limit
  {
    hide NoDup, Views, Bytes, Held, HeldBy, PktBuffer.Valid, PktManager.Valid;
  }

  /** live[j], emptied, joined the pooled buffers. */
  lemma BufferReturned(s: Site, old': seq<PktBuffer>, j: nat)
    requires j < |s.live| && s.live[j].mgr == s.mgr && s.live[j].blkList == [] && s.live[j] !in old'
    requires s.mgr.bufPool == old' + [s.live[j]] && |old'| + |s.live| == s.mgr.limit
    requires forall b :: b in old' ==> b.mgr == s.mgr && b.blkList == [] && b !in s.live
    requires forall a, b :: 0 <= a < b < |old'| ==> old'[a] != old'[b]
    requires forall a, b :: 0 <= a < b < |s.live| ==> s.live[a] != s.live[b]
    ensures PoolOfBuffers(s.mgr, Without(s.live, j))
  {
    WithoutMembers(s.live, j);
  }

  lemma PooledFacts(mgr: PktManager, live: seq<PktBuffer>)
    requires PoolOfBuffers(mgr, live)
    ensures forall b :: b in mgr.bufPool ==> b.mgr == mgr && b.blkList == [] && b !in live
    ensures forall i, j :: 0 <= i < j < |mgr.bufPool| ==> mgr.bufPool[i] != mgr.bufPool[j]
  {
  }

  /** The last reference of a buffer: its blocks go to the pool and it is no longer live. */
  method DoFree(mgr: PktManager, live: seq<PktBuffer>, j: nat, ghost was: seq<seq<byte>>)
    returns (now: seq<PktBuffer>)
    requires World(mgr, live) && j < |live| && Shows(live, was)
    modifies live[j], mgr`pool, mgr`bufPool
    ensures j < |was| && Shows(now, Gone(was, j))
    ensures World(mgr, now) && now == Without(live, j) && mgr.bufPool == old(mgr.bufPool) + [live[j]]
  {
    hide *;
    var b := live[j];
    LiveFacts(mgr, live, b);
    LiveDistinct(mgr, live);
    PooledFacts(mgr, live);
    ghost var l, p, s := b.blkList, mgr.pool, Site(mgr, live, {b});
    ShowsAt(live, was);
    var _ := b.Free();
    now := live[..j] + live[j + 1..];
    WithoutIs(live, j);
    WithoutMembers(live, j);
    OwnedPlus(p, l);
    b.Facts();
    mgr.PoolFacts();
    OthersKept(s);
    ListsKept(s);
    BufferReturned(s, old(mgr.bufPool), j);
    OwnedMember(mgr.pool);
    WorldIntro(s, now, Owned(mgr.pool));
    WorldIs(mgr, now);
    ShowsLess(live, was, j, now);
  }

  lemma ShowsLess(live: seq<PktBuffer>, was: seq<seq<byte>>, j: nat, now: seq<PktBuffer>)
    requires |was| == |live| && j < |live| && now == live[..j] + live[j + 1..]
    requires forall i :: 0 <= i < |live| && i != j ==> live[i].Valid() && live[i].Content() == was[i]
    ensures Shows(now, Gone(was, j))
  {
    hide PktBuffer.Valid, PktBuffer.Content;
  }

  lemma ShowsMore(live: seq<PktBuffer>, was: seq<seq<byte>>, b: PktBuffer)
    requires |was| == |live| && b.Valid() && b.Content() == []
    requires forall i :: 0 <= i < |live| ==> live[i].Valid() && live[i].Content() == was[i]
    ensures Shows(live, was) && Shows(live + [b], was + [[]])
  {
    hide PktBuffer.Valid, PktBuffer.Content;
  }

  lemma WorldIs(mgr: PktManager, live: seq<PktBuffer>)
    ensures World(mgr, live) <==> Partition(mgr, live) && PoolOfBuffers(mgr, live)
  {
  }

  /** A fresh buffer from the buffer pool; null, and nothing changed, if there is none. */
  method DoGet(mgr: PktManager, live: seq<PktBuffer>, ghost was: seq<seq<byte>>) returns (now: seq<PktBuffer>)
    requires World(mgr, live) && Shows(live, was)
    modifies mgr`bufPool, mgr.bufPool
    ensures World(mgr, now) && live <= now
    ensures Shows(now, if |was| < mgr.limit then was + [[]] else was)
    ensures now == if old(mgr.bufPool) == [] then live else live + [old(mgr.bufPool)[0]]
    ensures mgr.bufPool == if old(mgr.bufPool) == [] then [] else old(mgr.bufPool)[1..]
  {
    hide *;
    LiveDistinct(mgr, live);
    PooledFacts(mgr, live);
    ghost var s := Site(mgr, live, {});
    PartitionFacts(mgr, live);
    MovableNone(s);
    ShowsAt(live, was);
    var b := mgr.GetBuffer();
    OthersKept(s);
    ListsKept(s);
    WorldIntro(s, live, Owned(mgr.pool));
    if b == null {
      now := live;
      BuffersLeft(mgr, live, mgr.bufPool);
      ShowsAt(live, was);
    } else {
      now := live + [b];
      EmptyValid(b);
      ShowsMore(live, was, b);
      PartitionAdd(mgr, live, b);
      BuffersLeft(mgr, now, mgr.bufPool);
    }
    WorldIs(mgr, now);
  }

  lemma PartitionFacts(mgr: PktManager, live: seq<PktBuffer>)
    requires Partition(mgr, live)
    ensures mgr.Valid() && mgr.Configured() && NoDup(mgr.pool)
  {
  }

  lemma MovableNone(s: Site)
    requires s.busy == {}
    ensures Movable(s) == Owned(s.mgr.pool)
  {
  }

  lemma EmptyValid(b: PktBuffer)
    requires b.blkList == [] && b.capacity == 0 && b.mgr.Valid()
    ensures b.Valid() && b.Content() == []
  {
  }

  lemma BuffersLeft(mgr: PktManager, live: seq<PktBuffer>, pool: seq<PktBuffer>)
    requires mgr.bufPool == pool && |pool| + |live| == mgr.limit
    requires forall b :: b in pool ==> b.mgr == mgr && b.blkList == [] && b !in live
    requires forall i, j :: 0 <= i < j < |pool| ==> pool[i] != pool[j]
    ensures PoolOfBuffers(mgr, live)
  {
  }

  lemma PartitionAdd(mgr: PktManager, live: seq<PktBuffer>, b: PktBuffer)
    requires Partition(mgr, live) && b !in live
    requires b.mgr == mgr && b.refs == 1 && b.Valid() && b.blkList == []
    ensures Partition(mgr, live + [b])
  {
    hide NoDup, Views, Bytes, Held, PktBuffer.Valid, PktManager.Valid;
    var now := live + [b];
    assert HeldBy(now) == HeldBy(live);
    assert Apart(now);
  }

  /** A buffer that took its blocks out of the pool joins the live ones. */
  lemma LiveAdded(mgr: PktManager, live: seq<PktBuffer>, buf: PktBuffer, m: set<PktBlock>)
    requires (forall i, j :: 0 <= i < j < |live| ==> live[i] != live[j]) && buf !in live
    requires forall b :: b in live ==> b.Valid() && b.refs == 1 && b.mgr == mgr && Owned(b.blkList) !! m
    requires forall a, b :: a in live && b in live && a != b ==> Owned(a.blkList) !! Owned(b.blkList)
    requires buf.Valid() && buf.refs == 1 && buf.mgr == mgr && mgr.Valid()
    requires m == Owned(mgr.pool) + Owned(buf.blkList)
    requires m + HeldElsewhere(Site(mgr, live, {})) == mgr.blocks
    ensures Partition(mgr, live + [buf])
  {
    hide *;
    ElsewhereSame(mgr, live, buf);
    WorldIntroOne(Site(mgr, live + [buf], {buf}), live + [buf], m, buf);
  }

  lemma ElsewhereSame(mgr: PktManager, live: seq<PktBuffer>, buf: PktBuffer)
    requires buf !in live
    ensures HeldElsewhere(Site(mgr, live + [buf], {buf})) == HeldElsewhere(Site(mgr, live, {}))
  {
  }

  /** One live buffer swallows another, which goes back to the buffer pool. */
  method DoMerge(mgr: PktManager, live: seq<PktBuffer>, i: nat, j: nat, ghost was: seq<seq<byte>>)
    returns (now: seq<PktBuffer>)
    requires World(mgr, live) && i < |live| && j < |live| && i != j && Shows(live, was)
    modifies live[i], live[j], mgr`bufPool
    ensures i < |was| && j < |was| && Shows(now, Gone(was[i := was[i] + was[j]], j))
    ensures World(mgr, now) && now == Without(live, j) && mgr.bufPool == old(mgr.bufPool) + [live[j]]
  {
    hide *;
    LiveDistinct(mgr, live);
    WithoutIs(live, j);
    WithoutMembers(live, j);
    ShowsAt(live, was);
    ghost var m := MergeTwo(Site(mgr, live, {live[i], live[j]}), i, j);
    now := live[..j] + live[j + 1..];
    Merged(Site(mgr, live, {live[i], live[j]}), i, j, now, m);
    WorldIs(mgr, now);
    ShowsLess(live, was[i := was[i] + was[j]], j, now);
  }

  /** The call itself, and what it leaves of the buffers around it. */
  method MergeTwo(s: Site, i: nat, j: nat) returns (ghost m: set<PktBlock>)
    requires World(s.mgr, s.live) && i < |s.live| && j < |s.live| && i != j
    requires s.busy == {s.live[i], s.live[j]}
    modifies s.live[i], s.live[j], s.mgr`bufPool
    ensures PoolOfBuffers(s.mgr, Without(s.live, j)) && s.mgr.bufPool == old(s.mgr.bufPool) + [s.live[j]]
    ensures forall b :: b in s.live && b !in s.busy ==>
      b.Valid() && b.refs == 1 && b.mgr == s.mgr && Owned(b.blkList) !! m && b.Content() == old(b.Content())
    ensures forall a, b :: a in s.live && b in s.live && a !in s.busy && b !in s.busy && a != b ==>
      Owned(a.blkList) !! Owned(b.blkList)
    ensures s.live[i].Valid() && s.live[i].Content() == old(s.live[i].Content() + s.live[j].Content())
    ensures s.live[i].Valid() && s.live[i].refs == 1 && s.live[i].mgr == s.mgr && s.mgr.Valid()
    ensures m == Owned(s.mgr.pool) + Owned(s.live[i].blkList) && m + HeldElsewhere(s) == s.mgr.blocks
  {
    hide *;
    var mgr, live := s.mgr, s.live;
    var b, buf := live[i], live[j];
    LiveFacts(mgr, live, b);
    LiveFacts(mgr, live, buf);
    LiveDistinct(mgr, live);
    PooledFacts(mgr, live);
    ghost var l, e := b.blkList, buf.blkList;
    TwoBusy(s, b, buf);
    ghost var q := mgr.bufPool;
    m := Movable(s);
    assert b !in q && buf !in q;
    var _ := b.MergeBuf(buf);
    OwnedPlus(l, e);
    b.Facts();
    mgr.PoolFacts();
    assert forall x :: x in q ==> x.blkList == old(x.blkList);
    BufferReturned(s, q, j);
    OthersKept(s);
    ListsKept(s);
  }

  /** What is left live after a merge, in the terms of the general case. */
  lemma Merged(s: Site, i: nat, j: nat, now: seq<PktBuffer>, m: set<PktBlock>)
    requires i < |s.live| && j < |s.live| && i != j && s.busy == {s.live[i], s.live[j]}
    requires |now| + 1 == |s.live| && forall a, b :: 0 <= a < b < |now| ==> now[a] != now[b]
    requires forall a, b :: 0 <= a < b < |s.live| ==> s.live[a] != s.live[b]
    requires forall b :: b in now <==> b in s.live && b != s.live[j]
    requires forall b :: b in s.live && b !in s.busy ==>
      b.Valid() && b.refs == 1 && b.mgr == s.mgr && Owned(b.blkList) !! m
    requires forall a, b :: a in s.live && b in s.live && a !in s.busy && b !in s.busy && a != b ==>
      Owned(a.blkList) !! Owned(b.blkList)
    requires s.live[i].Valid() && s.live[i].refs == 1 && s.live[i].mgr == s.mgr && s.mgr.Valid()
    requires m == Owned(s.mgr.pool) + Owned(s.live[i].blkList) && m + HeldElsewhere(s) == s.mgr.blocks
    ensures Partition(s.mgr, now)
  {
    hide *;
    WorldIntroOne(s, now, m, s.live[i]);
  }

  lemma TwoBusy(s: Site, b: PktBuffer, c: PktBuffer)
    requires Partition(s.mgr, s.live) && s.busy == {b, c} && b in s.live && c in s.live && b != c
    ensures Movable(s) == Owned(s.mgr.pool) + (Owned(b.blkList) + Owned(c.blkList))
    ensures Owned(b.blkList) !! Owned(c.blkList)
  {
    hide NoDup, Views, Bytes, PktBuffer.Valid, PktManager.Valid, HeldBy, Held;
  }

  /** Everything a call on a live buffer may touch is a block or a payload of the manager. */
  lemma LiveFootprint(mgr: PktManager, live: seq<PktBuffer>)
    requires World(mgr, live)
    ensures Owned(mgr.pool) <= mgr.blocks && 0 < mgr.blkSize
    ensures forall b :: b in live ==>
      Owned(b.blkList) <= mgr.blocks && Payloads(b.blkList) <= set x | x in mgr.blocks :: x.payload
  {
    hide NoDup, Views, Bytes, Held, HeldBy, PktManager.Valid, PoolOfBuffers, Apart;
    mgr.PoolFacts();
    forall b | b in live
      ensures Owned(b.blkList) <= mgr.blocks && Payloads(b.blkList) <= set x | x in mgr.blocks :: x.payload
    {
      b.Facts();
      assert forall x :: x in b.blkList ==> x in Owned(b.blkList);
    }
  }

  /** The calls on one live buffer. A call outside what its callee asks of callers is left out and,
      as written, one that is not harmless. */
  method DoOne(mgr: PktManager, live: seq<PktBuffer>, i: nat, b: PktBuffer, code: Code, op: Op,
            ghost was: seq<seq<byte>>)
    returns (ghost now: seq<seq<byte>>)
    requires World(mgr, live) && i < |live| && b == live[i] && Shows(live, was)
    requires !op.Get? && !op.Copy? && !op.Merge? && !op.Free? && op.i == i
    modifies b, mgr`pool, mgr`bufPool, Owned(mgr.pool), Owned(b.blkList), Payloads(b.blkList)
    ensures World(mgr, live) && Shows(live, now) && |now| == |was| && i < |was| && now == was[i := now[i]]
    ensures mgr.bufPool == old(mgr.bufPool) && 0 < mgr.blkSize
    ensures Change(code, op, mgr.blkSize, |old(mgr.pool)|, was[i], now[i])
  {
    hide *;
    LiveFacts(mgr, live, b);
    ShowsAt(live, was);
    b.BlocksOrEmpty();
    now := was;
    match op {
      case Alloc(_, n, allocFront, insertFront) =>
        now := DoAlloc(mgr, live, i, b, code, n, allocFront, insertFront, was);
      case AllocHeader(_, n, isCont) =>
        HarmlessHeaderIs(code, b, n, isCont);
        if HeaderHarmless(code, b, n, isCont) {
          now := DoAllocHeader(mgr, live, i, b, code, n, isCont, was);
        } else {
          SkipChange(code, op, mgr.blkSize, |mgr.pool|, was[i]);
        }
      case RemoveHeader(_, n) =>
        if b.blkList != [] && n <= b.capacity {
          now := DoRemoveHeader(mgr, live, i, b, code, n, was);
        } else {
          SkipChange(code, op, mgr.blkSize, |mgr.pool|, was[i]);
        }
      case Resize(_, n) =>
        if 0 < n {
          HarmlessShrinkIs(code, b, n);
        }
        if 0 < n < TWO_32 && ShrinkHarmless(code, b, n) {
          now := DoResize(mgr, live, i, b, code, n, was);
        } else {
          SkipChange(code, op, mgr.blkSize, |mgr.pool|, was[i]);
        }
      case SetContHeader(_, n) =>
        if b.blkList != [] || 0 < n {
          now := DoSetContHeader(mgr, live, i, b, code, n, was);
        } else {
          SkipChange(code, op, mgr.blkSize, |mgr.pool|, was[i]);
        }
      case FillAt(_, at, v, n) =>
        now := DoFillAt(mgr, live, i, b, code, at, v, n, was);
    }
  }

  lemma SkipChange(code: Code, op: Op, blkSize: nat, free: nat, a: seq<byte>)
    requires 0 < blkSize
    requires
      || (op.AllocHeader? && code.Written? && op.isCont && free == 0)
      || (op.RemoveHeader? && (a == [] || |a| < op.n))
      || (op.Resize? && (op.n == 0 || TWO_32 <= op.n || (code.Written? && op.n <= |a|)))
      || op.SetContHeader?
    ensures Change(code, op, blkSize, free, a, a)
  {
  }

  /** One call of a script, and what it makes of the packets. */
  method Step(mgr: PktManager, live: seq<PktBuffer>, code: Code, op: Op, ghost was: seq<seq<byte>>)
    returns (now: seq<PktBuffer>, ghost packets: seq<seq<byte>>)
    requires World(mgr, live) && Shows(live, was)
    modifies mgr`pool, mgr`bufPool, (set b | b in live), (set b | b in mgr.bufPool)
    modifies mgr.blocks, set x | x in mgr.blocks :: x.payload
    ensures World(mgr, now) && Shows(now, packets) && 0 < mgr.blkSize
    ensures Effect(code, op, mgr.blkSize, mgr.limit, |old(mgr.pool)|, was, packets)
    ensures forall b :: b in now ==> b in live || b in old(mgr.bufPool)
    ensures forall b :: b in mgr.bufPool ==> b in live || b in old(mgr.bufPool)
  {
    hide *;
    now, packets := live, was;
    LiveDistinct(mgr, live);
    LiveFootprint(mgr, live);
    ShowsAt(live, was);
    match op {
      case Get =>
        now := DoGet(mgr, live, was);
        packets := if |was| < mgr.limit then was + [[]] else was;
      case Copy(i, j, n) =>
        if i < |live| && j < |live| && i != j {
          packets := DoCopy(mgr, live, i, j, live[i], live[j], n, was);
        }
      case Merge(i, j) =>
        if i < |live| && j < |live| && i != j {
          now := DoMerge(mgr, live, i, j, was);
          packets := Gone(was[i := was[i] + was[j]], j);
          WithoutMembers(live, j);
        }
      case Free(i) =>
        if i < |live| {
          now := DoFree(mgr, live, i, was);
          packets := Gone(was, i);
          WithoutMembers(live, i);
        }
      case _ =>
        if op.i < |live| {
          packets := DoOne(mgr, live, op.i, live[op.i], code, op, was);
        }
    }
    EffectIs(code, op, mgr.blkSize, mgr.limit, old(|mgr.pool|), was, packets);
  }

  lemma EffectIs(code: Code, op: Op, blkSize: nat, limit: nat, free: nat, was: seq<seq<byte>>, now: seq<seq<byte>>)
    requires 0 < blkSize
    requires op.Get? ==> now == if |was| < limit then was + [[]] else was
    requires op.Copy? ==>
      now == if op.i < |was| && op.j < |was| && op.i != op.j && op.n <= |was[op.i]| && op.n <= |was[op.j]|
             then was[op.i := Splice(was[op.i], 0, was[op.j][..op.n])] else was
    requires op.Merge? ==>
      now == if op.i < |was| && op.j < |was| && op.i != op.j
             then Gone(was[op.i := was[op.i] + was[op.j]], op.j) else was
    requires op.Free? ==> now == if op.i < |was| then Gone(was, op.i) else was
    requires !op.Get? && !op.Copy? && !op.Merge? && !op.Free? ==>
      if op.i < |was| then
        |now| == |was| && now == was[op.i := now[op.i]]
        && Change(code, op, blkSize, free, was[op.i], now[op.i])
      else now == was
    ensures Effect(code, op, blkSize, limit, free, was, now)
  {
  }

  /** Any sequence of calls keeps the partition, and with it every other clause of World; and the
      packets go through what the calls make of them, one after the other. */
  method Run(mgr: PktManager, code: Code, script: seq<Op>)
    returns (live: seq<PktBuffer>, ghost trace: seq<Scene>)
    requires World(mgr, [])
    modifies mgr, (set b | b in mgr.bufPool), mgr.blocks, set x | x in mgr.blocks :: x.payload
    ensures World(mgr, live) && 0 < mgr.blkSize && Played(code, script, mgr.blkSize, mgr.limit, trace)
    ensures Shows(live, trace[|script|].packets) && |mgr.pool| == trace[|script|].free
  {
    hide *;
    live, trace := [], [Scene([], mgr.limit)];
    AllPooled(mgr);
    PlayedStart(code, script, mgr.blkSize, trace);
    for i := 0 to |script|
      invariant World(mgr, live) && 0 < mgr.blkSize && |trace| == i + 1
      invariant Played(code, script[..i], mgr.blkSize, mgr.limit, trace)
      invariant Shows(live, trace[i].packets) && |mgr.pool| == trace[i].free
      invariant forall b :: b in live ==> b in old(mgr.bufPool)
      invariant forall b :: b in mgr.bufPool ==> b in old(mgr.bufPool)
    {
      ghost var packets;
      live, packets := Step(mgr, live, code, script[i], trace[i].packets);
      PlayedStep(code, script, i, mgr.blkSize, mgr.limit, trace, Scene(packets, |mgr.pool|));
      trace := trace + [Scene(packets, |mgr.pool|)];
    }
    assert script[..|script|] == script;
  }

  lemma AllPooled(mgr: PktManager)
    requires World(mgr, [])
    ensures |mgr.pool| == mgr.limit && 0 < mgr.blkSize && Shows([], [])
  {
    assert HeldBy([]) == {};
    mgr.PoolFacts();
    OwnedSize(mgr.pool);
  }

  lemma PlayedStart(code: Code, script: seq<Op>, blkSize: nat, trace: seq<Scene>)
    requires 0 < blkSize && |trace| == 1 && trace[0].packets == []
    ensures Played(code, script[..0], blkSize, trace[0].free, trace)
  {
  }

  lemma PlayedStep(code: Code, script: seq<Op>, i: nat, blkSize: nat, limit: nat, trace: seq<Scene>, next: Scene)
    requires 0 < blkSize && i < |script| && Played(code, script[..i], blkSize, limit, trace)
    requires |trace| == i + 1
    requires Effect(code, script[i], blkSize, limit, trace[i].free, trace[i].packets, next.packets)
    ensures Played(code, script[..i + 1], blkSize, limit, trace + [next])
  {
    hide Effect;
    var more, now := script[..i + 1], trace + [next];
    forall k | 0 <= k < |more|
      ensures Effect(code, more[k], blkSize, limit, now[k].free, now[k].packets, now[k + 1].packets)
    {
      assert k < i ==> more[k] == script[..i][k] && now[k] == trace[k] && now[k + 1] == trace[k + 1];
    }
  }
}
