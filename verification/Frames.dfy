/** What is on the wire: Ethernet frames (RFC 894, section "Frame Format") and ARP requests
    (RFC 826, section "Packet format"), built from fields and taken apart again. */
module Frames {
  import opened Basics
  import opened Chain
  import opened Endian

  const HEADER: nat := 14
  const DATA_MIN: nat := 46
  const MTU: nat := 1500
  const ARP: word := 0x0806
  const IPV4: word := 0x0800

  predicate Mac(a: seq<byte>) {
    |a| == 6
  }

  predicate Ip(a: seq<byte>) {
    |a| == 4
  }

  function Broadcast(): (b: seq<byte>)
    ensures Mac(b)
  {
    Repeat(0xFF, 6)
  }

  /** The zeros that bring short data up to the minimum. */
  function Padding(n: nat): seq<byte> {
    Repeat(0, if n < DATA_MIN then DATA_MIN - n else 0)
  }

  function Head(dest: seq<byte>, src: seq<byte>, protocol: word): (h: seq<byte>)
    requires Mac(dest) && Mac(src)
    ensures |h| == HEADER
  {
    dest + src + Network(protocol)
  }

  function Frame(dest: seq<byte>, src: seq<byte>, protocol: word, data: seq<byte>): seq<byte>
    requires Mac(dest) && Mac(src)
  {
    Head(dest, src, protocol) + (data + Padding(|data|))
  }

  datatype Parsed = Parsed(dest: seq<byte>, src: seq<byte>, protocol: word, data: seq<byte>)

  /** Taking a frame apart by offsets, refusing those of a wrong size. */
  function Parse(f: seq<byte>): Option<Parsed> {
    if HEADER <= |f| <= HEADER + MTU then
      Some(Parsed(f[..6], f[6..12], Pair(f[12], f[13]), f[HEADER..]))
    else None
  }

  /** Every frame built can be taken apart into what it was built from, exactly when its data is
      no longer than the interface allows. */
  lemma FrameParses(dest: seq<byte>, src: seq<byte>, protocol: word, data: seq<byte>)
    requires Mac(dest) && Mac(src)
    ensures var p := Parse(Frame(dest, src, protocol, data));
      && (p.Some? <==> |data| <= 1500)
      && (p.Some? ==>
            && p.value.dest == dest && p.value.src == src && p.value.protocol == protocol
            && |p.value.data| == (if |data| < 46 then 46 else |data|) && data <= p.value.data
            && forall i :: |data| <= i < |p.value.data| ==> p.value.data[i] == 0)
  {
    var f := Frame(dest, src, protocol, data);
    var h := Head(dest, src, protocol);
    assert f[..HEADER] == h && f[HEADER..] == data + Padding(|data|);
    assert f[..6] == h[..6] == dest && f[6..12] == h[6..12] == src;
    assert f[12] == h[12] == protocol / 256 && f[13] == h[13] == protocol % 256;
  }

  /** A frame byte by byte: 6 of the destination, 6 of the source, 2 of the protocol with the high
      one first, the data, and zeros up to 60 in all. */
  lemma FrameBytes(dest: seq<byte>, src: seq<byte>, protocol: word, data: seq<byte>)
    requires Mac(dest) && Mac(src)
    ensures var f := Frame(dest, src, protocol, data);
      && |f| == 14 + (if |data| < 46 then 46 else |data|)
      && f[0..6] == dest && f[6..12] == src && f[12] == protocol / 256 && f[13] == protocol % 256
      && f[14..14 + |data|] == data && forall i :: 14 + |data| <= i < |f| ==> f[i] == 0
  {
    var f := Frame(dest, src, protocol, data);
    var h := Head(dest, src, protocol);
    assert f == h + data + Padding(|data|);
    assert f[0..6] == h[..6] && f[6..12] == h[6..12] && f[12] == h[12] && f[13] == h[13];
    assert h[..6] == dest && h[6..12] == src;
    assert forall i :: HEADER + |data| <= i < |f| ==> f[i] == Padding(|data|)[i - HEADER - |data|];
  }

  /** Which sizes can be taken apart, and where the parts are. */
  lemma ParseBytes(f: seq<byte>)
    ensures Parse(f).Some? <==> 14 <= |f| <= 1514
    ensures Parse(f).Some? ==>
      var p := Parse(f).value;
      && p.dest == f[0..6] && p.src == f[6..12] && p.data == f[14..]
      && p.protocol / 256 == f[12] && p.protocol % 256 == f[13]
  {
    assert Parse(f).Some? ==> f[..6] == f[0..6];
  }

  /** And a parsed frame of a legal size is what building it from its parts gives. */
  lemma ParseFrames(f: seq<byte>)
    requires 60 <= |f| <= 1514
    ensures var p := Parse(f);
      p.Some? && Mac(p.value.dest) && Mac(p.value.src)
      && Frame(p.value.dest, p.value.src, p.value.protocol, p.value.data) == f
  {
    var p := Parse(f).value;
    assert Padding(|p.data|) == [];
    assert Network(p.protocol) == f[12..14];
    assert f == f[..6] + f[6..12] + f[12..14] + f[14..];
  }

  // ---------------------------------------------------------------- ARP

  datatype Arp = Arp(
    hwType: word, protocolType: word, hwLength: byte, protocolLength: byte, opcode: word,
    senderHw: seq<byte>, senderIp: seq<byte>, targetHw: seq<byte>, targetIp: seq<byte>)

  const ARP_SIZE: nat := 28

  function ParseArp(p: seq<byte>): Arp
    requires |p| >= ARP_SIZE
  {
    Arp(Pair(p[0], p[1]), Pair(p[2], p[3]), p[4], p[5], Pair(p[6], p[7]),
        p[8..14], p[14..18], p[18..24], p[24..28])
  }

  /** The 28 bytes asking who has an address. */
  function Request(hw: seq<byte>, ip: seq<byte>, target: seq<byte>): (r: seq<byte>)
    requires Mac(hw) && Ip(ip) && Ip(target)
    ensures |r| == ARP_SIZE
  {
    [0, 1, 8, 0, 6, 4, 0, 1] + hw + ip + Repeat(0, 6) + target
  }

  /** What the receiver of the request reads, field by field. */
  lemma RequestParses(hw: seq<byte>, ip: seq<byte>, target: seq<byte>)
    requires Mac(hw) && Ip(ip) && Ip(target)
    ensures ParseArp(Request(hw, ip, target)) == Arp(1, 0x0800, 6, 4, 1, hw, ip, [0, 0, 0, 0, 0, 0], target)
  {
    var r := Request(hw, ip, target);
    assert r[8..14] == hw && r[14..18] == ip && r[18..24] == [0, 0, 0, 0, 0, 0] && r[24..28] == target;
  }

  /** The 60 bytes of a broadcast request, byte by byte. */
  predicate OnWire(f: seq<byte>, hw: seq<byte>, ip: seq<byte>, target: seq<byte>) {
    && |f| == 60
    && f[0..6] == [0xFF, 0xFF, 0xFF, 0xFF, 0xFF, 0xFF] && f[6..12] == hw && f[12..14] == [8, 6]
    && f[14..22] == [0, 1, 8, 0, 6, 4, 0, 1] && f[22..28] == hw && f[28..32] == ip
    && f[32..38] == [0, 0, 0, 0, 0, 0] && f[38..42] == target
    && forall i :: 42 <= i < 60 ==> f[i] == 0
  }

  /** A request in a frame is these bytes and no others. */
  lemma RequestOnWire(hw: seq<byte>, ip: seq<byte>, target: seq<byte>, f: seq<byte>)
    requires Mac(hw) && Ip(ip) && Ip(target)
    ensures f == Frame(Broadcast(), hw, ARP, Request(hw, ip, target)) <==> OnWire(f, hw, ip, target)
  {
    var r, g := Request(hw, ip, target), Frame(Broadcast(), hw, ARP, Request(hw, ip, target));
    FrameBytes(Broadcast(), hw, ARP, r);
    assert g[14..42] == r;
    RequestAt(g, hw, ip, target);
    if OnWire(f, hw, ip, target) {
      forall i | 0 <= i < 60
        ensures f[i] == g[i]
      {
        WireAt(f, g, hw, ip, target, i);
      }
    }
  }

  lemma RequestAt(g: seq<byte>, hw: seq<byte>, ip: seq<byte>, target: seq<byte>)
    requires Mac(hw) && Ip(ip) && Ip(target) && |g| == 60 && g[14..42] == Request(hw, ip, target)
    ensures g[14..22] == [0, 1, 8, 0, 6, 4, 0, 1] && g[22..28] == hw && g[28..32] == ip
    ensures g[32..38] == [0, 0, 0, 0, 0, 0] && g[38..42] == target
  {
    var r := Request(hw, ip, target);
    SubSlice(g, 14, 42, 0, 8);
    SubSlice(g, 14, 42, 8, 14);
    SubSlice(g, 14, 42, 14, 18);
    SubSlice(g, 14, 42, 18, 24);
    SubSlice(g, 14, 42, 24, 28);
    assert r[0..8] == [0, 1, 8, 0, 6, 4, 0, 1] && r[8..14] == hw && r[14..18] == ip;
    assert r[18..24] == [0, 0, 0, 0, 0, 0] && r[24..28] == target;
  }

  /** Two frames with these bytes agree at every place. */
  lemma WireAt(f: seq<byte>, g: seq<byte>, hw: seq<byte>, ip: seq<byte>, target: seq<byte>, i: nat)
    requires OnWire(f, hw, ip, target) && OnWire(g, hw, ip, target) && i < 60
    ensures f[i] == g[i]
  {
    var (x, y) := if i < 6 then (0, 6) else if i < 12 then (6, 12) else if i < 14 then (12, 14)
                  else if i < 22 then (14, 22) else if i < 28 then (22, 28) else if i < 32 then (28, 32)
                  else if i < 38 then (32, 38) else if i < 42 then (38, 42) else (42, 60);
    if i < 42 {
      assert f[x..y] == g[x..y];
      assert f[i] == f[x..y][i - x] && g[i] == g[x..y][i - x];
    }
  }

  /** The broadcast frame with a request in it, read back through both layers. */
  lemma RequestFrameParses(hw: seq<byte>, ip: seq<byte>, target: seq<byte>)
    requires Mac(hw) && Ip(ip) && Ip(target)
    ensures var f := Frame(Broadcast(), hw, ARP, Request(hw, ip, target));
      && |f| == 60
      && var p := Parse(f);
        && p.Some? && p.value.dest == [0xFF, 0xFF, 0xFF, 0xFF, 0xFF, 0xFF]
        && p.value.src == hw && p.value.protocol == 0x0806 && |p.value.data| == 46
        && ParseArp(p.value.data) == Arp(1, 0x0800, 6, 4, 1, hw, ip, [0, 0, 0, 0, 0, 0], target)
        && forall i :: 28 <= i < 46 ==> p.value.data[i] == 0
  {
    var r := Request(hw, ip, target);
    var f := Frame(Broadcast(), hw, ARP, r);
    FrameBytes(Broadcast(), hw, ARP, r);
    ParseBytes(f);
    RequestParses(hw, ip, target);
    ArpPrefix(r, Padding(ARP_SIZE));
    assert f[14..] == r + Padding(ARP_SIZE);
  }

  /** Padding behind a packet does not change how it reads. */
  lemma ArpPrefix(r: seq<byte>, more: seq<byte>)
    requires |r| == ARP_SIZE
    ensures ParseArp(r + more) == ParseArp(r) && (r + more)[ARP_SIZE..] == more
  {
    var s := r + more;
    assert forall i, j :: 0 <= i <= j <= ARP_SIZE ==> s[i..j] == r[i..j];
  }

  // ---------------------------------------------------------------- writing fields in place

  lemma SplicePrefix(s: seq<byte>, p: seq<byte>, d: seq<byte>)
    requires |p| + |d| <= |s| && p == s[..|p|]
    ensures var n := Splice(s, |p|, d);
      |n| == |s| && n[..|p| + |d|] == p + d && n[|p| + |d|..] == s[|p| + |d|..]
  {
  }

  /** The three fields of the header, written over the first bytes of a packet. */
  lemma HeadWritten(s: seq<byte>, dest: seq<byte>, src: seq<byte>, protocol: word)
    requires Mac(dest) && Mac(src) && |s| >= HEADER
    ensures var s1 := Splice(s, 0, dest); var s2 := Splice(s1, 6, src);
      Splice(s2, 12, Network(protocol)) == Head(dest, src, protocol) + s[HEADER..]
  {
    var s1 := Splice(s, 0, dest);
    var s2 := Splice(s1, 6, src);
    SplicePrefix(s, [], dest);
    SplicePrefix(s1, dest, src);
    SplicePrefix(s2, dest + src, Network(protocol));
    var n := Splice(s2, 12, Network(protocol));
    assert n == n[..HEADER] + n[HEADER..];
  }

  /** The first fields of a request, up to the opcode. */
  lemma RequestHead(s: seq<byte>)
    requires |s| == ARP_SIZE
    ensures var s1 := Splice(s, 0, Network(1)); var s2 := Splice(s1, 2, Network(IPV4));
      var s3 := Splice(s2, 4, [6]); var s4 := Splice(s3, 5, [4]);
      var n := Splice(s4, 6, Network(1));
      |n| == ARP_SIZE && n[..8] == [0, 1, 8, 0, 6, 4, 0, 1]
  {
    var s1 := Splice(s, 0, Network(1));
    var s2 := Splice(s1, 2, Network(IPV4));
    var s3 := Splice(s2, 4, [6]);
    var s4 := Splice(s3, 5, [4]);
    SplicePrefix(s, [], Network(1));
    SplicePrefix(s1, [0, 1], Network(IPV4));
    SplicePrefix(s2, [0, 1, 8, 0], [6]);
    SplicePrefix(s3, [0, 1, 8, 0, 6], [4]);
    SplicePrefix(s4, [0, 1, 8, 0, 6, 4], Network(1));
  }

  /** The addresses of a request, in the order in which they are written. */
  lemma RequestTail(s: seq<byte>, hw: seq<byte>, ip: seq<byte>, target: seq<byte>)
    requires Mac(hw) && Ip(ip) && Ip(target)
    requires |s| == ARP_SIZE && s[..8] == [0, 1, 8, 0, 6, 4, 0, 1]
    ensures var s1 := Splice(s, 8, hw); var s2 := Splice(s1, 14, ip);
      var s3 := Splice(s2, 24, target);
      Splice(s3, 18, Repeat(0, 6)) == Request(hw, ip, target)
  {
    var s1 := Splice(s, 8, hw);
    var s2 := Splice(s1, 14, ip);
    var s3 := Splice(s2, 24, target);
    var n := Splice(s3, 18, Repeat(0, 6));
    SplicePrefix(s, s[..8], hw);
    SplicePrefix(s1, s[..8] + hw, ip);
    assert s3[..18] == s2[..18] && s3[24..] == target;
    assert n == n[..18] + n[18..24] + n[24..];
  }
}
