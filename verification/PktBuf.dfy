/** Blocks, the manager's pools, and the packet buffer, in the source's own in-place form. */
module PktBuf {
  import opened Basics
  import opened Chain

  class PktBlock {
    const payload: array<byte>
    var data: nat   // m_data, as an offset into the payload
    var size: nat

    constructor (bytes: nat)
      ensures payload.Length == bytes && fresh(payload)
      ensures data == 0 && size == 0
    {
      payload := new byte[bytes](_ => 0);
      data, size := 0, 0;
    }

    method Reset()
      modifies this
      ensures data == 0 && size == 0
    {
      data, size := 0, 0;
    }

    /** The free room after the window. */
    function LastSize(): nat
      requires data + size <= payload.Length
      reads this
    {
      payload.Length - (data + size)
    }
  }

  ghost function Owned(l: seq<PktBlock>): set<PktBlock> {
    set b | b in l
  }

  ghost function Payloads(l: seq<PktBlock>): set<array<byte>> {
    set b | b in l :: b.payload
  }

  ghost function Views(l: seq<PktBlock>): (c: seq<View>)
    reads Owned(l), Payloads(l)
    ensures |c| == |l|
    ensures forall i :: 0 <= i < |l| ==> c[i] == View(l[i].payload[..], l[i].data, l[i].size)
  {
    if l == [] then [] else [View(l[0].payload[..], l[0].data, l[0].size)] + Views(l[1..])
  }

  ghost predicate NoDup(l: seq<PktBlock>) {
    forall i, j :: 0 <= i < j < |l| ==> l[i] != l[j]
  }

  lemma OwnedAt(l: seq<PktBlock>, i: nat)
    requires i < |l|
    ensures l[i] in Owned(l)
    ensures NoDup(l) ==> l[i] !in l[..i]
  {
  }

  lemma OwnedMember(l: seq<PktBlock>)
    ensures forall b :: b in l <==> b in Owned(l)
  {
  }

  lemma PayloadMember(l: seq<PktBlock>)
    ensures forall b :: b in l ==> b.payload in Payloads(l)
  {
  }

  /** What a list stands for depends on nothing but its own blocks. */
  twostate lemma ViewsFrame(l: seq<PktBlock>)
    requires forall b :: b in l ==>
      b.data == old(b.data) && b.size == old(b.size) && b.payload[..] == old(b.payload[..])
    ensures Views(l) == old(Views(l))
    ensures forall mgr: PktManager :: old(allocated(mgr)) && old(Held(l, mgr)) ==> Held(l, mgr)
  {
  }

  lemma OwnedSize(l: seq<PktBlock>)
    requires NoDup(l)
    ensures |Owned(l)| == |l|
  {
    if l != [] {
      OwnedSize(l[1..]);
      assert Owned(l) == {l[0]} + Owned(l[1..]);
    }
  }

  lemma SubsetSize(a: set<PktBlock>, b: set<PktBlock>)
    requires a <= b
    ensures |a| <= |b|
  {
    if a != {} {
      var x :| x in a;
      SubsetSize(a - {x}, b - {x});
    }
  }

  class PktManager {
    const blkSize: nat
    ghost const blocks: set<PktBlock>  // every block the pool was filled with
    const limit: nat                   // what the block queue holds when full
    const nowhere: PktBlock            // stands for an address that is no block
    var pool: seq<PktBlock>            // m_pkt_blk, by its first-in first-out specification
    var bufPool: seq<PktBuffer>        // m_pkt_buf, likewise

    ghost predicate Configured() {
      && 0 < blkSize
      && limit == |blocks|
      && limit * blkSize < TWO_31
      && nowhere !in blocks
      && (forall b :: b in blocks ==> b.payload.Length == blkSize)
      && (forall a, b :: a in blocks && b in blocks && a != b ==> a.payload != b.payload)
    }

    ghost predicate Valid()
      reads this
    {
      && Configured()
      && NoDup(pool)
      && Owned(pool) <= blocks
    }

    lemma PoolFacts()
      requires Valid()
      ensures Configured() && 0 < blkSize && NoDup(pool) && Owned(pool) <= blocks
      ensures |pool| <= limit && limit == |blocks|
    {
      OwnedSize(pool);
      SubsetSize(Owned(pool), blocks);
    }

    /** The pools after the start-up of the manager: every block initialised and pooled. */
    constructor (blkSize: nat, count: nat)
      requires 0 < blkSize && count * blkSize < TWO_31
      ensures Valid() && this.blkSize == blkSize && limit == count
      ensures Owned(pool) == blocks && |pool| == count && fresh(blocks)
      ensures forall b :: b in blocks ==> fresh(b.payload)
      ensures |bufPool| == count
      ensures forall b :: b in bufPool ==> fresh(b) && b.mgr == this && b.blkList == []
      ensures forall i, j :: 0 <= i < j < count ==> bufPool[i] != bufPool[j]
    {
      this.blkSize, limit := blkSize, count;
      var made: seq<PktBlock> := [];
      for i := 0 to count
        invariant |made| == i && NoDup(made)
        invariant forall b :: b in made ==> fresh(b) && fresh(b.payload) && b.payload.Length == blkSize
        invariant forall a, b :: a in made && b in made && a != b ==> a.payload != b.payload
      {
        var b := new PktBlock(blkSize);
        made := made + [b];
      }
      OwnedSize(made);
      pool, blocks := made, Owned(made);
      var other := new PktBlock(0);
      nowhere := other;
      bufPool := [];
      new;
      for i := 0 to count
        invariant |bufPool| == i && pool == made
        invariant forall b :: b in bufPool ==> fresh(b) && b.mgr == this && b.blkList == []
        invariant forall i, j :: 0 <= i < j < |bufPool| ==> bufPool[i] != bufPool[j]
      {
        var b := new PktBuffer(this);
        bufPool := bufPool + [b];
      }
    }

    method GetBlock() returns (b: PktBlock?)
      requires Valid()
      modifies this`pool, if pool == [] then {} else {pool[0]}
      ensures Valid()
      ensures b == null <==> old(pool) == []
      ensures b == null ==> pool == old(pool)
      ensures b != null ==>
        b == old(pool)[0] && pool == old(pool)[1..] && b.data == 0 && b.size == 0
    {
      if pool == [] {
        return null;
      }
      b := pool[0];
      pool := pool[1..];
      b.Reset();
    }

    method ReleaseBlock(b: PktBlock)
      modifies this`pool
      ensures pool == if |old(pool)| < limit then old(pool) + [b] else old(pool)
      ensures old(Valid()) && b in blocks && b !in old(Owned(pool)) ==>
        Valid() && pool == old(pool) + [b] && Owned(pool) == old(Owned(pool)) + {b}
    {
      if Valid() && b in blocks && b !in Owned(pool) {
        RoomForOwn(b);
      }
      if |pool| < limit {
        pool := pool + [b];
      }
    }

    method GetBuffer() returns (b: PktBuffer?)
      modifies this`bufPool, if bufPool == [] then {} else {bufPool[0]}
      ensures b == null <==> old(bufPool) == []
      ensures b == null ==> bufPool == old(bufPool)
      ensures b != null ==>
        b == old(bufPool)[0] && bufPool == old(bufPool)[1..]
        && b.capacity == 0 && b.refs == 1 && b.blkList == old(bufPool[0].blkList)
    {
      if bufPool == [] {
        return null;
      }
      b := bufPool[0];
      bufPool := bufPool[1..];
      b.Reset();
    }

    method ReleaseBuffer(b: PktBuffer)
      modifies this`bufPool
      ensures bufPool == if |old(bufPool)| < limit then old(bufPool) + [b] else old(bufPool)
    {
      if |bufPool| < limit {
        bufPool := bufPool + [b];
      }
    }

    /** A block of the pool's own that is not in it is never refused. */
    lemma RoomForOwn(b: PktBlock)
      requires Valid() && b in blocks && b !in pool
      ensures |pool| < limit
    {
      OwnedSize(pool);
      assert Owned(pool) <= blocks - {b};
      SubsetSize(Owned(pool), blocks - {b});
    }

    /** Releasing a list of own blocks, none of them pooled, appends them all. */
    lemma RoomForAll(l: seq<PktBlock>)
      requires Valid() && NoDup(l) && Owned(l) <= blocks - Owned(pool)
      ensures |pool| + |l| <= limit
    {
      OwnedSize(pool);
      OwnedSize(l);
      assert |Owned(pool) + Owned(l)| == |pool| + |l|;
      SubsetSize(Owned(pool) + Owned(l), blocks);
    }
  }

  /** l lists distinct blocks of the manager, each with a proper window. */
  ghost predicate Held(l: seq<PktBlock>, mgr: PktManager)
    reads Owned(l)
  {
    && NoDup(l)
    && Owned(l) <= mgr.blocks
    && (forall b :: b in l ==> 0 < b.size && b.data + b.size <= mgr.blkSize)
  }

  lemma HeldFormed(l: seq<PktBlock>, mgr: PktManager)
    requires mgr.Configured() && Held(l, mgr)
    ensures Formed(Views(l))
  {
  }

  lemma ViewsConcat(a: seq<PktBlock>, b: seq<PktBlock>)
    ensures Views(a + b) == Views(a) + Views(b)
  {
  }

  lemma ReverseNone(l: seq<PktBlock>)
    ensures Reverse(l[..0]) == []
  {
  }

  lemma PrefixTransitive(a: seq<byte>, b: seq<byte>, c: seq<byte>)
    requires a <= b <= c
    ensures a <= c
  {
  }

  lemma PlacedBack(l: seq<PktBlock>)
    ensures Placed(l, false) == l
  {
  }

  lemma LastSizeIs(b: PktBlock)
    requires b.data + b.size <= b.payload.Length
    ensures b.LastSize() == b.payload.Length - (b.data + b.size)
  {
  }

  /** A 32-bit request that wrapped below zero asks for more than all blocks together hold. */
  lemma WrappedRequest(mgr: PktManager, b: PktBlock, short: nat, more: nat)
    requires mgr.Valid() && b in mgr.blocks
    requires 0 < short <= mgr.blkSize && more == (0 - short) % TWO_32
    ensures |mgr.pool| < |Chunks(more, mgr.blkSize)|
  {
    hide Chunks, PktManager.Valid, NoDup, Owned;
    mgr.PoolFacts();
    SubsetSize({b}, mgr.blocks);
    WordDifference(0 - short);
    MulMonotone(1, mgr.limit, mgr.blkSize);
    ChunksTooMany(more, mgr.blkSize, mgr.limit);
  }

  lemma PlacedFront(l: seq<PktBlock>)
    ensures Placed(l, true) == Reverse(l)
  {
  }

  /** A list that names an address outside the pool is not held. */
  lemma NotHeld(l: seq<PktBlock>, mgr: PktManager)
    requires mgr.Configured() && mgr.nowhere in l
    ensures !Held(l, mgr)
  {
    assert mgr.nowhere in Owned(l);
  }

  /** Two disjoint lists chained: windows, bytes and ownership are those of the parts. */
  lemma HeldConcat(a: seq<PktBlock>, b: seq<PktBlock>, mgr: PktManager)
    requires mgr.Configured() && Held(a, mgr) && Held(b, mgr) && Owned(a) !! Owned(b)
    ensures Held(a + b, mgr) && Owned(a + b) == Owned(a) + Owned(b)
    ensures Formed(Views(a)) && Formed(Views(b)) && Formed(Views(a + b))
    ensures Views(a + b) == Views(a) + Views(b)
    ensures Bytes(Views(a + b)) == Bytes(Views(a)) + Bytes(Views(b))
  {
    hide Bytes, Views;
    OwnedConcat(a, b);
    HeldFormed(a, mgr);
    HeldFormed(b, mgr);
    ViewsConcat(a, b);
    BytesConcat(Views(a), Views(b));
  }

  lemma OwnedConcat(a: seq<PktBlock>, b: seq<PktBlock>)
    requires NoDup(a) && NoDup(b) && Owned(a) !! Owned(b)
    ensures NoDup(a + b) && Owned(a + b) == Owned(a) + Owned(b)
  {
    forall i, j | 0 <= i < j < |a + b|
      ensures (a + b)[i] != (a + b)[j]
    {
      if i < |a| <= j {
        assert a[i] in Owned(a) && b[j - |a|] in Owned(b);
      }
    }
  }

  lemma SplitOwned(l: seq<PktBlock>, n: nat)
    requires NoDup(l) && n <= |l|
    ensures NoDup(l[..n]) && NoDup(l[n..])
    ensures Owned(l[..n]) !! Owned(l[n..]) && Owned(l[..n]) + Owned(l[n..]) == Owned(l)
  {
    assert l == l[..n] + l[n..];
  }

  function Reverse(l: seq<PktBlock>): (r: seq<PktBlock>)
    ensures |r| == |l| && forall i :: 0 <= i < |l| ==> r[i] == l[|l| - 1 - i]
  {
    if l == [] then [] else [l[|l| - 1]] + Reverse(l[..|l| - 1])
  }

  lemma ReverseOwned(l: seq<PktBlock>)
    requires NoDup(l)
    ensures NoDup(Reverse(l)) && Owned(Reverse(l)) == Owned(l)
  {
    var r := Reverse(l);
    forall b
      ensures b in r <==> b in l
    {
      if b in r {
        var i :| 0 <= i < |r| && r[i] == b;
        assert l[|l| - 1 - i] == b;
      }
      if b in l {
        var i :| 0 <= i < |l| && l[i] == b;
        assert r[|l| - 1 - i] == b;
      }
    }
  }

  /** Blocks of one allocation in the order in which they are chained: partial block first when
      the room is to be at the head, last otherwise. */
  function Placed(l: seq<PktBlock>, allocFront: bool): seq<PktBlock> {
    if allocFront then Reverse(l) else l
  }

  /** l are the blocks of an allocation of n bytes, in allocation order, with their windows at
      the end of the payload (headroom) or at its start (tail room). All but the last are full,
      so that there is such room in one block only. */
  ghost predicate Cut(l: seq<PktBlock>, n: nat, blkSize: nat, allocFront: bool)
    requires 0 < blkSize
    reads Owned(l)
  {
    var sizes := Chunks(n, blkSize);
    && |l| == |sizes|
    && (forall i :: 0 <= i < |l| ==> l[i].size == sizes[i])
    && (forall i :: 0 <= i < |l| ==> l[i].data == if allocFront then blkSize - sizes[i] else 0)
    && (forall i :: 0 <= i < |l| - 1 ==> l[i].data == 0 && l[i].size == blkSize)
  }

  lemma CutFirst(l: seq<PktBlock>, n: nat, blkSize: nat)
    requires 0 < blkSize && 0 < n && Cut(l, n, blkSize, false)
    ensures l != [] && l[0].data == 0
  {
  }

  /** Chained with the partial block first, the room before it is what the blocks have over. */
  lemma CutHeadRoom(l: seq<PktBlock>, n: nat, blkSize: nat)
    requires 0 < blkSize && 0 < n && Cut(l, n, blkSize, true)
    ensures var r := Reverse(l);
      && r != [] && n <= |r| * blkSize && r[0].data == |r| * blkSize - n
      && forall i :: 0 < i < |r| ==> r[i].data == 0 && r[i].size == blkSize
  {
    ChunksLast(n, blkSize);
    ChunksSum(n, blkSize);
    var k := |l|;
    assert (k - 1) * blkSize + blkSize == k * blkSize;
  }

  /** Blocks behind the first k ones start at their payload, and all but the last are full. */
  ghost predicate FullBehind(l: seq<PktBlock>, k: nat, blkSize: nat)
    reads Owned(l)
  {
    && (forall i :: k <= i < |l| ==> l[i].data == 0)
    && (forall i :: k <= i < |l| - 1 ==> l[i].size == blkSize)
  }

  lemma CutBehind(l: seq<PktBlock>, got: seq<PktBlock>, n: nat, blkSize: nat)
    requires 0 < blkSize && Cut(got, n, blkSize, false)
    ensures FullBehind(l + got, |l|, blkSize)
  {
    var a := l + got;
    forall i | |l| <= i < |a|
      ensures a[i].data == 0 && (i < |a| - 1 ==> a[i].size == blkSize)
    {
      assert a[i] == got[i - |l|];
    }
  }

  lemma NoneBehind(l: seq<PktBlock>, blkSize: nat)
    ensures FullBehind(l, |l|, blkSize)
  {
  }

  lemma CutIntro(l: seq<PktBlock>, n: nat, blkSize: nat, allocFront: bool)
    requires 0 < blkSize && |l| == |Chunks(n, blkSize)|
    requires forall i :: 0 <= i < |l| ==> l[i].size == Chunks(n, blkSize)[i]
    requires forall i :: 0 <= i < |l| ==>
      l[i].data == if allocFront then blkSize - Chunks(n, blkSize)[i] else 0
    ensures Cut(l, n, blkSize, allocFront)
  {
    forall i | 0 <= i < |l| - 1
      ensures l[i].data == 0 && l[i].size == blkSize
    {
      ChunksFull(n, blkSize, i);
    }
  }

  lemma {:induction false} CutBytes(l: seq<PktBlock>, n: nat, blkSize: nat, allocFront: bool)
    requires 0 < blkSize && Cut(l, n, blkSize, allocFront)
    requires forall b :: b in l ==> b.payload.Length == blkSize
    ensures Formed(Views(l)) && |Bytes(Views(l))| == n
  {
    if l != [] {
      CutBytes(l[1..], n - Min(n, blkSize), blkSize, allocFront);
      assert Views(l)[1..] == Views(l[1..]);
    }
  }

  lemma {:induction false} PlacedBytes(l: seq<PktBlock>)
    requires Formed(Views(l))
    ensures Formed(Views(Reverse(l))) && |Bytes(Views(Reverse(l)))| == |Bytes(Views(l))|
  {
    if l != [] {
      hide Bytes, Views;
      var k := |l| - 1;
      assert l == l[..k] + [l[k]];
      ViewsConcat(l[..k], [l[k]]);
      assert Formed(Views(l[..k])) && Formed(Views([l[k]]));
      PlacedBytes(l[..k]);
      BytesConcat(Views(l[..k]), Views([l[k]]));
      assert Reverse(l) == [l[k]] + Reverse(l[..k]);
      ViewsConcat([l[k]], Reverse(l[..k]));
      BytesConcat(Views([l[k]]), Views(Reverse(l[..k])));
    }
  }

  /** The blocks of one allocation, fresh from the pool, are held and have n bytes in all. */
  lemma CutHeld(l: seq<PktBlock>, n: nat, allocFront: bool, mgr: PktManager)
    requires mgr.Configured() && Cut(l, n, mgr.blkSize, allocFront)
    requires NoDup(l) && Owned(l) <= mgr.blocks
    ensures Held(Placed(l, allocFront), mgr) && Owned(Placed(l, allocFront)) == Owned(l)
    ensures Formed(Views(Placed(l, allocFront))) && |Bytes(Views(Placed(l, allocFront)))| == n
  {
    hide Bytes, Views, NoDup, Reverse;
    assert forall b :: b in l ==> b in Owned(l);
    CutBytes(l, n, mgr.blkSize, allocFront);
    PlacedBytes(l);
    ReverseOwned(l);
    var r := Placed(l, allocFront);
    forall b | b in r
      ensures 0 < b.size && b.data + b.size <= mgr.blkSize
    {
      assert b in Owned(r);
      var i :| 0 <= i < |l| && l[i] == b;
    }
  }

  lemma PayloadsApart(a: seq<PktBlock>, b: seq<PktBlock>, mgr: PktManager)
    requires mgr.Configured() && Owned(a) <= mgr.blocks && Owned(b) <= mgr.blocks && Owned(a) !! Owned(b)
    ensures Payloads(a) !! Payloads(b)
  {
    assert forall x :: x in a ==> x in Owned(a);
    assert forall x :: x in b ==> x in Owned(b);
  }

  lemma HeldOne(b: PktBlock, mgr: PktManager)
    requires mgr.Configured() && b in mgr.blocks && 0 < b.size && b.data + b.size <= mgr.blkSize
    ensures Held([b], mgr) && Owned([b]) == {b} && Formed(Views([b]))
    ensures Views([b]) == [View(b.payload[..], b.data, b.size)]
    ensures Bytes(Views([b])) == b.payload[b.data..b.data + b.size]
  {
    assert Views([b])[1..] == [];
  }

  /** One block and the blocks of a list that does not contain it, chained on either side. */
  lemma HeldFirst(b: PktBlock, l: seq<PktBlock>, mgr: PktManager)
    requires mgr.Configured() && b in mgr.blocks && 0 < b.size && b.data + b.size <= mgr.blkSize
    requires Held(l, mgr) && b !in Owned(l)
    ensures Held([b] + l, mgr) && Owned([b] + l) == {b} + Owned(l)
    ensures Formed(Views(l)) && Formed(Views([b] + l))
    ensures Views([b] + l) == [View(b.payload[..], b.data, b.size)] + Views(l)
    ensures Bytes(Views([b] + l)) == b.payload[b.data..b.data + b.size] + Bytes(Views(l))
  {
    hide Bytes, Views, NoDup, Owned, Held;
    HeldOne(b, mgr);
    HeldConcat([b], l, mgr);
  }

  lemma HeldLast(l: seq<PktBlock>, b: PktBlock, mgr: PktManager)
    requires mgr.Configured() && b in mgr.blocks && 0 < b.size && b.data + b.size <= mgr.blkSize
    requires Held(l, mgr) && b !in Owned(l)
    ensures Held(l + [b], mgr) && Owned(l + [b]) == Owned(l) + {b}
    ensures Formed(Views(l)) && Formed(Views(l + [b]))
    ensures Views(l + [b]) == Views(l) + [View(b.payload[..], b.data, b.size)]
    ensures Bytes(Views(l + [b])) == Bytes(Views(l)) + b.payload[b.data..b.data + b.size]
  {
    hide Bytes, Views, NoDup, Owned, Held;
    HeldOne(b, mgr);
    HeldConcat(l, [b], mgr);
  }

  /** The first and the last block of a held list against the rest of it. */
  lemma HeldEnds(l: seq<PktBlock>, mgr: PktManager)
    requires mgr.Configured() && Held(l, mgr) && l != []
    ensures var k := |l| - 1;
      && Held(l[1..], mgr) && l[0] !in Owned(l[1..]) && Owned(l) == {l[0]} + Owned(l[1..])
      && Held(l[..k], mgr) && l[k] !in Owned(l[..k]) && Owned(l) == Owned(l[..k]) + {l[k]}
  {
    hide *;
    var k := |l| - 1;
    assert l == [l[0]] + l[1..] && l == l[..k] + [l[k]];
    HeldCons(l, l[0], l[1..], mgr);
    HeldSnoc(l, l[..k], l[k], mgr);
  }

  lemma HeldCons(l: seq<PktBlock>, b: PktBlock, rest: seq<PktBlock>, mgr: PktManager)
    requires Held(l, mgr) && l == [b] + rest
    ensures Held(rest, mgr) && b !in Owned(rest) && Owned(l) == {b} + Owned(rest)
  {
    assert l[0] == b && forall i :: 0 <= i < |rest| ==> rest[i] == l[i + 1];
  }

  lemma HeldSnoc(l: seq<PktBlock>, init: seq<PktBlock>, b: PktBlock, mgr: PktManager)
    requires Held(l, mgr) && l == init + [b]
    ensures Held(init, mgr) && b !in Owned(init) && Owned(l) == Owned(init) + {b}
  {
    assert forall i :: 0 <= i < |init| ==> init[i] == l[i];
    assert l[|init|] == b;
  }

  lemma HeldMember(l: seq<PktBlock>, mgr: PktManager)
    requires mgr.Configured() && Held(l, mgr)
    ensures forall b :: b in l ==> b in mgr.blocks && 0 < b.size && b.data + b.size <= mgr.blkSize
    ensures forall b :: b in l ==> b.payload.Length == mgr.blkSize
    ensures Formed(Views(l))
  {
    assert forall b :: b in l ==> b in Owned(l);
  }

  lemma PrefixStep(p: seq<PktBlock>, r: seq<PktBlock>, j: nat, b: PktBlock)
    requires j < |r| && b == r[j]
    ensures p + r[..j] + [b] == p + r[..j + 1]
  {
  }

  lemma SliceShift(l: seq<PktBlock>, p: seq<PktBlock>, k: nat)
    requires k < |l|
    ensures l[k..][0] == l[k] && l[k..][1..] == l[k + 1..]
    ensures p + l[..k] + [l[k]] == p + l[..k + 1]
  {
  }

  /** A held list cut in two. */
  lemma HeldParts(l: seq<PktBlock>, k: nat, mgr: PktManager)
    requires mgr.Configured() && Held(l, mgr) && k <= |l|
    ensures Held(l[..k], mgr) && Held(l[k..], mgr) && Owned(l[..k]) !! Owned(l[k..])
    ensures Owned(l[..k]) + Owned(l[k..]) == Owned(l)
    ensures Formed(Views(l)) && Formed(Views(l[..k])) && Formed(Views(l[k..]))
    ensures Views(l[..k]) == Views(l)[..k] && Views(l[k..]) == Views(l)[k..]
    ensures Bytes(Views(l)) == Bytes(Views(l[..k])) + Bytes(Views(l[k..]))
  {
    hide *;
    HeldMember(l, mgr);
    HeldNoDup(l, mgr);
    SplitOwned(l, k);
    assert l == l[..k] + l[k..];
    HeldSub(l, l[..k], mgr);
    HeldSub(l, l[k..], mgr);
    HeldConcat(l[..k], l[k..], mgr);
    assert Views(l)[..k] == Views(l[..k]) && Views(l)[k..] == Views(l[k..]);
  }

  lemma HeldNoDup(l: seq<PktBlock>, mgr: PktManager)
    requires Held(l, mgr)
    ensures NoDup(l) && Owned(l) <= mgr.blocks
  {
  }

  lemma HeldSub(l: seq<PktBlock>, s: seq<PktBlock>, mgr: PktManager)
    requires Held(l, mgr) && NoDup(s) && Owned(s) <= Owned(l)
    ensures Held(s, mgr)
  {
    assert forall b :: b in s ==> b in Owned(s);
  }

  /** What a queue of a limited size holds after a list of pushes. */
  function Filled(p: seq<PktBlock>, l: seq<PktBlock>, limit: nat): seq<PktBlock> {
    if |p| + |l| <= limit then p + l
    else if |p| <= limit then p + l[..limit - |p|] else p
  }

  lemma FilledNone(p: seq<PktBlock>, limit: nat)
    ensures Filled(p, [], limit) == p
  {
  }

  lemma FilledAll(p: seq<PktBlock>, l: seq<PktBlock>, limit: nat)
    requires |p| + |l| <= limit
    ensures Filled(p, l, limit) == p + l
  {
  }

  lemma FilledStep(p: seq<PktBlock>, l: seq<PktBlock>, k: nat, limit: nat)
    requires k < |l|
    ensures var now := Filled(p, l[..k], limit);
      Filled(p, l[..k + 1], limit) == if |now| < limit then now + [l[k]] else now
    ensures l[k..] != [] && l[k..][0] == l[k] && l[k..][1..] == l[k + 1..]
    ensures l[..0] == []
  {
    assert l[..k + 1] == l[..k] + [l[k]];
    if |p| <= limit < |p| + k {
      assert l[..k][..limit - |p|] == l[..limit - |p|] == l[..k + 1][..limit - |p|];
    }
  }

  /** What releasing the blocks e leaves of the pool: all of them, or a pool with a stranger in
      it as soon as e is not empty. */
  lemma ReleasedPool(mgr: PktManager, p: seq<PktBlock>, e: seq<PktBlock>, rel: seq<PktBlock>, bad: bool)
    requires mgr.Configured() && NoDup(p) && Owned(p) <= mgr.blocks && Held(e, mgr)
    requires Owned(e) !! Owned(p) && mgr.pool == p + rel
    requires if bad then e != [] && rel == e[1..] + [mgr.nowhere] else rel == e
    ensures mgr.Valid() <==> !bad
    ensures !bad ==> Owned(mgr.pool) == Owned(p) + Owned(e)
  {
    if bad {
      OwnedAt(mgr.pool, |mgr.pool| - 1);
    } else {
      OwnedConcat(p, e);
    }
  }

  lemma SliceShiftOne(l: seq<PktBlock>, p: seq<PktBlock>, cur: seq<PktBlock>, k: nat, i: nat, j: nat)
    requires j == k + i && j + 1 <= |l| && cur == [l[0]] + l[k + 1..]
    ensures [cur[0]] + cur[i + 1..] == [l[0]] + l[j + 1..]
    ensures p + l[1..k + 1] + cur[1..i + 1] == p + l[1..j + 1]
  {
  }

  /** std::list iterator position of an element. */
  function IndexOf(l: seq<PktBlock>, b: PktBlock): (i: nat)
    requires b in l
    ensures i < |l| && l[i] == b
  {
    if l[0] == b then 0 else 1 + IndexOf(l[1..], b)
  }

  /** memcpy, memmove and memset: n bytes, read before any is written, land at one place. */
  method Memcpy(dst: array<byte>, at: nat, d: seq<byte>)
    requires at + |d| <= dst.Length
    modifies dst
    ensures dst[..] == Splice(old(dst[..]), at, d)
  {
    forall k | 0 <= k < |d| {
      dst[at + k] := d[k];
    }
  }

  /** memmove of a window to the start of its payload. */
  method ShiftBlock(b: PktBlock)
    requires b.data + b.size <= b.payload.Length
    modifies b`data, b.payload
    ensures b.data == 0 && b.payload[0..b.size] == old(b.payload[b.data..b.data + b.size])
  {
    hide *;
    ghost var was, w := b.payload[..], b.payload[b.data..b.data + b.size];
    Memcpy(b.payload, 0, b.payload[b.data..b.data + b.size]);
    b.data := 0;
    SpliceStart(was, w);
  }

  /** The same into one block of a list: no other block's view changes. */
  method WriteBlock(b: PktBlock, at: nat, d: seq<byte>, ghost l: seq<PktBlock>, ghost i: nat, ghost mgr: PktManager)
    requires mgr.Configured() && Held(l, mgr) && i < |l| && l[i] == b
    requires at + |d| <= b.payload.Length
    modifies b.payload
    ensures var c := old(Views(l)); Views(l) == c[i := c[i].(mem := Splice(c[i].mem, at, d))]
  {
    Memcpy(b.payload, at, d);
    forall j | 0 <= j < |l| && j != i
      ensures l[j].payload != b.payload
    {
      assert l[j] in Owned(l) && l[i] in Owned(l);
    }
  }

  /** cur and off are the iterator and the pointer that position pos of list l determines. */
  ghost predicate CursorFor(l: seq<PktBlock>, c: seq<View>, pos: nat, cur: PktBlock?, off: nat)
    requires Formed(c) && |c| == |l|
  {
    var (i, o) := Locate(c, pos);
    && pos <= |Bytes(c)|
    && off == o
    && if i < |l| then cur == l[i] else cur == null
  }

  /** Appending blocks: a cursor inside the packet still fits, one at its end no longer does. */
  lemma CursorAppend(l: seq<PktBlock>, e: seq<PktBlock>, c: seq<View>, d: seq<View>, pos: nat, cur: PktBlock?, off: nat)
    requires Formed(c) && Formed(d) && |c| == |l| && |d| == |e| && Formed(c + d)
    requires CursorFor(l, c, pos, cur, off)
    ensures CursorFor(l + e, c + d, pos, cur, off) <==> pos < |Bytes(c)| || e == []
  {
    hide Bytes, Locate;
    BytesConcat(c, d);
    LocateExact(c, pos);
    LocateExact(c + d, pos);
    BytesLength(d);
    if pos < |Bytes(c)| {
      LocateAppend(c, d, pos);
    } else if e == [] {
      assert c + d == c && l + e == l;
    }
  }

  lemma OthersPayload(b: PktBlock, l: seq<PktBlock>, mgr: PktManager)
    requires mgr.Configured() && b in mgr.blocks && Owned(l) <= mgr.blocks && b !in Owned(l)
    ensures forall x :: x in l ==> x.payload != b.payload
  {
    assert forall x :: x in l ==> x in Owned(l);
  }

  /** What asking for a larger size comes to: the result, the blocks taken, the new capacity. */
  datatype Growth = Growth(r: NetErr, taken: nat, capacity: nat)

  /** From the capacity, the room behind the last window and the number of pooled blocks. As
      written the room is held against the new size, and the rest is a difference of words that
      wraps to a request no pool can meet when the room exceeds the growth. */
  function GrowthOf(code: Code, cap: nat, size: nat, room: nat, blkSize: nat, free: nat): Growth
    requires 0 < blkSize && cap < size
  {
    var growth := size - cap;
    var need := if code.Written? then size else growth;
    if 0 < cap && need <= room then Growth(NetOk, 0, cap + need)
    else if 0 < cap && growth < room then Growth(NetMem, 0, cap + room)
    else
      var rest: nat := if cap == 0 then size else growth - room;
      var n := |Chunks(rest, blkSize)|;
      if n <= free then Growth(NetOk, n, size)
      else Growth(NetMem, 0, if cap == 0 then 0 else cap + room)
  }

  lemma GrowthCases(code: Code, cap: nat, size: nat, room: nat, blkSize: nat, free: nat)
    requires 0 < blkSize && cap < size
    ensures var o, growth := GrowthOf(code, cap, size, room, blkSize, free), size - cap;
      var need := if code.Written? then size else growth;
      var n := if room <= growth then |Chunks(growth - room, blkSize)| else free + 1;
      if cap == 0 then
        var k := |Chunks(size, blkSize)|;
        o == if k <= free then Growth(NetOk, k, size) else Growth(NetMem, 0, 0)
      else if need <= room then o == Growth(NetOk, 0, cap + need)
      else if n <= free then o == Growth(NetOk, n, size)
      else o == Growth(NetMem, 0, cap + room)
  {
  }

  /** Asking comes to the size asked for exactly when the code is repaired or the room does not
      exceed the growth, and the pool has the blocks for what the room does not hold. */
  lemma GrowsRight(code: Code, cap: nat, size: nat, room: nat, blkSize: nat, free: nat)
    requires 0 < blkSize && 0 < cap < size
    ensures var o := GrowthOf(code, cap, size, room, blkSize, free);
      var growth := size - cap;
      var n := if growth <= room then 0 else |Chunks(growth - room, blkSize)|;
      && (o.r == NetOk && o.capacity == size <==> (code.Repaired? || room <= growth) && n <= free)
      && (o.r == NetOk && o.capacity == size ==> o.taken == n)
      && (o.r == NetOk && (code.Repaired? || room <= growth) ==> o.capacity == size)
  {
  }

  /** Repaired, growing never comes to more than was asked for, and to just that if the pool could
      hold all of the growth. */
  lemma GrowthRepaired(cap: nat, size: nat, room: nat, blkSize: nat, free: nat)
    requires 0 < blkSize && cap < size
    ensures var o := GrowthOf(Repaired, cap, size, room, blkSize, free);
      o.capacity <= size && (|Chunks(size - cap, blkSize)| <= free ==> o.capacity == size)
  {
    if room < size - cap {
      ChunksMonotone(size - cap - room, size - cap, blkSize);
    }
  }

  class PktBuffer {
    const mgr: PktManager
    var capacity: nat
    var blkList: seq<PktBlock>
    var pos: nat
    var curBlk: PktBlock?   // null: the list's end iterator
    var blkOffset: nat      // m_blk_offset, as an offset into curBlk's payload
    var refs: int

    constructor (mgr: PktManager)
      ensures this.mgr == mgr && blkList == [] && capacity == 0 && refs == 1
    {
      this.mgr := mgr;
      capacity, blkList, refs := 0, [], 1;
      pos, curBlk, blkOffset := 0, null, 0;
    }

    method Reset()
      modifies this`capacity, this`refs
      ensures capacity == 0 && refs == 1
    {
      capacity, refs := 0, 1;
    }

    ghost predicate Valid()
      reads this, mgr, Owned(blkList), Payloads(blkList)
    {
      && mgr.Valid()
      && Held(blkList, mgr)
      && Owned(blkList) !! Owned(mgr.pool)
      && Formed(Views(blkList))
      && capacity == |Bytes(Views(blkList))|
    }

    lemma Facts()
      requires Valid()
      ensures mgr.Valid() && mgr.Configured() && 0 < mgr.blkSize
      ensures Held(blkList, mgr) && Owned(blkList) !! Owned(mgr.pool) && Owned(blkList) <= mgr.blocks
      ensures Formed(Views(blkList)) && capacity == |Bytes(Views(blkList))|
    {
    }

    lemma ValidIntro()
      requires mgr.Valid() && Held(blkList, mgr) && Owned(blkList) !! Owned(mgr.pool)
      requires Formed(Views(blkList)) && capacity == |Bytes(Views(blkList))|
      ensures Valid()
    {
    }

    /** The flat packet this buffer stands for. */
    ghost function Content(): (s: seq<byte>)
      reads this, mgr, Owned(blkList), Payloads(blkList)
      requires Valid()
      ensures |s| == capacity && s == Bytes(Views(blkList))
    {
      Bytes(Views(blkList))
    }

    /** The cursor is the one that pos determines, wherever it came from. */
    ghost predicate Coherent()
      reads this, mgr, Owned(blkList), Payloads(blkList)
      requires Valid()
    {
      CursorFor(blkList, Views(blkList), pos, curBlk, blkOffset)
    }

    lemma CoherentIs()
      requires Valid()
      ensures Coherent() <==> CursorFor(blkList, Views(blkList), pos, curBlk, blkOffset)
    {
    }

    method ResetAccess()
      requires Valid()
      modifies this`pos, this`curBlk, this`blkOffset
      ensures Valid() && Coherent() && pos == 0
      ensures Views(blkList) == old(Views(blkList))
    {
      ghost var c := Views(blkList);
      pos, curBlk, blkOffset := 0, null, 0;
      if blkList != [] {
        curBlk := blkList[0];
        blkOffset := blkList[0].data;
      }
      assert Views(blkList) == c;
    }

    function CurBlkRemainSize(): (n: nat)
      reads this, curBlk
      requires curBlk != null ==> blkOffset <= curBlk.data + curBlk.size
      ensures curBlk != null ==> blkOffset + n == curBlk.data + curBlk.size
    {
      if curBlk == null then 0 else curBlk.data + curBlk.size - blkOffset
    }

    lemma CursorInside()
      requires Valid() && Coherent()
      ensures pos <= capacity && (curBlk == null <==> pos == capacity)
      ensures curBlk != null ==>
        && curBlk in blkList
        && Locate(Views(blkList), pos) == (IndexOf(blkList, curBlk), blkOffset)
        && curBlk.data <= blkOffset < curBlk.data + curBlk.size <= curBlk.payload.Length
        && curBlk.payload in Payloads(blkList)
        && pos + (curBlk.data + curBlk.size - blkOffset) <= capacity
    {
      hide Bytes, Locate, Views, Owned;
      LocateExact(Views(blkList), pos);
      if pos < capacity {
        var (i, o) := Locate(Views(blkList), pos);
        LoadIsSlice(Views(blkList), pos, blkList[i].data + blkList[i].size - o);
      }
    }

    method MoveForward(size: nat)
      requires Valid() && Coherent() && curBlk != null
      requires blkOffset + size <= curBlk.data + curBlk.size
      modifies this`pos, this`curBlk, this`blkOffset
      ensures Valid() && Coherent() && pos == old(pos) + size
      ensures Views(blkList) == old(Views(blkList))
    {
      hide Bytes, Locate, Views, NoDup, Owned;
      CursorInside();
      ghost var c := Views(blkList);
      LocateForward(c, pos, size);
      var i := IndexOf(blkList, curBlk);
      assert c[i].off == curBlk.data && c[i].len == curBlk.size;
      assert pos + size <= capacity;
      label Before:
      pos := pos + size;
      blkOffset := blkOffset + size;
      if blkOffset >= curBlk.data + curBlk.size {
        if i + 1 < |blkList| {
          curBlk := blkList[i + 1];
          blkOffset := curBlk.data;
        } else {
          curBlk := null;
          blkOffset := 0;
        }
      }
      PacketKept@Before();
    }

    /** As long as the listed blocks and the pool stay, so does the packet; the cursor may move. */
    twostate lemma PacketKept()
      requires old(Valid()) && blkList == old(blkList) && capacity == old(capacity)
      requires mgr.pool == old(mgr.pool)
      requires forall b :: b in blkList ==>
        b.data == old(b.data) && b.size == old(b.size) && b.payload[..] == old(b.payload[..])
      ensures Valid() && Views(blkList) == old(Views(blkList)) && Content() == old(Content())
      ensures old(Coherent()) && pos == old(pos) && curBlk == old(curBlk) && blkOffset == old(blkOffset)
        ==> Coherent()
    {
      hide Views, NoDup, Bytes, Locate, Owned;
      ViewsFrame(blkList);
      assert mgr.Valid();
      assert Held(blkList, mgr);
    }

    /** memcpy to the cursor inside the current block, then move_forward. */
    method Store(d: seq<byte>)
      requires Valid() && Coherent() && curBlk != null
      requires blkOffset + |d| <= curBlk.data + curBlk.size
      modifies this`pos, this`curBlk, this`blkOffset, curBlk.payload
      ensures Valid() && Coherent() && pos == old(pos) + |d|
      ensures Content() == Splice(old(Content()), old(pos), d)
    {
      CursorInside();
      ghost var c := Views(blkList);
      ghost var i := IndexOf(blkList, curBlk);
      StoreIsSplice(c, pos, d);
      ghost var c' := c[i := c[i].(mem := Splice(c[i].mem, blkOffset, d))];
      WriteBlock(curBlk, blkOffset, d, blkList, i, mgr);
      assert Views(blkList) == c';
      LocateSameWindows(c, c', pos);
      MoveForward(|d|);
    }

    /** What the current block holds at the cursor is the packet at the position. */
    lemma CursorLoads(n: nat)
      requires Valid() && Coherent() && curBlk != null
      requires blkOffset + n <= curBlk.data + curBlk.size <= curBlk.payload.Length
      ensures pos + n <= capacity
      ensures curBlk.payload[blkOffset..blkOffset + n] == Slice(Content(), pos, n)
    {
      hide Bytes, Locate, Views, NoDup, Owned;
      CursorInside();
      LoadIsSlice(Views(blkList), pos, n);
    }

    /** memcpy from the cursor inside the current block, then move_forward. */
    method Load(dest: array<byte>, at: nat, n: nat)
      requires Valid() && Coherent() && curBlk != null
      requires blkOffset + n <= curBlk.data + curBlk.size <= curBlk.payload.Length
      requires dest !in Payloads(blkList) && at + n <= dest.Length
      modifies this`pos, this`curBlk, this`blkOffset, dest
      ensures Valid() && Coherent() && Content() == old(Content())
      ensures pos == old(pos) + n && pos <= capacity
      ensures dest[..] == Splice(old(dest[..]), at, Slice(old(Content()), old(pos), n))
    {
      hide *;
      CursorLoads(n);
      PayloadMember(blkList);
      var chunk := curBlk.payload[blkOffset..blkOffset + n];
      assert chunk == Slice(Content(), pos, n);
      ghost var d := Splice(dest[..], at, chunk);
      Memcpy(dest, at, chunk);
      assert dest[..] == d;
      PacketKept();
      MoveForward(n);
    }

    method Seek(offset: nat) returns (r: NetErr)
      requires Valid() && Coherent()
      modifies this`pos, this`curBlk, this`blkOffset
      ensures Valid() && Coherent() && Views(blkList) == old(Views(blkList)) && Content() == old(Content())
      ensures r == if offset <= capacity then NetOk else NetSize
      ensures pos == if offset <= capacity then offset else old(pos)
    {
      hide *;
      CursorInside();
      if pos == offset {
        return NetOk;
      }
      if offset > capacity {
        return NetSize;
      }
      var moveBytes: nat := offset;
      if offset < pos {
        ResetAccess();
      } else {
        moveBytes := offset - pos;
      }
      while moveBytes != 0
        invariant Valid() && Coherent() && Views(blkList) == old(Views(blkList))
        invariant pos + moveBytes == offset && offset <= capacity
      {
        CursorInside();
        var curMove := Min(CurBlkRemainSize(), moveBytes);
        MoveForward(curMove);
        moveBytes := moveBytes - curMove;
      }
      return NetOk;
    }

    method Write(src: array?<byte>, size: nat) returns (r: NetErr)
      requires Valid() && Coherent()
      requires src != null ==> size <= src.Length && src !in Payloads(blkList)
      modifies this`pos, this`curBlk, this`blkOffset, Payloads(blkList)
      ensures Valid() && Coherent()
      ensures r == if src == null || size == 0 then NetParam
                   else if old(capacity - pos) < size then NetSize else NetOk
      ensures r != NetOk ==> pos == old(pos) && Content() == old(Content())
      ensures r == NetOk ==>
        pos == old(pos) + size && Content() == Splice(old(Content()), old(pos), src[..size])
    {
      hide *;
      if src == null || size == 0 {
        return NetParam;
      }
      if capacity - pos < size {
        return NetSize;
      }
      var done: nat, left: nat := 0, size;
      ghost var s, p, d := Content(), pos, src[..size];
      SpliceNone(s, p, d);
      while left != 0
        invariant done + left == size && src[..size] == d
        invariant Valid() && Coherent() && pos == p + done
        invariant p + size <= |s| && Content() == Splice(s, p, d[..done])
      {
        CursorInside();
        var n := Min(left, CurBlkRemainSize());
        var chunk := src[done..done + n];
        SubSlice(src[..], 0, size, done, done + n);
        ghost var mid, q := Content(), pos;
        Store(chunk);
        SpliceStep(s, p, d, done, done + n, mid, q, Content());
        done, left := done + n, left - n;
      }
      assert d[..size] == d;
      return NetOk;
    }

    method Fill(v: byte, size: nat) returns (r: NetErr)
      requires Valid() && Coherent()
      modifies this`pos, this`curBlk, this`blkOffset, Payloads(blkList)
      ensures Valid() && Coherent()
      ensures r == if size == 0 then NetParam
                   else if old(capacity - pos) < size then NetSize else NetOk
      ensures r != NetOk ==> pos == old(pos) && Content() == old(Content())
      ensures r == NetOk ==>
        pos == old(pos) + size && Content() == Splice(old(Content()), old(pos), Repeat(v, size))
      ensures r == NetOk ==>
        && |Content()| == |old(Content())|
        && forall k :: 0 <= k < |Content()| ==>
          Content()[k] == if old(pos) <= k < old(pos) + size then v else old(Content())[k]
    {
      hide *;
      if size == 0 {
        return NetParam;
      }
      if capacity - pos < size {
        return NetSize;
      }
      var left: nat := size;
      ghost var s, p, d := Content(), pos, Repeat(v, size);
      ghost var done := 0;
      SpliceNone(s, p, d);
      while left != 0
        invariant done + left == size
        invariant Valid() && Coherent() && pos == p + done
        invariant p + size <= |s| && Content() == Splice(s, p, d[..done])
      {
        CursorInside();
        var n := Min(left, CurBlkRemainSize());
        var chunk := Repeat(v, n);
        RepeatSlice(v, size, done, done + n);
        ghost var mid, q := Content(), pos;
        Store(chunk);
        SpliceStep(s, p, d, done, done + n, mid, q, Content());
        done, left := done + n, left - n;
      }
      assert d[..size] == d;
      SpliceRepeat(s, p, v, size);
      return NetOk;
    }

    method Read(dest: array?<byte>, size: nat) returns (r: NetErr)
      requires Valid() && Coherent()
      requires dest != null ==> size <= dest.Length && dest !in Payloads(blkList)
      modifies this`pos, this`curBlk, this`blkOffset, if dest == null then {} else {dest}
      ensures Valid() && Coherent() && Content() == old(Content())
      ensures r == if dest == null || size == 0 then NetParam
                   else if old(capacity - pos) < size then NetSize else NetOk
      ensures r != NetOk ==> pos == old(pos) && (dest != null ==> dest[..] == old(dest[..]))
      ensures r == NetOk ==>
        pos == old(pos) + size
        && dest[..] == Splice(old(dest[..]), 0, Slice(old(Content()), old(pos), size))
    {
      hide *;
      if dest == null || size == 0 {
        return NetParam;
      }
      if capacity - pos < size {
        return NetSize;
      }
      var done: nat, left: nat := 0, size;
      ghost var s, o, d, p := Content(), dest[..], Slice(Content(), pos, size), pos;
      SpliceNone(o, 0, d);
      while left != 0
        invariant done + left == size
        invariant Valid() && Coherent() && pos == p + done
        invariant Content() == s && p + size <= capacity && d == Slice(s, p, size)
        invariant size <= |o| && dest[..] == Splice(o, 0, d[..done])
      {
        CursorInside();
        var n := Min(left, CurBlkRemainSize());
        ghost var mid := dest[..];
        Load(dest, done, n);
        SubSlice(s, p, p + size, done, done + n);
        SpliceStep(o, 0, d, done, done + n, mid, done, dest[..]);
        done, left := done + n, left - n;
      }
      assert d[..size] == d;
      return NetOk;
    }

    /** One round of copy: the part that lies in both current blocks. */
    method CopyChunk(src: PktBuffer, n: nat)
      requires Valid() && Coherent() && src.Valid() && src.Coherent()
      requires src != this && src.mgr == mgr && Owned(blkList) !! Owned(src.blkList)
      requires curBlk != null && blkOffset + n <= curBlk.data + curBlk.size
      requires src.curBlk != null && src.blkOffset + n <= src.curBlk.data + src.curBlk.size
      modifies this`pos, this`curBlk, this`blkOffset, Payloads(blkList)
      modifies src`pos, src`curBlk, src`blkOffset
      ensures Valid() && Coherent() && src.Valid() && src.Coherent()
      ensures src.Content() == old(src.Content())
      ensures pos == old(pos) + n && src.pos == old(src.pos) + n && src.pos <= src.capacity
      ensures Content() == Splice(old(Content()), old(pos), Slice(old(src.Content()), old(src.pos), n))
    {
      hide *;
      CursorInside();
      src.CursorInside();
      src.CursorLoads(n);
      Facts();
      src.Facts();
      PayloadsApart(blkList, src.blkList, mgr);
      PayloadMember(src.blkList);
      OwnedMember(blkList);
      var chunk := src.curBlk.payload[src.blkOffset..src.blkOffset + n];
      Store(chunk);
      src.PacketKept();
      label Stored:
      src.MoveForward(n);
      PacketKept@Stored();
      assert Content() == Splice(old(Content()), old(pos), chunk);
    }

    /** From another buffer, whatever the two buffers' block boundaries are. */
    method Copy(src: PktBuffer, size: nat) returns (r: NetErr)
      requires Valid() && Coherent() && src.Valid() && src.Coherent()
      requires src != this && src.mgr == mgr && Owned(blkList) !! Owned(src.blkList)
      modifies this`pos, this`curBlk, this`blkOffset, Payloads(blkList)
      modifies src`pos, src`curBlk, src`blkOffset
      ensures Valid() && Coherent() && src.Valid() && src.Coherent()
      ensures src.Content() == old(src.Content())
      ensures r == if old(capacity - pos) < size || old(src.capacity - src.pos) < size
                   then NetSize else NetOk
      ensures r != NetOk ==>
        pos == old(pos) && src.pos == old(src.pos) && Content() == old(Content())
      ensures r == NetOk ==>
        && pos == old(pos) + size && src.pos == old(src.pos) + size
        && Content() == Splice(old(Content()), old(pos), Slice(old(src.Content()), old(src.pos), size))
    {
      hide *;
      if capacity - pos < size || src.capacity - src.pos < size {
        return NetSize;
      }
      var left: nat := size;
      ghost var s, p, t, q := Content(), pos, src.Content(), src.pos;
      ghost var d, done := Slice(t, q, size), 0;
      SpliceNone(s, p, d);
      while left != 0
        invariant done + left == size
        invariant Valid() && Coherent() && pos == p + done
        invariant src.Valid() && src.Coherent() && src.pos == q + done
        invariant src.Content() == t && p + size <= |s|
        invariant Content() == Splice(s, p, d[..done])
      {
        CursorInside();
        src.CursorInside();
        var n := Min(left, Min(CurBlkRemainSize(), src.CurBlkRemainSize()));
        ghost var mid, at := Content(), pos;
        CopyChunk(src, n);
        SubSlice(t, q, q + size, done, done + n);
        SpliceStep(s, p, d, done, done + n, mid, at, Content());
        done, left := done + n, left - n;
      }
      assert d[..size] == d;
      return NetOk;
    }

    /** The four ways alloc chains its blocks. */
    method Insert(blks: seq<PktBlock>, allocFront: bool, insertFront: bool)
      modifies this`blkList
      ensures blkList == if insertFront then Placed(blks, allocFront) + old(blkList)
                         else old(blkList) + Placed(blks, allocFront)
    {
      ghost var l := blkList;
      if insertFront {
        if allocFront {
          for i := 0 to |blks|
            invariant blkList == Reverse(blks[..i]) + l
          {
            assert blks[..i + 1][..i] == blks[..i];
            blkList := [blks[i]] + blkList;
          }
          assert blks[..|blks|] == blks;
        } else {
          for i := |blks| downto 0
            invariant blkList == blks[i..] + l
          {
            blkList := [blks[i]] + blkList;
          }
        }
      } else {
        if allocFront {
          assert blks[..|blks|] == blks;
          for i := |blks| downto 0
            invariant blkList + Reverse(blks[..i]) == l + Reverse(blks)
          {
            assert blks[..i + 1][..i] == blks[..i];
            assert blkList + Reverse(blks[..i + 1]) == (blkList + [blks[i]]) + Reverse(blks[..i]);
            blkList := blkList + [blks[i]];
          }
        } else {
          for i := 0 to |blks|
            invariant blkList == l + blks[..i]
          {
            blkList := blkList + [blks[i]];
          }
        }
      }
    }

    /** The allocation loop of alloc: all the blocks for size bytes, or none. */
    method TakeBlocks(size: nat, allocFront: bool) returns (ok: bool, taken: seq<PktBlock>)
      requires mgr.Valid()
      modifies mgr`pool, Owned(mgr.pool)
      ensures mgr.Valid()
      ensures ok <==> |Chunks(size, mgr.blkSize)| <= |old(mgr.pool)|
      ensures !ok ==> mgr.pool == old(mgr.pool)
      ensures ok ==>
        && Cut(taken, size, mgr.blkSize, allocFront) && |taken| == |Chunks(size, mgr.blkSize)|
        && taken == old(mgr.pool)[..|taken|] && mgr.pool == old(mgr.pool)[|taken|..]
        && NoDup(taken) && Owned(taken) !! Owned(mgr.pool)
        && Owned(taken) + Owned(mgr.pool) == old(Owned(mgr.pool))
    {
      hide *;
      mgr.PoolFacts();
      taken := [];
      var left: nat := size;
      ghost var all, p := Chunks(size, mgr.blkSize), mgr.pool;
      while left != 0
        invariant mgr.Valid() && |taken| <= |p| && |taken| <= |all|
        invariant taken == p[..|taken|] && mgr.pool == p[|taken|..]
        invariant all[|taken|..] == Chunks(left, mgr.blkSize)
        invariant forall i :: 0 <= i < |taken| ==> taken[i].size == all[i]
        invariant forall i :: 0 <= i < |taken| ==>
          taken[i].data == if allocFront then mgr.blkSize - all[i] else 0
      {
        ghost var i := |taken|;
        ChunksStep(all, i, left, mgr.blkSize);
        if i < |p| {
          OwnedAt(p, i);
        }
        var b := mgr.GetBlock();
        if b == null {
          assert taken == p;
          GiveBack(taken);
          return false, [];
        }
        assert b == p[i];
        taken := taken + [b];
        var n := Min(left, mgr.blkSize);
        b.size := n;
        b.data := if allocFront then mgr.blkSize - n else 0;
        left := left - n;
      }
      SplitOwned(p, |taken|);
      assert all == Chunks(size, mgr.blkSize);
      CutIntro(taken, size, mgr.blkSize, allocFront);
      ok := true;
    }

    /** The undo loop of alloc. */
    method GiveBack(taken: seq<PktBlock>)
      requires mgr.Configured() && mgr.pool == [] && NoDup(taken) && Owned(taken) <= mgr.blocks
      modifies mgr`pool
      ensures mgr.pool == taken
    {
      OwnedSize(taken);
      SubsetSize(Owned(taken), mgr.blocks);
      for i := 0 to |taken|
        invariant mgr.pool == taken[..i]
      {
        mgr.ReleaseBlock(taken[i]);
      }
    }

    method Alloc(size: nat, allocFront: bool, insertFront: bool) returns (ok: bool)
      requires Valid()
      modifies this, mgr`pool, Owned(mgr.pool)
      ensures Valid() && refs == 1
      ensures ok <==> |Chunks(size, mgr.blkSize)| <= |old(mgr.pool)|
      ensures !ok ==>
        && mgr.pool == old(mgr.pool) && blkList == old(blkList) && capacity == old(capacity)
        && pos == old(pos) && curBlk == old(curBlk) && blkOffset == old(blkOffset)
        && Views(blkList) == old(Views(blkList))
      ensures ok ==>
        var n := |Chunks(size, mgr.blkSize)|;
        var got := old(mgr.pool)[..n];
        && mgr.pool == old(mgr.pool)[n..]
        && blkList == (if insertFront then Placed(got, allocFront) + old(blkList)
                       else old(blkList) + Placed(got, allocFront))
        && Cut(got, size, mgr.blkSize, allocFront)
        && Coherent() && pos == 0 && capacity == old(capacity) + size
      ensures ok ==>
        var got := Placed(old(mgr.pool)[..|Chunks(size, mgr.blkSize)|], allocFront);
        && Formed(Views(got)) && |Bytes(Views(got))| == size
        && Views(blkList) == if insertFront then Views(got) + old(Views(blkList))
                             else old(Views(blkList)) + Views(got)
      ensures ok ==>
        if insertFront then Content()[size..] == old(Content())
        else old(Content()) <= Content()
    {
      hide *;
      Facts();
      ghost var l, c, s := blkList, Views(blkList), Content();
      OwnedMember(l);
      capacity := capacity + size;
      refs := 1;
      var done, taken := TakeBlocks(size, allocFront);
      if !done {
        capacity := capacity - size;
        ViewsFrame(l);
        ValidIntro();
        return false;
      }
      Insert(taken, allocFront, insertFront);
      ViewsFrame(l);
      CutHeld(taken, size, allocFront, mgr);
      ghost var got := Placed(taken, allocFront);
      if insertFront {
        HeldConcat(got, l, mgr);
        assert Bytes(Views(got + l)) == Bytes(Views(got)) + s;
      } else {
        HeldConcat(l, got, mgr);
        assert Bytes(Views(l + got)) == s + Bytes(Views(got));
      }
      ValidIntro();
      label Chained:
      ResetAccess();
      OwnedMember(got);
      ViewsFrame@Chained(got);
      return true;
    }

    /** pop_front, and the block goes back to the pool. */
    method DropFirst()
      requires Valid() && blkList != []
      modifies this`blkList, this`capacity, mgr`pool
      ensures Valid() && Views(blkList) == old(Views(blkList))[1..]
      ensures capacity == old(capacity) - old(blkList[0].size)
      ensures blkList == old(blkList)[1..] && mgr.pool == old(mgr.pool) + [old(blkList)[0]]
    {
      hide *;
      Facts();
      mgr.PoolFacts();
      var b := blkList[0];
      ghost var l := blkList;
      HeldEnds(l, mgr);
      HeldMember(l, mgr);
      assert [b] + l[1..] == l;
      HeldFirst(b, l[1..], mgr);
      capacity := capacity - b.size;
      blkList := blkList[1..];
      mgr.ReleaseBlock(b);
      OwnedMember(blkList);
      ViewsFrame(blkList);
      ValidIntro();
    }

    /** set_data and set_size of the first block, with the capacity adjusted to match. */
    method SetFirst(data: nat, size: nat)
      requires Valid() && blkList != [] && 0 < size && data + size <= mgr.blkSize
      modifies blkList[0], this`capacity
      ensures Valid() && capacity == old(capacity) - old(blkList[0].size) + size
      ensures blkList[0].data == data && blkList[0].size == size
      ensures Views(blkList) == [View(blkList[0].payload[..], data, size)] + old(Views(blkList))[1..]
    {
      hide *;
      Facts();
      var b := blkList[0];
      ghost var rest := blkList[1..];
      HeldEnds(blkList, mgr);
      HeldMember(blkList, mgr);
      assert [b] + rest == blkList;
      HeldFirst(b, rest, mgr);
      OwnedMember(rest);
      capacity := capacity - b.size + size;
      b.data := data;
      b.size := size;
      ViewsFrame(rest);
      HeldFirst(b, rest, mgr);
      ValidIntro();
    }

    /** set_size of the last block, likewise. */
    method SetLast(size: nat)
      requires Valid() && blkList != [] && 0 < size
      requires blkList[|blkList| - 1].data + size <= mgr.blkSize
      modifies blkList[|blkList| - 1], this`capacity
      ensures Valid() && capacity == old(capacity) - old(blkList[|blkList| - 1].size) + size
      ensures var k := |blkList| - 1;
        && blkList[k].data == old(blkList[k].data) && blkList[k].size == size
        && Views(blkList) == old(Views(blkList))[..k] + [View(blkList[k].payload[..], blkList[k].data, size)]
    {
      hide *;
      Facts();
      var k := |blkList| - 1;
      var b := blkList[k];
      ghost var init := blkList[..k];
      HeldEnds(blkList, mgr);
      HeldMember(blkList, mgr);
      assert init + [b] == blkList;
      HeldLast(init, b, mgr);
      OwnedMember(init);
      capacity := capacity - b.size + size;
      b.size := size;
      ViewsFrame(init);
      HeldLast(init, b, mgr);
      ValidIntro();
    }

    /** What the first block contributes to a trim of left bytes. */
    lemma FrontStep(left: nat)
      requires Valid() && 0 < left <= capacity
      ensures blkList != [] && 0 < blkList[0].size && blkList[0].data + blkList[0].size <= mgr.blkSize
      ensures Formed(Views(blkList)) && left <= |Bytes(Views(blkList))|
      ensures var c, b := Views(blkList), blkList[0];
        if left < b.size then
          && Dropped(c, left) == 0
          && TrimFront(c, left) == [View(b.payload[..], b.data + left, b.size - left)] + c[1..]
        else
          && Formed(c[1..]) && left - b.size <= |Bytes(c[1..])|
          && TrimFront(c, left) == TrimFront(c[1..], left - b.size)
          && Dropped(c, left) == 1 + Dropped(c[1..], left - b.size)
    {
      hide *;
      Facts();
      TrimStep(Views(blkList), left);
      HeldMember(blkList, mgr);
      assert Views(blkList)[0] == View(blkList[0].payload[..], blkList[0].data, blkList[0].size);
    }

    method RemoveHeader(size: nat) returns (r: NetErr)
      requires Valid() && blkList != [] && size <= capacity
      modifies this`blkList, this`capacity, mgr`pool, Owned(blkList)
      ensures Valid() && r == NetOk
      ensures capacity == old(capacity) - size && Content() == old(Content())[size..]
      ensures Views(blkList) == old(TrimFront(Views(blkList), size))
      ensures var k := old(Dropped(Views(blkList), size));
        blkList == old(blkList)[k..] && mgr.pool == old(mgr.pool) + old(blkList)[..k]
    {
      hide *;
      var left: nat := size;
      ghost var c, l, p, k := Views(blkList), blkList, mgr.pool, 0;
      Facts();
      OwnedMember(l);
      TrimBytes(c, size);
      if size == 0 {
        TrimNone(c);
      }
      assert l[0..] == l && l[..0] == [];
      while left != 0
        invariant Valid() && left <= capacity && capacity - left == old(capacity) - size
        invariant k <= |l| && blkList == l[k..] && mgr.pool == p + l[..k]
        invariant Formed(Views(blkList)) && left <= |Bytes(Views(blkList))|
        invariant TrimFront(Views(blkList), left) == TrimFront(c, size)
        invariant k + Dropped(Views(blkList), left) == Dropped(c, size)
        invariant left == 0 ==> Views(blkList) == TrimFront(c, size) && k == Dropped(c, size)
      {
        FrontStep(left);
        var b := blkList[0];
        if left < b.size {
          SetFirst(b.data + left, b.size - left);
          break;
        }
        var n := b.size;
        SliceShift(l, p, k);
        DropFirst();
        left := left - n;
        k := k + 1;
        if left == 0 {
          TrimNone(Views(blkList));
        }
      }
      return NetOk;
    }

    /** size bytes were put before a packet of blocks l with views c: trimming them off again
        gives back exactly the old windows, and the blocks that the trim would drop are the
        ones taken from the front of the pool p. */
    ghost predicate HeaderAdded(size: nat, l: seq<PktBlock>, c: seq<View>, p: seq<PktBlock>)
      reads this, mgr, Owned(blkList), Payloads(blkList)
    {
      && Valid() && Formed(c) && capacity == |Bytes(c)| + size
      && Content()[size..] == Bytes(c)
      && TrimFront(Views(blkList), size) == c
      && var k := Dropped(Views(blkList), size);
        k <= |p| && blkList == Reverse(p[..k]) + l && mgr.pool == p[k..]
    }

    /** Room for size more bytes before the packet: in the first block's headroom, in one new
        block (isCont), or in the headroom and as many new blocks as it takes. */
    method AllocHeader(code: Code, size: nat, isCont: bool) returns (r: NetErr)
      requires Valid()
      modifies this, mgr`pool, Owned(mgr.pool), Owned(blkList)
      ensures r ==
        if old(blkList) == [] then NetEmpty
        else if size <= old(blkList[0].data) then NetOk
        else if isCont then
          if mgr.blkSize < size then NetSize else if old(mgr.pool) == [] then NetNone else NetOk
        else if |Chunks(size - old(blkList[0].data), mgr.blkSize)| <= |old(mgr.pool)| then NetOk else NetNone
      ensures r == NetOk ==> HeaderAdded(size, old(blkList), old(Views(blkList)), old(mgr.pool))
      ensures r == NetOk && isCont ==> size <= blkList[0].size
      ensures r == NetOk ==>
        var head := old(blkList[0].data);
        if size <= head then
          mgr.pool == old(mgr.pool) && blkList[0].data == head - size
        else if isCont then
          mgr.pool == old(mgr.pool)[1..] && blkList[0].data == mgr.blkSize - size
        else
          var k := |Chunks(size - head, mgr.blkSize)|;
          && mgr.pool == old(mgr.pool)[k..] && blkList[0].data == k * mgr.blkSize - (size - head)
          && k < |blkList| && forall i :: 0 < i < k ==> blkList[i].data == 0 && blkList[i].size == mgr.blkSize
      ensures refs == old(refs) || refs == 1
      ensures r == NetEmpty || r == NetSize ==> Valid() && blkList == old(blkList) && Content() == old(Content())
      ensures r != NetOk ==> mgr.pool == old(mgr.pool)
      ensures r == NetNone && isCont ==>
        && blkList == (if code.Written? then [mgr.nowhere] else []) + old(blkList)
        && capacity == old(capacity) && (Valid() <==> code.Repaired?)
        && (Valid() ==> Content() == old(Content()))
      ensures r == NetNone && !isCont ==>
        && Valid() && blkList == old(blkList) && capacity == old(capacity + blkList[0].data)
        && Content()[old(blkList[0].data)..] == old(Content())
    {
      hide *;
      if |blkList| == 0 {
        return NetEmpty;
      }
      Facts();
      HeldMember(blkList, mgr);
      OwnedAt(blkList, 0);
      if size <= blkList[0].data {
        AllocRoomHeader(size);
        return NetOk;
      }
      if isCont {
        if mgr.blkSize < size {
          return NetSize;
        }
        r := AllocContHeader(code, size);
      } else {
        r := AllocSplitHeader(size);
      }
    }

    lemma HeaderAddedIs(size: nat, k: nat, l: seq<PktBlock>, c: seq<View>, p: seq<PktBlock>)
      requires Valid() && Formed(c) && capacity == |Bytes(c)| + size
      requires TrimFront(Views(blkList), size) == c
      requires k == Dropped(Views(blkList), size) && k <= |p|
      requires blkList == Reverse(p[..k]) + l && mgr.pool == p[k..]
      ensures HeaderAdded(size, l, c, p)
    {
      TrimBytes(Views(blkList), size);
    }

    /** The first branch: the headroom is enough, the first window grows to the left. */
    method AllocRoomHeader(size: nat)
      requires Valid() && blkList != [] && size <= blkList[0].data
      modifies blkList[0], this`capacity
      ensures HeaderAdded(size, old(blkList), old(Views(blkList)), old(mgr.pool)) && size <= blkList[0].size
      ensures blkList[0].data == old(blkList[0].data) - size
    {
      hide *;
      Facts();
      HeldMember(blkList, mgr);
      ghost var c := Views(blkList);
      var first := blkList[0];
      TrimGrown(c, size);
      ghost var v := c[0].(off := c[0].off - size, len := c[0].len + size);
      SetFirst(first.data - size, first.size + size);
      assert Views(blkList) == [v] + c[1..];
      assert TrimFront(Views(blkList), size) == c;
      ReverseNone(mgr.pool);
      HeaderAddedIs(size, 0, blkList, c, mgr.pool);
    }

    /** The other branch: the first block's headroom, then as many new blocks as it takes. */
    method AllocSplitHeader(size: nat) returns (r: NetErr)
      requires Valid() && blkList != [] && blkList[0].data < size
      modifies this, mgr`pool, Owned(mgr.pool), blkList[0]
      ensures Valid()
      ensures r == if |Chunks(size - old(blkList[0].data), mgr.blkSize)| <= |old(mgr.pool)|
                   then NetOk else NetNone
      ensures r == NetOk ==> HeaderAdded(size, old(blkList), old(Views(blkList)), old(mgr.pool))
      ensures r == NetOk ==>
        var more := size - old(blkList[0].data);
        var k := |Chunks(more, mgr.blkSize)|;
        && mgr.pool == old(mgr.pool)[k..] && k < |blkList| && blkList[0].data == k * mgr.blkSize - more
        && forall i :: 0 < i < k ==> blkList[i].data == 0 && blkList[i].size == mgr.blkSize
      ensures refs == 1
      ensures r == NetNone ==>
        && mgr.pool == old(mgr.pool) && blkList == old(blkList)
        && capacity == old(capacity + blkList[0].data)
        && Content()[old(blkList[0].data)..] == old(Content())
    {
      hide *;
      Facts();
      HeldMember(blkList, mgr);
      ghost var c, p := Views(blkList), mgr.pool;
      var pre := blkList[0].data;
      TrimGrown(c, pre);
      ghost var v := c[0].(off := c[0].off - pre, len := c[0].len + pre);
      SetFirst(0, blkList[0].size + pre);
      ghost var d := Views(blkList);
      assert d == [v] + c[1..];
      Facts();
      TrimBytes(d, pre);
      var ok := Alloc(size - pre, true, true);
      if !ok {
        return NetNone;
      }
      ghost var k := |Chunks(size - pre, mgr.blkSize)|;
      ghost var got := Reverse(p[..k]);
      PlacedFront(p[..k]);
      CutHeadRoom(p[..k], size - pre, mgr.blkSize);
      assert forall i :: 0 <= i < k ==> blkList[i] == got[i];
      TrimPrefix(Views(got), d, size, pre);
      assert Views(blkList) == Views(got) + d;
      assert TrimFront(Views(blkList), size) == c;
      HeaderAddedIs(size, k, old(blkList), c, p);
      return NetOk;
    }

    /** The contiguous branch of alloc_header: one new block, filled to its end. */
    method AllocContHeader(code: Code, size: nat) returns (r: NetErr)
      requires Valid() && 0 < size <= mgr.blkSize
      modifies this`blkList, this`capacity, mgr`pool, Owned(mgr.pool)
      ensures r == if old(mgr.pool) == [] then NetNone else NetOk
      ensures r == NetOk ==>
        && HeaderAdded(size, old(blkList), old(Views(blkList)), old(mgr.pool))
        && blkList == [old(mgr.pool)[0]] + old(blkList) && mgr.pool == old(mgr.pool)[1..]
        && blkList[0].size == size && blkList[0].data == mgr.blkSize - size
      ensures r == NetNone ==>
        && blkList == (if code.Written? then [mgr.nowhere] else []) + old(blkList)
        && capacity == old(capacity) && mgr.pool == old(mgr.pool) && (Valid() <==> code.Repaired?)
        && (Valid() ==> Content() == old(Content()))
    {
      hide *;
      Facts();
      OwnedMember(blkList);
      mgr.PoolFacts();
      ghost var l, p := blkList, mgr.pool;
      if p != [] {
        SplitOwned(p, 1);
        OwnedAt(p[..1], 0);
      }
      OwnedMember(p);
      var b := mgr.GetBlock();
      if b == null {
        if code.Written? {
          blkList := [mgr.nowhere] + blkList;
          NotHeld(blkList, mgr);
          if Valid() {
            Facts();
          }
        } else {
          ViewsFrame(l);
          ValidIntro();
        }
        return NetNone;
      }
      b.data := mgr.blkSize - size;
      b.size := size;
      blkList := [b] + blkList;
      capacity := capacity + size;
      ViewsFrame(l);
      HeldFirst(b, l, mgr);
      ValidIntro();
      ghost var v := View(b.payload[..], b.data, b.size);
      BytesOne(v);
      TrimPrefix([v], Views(l), size, 0);
      TrimNone(Views(l));
      assert Reverse(p[..1]) == [b];
      HeaderAddedIs(size, 1, l, Views(l), p);
      return NetOk;
    }

    /** Gives up one reference; the last one returns every listed block and the buffer itself,
        whatever the list holds. A packet is given up whole, and the pool stays sound. */
    method Free() returns (ok: bool)
      modifies this`refs, this`capacity, this`blkList, mgr`pool, mgr`bufPool
      ensures ok && refs == old(refs) - 1
      ensures refs != 0 ==>
        blkList == old(blkList) && capacity == old(capacity)
        && mgr.pool == old(mgr.pool) && mgr.bufPool == old(mgr.bufPool)
      ensures refs == 0 ==>
        && blkList == [] && capacity == 0 && mgr.pool == Filled(old(mgr.pool), old(blkList), mgr.limit)
        && mgr.bufPool == (if |old(mgr.bufPool)| < mgr.limit then old(mgr.bufPool) + [this]
                           else old(mgr.bufPool))
      ensures old(Valid()) ==> Valid() && (refs == 0 ==> mgr.pool == old(mgr.pool) + old(blkList))
    {
      hide *;
      ghost var l, p, k := blkList, mgr.pool, 0;
      FilledNone(p, mgr.limit);
      if Valid() {
        Facts();
        HeldNoDup(l, mgr);
        mgr.RoomForAll(l);
        FilledAll(p, l, mgr.limit);
      }
      refs := refs - 1;
      if refs == 0 {
        while blkList != []
          invariant refs == 0 && mgr.bufPool == old(mgr.bufPool)
          invariant k <= |l| && blkList == l[k..] && mgr.pool == Filled(p, l[..k], mgr.limit)
          decreases |blkList|
        {
          FilledStep(p, l, k, mgr.limit);
          var b := blkList[0];
          blkList := blkList[1..];
          mgr.ReleaseBlock(b);
          k := k + 1;
        }
        assert l[..k] == l;
        mgr.ReleaseBuffer(this);
        capacity := 0;
        if old(Valid()) {
          FreedFacts(p, l);
        }
      } else if old(Valid()) {
        PacketKept();
      }
      return true;
    }

    lemma FreedFacts(p: seq<PktBlock>, l: seq<PktBlock>)
      requires mgr.Configured() && NoDup(p) && Owned(p) <= mgr.blocks && Held(l, mgr)
      requires Owned(l) !! Owned(p) && mgr.pool == p + l && blkList == [] && capacity == 0
      ensures Valid()
    {
      ReleasedPool(mgr, p, l, l, false);
      assert Views(blkList) == [];
    }

    /** The window of the last block takes up more of the room behind it. */
    method ExtendLast(more: nat)
      requires Valid() && blkList != []
      requires var b := blkList[|blkList| - 1]; b.data + b.size + more <= mgr.blkSize
      modifies this`capacity, blkList[|blkList| - 1]
      ensures Valid() && old(Content()) <= Content() && capacity == old(capacity) + more
      ensures blkList[0].data == old(blkList[0].data)
    {
      hide *;
      Facts();
      HeldMember(blkList, mgr);
      GrowLast(Views(blkList), more);
      SetLast(blkList[|blkList| - 1].size + more);
    }

    /** The growing branch of resize. The room behind the last window is compared with the new
        size where the difference to the old one is meant. */
    method Grow(code: Code, size: nat) returns (r: NetErr)
      requires Valid() && 0 < capacity < size < TWO_32
      modifies this, mgr`pool, Owned(mgr.pool), blkList[|blkList| - 1]
      ensures Valid() && old(Content()) <= Content() && (refs == old(refs) || refs == 1)
      ensures blkList != [] && blkList[0] == old(blkList[0]) && blkList[0].data == old(blkList[0].data)
      ensures r == NetOk ==> size <= capacity
      ensures |old(blkList)| <= |blkList| && FullBehind(blkList, |old(blkList)|, mgr.blkSize)
      ensures
        var tail := old(blkList[|blkList| - 1].LastSize());
        var growth := size - old(capacity);
        var need := if code.Written? then size else growth;
        var n := if tail <= growth then |Chunks(growth - tail, mgr.blkSize)| else |old(mgr.pool)| + 1;
        if need <= tail then
          && r == NetOk && capacity == old(capacity) + need
          && blkList == old(blkList) && mgr.pool == old(mgr.pool)
        else if n <= |old(mgr.pool)| then
          && r == NetOk && capacity == size
          && blkList == old(blkList) + old(mgr.pool)[..n] && mgr.pool == old(mgr.pool)[n..]
        else
          && r == NetMem && capacity == old(capacity) + tail
          && blkList == old(blkList) && mgr.pool == old(mgr.pool)
    {
      hide *;
      Facts();
      HeldMember(blkList, mgr);
      BytesLength(Views(blkList));
      mgr.PoolFacts();
      ghost var c := Views(blkList);
      var k := |blkList| - 1;
      OwnedAt(blkList, k);
      var tail := blkList[k];
      var last := tail.payload.Length - (tail.data + tail.size);
      LastSizeIs(tail);
      var need := if code.Written? then size else size - capacity;
      if need <= last {
        ExtendLast(need);
        NoneBehind(blkList, mgr.blkSize);
        return NetOk;
      }
      var growth := size - capacity;
      var more := (growth - last) % TWO_32;
      WordDifference(growth - last);
      if growth < last {
        WrappedRequest(mgr, tail, last - growth, more);
      }
      var ok := FillAndAlloc(more);
      return if ok then NetOk else NetMem;
    }

    /** All of the last block's tail room is taken up, then more bytes come from new blocks. */
    method FillAndAlloc(more: nat) returns (ok: bool)
      requires Valid() && blkList != []
      modifies this, mgr`pool, Owned(mgr.pool), blkList[|blkList| - 1]
      ensures Valid() && old(Content()) <= Content() && refs == 1
      ensures blkList != [] && blkList[0] == old(blkList[0]) && blkList[0].data == old(blkList[0].data)
      ensures |old(blkList)| <= |blkList| && FullBehind(blkList, |old(blkList)|, mgr.blkSize)
      ensures ok <==> |Chunks(more, mgr.blkSize)| <= |old(mgr.pool)|
      ensures capacity == old(capacity) + old(blkList[|blkList| - 1].LastSize()) + if ok then more else 0
      ensures ok ==>
        var n := |Chunks(more, mgr.blkSize)|;
        blkList == old(blkList) + old(mgr.pool)[..n] && mgr.pool == old(mgr.pool)[n..]
      ensures !ok ==> blkList == old(blkList) && mgr.pool == old(mgr.pool)
    {
      hide *;
      Facts();
      HeldMember(blkList, mgr);
      var tail := blkList[|blkList| - 1];
      OwnedAt(blkList, |blkList| - 1);
      var last := tail.payload.Length - (tail.data + tail.size);
      LastSizeIs(tail);
      ExtendLast(last);
      ghost var s := Content();
      ok := Alloc(more, false, false);
      NoneBehind(blkList, mgr.blkSize);
      if ok {
        ghost var got := old(mgr.pool)[..|Chunks(more, mgr.blkSize)|];
        PlacedBack(got);
        CutBehind(old(blkList), got, more, mgr.blkSize);
        PrefixTransitive(old(Content()), s, Content());
      }
    }

    /** The blocks whose release_pktblock is called when the blocks e are cut off one by one:
        the written loop erases first and then releases what follows the erased block. */
    function Released(code: Code, e: seq<PktBlock>): (r: seq<PktBlock>)
      ensures |r| == |e|
      ensures code.Repaired? || e == [] ==> r == e
      ensures code.Written? && e != [] ==> r == e[1..] + [mgr.nowhere]
    {
      if code.Repaired? || e == [] then e else e[1..] + [mgr.nowhere]
    }

    /** One round of that loop: erase the block at index keep, then release one block. */
    method EraseOne(code: Code, keep: nat) returns (released: PktBlock)
      requires keep < |blkList| && blkList[keep].size <= capacity
      modifies this`blkList, this`capacity, mgr`pool
      ensures blkList == old(blkList)[..keep] + old(blkList)[keep + 1..]
      ensures capacity == old(capacity) - old(blkList[keep].size)
      ensures released ==
        if code.Repaired? then old(blkList[keep])
        else if keep + 1 < |old(blkList)| then old(blkList[keep + 1]) else mgr.nowhere
      ensures mgr.pool == if |old(mgr.pool)| < mgr.limit then old(mgr.pool) + [released] else old(mgr.pool)
    {
      capacity := capacity - blkList[keep].size;
      var erased := blkList[keep];
      blkList := blkList[..keep] + blkList[keep + 1..];
      released := if code.Repaired? then erased
                  else if keep < |blkList| then blkList[keep] else mgr.nowhere;
      mgr.ReleaseBlock(released);
    }

    /** The loop that erases all blocks behind the first keep ones; c are their views. */
    method EraseAll(code: Code, keep: nat, ghost c: seq<View>)
      requires keep <= |blkList| && |c| == |blkList| - keep && Formed(c) && |Bytes(c)| <= capacity
      requires forall i :: 0 <= i < |c| ==> blkList[keep + i].size == c[i].len
      requires |mgr.pool| + |c| <= mgr.limit
      modifies this`blkList, this`capacity, mgr`pool
      ensures blkList == old(blkList)[..keep] && capacity == old(capacity) - |Bytes(c)|
      ensures mgr.pool == old(mgr.pool) + Released(code, old(blkList)[keep..])
    {
      hide *;
      ghost var l, p, j := blkList, mgr.pool, 0;
      ghost var e := l[keep..];
      ghost var rel := Released(code, e);
      assert l == l[..keep] + e && c[0..] == c;
      while keep < |blkList|
        invariant 0 <= j <= |e| && |blkList| == |l| - j && blkList == l[..keep] + e[j..]
        invariant forall i :: 0 <= i < |e| ==> e[i].size == c[i].len
        invariant Formed(c[j..]) && capacity + |Bytes(c)| == old(capacity) + |Bytes(c[j..])|
        invariant mgr.pool == p + rel[..j]
        decreases |blkList|
      {
        BytesFirst(c[j..]);
        assert c[j..][1..] == c[j + 1..];
        assert blkList[keep + 1..] == e[j + 1..] && blkList[keep] == e[j];
        var released := EraseOne(code, keep);
        PrefixStep(p, rel, j, released);
        j := j + 1;
      }
      assert e[j..] == [] && rel[..j] == rel && blkList == l[..keep];
      BytesLength(c[j..]);
    }

    method EraseBehind(code: Code, keep: nat)
      requires Valid() && 0 < keep <= |blkList|
      modifies this`blkList, this`capacity, mgr`pool
      ensures blkList == old(blkList)[..keep]
      ensures Held(blkList, mgr) && Formed(Views(blkList)) && capacity == |Bytes(Views(blkList))|
      ensures Views(blkList) == old(Views(blkList))[..keep]
      ensures mgr.pool == old(mgr.pool) + Released(code, old(blkList)[keep..])
      ensures mgr.Valid() <==> code.Repaired? || keep == |old(blkList)|
      ensures mgr.Valid() ==> Owned(blkList) !! Owned(mgr.pool)
    {
      hide *;
      Facts();
      ghost var l, p := blkList, mgr.pool;
      ghost var e := l[keep..];
      HeldParts(l, keep, mgr);
      mgr.PoolFacts();
      mgr.RoomForAll(l);
      EraseAll(code, keep, Views(e));
      OwnedMember(l);
      ViewsFrame(l);
      HeldParts(l, keep, mgr);
      ReleasedPool(mgr, p, e, Released(code, e), code.Written? && e != []);
    }

    /** The scan for the block in which the first size bytes end. */
    method FindCut(size: nat) returns (it: nat)
      requires Valid() && 0 < size <= capacity
      ensures Valid() && Views(blkList) == old(Views(blkList))
      ensures it == old(CutAt(Views(blkList), size))
    {
      hide *;
      Facts();
      ghost var c := Views(blkList);
      var total: nat := 0;
      it := 0;
      ghost var n := size;
      assert c[0..] == c;
      while it < |blkList|
        invariant Valid() && Views(blkList) == c
        invariant it <= |blkList| && total + n == size && 0 < n
        invariant Formed(c[it..]) && n <= |Bytes(c[it..])|
        invariant it + CutAt(c[it..], n) == CutAt(c, size)
      {
        CutStep(c[it..], n);
        assert c[it..][1..] == c[it + 1..] && c[it..][0] == c[it];
        total := total + blkList[it].size;
        if size <= total {
          return;
        }
        n := n - c[it..][0].len;
        it := it + 1;
      }
      assert false;
    }

    /** The shrinking branch of resize. */
    method Shrink(code: Code, size: nat)
      requires Valid() && 0 < size < capacity
      modifies this`blkList, this`capacity, mgr`pool, Owned(blkList)
      ensures capacity == size && Held(blkList, mgr) && Formed(Views(blkList))
      ensures Bytes(Views(blkList)) == old(Content()[..size])
      ensures forall b :: b in old(blkList) ==> b.data == old(b.data)
      ensures var k := old(CutAt(Views(blkList), size));
        && blkList == old(blkList)[..k + 1]
        && mgr.pool == old(mgr.pool) + Released(code, old(blkList)[k + 1..])
        && (Valid() <==> code.Repaired? || k + 1 == |old(blkList)|)
    {
      hide *;
      Facts();
      ghost var l, c := blkList, Views(blkList);
      CutBack(c, size);
      var it := FindCut(size);
      OwnedAt(l, it);
      KeptPrefix(c, it);
      EraseBehind(code, it + 1);
      CutTail(size);
      if Valid() {
        Facts();
      }
      if mgr.Valid() {
        ValidIntro();
      }
    }

    /** set_size of the last block once everything behind it is gone. */
    method CutTail(size: nat)
      requires mgr.Configured() && blkList != [] && Held(blkList, mgr) && Formed(Views(blkList))
      requires capacity == |Bytes(Views(blkList))|
      requires capacity - blkList[|blkList| - 1].size < size <= capacity
      modifies this`capacity, blkList[|blkList| - 1]
      ensures capacity == size && Held(blkList, mgr) && Formed(Views(blkList))
      ensures Bytes(Views(blkList)) == old(Bytes(Views(blkList))[..size])
      ensures blkList[|blkList| - 1].data == old(blkList[|blkList| - 1].data)
    {
      hide *;
      var k := |blkList| - 1;
      var tail := blkList[k];
      ghost var init := blkList[..k];
      HeldEnds(blkList, mgr);
      HeldMember(blkList, mgr);
      assert init + [tail] == blkList;
      HeldLast(init, tail, mgr);
      OwnedMember(init);
      ghost var a, w := Bytes(Views(init)), tail.payload[tail.data..tail.data + tail.size];
      var pre := capacity - tail.size;
      tail.size := size - pre;
      capacity := pre + tail.size;
      ViewsFrame(init);
      HeldLast(init, tail, mgr);
      PrefixTwice(a, w, tail.size);
      SubSlice(tail.payload[..], tail.data, tail.data + |w|, 0, tail.size);
    }

    /** Free room behind the packet, in its last block. */
    function TailRoom(): (n: nat)
      reads this, blkList
      requires blkList != [] ==>
        var b := blkList[|blkList| - 1]; b.data + b.size <= b.payload.Length
    {
      if blkList == [] then 0 else blkList[|blkList| - 1].LastSize()
    }

    lemma TailRoomIs()
      requires Valid() && 0 < capacity
      ensures blkList != [] && TailRoom() == blkList[|blkList| - 1].LastSize()
    {
      BytesLength(Views(blkList));
    }

    lemma TailFits()
      requires Valid()
      ensures blkList != [] ==>
        var b := blkList[|blkList| - 1]; b.data + b.size <= b.payload.Length
    {
      Facts();
      HeldMember(blkList, mgr);
    }

    /** A packet without bytes gets all of them from new blocks. */
    method GrowEmpty(size: nat) returns (r: NetErr)
      requires Valid() && capacity == 0 < size
      modifies this, mgr`pool, Owned(mgr.pool)
      ensures Valid() && refs == 1 && old(blkList) == [] && old(Content()) == []
      ensures var n := |Chunks(size, mgr.blkSize)|;
        if n <= |old(mgr.pool)| then
          && r == NetOk && capacity == size
          && blkList == old(mgr.pool)[..n] && mgr.pool == old(mgr.pool)[n..]
          && blkList != [] && blkList[0].data == 0 && FullBehind(blkList, 0, mgr.blkSize)
        else
          r == NetMem && capacity == 0 && blkList == [] && mgr.pool == old(mgr.pool)
    {
      hide *;
      Facts();
      BytesLength(Views(blkList));
      var ok := Alloc(size, false, false);
      if !ok {
        return NetMem;
      }
      ghost var got := old(mgr.pool)[..|Chunks(size, mgr.blkSize)|];
      PlacedBack(got);
      CutFirst(got, size, mgr.blkSize);
      assert [] + got == got;
      CutBehind([], got, size, mgr.blkSize);
      return NetOk;
    }

    lemma BlocksOrEmpty()
      requires Valid()
      ensures 0 < mgr.blkSize && (capacity == 0 <==> blkList == [])
      ensures blkList == [] ==> TailRoom() == 0
    {
      Facts();
      BytesLength(Views(blkList));
    }

    /** What a larger size brings, and when it brings exactly that size. */
    method Enlarge(code: Code, size: nat) returns (r: NetErr)
      requires Valid() && capacity < size < TWO_32
      modifies this, mgr`pool, Owned(mgr.pool), Owned(blkList)
      ensures Valid() && old(Content()) <= Content() && (r == NetOk || r == NetMem)
      ensures refs == old(refs) || refs == 1
      ensures r == NetOk ==> size <= capacity
      ensures var n := |blkList| - |old(blkList)|;
        && 0 <= n <= |old(mgr.pool)|
        && blkList == old(blkList) + old(mgr.pool)[..n] && mgr.pool == old(mgr.pool)[n..]
        && FullBehind(blkList, |old(blkList)|, mgr.blkSize)
      ensures 0 == old(capacity) && r == NetOk ==> blkList != [] && blkList[0].data == 0
      ensures 0 < old(capacity) ==>
        blkList != [] && blkList[0] == old(blkList[0]) && blkList[0].data == old(blkList[0].data)
      ensures var room := (TailFits(); old(TailRoom()));
        Growth(r, |blkList| - |old(blkList)|, capacity)
          == GrowthOf(code, old(capacity), size, room, mgr.blkSize, |old(mgr.pool)|)
    {
      hide *;
      TailFits();
      BlocksOrEmpty();
      GrowthCases(code, capacity, size, TailRoom(), mgr.blkSize, |mgr.pool|);
      if capacity == 0 {
        r := GrowEmpty(size);
        NoneBehind([], mgr.blkSize);
      } else {
        TailRoomIs();
        OwnedAt(blkList, |blkList| - 1);
        r := Grow(code, size);
      }
    }

    /** Growing as written ends at the requested size exactly when the tail room does not exceed
        the growth and the pool has the blocks for the rest; shrinking as written keeps the
        pool intact exactly when no block lies behind the cut. */
    method Resize(code: Code, size: nat) returns (r: NetErr)
      requires Valid() && size < TWO_32
      modifies this, mgr`pool, mgr`bufPool, Owned(mgr.pool), Owned(blkList)
      ensures size == old(capacity) ==>
        r == NetOk && Valid() && blkList == old(blkList) && mgr.pool == old(mgr.pool) && Content() == old(Content())
      ensures old(capacity) < size ==>
        && Valid() && old(Content()) <= Content() && (r == NetOk || r == NetMem)
        && (r == NetOk ==> size <= capacity)
        && var n := |blkList| - |old(blkList)|;
          && 0 <= n <= |old(mgr.pool)|
          && blkList == old(blkList) + old(mgr.pool)[..n] && mgr.pool == old(mgr.pool)[n..]
          && FullBehind(blkList, |old(blkList)|, mgr.blkSize)
      ensures 0 < size ==> mgr.bufPool == old(mgr.bufPool) && (refs == old(refs) || refs == 1)
      ensures 0 == old(capacity) < size && r == NetOk ==> blkList != [] && blkList[0].data == 0
      ensures 0 < old(capacity) < size ==>
        blkList != [] && blkList[0] == old(blkList[0]) && blkList[0].data == old(blkList[0].data)
      ensures old(capacity) < size ==>
        var room := (TailFits(); old(TailRoom()));
        Growth(r, |blkList| - |old(blkList)|, capacity)
          == GrowthOf(code, old(capacity), size, room, mgr.blkSize, |old(mgr.pool)|)
      ensures 0 < old(capacity) < size ==>
        var growth, room := size - old(capacity), (TailFits(); old(TailRoom()));
        var n := if growth <= room then 0 else |Chunks(growth - room, mgr.blkSize)|;
        r == NetOk && capacity == size <==> (code.Repaired? || room <= growth) && n <= |old(mgr.pool)|
      ensures 0 < size < old(capacity) ==>
        && r == NetOk && capacity == size && Held(blkList, mgr) && Formed(Views(blkList))
        && Bytes(Views(blkList)) == old(Content())[..size]
        && (forall b :: b in old(blkList) ==> b.data == old(b.data))
        && var k := old(CutAt(Views(blkList), size));
          && blkList == old(blkList)[..k + 1]
          && mgr.pool == old(mgr.pool) + Released(code, old(blkList)[k + 1..])
          && (Valid() <==> code.Repaired? || k + 1 == |old(blkList)|)
      ensures 0 == size < old(capacity) ==>
        && r == NetOk && Valid() && refs == old(refs) - 1
        && if refs == 0 then blkList == [] && capacity == 0 && mgr.pool == old(mgr.pool) + old(blkList)
           else blkList == old(blkList) && capacity == old(capacity) && mgr.pool == old(mgr.pool)
    {
      hide *;
      if size == capacity {
        return NetOk;
      }
      Facts();
      if capacity < size {
        TailFits();
        if 0 < capacity {
          GrowsRight(code, capacity, size, TailRoom(), mgr.blkSize, |mgr.pool|);
        }
        r := Enlarge(code, size);
      } else {
        if size == 0 {
          var _ := Free();
          return NetOk;
        }
        Shrink(code, size);
        return NetOk;
      }
    }

    /** Appends another buffer's blocks and returns that buffer to the manager. A cursor inside
        the old packet stays coherent; one at its end does so only if nothing was appended. */
    method MergeBuf(buf: PktBuffer) returns (r: NetErr)
      requires Valid() && buf.Valid() && buf != this && buf.mgr == mgr
      requires Owned(blkList) !! Owned(buf.blkList)
      modifies this`blkList, this`capacity, buf`blkList, mgr`bufPool
      ensures r == NetOk && Valid() && Content() == old(Content()) + old(buf.Content())
      ensures blkList == old(blkList) + old(buf.blkList) && buf.blkList == []
      ensures mgr.bufPool == if |old(mgr.bufPool)| < mgr.limit then old(mgr.bufPool) + [buf] else old(mgr.bufPool)
      ensures old(Coherent()) ==> (Coherent() <==> pos < old(capacity) || old(buf.blkList) == [])
    {
      hide *;
      Facts();
      buf.Facts();
      ghost var l, e, c := blkList, buf.blkList, Views(blkList);
      ghost var d := Views(e);
      CoherentIs();
      OwnedMember(l);
      OwnedMember(e);
      capacity := capacity + buf.capacity;
      blkList := blkList + buf.blkList;
      buf.blkList := [];
      mgr.ReleaseBuffer(buf);
      ViewsFrame(l);
      ViewsFrame(e);
      HeldConcat(l, e, mgr);
      ValidIntro();
      CoherentIs();
      if CursorFor(l, c, pos, curBlk, blkOffset) {
        CursorAppend(l, e, c, d, pos, curBlk, blkOffset);
      }
      BytesLength(d);
      return NetOk;
    }

    /** The first block of a packet and the rest of it. */
    lemma FirstAlone()
      requires Valid() && blkList != []
      ensures var b, rest := blkList[0], blkList[1..];
        && mgr.Valid() && mgr.Configured() && Owned(blkList) !! Owned(mgr.pool) && blkList == [b] + rest
        && b in mgr.blocks && 0 < b.size && b.data + b.size <= mgr.blkSize && b.payload.Length == mgr.blkSize
        && Held(rest, mgr) && b !in Owned(rest)
        && (forall x :: x in rest ==> x != b && x.payload != b.payload)
        && Formed(Views(rest)) && Views(blkList)[1..] == Views(rest)
        && Content() == b.payload[b.data..b.data + b.size] + Bytes(Views(rest)) && capacity == |Content()|
    {
      hide *;
      Facts();
      var b, rest := blkList[0], blkList[1..];
      HeldEnds(blkList, mgr);
      HeldMember(blkList, mgr);
      assert [b] + rest == blkList;
      HeldFirst(b, rest, mgr);
      OwnedMember(rest);
      OthersPayload(b, rest, mgr);
    }

    /** memmove of the first block's window to the start of its payload. */
    method ShiftFirst()
      requires Valid() && blkList != []
      modifies blkList[0], blkList[0].payload
      ensures Valid() && Content() == old(Content())
      ensures blkList[0].data == 0 && blkList[0].size == old(blkList[0].size)
      ensures Views(blkList)[1..] == old(Views(blkList))[1..]
    {
      hide *;
      FirstAlone();
      var b := blkList[0];
      ghost var rest := blkList[1..];
      ShiftBlock(b);
      ViewsFrame(rest);
      HeldFirst(b, rest, mgr);
      ValidIntro();
    }

    /** The first two blocks of a held list and the rest, before bytes move between them. */
    lemma FrontTwo(n: nat)
      requires Valid() && 1 < |blkList| && 0 < n <= blkList[1].size
      requires blkList[0].data == 0 && blkList[0].size + n <= mgr.blkSize
      ensures mgr.Valid() && mgr.Configured() && Owned(blkList) !! Owned(mgr.pool)
      ensures var first, now, rest := blkList[0], blkList[1], blkList[2..];
        && first in mgr.blocks && now in mgr.blocks && first != now && 0 < first.size
        && first.payload.Length == mgr.blkSize && now.payload.Length == mgr.blkSize
        && now.data + now.size <= mgr.blkSize && first.payload != now.payload
        && Held(rest, mgr) && first !in Owned(rest) && now !in Owned(rest)
        && Owned(blkList) == {first} + ({now} + Owned(rest))
        && (forall x :: x in rest ==> x.payload != first.payload && x != first && x != now)
        && Formed(Views(rest)) && Formed(Views(blkList))
        && Views(blkList)[0].Fits() && Formed(Views(blkList)[1..])
        && Views(blkList) == [View(first.payload[..], 0, first.size)]
                             + ([View(now.payload[..], now.data, now.size)] + Views(rest))
        && capacity == |Bytes(Views(blkList))| && Content() == Bytes(Views(blkList))
    {
      hide *;
      Facts();
      var first, now, tail, rest := blkList[0], blkList[1], blkList[1..], blkList[2..];
      HeldEnds(blkList, mgr);
      HeldMember(blkList, mgr);
      assert [first] + tail == blkList && tail[0] == now && tail[1..] == rest;
      HeldFirst(first, tail, mgr);
      HeldEnds(tail, mgr);
      assert [now] + rest == tail;
      HeldFirst(now, rest, mgr);
      OwnedMember(rest);
      OthersPayload(first, tail, mgr);
      BytesFirst(Views(blkList));
      FormedAt(Views(blkList), 0, 0);
    }

    /** memcpy of the second block's first n bytes behind the first block's window. */
    method MoveBytes(n: nat)
      requires Valid() && 1 < |blkList| && 0 < n <= blkList[1].size
      requires blkList[0].data == 0 && blkList[0].size + n <= mgr.blkSize
      modifies blkList[0], blkList[0].payload, blkList[1]
      ensures var first, now, rest := blkList[0], blkList[1], blkList[2..];
        && first.data == 0 && first.size == old(first.size) + n
        && now.data == old(now.data) + n && now.size == old(now.size) - n
        && now.payload[..] == old(now.payload[..])
        && Views(rest) == old(Views(rest)) && Held(rest, mgr)
        && var a' := View(first.payload[..], 0, first.size);
          && a'.Fits() && Formed(old(TrimFront(Views(blkList)[1..], n)))
          && Bytes([a'] + old(TrimFront(Views(blkList)[1..], n))) == old(Content())
    {
      hide *;
      FrontTwo(n);
      var first, now := blkList[0], blkList[1];
      ghost var rest := blkList[2..];
      ghost var a, t := Views(blkList)[0], Views(blkList)[1..];
      var chunk := now.payload[now.data..now.data + n];
      assert Views(blkList) == [a] + t;
      PulledBytes(a, t, chunk, n);
      Memcpy(first.payload, first.size, chunk);
      first.size := first.size + n;
      now.data := now.data + n;
      now.size := now.size - n;
      ViewsFrame(rest);
      assert View(first.payload[..], 0, first.size) == View(Splice(a.mem, a.len, chunk), 0, a.len + n);
    }

    /** One round of the loop of set_cont_header when the second block keeps some bytes. */
    method PullPart(n: nat)
      requires Valid() && 1 < |blkList| && 0 < n < blkList[1].size
      requires blkList[0].data == 0 && blkList[0].size + n <= mgr.blkSize
      modifies blkList[0], blkList[0].payload, blkList[1]
      ensures Valid() && Content() == old(Content())
      ensures blkList[0].data == 0 && blkList[0].size == old(blkList[0].size) + n
      ensures blkList[1].size == old(blkList[1].size) - n
      ensures Views(blkList)[1..] == old(TrimFront(Views(blkList)[1..], n))
    {
      hide *;
      FrontTwo(n);
      var first, now := blkList[0], blkList[1];
      ghost var tail, rest := blkList[1..], blkList[2..];
      ghost var t := Views(blkList)[1..];
      TrimSecond(t, n);
      ghost var u := TrimFront(t, n);
      assert t[0] == View(now.payload[..], now.data, now.size) && t[1..] == Views(rest);
      MoveBytes(n);
      assert View(now.payload[..], now.data, now.size) == t[0].(off := t[0].off + n, len := t[0].len - n);
      assert [now] + rest == tail && [first] + tail == blkList;
      HeldFirst(now, rest, mgr);
      HeldFirst(first, tail, mgr);
      assert Views(tail) == u;
      assert Views(blkList) == [View(first.payload[..], 0, first.size)] + u;
      ValidIntro();
    }

    /** The same when the second block is emptied, erased and released. */
    method PullWhole(n: nat)
      requires Valid() && 1 < |blkList| && 0 < n == blkList[1].size
      requires blkList[0].data == 0 && blkList[0].size + n <= mgr.blkSize
      modifies this`blkList, mgr`pool, blkList[0], blkList[0].payload, blkList[1]
      ensures Valid() && Content() == old(Content())
      ensures blkList == [old(blkList)[0]] + old(blkList)[2..] && mgr.pool == old(mgr.pool) + [old(blkList)[1]]
      ensures blkList[0].data == 0 && blkList[0].size == old(blkList[0].size) + n
      ensures Views(blkList)[1..] == old(TrimFront(Views(blkList)[1..], n))
    {
      hide *;
      FrontTwo(n);
      var first, now := blkList[0], blkList[1];
      ghost var rest := blkList[2..];
      ghost var t := Views(blkList)[1..];
      TrimSecond(t, n);
      ghost var u := TrimFront(t, n);
      OwnedMember(rest);
      MoveBytes(n);
      label Moved:
      blkList := [first] + blkList[2..];
      mgr.ReleaseBlock(now);
      ViewsFrame@Moved(rest);
      HeldFirst(first, rest, mgr);
      assert Views(rest) == u;
      assert Views(blkList) == [View(first.payload[..], 0, first.size)] + u;
      ValidIntro();
    }

    /** One round of the loop of set_cont_header: the second block gives what is wanted of it to
        the end of the first; if that is all it has, it is erased and released. */
    method PullSecond(remain: nat) returns (left: nat, ghost k: nat)
      requires Valid() && 1 < |blkList| && blkList[0].data == 0
      requires 0 < remain && blkList[0].size + remain <= mgr.blkSize
      requires Formed(Views(blkList)[1..]) && remain <= |Bytes(Views(blkList)[1..])|
      modifies this`blkList, mgr`pool, blkList[0], blkList[0].payload, blkList[1]
      ensures Valid() && Content() == old(Content())
      ensures k <= 1 && k + 1 <= |old(blkList)|
      ensures blkList == [old(blkList)[0]] + old(blkList)[k + 1..]
      ensures mgr.pool == old(mgr.pool) + old(blkList)[1..k + 1]
      ensures blkList[0].data == 0 && blkList[0].size + left == old(blkList[0].size) + remain && left < remain
      ensures var v, w := old(Views(blkList))[1..], Views(blkList)[1..];
        && Formed(w) && left <= |Bytes(w)| && TrimFront(w, left) == TrimFront(v, remain)
        && k + Dropped(w, left) == Dropped(v, remain)
        && (left == 0 ==> w == TrimFront(v, remain) && k == Dropped(v, remain))
    {
      hide *;
      HeldSecond();
      ghost var l := blkList;
      ghost var v := Views(blkList)[1..];
      var n := Min(remain, blkList[1].size);
      left := remain - n;
      TrimTwice(v, remain, n, left);
      if n < blkList[1].size {
        k := 0;
        PullPart(n);
        assert blkList == [l[0]] + l[1..];
      } else {
        k := 1;
        PullWhole(n);
        assert l[1..2] == [l[1]];
      }
    }

    /** How many of the first size bytes lie behind the first block. */
    ghost function BehindFirst(size: nat): (n: nat)
      reads this, mgr, Owned(blkList), Payloads(blkList)
      requires Valid() && blkList != [] && blkList[0].size <= size <= capacity
      ensures n == size - blkList[0].size
      ensures Formed(Views(blkList)[1..]) && n <= |Bytes(Views(blkList)[1..])|
    {
      BytesRest(Views(blkList));
      size - blkList[0].size
    }

    /** Makes the first size bytes contiguous in the first block. */
    method SetContHeader(size: nat) returns (r: NetErr)
      requires Valid() && (blkList != [] || 0 < size)
      modifies this`blkList, mgr`pool, Owned(blkList), if blkList == [] then {} else {blkList[0].payload}
      ensures Valid() && Content() == old(Content()) && capacity == old(capacity)
      ensures r == if capacity < size || mgr.blkSize < size then NetSize else NetOk
      ensures r == NetSize || size <= old(blkList[0].size) ==>
        blkList == old(blkList) && mgr.pool == old(mgr.pool) && Views(blkList) == old(Views(blkList))
      ensures r == NetOk ==>
        old(blkList) != [] && blkList != [] && size <= blkList[0].size && blkList[0] == old(blkList)[0]
      ensures r == NetOk && old(blkList[0].size) < size ==>
        var n := old(BehindFirst(size));
        var k := old(Dropped(Views(blkList)[1..], n));
        && blkList[0].data == 0 && blkList[0].size == size
        && blkList == [old(blkList)[0]] + old(blkList)[k + 1..]
        && mgr.pool == old(mgr.pool) + old(blkList)[1..k + 1]
        && Views(blkList)[1..] == old(TrimFront(Views(blkList)[1..], n))
    {
      hide *;
      if capacity < size {
        return NetSize;
      }
      if mgr.blkSize < size {
        return NetSize;
      }
      Facts();
      BytesLength(Views(blkList));
      var firstSize := blkList[0].size;
      if size <= firstSize {
        return NetOk;
      }
      BytesRest(Views(blkList));
      OwnedAt(blkList, 0);
      ShiftFirst();
      PullAll(size - firstSize);
      return NetOk;
    }

    /** The loop of set_cont_header. */
    method PullAll(total: nat)
      requires Valid() && blkList != [] && blkList[0].data == 0
      requires 0 < total && blkList[0].size + total <= mgr.blkSize
      requires Formed(Views(blkList)[1..]) && total <= |Bytes(Views(blkList)[1..])|
      modifies this`blkList, mgr`pool, Owned(blkList), blkList[0].payload
      ensures Valid() && Content() == old(Content())
      ensures var k := old(Dropped(Views(blkList)[1..], total));
        && k + 1 <= |old(blkList)|
        && blkList == [old(blkList)[0]] + old(blkList)[k + 1..]
        && mgr.pool == old(mgr.pool) + old(blkList)[1..k + 1]
        && blkList[0].data == 0 && blkList[0].size == old(blkList[0].size) + total
        && Views(blkList)[1..] == old(TrimFront(Views(blkList)[1..], total))
    {
      hide *;
      ghost var l, p, s, n := blkList, mgr.pool, Content(), blkList[0].size + total;
      ghost var k: nat := 0;
      ghost var c := Views(blkList)[1..];
      var remain: nat := total;
      while remain != 0 && 1 < |blkList|
        invariant Valid() && Content() == s
        invariant k + 1 <= |l| && blkList == [l[0]] + l[k + 1..] && mgr.pool == p + l[1..k + 1]
        invariant l[0].data == 0 && l[0].size + remain == n
        invariant Formed(Views(blkList)[1..]) && remain <= |Bytes(Views(blkList)[1..])|
        invariant TrimFront(Views(blkList)[1..], remain) == TrimFront(c, total)
        invariant k + Dropped(Views(blkList)[1..], remain) == Dropped(c, total)
        invariant remain == 0 ==> Views(blkList)[1..] == TrimFront(c, total) && k == Dropped(c, total)
        decreases remain
      {
        OwnedAt(l, 0);
        OwnedAt(l, k + 1);
        assert blkList[1] == l[k + 1];
        ghost var cur, i: nat := blkList, 0;
        remain, i := PullSecond(remain);
        SliceShiftOne(l, p, cur, k, i, k + i);
        k := k + i;
      }
      BytesLength(Views(blkList)[1..]);
    }

    lemma HeldSecond()
      requires Valid() && 1 < |blkList|
      ensures 0 < blkList[1].size && blkList[1] in Owned(blkList) && blkList[0] in Owned(blkList)
      ensures var v := Views(blkList)[1..]; v != [] && v[0].len == blkList[1].size
    {
      hide *;
      Facts();
      HeldMember(blkList, mgr);
      OwnedAt(blkList, 0);
      OwnedAt(blkList, 1);
    }
  }
}
