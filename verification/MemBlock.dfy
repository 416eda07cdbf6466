/** The memory pool: equal blocks of one allocation, kept in a ring queue by address. */
module MemBlock {
  import opened Basics
  import opened RingIndex
  import opened RingQueue

  /** What a client of a pool does next: take a block, or give back the i-th block it holds. */
  datatype Request = Take | GiveBack(i: nat)

  /** The addresses of n blocks of the given size, from offset 0 of the allocation. */
  function Addresses(blockSize: nat, n: nat): (a: seq<int>)
    ensures |a| == n
    ensures forall i :: 0 <= i < n ==> a[i] == i * blockSize
  {
    seq(n, i requires 0 <= i < n => i * blockSize)
  }

  ghost predicate NoDup(s: seq<int>) {
    forall i, j :: 0 <= i < j < |s| ==> s[i] != s[j]
  }

  function Elems(s: seq<int>): set<int> {
    set x | x in s
  }

  /** Blocks of the pool do not overlap and lie inside the allocation of n + 1 blocks. */
  lemma BlocksApart(blockSize: nat, n: nat, i: nat, j: nat)
    requires 0 < blockSize && i < j < n
    ensures var a := Addresses(blockSize, n);
      0 <= a[i] && a[i] + blockSize <= a[j] && a[j] + blockSize <= blockSize * (n + 1)
  {
    MulGap(blockSize, i, j);
    MulGap(blockSize, j, n + 1);
  }

  lemma {:induction false} ElemsSize(s: seq<int>)
    requires NoDup(s)
    ensures |Elems(s)| == |s|
  {
    if s == [] {
      assert Elems(s) == {};
    } else {
      ElemsSize(s[1..]);
      assert Elems(s) == {s[0]} + Elems(s[1..]);
    }
  }

  lemma SubsetSize(a: set<int>, b: set<int>)
    requires a <= b
    ensures |a| <= |b|
    ensures |a| == |b| ==> a == b
  {
    assert b == a + (b - a);
  }

  /** Every block is either free or handed out, and none is in two places. */
  ghost predicate Settled(free: seq<int>, out: set<int>, blocks: set<int>) {
    NoDup(free) && Elems(free) !! out && Elems(free) + out == blocks
  }

  lemma TakeSettled(free: seq<int>, out: set<int>, blocks: set<int>, block: int, rest: seq<int>)
    requires Settled(free, out, blocks) && free == [block] + rest
    ensures Settled(rest, out + {block}, blocks) && block !in out
  {
    assert free[0] == block && forall k :: 0 <= k < |rest| ==> rest[k] == free[k + 1];
    assert Elems(free) == {block} + Elems(rest);
  }

  lemma GiveSettled(free: seq<int>, out: set<int>, blocks: set<int>, block: int)
    requires Settled(free, out, blocks) && block in out
    ensures Settled(free + [block], out - {block}, blocks) && |free| < |blocks|
  {
    ElemsSize(free);
    SubsetSize(Elems(free) + {block}, blocks);
    assert Elems(free + [block]) == Elems(free) + {block};
  }

  lemma FillSettled(blockSize: nat, n: nat)
    requires 0 < blockSize
    ensures var a := Addresses(blockSize, n); Settled(a, {}, Elems(a)) && |Elems(a)| == n
  {
    var a := Addresses(blockSize, n);
    forall i, j | 0 <= i < j < |a|
      ensures a[i] != a[j]
    {
      BlocksApart(blockSize, |a|, i, j);
    }
    ElemsSize(a);
  }

  lemma NothingHeld()
    ensures Elems([]) == {} && NoDup([])
  {
  }

  lemma HeldMore(held: seq<int>, block: int)
    requires NoDup(held) && block !in Elems(held)
    ensures NoDup(held + [block]) && Elems(held + [block]) == Elems(held) + {block}
  {
  }

  lemma HeldLess(held: seq<int>, k: nat)
    requires NoDup(held) && k < |held|
    ensures var rest := held[..k] + held[k + 1..];
      held[k] in Elems(held) && NoDup(rest) && Elems(rest) == Elems(held) - {held[k]}
  {
    var rest := held[..k] + held[k + 1..];
    forall x
      ensures x in rest <==> x in held && x != held[k]
    {
      if x in held {
        var i :| 0 <= i < |held| && held[i] == x;
        assert i < k ==> rest[i] == x;
        assert i > k ==> rest[i - 1] == x;
      }
    }
  }

  /** One more turn of the start-up loop reaches the block at its place in the rotation. */
  lemma Reached(start: seq<int>, i: nat, at: nat)
    requires at < |start| && (i < |start| ==> at == i)
    ensures Elems(start[..Min(i + 1, |start|)]) == Elems(start[..Min(i, |start|)]) + {start[at]}
  {
    if i < |start| {
      assert start[..i + 1] == start[..i] + [start[i]];
    } else {
      assert start[at] in start[..|start|];
    }
  }

  lemma Rotated(start: seq<int>, at: nat, free: seq<int>)
    requires at < |start| && free == (start[at..] + start[..at])[1..] + [start[at]]
    ensures at + 1 < |start| ==> free == start[at + 1..] + start[..at + 1]
    ensures at + 1 == |start| ==> free == start[0..] + start[..0]
  {
  }

  lemma RotatedSame(start: seq<int>, at: nat)
    requires at < |start|
    ensures Elems(start[at..] + start[..at]) == Elems(start)
  {
    assert start == start[..at] + start[at..];
  }

  lemma AllReached(start: seq<int>, count: nat)
    requires NoDup(start)
    ensures Elems(start[..Min(count, |start|)]) == Elems(start) <==> count >= |start|
  {
    if count >= |start| {
      assert start[..|start|] == start;
    } else {
      assert start[count] in Elems(start) && start[count] !in Elems(start[..count]);
    }
  }

  /** What a request makes of the free blocks and of those the client holds: the first free one is
      taken, and what is given back goes behind the free ones. */
  function Served(free: seq<int>, held: seq<int>, request: Request): (seq<int>, seq<int>) {
    match request
    case Take => if free == [] then (free, held) else (free[1..], held + [free[0]])
    case GiveBack(i) =>
      if i < |held| then (free + [held[i]], held[..i] + held[i + 1..]) else (free, held)
  }

  function ServedAll(free: seq<int>, script: seq<Request>): (seq<int>, seq<int>) {
    if script == [] then (free, [])
    else
      var n := |script| - 1;
      var (f, h) := ServedAll(free, script[..n]);
      Served(f, h, script[n])
  }

  lemma ServedStep(free: seq<int>, script: seq<Request>, i: nat)
    requires i < |script|
    ensures var (f, h) := ServedAll(free, script[..i]);
      ServedAll(free, script[..i + 1]) == Served(f, h, script[i])
  {
    assert script[..i + 1][..i] == script[..i];
  }

  lemma NothingServed(free: seq<int>, script: seq<Request>)
    ensures ServedAll(free, script[..0]) == (free, [])
  {
  }

  lemma ServedCases(free: seq<int>, held: seq<int>, i: nat)
    ensures free == [] ==> Served(free, held, Take) == (free, held)
    ensures free != [] ==> Served(free, held, Take) == (free[1..], held + [free[0]])
    ensures i < |held| ==>
      Served(free, held, GiveBack(i)) == (free + [held[i]], held[..i] + held[i + 1..])
    ensures |held| <= i ==> Served(free, held, GiveBack(i)) == (free, held)
  {
  }

  class Pool {
    const blockSize: nat
    const queue: Queue<int>
    ghost const blocks: set<int> // what the pool was filled with
    ghost var out: set<int>      // handed out and not yet given back

    ghost predicate Valid()
      reads this, queue, queue.cells
    {
      queue.Valid() && |blocks| == queue.size - 1 && Settled(Free(), out, blocks)
    }

    ghost function Free(): seq<int>
      requires queue.Valid()
      reads this, queue, queue.cells
    {
      queue.Contents()
    }

    /** A pool of one block less than the rounded capacity, in address order, or no pool when
        the capacity is zero and the queue refuses it. */
    static method Create(blockSize: nat, capacity: nat) returns (p: Option<Pool>)
      requires 0 < blockSize && capacity <= TWO_31 && blockSize * QueueSize(capacity) < TWO_31
      ensures p == None <==> capacity == 0
      ensures p.Some? ==> fresh(p.value) && fresh(p.value.queue) && fresh(p.value.queue.cells)
      ensures p.Some? ==> p.value.Valid() && p.value.out == {} && p.value.blockSize == blockSize
      ensures p.Some? ==> p.value.queue.size == QueueSize(capacity)
      ensures p.Some? ==> p.value.Free() == Addresses(blockSize, QueueSize(capacity) - 1)
    {
      hide Settled, QueueSize, IndexOfQueue;
      SizeRounded(capacity);
      var q := Queue<int>.Create(capacity);
      if q == None {
        return None;
      }
      var made := new Pool(blockSize, q.value);
      return Some(made);
    }

    /** Pushes as many blocks as the queue has cells; the queue refuses the last one. */
    constructor (blockSize: nat, queue: Queue<int>)
      requires 0 < blockSize && queue.Valid() && queue.Contents() == []
      modifies queue, queue.cells
      ensures this.blockSize == blockSize && this.queue == queue
      ensures Valid() && out == {} && Free() == Addresses(blockSize, queue.size - 1)
    {
      hide Settled;
      hide NoDup;
      hide Elems;
      this.blockSize, this.queue := blockSize, queue;
      var a := Addresses(blockSize, queue.size - 1);
      FillSettled(blockSize, queue.size - 1);
      blocks, out := Elems(a), {};
      new;
      Fill(a);
    }

    method Fill(a: seq<int>)
      requires queue.Valid() && queue.Contents() == []
      requires a == Addresses(blockSize, queue.size - 1)
      modifies queue, queue.cells
      ensures queue.Valid() && queue.Contents() == a
    {
      hide *;
      var block := 0;
      for i := 0 to queue.size
        invariant queue.Valid() && block == i * blockSize
        invariant queue.Contents() == a[..if i < queue.size then i else i - 1]
      {
        var ok := queue.Push(block);
        assert ok <==> i < |a|;
        assert ok ==> a[..i + 1] == a[..i] + [block];
        block := block + blockSize;
      }
      assert a[..|a|] == a;
    }

    method Alloc() returns (block: Option<int>)
      requires Valid()
      modifies this, queue
      ensures Valid()
      ensures block == None <==> old(Free()) == []
      ensures block == None ==> Free() == old(Free()) && out == old(out)
      ensures block.Some? ==> old(Free()) == [block.value] + Free()
      ensures block.Some? ==> block.value !in old(out) && out == old(out) + {block.value}
    {
      hide Settled;
      ghost var before := Free();
      block := queue.Pop();
      if block.Some? {
        TakeSettled(before, out, blocks, block.value, Free());
        out := out + {block.value};
      }
    }

    /** The owner of a block gives it back; the queue always has room for it. */
    method Release(block: int) returns (ok: bool)
      requires Valid() && block in out
      modifies this, queue, queue.cells
      ensures Valid() && ok
      ensures Free() == old(Free()) + [block] && out == old(out) - {block}
    {
      hide Settled;
      GiveSettled(Free(), out, blocks, block);
      ok := queue.Push(block);
      out := out - {block};
    }

    lemma QueueValid()
      requires Valid()
      ensures queue.Valid()
    {
    }

    lemma FreeFacts()
      requires Valid()
      ensures NoDup(Free()) && Elems(Free()) !! out && Elems(Free()) + out == blocks
      ensures |Free()| + |out| == queue.size - 1
    {
      ElemsSize(Free());
      assert |blocks| == |out| + |Elems(Free())|;
    }

    /** Any history of taking and giving back: no block is handed out while it is held, every
        block given back is accepted, each request does what it says, and at the end what is held
        and what is free make up the pool again. */
    method Serve(script: seq<Request>) returns (held: seq<int>)
      requires Valid() && out == {}
      modifies this, queue, queue.cells
      ensures Valid() && NoDup(held) && Elems(held) == out
      ensures |held| + |Free()| == queue.size - 1
      ensures (Free(), held) == ServedAll(old(Free()), script)
    {
      hide *;
      held := [];
      NothingHeld();
      QueueValid();
      ghost var start := Free();
      assert ServedAll(start, script[..0]) == (start, []) by { NothingServed(start, script); }
      for i := 0 to |script|
        invariant Valid() && NoDup(held) && Elems(held) == out
        invariant queue.Valid() && (Free(), held) == ServedAll(start, script[..i])
      {
        ServedStep(start, script, i);
        ServedCases(Free(), held, if script[i].GiveBack? then script[i].i else 0);
        match script[i]
        case Take =>
          var block := Alloc();
          if block.Some? {
            HeldMore(held, block.value);
            held := held + [block.value];
          }
          QueueValid();
        case GiveBack(k) =>
          if k < |held| {
            HeldLess(held, k);
            var ok := Release(held[k]);
            assert ok;
            held := held[..k] + held[k + 1..];
          }
          QueueValid();
      }
      assert script[..|script|] == script;
      ElemsSize(held);
      FreeFacts();
    }

    /** The start-up loop of the packet manager: takes a block, initialises it and gives it back,
        count times over. The queue rotates, so the blocks reached are the first count of them,
        and they are all of them exactly when count is at least the number of blocks. */
    method WarmUp(count: nat) returns (ghost done: set<int>, asserted: bool)
      requires Valid() && Free() != []
      modifies this, queue, queue.cells
      ensures Valid() && out == old(out) && Elems(Free()) == old(Elems(Free()))
      ensures asserted
      ensures done == Elems(old(Free())[..Min(count, |old(Free())|)])
      ensures done == old(Elems(Free())) <==> count >= |old(Free())|
    {
      hide *;
      QueueValid();
      ghost var start := Free();
      FreeFacts();
      done, asserted := Elems(start[..0]), true;
      ghost var at := 0;
      assert done == {} by { NothingHeld(); assert start[..0] == []; }
      assert start[at..] + start[..at] == start;
      for i := 0 to count
        invariant Valid() && queue.Valid() && out == old(out) && asserted
        invariant at < |start| && Free() == start[at..] + start[..at]
        invariant i < |start| ==> at == i
        invariant done == Elems(start[..Min(i, |start|)])
      {
        assert Free()[0] == start[at];
        var block := Alloc();
        QueueValid();
        asserted := asserted && block.Some?;
        Reached(start, i, at);
        assert block.value == start[at];
        done := done + {block.value};
        var ok := Release(block.value);
        asserted := asserted && ok;
        QueueValid();
        Rotated(start, at, Free());
        at := if at + 1 == |start| then 0 else at + 1;
      }
      RotatedSame(start, at);
      AllReached(start, count);
    }
  }

  /** Which counts make the rounded queue no larger than the loop that warms it up. */
  lemma WarmCounts(count: nat)
    requires 1 <= count <= TWO_31
    ensures count >= QueueSize(count) - 1 <==> PowerOfTwo(count) || PowerOfTwo(count + 1)
  {
    hide QueueSize, IndexOfQueue;
    SizeRounded(count);
    var k := SizePower(count);
    assert Pow(0) == 1 && Pow(1) == 2;
    if PowerOfTwo(count) {
      var j: nat :| count == Pow(j);
      assert count >= 2 ==> QueueSize(count) <= Pow(j);
    }
    if PowerOfTwo(count + 1) {
      var j: nat :| count + 1 == Pow(j);
      assert QueueSize(count) <= Pow(j);
    }
  }

  /** The manager's start-up as written asks for count blocks and warms up count times. Its
      assertions never fail; every pooled block is initialised exactly when the count or the
      count plus one is a power of two. */
  method StartUp(blockSize: nat, count: nat) returns (p: Option<Pool>, ghost done: set<int>, asserted: bool)
    requires 0 < blockSize && count <= TWO_31 && blockSize * QueueSize(count) < TWO_31
    ensures p == None <==> count == 0
    ensures p.Some? ==> asserted && p.value.Valid() && p.value.out == {}
    ensures p.Some? ==> |p.value.Free()| == QueueSize(count) - 1
    ensures p.Some? ==>
      (done == Elems(p.value.Free()) <==> PowerOfTwo(count) || PowerOfTwo(count + 1))
  {
    hide Settled, QueueSize, IndexOfQueue;
    done, asserted := {}, true;
    p := Pool.Create(blockSize, count);
    if p.Some? {
      SizeRounded(count);
      WarmCounts(count);
      done, asserted := p.value.WarmUp(count);
      p.value.FreeFacts();
    }
  }
}
