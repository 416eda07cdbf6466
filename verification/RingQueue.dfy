/** The ring queue as its owners use it, one call at a time: an array of cells and 32-bit indices
    that wrap, against a bounded first-in first-out sequence. What interleaved calls do is the
    subject of RingMachine. */
module RingQueue {
  import opened Basics
  import opened RingIndex
  import opened RingWord
  import opened RingMachine

  function Succ(x: nat): nat {
    (x + 1) % TWO_32
  }

  function Pred(x: nat): nat {
    (x - 1) % TWO_32
  }

  function Cell<T>(cells: seq<T>, index: nat): T
    requires |cells| > 0
  {
    cells[index % |cells|]
  }

  /** The n elements from index r on. */
  function Window<T>(cells: seq<T>, r: nat, n: nat): (w: seq<T>)
    requires |cells| > 0
    ensures |w| == n
    ensures forall k :: 0 <= k < n ==> w[k] == Cell(cells, r + k)
  {
    seq(n, k requires 0 <= k < n => Cell(cells, r + k))
  }

  class Queue<T(0)> {
    const size: nat
    var length: nat
    var read: nat
    var write: nat
    var last: nat
    const cells: array<T>

    ghost predicate Valid()
      reads this, cells
    {
      && 2 <= size <= TWO_31 && PowerOfTwo(size) && cells.Length == size
      && read < TWO_32 && write < TWO_32 && last == write
      && Count() < size && length == Count()
    }

    /** What the indices say is in the ring. */
    ghost function Count(): nat
      reads this
    {
      (write - read) % TWO_32
    }

    ghost function Contents(): seq<T>
      requires Valid()
      reads this, cells
    {
      Window(cells[..], read, Count())
    }

    /** For every size up to 2^31 but zero, an empty queue that holds one element less than the
        rounded size; a size of zero is refused. */
    static method Create(size: nat) returns (q: Option<Queue<T>>)
      requires size < TWO_32
      ensures q == None <==> size == 0
      ensures q.Some? ==> fresh(q.value) && fresh(q.value.cells) && q.value.size == QueueSize(size)
      ensures q.Some? && size <= TWO_31 ==> q.value.Valid() && q.value.Contents() == []
    {
      if size == 0 {
        return None;
      }
      var made := new Queue<T>(size);
      return Some(made);
    }

    constructor (size: nat)
      requires 0 < size < TWO_32
      ensures fresh(cells) && this.size == QueueSize(size)
      ensures size <= TWO_31 ==> Valid() && Contents() == []
    {
      hide IndexOfQueue, QueueSize;
      var m := QueueSize(size);
      if size <= TWO_31 {
        SizeRounded(size);
        var k := SizePower(size);
        if k < 31 {
          PowGrows(k, 31);
        }
        Pow32();
      } else {
        SizeTruncated(size);
      }
      this.size := m;
      length, read, write, last := 0, 0, 0, 0;
      cells := new T[m];
    }

    method Push(data: T) returns (ok: bool)
      requires Valid()
      modifies this, cells
      ensures Valid()
      ensures ok <==> |old(Contents())| < size - 1
      ensures Contents() == old(Contents()) + if ok then [data] else []
    {
      hide *;
      Facts();
      ghost var n := Count();
      FullTest(size, read, write, n);
      if IndexOfQueue(Succ(write), size) == IndexOfQueue(read, size) {
        assert Contents() == Contents() + [];
        return false;
      }
      var own := write;
      ghost var was := cells[..];
      write := Succ(own);
      cells[IndexOfQueue(own, size)] := data;
      last := Succ(own);
      length := Succ(length);
      CountUp(read, own, n);
      Pushed(was, cells[..], read, n, data, own);
      Holds(n + 1);
      return true;
    }

    method Pop() returns (data: Option<T>)
      requires Valid()
      modifies this
      ensures Valid()
      ensures data == None <==> old(Contents()) == []
      ensures data == None ==> Contents() == old(Contents())
      ensures data.Some? ==> old(Contents()) == [data.value] + Contents()
    {
      hide *;
      Facts();
      ghost var n := Count();
      EmptyTest(size, read, last, n);
      if IndexOfQueue(last, size) == IndexOfQueue(read, size) {
        return None;
      }
      var r := read;
      data := Some(cells[IndexOfQueue(r, size)]);
      read := Succ(r);
      length := Pred(length);
      CountDown(r, write, n);
      Popped(cells[..], r, n);
      Holds(n - 1);
    }

    /** What holds before a call, without unfolding. */
    lemma Facts()
      requires Valid()
      ensures 2 <= size <= TWO_31 && PowerOfTwo(size) && cells.Length == size && TWO_32 % size == 0
      ensures Count() < size && Count() < TWO_31 && length == Count()
      ensures read < TWO_32 && write < TWO_32 && last == write == (read + Count()) % TWO_32
      ensures (write - read) % TWO_32 == Count()
      ensures Contents() == Window(cells[..], read, Count()) && |Contents()| == Count()
      ensures forall i: nat :: IndexOfQueue(i, size) == i % size < size
    {
      hide PowerOfTwo, IndexOfQueue, Window;
      MaskFacts(size);
      WriteIs(read, write);
    }

    /** And what makes it hold after one. */
    lemma Holds(n: nat)
      requires 2 <= size <= TWO_31 && PowerOfTwo(size) && cells.Length == size
      requires read < TWO_32 && write < TWO_32 && last == write
      requires n == (write - read) % TWO_32 && n < size && length == n
      ensures Valid() && Contents() == Window(cells[..], read, n)
    {
    }

    function Size(): (n: nat)
      requires Valid()
      reads this, cells
      ensures n == |Contents()|
    {
      length
    }
  }

  lemma MaskFacts(size: nat)
    requires 2 <= size <= TWO_31 && PowerOfTwo(size)
    ensures TWO_32 % size == 0
    ensures forall i: nat :: IndexOfQueue(i, size) == i % size < size
  {
    hide PowerOfTwo, IndexOfQueue;
    PowerTest(size);
    SizeRounded(size);
  }

  lemma WriteIs(read: nat, write: nat)
    requires write < TWO_32
    ensures write == (read + (write - read) % TWO_32) % TWO_32
  {
    NextMod(write - read, read, TWO_32);
  }

  /** The masked test for full, on indices that wrap, is the test on the element count. */
  lemma FullTest(m: nat, r: nat, w: nat, n: nat)
    requires 2 <= m && TWO_32 % m == 0 && n < m && w == (r + n) % TWO_32
    ensures Succ(w) % m == r % m <==> n == m - 1
  {
    NextMod(r + n, 1, TWO_32);
    ModMod(r + n + 1, m, TWO_32);
    if n == m - 1 {
      ModPlus(r, m);
    } else {
      CellsApart(m, r, r + n + 1);
    }
  }

  lemma EmptyTest(m: nat, r: nat, w: nat, n: nat)
    requires 2 <= m && TWO_32 % m == 0 && n < m && w == (r + n) % TWO_32
    ensures w % m == r % m <==> n == 0
  {
    ModMod(r + n, m, TWO_32);
    if n > 0 {
      CellsApart(m, r, r + n);
    }
  }

  lemma CountUp(r: nat, w: nat, n: nat)
    requires n == (w - r) % TWO_32 && n < TWO_31
    ensures (Succ(w) - r) % TWO_32 == n + 1 == Succ(n) && Succ(w) < TWO_32
  {
    NextMod(w + 1, 0 - r, TWO_32);
    NextMod(w - r, 1, TWO_32);
  }

  lemma CountDown(r: nat, w: nat, n: nat)
    requires n == (w - r) % TWO_32 && 0 < n
    ensures (w - Succ(r)) % TWO_32 == n - 1 == Pred(n) && Succ(r) < TWO_32
  {
  }

  lemma Pushed<T>(was: seq<T>, now: seq<T>, r: nat, n: nat, data: T, own: nat)
    requires |was| == |now| >= 2 && n + 1 < |was| && TWO_32 % |was| == 0
    requires own == (r + n) % TWO_32 && now == was[own % |was| := data]
    ensures Window(now, r, n + 1) == Window(was, r, n) + [data]
  {
    hide Cell;
    var w, x := Window(was, r, n), Window(now, r, n + 1);
    forall k | 0 <= k < n + 1
      ensures x[k] == (w + [data])[k]
    {
      PushedCell(was, now, r, n, data, own, k);
    }
  }

  lemma PushedCell<T>(was: seq<T>, now: seq<T>, r: nat, n: nat, data: T, own: nat, k: nat)
    requires |was| == |now| >= 2 && n + 1 < |was| && TWO_32 % |was| == 0 && k <= n
    requires own == (r + n) % TWO_32 && now == was[own % |was| := data]
    ensures Cell(now, r + k) == if k < n then Cell(was, r + k) else data
  {
    var i, j := r + k, r + n;
    ModMod(j, |was|, TWO_32);
    if k < n {
      CellsApart(|was|, i, j);
    }
  }

  lemma Popped<T>(cells: seq<T>, r: nat, n: nat)
    requires |cells| >= 2 && 0 < n && TWO_32 % |cells| == 0
    ensures Window(cells, r, n) == [cells[r % |cells|]] + Window(cells, Succ(r), n - 1)
  {
    hide Cell, Succ;
    var w, x := Window(cells, r, n), Window(cells, Succ(r), n - 1);
    PoppedCell(cells, r, 0);
    forall k | 0 <= k < n - 1
      ensures x[k] == w[k + 1]
    {
      PoppedCell(cells, r, k);
    }
  }

  lemma PoppedCell<T>(cells: seq<T>, r: nat, k: nat)
    requires |cells| > 0 && TWO_32 % |cells| == 0
    ensures Cell(cells, Succ(r) + k) == Cell(cells, r + (k + 1))
    ensures Cell(cells, r + 0) == cells[r % |cells|]
  {
    NextCell(|cells|, r, k);
  }

  lemma NextCell(m: nat, r: nat, k: nat)
    requires 0 < m && TWO_32 % m == 0
    ensures (Succ(r) + k) % m == (r + (k + 1)) % m
  {
    var s, t := Succ(r), r + 1;
    ModMod(t, m, TWO_32);
    NextMod(s, k, m);
    NextMod(t, k, m);
  }
}
