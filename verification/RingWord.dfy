/** The ring's 32-bit counters: the machine whose counters wrap shows the image of the other. */
module RingWord {
  import opened Basics
  import opened RingIndex
  import opened RingMachine

  /** The source's counters: the same machine with every counter kept modulo 2^32. */
  function Word(c: Config): Config {
    c.(word := TWO_32)
  }

  function WrapPc(pc: Pc): Pc {
    match pc
    case PushRead(v, r) => PushRead(v, r % TWO_32)
    case PushCas(v, r, w) => PushCas(v, r % TWO_32, w % TWO_32)
    case PushStore(v, own) => PushStore(v, own % TWO_32)
    case PushConfirm(v, own, cur) => PushConfirm(v, own % TWO_32, cur % TWO_32)
    case PopRead(r) => PopRead(r % TWO_32)
    case PopLoad(r) => PopLoad(r % TWO_32)
    case PopCas(r, v) => PopCas(r % TWO_32, v)
    case _ => pc
  }

  /** What 32-bit registers show of an unbounded state. */
  function Image(s: State): State {
    State(s.read % TWO_32, s.write % TWO_32, s.last % TWO_32, s.length % TWO_32, s.cells,
          seq(|s.pcs|, i requires 0 <= i < |s.pcs| => WrapPc(s.pcs[i])), s.pushed, s.popped)
  }

  /** The thread is not comparing an index that is 2^32 or more operations out of date. */
  predicate Fresh(s: State, t: nat) {
    t < |s.pcs| ==>
      match s.pcs[t]
      case PushCas(_, _, w) => s.write < w + TWO_32 && w < s.write + TWO_32
      case PushConfirm(_, _, cur) => s.last < cur + TWO_32 && cur < s.last + TWO_32
      case PopCas(r, _) => s.read < r + TWO_32 && r < s.read + TWO_32
      case _ => true
  }

  predicate NeverStale(c: Config, s: State, sched: seq<(nat, Event)>)
    requires Shaped(c, s)
    decreases |sched|
  {
    sched == [] ||
    (Fresh(s, sched[0].0) && NeverStale(c, Step(c, s, sched[0].0, sched[0].1), sched[1..]))
  }

  /** Masking a wrapped index is masking the index, because m divides 2^32. */
  lemma ModMod(x: nat, m: nat, w: nat)
    requires 0 < m && 0 < w && w % m == 0
    ensures (x % w) % m == x % m
  {
    var q, k, y := x / w, w / m, x % w;
    assert x == w * q + y && w == m * k;
    ModModAt(x, m, k, q, y);
  }

  lemma ModModAt(x: nat, m: nat, k: nat, q: nat, y: nat)
    requires 0 < m && x == (m * k) * q + y
    ensures y % m == x % m
  {
    var z, r := y / m, y % m;
    MulAssoc(m, k, q);
    assert y == m * z + r;
    MulDist(m, k * q, z);
    IntModUnique(x, m, k * q + z, r);
  }

  lemma MulAssoc(m: nat, k: nat, q: nat)
    ensures (m * k) * q == m * (k * q)
  {
  }

  lemma MulDist(m: nat, a: nat, b: nat)
    ensures m * a + m * b == m * (a + b)
  {
  }

  lemma NextMod(x: int, d: int, w: nat)
    requires 0 < w
    ensures (x % w + d) % w == (x + d) % w
  {
    var q, y := x / w, x % w + d;
    var a := y / w;
    assert x == w * q + x % w && y == w * a + y % w;
    assert w * q + w * a == w * (q + a) by { IntDist(w, q, a); }
    IntModUnique(x + d, w, q + a, y % w);
  }

  lemma IntDist(w: nat, a: int, b: int)
    ensures w * a + w * b == w * (a + b)
  {
  }

  lemma IntModUnique(x: int, w: nat, q: int, r: int)
    requires 0 < w && x == w * q + r && 0 <= r < w
    ensures x % w == r
  {
    var p := x / w;
    assert x == w * p + x % w;
    IntGap(w, p, q);
    IntGap(w, q, p);
  }

  lemma IntGap(w: nat, p: int, q: int)
    ensures p < q ==> w * p + w <= w * q
    ensures p == q ==> w * p == w * q
  {
    if p < q {
      var d := q - p - 1;
      assert w * d >= 0;
      IntDist(w, d, p + 1);
      IntDist(w, p, 1);
    }
  }

  lemma SameWord(x: nat, y: nat, w: nat)
    requires 0 < w && x < y + w && y < x + w
    ensures x % w == y % w <==> x == y
  {
    if x < y {
      CellsApart(w, x, y);
    } else if y < x {
      CellsApart(w, y, x);
    }
  }

  /** As long as no thread acts on an index 2^32 operations out of date, the 32-bit machine takes
      the same step as the unbounded one. */
  lemma StepWord(c: Config, s: State, t: nat, e: Event)
    requires Shaped(c, s) && c.word == 0 && TWO_32 % c.m == 0 && Fresh(s, t)
    ensures Shaped(Word(c), Image(s))
    ensures Step(Word(c), Image(s), t, e) == Image(Step(c, s, t, e))
  {
    if t < |s.pcs| {
      if Pushing(s.pcs[t]) {
        PushWord(c, s, t, e);
      } else {
        PopWord(c, s, t, e);
      }
    }
  }

  lemma PushWord(c: Config, s: State, t: nat, e: Event)
    requires Shaped(c, s) && c.word == 0 && TWO_32 % c.m == 0 && Fresh(s, t)
    requires t < |s.pcs| && Pushing(s.pcs[t])
    ensures Step(Word(c), Image(s), t, e) == Image(Step(c, s, t, e))
  {
    var i, s' := Image(s), Step(c, s, t, e);
    assert Image(At(s, t, s'.pcs[t])).pcs == i.pcs[t := WrapPc(s'.pcs[t])];
    match s.pcs[t]
    case PushStart(v) => FullWord(c, s.read, s.write);
    case PushRead(v, r) => FullWord(c, r, s.write);
    case PushCas(v, r, w) =>
      SameWord(s.write, w, TWO_32);
      NextMod(w, 1, TWO_32);
    case PushStore(v, own) => ModMod(own, c.m, TWO_32);
    case PushConfirm(v, own, cur) =>
      SameWord(s.last, cur, TWO_32);
      NextMod(cur, 1, TWO_32);
    case PushCount => NextMod(s.length, 1, TWO_32);
  }

  lemma PopWord(c: Config, s: State, t: nat, e: Event)
    requires Shaped(c, s) && c.word == 0 && TWO_32 % c.m == 0 && Fresh(s, t)
    requires t < |s.pcs| && !Pushing(s.pcs[t])
    ensures Step(Word(c), Image(s), t, e) == Image(Step(c, s, t, e))
  {
    var i, s' := Image(s), Step(c, s, t, e);
    assert Image(At(s, t, s'.pcs[t])).pcs == i.pcs[t := WrapPc(s'.pcs[t])];
    match s.pcs[t]
    case Idle =>
    case PopStart =>
    case PopRead(r) =>
      ModMod(s.last, c.m, TWO_32);
      ModMod(r, c.m, TWO_32);
    case PopLoad(r) => ModMod(r, c.m, TWO_32);
    case PopCas(r, v) =>
      SameWord(s.read, r, TWO_32);
      NextMod(r, 1, TWO_32);
    case PopCount => NextMod(s.length, -1, TWO_32);
  }

  lemma FullWord(c: Config, r: nat, w: nat)
    requires Ring(c) && c.word == 0 && TWO_32 % c.m == 0
    ensures Full(Word(c), r % TWO_32, w % TWO_32) == Full(c, r, w)
  {
    NextMod(w, 1, TWO_32);
    ModMod(w + 1, c.m, TWO_32);
    ModMod(r, c.m, TWO_32);
  }

  lemma {:induction false} RunWord(c: Config, s: State, sched: seq<(nat, Event)>)
    requires Shaped(c, s) && c.word == 0 && TWO_32 % c.m == 0 && NeverStale(c, s, sched)
    ensures Shaped(Word(c), Image(s))
    ensures Run(Word(c), Image(s), sched) == Image(Run(c, s, sched))
    decreases |sched|
  {
    if sched != [] {
      StepWord(c, s, sched[0].0, sched[0].1);
      RunWord(c, Step(c, s, sched[0].0, sched[0].1), sched[1..]);
    }
  }

  /** The ring with its 32-bit counters, and the cells the constructor gives it, is first-in
      first-out on every run, of any length, in which no thread sleeps through 2^32 operations
      between reading an index and using it. */
  lemma WordFifo(c: Config, size: nat, sched: seq<(nat, Event)>)
    requires Ring(c) && c.word == 0
    requires size <= TWO_31 && c.m == QueueSize(size)
    requires Settled(c)
    requires NeverStale(c, Init(c), sched)
    ensures Fifo(Run(Word(c), Init(Word(c)), sched))
  {
    InitWord(c, size);
    RunWord(c, Init(c), sched);
    InitSafe(c);
    RunSafe(c, Init(c), sched);
  }

  /** size() between calls, for any number of threads, the code as written or repaired: once all
      threads are idle the length is the number of elements, on the 32-bit counters. */
  lemma WordQuietLength(c: Config, size: nat, sched: seq<(nat, Event)>)
    requires Ring(c) && c.word == 0
    requires size <= TWO_31 && c.m == QueueSize(size)
    requires NeverStale(c, Init(c), sched)
    ensures var s := Run(Word(c), Init(Word(c)), sched);
      (forall t :: 0 <= t < |s.pcs| ==> s.pcs[t].Idle?) ==>
        s.last == s.write && s.length == (s.write - s.read) % TWO_32
  {
    InitWord(c, size);
    hide Init, Image, QueueSize;
    RunWord(c, Init(c), sched);
    QuietLength(c, sched);
    ImageQuiet(Run(c, Init(c), sched));
  }

  lemma InitWord(c: Config, size: nat)
    requires Ring(c) && size <= TWO_31 && c.m == QueueSize(size)
    ensures TWO_32 % c.m == 0 && Shaped(c, Init(c)) && Shaped(Word(c), Init(Word(c)))
    ensures Init(Word(c)) == Image(Init(c))
  {
    hide QueueSize;
    SizeRounded(size);
  }

  /** What the registers show of a quiet ring. */
  lemma ImageQuiet(u: State)
    requires (forall t :: 0 <= t < |u.pcs| ==> u.pcs[t].Idle?) ==>
      u.last == u.write && u.length == u.write - u.read
    ensures var s := Image(u);
      (forall t :: 0 <= t < |s.pcs| ==> s.pcs[t].Idle?) ==>
        s.last == s.write && s.length == (s.write - s.read) % TWO_32
  {
    var s := Image(u);
    if forall t :: 0 <= t < |s.pcs| ==> s.pcs[t].Idle? {
      forall t | 0 <= t < |u.pcs|
        ensures u.pcs[t].Idle?
      {
        assert s.pcs[t] == WrapPc(u.pcs[t]);
      }
      DifferenceMod(u.write, u.read, TWO_32);
    }
  }

  lemma DifferenceMod(x: int, y: int, w: nat)
    requires 0 < w
    ensures (x % w - y % w) % w == (x - y) % w
  {
    var q := y / w;
    assert y == w * q + y % w;
    NextMod(x, 0 - y % w, w);
    var d := x - y % w;
    var p := d / w;
    assert d == w * p + d % w;
    IntDist(w, p - q, q);
    IntModUnique(x - y, w, p - q, d % w);
  }
}
