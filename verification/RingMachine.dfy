/** The lock-free ring queue as a step machine: any number of threads, one atomic access to
    shared memory per step, every interleaving. Atomics are sequentially consistent. */
module RingMachine {
  import opened Basics

  /** Where a thread is inside push or pop, with its local variables. */
  datatype Pc =
    | Idle
    | PushStart(v: int)                       // about to load the read index
    | PushRead(v: int, r: nat)                // about to load the write index and test for full
    | PushCas(v: int, r: nat, w: nat)         // about to compare-exchange the write index
    | PushStore(v: int, own: nat)             // slot own reserved; about to store the cell
    | PushConfirm(v: int, own: nat, cur: nat) // about to compare-exchange the last write index with cur
    | PushCount                               // about to add to the length
    | PopStart                                // about to load the read index
    | PopRead(r: nat)                         // about to load the last write index and test for empty
    | PopLoad(r: nat)                         // about to copy the cell
    | PopCas(r: nat, v: int)                  // about to compare-exchange the read index
    | PopCount                                // about to subtract from the length

  /** What the scheduler lets a thread do: start a call, take its next step, or take it with a
      compare_exchange_weak that fails for no reason. */
  datatype Event = CallPush(v: int) | CallPop | Go | Spurious

  /** m cells; the confirm loop and the test for full, each as written or repaired; the threads
      that ever call push; the modulus of the counters, 0 for unbounded. */
  datatype Config = Config(
    m: nat, confirm: Code, test: Code, threads: nat, producers: set<nat>, word: nat)

  /** pushed and popped record the values in the order of the exchanges that succeeded on the
      write index and on the read index. */
  datatype State = State(
    read: nat, write: nat, last: nat, length: int, cells: seq<int>, pcs: seq<Pc>,
    pushed: seq<int>, popped: seq<int>)

  predicate Ring(c: Config) {
    2 <= c.m
  }

  function Wrap(c: Config, x: int): int {
    if c.word == 0 then x else x % c.word
  }

  function Next(c: Config, x: nat): nat {
    if c.word == 0 then x + 1 else (x + 1) % c.word
  }

  function Init(c: Config): State {
    State(0, 0, 0, 0, seq(c.m, _ => 0), seq(c.threads, _ => Idle), [], [])
  }

  predicate Full(c: Config, r: nat, w: nat)
    requires Ring(c)
  {
    Next(c, w) % c.m == r % c.m
  }

  /** The next step of a thread at pc, as new shared state and new pc. */
  function Step(c: Config, s: State, t: nat, e: Event): State
    requires Ring(c) && |s.cells| == c.m
  {
    if |s.pcs| <= t then s else
    match s.pcs[t]
    case Idle =>
      if e.CallPush? && t in c.producers then At(s, t, PushStart(e.v))
      else if e.CallPop? then At(s, t, PopStart)
      else s
    case PushStart(v) =>
      if c.test.Written? then At(s, t, PushRead(v, s.read))
      else if Full(c, s.read, s.write) then At(s, t, Idle)
      else At(s, t, PushCas(v, s.read, s.write))
    case PushRead(v, r) =>
      if Full(c, r, s.write) then At(s, t, Idle) else At(s, t, PushCas(v, r, s.write))
    case PushCas(v, r, w) =>
      if e.Spurious? || s.write != w then At(s, t, PushStart(v))
      else At(s, t, PushStore(v, w)).(write := Next(c, w), pushed := s.pushed + [v])
    case PushStore(v, own) =>
      At(s, t, PushConfirm(v, own, own)).(cells := s.cells[own % c.m := v])
    case PushConfirm(v, own, cur) =>
      if e.Spurious? || s.last != cur then
        At(s, t, PushConfirm(v, own, if c.confirm.Written? then s.last else own))
      else At(s, t, PushCount).(last := Next(c, cur))
    case PushCount => At(s, t, Idle).(length := Wrap(c, s.length + 1))
    case PopStart => At(s, t, PopRead(s.read))
    case PopRead(r) =>
      if s.last % c.m == r % c.m then At(s, t, Idle) else At(s, t, PopLoad(r))
    case PopLoad(r) => At(s, t, PopCas(r, s.cells[r % c.m]))
    case PopCas(r, v) =>
      if e.Spurious? || s.read != r then At(s, t, PopStart)
      else At(s, t, PopCount).(read := Next(c, r), popped := s.popped + [v])
    case PopCount => At(s, t, Idle).(length := Wrap(c, s.length - 1))
  }

  function At(s: State, t: nat, pc: Pc): State
    requires t < |s.pcs|
  {
    s.(pcs := s.pcs[t := pc])
  }

  predicate Shaped(c: Config, s: State) {
    Ring(c) && |s.cells| == c.m && |s.pcs| == c.threads
  }

  /** The state after a schedule of (thread, event) steps. */
  function Run(c: Config, s: State, sched: seq<(nat, Event)>): (r: State)
    requires Shaped(c, s)
    ensures Shaped(c, r)
    decreases |sched|
  {
    if sched == [] then s else Run(c, Step(c, s, sched[0].0, sched[0].1), sched[1..])
  }

  /** First in, first out: what has been popped is a prefix of what has been pushed. */
  predicate Fifo(s: State) {
    s.popped <= s.pushed
  }

  ghost predicate AlwaysFifo(c: Config)
    requires Ring(c)
  {
    forall sched :: Fifo(Run(c, Init(c), sched))
  }

  /** No two different threads push. */
  predicate OneProducer(c: Config) {
    forall p, q :: p in c.producers && q in c.producers ==> p == q
  }

  // ---------------------------------------------------------------- counters

  predicate Holds(pc: Pc) {
    pc.PushStore? || pc.PushConfirm?
  }

  function Holders(pcs: seq<Pc>): set<nat> {
    set t | 0 <= t < |pcs| && Holds(pcs[t])
  }

  function Adding(pcs: seq<Pc>): set<nat> {
    set t | 0 <= t < |pcs| && pcs[t].PushCount?
  }

  function Removing(pcs: seq<Pc>): set<nat> {
    set t | 0 <= t < |pcs| && pcs[t].PopCount?
  }

  /** The distance between the two write indices is the number of pushes between reserving and
      confirming; the length lags behind the indices by the operations not yet counted. */
  predicate Counted(s: State) {
    && s.write == s.last + |Holders(s.pcs)|
    && s.length == s.last - s.read - |Adding(s.pcs)| + |Removing(s.pcs)|
  }

  lemma SetSizes(pcs: seq<Pc>, t: nat, pc: Pc)
    requires t < |pcs|
    ensures var q := pcs[t := pc];
      && |Holders(q)| == |Holders(pcs)| - (if Holds(pcs[t]) then 1 else 0) + (if Holds(pc) then 1 else 0)
      && |Adding(q)| == |Adding(pcs)| - (if pcs[t].PushCount? then 1 else 0) + (if pc.PushCount? then 1 else 0)
      && |Removing(q)| == |Removing(pcs)| - (if pcs[t].PopCount? then 1 else 0) + (if pc.PopCount? then 1 else 0)
  {
    var q := pcs[t := pc];
    SameButOne(Holders(q), Holders(pcs), t);
    SameButOne(Adding(q), Adding(pcs), t);
    SameButOne(Removing(q), Removing(pcs), t);
  }

  lemma SameButOne(a: set<nat>, b: set<nat>, t: nat)
    requires forall u :: u != t ==> (u in a <==> u in b)
    ensures |a| == |b| - (if t in b then 1 else 0) + (if t in a then 1 else 0)
  {
    assert a - {t} == b - {t};
    assert t in a ==> a == (a - {t}) + {t};
    assert t in b ==> b == (b - {t}) + {t};
  }

  /** For the code as written and as repaired, with any number of threads. */
  lemma StepCounted(c: Config, s: State, t: nat, e: Event)
    requires Shaped(c, s) && c.word == 0 && Counted(s)
    ensures Counted(Step(c, s, t, e))
  {
    if t < |s.pcs| {
      var s' := Step(c, s, t, e);
      SetSizes(s.pcs, t, s'.pcs[t]);
      assert s'.pcs == s.pcs[t := s'.pcs[t]];
    }
  }

  lemma {:induction false} RunCounted(c: Config, s: State, sched: seq<(nat, Event)>)
    requires Shaped(c, s) && c.word == 0 && Counted(s)
    ensures Counted(Run(c, s, sched))
    decreases |sched|
  {
    if sched != [] {
      StepCounted(c, s, sched[0].0, sched[0].1);
      RunCounted(c, Step(c, s, sched[0].0, sched[0].1), sched[1..]);
    }
  }

  /** Whatever happened before, once all threads are idle the length is the number of
      elements between the indices, and all pushes are confirmed. */
  lemma QuietLength(c: Config, sched: seq<(nat, Event)>)
    requires Ring(c) && c.word == 0
    ensures var s := Run(c, Init(c), sched);
      (forall t :: 0 <= t < |s.pcs| ==> s.pcs[t].Idle?) ==>
        s.last == s.write && s.length == s.write - s.read
  {
    var s := Run(c, Init(c), sched);
    var i := Init(c);
    assert Holders(i.pcs) == {} && Adding(i.pcs) == {} && Removing(i.pcs) == {};
    RunCounted(c, i, sched);
    if forall t :: 0 <= t < |s.pcs| ==> s.pcs[t].Idle? {
      assert Holders(s.pcs) == {} && Adding(s.pcs) == {} && Removing(s.pcs) == {};
    }
  }

  // ---------------------------------------------------------------- safety

  /** What a thread knows at each point between its atomic accesses. */
  predicate Knows(c: Config, s: State, pc: Pc)
    requires Shaped(c, s) && |s.pushed| == s.write
  {
    match pc
    case PushRead(v, r) => c.test.Written? && r <= s.read && s.write <= r + c.m - 1
    case PushCas(v, r, w) => r <= s.read && r <= w <= s.write && w <= r + c.m - 2
    case PushStore(v, own) => s.last <= own < s.write && s.pushed[own] == v
    case PushConfirm(v, own, cur) =>
      cur == own && s.last <= own < s.write && s.pushed[own] == v && s.cells[own % c.m] == v
    case PopRead(r) => r <= s.read
    case PopLoad(r) => r <= s.read && r < s.last
    case PopCas(r, v) => r <= s.read && r < s.last && (r == s.read ==> r < s.write && v == s.pushed[r])
    case _ => true
  }

  function Own(pc: Pc): nat
    requires Holds(pc)
  {
    pc.own
  }

  /** Between the start of a push and its confirmation. */
  predicate Busy(pc: Pc) {
    pc.PushStart? || pc.PushRead? || pc.PushCas? || Holds(pc)
  }

  /** No two threads are pushing at the same time. */
  predicate Lone(s: State) {
    forall t, u :: 0 <= t < u < |s.pcs| ==> !Busy(s.pcs[t]) || !Busy(s.pcs[u])
  }

  /** With the test for full as written pushes must not overlap; nor with the confirm loop as
      written, unless there are two cells, where an exact test lets in one push at a time. */
  predicate NeedsLone(c: Config) {
    c.test.Written? || (c.confirm.Written? && c.m != 2)
  }

  /** Only producers push, and pushes do not overlap where they must not. */
  predicate Roles(c: Config, s: State) {
    && (NeedsLone(c) ==> Lone(s))
    && (forall t :: 0 <= t < |s.pcs| && Pushing(s.pcs[t]) ==> t in c.producers)
  }

  predicate Pushing(pc: Pc) {
    pc.PushStart? || pc.PushRead? || pc.PushCas? || Holds(pc) || pc.PushCount?
  }

  /** The indices in order and at most m - 1 apart, every confirmed cell still holding what its
      ticket pushed, no ticket held twice, and the popped values those of the first tickets. */
  predicate Safe(c: Config, s: State) {
    && Shaped(c, s) && Roles(c, s)
    && s.read <= s.last <= s.write <= s.read + c.m - 1
    && |s.pushed| == s.write && s.popped == s.pushed[..s.read]
    && (forall k :: s.read <= k < s.last ==> s.cells[k % c.m] == s.pushed[k])
    && (forall t :: 0 <= t < |s.pcs| ==> Knows(c, s, s.pcs[t]))
    && (forall t, u :: 0 <= t < u < |s.pcs| && Holds(s.pcs[t]) && Holds(s.pcs[u]) ==>
          Own(s.pcs[t]) != Own(s.pcs[u]))
  }

  /** Two tickets less than m apart have different cells. */
  lemma CellsApart(m: nat, i: nat, j: nat)
    requires 0 < m && i < j < i + m
    ensures i % m != j % m
  {
    var a, b := i / m, j / m;
    assert i == m * a + i % m && j == m * b + j % m;
    MulGap(m, a, b);
    MulGap(m, b, a);
  }

  /** A full test that failed leaves room for one more. */
  lemma NotFull(c: Config, r: nat, w: nat)
    requires Ring(c) && c.word == 0 && r <= w <= r + c.m - 1 && !Full(c, r, w)
    ensures w <= r + c.m - 2
  {
    if w == r + c.m - 1 {
      assert (r + c.m) % c.m == r % c.m by { ModPlus(r, c.m); }
    }
  }

  /** Steps that change nothing but one thread's position, and perhaps the length. */
  lemma LocalSafe(c: Config, s: State, t: nat, s': State)
    requires Safe(c, s) && t < |s.pcs| == |s'.pcs|
    requires var pc := s'.pcs[t];
      && s' == At(s, t, pc).(length := s'.length) && Knows(c, s, pc)
      && (Pushing(pc) ==> t in c.producers) && (NeedsLone(c) ==> Lone(s'))
      && (Holds(pc) ==> Holds(s.pcs[t]) && Own(pc) == Own(s.pcs[t]))
    ensures Safe(c, s')
  {
    forall u | 0 <= u < |s'.pcs|
      ensures Knows(c, s', s'.pcs[u])
    {
      assert u != t ==> Knows(c, s, s.pcs[u]);
    }
  }

  lemma ReserveSafe(c: Config, s: State, t: nat)
    requires Safe(c, s) && t < |s.pcs| && s.pcs[t].PushCas? && s.pcs[t].w == s.write
    ensures var v := s.pcs[t].v;
      Safe(c, At(s, t, PushStore(v, s.write)).(write := s.write + 1, pushed := s.pushed + [v]))
  {
    var v := s.pcs[t].v;
    var s' := At(s, t, PushStore(v, s.write)).(write := s.write + 1, pushed := s.pushed + [v]);
    forall u | 0 <= u < |s'.pcs|
      ensures Knows(c, s', s'.pcs[u])
    {
      if u != t {
        assert Knows(c, s, s.pcs[u]);
      }
    }
  }

  lemma StoreSafe(c: Config, s: State, t: nat, e: Event)
    requires Safe(c, s) && t < |s.pcs| && s.pcs[t].PushStore?
    ensures Safe(c, Step(c, s, t, e))
  {
    var PushStore(v, own) := s.pcs[t];
    var s' := At(s, t, PushConfirm(v, own, own)).(cells := s.cells[own % c.m := v]);
    assert Knows(c, s, s.pcs[t]);
    forall k | s.read <= k < s.last
      ensures s'.cells[k % c.m] == s.pushed[k]
    {
      CellsApart(c.m, k, own);
    }
    forall u | 0 <= u < |s'.pcs|
      ensures Knows(c, s', s'.pcs[u])
    {
      assert Knows(c, s, s.pcs[u]);
      if u != t && s.pcs[u].PushConfirm? {
        var other := s.pcs[u].own;
        if other < own {
          CellsApart(c.m, other, own);
        } else {
          CellsApart(c.m, own, other);
        }
      }
    }
  }

  lemma ConfirmSafe(c: Config, s: State, t: nat)
    requires Safe(c, s) && t < |s.pcs| && s.pcs[t].PushConfirm? && s.pcs[t].cur == s.last
    ensures Safe(c, At(s, t, PushCount).(last := s.last + 1))
  {
    var s' := At(s, t, PushCount).(last := s.last + 1);
    assert Knows(c, s, s.pcs[t]);
    forall u | 0 <= u < |s'.pcs|
      ensures Knows(c, s', s'.pcs[u])
    {
      if u != t {
        assert Knows(c, s, s.pcs[u]);
      }
    }
  }

  lemma PopSafe(c: Config, s: State, t: nat)
    requires Safe(c, s) && t < |s.pcs| && s.pcs[t].PopCas? && s.pcs[t].r == s.read
    ensures Safe(c, At(s, t, PopCount).(read := s.read + 1, popped := s.popped + [s.pcs[t].v]))
  {
    var s' := At(s, t, PopCount).(read := s.read + 1, popped := s.popped + [s.pcs[t].v]);
    assert Knows(c, s, s.pcs[t]);
    assert s.pushed[..s.read] + [s.pushed[s.read]] == s.pushed[..s.read + 1];
    forall u | 0 <= u < |s'.pcs|
      ensures Knows(c, s', s'.pcs[u])
    {
      if u != t {
        assert Knows(c, s, s.pcs[u]);
      }
    }
  }

  /** Where the confirm loop as written is safe, one ticket at most is held, the next to be
      confirmed. */
  lemma OwnIsLast(c: Config, s: State, t: nat)
    requires Safe(c, s) && Counted(s) && c.confirm.Written? && t < |s.pcs| && Holds(s.pcs[t])
    ensures Own(s.pcs[t]) == s.last
  {
    assert Knows(c, s, s.pcs[t]);
    if NeedsLone(c) {
      assert Holders(s.pcs) == {t};
    }
  }

  lemma TestSafe(c: Config, s: State, t: nat, e: Event)
    requires Safe(c, s) && c.word == 0 && t < |s.pcs| && (s.pcs[t].PushStart? || s.pcs[t].PushRead?)
    requires NeedsLone(c) ==> Lone(Step(c, s, t, e))
    ensures Safe(c, Step(c, s, t, e))
  {
    assert Knows(c, s, s.pcs[t]);
    var r := if s.pcs[t].PushRead? then s.pcs[t].r else s.read;
    if s.write <= r + c.m - 1 && !Full(c, r, s.write) {
      NotFull(c, r, s.write);
    }
    LocalSafe(c, s, t, Step(c, s, t, e));
  }

  lemma CasSafe(c: Config, s: State, t: nat, e: Event)
    requires Safe(c, s) && c.word == 0 && t < |s.pcs| && s.pcs[t].PushCas?
    requires NeedsLone(c) ==> Lone(Step(c, s, t, e))
    ensures Safe(c, Step(c, s, t, e))
  {
    if !e.Spurious? && s.write == s.pcs[t].w {
      ReserveSafe(c, s, t);
    } else {
      LocalSafe(c, s, t, Step(c, s, t, e));
    }
  }

  lemma ConfirmStepSafe(c: Config, s: State, t: nat, e: Event)
    requires Safe(c, s) && Counted(s) && c.word == 0 && t < |s.pcs| && s.pcs[t].PushConfirm?
    requires NeedsLone(c) ==> Lone(Step(c, s, t, e))
    ensures Safe(c, Step(c, s, t, e))
  {
    assert Knows(c, s, s.pcs[t]);
    if !e.Spurious? && s.last == s.pcs[t].cur {
      ConfirmSafe(c, s, t);
    } else {
      if c.confirm.Written? {
        OwnIsLast(c, s, t);
      }
      LocalSafe(c, s, t, Step(c, s, t, e));
    }
  }

  lemma PopStepSafe(c: Config, s: State, t: nat, e: Event)
    requires Safe(c, s) && c.word == 0 && t < |s.pcs| && (!Pushing(s.pcs[t]) || s.pcs[t].PushCount?)
    requires NeedsLone(c) ==> Lone(Step(c, s, t, e))
    ensures Safe(c, Step(c, s, t, e))
  {
    assert Knows(c, s, s.pcs[t]);
    if s.pcs[t].PopCas? && !e.Spurious? && s.read == s.pcs[t].r {
      PopSafe(c, s, t);
    } else {
      LocalSafe(c, s, t, Step(c, s, t, e));
    }
  }

  /** Every step of every thread, whatever the others are doing, keeps the ring safe, unless it
      starts a push beside another where that must not be. */
  lemma StepKeepsSafe(c: Config, s: State, t: nat, e: Event)
    requires Safe(c, s) && Counted(s) && c.word == 0
    requires NeedsLone(c) ==> Lone(Step(c, s, t, e))
    ensures Safe(c, Step(c, s, t, e))
  {
    if t < |s.pcs| {
      hide Safe, Knows, Step, Counted, NeedsLone, Lone;
      match s.pcs[t]
      case PushStart(_) => TestSafe(c, s, t, e);
      case PushRead(_, _) => TestSafe(c, s, t, e);
      case PushCas(_, _, _) => CasSafe(c, s, t, e);
      case PushStore(_, _) => StoreSafe(c, s, t, e);
      case PushConfirm(_, _, _) => ConfirmStepSafe(c, s, t, e);
      case _ => PopStepSafe(c, s, t, e);
    }
  }

  /** Every configuration in which pushes may overlap as they like, or cannot. */
  predicate Settled(c: Config) {
    !NeedsLone(c) || OneProducer(c)
  }

  lemma StepSafe(c: Config, s: State, t: nat, e: Event)
    requires Safe(c, s) && Counted(s) && c.word == 0 && Settled(c)
    ensures Safe(c, Step(c, s, t, e))
  {
    OneProducerLone(c, s, t, e);
    StepKeepsSafe(c, s, t, e);
  }

  lemma OneProducerLone(c: Config, s: State, t: nat, e: Event)
    requires Shaped(c, s) && Roles(c, s) && Settled(c)
    ensures NeedsLone(c) ==> Lone(Step(c, s, t, e))
  {
    var n := Step(c, s, t, e);
    assert forall u :: 0 <= u < |n.pcs| && Busy(n.pcs[u]) ==> u in c.producers;
  }

  lemma {:induction false} RunSafe(c: Config, s: State, sched: seq<(nat, Event)>)
    requires Safe(c, s) && Counted(s) && c.word == 0 && Settled(c)
    ensures Safe(c, Run(c, s, sched)) && Counted(Run(c, s, sched))
    decreases |sched|
  {
    if sched != [] {
      StepSafe(c, s, sched[0].0, sched[0].1);
      StepCounted(c, s, sched[0].0, sched[0].1);
      RunSafe(c, Step(c, s, sched[0].0, sched[0].1), sched[1..]);
    }
  }

  lemma InitSafe(c: Config)
    requires Ring(c)
    ensures Safe(c, Init(c)) && Counted(Init(c))
  {
    var i := Init(c);
    assert Holders(i.pcs) == {} && Adding(i.pcs) == {} && Removing(i.pcs) == {};
  }

  // ---------------------------------------------------------------- refusals

  /** Inside a push that has not yet reserved a slot for its value. */
  predicate Flying(pc: Pc) {
    pc.PushStart? || pc.PushRead? || pc.PushCas?
  }

  function Cargo(pc: Pc): int
    requires Flying(pc)
  {
    pc.v
  }

  predicate Popping(pc: Pc) {
    pc.PopStart? || pc.PopRead? || pc.PopLoad? || pc.PopCas?
  }

  /** The thread is at its test, and the indices it has loaded are those of a full ring. */
  predicate LooksFull(c: Config, s: State, pc: Pc)
    requires Ring(c)
  {
    || (pc.PushRead? && Full(c, pc.r, s.write))
    || (pc.PushStart? && c.test.Repaired? && Full(c, s.read, s.write))
  }

  predicate LooksEmpty(c: Config, s: State, pc: Pc)
    requires Ring(c)
  {
    pc.PopRead? && s.last % c.m == pc.r % c.m
  }

  /** The state before the k-th step of a schedule. */
  function Before(c: Config, s: State, sched: seq<(nat, Event)>, k: nat): (r: State)
    requires Shaped(c, s) && k <= |sched|
    ensures Shaped(c, r)
  {
    Run(c, s, sched[..k])
  }

  lemma {:induction false} BeforeNext(c: Config, s: State, sched: seq<(nat, Event)>, k: nat)
    requires Shaped(c, s) && 0 < k <= |sched|
    ensures var n := Step(c, s, sched[0].0, sched[0].1);
      Shaped(c, n) && Before(c, s, sched, k) == Before(c, n, sched[1..], k - 1)
  {
    assert sched[..k][0] == sched[0] && sched[..k][1..] == sched[1..][..k - 1];
  }

  /** How a thread's push of v comes out at a step: it is given up at a test that looks full, or
      v joins what was pushed. */
  ghost predicate PushDecided(c: Config, a: State, t: nat, e: Event, v: int)
    requires Shaped(c, a) && t < |a.pcs|
  {
    var b := Step(c, a, t, e);
    && Flying(a.pcs[t]) && Cargo(a.pcs[t]) == v
    && if LooksFull(c, a, a.pcs[t]) then b == At(a, t, Idle)
       else b.pushed == a.pushed + [v] && b.pcs[t].PushStore? && b.pcs[t].v == v
  }

  /** Likewise a pop: given up at a test that looks empty, or one more value is popped. */
  ghost predicate PopDecided(c: Config, a: State, t: nat, e: Event)
    requires Shaped(c, a) && t < |a.pcs|
  {
    var b := Step(c, a, t, e);
    && Popping(a.pcs[t])
    && if LooksEmpty(c, a, a.pcs[t]) then b == At(a, t, Idle)
       else a.pcs[t].PopCas? && b.popped == a.popped + [a.pcs[t].v] && b.pcs[t].PopCount?
  }

  predicate Exchanges(pc: Pc) {
    pc.PushCas? || pc.PushConfirm? || pc.PopCas?
  }

  /** Any exchange may fail for no reason; it then changes nothing that is shared, and the thread
      goes on in the same call, with the same value or ticket. */
  lemma SpuriousFails(c: Config, s: State, t: nat)
    requires Shaped(c, s) && t < |s.pcs| && Exchanges(s.pcs[t])
    ensures var n := Step(c, s, t, Spurious);
      var pc, pc' := s.pcs[t], n.pcs[t];
      && n == At(s, t, pc')
      && (pc.PushCas? ==> pc' == PushStart(pc.v))
      && (pc.PopCas? ==> pc' == PopStart)
      && (pc.PushConfirm? ==> pc'.PushConfirm? && pc'.v == pc.v && pc'.own == pc.own)
  {
  }

  /** In every run, with any threads, however often its exchanges fail and for whatever reason: a
      push keeps its value until it is given up at a test that looks full, or the value is in. */
  lemma {:induction false} PushOutcome(c: Config, s: State, t: nat, sched: seq<(nat, Event)>)
    requires Shaped(c, s) && t < |s.pcs| && Flying(s.pcs[t])
    ensures var f := Run(c, s, sched);
      || (Flying(f.pcs[t]) && Cargo(f.pcs[t]) == Cargo(s.pcs[t]))
      || exists k :: 0 <= k < |sched| && sched[k].0 == t
           && PushDecided(c, Before(c, s, sched, k), t, sched[k].1, Cargo(s.pcs[t]))
    decreases |sched|
  {
    if sched != [] {
      var (u, e) := sched[0];
      var n := Step(c, s, u, e);
      if Flying(n.pcs[t]) && Cargo(n.pcs[t]) == Cargo(s.pcs[t]) {
        PushOutcome(c, n, t, sched[1..]);
        if k :| 0 <= k < |sched| - 1 && sched[1..][k].0 == t
                && PushDecided(c, Before(c, n, sched[1..], k), t, sched[1..][k].1, Cargo(s.pcs[t])) {
          BeforeNext(c, s, sched, k + 1);
          assert sched[k + 1] == sched[1..][k];
        }
      } else {
        assert Before(c, s, sched, 0) == s;
        assert u == t && PushDecided(c, s, t, sched[0].1, Cargo(s.pcs[t]));
      }
    }
  }

  /** And a pop goes on until it is given up at a test that looks empty, or has its value. */
  lemma {:induction false} PopOutcome(c: Config, s: State, t: nat, sched: seq<(nat, Event)>)
    requires Shaped(c, s) && t < |s.pcs| && Popping(s.pcs[t])
    ensures var f := Run(c, s, sched);
      || Popping(f.pcs[t])
      || exists k :: 0 <= k < |sched| && sched[k].0 == t
           && PopDecided(c, Before(c, s, sched, k), t, sched[k].1)
    decreases |sched|
  {
    if sched != [] {
      var (u, e) := sched[0];
      var n := Step(c, s, u, e);
      if Popping(n.pcs[t]) {
        PopOutcome(c, n, t, sched[1..]);
        if k :| 0 <= k < |sched| - 1 && sched[1..][k].0 == t
                && PopDecided(c, Before(c, n, sched[1..], k), t, sched[1..][k].1) {
          BeforeNext(c, s, sched, k + 1);
          assert sched[k + 1] == sched[1..][k];
        }
      } else {
        assert Before(c, s, sched, 0) == s;
        assert u == t && PopDecided(c, s, t, sched[0].1);
      }
    }
  }

  /** Throughout a schedule the thread's push, or pop, is not decided yet. */
  ghost predicate StillPushing(c: Config, s: State, t: nat, sched: seq<(nat, Event)>)
    requires Shaped(c, s) && t < |s.pcs|
    decreases |sched|
  {
    Flying(s.pcs[t])
    && (sched == [] || StillPushing(c, Step(c, s, sched[0].0, sched[0].1), t, sched[1..]))
  }

  ghost predicate StillPopping(c: Config, s: State, t: nat, sched: seq<(nat, Event)>)
    requires Shaped(c, s) && t < |s.pcs|
    decreases |sched|
  {
    Popping(s.pcs[t])
    && (sched == [] || StillPopping(c, Step(c, s, sched[0].0, sched[0].1), t, sched[1..]))
  }

  /** No thread but t is popping, or starts to. */
  ghost predicate OnlyPopper(s: State, t: nat, sched: seq<(nat, Event)>) {
    && (forall u :: 0 <= u < |s.pcs| && u != t ==> !Popping(s.pcs[u]))
    && (forall i :: 0 <= i < |sched| ==> !sched[i].1.CallPop?)
  }

  /** At its k-th step the thread loaded r for the read index of a ring that was full. */
  ghost predicate LoadedFull(c: Config, s: State, t: nat, sched: seq<(nat, Event)>, k: nat, r: nat)
    requires Shaped(c, s) && t < |s.pcs|
  {
    k < |sched| && sched[k].0 == t
    && var a := Before(c, s, sched, k);
      a.pcs[t].PushStart? && a.read == r && a.write == r + c.m - 1
  }

  /** A step of the schedule while the only producer is pushing: the write index stands still. */
  lemma ProducerStep(c: Config, s: State, t: nat, u: nat, e: Event)
    requires Safe(c, s) && OneProducer(c) && t in c.producers && t < |s.pcs| && Flying(s.pcs[t])
    requires Flying(Step(c, s, u, e).pcs[t])
    ensures Step(c, s, u, e).write == s.write
    ensures u != t ==> Step(c, s, u, e).pcs[t] == s.pcs[t]
    ensures u == t && s.pcs[t].PushStart? && c.test.Written? ==>
      Step(c, s, u, e).pcs[t] == PushRead(Cargo(s.pcs[t]), s.read)
    ensures Step(c, s, u, e).pcs[t].PushRead? && !s.pcs[t].PushRead? ==> s.pcs[t].PushStart? && u == t
  {
    if u < |s.pcs| && u != t {
      assert !Pushing(s.pcs[u]);
    }
  }

  /** While the only producer is pushing it keeps its value, and the write index stands still. */
  lemma {:induction false} ProducerKeepsWrite(c: Config, s: State, t: nat, sched: seq<(nat, Event)>)
    requires Safe(c, s) && Counted(s) && c.word == 0 && OneProducer(c) && c.test.Written?
    requires t in c.producers && t < |s.pcs| && StillPushing(c, s, t, sched)
    ensures var f := Run(c, s, sched);
      Safe(c, f) && Flying(f.pcs[t]) && Cargo(f.pcs[t]) == Cargo(s.pcs[t]) && f.write == s.write
    decreases |sched|
  {
    if sched != [] {
      hide Safe, Counted, Step;
      var (u, e) := sched[0];
      ProducerStep(c, s, t, u, e);
      StepSafe(c, s, u, e);
      StepCounted(c, s, u, e);
      CargoKept(c, s, t, u, e);
      ProducerKeepsWrite(c, Step(c, s, u, e), t, sched[1..]);
    }
  }

  /** The index it has loaded, if it was that of a full ring, was loaded when the ring was full. */
  lemma {:induction false} FullWhenLoaded(c: Config, s: State, t: nat, sched: seq<(nat, Event)>)
    requires Safe(c, s) && Counted(s) && c.word == 0 && OneProducer(c) && c.test.Written?
    requires t in c.producers && t < |s.pcs| && StillPushing(c, s, t, sched)
    ensures var f := Run(c, s, sched);
      f.pcs[t].PushRead? && s.write == f.pcs[t].r + c.m - 1 && s.pcs[t] != f.pcs[t] ==>
        exists k: nat :: LoadedFull(c, s, t, sched, k, f.pcs[t].r)
    decreases |sched|
  {
    var f := Run(c, s, sched);
    if sched != [] && f.pcs[t].PushRead? && s.write == f.pcs[t].r + c.m - 1 && s.pcs[t] != f.pcs[t] {
      hide Safe, Counted, Step;
      var (u, e) := sched[0];
      var n := Step(c, s, u, e);
      ProducerStep(c, s, t, u, e);
      StepSafe(c, s, u, e);
      StepCounted(c, s, u, e);
      if n.pcs[t] == f.pcs[t] {
        assert Before(c, s, sched, 0) == s;
        assert LoadedFull(c, s, t, sched, 0, f.pcs[t].r);
      } else {
        FullWhenLoaded(c, n, t, sched[1..]);
        var k: nat :| LoadedFull(c, n, t, sched[1..], k, f.pcs[t].r);
        BeforeNext(c, s, sched, k + 1);
        assert LoadedFull(c, s, t, sched, k + 1, f.pcs[t].r);
      }
    }
  }

  lemma {:induction false} LoadedWrite(c: Config, s: State, t: nat, sched: seq<(nat, Event)>, k: nat, r: nat)
    requires Safe(c, s) && Counted(s) && c.word == 0 && OneProducer(c) && c.test.Written?
    requires t in c.producers && t < |s.pcs| && StillPushing(c, s, t, sched)
    requires LoadedFull(c, s, t, sched, k, r)
    ensures s.write == r + c.m - 1
    decreases |sched|
  {
    if k > 0 {
      hide Safe, Counted, Step;
      var (u, e) := sched[0];
      ProducerStep(c, s, t, u, e);
      StepSafe(c, s, u, e);
      StepCounted(c, s, u, e);
      BeforeNext(c, s, sched, k);
      LoadedWrite(c, Step(c, s, u, e), t, sched[1..], k - 1, r);
    } else {
      assert Before(c, s, sched, 0) == s;
    }
  }

  lemma CargoKept(c: Config, s: State, t: nat, u: nat, e: Event)
    requires Shaped(c, s) && t < |s.pcs| && Flying(s.pcs[t]) && Flying(Step(c, s, u, e).pcs[t])
    ensures Cargo(Step(c, s, u, e).pcs[t]) == Cargo(s.pcs[t])
  {
  }

  /** One producer, as written: however many of its exchanges failed before, a push is refused
      exactly when the ring was full at the instant it last loaded its read index, whatever the
      poppers did before the test; otherwise it goes on with its value, or the value is in. */
  lemma RefusedPushWasFull(c: Config, s: State, t: nat, v: int, sched: seq<(nat, Event)>, e: Event)
    requires Safe(c, s) && Counted(s) && c.word == 0 && OneProducer(c) && c.test.Written?
    requires t in c.producers && t < |s.pcs| && s.pcs[t] == PushStart(v) && StillPushing(c, s, t, sched)
    ensures var f := Run(c, s, sched);
      var n := Step(c, f, t, e);
      && (n.pcs[t].Idle? <==>
            f.pcs[t].PushRead? && exists k: nat :: LoadedFull(c, s, t, sched, k, f.pcs[t].r))
      && (!n.pcs[t].Idle? ==>
            || (Flying(n.pcs[t]) && Cargo(n.pcs[t]) == v && n.pushed == f.pushed)
            || (n.pcs[t] == PushStore(v, f.write) && n.pushed == f.pushed + [v]))
  {
    hide Counted, Step, Knows, Roles;
    ProducerKeepsWrite(c, s, t, sched);
    FullWhenLoaded(c, s, t, sched);
    var f := Run(c, s, sched);
    TestOutcome(c, f, t, v, e);
    if k: nat :| f.pcs[t].PushRead? && LoadedFull(c, s, t, sched, k, f.pcs[t].r) {
      LoadedWrite(c, s, t, sched, k, f.pcs[t].r);
    }
  }

  /** One step of a push, in terms of the distance of the indices it compares. */
  lemma TestOutcome(c: Config, s: State, t: nat, v: int, e: Event)
    requires Safe(c, s) && c.word == 0 && c.test.Written?
    requires t < |s.pcs| && Flying(s.pcs[t]) && Cargo(s.pcs[t]) == v
    ensures var n := Step(c, s, t, e);
      && (n.pcs[t].Idle? <==> s.pcs[t].PushRead? && s.write == s.pcs[t].r + c.m - 1)
      && (!n.pcs[t].Idle? ==>
            || (Flying(n.pcs[t]) && Cargo(n.pcs[t]) == v && n.pushed == s.pushed)
            || (n.pcs[t] == PushStore(v, s.write) && n.pushed == s.pushed + [v]))
  {
    assert Knows(c, s, s.pcs[t]);
    if s.pcs[t].PushRead? {
      var r := s.pcs[t].r;
      if s.write == r + c.m - 1 {
        ModPlus(r, c.m);
      } else {
        CellsApart(c.m, r, s.write + 1);
      }
    }
  }

  /** The test repaired, any number of producers: a push is refused exactly when the ring is full
      at the instant of the test. */
  lemma RefusedPushIsFull(c: Config, s: State, t: nat, v: int, e: Event)
    requires Safe(c, s) && c.word == 0 && c.test.Repaired?
    requires t < |s.pcs| && Flying(s.pcs[t]) && Cargo(s.pcs[t]) == v
    ensures var n := Step(c, s, t, e);
      && (n.pcs[t].Idle? <==> s.pcs[t].PushStart? && s.write == s.read + c.m - 1)
      && (!n.pcs[t].Idle? ==>
            || (Flying(n.pcs[t]) && Cargo(n.pcs[t]) == v && n.pushed == s.pushed)
            || (n.pcs[t] == PushStore(v, s.write) && n.pushed == s.pushed + [v]))
  {
    assert Knows(c, s, s.pcs[t]);
    if s.write == s.read + c.m - 1 {
      ModPlus(s.read, c.m);
    } else {
      CellsApart(c.m, s.read, s.write + 1);
    }
  }

  /** The read index a popping thread has loaded. */
  predicate LoadedNow(s: State, pc: Pc) {
    match pc
    case PopRead(r) => r == s.read
    case PopLoad(r) => r == s.read
    case PopCas(r, _) => r == s.read
    case _ => true
  }

  lemma {:induction false} PopperKeepsRead(c: Config, s: State, t: nat, sched: seq<(nat, Event)>)
    requires Safe(c, s) && Counted(s) && c.word == 0 && Settled(c)
    requires t < |s.pcs| && StillPopping(c, s, t, sched) && OnlyPopper(s, t, sched)
    requires LoadedNow(s, s.pcs[t])
    ensures var f := Run(c, s, sched);
      Safe(c, f) && Popping(f.pcs[t]) && LoadedNow(f, f.pcs[t]) && f.read == s.read
    decreases |sched|
  {
    if sched != [] {
      hide Safe, Counted, Step, OnlyPopper;
      var (u, e) := sched[0];
      PopperStep(c, s, t, u, e, sched);
      StepSafe(c, s, u, e);
      StepCounted(c, s, u, e);
      PopperKeepsRead(c, Step(c, s, u, e), t, sched[1..]);
    }
  }

  lemma PopperStep(c: Config, s: State, t: nat, u: nat, e: Event, sched: seq<(nat, Event)>)
    requires Shaped(c, s) && t < |s.pcs| && Popping(s.pcs[t]) && Popping(Step(c, s, u, e).pcs[t])
    requires sched != [] && sched[0] == (u, e) && OnlyPopper(s, t, sched) && LoadedNow(s, s.pcs[t])
    ensures var n := Step(c, s, u, e);
      n.read == s.read && LoadedNow(n, n.pcs[t]) && OnlyPopper(n, t, sched[1..])
  {
    assert !e.CallPop?;
  }

  /** One popper: however many of its exchanges failed before, a pop reports an empty ring exactly
      when, at the instant its last write index was loaded, no confirmed element was left;
      otherwise it goes on, or takes the first element. */
  lemma RefusedPopWasEmpty(c: Config, s: State, t: nat, sched: seq<(nat, Event)>, e: Event)
    requires Safe(c, s) && Counted(s) && c.word == 0 && Settled(c)
    requires t < |s.pcs| && s.pcs[t] == PopStart && StillPopping(c, s, t, sched) && OnlyPopper(s, t, sched)
    ensures var f := Run(c, s, sched);
      var n := Step(c, f, t, e);
      && (n.pcs[t].Idle? <==> f.pcs[t].PopRead? && f.last == f.read)
      && (!n.pcs[t].Idle? ==>
            || (Popping(n.pcs[t]) && n.popped == f.popped)
            || (n.pcs[t].PopCount? && f.read < |f.pushed| && n.popped == f.popped + [f.pushed[f.read]]))
  {
    PopperKeepsRead(c, s, t, sched);
    var f := Run(c, s, sched);
    assert Knows(c, f, f.pcs[t]);
    if f.read < f.last {
      CellsApart(c.m, f.read, f.last);
    }
  }

  // ---------------------------------------------------------------- when it fails

  ghost predicate Reach(c: Config, i: State, s: State)
    requires Shaped(c, i)
  {
    exists sched :: Run(c, i, sched) == s
  }

  lemma {:induction false} RunSnoc(c: Config, s: State, sched: seq<(nat, Event)>, t: nat, e: Event)
    requires Shaped(c, s)
    ensures Run(c, s, sched + [(t, e)]) == Step(c, Run(c, s, sched), t, e)
    decreases |sched|
  {
    if sched == [] {
      assert sched + [(t, e)] == [(t, e)];
      assert Run(c, s, [(t, e)]) == Run(c, Step(c, s, t, e), []);
    } else {
      var all := sched + [(t, e)];
      assert all[0] == sched[0] && all[1..] == sched[1..] + [(t, e)];
      RunSnoc(c, Step(c, s, sched[0].0, sched[0].1), sched[1..], t, e);
    }
  }

  lemma Extend(c: Config, i: State, s: State, t: nat, e: Event) returns (s': State)
    requires Shaped(c, i) && Shaped(c, s) && Reach(c, i, s)
    ensures s' == Step(c, s, t, e) && Shaped(c, s') && Reach(c, i, s')
  {
    var sched :| Run(c, i, sched) == s;
    RunSnoc(c, i, sched, t, e);
    s' := Step(c, s, t, e);
  }

  /** A thread running alone from an idle start, as far as its write index exchange. */
  lemma SoloReserve(c: Config, i: State, s: State, t: nat, v: int) returns (s': State)
    requires Shaped(c, i) && Shaped(c, s) && Reach(c, i, s) && c.word == 0
    requires t < |s.pcs| && t in c.producers && s.pcs[t].Idle? && !Full(c, s.read, s.write)
    ensures Shaped(c, s') && Reach(c, i, s')
    ensures s' == At(s, t, PushStore(v, s.write)).(write := s.write + 1, pushed := s.pushed + [v])
  {
    s' := Extend(c, i, s, t, CallPush(v));
    if c.test.Written? {
      s' := Extend(c, i, s', t, Go);
    }
    s' := Extend(c, i, s', t, Go);
    s' := Extend(c, i, s', t, Go);
  }

  /** The rest of its push, when its ticket is the next to be confirmed. */
  lemma SoloConfirm(c: Config, i: State, s: State, t: nat) returns (s': State)
    requires Shaped(c, i) && Shaped(c, s) && Reach(c, i, s) && c.word == 0
    requires t < |s.pcs| && s.pcs[t].PushStore? && s.pcs[t].own == s.last
    ensures Shaped(c, s') && Reach(c, i, s')
    ensures var PushStore(v, own) := s.pcs[t];
      s' == At(s, t, Idle).(cells := s.cells[own % c.m := v], last := own + 1, length := s.length + 1)
  {
    s' := Extend(c, i, s, t, Go);
    s' := Extend(c, i, s', t, Go);
    s' := Extend(c, i, s', t, Go);
  }

  lemma SoloPop(c: Config, i: State, s: State, t: nat) returns (s': State)
    requires Shaped(c, i) && Shaped(c, s) && Reach(c, i, s) && c.word == 0
    requires t < |s.pcs| && s.pcs[t].Idle? && s.last % c.m != s.read % c.m
    ensures Shaped(c, s') && Reach(c, i, s')
    ensures s' == s.(read := s.read + 1, popped := s.popped + [s.cells[s.read % c.m]], length := s.length - 1)
  {
    s' := Extend(c, i, s, t, CallPop);
    s' := Extend(c, i, s', t, Go);
    s' := Extend(c, i, s', t, Go);
    s' := Extend(c, i, s', t, Go);
    s' := Extend(c, i, s', t, Go);
    s' := Extend(c, i, s', t, Go);
    assert s'.pcs == s.pcs;
  }

  /** The confirm loop as written, two producers, three cells or more, whatever the test for full.
      The second producer's failed exchange overwrites its expected index, so that its next
      attempt confirms the first one's slot, still unwritten. */
  lemma UnwrittenSlotPopped(c: Config, p: nat, q: nat)
    requires 3 <= c.m && c.word == 0 && c.confirm.Written?
    requires p < c.threads && q < c.threads && p != q && p in c.producers && q in c.producers
    ensures exists s :: Reach(c, Init(c), s) && !Fifo(s)
  {
    var i := Init(c);
    assert Run(c, i, []) == i;
    var s := SoloReserve(c, i, i, p, 1);
    s := SoloReserve(c, i, s, q, 2);
    s := Extend(c, i, s, q, Go);
    s := Extend(c, i, s, q, Go);
    assert s.pcs[q] == PushConfirm(2, 1, 0);
    s := Extend(c, i, s, q, Go);
    s := Extend(c, i, s, q, Go);
    assert s.pcs[q].Idle? && s.last == 1 && s.cells[0] == 0;
    s := SoloPop(c, i, s, q);
    assert s.popped[0] == 0 && s.pushed[0] == 1;
  }

  /** k pushes by a thread running alone, all of the same value. */
  lemma {:induction false} SoloFill(c: Config, i: State, s: State, t: nat, v: int, k: nat) returns (s': State)
    requires Shaped(c, i) && Shaped(c, s) && Reach(c, i, s) && c.word == 0
    requires t < |s.pcs| && t in c.producers && s.pcs[t].Idle?
    requires s.last == s.write && s.read <= s.write && s.write + k <= s.read + c.m - 1
    ensures Shaped(c, s') && Reach(c, i, s') && s'.pcs == s.pcs
    ensures s'.read == s.read && s'.popped == s.popped && s'.write == s'.last == s.write + k
    ensures |s'.pushed| == |s.pushed| + k && s'.pushed[..|s.pushed|] == s.pushed
    ensures forall j :: |s.pushed| <= j < |s'.pushed| ==> s'.pushed[j] == v
    decreases k
  {
    s' := s;
    if k > 0 {
      CellsApart(c.m, s.read, s.write + 1);
      s' := SoloReserve(c, i, s, t, v);
      s' := SoloConfirm(c, i, s', t);
      assert s'.pcs == s.pcs;
      var mid := s';
      s' := SoloFill(c, i, mid, t, v, k - 1);
      assert s'.pushed[..|s.pushed|] == s'.pushed[..|mid.pushed|][..|s.pushed|];
      assert s'.pushed[|s.pushed|] == s'.pushed[..|mid.pushed|][|s.pushed|];
    }
  }

  lemma SmallMods(m: nat)
    requires 2 <= m
    ensures 0 % m == 0 && 1 % m == 1 && m % m == 0 && (m + 1) % m == 1
    ensures (m + 2) % m == if m == 2 then 0 else 2
  {
    DivModUnique(m, m, 1, 0);
    DivModUnique(m + 1, m, 1, 1);
    if m == 2 {
      assert 4 % 2 == 0;
    } else {
      DivModUnique(m + 2, m, 1, 2);
    }
  }

  /** The test for full as written, two producers, any number of cells, whatever the confirm loop.
      A read index loaded before the queue moved on lets the second producer into a full queue;
      the queue then looks empty and lets in another, and what was there is overwritten before it
      is read. */
  lemma FullQueueOverrun(c: Config, p: nat, q: nat)
    requires 2 <= c.m && c.word == 0 && c.test.Written?
    requires p < c.threads && q < c.threads && p != q && p in c.producers && q in c.producers
    ensures exists s :: Reach(c, Init(c), s) && !Fifo(s)
  {
    var i := Init(c);
    assert Run(c, i, []) == i;
    SmallMods(c.m);
    var s := Extend(c, i, i, q, CallPush(9));
    s := Extend(c, i, s, q, Go);
    s := SoloReserve(c, i, s, p, 1);
    s := SoloConfirm(c, i, s, p);
    s := SoloPop(c, i, s, p);
    s := SoloFill(c, i, s, p, 2, c.m - 1);
    assert s.pcs[q] == PushRead(9, 0) && s.read == 1 && s.write == s.last == c.m && s.pushed[1] == 2;
    OverrunEnd(c, i, s, p, q);
  }

  lemma OverrunEnd(c: Config, i: State, s: State, p: nat, q: nat)
    requires Shaped(c, i) && Shaped(c, s) && Reach(c, i, s) && 2 <= c.m && c.word == 0
    requires p < |s.pcs| && q < |s.pcs| && p != q && p in c.producers && s.pcs[p].Idle?
    requires s.pcs[q] == PushRead(9, 0) && s.read == 1 && s.write == s.last == c.m
    requires |s.popped| == 1 && 1 < |s.pushed| && s.pushed[1] == 2
    ensures exists n :: Reach(c, i, n) && !Fifo(n)
  {
    SmallMods(c.m);
    var n := Extend(c, i, s, q, Go);
    n := Extend(c, i, n, q, Go);
    assert n.pcs[q] == PushStore(9, c.m) && n.pushed[1] == 2;
    n := SoloConfirm(c, i, n, q);
    n := SoloReserve(c, i, n, p, 3);
    n := SoloConfirm(c, i, n, p);
    assert n.cells[1] == 3 && n.pushed[1] == 2;
    n := SoloPop(c, i, n, p);
    assert n.popped[1] == 3 && n.pushed[1] == 2;
  }

  /** The ring is first-in first-out in every interleaving exactly when at most one thread pushes,
      or the test for full is repaired and with it the confirm loop, unless there are two cells.
      The number of poppers does not matter. Repairing one of the two alone does not help but
      there. */
  lemma FifoExactlyWhen(c: Config)
    requires Ring(c) && c.word == 0 && forall p :: p in c.producers ==> p < c.threads
    ensures AlwaysFifo(c) <==>
      OneProducer(c) || (c.test.Repaired? && (c.confirm.Repaired? || c.m == 2))
  {
    var i := Init(c);
    if Settled(c) {
      InitSafe(c);
      forall sched
        ensures Fifo(Run(c, i, sched))
      {
        RunSafe(c, i, sched);
      }
    } else {
      var p, q :| p in c.producers && q in c.producers && p != q;
      if c.test.Written? {
        FullQueueOverrun(c, p, q);
      } else {
        UnwrittenSlotPopped(c, p, q);
      }
    }
  }

  /** The invariant itself over whole runs: indices in order and less than m apart, confirmed
      cells intact, popped values those of the first tickets. */
  lemma AlwaysSafe(c: Config, sched: seq<(nat, Event)>)
    requires Ring(c) && c.word == 0 && Settled(c)
    ensures var s := Run(c, Init(c), sched);
      && s.read <= s.last <= s.write <= s.read + c.m - 1
      && |s.pushed| == s.write && s.popped == s.pushed[..s.read]
      && forall k :: s.read <= k < s.last ==> s.cells[k % c.m] == s.pushed[k]
  {
    InitSafe(c);
    RunSafe(c, Init(c), sched);
  }
}
