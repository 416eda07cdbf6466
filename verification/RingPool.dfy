/** A memory pool shared by threads: the step machine of the ring queue with the pool's blocks in
    it, taken and given back in every interleaving. A thread gives back only what it holds. */
module RingPool {
  import opened Basics
  import opened RingMachine
  import MemBlock

  /** held has what each thread holds; refused, that some block given back was not accepted;
      wrong, that some thread was handed a block that one held already, or no block at all. */
  datatype Pool = Pool(ring: State, held: seq<set<int>>, refused: bool, wrong: bool)

  /** The numbers from 1 to below n. */
  function Upto(n: nat): (s: set<int>)
    ensures forall x :: x in s <==> 1 <= x < n
    ensures 1 <= n ==> |s| == n - 1
  {
    if n <= 1 then {} else Upto(n - 1) + {n - 1}
  }

  /** One block less than there are cells. */
  function Blocks(c: Config): set<int> {
    Upto(c.m)
  }

  /** The pool as it was filled. */
  function Filled(c: Config): Pool
    requires Ring(c)
  {
    Pool(
      State(0, c.m - 1, c.m - 1, c.m - 1, seq(c.m, i => if i < c.m - 1 then i + 1 else 0),
            seq(c.threads, _ => Idle), seq(c.m - 1, i => i + 1), []),
      seq(c.threads, _ => {}), false, false)
  }

  predicate Formed(c: Config, p: Pool) {
    Shaped(c, p.ring) && |p.held| == c.threads
  }

  predicate HeldBySome(held: seq<set<int>>, v: int) {
    exists u :: 0 <= u < |held| && v in held[u]
  }

  /** A step of a thread, with what it does to the holdings. */
  function Turn(c: Config, p: Pool, t: nat, e: Event): (r: Pool)
    requires Formed(c, p)
    ensures Formed(c, r)
  {
    if c.threads <= t then p
    else
      var pc, n := p.ring.pcs[t], Step(c, p.ring, t, e);
      if pc.Idle? && e.CallPush? then
        if t in c.producers && e.v in p.held[t] then
          p.(ring := n, held := p.held[t := p.held[t] - {e.v}])
        else p
      else if pc.PopCas? && n.pcs[t].PopCount? then
        p.(ring := n, held := p.held[t := p.held[t] + {pc.v}],
           wrong := p.wrong || pc.v !in Blocks(c) || HeldBySome(p.held, pc.v))
      else if (pc.PushStart? || pc.PushRead?) && n.pcs[t].Idle? then
        p.(ring := n, refused := true)
      else p.(ring := n)
  }

  function Turns(c: Config, p: Pool, sched: seq<(nat, Event)>): (r: Pool)
    requires Formed(c, p)
    ensures Formed(c, r)
    decreases |sched|
  {
    if sched == [] then p else Turns(c, Turn(c, p, sched[0].0, sched[0].1), sched[1..])
  }

  /** Nothing given back was refused, and nobody was handed what somebody held, or no block. */
  predicate Good(p: Pool) {
    !p.refused && !p.wrong
  }

  ghost predicate AlwaysGood(c: Config)
    requires Ring(c)
  {
    forall sched :: Good(Turns(c, Filled(c), sched))
  }

  // ---------------------------------------------------------------- who has which block

  /** The blocks in the ring, confirmed or not, in the order of their tickets. */
  function Free(s: State): seq<int>
    requires s.read <= s.write == |s.pushed|
  {
    s.pushed[s.read..s.write]
  }

  /** Every block is in one place only: in the ring, with one holder, or on its way back. */
  ghost predicate Apart(c: Config, s: State, held: seq<set<int>>) {
    && |held| == |s.pcs| && s.read <= s.write == |s.pushed|
    && MemBlock.NoDup(Free(s)) && MemBlock.Elems(Free(s)) <= Blocks(c)
    && (forall t :: 0 <= t < |held| ==> held[t] <= Blocks(c) && held[t] !! MemBlock.Elems(Free(s)))
    && (forall t, u :: 0 <= t < u < |held| ==> held[t] !! held[u])
    && (forall t :: 0 <= t < |held| && Flying(s.pcs[t]) ==>
          Cargo(s.pcs[t]) in Blocks(c) && Cargo(s.pcs[t]) !in Free(s))
    && (forall t, u :: 0 <= t < |held| && 0 <= u < |held| && Flying(s.pcs[t]) ==>
          Cargo(s.pcs[t]) !in held[u])
    && (forall t, u :: 0 <= t < u < |held| && Flying(s.pcs[t]) && Flying(s.pcs[u]) ==>
          Cargo(s.pcs[t]) != Cargo(s.pcs[u]))
    && (forall t :: 0 <= t < |held| && s.pcs[t].PushRead? ==> s.write <= s.pcs[t].r + c.m - 2)
  }

  predicate OnItsWay(s: State, v: int) {
    exists u :: 0 <= u < |s.pcs| && Flying(s.pcs[u]) && Cargo(s.pcs[u]) == v
  }

  /** And no block is lost: each is in the ring, with a holder, or on its way back. */
  ghost predicate Whole(c: Config, s: State, held: seq<set<int>>)
    requires s.read <= s.write == |s.pushed|
  {
    forall v :: v in Blocks(c) ==> v in Free(s) || HeldBySome(held, v) || OnItsWay(s, v)
  }

  ghost predicate Inv(c: Config, p: Pool) {
    && Formed(c, p) && c.word == 0 && Safe(c, p.ring) && Counted(p.ring)
    && Apart(c, p.ring, p.held) && Whole(c, p.ring, p.held) && Good(p)
  }

  /** A block outside the ring leaves room in it. */
  lemma RoomWhile(c: Config, s: State, held: seq<set<int>>, v: int)
    requires Ring(c) && Apart(c, s, held) && v in Blocks(c) && v !in Free(s)
    ensures s.write <= s.read + c.m - 2
  {
    var f := Free(s);
    MemBlock.ElemsSize(f);
    MemBlock.SubsetSize(MemBlock.Elems(f), Blocks(c) - {v});
  }

  /** A thread that is pushing has a block on its way, in the ring or not yet, and nobody holds it. */
  lemma PushingBlock(c: Config, p: Pool, u: nat) returns (b: int)
    requires Inv(c, p) && u < c.threads && Busy(p.ring.pcs[u])
    ensures b in Blocks(c) && forall t :: 0 <= t < |p.held| ==> b !in p.held[t]
  {
    var s := p.ring;
    if Flying(s.pcs[u]) {
      b := Cargo(s.pcs[u]);
    } else {
      assert Knows(c, s, s.pcs[u]);
      b := Free(s)[Own(s.pcs[u]) - s.read];
      assert b in MemBlock.Elems(Free(s));
    }
  }

  /** Nobody else is pushing when there is one block and the thread holds it. */
  lemma LoneHolder(c: Config, p: Pool, t: nat, u: nat, v: int)
    requires Inv(c, p) && c.m == 2 && t < c.threads && u < c.threads && v in p.held[t]
    ensures !Busy(p.ring.pcs[u])
  {
    if Busy(p.ring.pcs[u]) {
      var b := PushingBlock(c, p, u);
      HeldBlocks(c, p, t);
      assert false;
    }
  }

  lemma HeldBlocks(c: Config, p: Pool, t: nat)
    requires Inv(c, p) && t < c.threads
    ensures p.held[t] <= Blocks(c)
  {
  }

  /** Only the start of a push makes a thread busy. */
  lemma StepBusy(c: Config, s: State, t: nat, e: Event)
    requires Shaped(c, s) && t < c.threads
    ensures var n := Step(c, s, t, e);
      && |n.pcs| == |s.pcs| && n.pcs == s.pcs[t := n.pcs[t]]
      && (Busy(n.pcs[t]) ==> Busy(s.pcs[t]) || (s.pcs[t].Idle? && e.CallPush?))
  {
  }

  /** Where pushes must not overlap they do not: one thread pushes, or there is one block. */
  lemma TurnLone(c: Config, p: Pool, t: nat, e: Event)
    requires Inv(c, p) && (Settled(c) || c.m == 2)
    requires t < c.threads && !(p.ring.pcs[t].Idle? && e.CallPush? && e.v !in p.held[t])
    ensures NeedsLone(c) ==> Lone(Step(c, p.ring, t, e))
  {
    InvRoles(c, p);
    if Settled(c) {
      OneProducerLone(c, p.ring, t, e);
    } else {
      hide Inv, Step, Settled, Busy;
      StepBusy(c, p.ring, t, e);
      var n := Step(c, p.ring, t, e);
      if p.ring.pcs[t].Idle? && e.CallPush? {
        forall u | 0 <= u < c.threads
          ensures !Busy(p.ring.pcs[u])
        {
          LoneHolder(c, p, t, u, e.v);
        }
      }
    }
  }

  lemma InvRoles(c: Config, p: Pool)
    requires Inv(c, p)
    ensures Formed(c, p) && Roles(c, p.ring)
  {
  }

  // ---------------------------------------------------------------- every turn keeps it

  /** Steps that leave the ring's blocks and the thread's cargo as they are. */
  lemma LocalApart(c: Config, s: State, held: seq<set<int>>, t: nat, n: State)
    requires Apart(c, s, held) && t < |s.pcs| == |n.pcs| && n.pcs == s.pcs[t := n.pcs[t]]
    requires n.read == s.read && n.write == s.write && n.pushed == s.pushed
    requires Flying(n.pcs[t]) ==> Flying(s.pcs[t]) && Cargo(n.pcs[t]) == Cargo(s.pcs[t])
    requires n.pcs[t].PushRead? ==> n.write <= n.pcs[t].r + c.m - 2
    ensures Apart(c, n, held)
  {
  }

  /** A holder starts to give back a block. */
  lemma CallApart(c: Config, s: State, held: seq<set<int>>, t: nat, v: int)
    requires Apart(c, s, held) && t < |s.pcs| && s.pcs[t].Idle? && v in held[t]
    ensures Apart(c, At(s, t, PushStart(v)), held[t := held[t] - {v}])
  {
    hide MemBlock.NoDup;
    assert v in Blocks(c) && v !in Free(s);
  }

  /** The block goes into the ring as its slot is reserved. */
  lemma ReserveApart(c: Config, s: State, held: seq<set<int>>, t: nat, n: State)
    requires Apart(c, s, held) && t < |s.pcs| == |n.pcs| && s.pcs[t].PushCas?
    requires n.pcs == s.pcs[t := n.pcs[t]] && !Flying(n.pcs[t])
    requires n.read == s.read && n.write == s.write + 1 && n.pushed == s.pushed + [s.pcs[t].v]
    requires forall u :: 0 <= u < |s.pcs| && u != t ==> !s.pcs[u].PushRead?
    ensures Apart(c, n, held)
  {
    hide MemBlock.NoDup;
    var v := s.pcs[t].v;
    assert v == Cargo(s.pcs[t]);
    assert Free(n) == Free(s) + [v];
    MemBlock.HeldMore(Free(s), v);
  }

  /** The first block of the ring goes to the thread that took it. */
  lemma TakeApart(c: Config, s: State, held: seq<set<int>>, t: nat, n: State)
    requires Apart(c, s, held) && t < |s.pcs| == |n.pcs| && !Flying(s.pcs[t]) && s.read < s.write
    requires n.pcs == s.pcs[t := n.pcs[t]] && !Flying(n.pcs[t])
    requires n.read == s.read + 1 && n.write == s.write && n.pushed == s.pushed
    ensures var v := s.pushed[s.read];
      && v in Blocks(c) && (forall u :: 0 <= u < |held| ==> v !in held[u])
      && Apart(c, n, held[t := held[t] + {v}])
  {
    hide MemBlock.NoDup, MemBlock.Elems;
    TakeFree(s, n);
    hide Free;
    var v := s.pushed[s.read];
    forall u | 0 <= u < |held|
      ensures v !in held[u]
    {
      assert held[u] !! MemBlock.Elems(Free(s));
    }
  }

  lemma TakeFree(s: State, n: State)
    requires s.read < s.write == |s.pushed| && MemBlock.NoDup(Free(s))
    requires n.read == s.read + 1 && n.write == s.write && n.pushed == s.pushed
    ensures var v := s.pushed[s.read];
      && v in MemBlock.Elems(Free(s)) && v in Free(s) && v !in MemBlock.Elems(Free(n)) && v !in Free(n)
      && MemBlock.NoDup(Free(n)) && MemBlock.Elems(Free(n)) <= MemBlock.Elems(Free(s))
      && forall x :: x in Free(n) ==> x in Free(s)
  {
    var v, f := s.pushed[s.read], Free(s);
    assert f == [v] + Free(n);
    MemBlock.TakeSettled(f, {}, MemBlock.Elems(f), v, Free(n));
  }

  /** A block on its way back finds room at the test, on whatever read index it is made. */
  lemma RoomAtTest(c: Config, p: Pool, t: nat)
    requires Inv(c, p) && t < c.threads && (p.ring.pcs[t].PushStart? || p.ring.pcs[t].PushRead?)
    ensures var s := p.ring;
      var r := if s.pcs[t].PushRead? then s.pcs[t].r else s.read;
      s.write <= r + c.m - 2 && s.write <= s.read + c.m - 2 && !Full(c, r, s.write)
  {
    hide Counted, Whole, MemBlock.NoDup, MemBlock.Elems, Free;
    var s := p.ring;
    var r := if s.pcs[t].PushRead? then s.pcs[t].r else s.read;
    assert Knows(c, s, s.pcs[t]);
    RoomWhile(c, s, p.held, Cargo(s.pcs[t]));
    CellsApart(c.m, r, s.write + 1);
  }

  lemma TestKeeps(c: Config, p: Pool, t: nat, e: Event)
    requires Inv(c, p) && t < c.threads && (p.ring.pcs[t].PushStart? || p.ring.pcs[t].PushRead?)
    ensures !Step(c, p.ring, t, e).pcs[t].Idle?
    ensures Apart(c, Step(c, p.ring, t, e), p.held)
  {
    hide Counted, Safe, Whole, Apart, Full;
    RoomAtTest(c, p, t);
    ApartShape(c, p.ring, p.held);
    LocalApart(c, p.ring, p.held, t, Step(c, p.ring, t, e));
  }

  lemma CasKeeps(c: Config, p: Pool, t: nat, e: Event)
    requires Inv(c, p) && t < c.threads && p.ring.pcs[t].PushCas?
    ensures Apart(c, Step(c, p.ring, t, e), p.held)
  {
    var s := p.ring;
    var n := Step(c, s, t, e);
    if !e.Spurious? && s.write == s.pcs[t].w {
      forall u | 0 <= u < |s.pcs| && u != t
        ensures !s.pcs[u].PushRead?
      {
        assert Knows(c, s, s.pcs[u]);
        assert Busy(s.pcs[t]);
      }
      ReserveApart(c, s, p.held, t, n);
    } else {
      LocalApart(c, s, p.held, t, n);
    }
  }

  lemma PopKeeps(c: Config, p: Pool, t: nat, e: Event)
    requires Inv(c, p) && t < c.threads && p.ring.pcs[t].PopCas?
    ensures var q := Turn(c, p, t, e); Apart(c, q.ring, q.held) && Good(q)
  {
    var s := p.ring;
    var n := Step(c, s, t, e);
    assert Knows(c, s, s.pcs[t]);
    if !e.Spurious? && s.read == s.pcs[t].r {
      TakeApart(c, s, p.held, t, n);
    } else {
      LocalApart(c, s, p.held, t, n);
    }
  }

  // ---------------------------------------------------------------- and loses no block

  /** Steps that leave the ring's blocks and the thread's cargo as they are. */
  lemma LocalWhole(c: Config, s: State, held: seq<set<int>>, t: nat, n: State)
    requires s.read <= s.write == |s.pushed| && Whole(c, s, held)
    requires t < |s.pcs| == |n.pcs| && n.pcs == s.pcs[t := n.pcs[t]]
    requires n.read == s.read && n.write == s.write && n.pushed == s.pushed
    requires Flying(s.pcs[t]) ==> Flying(n.pcs[t]) && Cargo(n.pcs[t]) == Cargo(s.pcs[t])
    ensures Whole(c, n, held)
  {
    forall v | OnItsWay(s, v)
      ensures OnItsWay(n, v)
    {
      var u :| 0 <= u < |s.pcs| && Flying(s.pcs[u]) && Cargo(s.pcs[u]) == v;
      assert Flying(n.pcs[u]) && Cargo(n.pcs[u]) == v;
    }
  }

  lemma CallWhole(c: Config, s: State, held: seq<set<int>>, t: nat, v: int)
    requires s.read <= s.write == |s.pushed| && Whole(c, s, held)
    requires t < |s.pcs| == |held| && s.pcs[t].Idle?
    ensures Whole(c, At(s, t, PushStart(v)), held[t := held[t] - {v}])
  {
    var n, now := At(s, t, PushStart(v)), held[t := held[t] - {v}];
    forall x | HeldBySome(held, x) || OnItsWay(s, x)
      ensures HeldBySome(now, x) || OnItsWay(n, x)
    {
      if x == v {
        assert Flying(n.pcs[t]) && Cargo(n.pcs[t]) == v;
      } else if HeldBySome(held, x) {
        var u :| 0 <= u < |held| && x in held[u];
        assert x in now[u];
      } else {
        var u :| 0 <= u < |s.pcs| && Flying(s.pcs[u]) && Cargo(s.pcs[u]) == x;
        assert Flying(n.pcs[u]) && Cargo(n.pcs[u]) == x;
      }
    }
  }

  lemma ReserveWhole(c: Config, s: State, held: seq<set<int>>, t: nat, n: State)
    requires s.read <= s.write == |s.pushed| && Whole(c, s, held)
    requires t < |s.pcs| == |n.pcs| && s.pcs[t].PushCas? && n.pcs == s.pcs[t := n.pcs[t]]
    requires n.read == s.read && n.write == s.write + 1 && n.pushed == s.pushed + [s.pcs[t].v]
    ensures Whole(c, n, held)
  {
    assert Free(n) == Free(s) + [s.pcs[t].v];
    forall v | OnItsWay(s, v)
      ensures v in Free(n) || OnItsWay(n, v)
    {
      var u :| 0 <= u < |s.pcs| && Flying(s.pcs[u]) && Cargo(s.pcs[u]) == v;
      if u == t {
        assert v == s.pcs[t].v;
      } else {
        assert Flying(n.pcs[u]) && Cargo(n.pcs[u]) == v;
      }
    }
  }

  lemma TakeWhole(c: Config, s: State, held: seq<set<int>>, t: nat, n: State)
    requires s.read < s.write == |s.pushed| && Whole(c, s, held)
    requires t < |s.pcs| == |n.pcs| == |held| && n.pcs == s.pcs[t := n.pcs[t]] && !Flying(s.pcs[t])
    requires n.read == s.read + 1 && n.write == s.write && n.pushed == s.pushed
    ensures Whole(c, n, held[t := held[t] + {s.pushed[s.read]}])
  {
    var b, now := s.pushed[s.read], held[t := held[t] + {s.pushed[s.read]}];
    assert Free(s) == [b] + Free(n);
    assert b in now[t];
    forall v | HeldBySome(held, v)
      ensures HeldBySome(now, v)
    {
      var u :| 0 <= u < |held| && v in held[u];
      assert v in now[u];
    }
    forall v | OnItsWay(s, v)
      ensures OnItsWay(n, v)
    {
      var u :| 0 <= u < |s.pcs| && Flying(s.pcs[u]) && Cargo(s.pcs[u]) == v;
      assert Flying(n.pcs[u]) && Cargo(n.pcs[u]) == v;
    }
  }

  lemma PopWhole(c: Config, p: Pool, t: nat, e: Event)
    requires Inv(c, p) && t < c.threads && p.ring.pcs[t].PopCas?
    ensures var q := Turn(c, p, t, e);
      q.ring.read <= q.ring.write == |q.ring.pushed| ==> Whole(c, q.ring, q.held)
  {
    hide Whole, Counted, MemBlock.NoDup, MemBlock.Elems, Free;
    var s := p.ring;
    assert Knows(c, s, s.pcs[t]);
    if !e.Spurious? && s.read == s.pcs[t].r {
      TakeWhole(c, s, p.held, t, Step(c, s, t, e));
    } else {
      LocalWhole(c, s, p.held, t, Step(c, s, t, e));
    }
  }

  lemma TurnWhole(c: Config, p: Pool, t: nat, e: Event)
    requires Inv(c, p) && t < c.threads
    ensures var q := Turn(c, p, t, e);
      q.ring.read <= q.ring.write == |q.ring.pushed| ==> Whole(c, q.ring, q.held)
  {
    hide Whole, Counted, Safe, Apart, Free;
    var s := p.ring;
    ApartShape(c, s, p.held);
    if s.pcs[t].PopCas? {
      PopWhole(c, p, t, e);
    } else if s.pcs[t].PushStart? || s.pcs[t].PushRead? {
      TestKeeps(c, p, t, e);
      LocalWhole(c, s, p.held, t, Step(c, s, t, e));
    } else {
      OtherWhole(c, p, t, e);
    }
  }

  lemma OtherWhole(c: Config, p: Pool, t: nat, e: Event)
    requires Inv(c, p) && t < c.threads
    requires !p.ring.pcs[t].PopCas? && !p.ring.pcs[t].PushStart? && !p.ring.pcs[t].PushRead?
    ensures var q := Turn(c, p, t, e);
      q.ring.read <= q.ring.write == |q.ring.pushed| ==> Whole(c, q.ring, q.held)
  {
    hide Whole, Counted, Safe, Apart, Free;
    var s := p.ring;
    ApartShape(c, s, p.held);
    if s.pcs[t].Idle? && e.CallPush? && t in c.producers && e.v in p.held[t] {
      CallWhole(c, s, p.held, t, e.v);
    } else if s.pcs[t].PushCas? && !e.Spurious? && s.write == s.pcs[t].w {
      ReserveWhole(c, s, p.held, t, Turn(c, p, t, e).ring);
    } else {
      LocalWhole(c, s, p.held, t, Turn(c, p, t, e).ring);
    }
  }

  lemma TurnKeeps(c: Config, p: Pool, t: nat, e: Event)
    requires Inv(c, p) && (Settled(c) || c.m == 2)
    ensures Inv(c, Turn(c, p, t, e))
  {
    if t < c.threads && !(p.ring.pcs[t].Idle? && e.CallPush? && e.v !in p.held[t]) {
      hide Safe, Counted, Apart, Whole, Knows;
      TurnLone(c, p, t, e);
      StepKeepsSafe(c, p.ring, t, e);
      StepCounted(c, p.ring, t, e);
      TurnApart(c, p, t, e);
      TurnWhole(c, p, t, e);
      ApartShape(c, Turn(c, p, t, e).ring, Turn(c, p, t, e).held);
    }
  }

  lemma TurnApart(c: Config, p: Pool, t: nat, e: Event)
    requires Inv(c, p) && t < c.threads
    ensures var q := Turn(c, p, t, e); Apart(c, q.ring, q.held) && Good(q)
  {
    var s := p.ring;
    match s.pcs[t]
    case PushStart(_) => TestKeeps(c, p, t, e);
    case PushRead(_, _) => TestKeeps(c, p, t, e);
    case PushCas(_, _, _) => CasKeeps(c, p, t, e);
    case PopCas(_, _) => PopKeeps(c, p, t, e);
    case _ => OtherKeeps(c, p, t, e);
  }

  lemma OtherKeeps(c: Config, p: Pool, t: nat, e: Event)
    requires Inv(c, p) && t < c.threads && !Flying(p.ring.pcs[t]) && !p.ring.pcs[t].PopCas?
    ensures var q := Turn(c, p, t, e); Apart(c, q.ring, q.held) && Good(q)
  {
    hide Apart, Safe, Counted;
    var s := p.ring;
    ApartShape(c, s, p.held);
    if s.pcs[t].Idle? && e.CallPush? && t in c.producers && e.v in p.held[t] {
      CallApart(c, s, p.held, t, e.v);
    } else {
      LocalApart(c, s, p.held, t, Turn(c, p, t, e).ring);
    }
  }

  lemma ApartShape(c: Config, s: State, held: seq<set<int>>)
    requires Apart(c, s, held)
    ensures |held| == |s.pcs| && s.read <= s.write == |s.pushed|
  {
  }

  lemma FilledInv(c: Config)
    requires Ring(c) && c.word == 0
    ensures Inv(c, Filled(c))
  {
    hide Safe, Counted, Apart, Whole;
    FilledSafe(c);
    FilledApart(c);
    FilledWhole(c);
    ApartShape(c, Filled(c).ring, Filled(c).held);
  }

  lemma FilledSafe(c: Config)
    requires Ring(c) && c.word == 0
    ensures Safe(c, Filled(c).ring) && Counted(Filled(c).ring)
  {
    var s := Filled(c).ring;
    assert Holders(s.pcs) == {} && Adding(s.pcs) == {} && Removing(s.pcs) == {};
    forall k | s.read <= k < s.last
      ensures s.cells[k % c.m] == s.pushed[k]
    {
      DivModUnique(k, c.m, 0, k);
    }
  }

  lemma FilledApart(c: Config)
    requires Ring(c)
    ensures Apart(c, Filled(c).ring, Filled(c).held)
  {
    var s := Filled(c).ring;
    assert Free(s) == s.pushed;
  }

  lemma FilledWhole(c: Config)
    requires Ring(c)
    ensures Whole(c, Filled(c).ring, Filled(c).held)
  {
    hide HeldBySome, OnItsWay;
    var s := Filled(c).ring;
    assert Free(s) == s.pushed;
    forall v | v in Blocks(c)
      ensures v in Free(s)
    {
      assert s.pushed[v - 1] == v;
    }
  }

  lemma {:induction false} TurnsKeep(c: Config, p: Pool, sched: seq<(nat, Event)>)
    requires Inv(c, p) && (Settled(c) || c.m == 2)
    ensures Inv(c, Turns(c, p, sched))
    decreases |sched|
  {
    if sched != [] {
      hide Inv, Turn;
      TurnKeeps(c, p, sched[0].0, sched[0].1);
      InvFormed(c, p);
      InvFormed(c, Turn(c, p, sched[0].0, sched[0].1));
      TurnsKeep(c, Turn(c, p, sched[0].0, sched[0].1), sched[1..]);
    }
  }

  lemma InvFormed(c: Config, p: Pool)
    requires Inv(c, p)
    ensures Formed(c, p)
  {
  }

  // ---------------------------------------------------------------- when it fails

  ghost predicate Reaches(c: Config, i: Pool, p: Pool)
    requires Formed(c, i)
  {
    exists sched :: Turns(c, i, sched) == p
  }

  lemma {:induction false} TurnsSnoc(c: Config, p: Pool, sched: seq<(nat, Event)>, t: nat, e: Event)
    requires Formed(c, p)
    ensures Turns(c, p, sched + [(t, e)]) == Turn(c, Turns(c, p, sched), t, e)
    decreases |sched|
  {
    hide Turn;
    if sched == [] {
      assert sched + [(t, e)] == [(t, e)];
      assert Turns(c, p, [(t, e)]) == Turns(c, Turn(c, p, t, e), []);
    } else {
      var all := sched + [(t, e)];
      assert all[0] == sched[0] && all[1..] == sched[1..] + [(t, e)];
      TurnsSnoc(c, Turn(c, p, sched[0].0, sched[0].1), sched[1..], t, e);
    }
  }

  lemma Go1(c: Config, i: Pool, p: Pool, t: nat, e: Event) returns (n: Pool)
    requires Formed(c, i) && Formed(c, p) && Reaches(c, i, p)
    ensures n == Turn(c, p, t, e) && Formed(c, n) && Reaches(c, i, n)
  {
    hide Turn;
    var sched :| Turns(c, i, sched) == p;
    TurnsSnoc(c, i, sched, t, e);
    n := Turn(c, p, t, e);
  }

  /** Turns that leave the holdings alone. */
  lemma QuietTurn(c: Config, p: Pool, t: nat, e: Event)
    requires Formed(c, p) && t < c.threads
    requires var pc, n := p.ring.pcs[t], Step(c, p.ring, t, e);
      !(pc.Idle? && e.CallPush?) && !(pc.PopCas? && n.pcs[t].PopCount?)
      && !((pc.PushStart? || pc.PushRead?) && n.pcs[t].Idle?)
    ensures Turn(c, p, t, e) == p.(ring := Step(c, p.ring, t, e))
  {
  }

  lemma TakeTurn(c: Config, p: Pool, t: nat)
    requires Formed(c, p) && t < c.threads && p.ring.pcs[t].PopCas? && p.ring.read == p.ring.pcs[t].r
    ensures var v := p.ring.pcs[t].v;
      Turn(c, p, t, Go) == p.(ring := Step(c, p.ring, t, Go), held := p.held[t := p.held[t] + {v}],
                              wrong := p.wrong || v !in Blocks(c) || HeldBySome(p.held, v))
  {
  }

  lemma CallTurn(c: Config, p: Pool, t: nat, v: int)
    requires Formed(c, p) && t < c.threads && t in c.producers && p.ring.pcs[t].Idle? && v in p.held[t]
    ensures Turn(c, p, t, CallPush(v)) ==
      p.(ring := At(p.ring, t, PushStart(v)), held := p.held[t := p.held[t] - {v}])
  {
  }

  /** One step of a thread that leaves the holdings alone. */
  lemma Quiet1(c: Config, i: Pool, p: Pool, t: nat, e: Event) returns (n: Pool)
    requires Formed(c, i) && Formed(c, p) && Reaches(c, i, p) && t < c.threads
    requires var pc, n := p.ring.pcs[t], Step(c, p.ring, t, e);
      !(pc.Idle? && e.CallPush?) && !(pc.PopCas? && n.pcs[t].PopCount?)
      && !((pc.PushStart? || pc.PushRead?) && n.pcs[t].Idle?)
    ensures n == p.(ring := Step(c, p.ring, t, e)) && Formed(c, n) && Reaches(c, i, n)
  {
    hide Turn;
    QuietTurn(c, p, t, e);
    n := Go1(c, i, p, t, e);
  }

  lemma SoloLook(c: Config, i: Pool, p: Pool, t: nat) returns (n: Pool)
    requires Formed(c, i) && Formed(c, p) && Reaches(c, i, p) && c.word == 0
    requires t < c.threads && p.ring.pcs[t].Idle? && p.ring.last % c.m != p.ring.read % c.m
    ensures Formed(c, n) && Reaches(c, i, n)
    ensures var s := p.ring; n == p.(ring := At(s, t, PopCas(s.read, s.cells[s.read % c.m])))
  {
    hide Turn, Reaches;
    n := Quiet1(c, i, p, t, CallPop);
    n := Quiet1(c, i, n, t, Go);
    n := Quiet1(c, i, n, t, Go);
    n := Quiet1(c, i, n, t, Go);
  }

  /** A thread running alone takes the first block, or what the machine takes for one. */
  lemma SoloTake(c: Config, i: Pool, p: Pool, t: nat) returns (n: Pool)
    requires Formed(c, i) && Formed(c, p) && Reaches(c, i, p) && c.word == 0
    requires t < c.threads && p.ring.pcs[t].Idle? && p.ring.last % c.m != p.ring.read % c.m
    ensures Formed(c, n) && Reaches(c, i, n)
    ensures var s, v := p.ring, p.ring.cells[p.ring.read % c.m];
      && n.ring == s.(read := s.read + 1, popped := s.popped + [v], length := s.length - 1)
      && n.held == p.held[t := p.held[t] + {v}]
      && n.wrong == (p.wrong || v !in Blocks(c) || HeldBySome(p.held, v))
  {
    hide Turn, HeldBySome, Reaches;
    n := SoloLook(c, i, p, t);
    TakeTurn(c, n, t);
    n := Go1(c, i, n, t, Go);
    n := Quiet1(c, i, n, t, Go);
    assert n.ring.pcs == p.ring.pcs;
  }

  /** A thread running alone gives back a block it holds, as far as its write index exchange. */
  lemma SoloGive(c: Config, i: Pool, p: Pool, t: nat, v: int) returns (n: Pool)
    requires Formed(c, i) && Formed(c, p) && Reaches(c, i, p) && c.word == 0
    requires t < c.threads && t in c.producers && p.ring.pcs[t].Idle? && v in p.held[t]
    requires !Full(c, p.ring.read, p.ring.write)
    ensures Formed(c, n) && Reaches(c, i, n)
    ensures var s := p.ring;
      && n.ring == At(s, t, PushStore(v, s.write)).(write := s.write + 1, pushed := s.pushed + [v])
      && n.held == p.held[t := p.held[t] - {v}] && n.wrong == p.wrong
  {
    hide Turn, Reaches, Full;
    CallTurn(c, p, t, v);
    n := Go1(c, i, p, t, CallPush(v));
    if c.test.Written? {
      n := Quiet1(c, i, n, t, Go);
    }
    n := Quiet1(c, i, n, t, Go);
    n := Quiet1(c, i, n, t, Go);
  }

  lemma SoloDone(c: Config, i: Pool, p: Pool, t: nat) returns (n: Pool)
    requires Formed(c, i) && Formed(c, p) && Reaches(c, i, p) && c.word == 0
    requires t < c.threads && p.ring.pcs[t].PushStore? && p.ring.pcs[t].own == p.ring.last
    ensures Formed(c, n) && Reaches(c, i, n)
    ensures var s := p.ring; var PushStore(v, own) := s.pcs[t];
      && n.ring == At(s, t, Idle).(cells := s.cells[own % c.m := v], last := own + 1, length := s.length + 1)
      && n.held == p.held && n.wrong == p.wrong
  {
    hide Turn, Reaches;
    n := Quiet1(c, i, p, t, Go);
    n := Quiet1(c, i, n, t, Go);
    n := Quiet1(c, i, n, t, Go);
  }

  /** k takes by a thread running alone. */
  lemma {:induction false} SoloDrain(c: Config, i: Pool, p: Pool, t: nat, k: nat) returns (n: Pool)
    requires Formed(c, i) && Formed(c, p) && Reaches(c, i, p) && c.word == 0
    requires t < c.threads && p.ring.pcs[t].Idle?
    requires p.ring.last == c.m && 1 <= p.ring.read && p.ring.read + k <= c.m - 1
    ensures Formed(c, n) && Reaches(c, i, n)
    ensures n.ring.read == p.ring.read + k && n.ring.last == p.ring.last && n.ring.cells == p.ring.cells
    ensures n.ring.pcs == p.ring.pcs
    decreases k
  {
    n := p;
    if k > 0 {
      SmallMods(c.m);
      DivModUnique(p.ring.read, c.m, 0, p.ring.read);
      n := SoloTake(c, i, p, t);
      n := SoloDrain(c, i, n, t, k - 1);
    }
  }

  lemma FilledReached(c: Config)
    requires Ring(c)
    ensures Formed(c, Filled(c)) && Reaches(c, Filled(c), Filled(c))
  {
    assert Turns(c, Filled(c), []) == Filled(c);
  }

  /** The first two threads take the first two blocks. */
  lemma TwoTaken(c: Config, p: nat, q: nat) returns (n: Pool)
    requires 3 <= c.m && c.word == 0 && p < c.threads && q < c.threads && p != q
    ensures Formed(c, Filled(c)) && Formed(c, n) && Reaches(c, Filled(c), n)
    ensures var s := Filled(c).ring;
      && n.ring == s.(read := 2, popped := [1, 2], length := s.length - 2)
      && n.held[p] == {1} && n.held[q] == {2}
  {
    hide Turn, Turns, Reaches, HeldBySome;
    FilledReached(c);
    var i := Filled(c);
    DivModUnique(c.m - 1, c.m, 0, c.m - 1);
    SmallMods(c.m);
    n := SoloTake(c, i, i, p);
    n := SoloTake(c, i, n, q);
    assert [] + [1] + [2] == [1, 2];
  }

  /** The confirm loop as written, two threads that free, two blocks or more: a thread is handed
      the contents of a cell that was never written. */
  lemma NoBlockTaken(c: Config, p: nat, q: nat)
    requires 3 <= c.m && c.word == 0 && c.confirm.Written?
    requires p < c.threads && q < c.threads && p != q && p in c.producers && q in c.producers
    ensures exists n :: Reaches(c, Filled(c), n) && !Good(n)
  {
    var i := Filled(c);
    var n := TwoTaken(c, p, q);
    SmallMods(c.m);
    DivModUnique(2, c.m, 0, 2);
    DivModUnique(c.m - 1, c.m, 0, c.m - 1);
    hide Turn, Reaches, Filled, HeldBySome;
    n := SoloGive(c, i, n, p, 1);
    n := SoloGive(c, i, n, q, 2);
    n := WrongConfirm(c, i, n, q);
    n := SoloDrain(c, i, n, q, c.m - 3);
    n := SoloTake(c, i, n, q);
    assert n.wrong;
  }

  /** The first ticket is not yet written when the holder of the second confirms it. */
  lemma WrongConfirm(c: Config, i: Pool, p: Pool, q: nat) returns (n: Pool)
    requires Formed(c, i) && Formed(c, p) && Reaches(c, i, p) && c.word == 0 && c.confirm.Written?
    requires 3 <= c.m && q < c.threads && p.ring.pcs[q] == PushStore(2, c.m) && p.ring.last == c.m - 1
    requires p.ring.cells[c.m - 1] == 0
    ensures Formed(c, n) && Reaches(c, i, n)
    ensures n.ring.pcs[q].Idle? && n.ring.last == c.m && n.ring.read == p.ring.read
    ensures n.ring.cells[c.m - 1] == 0
  {
    hide Turn, Reaches;
    SmallMods(c.m);
    n := Quiet1(c, i, p, q, Go);
    n := Quiet1(c, i, n, q, Go);
    assert n.ring.pcs[q] == PushConfirm(2, c.m, c.m - 1);
    n := Quiet1(c, i, n, q, Go);
    n := Quiet1(c, i, n, q, Go);
  }

  /** The test for full as written, two threads that free, two blocks or more: a read index loaded
      before the other thread took and gave back makes the ring look full, and a block is refused
      for which there is room. */
  lemma FreeRefused(c: Config, p: nat, q: nat)
    requires 3 <= c.m && c.word == 0 && c.test.Written?
    requires p < c.threads && q < c.threads && p != q && p in c.producers && q in c.producers
    ensures exists n :: Reaches(c, Filled(c), n) && !Good(n)
  {
    hide Turn, Turns, Reaches, HeldBySome;
    var i := Filled(c);
    var n := StartsToFree(c, p, q);
    hide Filled;
    DivModUnique(2, c.m, 0, 2);
    SmallMods(c.m);
    n := SoloTake(c, i, n, q);
    n := SoloGive(c, i, n, q, 2);
    n := SoloDone(c, i, n, q);
    assert n.ring.pcs[p] == PushRead(1, 1) && n.ring.write == c.m;
    RefusedTurn(c, n, p);
    n := Go1(c, i, n, p, Go);
  }

  /** The first thread takes a block and loads the read index to give it back. */
  lemma StartsToFree(c: Config, p: nat, q: nat) returns (n: Pool)
    requires 3 <= c.m && c.word == 0 && c.test.Written?
    requires p < c.threads && q < c.threads && p != q && p in c.producers
    ensures Formed(c, Filled(c)) && Formed(c, n) && Reaches(c, Filled(c), n)
    ensures var s := n.ring;
      && s.pcs[p] == PushRead(1, 1) && s.pcs[q].Idle? && n.held[q] == {}
      && s.read == 1 && s.write == s.last == c.m - 1 && s.cells[1] == 2
  {
    hide Turn, Turns, Reaches, HeldBySome;
    FilledReached(c);
    var i := Filled(c);
    DivModUnique(c.m - 1, c.m, 0, c.m - 1);
    SmallMods(c.m);
    n := SoloTake(c, i, i, p);
    CallTurn(c, n, p, 1);
    n := Go1(c, i, n, p, CallPush(1));
    n := Quiet1(c, i, n, p, Go);
  }

  lemma RefusedTurn(c: Config, p: Pool, t: nat)
    requires Formed(c, p) && t < c.threads && (p.ring.pcs[t].PushStart? || p.ring.pcs[t].PushRead?)
    requires Step(c, p.ring, t, Go).pcs[t].Idle?
    ensures !Good(Turn(c, p, t, Go))
  {
  }

  /** In every interleaving no block is handed out while it is held and none given back is refused,
      exactly when one thread frees, or there is one block, or both the confirm loop and the test
      for full are repaired. How many threads take does not matter. */
  lemma PoolExactlyWhen(c: Config)
    requires Ring(c) && c.word == 0 && forall p :: p in c.producers ==> p < c.threads
    ensures AlwaysGood(c) <==>
      OneProducer(c) || c.m == 2 || (c.test.Repaired? && c.confirm.Repaired?)
  {
    if Settled(c) || c.m == 2 {
      FilledInv(c);
      forall sched
        ensures Good(Turns(c, Filled(c), sched))
      {
        TurnsKeep(c, Filled(c), sched);
      }
    } else {
      var p, q :| p in c.producers && q in c.producers && p != q;
      if c.test.Written? {
        FreeRefused(c, p, q);
      } else {
        NoBlockTaken(c, p, q);
      }
    }
  }

  /** And then every block is in exactly one place at every moment: in the ring, with one thread,
      or being given back by one. */
  lemma AlwaysApart(c: Config, sched: seq<(nat, Event)>)
    requires Ring(c) && c.word == 0
    requires OneProducer(c) || c.m == 2 || (c.test.Repaired? && c.confirm.Repaired?)
    ensures var p := Turns(c, Filled(c), sched);
      Apart(c, p.ring, p.held) && Whole(c, p.ring, p.held)
  {
    FilledInv(c);
    TurnsKeep(c, Filled(c), sched);
  }
}
