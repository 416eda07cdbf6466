/** Timers kept in an ordered set whose sort key is a field of its elements. First the operations
    on values and what every run of them keeps; then the classes, which work in place on the set
    and on the fields of its elements. The clock is an input of every operation. */
module Timers {
  import opened Basics

  const HOUR: int := 60 * 60 * 1000

  /** m_next, m_ms, m_recurring and m_cb; a null callback is None. */
  datatype Fields = Fields(next: nat, ms: nat, recurring: bool, cb: Option<int>)

  /** tab has the fields of every timer made so far, order the set of timers in its order. */
  datatype State = State(tab: map<Timer, Fields>, order: seq<Timer>, tickled: bool, previous: nat)

  /** Unsigned 64-bit arithmetic on times. */
  function Word(x: int): (w: nat)
    ensures w < TWO_64
    ensures 0 <= x < TWO_64 ==> w == x
  {
    x % TWO_64
  }

  lemma WordIs(x: int)
    ensures Word(x) == x % 0x1_0000_0000_0000_0000
  {
  }

  // ---------------------------------------------------------------- the ordered set

  predicate Known(s: State) {
    forall t :: t in s.order ==> t in s.tab
  }

  /** The comparator: by deadline, then by address. */
  predicate Less(tab: map<Timer, Fields>, a: Timer, b: Timer)
    requires a in tab && b in tab
  {
    tab[a].next < tab[b].next || (tab[a].next == tab[b].next && a.address < b.address)
  }

  /** The set is strictly ordered by the comparator, on the current deadlines, and holds no two
      timers at one address. */
  ghost predicate Ordered(tab: map<Timer, Fields>, order: seq<Timer>) {
    && (forall t :: t in order ==> t in tab)
    && (forall i, j :: 0 <= i < j < |order| ==> Less(tab, order[i], order[j]))
    && (forall i, j :: 0 <= i < j < |order| ==> order[i].address != order[j].address)
  }

  /** No other timer in the set lives at the address of t. */
  ghost predicate Alone(order: seq<Timer>, t: Timer) {
    forall u :: u in order && u.address == t.address ==> u == t
  }

  /** How many leading timers come before t. */
  function Place(tab: map<Timer, Fields>, order: seq<Timer>, t: Timer): (p: nat)
    requires t in tab && forall u :: u in order ==> u in tab
    ensures p <= |order|
    ensures forall i :: 0 <= i < p ==> Less(tab, order[i], t)
    ensures p < |order| ==> !Less(tab, order[p], t)
  {
    if order == [] || !Less(tab, order[0], t) then 0
    else 1 + Place(tab, order[1..], t)
  }

  function Insert(tab: map<Timer, Fields>, order: seq<Timer>, t: Timer): seq<Timer>
    requires t in tab && forall u :: u in order ==> u in tab
  {
    var p := Place(tab, order, t);
    order[..p] + [t] + order[p..]
  }

  function Without(order: seq<Timer>, t: Timer): seq<Timer> {
    if order == [] then [] else if order[0] == t then order[1..] else [order[0]] + Without(order[1..], t)
  }

  /** The timers due at a time, and the others, in the order they have. */
  function Due(tab: map<Timer, Fields>, order: seq<Timer>, now: nat): seq<Timer>
    requires forall u :: u in order ==> u in tab
  {
    if order == [] then []
    else (if tab[order[0]].next <= now then [order[0]] else []) + Due(tab, order[1..], now)
  }

  function Pending(tab: map<Timer, Fields>, order: seq<Timer>, now: nat): seq<Timer>
    requires forall u :: u in order ==> u in tab
  {
    if order == [] then []
    else (if tab[order[0]].next <= now then [] else [order[0]]) + Pending(tab, order[1..], now)
  }

  // ---------------------------------------------------------------- operations

  /** add_timer under the lock: insert, and ask for a wake-up when the timer came to the front. */
  function Enter(s: State, t: Timer, f: Fields): State
    requires Known(s)
  {
    var tab := s.tab[t := f];
    var order := Insert(tab, s.order, t);
    s.(tab := tab, order := order, tickled := s.tickled || order[0] == t)
  }

  function AfterAdd(s: State, now: nat, t: Timer, ms: nat, recurring: bool, cb: Option<int>): State
    requires Known(s)
  {
    Enter(s, t, Fields(Word(now + ms), ms, recurring, cb))
  }

  function AfterCancel(s: State, t: Timer): (State, bool)
    requires t in s.tab
  {
    var f := s.tab[t];
    if f.cb.Some? then
      (s.(tab := s.tab[t := f.(cb := None)], order := Without(s.order, t)), true)
    else
      (s, false)
  }

  /** Take a timer out of the set, change its fields and put it back where it now belongs. */
  function Move(s: State, t: Timer, f: Fields): State
    requires Known(s)
  {
    WithoutMembers(s.order, t);
    Enter(s.(order := Without(s.order, t)), t, f)
  }

  /** The deadline moves to now + ms; nobody is told. */
  function AfterRefresh(s: State, now: nat, t: Timer): (State, bool)
    requires Known(s) && t in s.tab
  {
    var f := s.tab[t];
    if f.cb.Some? && t in s.order then
      (Move(s, t, f.(next := Word(now + f.ms))).(tickled := s.tickled), true)
    else
      (s, false)
  }

  function AfterReset(s: State, now: nat, t: Timer, ms: nat, fromNow: bool): (State, bool)
    requires Known(s) && t in s.tab
  {
    var f := s.tab[t];
    if ms == f.ms && !fromNow then (s, true)
    else if f.cb.Some? && t in s.order then
      var start := if fromNow then now else Word(f.next - f.ms);
      (Move(s, t, f.(next := Word(start + ms), ms := ms)), true)
    else (s, false)
  }

  /** The time to sleep; the largest word when there is nothing to wait for. */
  function AfterAsk(s: State, now: nat): (State, nat)
    requires Known(s)
  {
    (s.(tickled := false),
     if s.order == [] then TWO_64 - 1
     else if now >= s.tab[s.order[0]].next then 0
     else s.tab[s.order[0]].next - now)
  }

  predicate RolledOver(previous: nat, now: nat) {
    now < previous && now < Word(previous - HOUR)
  }

  /** A recurring timer that fired goes back in with a new deadline, any other loses its callback. */
  function Rearm(tab: map<Timer, Fields>, order: seq<Timer>, due: seq<Timer>, now: nat)
    : (r: (map<Timer, Fields>, seq<Timer>))
    requires forall u :: u in order ==> u in tab
    requires forall u :: u in due ==> u in tab
    ensures r.0.Keys == tab.Keys && forall u :: u in r.1 ==> u in tab
    decreases |due|
  {
    if due == [] then (tab, order)
    else
      var t, f := due[0], tab[due[0]];
      if f.recurring then
        var tab' := tab[t := f.(next := Word(now + f.ms))];
        Rearm(tab', Insert(tab', order, t), due[1..], now)
      else
        Rearm(tab[t := f.(cb := None)], order, due[1..], now)
  }

  /** The timers that fire, in set order, and the state after. */
  function AfterExpiry(s: State, now: nat): (r: (State, seq<Timer>))
    requires Known(s)
    ensures forall u :: u in r.1 ==> u in s.tab
  {
    if s.order == [] then (s, [])
    else
      var all := RolledOver(s.previous, now);
      var due := if all then s.order else Due(s.tab, s.order, now);
      var rest := if all then [] else Pending(s.tab, s.order, now);
      DueMembers(s.tab, s.order, now);
      var r := Rearm(s.tab, rest, due, now);
      (s.(tab := r.0, order := r.1, previous := now), due)
  }

  function Callbacks(tab: map<Timer, Fields>, due: seq<Timer>): (c: seq<Option<int>>)
    requires forall u :: u in due ==> u in tab
    ensures |c| == |due| && forall i :: 0 <= i < |due| ==> c[i] == tab[due[i]].cb
  {
    seq(|due|, i requires 0 <= i < |due| => tab[due[i]].cb)
  }

  // ---------------------------------------------------------------- the set stays ordered

  lemma {:induction false} WithoutMembers(order: seq<Timer>, t: Timer)
    ensures forall u :: u in Without(order, t) ==> u in order
    ensures forall u :: u in order && u != t ==> u in Without(order, t)
  {
    if order != [] && order[0] != t {
      WithoutMembers(order[1..], t);
      assert order == [order[0]] + order[1..];
    } else if order != [] {
      assert order == [t] + order[1..];
    }
  }

  lemma {:induction false} DueMembers(tab: map<Timer, Fields>, order: seq<Timer>, now: nat)
    requires forall u :: u in order ==> u in tab
    ensures forall u :: u in Due(tab, order, now) <==> u in order && tab[u].next <= now
    ensures forall u :: u in Pending(tab, order, now) <==> u in order && tab[u].next > now
  {
    if order != [] {
      DueMembers(tab, order[1..], now);
      assert order == [order[0]] + order[1..];
    }
  }

  lemma {:induction false} WithoutAt(order: seq<Timer>, t: Timer, i: nat)
    requires i < |order| && order[i] == t && forall j :: 0 <= j < i ==> order[j] != t
    ensures Without(order, t) == order[..i] + order[i + 1..]
  {
    if i > 0 {
      WithoutAt(order[1..], t, i - 1);
    }
  }

  lemma FindFirst(order: seq<Timer>, t: Timer) returns (i: nat)
    requires t in order
    ensures i < |order| && order[i] == t && forall j :: 0 <= j < i ==> order[j] != t
  {
    i := 0;
    while order[i] != t
      invariant i < |order| && forall j :: 0 <= j < i ==> order[j] != t
      decreases |order| - i
    {
      assert i == |order| - 1 ==> t !in order;
      i := i + 1;
    }
  }

  lemma WithoutOrdered(tab: map<Timer, Fields>, order: seq<Timer>, t: Timer)
    requires Ordered(tab, order)
    ensures Ordered(tab, Without(order, t)) && t !in Without(order, t)
    ensures forall u :: u in Without(order, t) <==> u in order && u != t
  {
    hide Ordered;
    WithoutMembers(order, t);
    if t in order {
      var i := FindFirst(order, t);
      WithoutAt(order, t, i);
      RemovedOrdered(tab, order, i);
    } else {
      WithoutAbsent(order, t);
    }
  }

  lemma RemovedOrdered(tab: map<Timer, Fields>, order: seq<Timer>, i: nat)
    requires Ordered(tab, order) && i < |order|
    ensures var w := order[..i] + order[i + 1..];
      Ordered(tab, w) && order[i] !in w
  {
    hide Less;
    var w := order[..i] + order[i + 1..];
    assert forall k :: 0 <= k < |w| ==> w[k] == order[if k < i then k else k + 1];
  }

  lemma {:induction false} WithoutAbsent(order: seq<Timer>, t: Timer)
    requires t !in order
    ensures Without(order, t) == order
  {
    if order != [] {
      WithoutAbsent(order[1..], t);
    }
  }

  /** What the order means: earlier deadlines first, and lower addresses among equal ones. */
  lemma OrderMeans(tab: map<Timer, Fields>, order: seq<Timer>)
    ensures Ordered(tab, order) <==>
      && (forall t :: t in order ==> t in tab)
      && (forall i, j :: 0 <= i < j < |order| ==>
            tab[order[i]].next < tab[order[j]].next
            || (tab[order[i]].next == tab[order[j]].next && order[i].address < order[j].address))
      && (forall i, j :: 0 <= i < j < |order| ==> order[i].address != order[j].address)
  {
  }

  /** Everything from the place of t on comes after t. */
  lemma AfterPlace(tab: map<Timer, Fields>, order: seq<Timer>, t: Timer, k: nat)
    requires Ordered(tab, order) && t in tab && t !in order && Alone(order, t)
    requires Place(tab, order, t) <= k < |order|
    ensures Less(tab, t, order[k]) && order[k].address != t.address
  {
    var p := Place(tab, order, t);
    assert order[p] in order && order[k] in order;
  }

  /** A sequence with t put in where it fits is in order. */
  lemma FitsOrdered(tab: map<Timer, Fields>, order: seq<Timer>, t: Timer, p: nat)
    requires Ordered(tab, order) && t in tab && p <= |order|
    requires forall k :: 0 <= k < |order| ==> order[k].address != t.address
    requires forall k :: 0 <= k < p ==> Less(tab, order[k], t)
    requires forall k :: p <= k < |order| ==> Less(tab, t, order[k])
    ensures Ordered(tab, order[..p] + [t] + order[p..])
  {
    hide Less;
    var n := order[..p] + [t] + order[p..];
    assert forall k :: 0 <= k < |n| ==> n[k] == if k < p then order[k] else if k == p then t else order[k - 1];
  }

  lemma InsertOrdered(tab: map<Timer, Fields>, order: seq<Timer>, t: Timer)
    requires Ordered(tab, order) && t in tab && t !in order && Alone(order, t)
    ensures Ordered(tab, Insert(tab, order, t))
    ensures forall u :: u in Insert(tab, order, t) <==> u in order || u == t
  {
    hide Place, Less;
    var p := Place(tab, order, t);
    forall k | p <= k < |order|
      ensures Less(tab, t, order[k])
    {
      AfterPlace(tab, order, t, k);
    }
    assert forall k :: 0 <= k < |order| ==> order[k] in order;
    FitsOrdered(tab, order, t, p);
    assert order == order[..p] + order[p..];
  }

  // ---------------------------------------------------------------- invariants of every operation

  /** The set is in order, and every timer with a callback is in it: no find can miss. */
  ghost predicate Sound(s: State) {
    Ordered(s.tab, s.order) && forall t :: t in s.tab && s.tab[t].cb.Some? ==> t in s.order
  }

  /** And only those: a timer has a callback exactly when it is in the set. */
  ghost predicate Exact(s: State) {
    Sound(s) && forall t :: t in s.order ==> s.tab[t].cb.Some?
  }

  lemma EnterSound(s: State, t: Timer, f: Fields)
    requires Ordered(s.tab, s.order) && t !in s.order && Alone(s.order, t)
    requires forall u :: u in s.tab && s.tab[u].cb.Some? && u != t ==> u in s.order
    ensures Sound(Enter(s, t, f))
    ensures forall u :: u in Enter(s, t, f).order <==> u in s.order || u == t
  {
    hide Insert, Less;
    KeyStays(s.tab, s.order, t, f);
    InsertOrdered(s.tab[t := f], s.order, t);
  }

  lemma KeyStays(tab: map<Timer, Fields>, order: seq<Timer>, t: Timer, f: Fields)
    requires Ordered(tab, order) && t !in order
    ensures Ordered(tab[t := f], order)
  {
  }

  lemma SameKeyStays(tab: map<Timer, Fields>, order: seq<Timer>, t: Timer, f: Fields)
    requires Ordered(tab, order) && (t in tab ==> f.next == tab[t].next)
    ensures Ordered(tab[t := f], order)
  {
  }

  lemma AddSound(s: State, now: nat, t: Timer, ms: nat, recurring: bool, cb: Option<int>)
    requires Sound(s) && t !in s.tab && Alone(s.order, t)
    ensures Sound(AfterAdd(s, now, t, ms, recurring, cb))
    ensures Exact(s) ==> (Exact(AfterAdd(s, now, t, ms, recurring, cb)) <==> cb.Some?)
  {
    EnterSound(s, t, Fields(Word(now + ms), ms, recurring, cb));
  }

  lemma CancelSound(s: State, t: Timer)
    requires Sound(s) && t in s.tab
    ensures Sound(AfterCancel(s, t).0)
    ensures Exact(s) ==> Exact(AfterCancel(s, t).0)
  {
    hide Less;
    WithoutOrdered(s.tab, s.order, t);
    SameKeyStays(s.tab, Without(s.order, t), t, s.tab[t].(cb := None));
  }

  lemma MoveSound(s: State, t: Timer, f: Fields)
    requires Sound(s) && t in s.order && f.cb == s.tab[t].cb
    ensures var n := Move(s, t, f);
      && Sound(n) && (Exact(s) ==> Exact(n))
      && forall u :: u in n.order <==> u in s.order
  {
    hide Less;
    WithoutOrdered(s.tab, s.order, t);
    AloneInSet(s.tab, s.order, t);
    EnterSound(s.(order := Without(s.order, t)), t, f);
  }

  lemma AloneInSet(tab: map<Timer, Fields>, order: seq<Timer>, t: Timer)
    requires Ordered(tab, order) && t in order
    ensures Alone(order, t)
  {
    hide Less;
    var i :| 0 <= i < |order| && order[i] == t;
  }

  lemma RefreshSound(s: State, now: nat, t: Timer)
    requires Sound(s) && t in s.tab
    ensures Sound(AfterRefresh(s, now, t).0)
    ensures Exact(s) ==> Exact(AfterRefresh(s, now, t).0)
  {
    hide Ordered, Move;
    if s.tab[t].cb.Some? {
      MoveSound(s, t, s.tab[t].(next := Word(now + s.tab[t].ms)));
    }
  }

  lemma ResetSound(s: State, now: nat, t: Timer, ms: nat, fromNow: bool)
    requires Sound(s) && t in s.tab
    ensures Sound(AfterReset(s, now, t, ms, fromNow).0)
    ensures Exact(s) ==> Exact(AfterReset(s, now, t, ms, fromNow).0)
  {
    hide Ordered, Move;
    var f := s.tab[t];
    if f.cb.Some? {
      var start := if fromNow then now else Word(f.next - f.ms);
      MoveSound(s, t, f.(next := Word(start + ms), ms := ms));
    }
  }

  /** What reset answers is whether the timer is armed, exactly when it is, or the call asks for a
      change: as written, a call that changes nothing succeeds without looking. */
  lemma ResetAnswersExactly(s: State, now: nat, t: Timer, ms: nat, fromNow: bool)
    requires Sound(s) && t in s.tab
    ensures (AfterReset(s, now, t, ms, fromNow).1 <==> s.tab[t].cb.Some?) <==>
      (s.tab[t].cb.Some? || ms != s.tab[t].ms || fromNow)
  {
    hide Move, Less;
    SoundOrdered(s);
  }

  // ---------------------------------------------------------------- expiry

  /** The due timers are a leading part of the set. */
  lemma {:induction false} DueIsPrefix(tab: map<Timer, Fields>, order: seq<Timer>, now: nat)
    requires Ordered(tab, order)
    ensures var n := |Due(tab, order, now)|;
      n <= |order| && Due(tab, order, now) == order[..n] && Pending(tab, order, now) == order[n..]
  {
    if order != [] {
      DueIsPrefix(tab, order[1..], now);
      if tab[order[0]].next > now {
        LaterPending(tab, order, now);
      }
    }
  }

  lemma {:induction false} LaterPending(tab: map<Timer, Fields>, order: seq<Timer>, now: nat)
    requires forall u :: u in order ==> u in tab && tab[u].next > now
    ensures Due(tab, order, now) == [] && Pending(tab, order, now) == order
  {
    if order != [] {
      LaterPending(tab, order[1..], now);
    }
  }

  /** The timers of due have addresses of their own, none of them in the set. */
  ghost predicate Outside(order: seq<Timer>, due: seq<Timer>) {
    && (forall i, j :: 0 <= i < j < |due| ==> due[i].address != due[j].address)
    && (forall t, u :: t in due && u in order ==> t.address != u.address)
  }

  function Fired(f: Fields, now: nat): Fields {
    if f.recurring then f.(next := Word(now + f.ms)) else f.(cb := None)
  }

  lemma {:induction false} RearmSound(tab: map<Timer, Fields>, order: seq<Timer>, due: seq<Timer>, now: nat)
    requires Ordered(tab, order) && Outside(order, due) && forall u :: u in due ==> u in tab
    ensures var r := Rearm(tab, order, due, now);
      && Ordered(r.0, r.1)
      && (forall u :: u in tab ==> u in r.0 && r.0[u] == if u in due then Fired(tab[u], now) else tab[u])
      && (forall u :: u in r.1 <==> u in order || (u in due && tab[u].recurring))
    decreases |due|
  {
    hide Less, Insert, Outside;
    if due != [] {
      var t, f := due[0], tab[due[0]];
      var tab' := tab[t := Fired(f, now)];
      var order' := if f.recurring then Insert(tab', order, t) else order;
      RearmStep(tab, order, due, now);
      hide Ordered;
      RearmSound(tab', order', due[1..], now);
      assert due == [t] + due[1..];
      var r := Rearm(tab, order, due, now);
      assert r == Rearm(tab', order', due[1..], now);
      forall u
        ensures u in r.1 <==> u in order || (u in due && tab[u].recurring)
      {
        assert u in due <==> u == t || u in due[1..];
        assert u in due[1..] ==> tab'[u] == tab[u];
        assert u in order' <==> u in order || (u == t && f.recurring);
        assert u in r.1 <==> u in order' || (u in due[1..] && tab'[u].recurring);
      }
    }
  }

  lemma RearmStep(tab: map<Timer, Fields>, order: seq<Timer>, due: seq<Timer>, now: nat)
    requires Ordered(tab, order) && Outside(order, due) && due != [] && forall u :: u in due ==> u in tab
    ensures var t, f := due[0], tab[due[0]];
      var tab' := tab[t := Fired(f, now)];
      var order' := if f.recurring then Insert(tab', order, t) else order;
      && Ordered(tab', order') && Outside(order', due[1..]) && t !in due[1..]
      && (forall u :: u in order' <==> u in order || (u == t && f.recurring))
  {
    hide Less, Insert;
    var t, f := due[0], tab[due[0]];
    var tab' := tab[t := Fired(f, now)];
    assert t in due;
    assert Alone(order, t) && t !in order;
    KeyStays(tab, order, t, Fired(f, now));
    InsertOrdered(tab', order, t);
    assert forall i :: 0 <= i < |due| - 1 ==> due[1..][i] == due[i + 1];
    assert forall u :: u in due[1..] ==> u in due && u.address != t.address;
  }

  lemma SplitOrdered(tab: map<Timer, Fields>, order: seq<Timer>, n: nat)
    requires Ordered(tab, order) && n <= |order|
    ensures Ordered(tab, order[n..]) && Outside(order[n..], order[..n])
    ensures forall u :: u in order <==> u in order[..n] || u in order[n..]
    ensures forall u :: u in order[..n] ==> u !in order[n..]
  {
    hide Less;
    assert order == order[..n] + order[n..];
    forall t, u | t in order[..n] && u in order[n..]
      ensures t.address != u.address
    {
      var i :| 0 <= i < n && order[..n][i] == t;
      var j :| 0 <= j < |order[n..]| && order[n..][j] == u;
      assert Less(tab, order[i], order[n + j]);
    }
  }

  /** Expiry at a time: the timers that fire are the leading ones of the set, exactly those due,
      or all of them when the clock went back by more than an hour; the recurring ones stay in
      the set with their deadlines moved on, the others lose their callback and leave; nothing
      else changes. */
  lemma ExpireExactly(s: State, now: nat)
    requires Sound(s)
    ensures var (n, due) := AfterExpiry(s, now);
      && Sound(n) && (Exact(s) ==> Exact(n))
      && |due| <= |s.order| && due == s.order[..|due|]
      && (forall u :: u in s.order ==> (u in due <==> RolledOver(s.previous, now) || s.tab[u].next <= now))
      && n.tab.Keys == s.tab.Keys
      && (forall u :: u in s.tab ==> n.tab[u] == if u in due then Fired(s.tab[u], now) else s.tab[u])
      && (forall u :: u in n.order <==> u in s.order && (u !in due || s.tab[u].recurring))
      && n.tickled == s.tickled && n.previous == if s.order == [] then s.previous else now
  {
    hide *;
    SoundOrdered(s);
    ExpireTickled(s, now);
    var (n, due) := AfterExpiry(s, now);
    if s.order != [] {
      ExpireSplit(s, now);
      ExpireDue(s, now);
      SplitOrdered(s.tab, s.order, |due|);
      RearmSound(s.tab, s.order[|due|..], due, now);
      ExpireSound(s, now, n, due);
    } else {
      ExpireNothing(s, now);
    }
  }

  lemma SoundOrdered(s: State)
    requires Sound(s)
    ensures Ordered(s.tab, s.order) && Known(s)
  {
  }

  lemma ExpireNothing(s: State, now: nat)
    requires Sound(s) && s.order == []
    ensures AfterExpiry(s, now) == (s, [])
  {
  }

  lemma ExpireDue(s: State, now: nat)
    requires Known(s) && s.order != []
    ensures forall u :: u in s.order ==>
      (u in AfterExpiry(s, now).1 <==> RolledOver(s.previous, now) || s.tab[u].next <= now)
  {
    hide Rearm;
    DueMembers(s.tab, s.order, now);
  }

  lemma ExpireSound(s: State, now: nat, n: State, due: seq<Timer>)
    requires Sound(s) && Ordered(n.tab, n.order) && n.tab.Keys == s.tab.Keys
    requires forall u :: u in due ==> u in s.order
    requires forall u :: u in s.tab ==> n.tab[u] == if u in due then Fired(s.tab[u], now) else s.tab[u]
    requires forall u :: u in n.order <==> u in s.order && (u !in due || s.tab[u].recurring)
    ensures Sound(n) && (Exact(s) ==> Exact(n))
  {
    hide Less;
  }

  lemma ExpireSplit(s: State, now: nat)
    requires Ordered(s.tab, s.order) && s.order != []
    ensures var (n, due) := AfterExpiry(s, now);
      && |due| <= |s.order| && due == s.order[..|due|]
      && (n.tab, n.order) == Rearm(s.tab, s.order[|due|..], due, now)
  {
    hide Less, Rearm;
    DueIsPrefix(s.tab, s.order, now);
    assert s.order[|s.order|..] == [] && s.order[..|s.order|] == s.order;
  }

  /** What becomes of a timer's fields: nothing, or, if it fires, only its deadline moves if it
      recurs, and otherwise only its callback goes. */
  predicate Changed(f: Fields, n: Fields, fires: bool, now: nat) {
    && n.recurring == f.recurring && n.ms == f.ms
    && n.next == (if fires && f.recurring then (now + f.ms) % 0x1_0000_0000_0000_0000 else f.next)
    && n.cb == if fires && !f.recurring then None else f.cb
  }

  /** Expiry place by place in the set as it was. */
  lemma ExpireAt(s: State, now: nat)
    requires Sound(s)
    ensures var (n, due) := AfterExpiry(s, now);
      && |due| <= |s.order| && (forall t :: t in due ==> t in s.tab) && n.tab.Keys == s.tab.Keys
      && (forall i :: 0 <= i < |s.order| ==> s.order[i] in s.tab && s.order[i] in s.order)
      && (forall i :: 0 <= i < |due| ==> due[i] == s.order[i])
      && (forall i :: 0 <= i < |s.order| ==>
            (i < |due| <==> RolledOver(s.previous, now) || s.tab[s.order[i]].next <= now)
            && Changed(s.tab[s.order[i]], n.tab[s.order[i]], i < |due|, now)
            && (s.order[i] in n.order <==> |due| <= i || s.tab[s.order[i]].recurring))
      && (forall t :: t in s.tab && t !in s.order ==> n.tab[t] == s.tab[t])
      && (forall t :: t in n.order ==> t in s.order)
  {
    hide Less, AfterExpiry, RolledOver;
    ExpireExactly(s, now);
    var (n, due) := AfterExpiry(s, now);
    forall i | 0 <= i < |s.order|
      ensures s.order[i] in due <==> i < |due|
    {
      assert i < |due| ==> due[i] == s.order[i];
      if s.order[i] in due {
        var j :| 0 <= j < |due| && due[j] == s.order[i];
        assert s.order[j] == s.order[i];
      }
    }
  }

  /** Without a roll-over or an overflow, nothing that is due is left, except a timer whose
      period is zero. */
  lemma NothingDueLeft(s: State, now: nat)
    requires Sound(s) && forall t :: t in s.order ==> now + s.tab[t].ms < TWO_64
    ensures var n := AfterExpiry(s, now).0;
      forall t :: t in n.order ==> n.tab[t].next > now || (n.tab[t].recurring && n.tab[t].ms == 0)
  {
    hide AfterExpiry;
    ExpireExactly(s, now);
  }

  /** The roll-over test is the one meant, a step back of more than an hour, exactly when it is
      not asked about a step back from the first hour of the clock. */
  lemma RollOverExactly(previous: nat, now: nat)
    requires previous < TWO_64
    ensures RolledOver(previous, now) == (now + 3_600_000 < previous) <==> !(now < previous < 3_600_000)
  {
    if previous < HOUR {
      assert Word(previous - HOUR) == previous - HOUR + TWO_64;
    }
  }

  // ---------------------------------------------------------------- runs

  datatype Op =
    | NewTimer(t: Timer, ms: nat, recurring: bool, cb: Option<int>)
    | CancelTimer(t: Timer)
    | RefreshTimer(t: Timer)
    | ResetTimer(t: Timer, ms: nat, fromNow: bool)
    | AskNext
    | ListExpired

  /** One call, at the time the clock shows. */
  datatype Call = Call(now: nat, op: Op)

  /** A state with its past: the timers that fired and the callbacks handed out for them, the time
      of the last call, the earliest deadline when get_next_time was last called, None for an empty
      set, and whether a wake-up was made since. */
  datatype History = History(
    s: State, fired: seq<Timer>, handed: seq<Option<int>>, clock: nat, promised: Option<nat>, woken: bool)

  function Start(now: nat): History {
    History(State(map[], [], false, now), [], [], now, None, false)
  }

  /** A new timer gets an address no timer in the set has; the others are called on timers that
      exist, and so share their address with nobody. */
  ghost predicate Allowed(s: State, op: Op) {
    match op
    case NewTimer(t, _, _, _) => t !in s.tab && Alone(s.order, t)
    case CancelTimer(t) => t in s.tab && Alone(s.order, t)
    case RefreshTimer(t) => t in s.tab && Alone(s.order, t)
    case ResetTimer(t, _, _) => t in s.tab && Alone(s.order, t)
    case AskNext => true
    case ListExpired => true
  }

  ghost function Do(s: State, c: Call): State
    requires Known(s) && Allowed(s, c.op)
  {
    match c.op
    case NewTimer(t, ms, recurring, cb) => AfterAdd(s, c.now, t, ms, recurring, cb)
    case CancelTimer(t) => AfterCancel(s, t).0
    case RefreshTimer(t) => AfterRefresh(s, c.now, t).0
    case ResetTimer(t, ms, fromNow) => AfterReset(s, c.now, t, ms, fromNow).0
    case AskNext => AfterAsk(s, c.now).0
    case ListExpired => AfterExpiry(s, c.now).0
  }

  ghost function Firing(s: State, c: Call): (f: seq<Timer>)
    requires Known(s)
    ensures forall t :: t in f ==> t in s.tab
  {
    if c.op.ListExpired? then AfterExpiry(s, c.now).1 else []
  }

  ghost function Earliest(s: State): Option<nat>
    requires Known(s)
  {
    if s.order == [] then None else Some(s.tab[s.order[0]].next)
  }

  predicate Foremost(order: seq<Timer>, t: Timer) {
    order != [] && order[0] == t
  }

  /** Whether a call makes a wake-up: a timer that was entered came to the front, and none was
      pending. */
  ghost predicate Wakes(s: State, c: Call)
    requires Known(s) && Allowed(s, c.op)
  {
    match c.op
    case NewTimer(t, _, _, _) => !s.tickled && Foremost(Do(s, c).order, t)
    case ResetTimer(t, ms, fromNow) =>
      && s.tab[t].cb.Some? && t in s.order && (ms != s.tab[t].ms || fromNow)
      && !s.tickled && Foremost(Do(s, c).order, t)
    case _ => false
  }

  ghost function Advance(h: History, c: Call): History
    requires Known(h.s)
  {
    if !Allowed(h.s, c.op) then h
    else History(Do(h.s, c), h.fired + Firing(h.s, c), h.handed + Callbacks(h.s.tab, Firing(h.s, c)), c.now,
                 if c.op.AskNext? then Earliest(h.s) else h.promised,
                 !c.op.AskNext? && (h.woken || Wakes(h.s, c)))
  }

  lemma SoundTickled(s: State, tickled: bool)
    requires Sound(s)
    ensures Sound(s.(tickled := tickled)) && (Exact(s) ==> Exact(s.(tickled := tickled)))
  {
  }

  lemma DoSound(s: State, c: Call)
    requires Sound(s) && Allowed(s, c.op)
    ensures Sound(Do(s, c))
    ensures Exact(s) && !(c.op.NewTimer? && c.op.cb.None?) ==> Exact(Do(s, c))
  {
    hide AfterExpiry, AfterRefresh, AfterReset, AfterCancel, AfterAdd, Sound, Exact;
    match c.op
    case NewTimer(t, ms, recurring, cb) => AddSound(s, c.now, t, ms, recurring, cb);
    case CancelTimer(t) => CancelSound(s, t);
    case RefreshTimer(t) => RefreshSound(s, c.now, t);
    case ResetTimer(t, ms, fromNow) => ResetSound(s, c.now, t, ms, fromNow);
    case AskNext => SoundTickled(s, false);
    case ListExpired => ExpireExactly(s, c.now);
  }

  ghost function Run(h: History, script: seq<Call>): History
    requires Sound(h.s)
    decreases |script|
  {
    if script == [] then h
    else
      AdvanceSound(h, script[0]);
      Run(Advance(h, script[0]), script[1..])
  }

  lemma AdvanceSound(h: History, c: Call)
    requires Sound(h.s)
    ensures Sound(Advance(h, c).s)
    ensures Exact(h.s) && !(c.op.NewTimer? && c.op.cb.None?) ==> Exact(Advance(h, c).s)
  {
    if Allowed(h.s, c.op) {
      DoSound(h.s, c);
    }
  }

  /** Over every run the set stays strictly ordered on the deadlines as they now are, so that a
      find for a timer with a callback always succeeds; and if no timer is made with a null
      callback, a timer has a callback exactly when it is in the set. */
  lemma {:induction false} RunSound(h: History, script: seq<Call>)
    requires Sound(h.s)
    ensures var n := Run(h, script).s;
      && Sound(n) && Known(n)
      && forall i, j :: 0 <= i < j < |n.order| ==>
        n.order[i] in n.tab && n.order[j] in n.tab
        && (n.tab[n.order[i]].next < n.tab[n.order[j]].next
            || (n.tab[n.order[i]].next == n.tab[n.order[j]].next && n.order[i].address < n.order[j].address))
    ensures Exact(h.s) && (forall c :: c in script && c.op.NewTimer? ==> c.op.cb.Some?) ==>
      Exact(Run(h, script).s)
    decreases |script|
  {
    if script != [] {
      hide Sound, Exact, Advance;
      AdvanceSound(h, script[0]);
      RunSound(Advance(h, script[0]), script[1..]);
    } else {
      SoundOrdered(h.s);
      OrderMeans(h.s.tab, h.s.order);
    }
  }

  // ---------------------------------------------------------------- wake-ups

  ghost predicate Meets(promised: Option<nat>, next: nat) {
    promised.Some? && next >= promised.value
  }

  /** A wake-up has been asked for, or no deadline in the set is earlier than the one the sleeper
      was told of. */
  ghost predicate Woken(s: State, promised: Option<nat>)
    requires Known(s)
  {
    s.tickled || forall t :: t in s.order ==> Meets(promised, s.tab[t].next)
  }

  /** Every deadline in the set is at most one period ahead of the clock. */
  ghost predicate Timely(s: State, clock: nat)
    requires Known(s)
  {
    forall t :: t in s.order ==> s.tab[t].ms <= s.tab[t].next <= clock + s.tab[t].ms
  }

  /** The clock has not gone back, and no deadline computed from it overflows. */
  ghost predicate Steady(h: History, c: Call)
    requires Known(h.s)
  {
    && h.clock <= c.now
    && (forall t :: t in h.s.order ==> c.now + h.s.tab[t].ms < TWO_64)
    && (c.op.NewTimer? || c.op.ResetTimer? ==> c.now + c.op.ms < TWO_64)
  }

  ghost predicate AlwaysSteady(h: History, script: seq<Call>)
    requires Sound(h.s)
    decreases |script|
  {
    script == [] ||
    (AdvanceSound(h, script[0]);
     Steady(h, script[0]) && AlwaysSteady(Advance(h, script[0]), script[1..]))
  }

  /** Putting in a timer that does not come to the front breaks no promise. */
  lemma EnterWoken(s: State, t: Timer, f: Fields, promised: Option<nat>)
    requires Ordered(s.tab, s.order) && t !in s.order && Alone(s.order, t)
    requires Woken(s, promised)
    ensures Known(Enter(s, t, f)) && Woken(Enter(s, t, f), promised)
  {
    var tab := s.tab[t := f];
    KeyStays(s.tab, s.order, t, f);
    InsertOrdered(tab, s.order, t);
    var p := Place(tab, s.order, t);
    if p > 0 {
      assert s.order[0] in s.order && Less(tab, s.order[0], t);
    }
  }

  lemma EnterTimely(s: State, t: Timer, f: Fields, clock: nat, now: nat)
    requires Ordered(s.tab, s.order) && t !in s.order && Alone(s.order, t)
    requires Timely(s, clock) && clock <= now && f.ms <= f.next <= now + f.ms
    ensures Known(Enter(s, t, f)) && Timely(Enter(s, t, f), now)
  {
    hide Insert;
    KeyStays(s.tab, s.order, t, f);
    InsertOrdered(s.tab[t := f], s.order, t);
  }

  lemma MoveWoken(s: State, t: Timer, f: Fields, promised: Option<nat>, clock: nat, now: nat)
    requires Sound(s) && t in s.order && Woken(s, promised)
    requires Timely(s, clock) && clock <= now && f.ms <= f.next <= now + f.ms
    ensures var n := Move(s, t, f); Known(n) && Woken(n, promised) && Timely(n, now)
  {
    hide Less, Enter;
    WithoutOrdered(s.tab, s.order, t);
    AloneInSet(s.tab, s.order, t);
    var rest := s.(order := Without(s.order, t));
    EnterWoken(rest, t, f, promised);
    EnterTimely(rest, t, f, clock, now);
  }

  /** Refresh does not ask for a wake-up, and need not: the deadline only moves later. */
  lemma RefreshWoken(s: State, now: nat, t: Timer, promised: Option<nat>, clock: nat)
    requires Sound(s) && t in s.tab && Woken(s, promised) && Timely(s, clock)
    requires clock <= now && (t in s.order ==> now + s.tab[t].ms < TWO_64)
    ensures var n := AfterRefresh(s, now, t).0; Known(n) && Woken(n, promised) && Timely(n, now)
  {
    hide Less, Insert;
    if s.tab[t].cb.Some? {
      var f := s.tab[t].(next := Word(now + s.tab[t].ms));
      WithoutOrdered(s.tab, s.order, t);
      AloneInSet(s.tab, s.order, t);
      KeyStays(s.tab, Without(s.order, t), t, f);
      InsertOrdered(s.tab[t := f], Without(s.order, t), t);
    }
  }

  lemma ResetWoken(s: State, now: nat, t: Timer, ms: nat, fromNow: bool, promised: Option<nat>, clock: nat)
    requires Sound(s) && t in s.tab && Woken(s, promised) && Timely(s, clock)
    requires clock <= now && now + ms < TWO_64 && (t in s.order ==> now + s.tab[t].ms < TWO_64)
    ensures var n := AfterReset(s, now, t, ms, fromNow).0; Known(n) && Woken(n, promised) && Timely(n, now)
  {
    hide Less, Move;
    var f := s.tab[t];
    if f.cb.Some? {
      var start := if fromNow then now else Word(f.next - f.ms);
      assert start <= now;
      MoveWoken(s, t, f.(next := Word(start + ms), ms := ms), promised, clock, now);
    }
  }

  /** Whatever the clock does: a refresh that no one was told of keeps the promise exactly when the
      new deadline is not before the promised one. */
  lemma RefreshWokenExactly(s: State, now: nat, t: Timer, promised: Option<nat>)
    requires Sound(s) && t in s.tab && s.tab[t].cb.Some? && !s.tickled && Woken(s, promised)
    ensures var n := AfterRefresh(s, now, t).0;
      Known(n) && !n.tickled
      && (Woken(n, promised) <==> promised.Some? && Word(now + s.tab[t].ms) >= promised.value)
  {
    hide Less, Insert;
    var f := s.tab[t].(next := Word(now + s.tab[t].ms));
    WithoutOrdered(s.tab, s.order, t);
    AloneInSet(s.tab, s.order, t);
    KeyStays(s.tab, Without(s.order, t), t, f);
    InsertOrdered(s.tab[t := f], Without(s.order, t), t);
    assert t in AfterRefresh(s, now, t).0.order;
  }

  /** Likewise expiry, for the recurring timers it puts back. */
  lemma ExpireWokenExactly(s: State, now: nat, promised: Option<nat>)
    requires Sound(s) && !s.tickled && Woken(s, promised)
    ensures var (n, due) := AfterExpiry(s, now);
      && Known(n) && !n.tickled
      && (Woken(n, promised) <==>
            forall t :: t in due && s.tab[t].recurring ==> Meets(promised, Word(now + s.tab[t].ms)))
  {
    hide Less, AfterExpiry, Rearm, Ordered, RolledOver;
    SoundOrdered(s);
    ExpireExactly(s, now);
    ExpireTickled(s, now);
    var (n, due) := AfterExpiry(s, now);
    assert forall t :: t in due && s.tab[t].recurring ==> t in s.order && t in n.order;
  }

  /** Nor does expiry: a recurring timer's next deadline is later than the one that passed. */
  lemma ExpireWoken(s: State, now: nat, promised: Option<nat>, clock: nat)
    requires Sound(s) && Woken(s, promised) && Timely(s, clock) && clock <= now
    requires forall t :: t in s.order ==> now + s.tab[t].ms < TWO_64
    ensures var n := AfterExpiry(s, now).0; Known(n) && Woken(n, promised) && Timely(n, now)
  {
    hide Less, AfterExpiry, Rearm;
    ExpireExactly(s, now);
    ExpireTickled(s, now);
  }

  lemma ExpireTickled(s: State, now: nat)
    requires Known(s)
    ensures var n := AfterExpiry(s, now).0;
      n.tickled == s.tickled && n.previous == if s.order == [] then s.previous else now
  {
  }

  lemma CancelWoken(s: State, t: Timer, promised: Option<nat>, clock: nat, now: nat)
    requires Sound(s) && t in s.tab && Woken(s, promised) && Timely(s, clock) && clock <= now
    ensures var n := AfterCancel(s, t).0; Known(n) && Woken(n, promised) && Timely(n, now)
  {
    WithoutOrdered(s.tab, s.order, t);
  }

  lemma AskWoken(s: State, now: nat, clock: nat)
    requires Sound(s) && Timely(s, clock) && clock <= now
    ensures var n := AfterAsk(s, now).0; Known(n) && Woken(n, Earliest(s)) && Timely(n, now)
  {
    forall t | t in s.order
      ensures Meets(Earliest(s), s.tab[t].next)
    {
      FrontFirst(s, t);
    }
  }

  lemma FrontFirst(s: State, t: Timer)
    requires Ordered(s.tab, s.order) && t in s.order
    ensures s.tab[s.order[0]].next <= s.tab[t].next
  {
    var i :| 0 <= i < |s.order| && s.order[i] == t;
  }

  /** What get_next_time answers, with the set as it stands: nothing falls due before that much
      time has passed, and something does when it has, if there is anything. */
  lemma SleepExactly(s: State, now: nat)
    requires Sound(s) && forall t :: t in s.tab ==> s.tab[t].next < TWO_64
    ensures var r := AfterAsk(s, now).1;
      && (forall t :: t in s.order && s.tab[t].next > now ==> s.tab[t].next >= now + r)
      && (r == 0 <==> exists t :: t in s.order && s.tab[t].next <= now)
      && (r > 0 && s.order != [] ==> exists t :: t in s.order && s.tab[t].next == now + r)
      && (s.order == [] ==> r == 0xFFFF_FFFF_FFFF_FFFF)
      && AfterAsk(s, now).0 == s.(tickled := false)
    ensures Earliest(s) == None <==> s.order == []
    ensures Earliest(s).Some? ==>
      && (exists t :: t in s.order && s.tab[t].next == Earliest(s).value)
      && (forall t :: t in s.order ==> Earliest(s).value <= s.tab[t].next)
  {
    if s.order != [] {
      assert s.order[0] in s.order;
      forall t | t in s.order
        ensures s.tab[s.order[0]].next <= s.tab[t].next
      {
        FrontFirst(s, t);
      }
    }
  }

  lemma AdvanceWoken(h: History, c: Call)
    requires Sound(h.s) && Woken(h.s, h.promised) && Timely(h.s, h.clock) && Steady(h, c)
    ensures var n := Advance(h, c);
      Known(n.s) && Woken(n.s, n.promised) && Timely(n.s, n.clock)
  {
    if Allowed(h.s, c.op) {
      hide Woken, Timely, Sound, AfterExpiry, AfterRefresh, AfterReset, AfterCancel, Enter, AfterAsk, Earliest;
      WokenStep(h, c);
    }
  }

  lemma WokenStep(h: History, c: Call)
    requires Sound(h.s) && Woken(h.s, h.promised) && Timely(h.s, h.clock) && Steady(h, c)
    requires Allowed(h.s, c.op)
    ensures var n := Do(h.s, c);
      && Known(n) && Timely(n, c.now)
      && Woken(n, if c.op.AskNext? then Earliest(h.s) else h.promised)
  {
    hide Woken, Timely, AfterExpiry, AfterRefresh, AfterReset, AfterCancel, Enter, AfterAsk, Earliest, Less;
    match c.op
    case NewTimer(t, ms, recurring, cb) =>
      var f := Fields(Word(c.now + ms), ms, recurring, cb);
      EnterWoken(h.s, t, f, h.promised);
      EnterTimely(h.s, t, f, h.clock, c.now);
    case CancelTimer(t) => CancelWoken(h.s, t, h.promised, h.clock, c.now);
    case RefreshTimer(t) => RefreshWoken(h.s, c.now, t, h.promised, h.clock);
    case ResetTimer(t, ms, fromNow) => ResetWoken(h.s, c.now, t, ms, fromNow, h.promised, h.clock);
    case AskNext => AskWoken(h.s, c.now, h.clock);
    case ListExpired => ExpireWoken(h.s, c.now, h.promised, h.clock);
  }

  lemma {:induction false} RunWoken(h: History, script: seq<Call>)
    requires Sound(h.s) && Woken(h.s, h.promised) && Timely(h.s, h.clock) && AlwaysSteady(h, script)
    ensures var n := Run(h, script); Known(n.s) && Woken(n.s, n.promised)
    decreases |script|
  {
    if script != [] {
      hide Woken, Timely, Sound, Steady, Advance;
      AdvanceSound(h, script[0]);
      AdvanceWoken(h, script[0]);
      RunWoken(Advance(h, script[0]), script[1..]);
    }
  }

  /** The manager's flag is set exactly when a wake-up was made since the last get_next_time. */
  lemma WakesTickled(s: State, c: Call)
    requires Sound(s) && Allowed(s, c.op)
    ensures Do(s, c).tickled <==> !c.op.AskNext? && (s.tickled || Wakes(s, c))
  {
    hide Less, Insert, AfterExpiry;
    SoundOrdered(s);
    match c.op
    case NewTimer(t, ms, recurring, cb) =>
      EnterFront(s, t, Fields(Word(c.now + ms), ms, recurring, cb));
    case CancelTimer(t) =>
    case RefreshTimer(t) =>
    case ResetTimer(t, ms, fromNow) =>
      if s.tab[t].cb.Some? && t in s.order && (ms != s.tab[t].ms || fromNow) {
        var start := if fromNow then c.now else Word(s.tab[t].next - s.tab[t].ms);
        WithoutMembers(s.order, t);
        EnterFront(s.(order := Without(s.order, t)), t, s.tab[t].(next := Word(start + ms), ms := ms));
      }
    case AskNext =>
    case ListExpired => ExpireTickled(s, c.now);
  }

  lemma EnterFront(s: State, t: Timer, f: Fields)
    requires Known(s)
    ensures var n := Enter(s, t, f);
      n.tickled <==> s.tickled || Foremost(n.order, t)
  {
  }

  lemma {:induction false} RunTickled(h: History, script: seq<Call>)
    requires Sound(h.s) && h.woken == h.s.tickled
    ensures Run(h, script).woken == Run(h, script).s.tickled
    decreases |script|
  {
    if script != [] {
      AdvanceSound(h, script[0]);
      AdvanceTickled(h, script[0]);
      hide Sound, Advance;
      RunTickled(Advance(h, script[0]), script[1..]);
    }
  }

  lemma AdvanceTickled(h: History, c: Call)
    requires Sound(h.s) && h.woken == h.s.tickled
    ensures Advance(h, c).woken == Advance(h, c).s.tickled
  {
    if Allowed(h.s, c.op) {
      hide Do, Wakes, Sound, Firing;
      SoundOrdered(h.s);
      WakesTickled(h.s, c);
    }
  }

  /** Over every run with a clock that does not go back: whoever sleeps until the deadline
      get_next_time last told of, unless a wake-up was made since, sleeps past nothing. */
  lemma NoMissedWakeUp(now: nat, script: seq<Call>)
    requires Sound(Start(now).s) && AlwaysSteady(Start(now), script)
    ensures var n := Run(Start(now), script);
      && Known(n.s) && n.s.tickled == n.woken
      && (n.woken || forall t :: t in n.s.order ==> Meets(n.promised, n.s.tab[t].next))
  {
    RunWoken(Start(now), script);
    RunTickled(Start(now), script);
  }

  // ---------------------------------------------------------------- how often a timer fires

  function Times(fired: seq<Timer>, t: Timer): nat {
    multiset(fired)[t]
  }

  /** Out of the set and without a callback: cancelled, or fired for the last time. */
  ghost predicate Dead(s: State, t: Timer) {
    t in s.tab && t !in s.order && s.tab[t].cb.None?
  }

  /** A one-shot timer has fired at most once, and not at all while it is in the set. */
  ghost predicate Frugal(h: History) {
    && (forall t :: t in h.fired ==> t in h.s.tab)
    && (forall t :: t in h.s.tab && !h.s.tab[t].recurring ==>
          Times(h.fired, t) <= if t in h.s.order then 0 else 1)
  }

  /** What a call does to one timer: only making it puts it in the set, and only expiry fires it. */
  lemma DoTimer(s: State, c: Call, t: Timer)
    requires Sound(s) && Allowed(s, c.op)
    ensures var n := Do(s, c);
      && (t in n.tab <==> t in s.tab || (c.op.NewTimer? && c.op.t == t))
      && (t in s.tab ==> n.tab[t].recurring == s.tab[t].recurring)
      && (t in s.tab && t !in s.order ==> t !in n.order)
      && (t in s.tab && t !in s.order ==> n.tab[t].cb == s.tab[t].cb)
      && (t in s.tab && t in n.order ==> n.tab[t].cb == s.tab[t].cb)
      && (t in s.order && s.tab[t].recurring && c.op != CancelTimer(t) ==> t in n.order)
  {
    hide Less, Insert, AfterExpiry;
    var n := Do(s, c);
    match c.op
    case NewTimer(u, ms, recurring, cb) =>
      EnterSound(s, u, Fields(Word(c.now + ms), ms, recurring, cb));
    case CancelTimer(u) => WithoutOrdered(s.tab, s.order, u);
    case RefreshTimer(u) => RefreshTimerOnly(s, c.now, u, t);
    case ResetTimer(u, ms, fromNow) => ResetTimerOnly(s, c.now, u, ms, fromNow, t);
    case AskNext =>
    case ListExpired => ExpireExactly(s, c.now);
  }

  lemma RefreshTimerOnly(s: State, now: nat, u: Timer, t: Timer)
    requires Sound(s) && u in s.tab
    ensures var n := AfterRefresh(s, now, u).0;
      && n.tab.Keys == s.tab.Keys && (t in n.order <==> t in s.order)
      && (t in s.tab && t != u ==> n.tab[t] == s.tab[t])
      && (t in s.tab ==> n.tab[t].recurring == s.tab[t].recurring && n.tab[t].cb == s.tab[t].cb)
  {
    hide Less, Insert;
    if u in s.order {
      MoveSound(s, u, s.tab[u].(next := Word(now + s.tab[u].ms)));
    }
  }

  lemma ResetTimerOnly(s: State, now: nat, u: Timer, ms: nat, fromNow: bool, t: Timer)
    requires Sound(s) && u in s.tab
    ensures var n := AfterReset(s, now, u, ms, fromNow).0;
      && n.tab.Keys == s.tab.Keys && (t in n.order <==> t in s.order)
      && (t in s.tab && t != u ==> n.tab[t] == s.tab[t])
      && (t in s.tab ==> n.tab[t].recurring == s.tab[t].recurring && n.tab[t].cb == s.tab[t].cb)
  {
    hide Less, Insert;
    if u in s.order {
      var start := if fromNow then now else Word(s.tab[u].next - s.tab[u].ms);
      MoveSound(s, u, s.tab[u].(next := Word(start + ms), ms := ms));
    }
  }

  /** What fires is in the set, each timer once, and a one-shot timer leaves. */
  lemma FiringOnce(s: State, c: Call, t: Timer)
    requires Sound(s) && Allowed(s, c.op)
    ensures Times(Firing(s, c), t) <= 1
    ensures t !in s.order ==> Times(Firing(s, c), t) == 0
    ensures t in Firing(s, c) && !s.tab[t].recurring ==> t !in Do(s, c).order
  {
    hide AfterExpiry, Ordered, Times;
    SoundOrdered(s);
    TimesConcat([], [], t);
    if c.op.ListExpired? {
      ExpireExactly(s, c.now);
      var due := Firing(s, c);
      Distinct(s, due);
      NoDupTimes(due, t);
      assert t in due ==> t in s.order;
    }
  }

  lemma Distinct(s: State, due: seq<Timer>)
    requires Sound(s) && |due| <= |s.order| && due == s.order[..|due|]
    ensures forall i, j :: 0 <= i < j < |due| ==> due[i] != due[j]
  {
    hide Less;
    assert forall i, j :: 0 <= i < j < |due| ==> due[i].address != due[j].address;
  }

  lemma {:induction false} NoDupTimes(a: seq<Timer>, t: Timer)
    requires forall i, j :: 0 <= i < j < |a| ==> a[i] != a[j]
    ensures Times(a, t) == if t in a then 1 else 0
  {
    if a != [] {
      NoDupTimes(a[1..], t);
      assert a == [a[0]] + a[1..];
    }
  }

  lemma TimesConcat(a: seq<Timer>, b: seq<Timer>, t: Timer)
    ensures Times(a + b, t) == Times(a, t) + Times(b, t)
    ensures Times(a, t) == 0 <==> t !in a
  {
  }

  lemma AdvanceFrugal(h: History, c: Call)
    requires Sound(h.s) && Frugal(h)
    ensures Frugal(Advance(h, c))
  {
    SoundOrdered(h.s);
    if Allowed(h.s, c.op) {
      hide Sound, Allowed, Do, Firing, Times;
      var n := Advance(h, c);
      forall t | t in n.fired
        ensures t in n.s.tab
      {
        FrugalOne(h, c, t);
      }
      forall t | t in n.s.tab && !n.s.tab[t].recurring
        ensures Times(n.fired, t) <= if t in n.s.order then 0 else 1
      {
        FrugalOne(h, c, t);
      }
    }
  }

  lemma FrugalOne(h: History, c: Call, t: Timer)
    requires Sound(h.s) && Frugal(h) && Allowed(h.s, c.op)
    ensures var n := Advance(h, c);
      && (t in n.fired ==> t in n.s.tab)
      && (t in n.s.tab && !n.s.tab[t].recurring ==> Times(n.fired, t) <= if t in n.s.order then 0 else 1)
  {
    hide Sound, Allowed, Do, Firing, Times;
    SoundOrdered(h.s);
    DoTimer(h.s, c, t);
    FiringOnce(h.s, c, t);
    FiringKnown(h.s, c, t);
    TimesConcat(h.fired, Firing(h.s, c), t);
    TimesConcat(Firing(h.s, c), [], t);
  }

  lemma FiringKnown(s: State, c: Call, t: Timer)
    requires Sound(s) && Allowed(s, c.op)
    ensures t in Firing(s, c) ==> t in s.order && t in s.tab
    ensures c.op.NewTimer? && c.op.t == t ==> t !in s.tab
    ensures t in s.order ==> t in s.tab
  {
    FiringOnce(s, c, t);
  }

  /** Over every run, with any clock and any callbacks, a one-shot timer fires at most once. */
  lemma {:induction false} FiresAtMostOnce(h: History, script: seq<Call>)
    requires Sound(h.s) && Frugal(h)
    ensures Frugal(Run(h, script))
    decreases |script|
  {
    if script != [] {
      hide Sound, Frugal, Advance;
      AdvanceSound(h, script[0]);
      AdvanceFrugal(h, script[0]);
      FiresAtMostOnce(Advance(h, script[0]), script[1..]);
    }
  }

  /** What a run knows of a timer by what it was made with. */
  ghost predicate MadeWith(h: History, t: Timer, recurring: bool, cb: Option<int>) {
    && |h.handed| == |h.fired| && t in h.s.tab && h.s.tab[t].recurring == recurring
    && (t in h.s.order ==> h.s.tab[t].cb == cb)
    && (forall i :: 0 <= i < |h.fired| && h.fired[i] == t ==> h.handed[i] == cb)
    && (!recurring ==> Times(h.fired, t) <= if t in h.s.order then 0 else 1)
  }

  lemma AdvanceMadeWith(h: History, c: Call, t: Timer, recurring: bool, cb: Option<int>)
    requires Sound(h.s) && MadeWith(h, t, recurring, cb)
    ensures MadeWith(Advance(h, c), t, recurring, cb)
    ensures recurring && t in h.s.order && c.op != CancelTimer(t) ==> t in Advance(h, c).s.order
  {
    SoundOrdered(h.s);
    if Allowed(h.s, c.op) {
      hide Sound, Allowed, Do, Firing, Times, Callbacks, Wakes, Earliest;
      var f := Firing(h.s, c);
      DoTimer(h.s, c, t);
      FiringOnce(h.s, c, t);
      FiringKnown(h.s, c, t);
      TimesConcat(h.fired, f, t);
      TimesConcat(f, [], t);
      HandedMore(h, f, t, cb);
    }
  }

  /** What is handed out for timers that fire while their callback is still the one it was. */
  lemma HandedMore(h: History, f: seq<Timer>, t: Timer, cb: Option<int>)
    requires |h.handed| == |h.fired| && forall u :: u in f ==> u in h.s.tab
    requires forall i :: 0 <= i < |h.fired| && h.fired[i] == t ==> h.handed[i] == cb
    requires t in f ==> h.s.tab[t].cb == cb
    ensures var fired, handed := h.fired + f, h.handed + Callbacks(h.s.tab, f);
      |handed| == |fired| && forall i :: 0 <= i < |fired| && fired[i] == t ==> handed[i] == cb
  {
  }

  lemma {:induction false} RunMadeWith(h: History, script: seq<Call>, t: Timer, recurring: bool, cb: Option<int>)
    requires Sound(h.s) && MadeWith(h, t, recurring, cb)
    ensures MadeWith(Run(h, script), t, recurring, cb)
    ensures recurring && t in h.s.order && (forall c :: c in script ==> c.op != CancelTimer(t)) ==>
      t in Run(h, script).s.order
    decreases |script|
  {
    if script != [] {
      hide Sound, MadeWith, Advance;
      AdvanceSound(h, script[0]);
      AdvanceMadeWith(h, script[0], t, recurring, cb);
      RunMadeWith(Advance(h, script[0]), script[1..], t, recurring, cb);
    }
  }

  /** By what the caller asked for: whatever is called later, every callback handed out for a new
      timer is the one it was made with, a timer not made recurring fires at most once, and one
      made recurring stays in the set until it is cancelled. */
  lemma NewTimerFires(h: History, now: nat, t: Timer, ms: nat, recurring: bool, cb: Option<int>, script: seq<Call>)
    requires Sound(h.s) && t !in h.s.tab && Alone(h.s.order, t)
    requires |h.handed| == |h.fired| && t !in h.fired
    ensures var made := Advance(h, Call(now, NewTimer(t, ms, recurring, cb)));
      && Sound(made.s)
      && var n := Run(made, script);
        && |n.handed| == |n.fired|
        && (forall i :: 0 <= i < |n.fired| && n.fired[i] == t ==> n.handed[i] == cb)
        && (!recurring ==> Times(n.fired, t) <= 1)
        && (recurring && (forall c :: c in script ==> c.op != CancelTimer(t)) ==> t in n.s.order)
  {
    var c := Call(now, NewTimer(t, ms, recurring, cb));
    AdvanceSound(h, c);
    EnterSound(h.s, t, Fields(Word(now + ms), ms, recurring, cb));
    TimesConcat(h.fired, [], t);
    hide Sound, Ordered, Enter, Times;
    RunMadeWith(Advance(h, c), script, t, recurring, cb);
  }

  /** What listing adds to the past: the leading timers of the set, which are those due, or all on
      a roll-over, and for each the callback it has. */
  lemma ListingRecorded(h: History, now: nat)
    requires Sound(h.s) && |h.handed| == |h.fired|
    ensures var n, k := Advance(h, Call(now, ListExpired)), |h.fired|;
      && k <= |n.fired| <= k + |h.s.order| && |n.handed| == |n.fired|
      && n.fired[..k] == h.fired && n.handed[..k] == h.handed
      && (forall i :: 0 <= i < |n.fired| - k ==>
            && n.fired[k + i] == h.s.order[i] && h.s.order[i] in h.s.tab
            && n.handed[k + i] == h.s.tab[h.s.order[i]].cb)
      && (forall i :: 0 <= i < |h.s.order| ==>
            h.s.order[i] in h.s.tab
            && (k + i < |n.fired| <==> RolledOver(h.s.previous, now) || h.s.tab[h.s.order[i]].next <= now))
  {
    var c := Call(now, ListExpired);
    SoundOrdered(h.s);
    ExpireAt(h.s, now);
    var f := Firing(h.s, c);
    ListingIs(h, now);
    hide *;
    var n := Advance(h, c);
    assert n.fired == h.fired + f && n.handed == h.handed + Callbacks(h.s.tab, f);
  }

  lemma ListingIs(h: History, now: nat)
    requires Sound(h.s)
    ensures Known(h.s)
    ensures var c := Call(now, ListExpired);
      var f, n := Firing(h.s, c), Advance(h, c);
      f == AfterExpiry(h.s, now).1
      && n.fired == h.fired + f && n.handed == h.handed + Callbacks(h.s.tab, f)
  {
    hide AfterExpiry, Less;
    SoundOrdered(h.s);
  }

  /** Whether a call is about one timer: cancels it, refreshes it or resets it. */
  predicate Concerns(op: Op, t: Timer) {
    match op
    case CancelTimer(u) => u == t
    case RefreshTimer(u) => u == t
    case ResetTimer(u, _, _) => u == t
    case _ => false
  }

  /** A one-shot timer waiting for a deadline, or fired just once. */
  ghost predicate WaitsOrFired(h: History, t: Timer, next: nat) {
    && t in h.s.tab && !h.s.tab[t].recurring
    && (t in h.s.order ==> h.s.tab[t].next == next)
    && Times(h.fired, t) == if t in h.s.order then 0 else 1
  }

  /** Calls that are not about a timer of the set leave it as it is, or fire it. */
  lemma DoLeaves(s: State, c: Call, t: Timer)
    requires Sound(s) && Allowed(s, c.op) && !Concerns(c.op, t) && t in s.order && !s.tab[t].recurring
    ensures var n := Do(s, c);
      && t in n.tab && (t in n.order <==> t !in Firing(s, c))
      && (t in n.order ==> n.tab[t] == s.tab[t])
  {
    hide Less, Insert, AfterExpiry;
    match c.op
    case NewTimer(u, ms, recurring, cb) =>
      EnterSound(s, u, Fields(Word(c.now + ms), ms, recurring, cb));
    case CancelTimer(u) => WithoutOrdered(s.tab, s.order, u);
    case RefreshTimer(u) => RefreshTimerOnly(s, c.now, u, t);
    case ResetTimer(u, ms, fromNow) => ResetTimerOnly(s, c.now, u, ms, fromNow, t);
    case AskNext =>
    case ListExpired => ExpireExactly(s, c.now);
  }

  lemma AdvanceWaits(h: History, c: Call, t: Timer, next: nat)
    requires Sound(h.s) && WaitsOrFired(h, t, next) && !Concerns(c.op, t)
    ensures WaitsOrFired(Advance(h, c), t, next)
    ensures t in h.s.order && c.op.ListExpired? && next <= c.now ==> t !in Advance(h, c).s.order
    ensures t !in h.s.order ==> t !in Advance(h, c).s.order
  {
    SoundOrdered(h.s);
    if Allowed(h.s, c.op) {
      hide Sound, Allowed, Do, Firing, Times, Callbacks, Wakes, Earliest, RolledOver;
      DoTimer(h.s, c, t);
      FiringOnce(h.s, c, t);
      TimesConcat(h.fired, Firing(h.s, c), t);
      TimesConcat(Firing(h.s, c), [], t);
      if t in h.s.order {
        DoLeaves(h.s, c, t);
        if c.op.ListExpired? {
          DueIsFiring(h.s, c, t);
        }
      }
    }
  }

  lemma DueIsFiring(s: State, c: Call, t: Timer)
    requires Sound(s) && c.op.ListExpired? && t in s.order && t in s.tab
    ensures Known(s) && (s.tab[t].next <= c.now ==> t in Firing(s, c))
  {
    hide AfterExpiry;
    ExpireExactly(s, c.now);
  }

  lemma {:induction false} RunWaits(h: History, script: seq<Call>, t: Timer, next: nat)
    requires Sound(h.s) && WaitsOrFired(h, t, next) && forall c :: c in script ==> !Concerns(c.op, t)
    ensures WaitsOrFired(Run(h, script), t, next)
    decreases |script|
  {
    if script != [] {
      hide Sound, WaitsOrFired, Advance;
      AdvanceSound(h, script[0]);
      AdvanceWaits(h, script[0], t, next);
      RunWaits(Advance(h, script[0]), script[1..], t, next);
    }
  }

  /** A one-shot timer that is left alone has fired exactly once as soon as the expired callbacks
      are listed at or after its deadline, whatever was called before and whatever the clock did. */
  lemma FiresExactlyOnce(h: History, now: nat, t: Timer, ms: nat, cb: Option<int>, script: seq<Call>, later: nat)
    requires Sound(h.s) && t !in h.s.tab && Alone(h.s.order, t) && t !in h.fired
    requires now + ms < TWO_64 && now + ms <= later && forall c :: c in script ==> !Concerns(c.op, t)
    ensures var made := Advance(h, Call(now, NewTimer(t, ms, false, cb)));
      && Sound(made.s)
      && var n := Run(made, script);
        Sound(n.s) && Times(Advance(n, Call(later, ListExpired)).fired, t) == 1
  {
    var c := Call(now, NewTimer(t, ms, false, cb));
    var made := Advance(h, c);
    AdvanceSound(h, c);
    EnterSound(h.s, t, Fields(Word(now + ms), ms, false, cb));
    TimesConcat(h.fired, [], t);
    hide Sound, Ordered, Enter, Times, Advance;
    MadeWaits(h, now, t, ms, cb);
    RunWaits(made, script, t, now + ms);
    RunSound(made, script);
    AdvanceWaits(Run(made, script), Call(later, ListExpired), t, now + ms);
  }

  lemma MadeWaits(h: History, now: nat, t: Timer, ms: nat, cb: Option<int>)
    requires Sound(h.s) && t !in h.s.tab && Alone(h.s.order, t) && t !in h.fired && now + ms < TWO_64
    ensures WaitsOrFired(Advance(h, Call(now, NewTimer(t, ms, false, cb))), t, now + ms)
  {
    EnterSound(h.s, t, Fields(Word(now + ms), ms, false, cb));
    TimesConcat(h.fired, [], t);
  }

  /** A timer that is dead stays dead and never fires, whatever is called on it. */
  lemma {:induction false} DeadStaysSilent(h: History, t: Timer, script: seq<Call>)
    requires Sound(h.s) && Dead(h.s, t)
    ensures Dead(Run(h, script).s, t) && Times(Run(h, script).fired, t) == Times(h.fired, t)
    decreases |script|
  {
    if script != [] {
      var c := script[0];
      var n := Advance(h, c);
      AdvanceSound(h, c);
      if Allowed(h.s, c.op) {
        hide Sound, Do, Firing;
        DoTimer(h.s, c, t);
        FiringOnce(h.s, c, t);
        TimesConcat(h.fired, Firing(h.s, c), t);
      }
      DeadStaysSilent(n, t, script[1..]);
    }
  }

  /** After a cancel that succeeded, the timer never fires again. */
  lemma CancelSilences(h: History, now: nat, t: Timer, script: seq<Call>)
    requires Sound(h.s) && t in h.s.tab && AfterCancel(h.s, t).1 && Alone(h.s.order, t)
    ensures var n := Advance(h, Call(now, CancelTimer(t)));
      && n.fired == h.fired && Sound(n.s)
      && Times(Run(n, script).fired, t) == Times(h.fired, t)
  {
    var n := Advance(h, Call(now, CancelTimer(t)));
    AdvanceSound(h, Call(now, CancelTimer(t)));
    WithoutOrdered(h.s.tab, h.s.order, t);
    DeadStaysSilent(n, t, script);
  }

  // ---------------------------------------------------------------- the classes

  /** Where the loop over the set stops is the place. */
  lemma PlaceIs(tab: map<Timer, Fields>, order: seq<Timer>, t: Timer, p: nat)
    requires t in tab && (forall u :: u in order ==> u in tab) && p <= |order|
    requires forall i :: 0 <= i < p ==> Less(tab, order[i], t)
    requires p < |order| ==> !Less(tab, order[p], t)
    ensures p == Place(tab, order, t)
  {
  }

  /** A timer of the set is at its own place in it. */
  lemma PlaceFound(tab: map<Timer, Fields>, order: seq<Timer>, t: Timer)
    requires Ordered(tab, order) && t in tab && Alone(order, t)
    ensures var p := Place(tab, order, t);
      if t in order then
        p < |order| && order[p] == t && Without(order, t) == order[..p] + order[p + 1..]
      else
        p < |order| ==> Less(tab, t, order[p])
  {
    var p := Place(tab, order, t);
    if t in order {
      var i := FindFirst(order, t);
      PlaceIs(tab, order, t, i);
      WithoutAt(order, t, i);
    } else if p < |order| {
      AfterPlace(tab, order, t, p);
    }
  }

  /** A timer comes to the front of the set exactly when its place is zero. */
  lemma FrontIsZero(tab: map<Timer, Fields>, order: seq<Timer>, t: Timer)
    requires t in tab && (forall u :: u in order ==> u in tab) && t !in order
    ensures Insert(tab, order, t)[0] == t <==> Place(tab, order, t) == 0
  {
    var p := Place(tab, order, t);
    assert p > 0 ==> order[0] in order;
  }

  /** The cut after the leading timers not later than now is the filter by deadline. */
  lemma CutIs(tab: map<Timer, Fields>, order: seq<Timer>, now: nat, it: nat)
    requires Ordered(tab, order) && it <= |order|
    requires forall i :: 0 <= i < it ==> tab[order[i]].next <= now
    requires it < |order| ==> tab[order[it]].next > now
    ensures order[..it] == Due(tab, order, now) && order[it..] == Pending(tab, order, now)
  {
    DueIsPrefix(tab, order, now);
    DueMembers(tab, order, now);
    var n := |Due(tab, order, now)|;
    assert forall i :: 0 <= i < n ==> order[..n][i] in Due(tab, order, now);
    assert n < |order| ==> order[n..][0] in Pending(tab, order, now);
  }

  lemma MoveReady(s: State, t: Timer, f: Fields)
    requires Sound(s) && t in s.order
    ensures var tab, rest := s.tab[t := f], Without(s.order, t);
      Ordered(tab, rest) && t !in rest && Alone(rest, t)
  {
    WithoutOrdered(s.tab, s.order, t);
    AloneInSet(s.tab, s.order, t);
    KeyStays(s.tab, Without(s.order, t), t, f);
  }

  /** The set between taking a timer out and putting it back, its fields changed meanwhile. */
  function Between(s: State, t: Timer, f: Fields): State {
    s.(tab := s.tab[t := f], order := Without(s.order, t))
  }

  lemma RefreshIs(s: State, now: nat, t: Timer)
    requires Known(s) && t in s.order && s.tab[t].cb.Some?
    ensures var m := Between(s, t, s.tab[t].(next := Word(now + s.tab[t].ms)));
      && Known(m) && t in m.tab
      && AfterRefresh(s, now, t) == (m.(order := Insert(m.tab, m.order, t)), true)
  {
    hide Insert;
    WithoutMembers(s.order, t);
  }

  lemma ResetIs(s: State, now: nat, t: Timer, ms: nat, fromNow: bool)
    requires Known(s) && t in s.order && s.tab[t].cb.Some? && (ms != s.tab[t].ms || fromNow)
    ensures var start := if fromNow then now else Word(s.tab[t].next - s.tab[t].ms);
      var f := s.tab[t].(next := Word(start + ms), ms := ms);
      var m := Between(s, t, f);
      && Known(m) && t in m.tab && AfterReset(s, now, t, ms, fromNow) == (Enter(m, t, f), true)
  {
    hide Insert;
    WithoutMembers(s.order, t);
    var start := if fromNow then now else Word(s.tab[t].next - s.tab[t].ms);
    var f := s.tab[t].(next := Word(start + ms), ms := ms);
    EnterSame(s.(order := Without(s.order, t)), t, f);
  }

  lemma EnterSame(s: State, t: Timer, f: Fields)
    requires Known(s)
    ensures Known(s.(tab := s.tab[t := f])) && Enter(s.(tab := s.tab[t := f]), t, f) == Enter(s, t, f)
  {
    hide Insert;
    assert s.tab[t := f][t := f] == s.tab[t := f];
  }

  lemma ExpiryCases(s: State, now: nat)
    requires Sound(s)
    ensures s.order == [] ==> AfterExpiry(s, now) == (s, [])
    ensures s.order != [] ==> s.order[0] in s.order
    ensures s.order != [] && !RolledOver(s.previous, now) && s.tab[s.order[0]].next > now ==>
      AfterExpiry(s, now) == (s.(previous := now), [])
    ensures s.order != [] ==>
      var due := if RolledOver(s.previous, now) then s.order else Due(s.tab, s.order, now);
      var rest := if RolledOver(s.previous, now) then [] else Pending(s.tab, s.order, now);
      && Ordered(s.tab, rest) && Outside(rest, due) && (forall t :: t in due ==> t in s.tab)
      && (forall t :: t in rest ==> t in s.tab)
      && var r := Rearm(s.tab, rest, due, now);
        AfterExpiry(s, now) == (s.(tab := r.0, order := r.1, previous := now), due)
  {
    hide Rearm, Less;
    if s.order != [] {
      DueMembers(s.tab, s.order, now);
      DueIsPrefix(s.tab, s.order, now);
      SplitOrdered(s.tab, s.order, |Due(s.tab, s.order, now)|);
      SplitOrdered(s.tab, s.order, |s.order|);
      assert s.order[|s.order|..] == [] && s.order[..|s.order|] == s.order;
      if !RolledOver(s.previous, now) && s.tab[s.order[0]].next > now {
        NothingDue(s, now);
      }
    }
  }

  lemma NothingDue(s: State, now: nat)
    requires Sound(s) && s.order != [] && s.tab[s.order[0]].next > now
    requires !RolledOver(s.previous, now)
    ensures AfterExpiry(s, now) == (s.(previous := now), [])
  {
    forall t | t in s.order
      ensures s.tab[t].next > now
    {
      FrontFirst(s, t);
    }
    LaterPending(s.tab, s.order, now);
  }

  lemma OrderedKnown(s: State)
    requires Ordered(s.tab, s.order)
    ensures Known(s)
  {
  }

  /** One turn of the loop over the expired timers. */
  function RearmOne(s: State, t: Timer, now: nat): State
    requires Known(s) && t in s.tab
  {
    var tab := s.tab[t := Fired(s.tab[t], now)];
    s.(tab := tab, order := if s.tab[t].recurring then Insert(tab, s.order, t) else s.order)
  }

  /** The loop over the expired timers at its i-th turn: what is left to do on the present state
      comes to what there was to do at the start. */
  ghost predicate Turning(s: State, was: State, expired: seq<Timer>, i: nat, now: nat) {
    && i <= |expired| && (forall t :: t in expired ==> t in was.tab)
    && Known(s) && Known(was) && Ordered(s.tab, s.order) && Outside(s.order, expired[i..])
    && s.tab.Keys == was.tab.Keys && s.tickled == was.tickled && s.previous == was.previous
    && (forall t :: t in expired[i..] ==> t in s.tab && s.tab[t] == was.tab[t])
    && Rearm(s.tab, s.order, expired[i..], now) == Rearm(was.tab, was.order, expired, now)
  }

  lemma TurningStart(was: State, expired: seq<Timer>, now: nat)
    requires Known(was) && Ordered(was.tab, was.order) && Outside(was.order, expired)
    requires forall t :: t in expired ==> t in was.tab
    ensures Turning(was, was, expired, 0, now)
  {
    assert expired[0..] == expired;
  }

  lemma TurningStep(s: State, was: State, expired: seq<Timer>, i: nat, now: nat)
    requires i < |expired| && Turning(s, was, expired, i, now)
    ensures var t := expired[i];
      && Known(s) && t in s.tab && t in was.tab && s.tab[t] == was.tab[t]
      && t !in s.order && Alone(s.order, t)
      && Ordered(s.tab[t := Fired(s.tab[t], now)], s.order)
      && Turning(RearmOne(s, t, now), was, expired, i + 1, now)
    ensures forall t :: t in expired ==> t in was.tab
    ensures Callbacks(was.tab, expired)[..i + 1] == Callbacks(was.tab, expired)[..i] + [s.tab[expired[i]].cb]
  {
    hide Ordered, Outside, Rearm, Insert, Alone;
    RearmTurn(s, expired, i, now);
    assert expired[i] in expired;
  }

  lemma TurningEnd(s: State, was: State, expired: seq<Timer>, now: nat)
    requires Turning(s, was, expired, |expired|, now)
    ensures Known(was) && (forall t :: t in expired ==> t in was.tab)
    ensures (s.tab, s.order) == Rearm(was.tab, was.order, expired, now)
    ensures s.tickled == was.tickled && s.previous == was.previous
    ensures Callbacks(was.tab, expired)[..|expired|] == Callbacks(was.tab, expired)
  {
    assert expired[|expired|..] == [];
  }

  lemma RearmTurn(s: State, expired: seq<Timer>, i: nat, now: nat)
    requires Ordered(s.tab, s.order) && i < |expired| && Outside(s.order, expired[i..])
    requires forall t :: t in expired[i..] ==> t in s.tab
    ensures Known(s) && expired[i] in s.tab && expired[i] in expired[i..]
    ensures expired[i] !in s.order && Alone(s.order, expired[i]) && expired[i] !in expired[i + 1..]
    ensures var n := RearmOne(s, expired[i], now);
      && Known(n) && Ordered(n.tab, n.order) && Outside(n.order, expired[i + 1..])
      && (forall t :: t in expired[i + 1..] ==> t in expired[i..] && n.tab[t] == s.tab[t])
      && Rearm(s.tab, s.order, expired[i..], now) == Rearm(n.tab, n.order, expired[i + 1..], now)
    ensures Ordered(s.tab[expired[i] := Fired(s.tab[expired[i]], now)], s.order)
  {
    hide Less, Insert, Ordered, Outside, Alone;
    var t := expired[i];
    var due := expired[i..];
    assert due[0] == t && due[1..] == expired[i + 1..] && due == [t] + due[1..];
    OrderedKnown(s);
    OutsideFirst(s.order, due);
    RearmStep(s.tab, s.order, due, now);
    KeyStays(s.tab, s.order, t, Fired(s.tab[t], now));
    OrderedKnown(RearmOne(s, t, now));
  }

  lemma OutsideFirst(order: seq<Timer>, due: seq<Timer>)
    requires due != [] && Outside(order, due)
    ensures due[0] in due && due[0] !in order && Alone(order, due[0])
  {
  }

  class Timer {
    const address: nat
    const manager: TimerManager?
    var recurring: bool
    var ms: nat
    var next: nat
    var cb: Option<int>

    constructor (address: nat, ms: nat, cb: Option<int>, recurring: bool, manager: TimerManager, now: nat)
      ensures this.address == address && this.manager == manager
      ensures Get() == Fields(Word(now + ms), ms, recurring, cb)
    {
      this.address, this.manager := address, manager;
      this.recurring, this.ms, this.cb := recurring, ms, cb;
      this.next := Word(now + ms);
    }

    /** A timer that only stands for a time. */
    constructor At(address: nat, next: nat)
      ensures this.address == address && this.next == next
    {
      this.address, manager := address, null;
      recurring, ms, cb := false, 0, None;
      this.next := next;
    }

    function Get(): Fields
      reads this
    {
      Fields(next, ms, recurring, cb)
    }

    predicate Before(other: Timer)
      reads this, other
    {
      next < other.next || (next == other.next && address < other.address)
    }

    ghost predicate Usable()
      reads this, manager, if manager == null then {} else manager.all
    {
      && manager != null && manager.Valid()
      && this in manager.all && Alone(manager.timers, this)
    }

    lemma UsableFacts()
      requires Usable()
      ensures manager != null && manager.Valid() && this in manager.all && Alone(manager.timers, this)
      ensures var s := manager.Abs();
        && Sound(s) && Known(s) && Ordered(s.tab, s.order) && this in s.tab
        && (cb.Some? ==> this in s.order)
        && s.order == manager.timers && s.tickled == manager.tickled
        && s.tab[this] == Get() && Get() == Fields(next, ms, recurring, cb)
      ensures forall t :: t in manager.all ==> t.manager == manager
    {
      SoundOrdered(manager.Abs());
    }

    method Cancel() returns (ok: bool)
      requires Usable()
      modifies this`cb, manager`timers
      ensures manager.Valid() && manager.all == old(manager.all)
      ensures (manager.Abs(), ok) == AfterCancel(old(manager.Abs()), this)
      ensures ok == old(cb).Some? && cb == None
      ensures forall u :: u in manager.timers <==> u in old(manager.timers) && (ok ==> u != this)
    {
      hide Less, Ordered, Place, Without, Alone, Known, Sound;
      UsableFacts();
      ghost var was := manager.Abs();
      CancelSound(was, this);
      if cb.Some? {
        PlaceFound(was.tab, was.order, this);
        var it := manager.Find(this);
        cb := None;
        manager.Erase(it);
        manager.AbsIs(AfterCancel(was, this).0);
        WithoutOrdered(was.tab, was.order, this);
        return true;
      }
      return false;
    }

    /** Out of the set first, and only then new values for the fields the set is sorted by. */
    method TakeOut(it: nat, next: nat, ms: nat)
      requires Usable() && this in manager.timers
      requires it == Place(manager.Abs().tab, manager.timers, this)
      modifies this`next, this`ms, manager`timers
      ensures manager.all == old(manager.all) && Get() == old(Get()).(next := next, ms := ms)
      ensures this.next == next && this.ms == ms
      ensures var s := manager.Abs();
        && s == Between(old(manager.Abs()), this, old(Get()).(next := next, ms := ms))
        && Known(s) && Ordered(s.tab, s.order) && this !in s.order && Alone(s.order, this)
        && s.order == manager.timers
    {
      hide Less, Ordered, Place, Without, Alone, Known, Sound;
      UsableFacts();
      ghost var was := manager.Abs();
      PlaceFound(was.tab, was.order, this);
      manager.Erase(it);
      this.next, this.ms := next, ms;
      MoveReady(was, this, Get());
      manager.AbsIs(Between(was, this, Get()));
      OrderedKnown(manager.Abs());
    }

    method Refresh(now: nat) returns (ok: bool)
      requires Usable()
      modifies this`next, this`ms, manager`timers
      ensures manager.Valid() && manager.all == old(manager.all)
      ensures (manager.Abs(), ok) == AfterRefresh(old(manager.Abs()), now, this)
      ensures ok == old(cb).Some? && ms == old(ms)
      ensures next == if ok then (now + ms) % 0x1_0000_0000_0000_0000 else old(next)
      ensures forall u :: u in manager.timers <==> u in old(manager.timers)
    {
      hide *;
      UsableFacts();
      ghost var was := manager.Abs();
      RefreshSound(was, now, this);
      RefreshCases(was, now, this);
      if cb.None? {
        return false;
      }
      var it := manager.Find(this);
      if it == |manager.timers| {
        return false;
      }
      WordIs(now + ms);
      TakeOut(it, Word(now + ms), ms);
      it := manager.InsertInSet(this);
      manager.ValidIs();
      manager.TabFacts();
      assert manager.Abs() == AfterRefresh(was, now, this).0;
      RefreshMembers(was, now, this, manager.timers);
      return true;
    }

    /** As written, a call that keeps the period and the start reports success without looking
        whether the timer is still in the set. */
    method Reset(now: nat, ms: nat, fromNow: bool) returns (ok: bool, woke: bool)
      requires Usable()
      modifies this`next, this`ms, manager`timers, manager`tickled
      ensures manager.Valid() && manager.all == old(manager.all)
      ensures (manager.Abs(), ok) == AfterReset(old(manager.Abs()), now, this, ms, fromNow)
      ensures woke <==> manager.tickled && !old(manager.tickled)
      ensures var moved := old(cb).Some? && (ms != old(this.ms) || fromNow);
        && (ok <==> moved || (ms == old(this.ms) && !fromNow))
        && this.ms == (if moved then ms else old(this.ms))
        && next == (if !moved then old(next)
                    else (if fromNow then now + ms else old(next - this.ms) + ms) % 0x1_0000_0000_0000_0000)
        && (woke <==> moved && !old(manager.tickled) && Foremost(manager.timers, this))
        && manager.tickled == (old(manager.tickled) || woke)
      ensures forall u :: u in manager.timers <==> u in old(manager.timers)
    {
      hide *;
      UsableFacts();
      ghost var was := manager.Abs();
      ResetSound(was, now, this, ms, fromNow);
      ResetCases(was, now, this, ms, fromNow);
      if ms == this.ms && !fromNow {
        return true, false;
      }
      if cb.None? {
        return false, false;
      }
      var it := manager.Find(this);
      if it == |manager.timers| {
        return false, false;
      }
      var start := if fromNow then now else Word(next - this.ms);
      WordIs(start + ms);
      WordSum(next - this.ms, ms);
      TakeOut(it, Word(start + ms), ms);
      woke := manager.AddLocked(this);
      manager.ValidIs();
      manager.TabFacts();
      assert manager.Abs() == AfterReset(was, now, this, ms, fromNow).0;
      ResetMembers(was, now, this, ms, fromNow, manager.timers);
      return true, woke;
    }
  }

  lemma WordSum(x: int, d: nat)
    ensures Word(Word(x) + d) == (x + d) % 0x1_0000_0000_0000_0000
  {
  }

  lemma RefreshMembers(s: State, now: nat, t: Timer, order: seq<Timer>)
    requires Sound(s) && t in s.tab && order == AfterRefresh(s, now, t).0.order
    ensures forall u :: u in order <==> u in s.order
  {
    forall u
      ensures u in order <==> u in s.order
    {
      RefreshTimerOnly(s, now, t, u);
    }
  }

  lemma ResetMembers(s: State, now: nat, t: Timer, ms: nat, fromNow: bool, order: seq<Timer>)
    requires Sound(s) && t in s.tab && order == AfterReset(s, now, t, ms, fromNow).0.order
    ensures forall u :: u in order <==> u in s.order
  {
    forall u
      ensures u in order <==> u in s.order
    {
      ResetTimerOnly(s, now, t, ms, fromNow, u);
    }
  }

  lemma RefreshCases(s: State, now: nat, t: Timer)
    requires Known(s) && t in s.tab
    ensures s.tab[t].cb.None? || t !in s.order ==> AfterRefresh(s, now, t) == (s, false)
    ensures s.tab[t].cb.Some? && t in s.order ==>
      var m := Between(s, t, s.tab[t].(next := Word(now + s.tab[t].ms)));
      && Known(m) && t in m.tab
      && AfterRefresh(s, now, t) == (m.(order := Insert(m.tab, m.order, t)), true)
  {
    hide Insert;
    if s.tab[t].cb.Some? && t in s.order {
      RefreshIs(s, now, t);
    }
  }

  lemma ResetCases(s: State, now: nat, t: Timer, ms: nat, fromNow: bool)
    requires Known(s) && t in s.tab
    ensures ms == s.tab[t].ms && !fromNow ==> AfterReset(s, now, t, ms, fromNow) == (s, true)
    ensures (ms != s.tab[t].ms || fromNow) && (s.tab[t].cb.None? || t !in s.order) ==>
      AfterReset(s, now, t, ms, fromNow) == (s, false)
    ensures (ms != s.tab[t].ms || fromNow) && s.tab[t].cb.Some? && t in s.order ==>
      var start := if fromNow then now else Word(s.tab[t].next - s.tab[t].ms);
      var f := s.tab[t].(next := Word(start + ms), ms := ms);
      var m := Between(s, t, f);
      && Known(m) && t in m.tab && AfterReset(s, now, t, ms, fromNow) == (Enter(m, t, f), true)
  {
    hide Insert, Enter;
    if (ms != s.tab[t].ms || fromNow) && s.tab[t].cb.Some? && t in s.order {
      ResetIs(s, now, t, ms, fromNow);
    }
  }

  class TimerManager {
    ghost var all: set<Timer> // every timer made so far
    var timers: seq<Timer>    // the ordered set, in its order
    var tickled: bool
    var previous: nat

    ghost function Abs(): State
      reads this, all
    {
      State(map t | t in all :: t.Get(), timers, tickled, previous)
    }

    ghost predicate Valid()
      reads this, all
    {
      Sound(Abs()) && forall t :: t in all ==> t.manager == this
    }

    lemma AbsIs(s: State)
      requires s.tab.Keys == all && forall t :: t in all ==> s.tab[t] == t.Get()
      requires s.order == timers && s.tickled == tickled && s.previous == previous
      ensures Abs() == s
    {
      assert Abs().tab == s.tab;
    }

    lemma ValidFacts()
      requires Valid()
      ensures Sound(Abs()) && forall t :: t in all ==> t.manager == this
    {
    }

    lemma ValidIs()
      requires Sound(Abs()) && forall t :: t in all ==> t.manager == this
      ensures Valid()
    {
    }

    constructor (now: nat)
      ensures Valid() && all == {} && Abs() == Start(now).s
      ensures timers == [] && !tickled && previous == now
    {
      all, timers, tickled, previous := {}, [], false, now;
    }

    /** The first element that is not before the key. */
    method LowerBound(key: Timer) returns (it: nat)
      ensures it <= |timers|
      ensures forall i :: 0 <= i < it ==> timers[i].Before(key)
      ensures it < |timers| ==> !timers[it].Before(key)
    {
      it := 0;
      while it < |timers| && timers[it].Before(key)
        invariant it <= |timers|
        invariant forall i :: 0 <= i < it ==> timers[i].Before(key)
      {
        it := it + 1;
      }
    }

    lemma BoundIsPlace(t: Timer, it: nat)
      requires Known(Abs()) && t in all && it <= |timers|
      requires forall i :: 0 <= i < it ==> timers[i].Before(t)
      requires it < |timers| ==> !timers[it].Before(t)
      ensures it == Place(Abs().tab, timers, t)
      ensures it < |timers| ==> (t.Before(timers[it]) <==> Less(Abs().tab, t, timers[it]))
    {
      assert forall i :: 0 <= i < |timers| ==> timers[i] in timers;
      PlaceIs(Abs().tab, timers, t, it);
    }

    method Find(t: Timer) returns (it: nat)
      requires Known(Abs()) && Ordered(Abs().tab, timers) && t in all && Alone(timers, t)
      ensures t !in timers ==> it == |timers|
      ensures t in timers ==> it < |timers| && it == Place(Abs().tab, timers, t) && timers[it] == t
    {
      hide Ordered, Alone, Place, Known;
      it := LowerBound(t);
      BoundIsPlace(t, it);
      PlaceFound(Abs().tab, timers, t);
      if it < |timers| && t.Before(timers[it]) {
        it := |timers|;
      }
    }

    method Erase(it: nat)
      requires it < |timers|
      modifies this`timers
      ensures timers == old(timers[..it] + timers[it + 1..])
    {
      timers := timers[..it] + timers[it + 1..];
    }

    /** Insertion keeps the set in order on the keys as they are now. */
    method InsertInSet(t: Timer) returns (it: nat)
      requires Known(Abs()) && Ordered(Abs().tab, timers)
      requires t in all && t !in timers && Alone(timers, t)
      modifies this`timers
      ensures timers == Insert(old(Abs()).tab, old(timers), t)
      ensures Abs() == old(Abs()).(order := timers)
      ensures it == Place(old(Abs()).tab, old(timers), t)
    {
      hide Ordered, Alone, Place, Known, Less;
      ghost var s := Abs();
      it := LowerBound(t);
      BoundIsPlace(t, it);
      PlaceFound(Abs().tab, timers, t);
      if it == |timers| || t.Before(timers[it]) {
        timers := timers[..it] + [t] + timers[it..];
      }
      AbsIs(s.(order := timers));
    }

    /** add_timer with the lock held; woke says whether on_timer_inserted_at_front is called. */
    method AddLocked(t: Timer) returns (woke: bool)
      requires Known(Abs()) && Ordered(Abs().tab, timers)
      requires t in all && t !in timers && Alone(timers, t)
      modifies this`timers, this`tickled
      ensures Abs() == Enter(old(Abs()), t, old(t.Get()))
      ensures woke <==> !old(tickled) && Foremost(timers, t)
      ensures tickled == (old(tickled) || woke)
      ensures forall u :: u in timers <==> u in old(timers) || u == t
    {
      hide Less, Ordered, Place, Alone, Insert;
      ghost var s := Abs();
      assert s.tab == s.tab[t := t.Get()];
      var it := InsertInSet(t);
      FrontIsZero(s.tab, s.order, t);
      InsertOrdered(s.tab, s.order, t);
      var atFront := it == 0 && !tickled;
      if atFront {
        tickled := true;
      }
      AbsIs(Enter(s, t, t.Get()));
      return atFront;
    }

    method AddTimer(now: nat, ms: nat, cb: Option<int>, recurring: bool, address: nat)
      returns (t: Timer, woke: bool)
      requires Valid() && forall u :: u in timers ==> u.address != address
      modifies this
      ensures fresh(t) && t.address == address && all == old(all) + {t}
      ensures Valid() && Abs() == AfterAdd(old(Abs()), now, t, ms, recurring, cb)
      ensures t.recurring == recurring && t.ms == ms && t.cb == cb
      ensures t.next == (now + ms) % 0x1_0000_0000_0000_0000
      ensures forall u :: u in timers <==> u in old(timers) || u == t
      ensures forall u :: u in old(all) ==> u.Get() == old(u.Get())
      ensures woke <==> !old(tickled) && Foremost(timers, t)
      ensures tickled == (old(tickled) || woke) && previous == old(previous)
    {
      hide Less, Ordered, Place, Insert, Enter, Sound, Known;
      ghost var was := Abs();
      SoundOrdered(was);
      t := new Timer(address, ms, cb, recurring, this, now);
      Fresh(was, t, t.Get());
      AddSound(was, now, t, ms, recurring, cb);
      all := all + {t};
      AbsIs(was.(tab := was.tab[t := t.Get()]));
      woke := AddLocked(t);
    }

    method GetNextTime(now: nat) returns (ms: nat)
      requires Known(Abs())
      modifies this`tickled
      ensures (Abs(), ms) == AfterAsk(old(Abs()), now)
      ensures !tickled
      ensures timers == [] ==> ms == 0xFFFF_FFFF_FFFF_FFFF
      ensures timers != [] ==> ms == if now >= timers[0].next then 0 else timers[0].next - now
    {
      ghost var was := Abs();
      tickled := false;
      AbsIs(was.(tickled := false));
      if timers == [] {
        return TWO_64 - 1;
      }
      var first := timers[0];
      assert first in timers;
      if now >= first.next {
        return 0;
      }
      return first.next - now;
    }

    method DetectClockRollOver(now: nat) returns (rolled: bool)
      modifies this`previous
      ensures previous == now
      ensures rolled <==> RolledOver(old(previous), now)
    {
      rolled := false;
      if now < previous && now < Word(previous - HOUR) {
        rolled := true;
      }
      previous := now;
    }

    /** Where the leading elements to expire end. As written: the lower bound of a timer that
        stands for now, at whatever address, and past it the elements with this very deadline. */
    method ExpiredEnd(now: nat, probe: nat, rolled: bool) returns (it: nat)
      requires Known(Abs()) && Ordered(Abs().tab, timers)
      ensures it <= |timers|
      ensures timers[..it] == if rolled then timers else Due(Abs().tab, timers, now)
      ensures timers[it..] == if rolled then [] else Pending(Abs().tab, timers, now)
    {
      hide Ordered, Known;
      ghost var s := Abs();
      var key := new Timer.At(probe, now);
      if rolled {
        it := |timers|;
      } else {
        it := LowerBound(key);
      }
      ghost var low := it;
      while it < |timers| && timers[it].next == now
        invariant low <= it <= |timers|
        invariant forall i :: low <= i < it ==> timers[i].next == now
      {
        it := it + 1;
      }
      if !rolled {
        EndIsCut(now, low, it);
      }
      assert timers[..|timers|] == timers;
    }

    lemma EndIsCut(now: nat, low: nat, it: nat)
      requires Known(Abs()) && Ordered(Abs().tab, timers) && low <= it <= |timers|
      requires forall i :: 0 <= i < it ==> timers[i].next <= now
      requires low < |timers| ==> timers[low].next >= now
      requires it < |timers| ==> timers[it].next != now
      ensures timers[..it] == Due(Abs().tab, timers, now)
      ensures timers[it..] == Pending(Abs().tab, timers, now)
    {
      var s := Abs();
      assert forall i :: 0 <= i < |timers| ==> timers[i] in timers;
      assert low < it < |timers| ==> Less(s.tab, timers[low], timers[it]);
      CutIs(s.tab, timers, now, it);
    }

    method RearmTimer(t: Timer, now: nat)
      requires Known(Abs()) && t in all && t !in timers && Alone(timers, t)
      requires Ordered(Abs().tab[t := Fired(Abs().tab[t], now)], timers)
      modifies this`timers, t`next, t`cb
      ensures all == old(all)
      ensures Abs() == RearmOne(old(Abs()), t, now)
    {
      hide Ordered, Alone, Insert;
      ghost var s := Abs();
      if t.recurring {
        t.next := Word(now + t.ms);
        AbsIs(s.(tab := s.tab[t := Fired(s.tab[t], now)]));
        var at := InsertInSet(t);
      } else {
        t.cb := None;
      }
      AbsIs(RearmOne(s, t, now));
    }

    /** Re-enters or disarms the timers just taken out of the set, one by one. */
    method RearmAll(expired: seq<Timer>, now: nat) returns (cbs: seq<Option<int>>)
      requires Known(Abs()) && Ordered(Abs().tab, timers) && Outside(timers, expired)
      requires forall t :: t in expired ==> t in all
      modifies this`timers, all
      ensures all == old(all) && tickled == old(tickled) && previous == old(previous)
      ensures (Abs().tab, timers) == Rearm(old(Abs()).tab, old(timers), expired, now)
      ensures cbs == Callbacks(old(Abs()).tab, expired)
    {
      hide *;
      ghost var was := Abs();
      cbs := [];
      TabFacts();
      TurningStart(was, expired, now);
      for i := 0 to |expired|
        invariant all == old(all) && Turning(Abs(), was, expired, i, now)
        invariant cbs == Callbacks(was.tab, expired)[..i]
      {
        var t := expired[i];
        TurningStep(Abs(), was, expired, i, now);
        TabFacts();
        cbs := cbs + [t.cb];
        RearmTimer(t, now);
      }
      TurningEnd(Abs(), was, expired, now);
      TabFacts();
    }

    lemma TabFacts()
      ensures var s := Abs();
        && s.tab.Keys == all && (forall t :: t in all ==> s.tab[t] == t.Get())
        && (forall t :: t in all ==> s.tab[t].cb == t.cb && s.tab[t].next == t.next)
        && (forall t :: t in all ==> s.tab[t].ms == t.ms && s.tab[t].recurring == t.recurring)
        && s.order == timers && s.tickled == tickled && s.previous == previous
    {
    }

    /** What listing the expired callbacks comes to: those of the leading timers, which are the ones
        due, or all on a roll-over; the fields of every timer, the set and the time remembered. */
    ghost predicate Listed(was: State, now: nat, cbs: seq<Option<int>>)
      reads this, all
    {
      && Known(was) && was.tab.Keys == all
      && |cbs| <= |was.order| && (forall i :: 0 <= i < |cbs| ==> cbs[i] == was.tab[was.order[i]].cb)
      && (forall i :: 0 <= i < |was.order| ==>
            var t := was.order[i];
            && (i < |cbs| <==> RolledOver(was.previous, now) || was.tab[t].next <= now)
            && Changed(was.tab[t], t.Get(), i < |cbs|, now)
            && (t in timers <==> |cbs| <= i || was.tab[t].recurring))
      && (forall t :: t in timers ==> t in was.order)
      && (forall t :: t in all && t !in was.order ==> t.Get() == was.tab[t])
      && tickled == was.tickled && previous == if was.order == [] then was.previous else now
    }

    lemma ListedIs(was: State, now: nat, cbs: seq<Option<int>>)
      requires Sound(was) && was.tab.Keys == all && Abs() == AfterExpiry(was, now).0
      requires cbs == Callbacks(was.tab, AfterExpiry(was, now).1)
      ensures Listed(was, now, cbs)
    {
      hide AfterExpiry, Sound, RolledOver, Changed, Less;
      SoundOrdered(was);
      ExpireAt(was, now);
      ExpireTickled(was, now);
      TabFacts();
    }

    /** The callbacks to run, in set order. */
    method ListExpiredCb(now: nat, probe: nat) returns (cbs: seq<Option<int>>)
      requires Valid()
      modifies this, all
      ensures Valid() && all == old(all)
      ensures Abs() == AfterExpiry(old(Abs()), now).0
      ensures cbs == Callbacks(old(Abs()).tab, AfterExpiry(old(Abs()), now).1)
      ensures Listed(old(Abs()), now, cbs)
    {
      hide *;
      ValidFacts();
      TabFacts();
      ghost var was := Abs();
      SoundOrdered(was);
      ExpireExactly(was, now);
      ExpiryCases(was, now);
      if timers == [] {
        cbs := [];
        ListedIs(was, now, cbs);
        return;
      }
      var rolled := DetectClockRollOver(now);
      AbsIs(was.(previous := now));
      OrderedKnown(Abs());
      if !rolled && timers[0].next > now {
        ValidIs();
        cbs := [];
        ListedIs(was, now, cbs);
        return;
      }
      var it := ExpiredEnd(now, probe, rolled);
      var expired := timers[..it];
      timers := timers[it..];
      AbsIs(was.(previous := now, order := was.order[it..]));
      OrderedKnown(Abs());
      cbs := RearmAll(expired, now);
      TabFacts();
      ValidIs();
      ListedIs(was, now, cbs);
    }
  }

  lemma Fresh(s: State, t: Timer, f: Fields)
    requires Sound(s) && t !in s.tab && forall u :: u in s.order ==> u.address != t.address
    ensures t !in s.order && Alone(s.order, t)
    ensures var n := s.(tab := s.tab[t := f]);
      Known(n) && Ordered(n.tab, n.order) && Enter(n, t, f) == Enter(s, t, f)
  {
    KeyStays(s.tab, s.order, t, f);
    EnterSame(s, t, f);
  }
}
