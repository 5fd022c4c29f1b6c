/** The timers of EventQueue as a state machine: relative countdowns in a heap, decremented
    together at every check against one shared stopwatch. */
module Timers {
  import opened Options
  import opened TimerHeap

  // m_timerQueue, m_timers and the reading at which m_time was last reset.
  datatype State = State(queue: seq<Timer>, ids: set<TimerId>, mark: real)

  // Readings of Arch::time() are part of the label; Check reads the clock twice, once in
  // getTime() and once in reset().
  datatype Label =
    | Create(id: TimerId, duration: real, target: nat, oneShot: bool, at: real)
    | Delete(id: TimerId)
    | Check(read: real, reset: real)

  // ---------------------------------------------------------------- steps

  /** The entry that newTimer or newOneShotTimer queues at the given reading. */
  function Created(mark: real, l: Label): Timer
    requires l.Create?
  {
    Timer(l.id, l.duration, if l.target == 0 then l.id else l.target, l.oneShot,
          l.duration + (l.at - mark))
  }

  /** The queue after the elapsed time has been subtracted. */
  function Counted(s: State, l: Label): seq<Timer>
    requires l.Check?
  {
    CountedDown(s.queue, l.read - s.mark)
  }

  /** The timer for which a check reports an event. */
  function Served(s: State, l: Label): (t: Option<Timer>) {
    if l.Check? && s.queue != [] && Counted(s, l)[0].time <= 0.0 then Some(Counted(s, l)[0]) else None
  }

  /** TimerEvent::m_count as filled in by Timer::fillEvent. */
  function Count(t: Timer): int
    requires t.timeout > 0.0
  {
    if t.time <= 0.0 then ((t.timeout - t.time) / t.timeout).Floor else 0
  }

  function Rearmed(t: Timer): Timer {
    t.(time := t.timeout)
  }

  /** The index at which deleteTimer's scan stops. */
  function FirstMatch(q: seq<Timer>, id: TimerId): (k: nat)
    ensures k <= |q|
    ensures k < |q| ==> q[k].id == id
    ensures forall i :: 0 <= i < k ==> q[i].id != id
  {
    if q == [] || q[0].id == id then 0 else 1 + FirstMatch(q[1..], id)
  }

  // A heap with the given contents: all that push_heap, pop_heap and make_heap promise.
  ghost predicate HeapOf(q: seq<Timer>, contents: multiset<Timer>) {
    IsHeap(q) && multiset(q) == contents
  }

  ghost predicate Step(s: State, l: Label, s': State) {
    match l
    case Create(id, duration, _, _, _) =>
      // operator new returns a pointer that no live timer has
      && duration > 0.0 && id !in s.ids
      && s'.ids == s.ids + {id} && s'.mark == s.mark
      && HeapOf(s'.queue, multiset(s.queue) + multiset{Created(s.mark, l)})
    case Delete(id) =>
      && id in s.ids
      && s'.ids == s.ids - {id} && s'.mark == s.mark
      && var k := FirstMatch(s.queue, id);
         if k == |s.queue| then s'.queue == s.queue
         else HeapOf(s'.queue, multiset(s.queue) - multiset{s.queue[k]})
    case Check(_, reset) =>
      if s.queue == [] then s' == s
      else
        && s'.ids == s.ids && s'.mark == reset
        && match Served(s, l)
           case None => s'.queue == Counted(s, l)
           case Some(t) =>
             var rest := multiset(Counted(s, l)) - multiset{t};
             HeapOf(s'.queue, if t.oneShot then rest else rest + multiset{Rearmed(t)})
  }

  // ---------------------------------------------------------------- the queue as a table

  type TimerTable = map<TimerId, Timer>

  ghost predicate Keyed(m: TimerTable) {
    forall id :: id in m ==> m[id].id == id
  }

  // The queue holds each entry of the table exactly once and nothing else.
  ghost predicate Represents(q: seq<Timer>, m: TimerTable) {
    Keyed(m) && multiset(q) == multiset(m.Values)
  }

  // Queued timers are in m_timers and have a positive period.
  ghost predicate Wellformed(m: TimerTable, ids: set<TimerId>) {
    forall id :: id in m ==> id in ids && m[id].timeout > 0.0
  }

  ghost predicate Valid(s: State) {
    IsHeap(s.queue) && exists m :: Represents(s.queue, m) && Wellformed(m, s.ids)
  }

  function Initial(reading: real): State {
    State([], {}, reading)
  }

  lemma Member(q: seq<Timer>, m: TimerTable, t: Timer)
    requires Represents(q, m)
    ensures t in q <==> t.id in m && m[t.id] == t
  {
    assert t in q <==> t in multiset(q);
    assert t in m.Values <==> t in multiset(m.Values);
  }

  lemma OneTable(q: seq<Timer>, m: TimerTable, n: TimerTable)
    requires Represents(q, m) && Represents(q, n)
    ensures m == n
  {
    forall id: TimerId
      ensures id in m <==> id in n
      ensures id in m ==> m[id] == n[id]
    {
      if id in m {
        Member(q, m, m[id]);
        Member(q, n, m[id]);
      }
      if id in n {
        Member(q, m, n[id]);
        Member(q, n, n[id]);
      }
    }
  }

  ghost function Table(s: State): (m: TimerTable)
    requires Valid(s)
    ensures Represents(s.queue, m) && Wellformed(m, s.ids)
  {
    var m :| Represents(s.queue, m) && Wellformed(m, s.ids);
    m
  }

  lemma ValidBy(s: State, m: TimerTable)
    requires IsHeap(s.queue) && Represents(s.queue, m) && Wellformed(m, s.ids)
    ensures Valid(s) && Table(s) == m
  {
    OneTable(s.queue, m, Table(s));
  }

  ghost function CountedTable(m: TimerTable, dt: real): (n: TimerTable)
    ensures n.Keys == m.Keys
    ensures Keyed(m) ==> Keyed(n)
  {
    map id | id in m :: m[id].(time := m[id].time - dt)
  }

  lemma AddEntry(m: TimerTable, v: Timer)
    requires Keyed(m) && v.id !in m
    ensures Keyed(m[v.id := v])
    ensures multiset(m[v.id := v].Values) == multiset(m.Values) + multiset{v}
  {
    var n := m[v.id := v];
    forall t: Timer
      ensures t in n.Values <==> t in m.Values || t == v
    {
      if t in m.Values {
        var id :| id in m && m[id] == t;
        assert n[id] == t;
      }
      assert n[v.id] == v;
    }
    assert n.Values == m.Values + {v};
    assert v !in m.Values;
  }

  lemma RemoveEntry(m: TimerTable, id: TimerId)
    requires Keyed(m) && id in m
    ensures Keyed(m - {id})
    ensures multiset((m - {id}).Values) == multiset(m.Values) - multiset{m[id]}
  {
    var n := m - {id};
    AddEntry(n, m[id]);
    assert n[id := m[id]] == m;
  }

  lemma {:induction false} CountedMultiset(c: seq<Timer>, dt: real, t: Timer)
    ensures multiset(CountedDown(c, dt))[t.(time := t.time - dt)] == multiset(c)[t]
  {
    if c != [] {
      var front, last := c[..|c| - 1], c[|c| - 1];
      var down := last.(time := last.time - dt);
      CountedMultiset(front, dt, t);
      assert c == front + [last];
      assert CountedDown(c, dt) == CountedDown(front, dt) + [down];
      assert down == t.(time := t.time - dt) <==> last == t;
      CountWithLast(front, last, t);
      CountWithLast(CountedDown(front, dt), down, t.(time := t.time - dt));
    }
  }

  lemma CountWithLast(s: seq<Timer>, x: Timer, t: Timer)
    ensures multiset(s + [x])[t] == multiset(s)[t] + if x == t then 1 else 0
  {
  }

  lemma CountedRepresents(q: seq<Timer>, m: TimerTable, dt: real)
    requires Represents(q, m)
    ensures Represents(CountedDown(q, dt), CountedTable(m, dt))
  {
    var n := CountedTable(m, dt);
    forall t: Timer
      ensures multiset(CountedDown(q, dt))[t] == multiset(n.Values)[t]
    {
      var u := t.(time := t.time + dt);
      assert u.(time := u.time - dt) == t;
      CountedMultiset(q, dt, u);
      assert u in m.Values <==> u.id in m && m[u.id] == u;
      assert t in n.Values <==> t.id in n && n[t.id] == t;
    }
  }

  // Serving a timer removes a one-shot and rearms any other.
  function Kept(m: TimerTable, served: Option<Timer>): TimerTable {
    match served
    case None => m
    case Some(t) => if t.oneShot then m - {t.id} else m[t.id := Rearmed(t)]
  }

  /** What a step does to the table of queued timers, given the timer it serves. */
  ghost function NextTable(m: TimerTable, mark: real, l: Label, served: Option<Timer>): TimerTable {
    match l
    case Create(id, _, _, _, _) => m[id := Created(mark, l)]
    case Delete(id) => m - {id}
    case Check(read, _) =>
      Kept(CountedTable(m, read - mark), served)
  }

  function NextMark(empty: bool, mark: real, l: Label): real {
    if l.Check? && !empty then l.reset else mark
  }

  lemma EmptyTable(s: State)
    requires Valid(s)
    ensures s.queue == [] <==> Table(s) == map[]
  {
    if s.queue != [] {
      Member(s.queue, Table(s), s.queue[0]);
    } else {
      forall id | id in Table(s)
        ensures false
      {
        Member(s.queue, Table(s), Table(s)[id]);
      }
    }
  }

  /** Every step keeps the invariant and acts on the table as NextTable says: whatever layout
      the heap algorithms choose, the queue is a table of timers with a least element in front. */
  lemma StepTable(s: State, l: Label, s': State)
    requires Valid(s) && Step(s, l, s')
    ensures Valid(s')
    ensures Table(s') == NextTable(Table(s), s.mark, l, Served(s, l))
    ensures s'.mark == NextMark(s.queue == [], s.mark, l)
  {
    match l
    case Create(_, _, _, _, _) =>
      CreateTable(s, l, s');
    case Delete(_) =>
      DeleteTable(s, l, s');
    case Check(_, _) =>
      if s.queue == [] {
        EmptyTable(s);
        assert CountedTable(map[], l.read - s.mark) == map[];
      } else {
        CheckTable(s, l, s');
      }
  }

  lemma StepValid(s: State, l: Label, s': State)
    requires Valid(s) && Step(s, l, s')
    ensures Valid(s')
  {
    StepTable(s, l, s');
  }

  lemma CreateTable(s: State, l: Label, s': State)
    requires Valid(s) && l.Create? && Step(s, l, s')
    ensures Valid(s') && Table(s') == Table(s)[l.id := Created(s.mark, l)]
  {
    AddEntry(Table(s), Created(s.mark, l));
    ValidBy(s', Table(s)[l.id := Created(s.mark, l)]);
  }

  lemma DeleteTable(s: State, l: Label, s': State)
    requires Valid(s) && l.Delete? && Step(s, l, s')
    ensures Valid(s') && Table(s') == Table(s) - {l.id}
  {
    var k, m := FirstMatch(s.queue, l.id), Table(s);
    if k == |s.queue| {
      if l.id in m {
        Member(s.queue, m, m[l.id]);
      }
      assert m - {l.id} == m;
    } else {
      Member(s.queue, m, s.queue[k]);
      RemoveEntry(m, l.id);
    }
    ValidBy(s', m - {l.id});
  }

  lemma CheckTable(s: State, l: Label, s': State)
    requires Valid(s) && l.Check? && s.queue != [] && Step(s, l, s')
    ensures Valid(s') && Table(s') == NextTable(Table(s), s.mark, l, Served(s, l))
  {
    CheckEntries(s.queue, s.ids, Table(s), s.mark, l, Served(s, l), s'.queue);
    ValidBy(s', NextTable(Table(s), s.mark, l, Served(s, l)));
  }

  lemma CheckEntries(
    q: seq<Timer>, ids: set<TimerId>, m: TimerTable, mark: real, l: Label, served: Option<Timer>, q': seq<Timer>)
    requires l.Check? && IsHeap(q) && Represents(q, m) && Wellformed(m, ids)
    requires var c := CountedDown(q, l.read - mark);
      match served
      case None => q' == c
      case Some(t) =>
        t in c && var rest := multiset(c) - multiset{t};
        HeapOf(q', if t.oneShot then rest else rest + multiset{Rearmed(t)})
    ensures var n := NextTable(m, mark, l, served);
      IsHeap(q') && Represents(q', n) && Wellformed(n, ids)
  {
    CountedHeap(q, m, l.read - mark);
    KeptEntries(CountedDown(q, l.read - mark), CountedTable(m, l.read - mark), served, q');
    CheckWellformed(m, mark, ids, l, served);
  }

  lemma CountedHeap(q: seq<Timer>, m: TimerTable, dt: real)
    requires IsHeap(q) && Represents(q, m)
    ensures IsHeap(CountedDown(q, dt)) && Represents(CountedDown(q, dt), CountedTable(m, dt))
  {
    CountdownKeepsHeap(q, dt);
    CountedRepresents(q, m, dt);
  }

  lemma CheckWellformed(m: TimerTable, mark: real, ids: set<TimerId>, l: Label, served: Option<Timer>)
    requires l.Check? && Wellformed(m, ids)
    requires served.Some? ==>
      var c, t := CountedTable(m, l.read - mark), served.value;
      t.id in c && c[t.id] == t
    ensures Wellformed(NextTable(m, mark, l, served), ids)
  {
  }

  lemma KeptEntries(c: seq<Timer>, m: TimerTable, served: Option<Timer>, q: seq<Timer>)
    requires IsHeap(c) && Represents(c, m)
    requires match served
      case None => q == c
      case Some(t) =>
        t in c && var rest := multiset(c) - multiset{t};
        HeapOf(q, if t.oneShot then rest else rest + multiset{Rearmed(t)})
    ensures IsHeap(q) && Represents(q, Kept(m, served))
    ensures served.Some? ==> served.value.id in m && m[served.value.id] == served.value
  {
    if served.Some? {
      ServeEntry(c, m, served.value, q);
    }
  }

  lemma ServeEntry(c: seq<Timer>, m: TimerTable, t: Timer, q: seq<Timer>)
    requires Represents(c, m) && t in c
    requires var rest := multiset(c) - multiset{t};
      multiset(q) == if t.oneShot then rest else rest + multiset{Rearmed(t)}
    ensures t.id in m && m[t.id] == t
    ensures Represents(q, if t.oneShot then m - {t.id} else m[t.id := Rearmed(t)])
  {
    Member(c, m, t);
    RemoveEntry(m, t.id);
    if !t.oneShot {
      AddEntry(m - {t.id}, Rearmed(t));
      assert (m - {t.id})[t.id := Rearmed(t)] == m[t.id := Rearmed(t)];
    }
  }

  /** What a check may serve: an expired timer with the least remaining time, if there is one. */
  ghost predicate Picks(m: TimerTable, mark: real, l: Label, served: Option<Timer>) {
    if !l.Check? then served == None
    else
      var c := CountedTable(m, l.read - mark);
      match served
      case None => forall id :: id in c ==> c[id].time > 0.0
      case Some(t) => t.id in c && c[t.id] == t && t.time <= 0.0 && forall id :: id in c ==> t.time <= c[id].time
  }

  lemma ServedPicks(s: State, l: Label)
    requires Valid(s)
    ensures Picks(Table(s), s.mark, l, Served(s, l))
  {
    if l.Check? {
      var dt, c := l.read - s.mark, Counted(s, l);
      var m := CountedTable(Table(s), dt);
      CountedHeap(s.queue, Table(s), dt);
      if c != [] {
        Member(c, m, c[0]);
      }
      forall id | id in m
        ensures c != [] && c[0].time <= m[id].time
      {
        FrontIsLeastEntry(c, m, id);
      }
    }
  }

  lemma ServedHasPeriod(s: State, l: Label)
    requires Valid(s) && Served(s, l).Some?
    ensures Served(s, l).value.timeout > 0.0
  {
    ServedPicks(s, l);
  }

  lemma FrontIsLeastEntry(c: seq<Timer>, m: TimerTable, id: TimerId)
    requires IsHeap(c) && Represents(c, m) && id in m
    ensures c != [] && c[0].time <= m[id].time
  {
    Member(c, m, m[id]);
    var k :| 0 <= k < |c| && c[k] == m[id];
    FrontIsLeast(c, k);
  }

  // ---------------------------------------------------------------- runs

  ghost predicate Run(ss: seq<State>, ls: seq<Label>) {
    && |ss| == |ls| + 1 && Valid(ss[0])
    && forall i {:trigger ls[i]} :: 0 <= i < |ls| ==> Step(ss[i], ls[i], ss[i + 1])
  }

  lemma RunNext(ss: seq<State>, ls: seq<Label>, n: nat, s': State)
    requires n < |ls| && Run(ss, ls[..n]) && Step(ss[n], ls[n], s')
    ensures Run(ss + [s'], ls[..n + 1])
  {
    var front, next, all := ls[..n], ls[..n + 1], ss + [s'];
    forall i {:trigger next[i]} | 0 <= i < |next|
      ensures Step(all[i], next[i], all[i + 1])
    {
      assert i < n ==> next[i] == front[i];
    }
  }

  // The simple machine: a table of timers and the stopwatch mark.
  datatype View = View(table: TimerTable, mark: real)

  ghost predicate Sound(v: View) {
    Keyed(v.table) && forall id :: id in v.table ==> v.table[id].timeout > 0.0
  }

  ghost predicate Moves(v: View, l: Label, served: Option<Timer>, v': View) {
    && Sound(v) && Sound(v')
    && (l.Create? ==> l.id !in v.table && l.duration > 0.0)
    && Picks(v.table, v.mark, l, served)
    && v'.table == NextTable(v.table, v.mark, l, served)
    && v'.mark == NextMark(v.table == map[], v.mark, l)
  }

  ghost predicate MovesAt(vs: seq<View>, ls: seq<Label>, served: seq<Option<Timer>>, i: nat)
    requires i < |ls| && |vs| == |ls| + 1 && |served| == |ls|
  {
    Moves(vs[i], ls[i], served[i], vs[i + 1])
  }

  ghost predicate TableRun(vs: seq<View>, ls: seq<Label>, served: seq<Option<Timer>>) {
    && |vs| == |ls| + 1 && |served| == |ls| && Sound(vs[0])
    && forall i :: 0 <= i < |ls| ==> MovesAt(vs, ls, served, i)
  }

  ghost function ViewOf(s: State): View
    requires Valid(s)
  {
    View(Table(s), s.mark)
  }

  lemma StepMoves(s: State, l: Label, s': State)
    requires Valid(s) && Step(s, l, s')
    ensures Valid(s') && Moves(ViewOf(s), l, Served(s, l), ViewOf(s'))
  {
    StepTable(s, l, s');
    ServedPicks(s, l);
    EmptyTable(s);
  }

  lemma {:induction false} RunValid(ss: seq<State>, ls: seq<Label>, n: nat)
    requires Run(ss, ls) && n <= |ls|
    ensures Valid(ss[n])
  {
    if n > 0 {
      RunValid(ss, ls, n - 1);
      StepMoves(ss[n - 1], ls[n - 1], ss[n]);
    }
  }

  ghost function Views(ss: seq<State>): (vs: seq<View>)
    requires forall i :: 0 <= i < |ss| ==> Valid(ss[i])
    ensures |vs| == |ss| && forall i :: 0 <= i < |ss| ==> vs[i] == ViewOf(ss[i])
  {
    seq(|ss|, i requires 0 <= i < |ss| => ViewOf(ss[i]))
  }

  function ServedIn(ss: seq<State>, ls: seq<Label>): (served: seq<Option<Timer>>)
    requires |ss| == |ls| + 1
    ensures |served| == |ls| && forall i :: 0 <= i < |ls| ==> served[i] == Served(ss[i], ls[i])
  {
    seq(|ls|, i requires 0 <= i < |ls| => Served(ss[i], ls[i]))
  }

  /** Every run of the heap is a run of the table machine that serves the same timers. */
  lemma HeapRefinesTable(ss: seq<State>, ls: seq<Label>)
    requires Run(ss, ls)
    ensures forall i :: 0 <= i < |ss| ==> Valid(ss[i])
    ensures TableRun(Views(ss), ls, ServedIn(ss, ls))
  {
    forall i | 0 <= i < |ss|
      ensures Valid(ss[i])
    {
      RunValid(ss, ls, i);
    }
    var vs, served := Views(ss), ServedIn(ss, ls);
    forall i | 0 <= i < |ls|
      ensures MovesAt(vs, ls, served, i)
    {
      StepMoves(ss[i], ls[i], ss[i + 1]);
    }
  }
}
