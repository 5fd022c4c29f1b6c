/** What the timers promise over whole runs: no early events, no overtaken timer, no event
    after deletion, and repeat counts that add up to the elapsed time. */
module TimerRuns {
  import opened Options
  import opened TimerHeap
  import opened Timers

  /** What a clock that never goes back gives: readings are not before the last reset. */
  predicate Steady(v: View, l: Label) {
    match l
    case Create(_, _, _, _, at) => v.mark <= at
    case Delete(_) => true
    case Check(read, reset) => v.mark <= read <= reset
  }

  ghost predicate SteadyRun(vs: seq<View>, ls: seq<Label>)
    requires |vs| == |ls| + 1
  {
    forall i :: 0 <= i < |ls| ==> Steady(vs[i], ls[i])
  }

  predicate Serves(served: Option<Timer>, id: TimerId) {
    served.Some? && served.value.id == id
  }

  // ---------------------------------------------------------------- absolute deadlines

  ghost function DeadlinesOf(m: TimerTable, mark: real): (d: map<TimerId, real>)
    ensures d.Keys == m.Keys
  {
    map id | id in m :: m[id].time + mark
  }

  /** The clock reading at which each queued countdown runs out. */
  ghost function Deadlines(v: View): map<TimerId, real> {
    DeadlinesOf(v.table, v.mark)
  }

  /** A scheduler that keeps absolute deadlines, moved on by the time the clock takes between
      reading and resetting the stopwatch. */
  ghost function NextDeadlines(d: map<TimerId, real>, l: Label, served: Option<Timer>): map<TimerId, real> {
    match l
    case Create(id, duration, _, _, at) => d[id := at + duration]
    case Delete(id) => d - {id}
    case Check(read, reset) =>
      var moved := map id | id in d :: d[id] + (reset - read);
      KeptDeadlines(moved, served, reset)
  }

  ghost function KeptDeadlines(d: map<TimerId, real>, served: Option<Timer>, reset: real): map<TimerId, real> {
    match served
    case None => d
    case Some(t) => if t.oneShot then d - {t.id} else d[t.id := reset + t.timeout]
  }

  lemma ServedDeadlines(m: TimerTable, mark: real, served: Option<Timer>)
    ensures DeadlinesOf(Kept(m, served), mark) == KeptDeadlines(DeadlinesOf(m, mark), served, mark)
  {
  }

  lemma CountedDeadlines(m: TimerTable, mark: real, read: real, reset: real)
    ensures DeadlinesOf(CountedTable(m, read - mark), reset)
         == map id | id in DeadlinesOf(m, mark) :: DeadlinesOf(m, mark)[id] + (reset - read)
  {
  }

  lemma TableDeadlines(m: TimerTable, mark: real, l: Label, served: Option<Timer>)
    requires m == map[] ==> served == None
    ensures DeadlinesOf(NextTable(m, mark, l, served), NextMark(m == map[], mark, l))
         == NextDeadlines(DeadlinesOf(m, mark), l, served)
  {
    match l
    case Check(read, reset) =>
      CountedDeadlines(m, mark, read, reset);
      ServedDeadlines(CountedTable(m, read - mark), reset, served);
      assert m == map[] ==> DeadlinesOf(NextTable(m, mark, l, served), mark) == map[];
    case _ =>
  }

  /** The shared relative countdown refines the absolute-deadline scheduler: deadlines evolve
      as the scheduler's do, even across checks that find no timer and leave the stopwatch
      running; an event is reported exactly when some deadline has passed, for a timer whose
      deadline is earliest. */
  lemma RefinesDeadlines(v: View, l: Label, served: Option<Timer>, v': View)
    requires Moves(v, l, served, v')
    ensures Deadlines(v') == NextDeadlines(Deadlines(v), l, served)
    ensures l.Check? ==> (served.Some? <==> exists id :: id in Deadlines(v) && Deadlines(v)[id] <= l.read)
    ensures served.Some? ==>
      var d, t := Deadlines(v), served.value;
      && t.id in d && d[t.id] == t.time + l.read && t.timeout > 0.0 && t.time <= 0.0
      && v.table[t.id].timeout == t.timeout
      && forall other :: other in d ==> d[t.id] <= d[other]
  {
    if l.Check? {
      var c, d := CountedTable(v.table, l.read - v.mark), Deadlines(v);
      assert forall id :: id in c <==> id in d;
      assert forall id :: id in c ==> c[id].time == d[id] - l.read;
    }
    TableDeadlines(v.table, v.mark, l, served);
  }

  // ---------------------------------------------------------------- the ledger

  // Kept per timer from the labels of a run alone: when it was created and last armed, the
  // clock movement between read and reset before and since arming, the events reported and
  // the sum of their counts.
  datatype Account = Account(created: real, armed: real, lag: real, slack: real, fires: nat, total: int)

  ghost function CheckRecord(a: map<TimerId, Account>, l: Label, served: Option<Timer>): map<TimerId, Account>
    requires l.Check? && (served.Some? ==> served.value.timeout > 0.0)
  {
    var b := map id | id in a :: a[id].(slack := a[id].slack + (l.reset - l.read));
    if served.Some? && served.value.id in b then
      var e := b[served.value.id];
      b[served.value.id :=
        Account(e.created, l.reset, e.lag + e.slack, 0.0, e.fires + 1, e.total + Count(served.value))]
    else b
  }

  ghost function Recorded(a: map<TimerId, Account>, v: View, l: Label, served: Option<Timer>): map<TimerId, Account>
    requires served.Some? ==> served.value.timeout > 0.0
  {
    match l
    case Create(id, _, _, _, at) => a[id := Account(at, at, 0.0, 0.0, 0, 0)]
    case Delete(_) => a
    case Check(_, _) => if v.table == map[] then a else CheckRecord(a, l, served)
  }

  ghost function Ledger(vs: seq<View>, ls: seq<Label>, served: seq<Option<Timer>>, n: nat): map<TimerId, Account>
    requires TableRun(vs, ls, served) && n <= |ls|
  {
    if n == 0 then map[]
    else
      assert MovesAt(vs, ls, served, n - 1);
      RefinesDeadlines(vs[n - 1], ls[n - 1], served[n - 1], vs[n]);
      Recorded(Ledger(vs, ls, served, n - 1), vs[n - 1], ls[n - 1], served[n - 1])
  }

  lemma LedgerStep(vs: seq<View>, ls: seq<Label>, served: seq<Option<Timer>>, n: nat)
    requires TableRun(vs, ls, served) && 0 < n <= |ls|
    ensures served[n - 1].Some? ==> served[n - 1].value.timeout > 0.0
    ensures Ledger(vs, ls, served, n)
         == Recorded(Ledger(vs, ls, served, n - 1), vs[n - 1], ls[n - 1], served[n - 1])
  {
    assert MovesAt(vs, ls, served, n - 1);
    RefinesDeadlines(vs[n - 1], ls[n - 1], served[n - 1], vs[n]);
  }

  /** The part of the time between creation and last arming that no count accounts for. */
  ghost function Lost(a: Account, timeout: real): real {
    a.armed - a.created - a.lag - timeout * (a.total as real)
  }

  ghost predicate BalancedEntry(deadline: real, timeout: real, a: Account) {
    && deadline == a.armed + timeout + a.slack
    && 0.0 <= Lost(a, timeout)
    && (a.fires == 0 ==> a.armed == a.created && a.lag == 0.0 && a.total == 0)
    && (a.fires > 0 ==> Lost(a, timeout) < timeout * (a.fires as real) && a.total >= a.fires)
  }

  ghost predicate Balanced(v: View, a: map<TimerId, Account>) {
    forall id :: id in v.table ==> id in a && BalancedEntry(Deadlines(v)[id], v.table[id].timeout, a[id])
  }

  lemma Product(a: real, b: real)
    requires a >= 0.0 && b > 0.0
    ensures a * b >= 0.0 && (a > 0.0 ==> a * b > 0.0)
  {
  }

  lemma Spread(p: real, a: real, b: real)
    ensures p * (a + b) == p * a + p * b
  {
  }

  lemma Within(x: real, whole: real, part: real, p: real)
    requires x == whole + part && 0.0 <= part < p
    ensures whole <= x < whole + p
  {
  }

  lemma Between(x: real, p: real, q: real, k: real, d: real)
    requires p > 0.0 && x == p * q && q == k + d && 0.0 <= d < 1.0
    ensures p * k <= x < p * k + p
  {
    Spread(p, k, d);
    Product(d, p);
    Product(1.0 - d, p);
    Spread(p, d, 1.0 - d);
    assert 0.0 <= p * d < p;
    Within(x, p * k, p * d, p);
  }

  lemma FloorBounds(x: real, p: real)
    requires p > 0.0 && x >= p
    ensures (x / p).Floor >= 1
    ensures p * ((x / p).Floor as real) <= x < p * ((x / p).Floor as real) + p
  {
    var q := x / p;
    if q < 1.0 {
      Product(1.0 - q, p);
    }
    Between(x, p, q, q.Floor as real, q - q.Floor as real);
  }

  /** The count of an event is the number of whole periods since the timer was armed. */
  lemma CountBounds(t: Timer)
    requires t.timeout > 0.0 && t.time <= 0.0
    ensures Count(t) >= 1
    ensures t.timeout * (Count(t) as real) <= t.timeout - t.time < t.timeout * (Count(t) as real) + t.timeout
  {
    FloorBounds(t.timeout - t.time, t.timeout);
  }

  lemma FireBalanced(a: Account, t: Timer, read: real, reset: real)
    requires t.timeout > 0.0 && t.time <= 0.0
    requires BalancedEntry(t.time + read, t.timeout, a)
    ensures BalancedEntry(reset + t.timeout, t.timeout,
      Account(a.created, reset, a.lag + (a.slack + (reset - read)), 0.0, a.fires + 1, a.total + Count(t)))
  {
    CountBounds(t);
    var n := Count(t);
    assert t.timeout * ((a.total + n) as real) == t.timeout * (a.total as real) + t.timeout * (n as real);
    assert t.timeout * ((a.fires + 1) as real) == t.timeout * (a.fires as real) + t.timeout;
  }

  lemma SlackBalanced(deadline: real, timeout: real, a: Account, gap: real)
    requires BalancedEntry(deadline, timeout, a)
    ensures BalancedEntry(deadline + gap, timeout, a.(slack := a.slack + gap))
  {
  }

  lemma CheckBalanced(
    m: TimerTable, d: map<TimerId, real>, a: map<TimerId, Account>, l: Label, served: Option<Timer>, id: TimerId)
    requires l.Check? && d.Keys == m.Keys
    requires forall id :: id in m ==> id in a && BalancedEntry(d[id], m[id].timeout, a[id])
    requires served.Some? ==>
      var t := served.value;
      t.timeout > 0.0 && t.time <= 0.0 && t.id in d && d[t.id] == t.time + l.read && m[t.id].timeout == t.timeout
    requires id in NextDeadlines(d, l, served)
    ensures id in m && id in CheckRecord(a, l, served)
    ensures BalancedEntry(NextDeadlines(d, l, served)[id], m[id].timeout, CheckRecord(a, l, served)[id])
  {
    if served.Some? && served.value.id == id {
      FireBalanced(a[id], served.value, l.read, l.reset);
    } else {
      SlackBalanced(d[id], m[id].timeout, a[id], l.reset - l.read);
    }
  }

  lemma StepBalanced(v: View, l: Label, served: Option<Timer>, v': View, a: map<TimerId, Account>)
    requires Moves(v, l, served, v') && Balanced(v, a)
    ensures served.Some? ==> served.value.timeout > 0.0
    ensures Balanced(v', Recorded(a, v, l, served))
  {
    RefinesDeadlines(v, l, served, v');
    if l.Check? {
      forall id | id in Deadlines(v')
        ensures id in Recorded(a, v, l, served)
        ensures BalancedEntry(Deadlines(v')[id], v'.table[id].timeout, Recorded(a, v, l, served)[id])
      {
        CheckBalanced(v.table, Deadlines(v), a, l, served, id);
      }
    }
  }

  lemma {:induction false} RunBalanced(vs: seq<View>, ls: seq<Label>, served: seq<Option<Timer>>, n: nat)
    requires TableRun(vs, ls, served) && vs[0].table == map[] && n <= |ls|
    ensures Balanced(vs[n], Ledger(vs, ls, served, n))
  {
    if n > 0 {
      RunBalanced(vs, ls, served, n - 1);
      BalancedNext(vs, ls, served, n);
    }
  }

  lemma BalancedNext(vs: seq<View>, ls: seq<Label>, served: seq<Option<Timer>>, n: nat)
    requires TableRun(vs, ls, served) && 0 < n <= |ls| && Balanced(vs[n - 1], Ledger(vs, ls, served, n - 1))
    ensures Balanced(vs[n], Ledger(vs, ls, served, n))
  {
    assert MovesAt(vs, ls, served, n - 1);
    LedgerStep(vs, ls, served, n);
    StepBalanced(vs[n - 1], ls[n - 1], served[n - 1], vs[n], Ledger(vs, ls, served, n - 1));
  }

  ghost predicate Slackened(a: map<TimerId, Account>) {
    forall id :: id in a ==> a[id].slack >= 0.0 && a[id].lag >= 0.0
  }

  lemma RecordedSlack(a: map<TimerId, Account>, v: View, l: Label, served: Option<Timer>)
    requires Slackened(a) && Steady(v, l) && (served.Some? ==> served.value.timeout > 0.0)
    ensures Slackened(Recorded(a, v, l, served))
  {
  }

  lemma SlackStep(vs: seq<View>, ls: seq<Label>, served: seq<Option<Timer>>, n: nat)
    requires TableRun(vs, ls, served) && SteadyRun(vs, ls) && 0 < n <= |ls|
    requires Slackened(Ledger(vs, ls, served, n - 1))
    ensures Slackened(Ledger(vs, ls, served, n))
  {
    LedgerStep(vs, ls, served, n);
    RecordedSlack(Ledger(vs, ls, served, n - 1), vs[n - 1], ls[n - 1], served[n - 1]);
  }

  lemma {:induction false} SlackNotNegative(vs: seq<View>, ls: seq<Label>, served: seq<Option<Timer>>, n: nat)
    requires TableRun(vs, ls, served) && SteadyRun(vs, ls) && n <= |ls|
    ensures Slackened(Ledger(vs, ls, served, n))
  {
    if n == 0 {
      assert Ledger(vs, ls, served, n) == map[];
    } else {
      SlackNotNegative(vs, ls, served, n - 1);
      SlackStep(vs, ls, served, n);
    }
  }

  /** At a check that reports an event, the countdown has run past zero by exactly the time
      since arming less the slack and one period. */
  lemma ServedBalance(vs: seq<View>, ls: seq<Label>, served: seq<Option<Timer>>, n: nat)
    requires TableRun(vs, ls, served) && vs[0].table == map[] && n < |ls| && served[n].Some?
    ensures var t := served[n].value;
      && ls[n].Check? && t.timeout > 0.0 && t.time <= 0.0 && t.id in Ledger(vs, ls, served, n)
      && var a := Ledger(vs, ls, served, n)[t.id];
         t.timeout - t.time == ls[n].read - a.armed - a.slack
  {
    RunBalanced(vs, ls, served, n);
    assert MovesAt(vs, ls, served, n);
    RefinesDeadlines(vs[n], ls[n], served[n], vs[n + 1]);
  }

  /** No timer fires early: in every run on a steady clock, an event is reported only once its
      full duration has passed since the timer was created or last reported. */
  lemma NeverEarly(vs: seq<View>, ls: seq<Label>, served: seq<Option<Timer>>, n: nat)
    requires TableRun(vs, ls, served) && vs[0].table == map[] && SteadyRun(vs, ls)
    requires n < |ls| && served[n].Some?
    ensures var t := served[n].value;
      && ls[n].Check? && t.id in Ledger(vs, ls, served, n)
      && Ledger(vs, ls, served, n)[t.id].armed + t.timeout <= ls[n].read
  {
    ServedBalance(vs, ls, served, n);
    SlackNotNegative(vs, ls, served, n);
  }

  /** Each event counts the whole periods since arming, net of the slack, and at least one. */
  lemma FiringCount(vs: seq<View>, ls: seq<Label>, served: seq<Option<Timer>>, n: nat)
    requires TableRun(vs, ls, served) && vs[0].table == map[] && n < |ls| && served[n].Some?
    ensures var t := served[n].value;
      && ls[n].Check? && t.timeout > 0.0 && Count(t) >= 1 && t.id in Ledger(vs, ls, served, n)
      && var a := Ledger(vs, ls, served, n)[t.id];
         Count(t) == ((ls[n].read - a.armed - a.slack) / t.timeout).Floor
  {
    ServedBalance(vs, ls, served, n);
    CountBounds(served[n].value);
  }

  /** The counts times the period account for the time from creation to the last event, short
      by the clock movement inside checks and by less than one period an event. */
  ghost predicate AccountsFor(p: real, a: Account) {
    && a.fires <= a.total
    && p * (a.total as real) <= a.armed - a.created - a.lag
    && (a.fires > 0 ==> a.armed - a.created - a.lag < p * (a.total as real) + p * (a.fires as real))
  }

  lemma EntryCounts(deadline: real, p: real, a: Account)
    requires BalancedEntry(deadline, p, a)
    ensures AccountsFor(p, a)
  {
  }

  /** Repeat counts over a whole run of a queued timer. On a steady clock the time lost inside
      checks is not negative, so the counted periods never exceed the time elapsed. */
  lemma CountsAddUp(vs: seq<View>, ls: seq<Label>, served: seq<Option<Timer>>, n: nat, id: TimerId)
    requires TableRun(vs, ls, served) && vs[0].table == map[] && n <= |ls| && id in vs[n].table
    ensures id in Ledger(vs, ls, served, n)
    ensures AccountsFor(vs[n].table[id].timeout, Ledger(vs, ls, served, n)[id])
    ensures SteadyRun(vs, ls) ==> Ledger(vs, ls, served, n)[id].lag >= 0.0
  {
    RunBalanced(vs, ls, served, n);
    EntryCounts(Deadlines(vs[n])[id], vs[n].table[id].timeout, Ledger(vs, ls, served, n)[id]);
    if SteadyRun(vs, ls) {
      SlackNotNegative(vs, ls, served, n);
    }
  }

  /** A count is at most n exactly when fewer than n + 1 durations have been counted down. */
  lemma CountAtMostIff(t: Timer, n: nat)
    requires t.timeout > 0.0 && t.time <= 0.0
    ensures Count(t) <= n <==> t.timeout - t.time < t.timeout * ((n + 1) as real)
  {
    CountBounds(t);
    var p, c := t.timeout, Count(t);
    if c <= n {
      Product((n - c) as real, p);
      assert p * ((n + 1) as real) == p * ((n - c) as real) + p * (c as real) + p;
    } else {
      Product((c - n - 1) as real, p);
      assert p * (c as real) == p * ((c - n - 1) as real) + p * ((n + 1) as real);
    }
  }

  /** IEventQueue.h says that a one-shot's count is always 1. A count is 1 exactly when the check
      comes before a second duration has gone by since the timer was armed, net of the slack. */
  lemma OneShotCountIff(vs: seq<View>, ls: seq<Label>, served: seq<Option<Timer>>, n: nat)
    requires TableRun(vs, ls, served) && vs[0].table == map[] && n < |ls| && served[n].Some?
    ensures var t := served[n].value;
      && ls[n].Check? && t.timeout > 0.0 && t.id in Ledger(vs, ls, served, n)
      && var a := Ledger(vs, ls, served, n)[t.id];
         Count(t) == 1 <==> ls[n].read - a.armed - a.slack < 2.0 * t.timeout
  {
    ServedBalance(vs, ls, served, n);
    CountBounds(served[n].value);
    CountAtMostIff(served[n].value, 1);
  }

  /** A one-shot timer created and checked at the given readings. */
  lemma OneShotRun(duration: real, at: real, read: real) returns (s1: State, s2: State, t: Timer)
    requires 0.0 < duration <= read - at
    ensures Step(Initial(at), Create(1, duration, 0, true, at), s1)
    ensures Step(s1, Check(read, read), s2) && Served(s1, Check(read, read)) == Some(t)
    ensures t == Timer(1, duration, 1, true, duration - (read - at))
  {
    var l := Create(1, duration, 0, true, at);
    s1, s2 := State([Created(at, l)], {1}, at), State([], {1}, read);
    t := Timer(1, duration, 1, true, duration - (read - at));
    assert s1.queue == [] + [Created(at, l)];
    assert Counted(s1, Check(read, read)) == [t];
  }

  lemma LateOneShotCountsTwo() returns (s1: State, s2: State, t: Timer)
    ensures Step(Initial(0.0), Create(1, 1.0, 0, true, 0.0), s1) && Step(s1, Check(2.0, 2.0), s2)
    ensures Served(s1, Check(2.0, 2.0)) == Some(t) && t.oneShot && t.timeout == 1.0 && Count(t) == 2
  {
    s1, s2, t := OneShotRun(1.0, 0.0, 2.0);
    assert ((1.0 + 1.0) / 1.0).Floor == 2;
  }

  /** The cast of the count to 32 bits is exact exactly when the check comes before 2^32 periods
      have gone by since the timer was armed, net of the slack. */
  lemma CountFitsIff(vs: seq<View>, ls: seq<Label>, served: seq<Option<Timer>>, n: nat)
    requires TableRun(vs, ls, served) && vs[0].table == map[] && n < |ls| && served[n].Some?
    ensures var t := served[n].value;
      && ls[n].Check? && t.timeout > 0.0 && t.id in Ledger(vs, ls, served, n)
      && var a := Ledger(vs, ls, served, n)[t.id];
         Count(t) < 0x1_0000_0000 <==> ls[n].read - a.armed - a.slack < t.timeout * 4294967296.0
  {
    ServedBalance(vs, ls, served, n);
    CountAtMostIff(served[n].value, 0xFFFF_FFFF);
  }

  // ---------------------------------------------------------------- fairness

  /** The queued timers that may be served no later than the given one. */
  ghost function Ahead(m: TimerTable, id: TimerId): (ids: set<TimerId>)
    requires id in m
    ensures id in ids
  {
    set other | other in m && m[other].time <= m[id].time
  }

  // The number of checks from one moment of a run to another.
  function Checks(ls: seq<Label>, first: nat, end: nat): nat
    requires first <= end <= |ls|
    decreases end - first
  {
    if first == end then 0 else (if ls[first].Check? then 1 else 0) + Checks(ls, first + 1, end)
  }

  ghost predicate Overdue(v: View, id: TimerId) {
    id in v.table && v.table[id].time <= 0.0
  }

  lemma PassedOver(v: View, l: Label, served: Option<Timer>, v': View, id: TimerId)
    requires Moves(v, l, served, v') && Steady(v, l)
    requires Overdue(v, id) && l != Delete(id) && !Serves(served, id)
    ensures Overdue(v', id) && Ahead(v'.table, id) <= Ahead(v.table, id)
    ensures l.Check? ==> served.Some? && Ahead(v'.table, id) < Ahead(v.table, id)
  {
    if l.Check? {
      var c := CountedTable(v.table, l.read - v.mark);
      assert c[id].time <= 0.0;
      var t := served.value;
      assert t.id in Ahead(v.table, id);
      assert t.id !in Ahead(v'.table, id);
    }
  }

  /** Bounded bypass: from any moment k of a run, a timer whose stored countdown has run out is
      served within as many checks as there are queued timers at or below its countdown, and
      every check until then reports an event, however far the clock moves and whatever timers
      come and go. */
  lemma {:induction false} BoundedBypass(
    vs: seq<View>, ls: seq<Label>, served: seq<Option<Timer>>, id: TimerId, k: nat) returns (n: nat)
    requires TableRun(vs, ls, served) && SteadyRun(vs, ls) && k <= |ls| && Overdue(vs[k], id)
    requires Delete(id) !in ls[k..]
    requires Checks(ls, k, |ls|) >= |Ahead(vs[k].table, id)|
    ensures k <= n < |ls| && Serves(served[n], id)
    ensures Checks(ls, k, n) < |Ahead(vs[k].table, id)|
    ensures forall i :: k <= i <= n && ls[i].Check? ==> served[i].Some?
    decreases |ls| - k
  {
    assert Ahead(vs[k].table, id) != {};
    if Serves(served[k], id) {
      n := k;
    } else {
      NotYetServed(vs, ls, served, id, k);
      n := BoundedBypass(vs, ls, served, id, k + 1);
    }
  }

  lemma NotYetServed(vs: seq<View>, ls: seq<Label>, served: seq<Option<Timer>>, id: TimerId, k: nat)
    requires TableRun(vs, ls, served) && SteadyRun(vs, ls) && k < |ls| && Overdue(vs[k], id)
    requires Delete(id) !in ls[k..] && !Serves(served[k], id)
    ensures Overdue(vs[k + 1], id) && Delete(id) !in ls[k + 1..]
    ensures ls[k].Check? ==> served[k].Some?
    ensures |Ahead(vs[k + 1].table, id)| <= |Ahead(vs[k].table, id)| - if ls[k].Check? then 1 else 0
  {
    assert ls[k] == ls[k..][0] && ls[k + 1..] == ls[k..][1..];
    assert MovesAt(vs, ls, served, k);
    PassedOver(vs[k], ls[k], served[k], vs[k + 1], id);
    Shrinks(Ahead(vs[k + 1].table, id), Ahead(vs[k].table, id));
  }

  lemma Shrinks(a: set<TimerId>, b: set<TimerId>)
    requires a <= b
    ensures |a| <= |b| && (a < b ==> |a| < |b|)
  {
    assert b == a + (b - a);
    assert a < b ==> b - a != {};
  }

  // ---------------------------------------------------------------- silence

  predicate Recreated(ls: seq<Label>, id: TimerId) {
    exists l <- ls :: l.Create? && l.id == id
  }

  /** A timer that is not queued is never served unless it is created again. */
  lemma {:induction false} UnqueuedStaysSilent(
    vs: seq<View>, ls: seq<Label>, served: seq<Option<Timer>>, id: TimerId, n: nat)
    requires TableRun(vs, ls, served) && id !in vs[0].table && !Recreated(ls, id) && n <= |ls|
    ensures id !in vs[n].table
    ensures n < |ls| ==> !Serves(served[n], id)
  {
    if n > 0 {
      UnqueuedStaysSilent(vs, ls, served, id, n - 1);
      assert MovesAt(vs, ls, served, n - 1) && ls[n - 1] in ls;
    }
    if n < |ls| {
      assert MovesAt(vs, ls, served, n);
    }
  }

  /** After deleteTimer no check reports the timer, until its address is handed out again. */
  lemma DeletedStaysSilent(
    vs: seq<View>, ls: seq<Label>, served: seq<Option<Timer>>, id: TimerId, d: nat, n: nat)
    requires TableRun(vs, ls, served) && d < n < |ls| && ls[d] == Delete(id)
    requires !Recreated(ls[d + 1..], id)
    ensures !Serves(served[n], id)
  {
    SilentFrom(vs, ls, served, id, d + 1, n);
  }

  /** A one-shot timer is reported at most once. */
  lemma OneShotServedOnce(
    vs: seq<View>, ls: seq<Label>, served: seq<Option<Timer>>, id: TimerId, d: nat, n: nat)
    requires TableRun(vs, ls, served) && d < n < |ls|
    requires Serves(served[d], id) && served[d].value.oneShot
    requires !Recreated(ls[d + 1..], id)
    ensures !Serves(served[n], id)
  {
    SilentFrom(vs, ls, served, id, d + 1, n);
  }

  lemma SilentFrom(vs: seq<View>, ls: seq<Label>, served: seq<Option<Timer>>, id: TimerId, k: nat, n: nat)
    requires TableRun(vs, ls, served) && 0 < k <= n < |ls|
    requires ls[k - 1] == Delete(id)
      || (Serves(served[k - 1], id) && served[k - 1].value.oneShot)
    requires !Recreated(ls[k..], id)
    ensures !Serves(served[n], id)
  {
    assert MovesAt(vs, ls, served, k - 1);
    assert id !in vs[k].table;
    DropRun(vs, ls, served, k);
    UnqueuedStaysSilent(vs[k..], ls[k..], served[k..], id, n - k);
  }

  lemma DropRun(vs: seq<View>, ls: seq<Label>, served: seq<Option<Timer>>, k: nat)
    requires TableRun(vs, ls, served) && 0 < k < |ls|
    ensures TableRun(vs[k..], ls[k..], served[k..])
  {
    assert MovesAt(vs, ls, served, k - 1);
    forall i | 0 <= i < |ls[k..]|
      ensures MovesAt(vs[k..], ls[k..], served[k..], i)
    {
      assert MovesAt(vs, ls, served, k + i);
    }
  }

  // ---------------------------------------------------------------- real time

  /** Arch::time() drops the fraction of the second. */
  function ArchTime(instant: real): real {
    instant.Floor as real
  }

  function Ceiling(x: real): (c: int)
    ensures x <= c as real < x + 1.0
  {
    -((-x).Floor)
  }

  /** The fraction of the second dropped when a timer is armed is no more than its duration lacks
      to whole seconds. */
  predicate OnTime(armed: real, timeout: real) {
    armed - ArchTime(armed) <= Ceiling(timeout) as real - timeout
  }

  ghost predicate NeverFiresEarly(armed: real, timeout: real) {
    forall fired {:trigger ArchTime(fired)} ::
      ArchTime(armed) + timeout <= ArchTime(fired) ==> fired - armed >= timeout
  }

  lemma WholeSeconds(whole: real, timeout: real)
    requires whole == whole.Floor as real && timeout <= whole
    ensures Ceiling(timeout) as real <= whole
  {
    assert Ceiling(timeout) <= whole.Floor;
  }

  /** A timer armed at a true instant never fires early on the true clock exactly when it is on
      time in this sense; a whole number of seconds asks for arming on the second. */
  lemma OnTimeIff(armed: real, timeout: real)
    requires timeout > 0.0
    ensures NeverFiresEarly(armed, timeout) <==> OnTime(armed, timeout)
  {
    if OnTime(armed, timeout) {
      forall fired {:trigger ArchTime(fired)} | ArchTime(armed) + timeout <= ArchTime(fired)
        ensures fired - armed >= timeout
      {
        var whole := ArchTime(fired) - ArchTime(armed);
        assert whole == (fired.Floor - armed.Floor) as real;
        WholeSeconds(whole, timeout);
      }
    } else {
      EarliestFiring(armed, timeout);
    }
  }

  lemma EarliestFiring(armed: real, timeout: real)
    ensures var fired := ArchTime(armed) + Ceiling(timeout) as real;
      ArchTime(fired) == fired && ArchTime(armed) + timeout <= ArchTime(fired)
  {
    WholeSum(armed.Floor, Ceiling(timeout));
  }

  lemma WholeSum(a: int, b: int)
    ensures a as real + b as real == (a + b) as real && ((a + b) as real).Floor == a + b
  {
  }

  /** A report in a run on a steady clock, of a timer armed and checked at the given instants. */
  ghost predicate ReportedAt(
    vs: seq<View>, ls: seq<Label>, served: seq<Option<Timer>>, n: nat, armed: real, fired: real)
  {
    && TableRun(vs, ls, served) && vs[0].table == map[] && SteadyRun(vs, ls)
    && n < |ls| && served[n].Some? && ls[n].Check? && ls[n].read == ArchTime(fired)
    && var id := served[n].value.id;
       id in Ledger(vs, ls, served, n) ==> Ledger(vs, ls, served, n)[id].armed == ArchTime(armed)
  }

  /** So in every run a timer armed on time is reported only once its true duration has passed. */
  lemma NeverEarlyInRealTime(
    vs: seq<View>, ls: seq<Label>, served: seq<Option<Timer>>, n: nat, armed: real, fired: real)
    requires ReportedAt(vs, ls, served, n, armed, fired) && OnTime(armed, served[n].value.timeout)
    ensures fired - armed >= served[n].value.timeout
  {
    NeverEarly(vs, ls, served, n);
    ServedBalance(vs, ls, served, n);
    OnTimeIff(armed, served[n].value.timeout);
  }

  /** Any other timer is reported early in some run: at the first whole second that counts. */
  lemma EarlyOtherwise(armed: real, timeout: real) returns (fired: real, s1: State, s2: State, t: Timer)
    requires timeout > 0.0 && !OnTime(armed, timeout)
    ensures var at, read := ArchTime(armed), ArchTime(fired);
      && Step(Initial(at), Create(1, timeout, 0, true, at), s1)
      && Step(s1, Check(read, read), s2)
      && Served(s1, Check(read, read)) == Some(t) && t.timeout == timeout
    ensures fired - armed < timeout
  {
    fired := ArchTime(armed) + Ceiling(timeout) as real;
    EarliestFiring(armed, timeout);
    s1, s2, t := OneShotRun(timeout, ArchTime(armed), ArchTime(fired));
  }

  /** On time or not, a timer is early by less than a second... */
  lemma EarlyByLessThanASecond(
    vs: seq<View>, ls: seq<Label>, served: seq<Option<Timer>>, n: nat, armed: real, fired: real)
    requires ReportedAt(vs, ls, served, n, armed, fired)
    ensures fired - armed > served[n].value.timeout - 1.0
  {
    NeverEarly(vs, ls, served, n);
  }

  /** ...and a one second timer created at 0.9 s is reported at 1.0 s. */
  lemma FiresEarlyInRealTime() returns (s1: State, s2: State, t: Timer)
    ensures var created, checked := ArchTime(0.9), ArchTime(1.0);
      && Step(Initial(created), Create(1, 1.0, 0, true, created), s1)
      && Step(s1, Check(checked, checked), s2)
      && Served(s1, Check(checked, checked)) == Some(t) && t.timeout == 1.0
  {
    assert (0.9).Floor == 0 && (1.0).Floor == 1;
    s1, s2, t := OneShotRun(1.0, 0.0, 1.0);
  }
}
