/** The specification of EventQueue's methods in terms of the event machine: what a call adds,
    takes, waits for and frees. */
module QueueSpec {
  import opened Options
  import opened EventStore
  import opened EventMachine
  import opened TimerHeap
  import Timers
  import opened Sequences

  /** addEvent as one step: store and post, defer, or nothing to queue. */
  function AddOne(m: Machine, e: Event): Machine
    requires m.saving.None?
  {
    if Stores(m, Add(e)) then Next(Next(m, Add(e)), Post) else Next(m, Add(e))
  }

  /** processEvent on a non-empty buffer: look, pop, take, and hand the event over. */
  function TakeOldest(m: Machine): Machine
    requires m.saving.None? && m.consumer.Idle? && m.buffer.ready && m.buffer.queue != []
  {
    Next(Next(Next(m, Look), Pop), Take).(consumer := Idle)
  }

  /** What one addEvent call puts at the end of the queue, if anything. */
  function Queues(e: Event): seq<Event> {
    if Bogus(e) || DeliverImmediately(e) then [] else [e]
  }

  /** The events among those added that enter the queue. */
  function Queued(es: seq<Event>): seq<Event> {
    if es == [] then []
    else
      var e := es[|es| - 1];
      Queued(es[..|es| - 1]) + Queues(e)
  }

  /** What one addEvent call delivers and frees at once, if anything. */
  function FreesNow(e: Event): seq<Event> {
    if DeliverImmediately(e) && FreesData(e) then [e] else []
  }

  /** The events among those added that are delivered and freed at once. */
  function FreedAtOnce(es: seq<Event>): seq<Event> {
    if es == [] then []
    else
      var e := es[|es| - 1];
      FreedAtOnce(es[..|es| - 1]) + FreesNow(e)
  }

  // What producers and loop change: the events in flight, those pending and the data freed.
  datatype Moment = Moment(flight: seq<Event>, pending: seq<Event>, freed: seq<Event>)

  /** After a number of addEvent calls. */
  function After(ready: bool, m: Moment, es: seq<Event>): Moment {
    var freed := m.freed + FreedAtOnce(es);
    if ready then Moment(m.flight + Queued(es), m.pending, freed) else Moment(m.flight, m.pending + Queued(es), freed)
  }

  // One turn of processEvent's loop: the two clock readings of hasTimerExpired, the time the
  // caller has spent, and the events that other threads add while it waits.
  datatype Tick = Tick(read: real, reset: real, elapsed: real, posted: seq<Event>)

  datatype Outcome = UserEvent | TimerExpired | TimedOut | StillWaiting

  /** The event taken from those in flight, if any. */
  function Handed(outcome: Outcome, event: Event): seq<Event> {
    if outcome.UserEvent? then [event] else []
  }

  // ---------------------------------------------------------------- waiting

  /** getNextTimerTimeout */
  function NextTimeout(q: seq<Timer>): real {
    if q == [] then -1.0 else if q[0].time <= 0.0 then 0.0 else q[0].time
  }

  /** The duration processEvent passes to waitForEvent. */
  function WaitTime(timeout: real, elapsed: real, next: real): real {
    var timeLeft := timeout - elapsed;
    if timeout < 0.0 || (next >= 0.0 && next < timeLeft) then next else timeLeft
  }

  /** w is the earliest of the caller's remaining time and every timer's, negative when there
      is neither. */
  ghost predicate IsEarliest(w: real, timeout: real, elapsed: real, m: Timers.TimerTable) {
    if timeout < 0.0 && m == map[] then w < 0.0
    else
      && w > 0.0
      && (timeout >= 0.0 ==> w <= timeout - elapsed)
      && (forall id :: id in m ==> w <= m[id].time)
      && ((timeout >= 0.0 && w == timeout - elapsed) || exists id :: id in m && w == m[id].time)
  }

  /** Every wait issued is the earliest deadline, given that the check just made found no
      expired timer and the caller's time is not up. */
  lemma WaitIsEarliest(s: Timers.State, timeout: real, elapsed: real)
    requires Timers.Valid(s) && (s.queue != [] ==> s.queue[0].time > 0.0)
    requires timeout < 0.0 || timeout - elapsed > 0.0
    ensures IsEarliest(WaitTime(timeout, elapsed, NextTimeout(s.queue)), timeout, elapsed, Timers.Table(s))
  {
    var m := Timers.Table(s);
    Timers.EmptyTable(s);
    if s.queue != [] {
      Timers.Member(s.queue, m, s.queue[0]);
      forall id | id in m
        ensures s.queue[0].time <= m[id].time
      {
        Timers.FrontIsLeastEntry(s.queue, m, id);
      }
    }
  }

  // ---------------------------------------------------------------- lemmas

  /** How often an event's data has been freed. */
  ghost function Times(freed: seq<Event>, who: Event): nat {
    multiset(freed)[who]
  }

  ghost function Freeable(t: map<nat, Event>, who: Event): nat {
    if who.kind.Other? && who.flags / 2 % 2 == 0 then Copies(t, who) else 0
  }

  lemma PostedInv(m: Machine, e: Event)
    requires Inv(m) && m.saving.None? && |InFlight(m)| < ID_LIMIT
    ensures var posted := m.(store := Saved(m.store, e), buffer := Posted(m.buffer, NewId(m.store)));
      && posted == Next(StoreEvent(m, e), Post)
      && Inv(posted) && InFlight(posted) == InFlight(m) + [e]
  {
    StoredIsLive(m);
    StoreKeeps(m, e);
    StepKeeps(StoreEvent(m, e), Post);
    StoreFlight(m, e);
  }

  lemma RefusedInv(m: Machine, e: Event)
    requires Inv(m) && m.saving.None? && |InFlight(m)| < ID_LIMIT
    ensures Taken(Saved(m.store, e), NewId(m.store)) == e
    ensures var refused := m.(store := Removed(Saved(m.store, e), NewId(m.store)));
      && refused == Next(StoreEvent(m, e), Refuse)
      && Inv(refused) && InFlight(refused) == InFlight(m)
  {
    StoredIsLive(m);
    var stored, id := StoreEvent(m, e), NewId(m.store);
    StoreKeeps(m, e);
    StepKeeps(stored, Refuse);
    SaveAllocates(m.store, e);
    assert Removed(stored.store, id).table == m.store.table;
  }

  lemma AdoptedInv(m: Machine, b: Buffer)
    requires Inv(m) && m.saving.None? && m.consumer.Idle? && (b.ready <==> b.queue != [])
    ensures var restarted := m.(store := EMPTY_STORE, buffer := b, adopted := m.adopted + 1);
      && restarted == Next(m, Adopt).(buffer := b)
      && (Inv(restarted) <==> b.queue == [])
      && (b.queue == [] ==> InFlight(restarted) == [])
  {
    var restarted := m.(store := EMPTY_STORE, buffer := b, adopted := m.adopted + 1);
    if b.queue == [] {
      StepKeeps(m, Adopt);
      assert restarted == Next(m, Adopt);
    } else {
      assert Live(restarted)[0] == b.queue[0];
      assert Among(Live(restarted), b.queue[0]);
    }
  }

  lemma DrainStep(flight: seq<Event>, pending: seq<Event>)
    requires pending != []
    ensures flight + pending == (flight + [pending[0]]) + pending[1..] && |flight| < |flight + pending|
  {
  }

  lemma PendingApart(m: Machine, pending: seq<Event>)
    requires Inv(m)
    ensures Inv(m.(pending := pending)) && InFlight(m.(pending := pending)) == InFlight(m)
  {
    assert Live(m.(pending := pending)) == Live(m);
  }

  /** Storing and posting an event puts it at the end of those in flight. */
  lemma StoreFlight(m: Machine, e: Event)
    requires Inv(m) && m.saving.None? && |m.store.table| < ID_LIMIT
    ensures InFlight(Next(StoreEvent(m, e), Post)) == InFlight(m) + [e]
  {
    SaveAllocates(m.store, e);
    assert Live(m) == Hand(m) + m.buffer.queue;
    assert !Among(Live(m), NewId(m.store));
    PostedFlight(m, e);
  }

  lemma PostedFlight(m: Machine, e: Event)
    requires m.saving.None? && !Among(Hand(m) + m.buffer.queue, NewId(m.store))
    ensures InFlight(Next(StoreEvent(m, e), Post)) == InFlight(m) + [e]
  {
    var s, id, ids := StoreEvent(m, e), NewId(m.store), Hand(m) + m.buffer.queue;
    EventsKept(m.store.table, id, e, ids);
    EventsJoin(s.store.table, ids, [id]);
    assert Hand(m) + Next(s, Post).buffer.queue == ids + [id];
    assert EventsOf(s.store.table, [id]) == [e];
  }

  lemma TakeOldestKeeps(m: Machine)
    requires Inv(m) && m.saving.None? && m.consumer.Idle? && m.buffer.queue != []
    ensures m.buffer.queue[0] in m.store.table
    ensures Inv(TakeOldest(m))
    ensures InFlight(m) == [m.store.table[m.buffer.queue[0]]] + InFlight(TakeOldest(m))
    ensures TakeOldest(m) ==
      m.(store := Removed(m.store, m.buffer.queue[0]), buffer := Popped(m.buffer))
  {
    var seen := Next(m, Look);
    var held := Next(seen, Pop);
    StepKeeps(m, Look);
    StepKeeps(seen, Pop);
    TakeKeeps(held);
    RemoveAllocates(held.store, held.consumer.id);
    TakenFromFlight(held);
    assert Hand(held) + held.buffer.queue == m.buffer.queue == Hand(m) + m.buffer.queue;
    var after, out := Next(held, Take), TakeOldest(m);
    assert Live(out) == Live(after);
    assert Hand(out) + out.buffer.queue == Hand(after) + after.buffer.queue;
  }

  // ---------------------------------------------------------------- processEvent

  function CheckOf(tick: Tick): Timers.Label {
    Timers.Check(tick.read, tick.reset)
  }

  /** What one turn does to the timers: report one, give up, or wait until the earliest
      deadline. */
  ghost predicate Checked(
    s: Timers.State, tick: Tick, timeout: real, stop: Option<Outcome>, event: Event, wait: real, s': Timers.State)
  {
    Timers.Step(s, CheckOf(tick), s') && Timers.Valid(s')
    && var served := Timers.Served(s, CheckOf(tick));
       match stop
       case None => served == None && IsEarliest(wait, timeout, tick.elapsed, Timers.Table(s'))
       case Some(TimerExpired) => served.Some? && event.kind.Timer? && event.target == served.value.target
       case Some(TimedOut) => served == None && 0.0 <= timeout <= tick.elapsed
       case Some(_) => false
  }

  /** How processEvent's loop ends after n waits, with the timers in state s before the last
      turn and s' after it. */
  ghost predicate Ended(
    outcome: Outcome, s: Timers.State, ticks: seq<Tick>, n: nat, timeout: real, event: Event, s': Timers.State)
    requires n <= |ticks|
  {
    match outcome
    case UserEvent => s' == s
    case StillWaiting => s' == s && n == |ticks|
    case _ => n < |ticks| && Checked(s, ticks[n], timeout, Some(outcome), event, 0.0, s')
  }

  // The timers and the events at one instant.
  datatype Instant = Instant(clock: Timers.State, events: Moment)

  /** A turn that found nothing in flight and no expired timer and went on to wait, while other
      threads added events. */
  ghost predicate Turn(ready: bool, s: Instant, tick: Tick, timeout: real, wait: real, s': Instant) {
    && s.events.flight == [] && s'.events == After(ready, s.events, tick.posted)
    && Checked(s.clock, tick, timeout, None, DEFAULT_EVENT, wait, s'.clock)
  }

  /** Consecutive turns: the instants between them and the waits issued. */
  ghost predicate Waited(ready: bool, ss: seq<Instant>, ticks: seq<Tick>, waits: seq<real>, timeout: real) {
    && |waits| <= |ticks| && |ss| == |waits| + 1
    && forall i {:trigger waits[i]} :: 0 <= i < |waits| ==> Turn(ready, ss[i], ticks[i], timeout, waits[i], ss[i + 1])
  }

  lemma WaitedStep(
    ready: bool, ss: seq<Instant>, ticks: seq<Tick>, waits: seq<real>, timeout: real, s': Instant, wait: real)
    requires Waited(ready, ss, ticks, waits, timeout) && |waits| < |ticks|
    requires Turn(ready, ss[|waits|], ticks[|waits|], timeout, wait, s')
    ensures Waited(ready, ss + [s'], ticks, waits + [wait], timeout)
  {
    var n, next, all := |waits|, ss + [s'], waits + [wait];
    forall i {:trigger all[i]} | 0 <= i < |all|
      ensures Turn(ready, next[i], ticks[i], timeout, all[i], next[i + 1])
    {
      assert i < n ==> all[i] == waits[i];
    }
  }

  // What happens during a getEvent call: the waits issued and the instants between its turns.
  datatype Passage = Passage(ss: seq<Instant>, waits: seq<real>)

  /** A whole getEvent call: turns that wait, then a user event if one is in flight, and otherwise
      a timer's event, the end of the caller's time or of the script. */
  ghost predicate Got(
    ready: bool, s: Instant, ticks: seq<Tick>, timeout: real, outcome: Outcome, event: Event, p: Passage, s': Instant)
  {
    && Waited(ready, p.ss, ticks, p.waits, timeout) && p.ss[0] == s
    && var last := p.ss[|p.waits|];
       && last.events == s'.events.(flight := Handed(outcome, event) + s'.events.flight)
       && (outcome.UserEvent? <==> last.events.flight != [])
       && (outcome.TimedOut? || outcome.StillWaiting? ==> event == DEFAULT_EVENT)
       && Ended(outcome, last.clock, ticks, |p.waits|, timeout, event, s'.clock)
  }

  /** The events that came during the waits of a call. */
  function Came(ticks: seq<Tick>, p: Passage): seq<Event> {
    if |p.waits| <= |ticks| then Arrivals(ticks[..|p.waits|]) else []
  }

  /** The events that came during the waits are added one after another. */
  lemma {:induction false} WaitedArrivals(
    ready: bool, ss: seq<Instant>, ticks: seq<Tick>, waits: seq<real>, timeout: real, n: nat)
    requires Waited(ready, ss, ticks, waits, timeout) && n <= |waits|
    ensures ss[n].events == After(ready, ss[0].events, Arrivals(ticks[..n]))
  {
    if n == 0 {
      NothingAdded(ready, ss[0].events);
    } else {
      WaitedArrivals(ready, ss, ticks, waits, timeout, n - 1);
      ArrivalsNext(ready, ss[0].events, ticks, n - 1);
      var w := waits[n - 1];
    }
  }

  /** What a call amounts to: what came is added behind what was in flight, nothing comes unless
      nothing was, and the oldest event then in flight is taken. */
  lemma GotMeans(
    ready: bool, s: Instant, ticks: seq<Tick>, timeout: real, outcome: Outcome, event: Event, p: Passage, s': Instant)
    requires Got(ready, s, ticks, timeout, outcome, event, p, s')
    ensures After(ready, s.events, Came(ticks, p)) == s'.events.(flight := Handed(outcome, event) + s'.events.flight)
    ensures Came(ticks, p) != [] ==> s.events.flight == []
    ensures !outcome.UserEvent? ==> s'.events.flight == []
    ensures outcome.TimerExpired? ==> event.kind.Timer?
    ensures outcome.TimedOut? ==> timeout >= 0.0
    ensures outcome.StillWaiting? ==> |p.waits| == |ticks|
  {
    WaitedArrivals(ready, p.ss, ticks, p.waits, timeout, |p.waits|);
    if p.waits == [] {
      assert ticks[..0] == [];
    } else {
      var w := p.waits[0];
      assert Turn(ready, p.ss[0], ticks[0], timeout, w, p.ss[1]);
    }
  }

  // ---------------------------------------------------------------- room for ids

  /** However a call's turns go, never are more than 2^32 events in flight. */
  ghost predicate RoomToWait(ready: bool, s: Instant, ticks: seq<Tick>, timeout: real) {
    forall ss: seq<Instant>, waits: seq<real> {:trigger Waited(ready, ss, ticks, waits, timeout)} ::
      Waited(ready, ss, ticks, waits, timeout) && ss[0] == s ==> |ss[|waits|].events.flight| <= ID_LIMIT
  }

  ghost predicate RoomForTurn(ready: bool, s: Instant, tick: Tick, timeout: real) {
    forall wait, s' {:trigger Turn(ready, s, tick, timeout, wait, s')} ::
      Turn(ready, s, tick, timeout, wait, s') ==> |s'.events.flight| <= ID_LIMIT
  }

  lemma RoomForNextTurn(ready: bool, ss: seq<Instant>, ticks: seq<Tick>, waits: seq<real>, timeout: real)
    requires Waited(ready, ss, ticks, waits, timeout) && |waits| < |ticks|
    requires RoomToWait(ready, ss[0], ticks, timeout)
    ensures RoomForTurn(ready, ss[|waits|], ticks[|waits|], timeout)
  {
    forall wait, s' | Turn(ready, ss[|waits|], ticks[|waits|], timeout, wait, s')
      ensures |s'.events.flight| <= ID_LIMIT
    {
      WaitedStep(ready, ss, ticks, waits, timeout, s', wait);
    }
  }

  /** Calls have room when the events in flight fit and so do those that come in any one wait. */
  ghost predicate FewPerWait(ticks: seq<Tick>) {
    forall i :: 0 <= i < |ticks| ==> |Queued(ticks[i].posted)| <= ID_LIMIT
  }

  lemma FewPerWaitHasRoom(ss: seq<Instant>, ticks: seq<Tick>, waits: seq<real>, timeout: real)
    requires FewPerWait(ticks) && Waited(true, ss, ticks, waits, timeout)
    ensures |ss[|waits|].events.flight| <= |ss[0].events.flight| || |ss[|waits|].events.flight| <= ID_LIMIT
  {
    if waits != [] {
      var n := |waits| - 1;
      assert Turn(true, ss[n], ticks[n], timeout, waits[n], ss[n + 1]);
      assert ss[n + 1].events.flight == [] + Queued(ticks[n].posted);
    }
  }

  // ---------------------------------------------------------------- a number of addEvent calls

  lemma QueuedJoin(a: seq<Event>, b: seq<Event>)
    ensures Queued(a + b) == Queued(a) + Queued(b)
    decreases |b|
  {
    if b == [] {
      assert a + b == a;
    } else {
      var front, last := b[..|b| - 1], Queues(b[|b| - 1]);
      QueuedJoin(a, front);
      assert (a + b)[..|a + b| - 1] == a + front;
      Assoc(Queued(a), Queued(front), last);
    }
  }

  /** What addEvent lets in. */
  ghost predicate Plain(es: seq<Event>) {
    forall e :: e in es ==> !Bogus(e)
  }

  lemma PlainJoin(a: seq<Event>, b: seq<Event>)
    ensures Plain(a + b) <==> Plain(a) && Plain(b)
  {
    assert forall e :: e in a + b <==> e in a || e in b;
  }

  lemma {:induction false} QueuedPlain(es: seq<Event>)
    ensures Plain(Queued(es))
  {
    if es != [] {
      var front, last := es[..|es| - 1], es[|es| - 1];
      QueuedPlain(front);
      PlainJoin(Queued(front), Queues(last));
    }
  }

  /** The events that other threads add during the given turns. */
  function Arrivals(ticks: seq<Tick>): seq<Event> {
    if ticks == [] then [] else Arrivals(ticks[..|ticks| - 1]) + ticks[|ticks| - 1].posted
  }

  /** What is added during a turn stands between what was added before it and after it. */
  lemma {:induction false} ArrivalsSplit(ticks: seq<Tick>, i: nat)
    requires i < |ticks|
    ensures Arrivals(ticks) == (Arrivals(ticks[..i]) + ticks[i].posted) + Arrivals(ticks[i + 1..])
    decreases |ticks|
  {
    var n := |ticks| - 1;
    var front, rest, last := ticks[..n], ticks[i + 1..], ticks[n].posted;
    if i == n {
      assert rest == [] && Arrivals(rest) == [];
    } else {
      ArrivalsSplit(front, i);
      assert front[..i] == ticks[..i] && front[i + 1..] == rest[..|rest| - 1];
      Assoc(Arrivals(ticks[..i]) + ticks[i].posted, Arrivals(front[i + 1..]), last);
    }
  }

  lemma NothingAdded(ready: bool, m: Moment)
    ensures After(ready, m, []) == m && After(ready, m, Arrivals([])) == m
  {
  }

  lemma AfterBoth(ready: bool, m: Moment, a: seq<Event>, b: seq<Event>)
    ensures After(ready, m, a + b) == After(ready, After(ready, m, a), b)
  {
    QueuedJoin(a, b);
    FreedJoin(a, b);
    Assoc(if ready then m.flight else m.pending, Queued(a), Queued(b));
    Assoc(m.freed, FreedAtOnce(a), FreedAtOnce(b));
  }

  lemma AddedNext(ready: bool, m: Moment, es: seq<Event>, i: nat)
    requires i < |es|
    ensures After(ready, m, es[..i + 1]) == After(ready, After(ready, m, es[..i]), [es[i]])
    ensures ready && Queues(es[i]) != [] ==> |After(ready, m, es[..i]).flight| < |m.flight| + |Queued(es)|
  {
    assert es[..i + 1] == es[..i] + [es[i]];
    AfterBoth(ready, m, es[..i], [es[i]]);
    QueuedPrefix(es, i);
  }

  lemma QueuedPrefix(es: seq<Event>, i: nat)
    requires i < |es|
    ensures |Queued(es[..i])| + |Queues(es[i])| <= |Queued(es)|
  {
    assert es == es[..i + 1] + es[i + 1..];
    assert es[..i + 1][..i] == es[..i];
    QueuedJoin(es[..i + 1], es[i + 1..]);
  }

  lemma OneAdded(e: Event)
    ensures Queued([e]) == Queues(e) && FreedAtOnce([e]) == FreesNow(e)
  {
    assert [e][..0] == [];
  }

  /** What one addEvent call does, by the event's type and its flags: bit 0 asks for immediate
      delivery, bit 1 for the data to be kept. */
  ghost predicate Adds(ready: bool, m: Moment, e: Event, m': Moment) {
    var discarded := e.kind.Unknown? || e.kind.System? || e.kind.Timer?;
    if discarded then m' == m
    else if e.flags % 2 == 1 then
      m' == m.(freed := m.freed + if e.kind.Other? && e.flags / 2 % 2 == 0 then [e] else [])
    else if ready then m' == m.(flight := m.flight + [e])
    else m' == m.(pending := m.pending + [e])
  }

  /** A number of addEvent calls is the one call done for each in turn. */
  lemma AddsInTurn(ready: bool, m: Moment, es: seq<Event>, e: Event)
    ensures Adds(ready, After(ready, m, es), e, After(ready, m, es + [e]))
  {
    AfterBoth(ready, m, es, [e]);
    OneAdded(e);
  }

  lemma ArrivalsNext(ready: bool, m: Moment, ticks: seq<Tick>, n: nat)
    requires n < |ticks|
    ensures After(ready, m, Arrivals(ticks[..n + 1]))
         == After(ready, After(ready, m, Arrivals(ticks[..n])), ticks[n].posted)
  {
    assert ticks[..n + 1][..n] == ticks[..n];
    AfterBoth(ready, m, Arrivals(ticks[..n]), ticks[n].posted);
  }

  lemma FreedJoin(a: seq<Event>, b: seq<Event>)
    ensures FreedAtOnce(a + b) == FreedAtOnce(a) + FreedAtOnce(b)
    decreases |b|
  {
    if b == [] {
      assert a + b == a;
    } else {
      var front, last := b[..|b| - 1], FreesNow(b[|b| - 1]);
      FreedJoin(a, front);
      assert (a + b)[..|a + b| - 1] == a + front;
      Assoc(FreedAtOnce(a), FreedAtOnce(front), last);
    }
  }
}
