/** EventQueue itself: the object whose methods are the steps of the event and timer machines. */
module EventQueues {
  import opened Options
  import opened EventStore
  import opened EventMachine
  import opened QueueSpec
  import opened LoopSpec
  import opened SimpleBuffer
  import opened TimerHeap
  import Timers
  import EventRuns
  import opened LoopLedger
  import opened Sequences

  datatype TimerEvent = TimerEvent(timer: TimerId, count: int)

  // The address of m_timerEvent, the static data of every timer event.
  const TIMER_EVENT_DATA: nat := 1

  /** Data is freed as the event machine's ledger of freed data says of a step. */
  ghost predicate FreesAs(m: Machine, l: Label, before: seq<Event>, freed: seq<Event>)
    requires Enabled(m, l)
  {
    forall who :: Times(freed, who) == Times(before, who) + EventRuns.Frees(m, l, who)
  }

  /** What addEvent frees is what the ledger enters for it. */
  lemma AddFrees(m: Machine, before: Moment, e: Event, after: Moment)
    requires Enabled(m, Add(e)) && Adds(m.ready, before, e, after)
    ensures FreesAs(m, Add(e), before.freed, after.freed)
  {
  }

  /** So it is of what adoptBuffer frees. */
  lemma AdoptFrees(m: Machine, before: seq<Event>, freed: seq<Event>)
    requires Enabled(m, Adopt)
    requires forall who :: Times(freed, who) == Times(before, who) + Freeable(m.store.table, who)
    ensures FreesAs(m, Adopt, before, freed)
  {
  }

  class EventQueue {
    var events: map<nat, Event>      // m_events
    var oldEventIDs: seq<nat>        // m_oldEventIDs
    var buffer: SimpleEventQueueBuffer
    var pending: seq<Event>          // m_pending
    var ready: bool                  // m_readyCondVar
    var mark: real                   // m_time
    var timers: set<TimerId>         // m_timers
    var timerQueue: PriorityQueue
    var timerEvent: TimerEvent       // m_timerEvent
    var freed: seq<Event>            // the events whose data deleteData has freed
    ghost var flight: seq<Event>     // the events posted and not yet taken, oldest first
    ghost var adopted: nat           // the number of adoptBuffer calls

    /** The state of the event machine, with no thread inside a method. */
    ghost function Events(): Machine
      reads this`events, this`oldEventIDs, this`buffer, this`pending, this`ready, this`adopted, buffer
    {
      Machine(Store(events, oldEventIDs), buffer.Contents(), pending, ready, None, Idle, adopted)
    }

    /** The state of the timer machine. */
    ghost function Clock(): Timers.State
      reads this`timerQueue, this`timers, this`mark, timerQueue
    {
      Timers.State(timerQueue.c, timers, mark)
    }

    ghost predicate ValidEvents()
      reads this`events, this`oldEventIDs, this`buffer, this`pending, this`ready, this`flight, this`adopted, buffer
    {
      buffer.Valid() && Inv(Events()) && flight == InFlight(Events())
    }

    ghost predicate ValidTimers()
      reads this`timerQueue, this`timers, this`mark, timerQueue
    {
      Timers.Valid(Clock())
    }

    ghost function Now(): Moment
      reads this`flight, this`pending, this`freed
    {
      Moment(flight, pending, freed)
    }

    constructor (now: real)
      ensures ValidEvents() && ValidTimers() && fresh(buffer) && fresh(timerQueue)
      ensures Events() == INITIAL && Clock() == Timers.Initial(now) && freed == []
    {
      events, oldEventIDs, pending, ready, freed, flight, adopted := map[], [], [], false, [], [], 0;
      mark, timers, timerEvent := now, {}, TimerEvent(0, 0);
      buffer := new SimpleEventQueueBuffer();
      timerQueue := new PriorityQueue();
      new;
      assert Live(Events()) == [];
      assert Timers.Represents([], map[]);
    }

    // -------------------------------------------------------------- events

    method SaveEvent(e: Event) returns (id: nat)
      modifies this`events, this`oldEventIDs
      ensures id == old(NewId(Store(events, oldEventIDs)))
      ensures Store(events, oldEventIDs) == old(Saved(Store(events, oldEventIDs), e))
    {
      if oldEventIDs != [] {
        id := oldEventIDs[|oldEventIDs| - 1];
        oldEventIDs := oldEventIDs[..|oldEventIDs| - 1];
      } else {
        id := |events| % ID_LIMIT;
      }
      events := events[id := e];
    }

    method RemoveEvent(id: nat) returns (e: Event)
      modifies this`events, this`oldEventIDs
      ensures e == old(Taken(Store(events, oldEventIDs), id))
      ensures Store(events, oldEventIDs) == old(Removed(Store(events, oldEventIDs), id))
    {
      if id !in events {
        return DEFAULT_EVENT;
      }
      e := events[id];
      events := events - {id};
      oldEventIDs := oldEventIDs + [id];
    }

    /** Event::deleteData */
    method DeleteData(e: Event)
      modifies this`freed
      ensures freed == old(freed) + if FreesData(e) then [e] else []
      // bit 1 of the flags keeps the data
      ensures freed == old(freed) + if e.kind.Other? && e.flags / 2 % 2 == 0 then [e] else []
    {
      match e.kind
      case Unknown =>
      case Quit =>
      case System =>
      case Timer =>
      case Other(_) =>
        if !DontFreeData(e) {
          freed := freed + [e];
        }
    }

    /** addEventToBuffer; `accepts` is what a buffer that may refuse ids answers. */
    method AddEventToBuffer(e: Event, accepts: bool)
      requires ValidEvents() && |flight| < ID_LIMIT
      modifies this`events, this`oldEventIDs, this`freed, this`flight, buffer
      ensures ValidEvents()
      ensures flight == old(flight) + if accepts then [e] else []
      ensures accepts ==> Events() == old(Next(StoreEvent(Events(), e), Post))
      ensures !accepts ==> Events() == old(Next(StoreEvent(Events(), e), Refuse))
      ensures freed == old(freed) + if !accepts && e.kind.Other? && e.flags / 2 % 2 == 0 then [e] else []
    {
      ghost var m := Events();
      var id := SaveEvent(e);
      if accepts {
        PostedInv(m, e);
        var _ := buffer.AddEvent(id);
        flight := flight + [e];
        assert Events() == m.(store := Saved(m.store, e), buffer := Posted(m.buffer, id));
      } else {
        RefusedInv(m, e);
        var removed := RemoveEvent(id);
        DeleteData(removed);
        assert Events() == m.(store := Removed(Saved(m.store, e), id));
      }
    }

    /** addEvent. Dispatching an event that asks for immediate delivery runs its handler in
        the caller's thread and does not touch the queue. */
    method AddEvent(e: Event)
      requires ValidEvents() && (ready && Queues(e) != [] ==> |flight| < ID_LIMIT)
      modifies this`events, this`oldEventIDs, this`freed, this`pending, this`flight, buffer
      ensures ValidEvents()
      ensures Events() == old(AddOne(Events(), e))
      ensures Now() == After(ready, old(Now()), [e])
      ensures Adds(ready, old(Now()), e, Now())
    {
      OneAdded(e);
      if e.kind.Unknown? || e.kind.System? || e.kind.Timer? {
        return;
      }
      if DeliverImmediately(e) {
        DeleteData(e);
      } else if !ready {
        PendingApart(Events(), pending + [e]);
        pending := pending + [e];
      } else {
        AddEventToBuffer(e, true);
      }
    }

    /** adoptBuffer: the stored events' data is freed and everything starts over with the given
        buffer, or with a new simple one. A buffer that already holds ids has no events for
        them. */
    method AdoptBuffer(replacement: SimpleEventQueueBuffer?)
      requires ValidEvents() && (replacement != null ==> replacement.Valid())
      modifies this`events, this`oldEventIDs, this`freed, this`flight, this`buffer, this`adopted
      ensures if replacement == null then fresh(buffer) else buffer == replacement
      ensures ValidEvents() <==> replacement == null || replacement.Contents().queue == []
      ensures Events() == old(Next(Events(), Adopt)).(buffer := buffer.Contents())
      ensures replacement == null ==> buffer.Contents() == EMPTY_BUFFER
      ensures forall who :: Times(freed, who) == Times(old(freed), who) + Freeable(old(events), who)
    {
      ghost var m := Events();
      FreeAll();
      var next := BufferOr(replacement);
      AdoptedInv(m, next.Contents());
      events, oldEventIDs, buffer, flight, adopted := map[], [], next, [], adopted + 1;
      assert Events() == m.(store := EMPTY_STORE, buffer := next.Contents(), adopted := m.adopted + 1);
    }

    static method BufferOr(replacement: SimpleEventQueueBuffer?) returns (b: SimpleEventQueueBuffer)
      requires replacement != null ==> replacement.Valid()
      ensures b.Valid()
      ensures if replacement == null then fresh(b) && b.Contents() == EMPTY_BUFFER else b == replacement
    {
      if replacement == null {
        b := new SimpleEventQueueBuffer();
      } else {
        b := replacement;
      }
    }

    /** The loop of adoptBuffer over m_events. */
    method FreeAll()
      modifies this`freed
      ensures forall who :: Times(freed, who) == Times(old(freed), who) + Freeable(events, who)
    {
      var ids := events.Keys;
      ghost var visited: map<nat, Event> := map[];
      while ids != {}
        invariant ids <= events.Keys && visited.Keys == events.Keys - ids
        invariant forall id :: id in visited ==> visited[id] == events[id]
        invariant forall who :: Times(freed, who) == Times(old(freed), who) + Freeable(visited, who)
        decreases |ids|
      {
        var id :| id in ids;
        ghost var before := freed;
        DeleteData(events[id]);
        forall who
          ensures Times(freed, who) + Freeable(visited, who)
               == Times(before, who) + Freeable(visited[id := events[id]], who)
        {
          CopiesWith(visited, id, events[id], who);
        }
        visited := visited[id := events[id]];
        ids := ids - {id};
      }
      assert visited == events;
    }

    /** loop's drain of the pending queue into the buffer. */
    method DrainPending()
      requires ValidEvents() && ready && |flight| + |pending| <= ID_LIMIT
      modifies this`events, this`oldEventIDs, this`pending, this`freed, this`flight, buffer
      ensures ValidEvents() && pending == [] && freed == old(freed)
      ensures flight == old(flight) + old(pending)
    {
      ghost var all := flight + pending;
      while pending != []
        invariant ValidEvents() && freed == old(freed) && flight + pending == all
        decreases |pending|
      {
        DrainStep(flight, pending);
        var e, rest := pending[0], pending[1..];
        AddEventToBuffer(e, true);
        PendingApart(Events(), rest);
        pending := rest;
      }
    }

    // -------------------------------------------------------------- timers

    /** newTimer and newOneShotTimer; `id` is the address that operator new returned and `at`
        the stopwatch's clock when it is read. */
    method NewTimer(id: TimerId, duration: real, target: nat, oneShot: bool, at: real)
      requires ValidTimers() && duration > 0.0 && id !in timers
      modifies this`timers, timerQueue
      ensures ValidTimers()
      ensures Timers.Step(old(Clock()), Timers.Create(id, duration, target, oneShot, at), Clock())
    {
      ghost var s, l := Clock(), Timers.Create(id, duration, target, oneShot, at);
      timers := timers + {id};
      var owner := if target == 0 then id else target;
      timerQueue.Push(Timer.Timer(id, duration, owner, oneShot, duration + (at - mark)));
      Timers.StepValid(s, l, Clock());
    }

    method DeleteTimer(id: TimerId)
      requires ValidTimers() && id in timers
      modifies this`timers, timerQueue
      ensures ValidTimers()
      ensures Timers.Step(old(Clock()), Timers.Delete(id), Clock())
    {
      ghost var s := Clock();
      var i := 0;
      while i < |timerQueue.c|
        invariant i <= |timerQueue.c| && timerQueue.c == s.queue
        invariant forall j :: 0 <= j < i ==> s.queue[j].id != id
      {
        if timerQueue.c[i].id == id {
          timerQueue.Erase(i);
          break;
        }
        i := i + 1;
      }
      timers := timers - {id};
      assert i == Timers.FirstMatch(s.queue, id);
      Timers.StepValid(s, Timers.Delete(id), Clock());
    }

    /** Takes the front timer off the queue and, unless it is a one-shot, puts it back rearmed. */
    method ServeFront() returns (t: Timer)
      requires IsHeap(timerQueue.c) && timerQueue.c != []
      modifies timerQueue
      ensures t == old(timerQueue.c[0])
      ensures var rest := multiset(old(timerQueue.c)) - multiset{t};
        Timers.HeapOf(timerQueue.c, if t.oneShot then rest else rest + multiset{Timers.Rearmed(t)})
    {
      t := timerQueue.c[0];
      timerQueue.Pop();
      if !t.oneShot {
        timerQueue.Push(Timers.Rearmed(t));
      }
    }

    /** hasTimerExpired; `read` and `reset` are the clock in getTime() and in reset(). */
    method HasTimerExpired(read: real, reset: real) returns (expired: bool, event: Event)
      requires ValidTimers()
      modifies this`mark, this`timerEvent, timerQueue
      ensures ValidTimers()
      ensures Timers.Step(old(Clock()), Timers.Check(read, reset), Clock())
      ensures var served := Timers.Served(old(Clock()), Timers.Check(read, reset));
        && (expired <==> served.Some?)
        && (expired ==>
              var t := served.value;
              && t.timeout > 0.0 && timerEvent == TimerEvent(t.id, Timers.Count(t))
              && event == Event(EventType.Timer, t.target, TIMER_EVENT_DATA, 0, 0))
      ensures !expired ==> event == DEFAULT_EVENT && (timerQueue.c != [] ==> timerQueue.c[0].time > 0.0)
    {
      ghost var s, l := Clock(), Timers.Check(read, reset);
      event := DEFAULT_EVENT;
      if timerQueue.c == [] {
        return false, event;
      }
      var time := read - mark;
      mark := reset;
      timerQueue.CountDown(time);
      if timerQueue.c[0].time > 0.0 {
        Timers.StepValid(s, l, Clock());
        return false, event;
      }
      Timers.ServedHasPeriod(s, l);
      var t := ServeFront();
      timerEvent := TimerEvent(t.id, Timers.Count(t));
      event := Event(EventType.Timer, t.target, TIMER_EVENT_DATA, 0, 0);
      Timers.StepValid(s, l, Clock());
      expired := true;
    }

    // -------------------------------------------------------------- the consumer

    /** A number of addEvent calls, as a handler makes them or other threads do. */
    method AddEvents(es: seq<Event>)
      requires ValidEvents() && (ready ==> |flight| + |Queued(es)| <= ID_LIMIT)
      modifies this`events, this`oldEventIDs, this`freed, this`pending, this`flight, buffer
      ensures ValidEvents()
      ensures Now() == After(ready, old(Now()), es)
    {
      ghost var m := Now();
      NothingAdded(ready, m);
      for i := 0 to |es|
        invariant ValidEvents() && Now() == After(ready, m, es[..i])
      {
        AddedNext(ready, m, es, i);
        AddEvent(es[i]);
      }
      assert es[..|es|] == es;
    }

    /** getEvent and removeEvent on a non-empty buffer. */
    method TakeEvent() returns (event: Event)
      requires ValidEvents() && Events().buffer.queue != []
      modifies this`events, this`oldEventIDs, this`flight, buffer
      ensures ValidEvents() && Events() == old(TakeOldest(Events()))
      ensures old(flight) == [event] + flight
    {
      TakeOldestKeeps(Events());
      var dataID := buffer.GetEvent();
      event := RemoveEvent(dataID.value);
      flight := flight[1..];
    }

    /** One turn of processEvent's loop up to the wait. */
    method CheckTimers(timeout: real, tick: Tick) returns (stop: Option<Outcome>, event: Event, wait: real)
      requires ValidTimers()
      modifies this`mark, this`timerEvent, timerQueue
      ensures stop != Some(TimerExpired) ==> event == DEFAULT_EVENT
      ensures ValidTimers() && Checked(old(Clock()), tick, timeout, stop, event, wait, Clock())
    {
      var expired;
      wait := 0.0;
      expired, event := HasTimerExpired(tick.read, tick.reset);
      if expired {
        return Some(TimerExpired), event, wait;
      }
      var timeLeft := timeout - tick.elapsed;
      if timeout >= 0.0 && timeLeft <= 0.0 {
        return Some(TimedOut), event, wait;
      }
      WaitIsEarliest(Clock(), timeout, tick.elapsed);
      stop, wait := None, WaitTime(timeout, tick.elapsed, NextTimeout(timerQueue.c));
    }

    ghost function Here(): Instant
      reads this`timerQueue, this`timers, this`mark, timerQueue, this`flight, this`pending, this`freed
    {
      Instant(Clock(), Now())
    }

    /** Other threads add events during a wait. */
    method AddArrivals(es: seq<Event>)
      requires ValidEvents() && ValidTimers() && flight == [] && (ready ==> |Queued(es)| <= ID_LIMIT)
      modifies this`events, this`oldEventIDs, this`freed, this`pending, this`flight, buffer
      ensures ValidEvents() && ValidTimers()
      ensures Here() == Instant(old(Clock()), After(ready, old(Now()), es))
    {
      ghost var clock := Clock();
      AddEvents(es);
      assert Clock() == clock;
    }

    /** One turn of processEvent's loop with the buffer empty: when it goes on to wait, other
        threads may add events. */
    method AwaitTurn(timeout: real, tick: Tick) returns (stop: Option<Outcome>, event: Event, wait: real)
      requires ValidEvents() && ValidTimers() && flight == []
      requires ready ==> RoomForTurn(ready, Here(), tick, timeout)
      modifies this`events, this`oldEventIDs, this`freed, this`pending, this`flight, buffer
      modifies this`mark, this`timerEvent, timerQueue
      ensures ValidEvents() && ValidTimers()
      ensures stop != Some(TimerExpired) ==> event == DEFAULT_EVENT
      ensures stop.None? ==> Turn(ready, old(Here()), tick, timeout, wait, Here())
      ensures stop.Some? ==> Now() == old(Now()) && Checked(old(Clock()), tick, timeout, stop, event, wait, Clock())
    {
      stop, event, wait := CheckTimers(timeout, tick);
      assert ValidEvents() && Now() == old(Now());
      if stop.None? {
        ghost var after := Instant(Clock(), After(ready, Now(), tick.posted));
        assert Turn(ready, old(Here()), tick, timeout, wait, after);
        AddArrivals(tick.posted);
      }
    }

    /** The next turn of processEvent's loop, after those that issued the given waits. */
    method NextTurn(timeout: real, ticks: seq<Tick>, waits: seq<real>, ghost ss: seq<Instant>)
      returns (stop: Option<Outcome>, event: Event, wait: real)
      requires ValidEvents() && ValidTimers() && flight == []
      requires |waits| < |ticks| && Waited(ready, ss, ticks, waits, timeout) && ss[|waits|] == Here()
      requires ready ==> RoomToWait(ready, ss[0], ticks, timeout)
      modifies this`events, this`oldEventIDs, this`freed, this`pending, this`flight, buffer
      modifies this`mark, this`timerEvent, timerQueue
      ensures ValidEvents() && ValidTimers()
      ensures stop.None? ==> Waited(ready, ss + [Here()], ticks, waits + [wait], timeout)
      ensures stop.Some? ==>
        && Now() == old(Now()) && !stop.value.UserEvent?
        && Ended(stop.value, ss[|waits|].clock, ticks, |waits|, timeout, event, Clock())
      ensures stop != Some(TimerExpired) ==> event == DEFAULT_EVENT
    {
      if ready {
        RoomForNextTurn(ready, ss, ticks, waits, timeout);
      }
      stop, event, wait := AwaitTurn(timeout, ticks[|waits|]);
      if stop.None? {
        WaitedStep(ready, ss, ticks, waits, timeout, Here(), wait);
      }
    }

    /** Whether the buffer is empty, which is whether nothing is in flight. */
    predicate LooksEmpty()
      requires ValidEvents()
      reads this`events, this`oldEventIDs, this`buffer, this`pending, this`ready, this`flight, this`adopted, buffer
      ensures LooksEmpty() <==> flight == []
    {
      buffer.IsEmpty()
    }

    /** The loop of processEvent: until the buffer holds an event, report a timer, give up when
        the caller's time is up, or wait. When the script of turns ends the caller is blocked in
        waitForEvent. */
    method AwaitEvent(timeout: real, ticks: seq<Tick>)
      returns (outcome: Outcome, event: Event, waits: seq<real>, ghost ss: seq<Instant>)
      requires ValidEvents() && ValidTimers() && (ready ==> RoomToWait(ready, Here(), ticks, timeout))
      modifies this`events, this`oldEventIDs, this`freed, this`pending, this`flight, buffer
      modifies this`mark, this`timerEvent, timerQueue
      ensures ValidEvents() && ValidTimers()
      ensures Waited(ready, ss, ticks, waits, timeout) && ss[0] == old(Here()) && ss[|waits|].events == Now()
      ensures outcome.UserEvent? <==> flight != []
      ensures outcome.TimedOut? || outcome.StillWaiting? ==> event == DEFAULT_EVENT
      ensures Ended(outcome, ss[|waits|].clock, ticks, |waits|, timeout, event, Clock())
    {
      outcome, event, waits, ss := UserEvent, DEFAULT_EVENT, [], [Here()];
      ghost var here := Here();
      var empty := LooksEmpty();
      while empty
        invariant ValidEvents() && ValidTimers() && event == DEFAULT_EVENT && empty == (flight == [])
        invariant Waited(ready, ss, ticks, waits, timeout) && ss[0] == here && ss[|waits|] == Here()
        decreases |ticks| - |waits|
      {
        if |waits| == |ticks| {
          outcome := StillWaiting;
          return;
        }
        var stop, wait;
        stop, event, wait := NextTurn(timeout, ticks, waits, ss);
        if stop.Some? {
          outcome := stop.value;
          return;
        }
        waits, ss := waits + [wait], ss + [Here()];
        empty := LooksEmpty();
      }
    }

    /** The end of processEvent: the event of a non-empty buffer, or else the one found so far. */
    method HandOver(outcome: Outcome, found: Event) returns (event: Event)
      requires ValidEvents() && ValidTimers() && (outcome.UserEvent? <==> flight != [])
      modifies this`events, this`oldEventIDs, this`flight, buffer
      ensures ValidEvents() && ValidTimers() && (!outcome.UserEvent? ==> event == found && flight == [])
      ensures Instant(Clock(), Now().(flight := Handed(outcome, event) + flight)) == old(Here())
    {
      ghost var clock := Clock();
      event := found;
      if outcome.UserEvent? {
        event := TakeEvent();
      }
      assert Clock() == clock;
    }

    /** processEvent. With the simple buffer and one consumer the Unknown answer cannot come:
        it hands over the oldest event in flight, counting those that come during a wait, or
        with none in flight a timer event, and gives up only on a caller that set a time limit.
        Also returns the waits issued and the instants between turns. */
    method ProcessEvent(timeout: real, ticks: seq<Tick>)
      returns (outcome: Outcome, event: Event, waits: seq<real>, ghost ss: seq<Instant>)
      requires ValidEvents() && ValidTimers() && (ready ==> RoomToWait(ready, Here(), ticks, timeout))
      modifies this`events, this`oldEventIDs, this`freed, this`pending, this`flight, buffer
      modifies this`mark, this`timerEvent, timerQueue
      ensures ValidEvents() && ValidTimers()
      ensures Got(ready, old(Here()), ticks, timeout, outcome, event, Passage(ss, waits), Here())
    {
      outcome, event, waits, ss := AwaitEvent(timeout, ticks);
      event := HandOver(outcome, event);
    }

    /** getEvent: the oldest event in flight, or with none in flight a timer event; it gives up
        only on a caller that set a time limit, and then fills in nothing. `came` is what other
        threads added meanwhile. */
    method GetEvent(timeout: real, ticks: seq<Tick>)
      returns (outcome: Outcome, event: Event, came: seq<Event>, ghost p: Passage)
      requires ValidEvents() && ValidTimers() && (ready ==> RoomToWait(ready, Here(), ticks, timeout))
      modifies this`events, this`oldEventIDs, this`freed, this`pending, this`flight, buffer
      modifies this`mark, this`timerEvent, timerQueue
      ensures ValidEvents() && ValidTimers()
      ensures Got(ready, old(Here()), ticks, timeout, outcome, event, p, Here()) && came == Came(ticks, p)
      ensures Now().(flight := Handed(outcome, event) + flight) == After(ready, old(Now()), came)
      ensures came != [] ==> old(flight) == []
      ensures !outcome.UserEvent? ==> flight == []
      ensures outcome.TimerExpired? ==> event.kind.Timer?
      ensures outcome.TimedOut? ==> timeout >= 0.0
      ensures outcome.TimedOut? || outcome.StillWaiting? ==> event == DEFAULT_EVENT
    {
      var waits;
      ghost var ss;
      outcome, event, waits, ss := ProcessEvent(timeout, ticks);
      p := Passage(ss, waits);
      GotMeans(ready, old(Here()), ticks, timeout, outcome, event, p, Here());
      came := Arrivals(ticks[..|waits|]);
    }

    // -------------------------------------------------------------- the main loop

    method AnnounceReady()
      requires ValidEvents()
      modifies this`ready
      ensures ValidEvents() && Events() == old(Next(Events(), MakeReady))
    {
      StepKeeps(Events(), MakeReady);
      ready := true;
    }

    method CallTimer(call: Timers.Label)
      requires ValidTimers() && CallAllowed(timers, call)
      modifies this`timers, timerQueue
      ensures ValidTimers() && Timers.Step(old(Clock()), call, Clock())
      ensures timers == IdsAfter(old(timers), call)
    {
      match call
      case Create(id, duration, target, oneShot, at) => NewTimer(id, duration, target, oneShot, at);
      case Delete(id) => DeleteTimer(id);
    }

    /** The newTimer and deleteTimer calls of a handler. */
    method CallTimers(calls: seq<Timers.Label>) returns (ghost states: seq<Timers.State>)
      requires ValidTimers() && CallsAllowed(timers, calls)
      modifies this`timers, timerQueue
      ensures ValidTimers() && Timers.Run(states, calls)
      ensures states[0] == old(Clock()) && states[|calls|] == Clock()
    {
      states := [Clock()];
      ghost var first := Clock();
      for i := 0 to |calls|
        invariant ValidTimers() && CallsAllowed(timers, calls[i..])
        invariant Timers.Run(states, calls[..i]) && states[0] == first && states[i] == Clock()
      {
        NextAllowed(timers, calls, i);
        CallTimer(calls[i]);
        Timers.RunNext(states, calls, i, Clock());
        states := states + [Clock()];
      }
      assert calls[..|calls|] == calls;
    }

    /** Dispatches an event, the n-th, as far as it concerns the events, and frees its data. */
    method Dispatch(handler: Handler, n: nat, event: Event)
      requires ValidEvents() && ValidTimers() && ready && |flight| + |Queued(handler.events(n, event))| <= ID_LIMIT
      modifies this`events, this`oldEventIDs, this`freed, this`pending, this`flight, buffer
      ensures ValidEvents() && ValidTimers()
      ensures Here() == Instant(old(Clock()), Handled(handler, n, event, old(Now())))
      ensures var m := After(true, old(Now()), handler.events(n, event));
        Now() == m.(freed := m.freed + if event.kind.Other? && event.flags / 2 % 2 == 0 then [event] else [])
    {
      ghost var clock := Clock();
      AddEvents(handler.events(n, event));
      DeleteData(event);
      Assoc(
        old(freed), FreedAtOnce(handler.events(n, event)), if FreesData(event) then [event] else []);
      assert Clock() == clock;
    }

    /** The rest of a round of loop, with an event that getEvent returned at `s`. */
    method DispatchRound(
      handler: Handler, scripts: seq<seq<Tick>>, log: seq<Round>, ghost cs: seq<Course>, ghost ss: seq<Instant>,
      round: Round, ghost p: Passage)
      returns (ghost c: Course)
      requires ValidEvents() && ValidTimers() && ready && ss != [] && |log| < |scripts|
      requires HasRoom(handler, scripts, ss[0]) && TimersUsed(handler, scripts, ss[0])
      requires round.came == Came(scripts[|log|], p)
      requires Obtains(handler, scripts, ss[0], log, cs, ss, p, round.event, Here())
      modifies this, buffer, timerQueue
      ensures ValidEvents() && ValidTimers() && ready
      ensures buffer == old(buffer) && timerQueue == old(timerQueue)
      ensures Dispatches(handler, scripts[|log|], |log|, round, c, ss[|log|], Here())
    {
      var n, event := |log|, round.event;
      ghost var got := Here();
      ghost var states := CallTimers(handler.timers(n, event));
      c := Course(p, got, states);
      ghost var after := Instant(Clock(), Handled(handler, n, event, Now()));
      RoomToDispatch(handler, scripts, log, cs, ss, round, c, after);
      Dispatch(handler, n, event);
    }

    /** One round of loop after those of `log`: get an event and, unless it is a Quit, dispatch it.
        `stop` tells that the loop ends here, with `quit` or blocked in a wait. */
    method LoopRound(
      handler: Handler, scripts: seq<seq<Tick>>, log: seq<Round>, ghost cs: seq<Course>, ghost ss: seq<Instant>)
      returns (stop: bool, quit: Option<Event>, round: Round, ghost c: Course)
      requires ValidEvents() && ValidTimers() && ready
      requires Rounds(handler, scripts, log, cs, ss) && |log| < |scripts| && ss[|log|] == Here()
      requires HasRoom(handler, scripts, ss[0]) && TimersUsed(handler, scripts, ss[0])
      requires Plain(ss[0].events.flight)
      modifies this, buffer, timerQueue
      ensures ValidEvents() && ValidTimers() && ready
      ensures buffer == old(buffer) && timerQueue == old(timerQueue)
      ensures stop ==> LoopEnds(scripts, |log|, ss[|log|], quit, round.came, c.call, Here())
      ensures !stop ==> Dispatches(handler, scripts[|log|], |log|, round, c, ss[|log|], Here())
    {
      RoomInCall(handler, scripts, log, cs, ss);
      var outcome, event, came;
      ghost var p;
      outcome, event, came, p := GetEvent(-1.0, scripts[|log|]);
      round, quit, c := Round(came, event), None, Course(p, Here(), []);
      stop := outcome.StillWaiting? || event.kind.Quit?;
      if stop {
        quit := if event.kind.Quit? then Some(event) else None;
      } else {
        if outcome.UserEvent? {
          UserEventPlain(handler, scripts, log, cs, ss, scripts[|log|], event, p, Here());
        }
        c := DispatchRound(handler, scripts, log, cs, ss, round, p);
      }
    }

    /** The loop of loop, for as many events as the scripts allow: `scripts[i]` is what getEvent
        sees while it waits for the i-th event, and `late` what came during the last wait, for
        the Quit or for an event that has not come. */
    method RunLoop(handler: Handler, scripts: seq<seq<Tick>>)
      returns (log: seq<Round>, quit: Option<Event>, late: seq<Event>,
               ghost cs: seq<Course>, ghost ss: seq<Instant>, ghost p: Passage)
      requires ValidEvents() && ValidTimers() && ready && Plain(flight)
      requires HasRoom(handler, scripts, Here()) && TimersUsed(handler, scripts, Here())
      modifies this, buffer, timerQueue
      ensures ValidEvents() && ValidTimers() && ready
      ensures Rounds(handler, scripts, log, cs, ss) && ss[0] == old(Here())
      ensures LoopEnds(scripts, |log|, ss[|log|], quit, late, p, Here())
    {
      log, quit, late, cs, ss, p := [], None, [], [], [Here()], Passage([], []);
      while |log| < |scripts|
        invariant ValidEvents() && ValidTimers() && ready && quit == None && late == []
        invariant buffer == old(buffer) && timerQueue == old(timerQueue)
        invariant Rounds(handler, scripts, log, cs, ss) && ss[0] == old(Here()) && ss[|log|] == Here()
      {
        var stop, end, round;
        ghost var c;
        stop, end, round, c := LoopRound(handler, scripts, log, cs, ss);
        if stop {
          quit, late, p := end, round.came, c.call;
          return;
        }
        RoundsStep(handler, scripts, log, cs, ss, round, c, Here());
        log, cs, ss := log + [round], cs + [c], ss + [Here()];
      }
    }

    /** What loop starts from: the events in flight, then those pending. */
    ghost function Start(): Instant
      reads this`timerQueue, this`timers, this`mark, timerQueue, this`flight, this`pending, this`freed
    {
      Instant(Clock(), Moment(flight + pending, [], freed))
    }

    /** loop: announce readiness, drain the pending queue, then dispatch until a Quit. */
    method Loop(handler: Handler, scripts: seq<seq<Tick>>)
      returns (log: seq<Round>, quit: Option<Event>, late: seq<Event>,
               ghost cs: seq<Course>, ghost ss: seq<Instant>, ghost p: Passage)
      requires ValidEvents() && ValidTimers() && Plain(flight + pending)
      requires HasRoom(handler, scripts, Start()) && TimersUsed(handler, scripts, Start())
      modifies this, buffer, timerQueue
      ensures ValidEvents() && ValidTimers() && ready && pending == []
      ensures Rounds(handler, scripts, log, cs, ss) && ss[0] == old(Start())
      ensures LoopEnds(scripts, |log|, ss[|log|], quit, late, p, Here())
      ensures LoopTrace(old(flight + pending), handler, log, ss[|log|].events.flight)
      ensures ss[|log|].events.flight + Queued(late) == Last(quit) + flight
      ensures quit.Some? || |log| == |scripts| || flight == []
      ensures freed == old(freed) + FreedBy(handler, log, |log|) + FreedAtOnce(late)
      ensures AllFreed(old(freed), freed, handler, log, late)
      ensures AllAccounted(old(flight + pending), flight, handler, log, late, quit)
    {
      RoomAtStart(handler, scripts, Start());
      AnnounceReady();
      DrainPending();
      assert Here() == old(Start());
      log, quit, late, cs, ss, p := RunLoop(handler, scripts);
      LoopDone(handler, scripts, log, cs, ss, quit, late, p, Here());
    }
  }
}
