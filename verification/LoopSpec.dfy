/** The specification of EventQueue's main loop: in which order it dispatches what other threads
    and its own handlers add. */
module LoopSpec {
  import opened Options
  import opened EventStore
  import opened EventMachine
  import opened QueueSpec
  import opened Sequences
  import opened TimerHeap
  import Timers

  /** What the queue sees of a handler: the addEvent calls made until it returns, by itself or by
      other threads, and its newTimer and deleteTimer calls, which may depend on how many events
      were dispatched before. */
  datatype Handler = Handler(events: (nat, Event) -> seq<Event>, timers: (nat, Event) -> seq<Timers.Label>)

  // One round of loop: the events that other threads add while getEvent waits, and the event it
  // then dispatches.
  datatype Round = Round(came: seq<Event>, event: Event)

  // ---------------------------------------------------------------- the first n rounds of a log

  function AddedBy(handler: Handler, log: seq<Round>, n: nat): seq<Event>
    requires n <= |log|
  {
    if n == 0 then [] else AddedBy(handler, log, n - 1) + AddedIn(handler, log, n - 1)
  }

  function AddedIn(handler: Handler, log: seq<Round>, n: nat): seq<Event>
    requires n < |log|
  {
    log[n].came + handler.events(n, log[n].event)
  }

  /** The data freed: what is delivered at once, then the dispatched event. */
  function FreedBy(handler: Handler, log: seq<Round>, n: nat): seq<Event>
    requires n <= |log|
  {
    if n == 0 then []
    else FreedBy(handler, log, n - 1) + FreedIn(handler, log, n - 1)
  }

  function FreedIn(handler: Handler, log: seq<Round>, n: nat): seq<Event>
    requires n < |log|
  {
    FreedAtOnce(log[n].came) + FreedByDispatch(handler, n, log[n].event)
  }

  function FreedByDispatch(handler: Handler, n: nat, e: Event): seq<Event> {
    FreedAtOnce(handler.events(n, e)) + if FreesData(e) then [e] else []
  }

  function UserEvents(log: seq<Round>, n: nat): seq<Event>
    requires n <= |log|
  {
    if n == 0 then [] else UserEvents(log, n - 1) + IfUser(log[n - 1].event)
  }

  function IfUser(e: Event): seq<Event> {
    if e.kind.Timer? then [] else [e]
  }

  /** The order in which loop must hand out user events: those queued at the start, then those
      that other threads and the handlers add. */
  function Arriving(initial: seq<Event>, handler: Handler, log: seq<Round>, n: nat): seq<Event>
    requires n <= |log|
  {
    initial + Queued(AddedBy(handler, log, n))
  }

  /** Round n waits only when every user event that is there has been taken, and takes the oldest
      one that has not, or a timer's event when there is none. */
  ghost predicate TakenInTurn(initial: seq<Event>, handler: Handler, log: seq<Round>, n: nat)
    requires n < |log|
  {
    var before, users, e := Arriving(initial, handler, log, n), UserEvents(log, n), log[n].event;
    var there := before + Queued(log[n].came);
    && !e.kind.Quit? && (log[n].came != [] ==> users == before)
    && if e.kind.Timer? then users == there else users + [e] <= there
  }

  ghost predicate InTurn(initial: seq<Event>, handler: Handler, log: seq<Round>, n: nat)
    requires n <= |log|
  {
    forall i :: 0 <= i < n ==> TakenInTurn(initial, handler, log, i)
  }

  ghost predicate TraceTo(initial: seq<Event>, handler: Handler, log: seq<Round>, n: nat, left: seq<Event>)
    requires n <= |log|
  {
    Arriving(initial, handler, log, n) == UserEvents(log, n) + left && InTurn(initial, handler, log, n)
  }

  /** A log of rounds and what is left in flight: the user events are dispatched in arrival
      order, each once and not before it arrives, none of them a Quit. */
  ghost predicate LoopTrace(initial: seq<Event>, handler: Handler, log: seq<Round>, left: seq<Event>) {
    TraceTo(initial, handler, log, |log|, left)
  }

  /** The event that ended the loop, taken but not dispatched. */
  function Last(quit: Option<Event>): seq<Event> {
    if quit.Some? then [quit.value] else []
  }

  lemma {:induction false} NoQuitDispatched(initial: seq<Event>, handler: Handler, log: seq<Round>, n: nat)
    requires n <= |log| && InTurn(initial, handler, log, n)
    ensures forall e :: e in UserEvents(log, n) ==> !e.kind.Quit?
  {
    if n > 0 {
      NoQuitDispatched(initial, handler, log, n - 1);
      assert TakenInTurn(initial, handler, log, n - 1);
    }
  }

  /** When loop ends it has dispatched exactly the user events ahead of the first Quit. */
  lemma AheadOfFirstQuit(
    initial: seq<Event>, handler: Handler, log: seq<Round>, left: seq<Event>, late: seq<Event>,
    quit: Event, rest: seq<Event>)
    requires LoopTrace(initial, handler, log, left) && left + Queued(late) == [quit] + rest && quit.kind.Quit?
    ensures var all, users := Arriving(initial, handler, log, |log|) + Queued(late), UserEvents(log, |log|);
      && |users| < |all| && all[|users|] == quit && users == all[..|users|]
      && forall i :: 0 <= i < |users| ==> !all[i].kind.Quit?
  {
    NoQuitDispatched(initial, handler, log, |log|);
    var all, users := Arriving(initial, handler, log, |log|) + Queued(late), UserEvents(log, |log|);
    Assoc(users, left, Queued(late));
    assert all == users + ([quit] + rest);
    forall i | 0 <= i < |users|
      ensures !all[i].kind.Quit?
    {
      assert users[i] in users;
    }
  }

  // ---------------------------------------------------------------- one more round

  lemma ArrivingStep(initial: seq<Event>, handler: Handler, log: seq<Round>, n: nat)
    requires n < |log|
    ensures Arriving(initial, handler, log, n + 1)
         == Arriving(initial, handler, log, n) + (Queued(log[n].came) + Queued(handler.events(n, log[n].event)))
  {
    QueuedJoin(AddedBy(handler, log, n), AddedIn(handler, log, n));
    QueuedJoin(log[n].came, handler.events(n, log[n].event));
    Assoc(initial, Queued(AddedBy(handler, log, n)), Queued(AddedIn(handler, log, n)));
  }

  /** What is left to dispatch was let in by addEvent. */
  lemma LeftPlain(initial: seq<Event>, handler: Handler, log: seq<Round>, n: nat, left: seq<Event>, came: seq<Event>)
    requires n <= |log| && TraceTo(initial, handler, log, n, left) && Plain(initial)
    ensures Plain(left + Queued(came))
  {
    QueuedPlain(AddedBy(handler, log, n));
    PlainJoin(initial, Queued(AddedBy(handler, log, n)));
    PlainJoin(UserEvents(log, n), left);
    QueuedPlain(came);
    PlainJoin(left, Queued(came));
  }

  /** What is in flight once the oldest event has been taken. */
  function Rest(flight: seq<Event>): seq<Event> {
    if flight == [] then [] else flight[1..]
  }

  /** The oldest event in flight, or with none a timer's, and not a Quit. */
  ghost predicate TakenFrom(flight: seq<Event>, e: Event) {
    !e.kind.Quit? && if flight != [] then e == flight[0] else e.kind.Timer?
  }

  lemma OldestFirst(flight: seq<Event>, e: Event)
    requires Plain(flight) && TakenFrom(flight, e)
    ensures flight == IfUser(e) + Rest(flight) && (e.kind.Timer? ==> flight == [])
  {
    assert flight != [] ==> flight[0] in flight;
  }

  // users, all and left before a round that takes e, when `came` is queued during its wait and
  // `more` by its handler.
  lemma Taking(
    all: seq<Event>, users: seq<Event>, left: seq<Event>, came: seq<Event>, more: seq<Event>, e: Event)
    requires all == users + left && Plain(left + came) && TakenFrom(left + came, e)
    ensures if e.kind.Timer? then users == all + came else users + [e] <= all + came
    ensures all + (came + more) == (users + IfUser(e)) + (Rest(left + came) + more)
  {
    var flight := left + came;
    OldestFirst(flight, e);
    assert all + came == users + flight;
    assert all + (came + more) == users + flight + more;
    Assoc(users, IfUser(e), Rest(flight));
    Assoc(users + IfUser(e), Rest(flight), more);
    assert users + [] == users;
  }

  lemma TraceStep(initial: seq<Event>, handler: Handler, log: seq<Round>, n: nat, left: seq<Event>)
    requires n < |log| && TraceTo(initial, handler, log, n, left) && Plain(initial)
    requires TakenFrom(left + Queued(log[n].came), log[n].event) && (log[n].came != [] ==> left == [])
    ensures TraceTo(
      initial, handler, log, n + 1, Rest(left + Queued(log[n].came)) + Queued(handler.events(n, log[n].event)))
  {
    var came, e := Queued(log[n].came), log[n].event;
    LeftPlain(initial, handler, log, n, left, log[n].came);
    ArrivingStep(initial, handler, log, n);
    Taking(Arriving(initial, handler, log, n), UserEvents(log, n), left, came, Queued(handler.events(n, e)), e);
    assert UserEvents(log, n) + [] == UserEvents(log, n);
    assert TakenInTurn(initial, handler, log, n);
  }

  // ---------------------------------------------------------------- rounds

  /** What a round does to the events: what comes is queued, the oldest event in flight, or with
      none a timer's, is taken, dispatched as the n-th and freed. */
  ghost predicate Takes(handler: Handler, n: nat, r: Round, m: Moment, m': Moment) {
    var a := After(true, m, r.came);
    && TakenFrom(a.flight, r.event) && (r.came != [] ==> m.flight == [])
    && m' == Moment(
               Rest(a.flight) + Queued(handler.events(n, r.event)), m.pending,
               a.freed + FreedByDispatch(handler, n, r.event))
  }

  /** A newTimer or deleteTimer call as the queue's callers must make them: a new address is free, a
      deleted timer exists. */
  predicate CallAllowed(ids: set<TimerId>, call: Timers.Label) {
    match call
    case Create(id, duration, _, _, _) => duration > 0.0 && id !in ids
    case Delete(id) => id in ids
    case Check(_, _) => false
  }

  function IdsAfter(ids: set<TimerId>, call: Timers.Label): set<TimerId> {
    match call
    case Create(id, _, _, _, _) => ids + {id}
    case Delete(id) => ids - {id}
    case Check(_, _) => ids
  }

  predicate CallsAllowed(ids: set<TimerId>, calls: seq<Timers.Label>)
    decreases |calls|
  {
    calls == [] || (CallAllowed(ids, calls[0]) && CallsAllowed(IdsAfter(ids, calls[0]), calls[1..]))
  }

  lemma NextAllowed(ids: set<TimerId>, calls: seq<Timers.Label>, i: nat)
    requires i < |calls| && CallsAllowed(ids, calls[i..])
    ensures CallAllowed(ids, calls[i]) && CallsAllowed(IdsAfter(ids, calls[i]), calls[i + 1..])
  {
    assert calls[i..][0] == calls[i] && calls[i..][1..] == calls[i + 1..];
  }

  // How a round goes: the getEvent call, the instant at which it returns, and the timers between
  // the calls its handler makes.
  datatype Course = Course(call: Passage, got: Instant, timers: seq<Timers.State>)

  function OutcomeFor(e: Event): Outcome {
    if e.kind.Timer? then TimerExpired else UserEvent
  }

  /** One round of loop: getEvent, then the handler, then the event's data is freed. */
  ghost predicate Dispatches(
    handler: Handler, script: seq<Tick>, n: nat, r: Round, c: Course, s: Instant, s': Instant)
  {
    var e, m := r.event, c.got.events;
    && !e.kind.Quit? && r.came == Came(script, c.call)
    && Got(true, s, script, -1.0, OutcomeFor(e), e, c.call, c.got)
    && CallsAllowed(c.got.clock.ids, handler.timers(n, e)) && Timers.Run(c.timers, handler.timers(n, e))
    && c.timers[0] == c.got.clock && c.timers[|handler.timers(n, e)|] == s'.clock
    && s'.events == Handled(handler, n, e, m)
  }

  /** What dispatching and freeing the n-th event does to the events. */
  function Handled(handler: Handler, n: nat, e: Event, m: Moment): Moment {
    Moment(m.flight + Queued(handler.events(n, e)), m.pending, m.freed + FreedByDispatch(handler, n, e))
  }

  lemma DispatchesTakes(
    handler: Handler, script: seq<Tick>, n: nat, r: Round, c: Course, s: Instant, s': Instant)
    requires Dispatches(handler, script, n, r, c, s, s')
    ensures Takes(handler, n, r, s.events, s'.events)
  {
    GotMeans(true, s, script, -1.0, OutcomeFor(r.event), r.event, c.call, c.got);
  }

  ghost predicate RoundAt(
    handler: Handler, scripts: seq<seq<Tick>>, log: seq<Round>, cs: seq<Course>, ss: seq<Instant>, i: nat)
    requires i < |log| <= |scripts| && |cs| == |log| && |ss| == |log| + 1
  {
    Dispatches(handler, scripts[i], i, log[i], cs[i], ss[i], ss[i + 1])
  }

  /** The rounds of a log, each following its script, how they went and the instants between
      them. */
  ghost predicate Rounds(
    handler: Handler, scripts: seq<seq<Tick>>, log: seq<Round>, cs: seq<Course>, ss: seq<Instant>)
  {
    && |log| <= |scripts| && |cs| == |log| && |ss| == |log| + 1
    && forall i :: 0 <= i < |log| ==> RoundAt(handler, scripts, log, cs, ss, i)
  }

  lemma RoundsStep(
    handler: Handler, scripts: seq<seq<Tick>>, log: seq<Round>, cs: seq<Course>, ss: seq<Instant>,
    r: Round, c: Course, s': Instant)
    requires Rounds(handler, scripts, log, cs, ss) && |log| < |scripts|
    requires Dispatches(handler, scripts[|log|], |log|, r, c, ss[|log|], s')
    ensures Rounds(handler, scripts, log + [r], cs + [c], ss + [s'])
  {
    var next, courses, all := log + [r], cs + [c], ss + [s'];
    forall i | 0 <= i < |next|
      ensures RoundAt(handler, scripts, next, courses, all, i)
    {
      assert i < |log| ==> RoundAt(handler, scripts, log, cs, ss, i);
    }
  }

  ghost function Moments(ss: seq<Instant>): (ms: seq<Moment>)
    ensures |ms| == |ss| && forall i :: 0 <= i < |ss| ==> ms[i] == ss[i].events
  {
    seq(|ss|, i requires 0 <= i < |ss| => ss[i].events)
  }

  ghost predicate TakesAt(handler: Handler, log: seq<Round>, ms: seq<Moment>, i: nat)
    requires i < |log| && |ms| == |log| + 1
  {
    Takes(handler, i, log[i], ms[i], ms[i + 1])
  }

  ghost predicate AllTake(handler: Handler, log: seq<Round>, ms: seq<Moment>) {
    |ms| == |log| + 1 && forall i :: 0 <= i < |log| ==> TakesAt(handler, log, ms, i)
  }

  lemma RoundsTake(
    handler: Handler, scripts: seq<seq<Tick>>, log: seq<Round>, cs: seq<Course>, ss: seq<Instant>)
    requires Rounds(handler, scripts, log, cs, ss)
    ensures AllTake(handler, log, Moments(ss))
  {
    var ms := Moments(ss);
    forall i | 0 <= i < |log|
      ensures TakesAt(handler, log, ms, i)
    {
      assert RoundAt(handler, scripts, log, cs, ss, i);
      DispatchesTakes(handler, scripts[i], i, log[i], cs[i], ss[i], ss[i + 1]);
    }
  }

  /** What the first rounds of a log make of a first moment: a trace, and the data freed. */
  ghost predicate Amounts(first: Moment, handler: Handler, log: seq<Round>, n: nat, m: Moment)
    requires n <= |log|
  {
    && TraceTo(first.flight, handler, log, n, m.flight)
    && m.freed == first.freed + FreedBy(handler, log, n) && m.pending == first.pending
  }

  lemma AmountsStep(first: Moment, handler: Handler, log: seq<Round>, n: nat, m: Moment, m': Moment)
    requires n < |log| && Amounts(first, handler, log, n, m) && Plain(first.flight)
    requires Takes(handler, n, log[n], m, m')
    ensures Amounts(first, handler, log, n + 1, m')
  {
    var r := log[n];
    TraceStep(first.flight, handler, log, n, m.flight);
    Assoc(first.freed, FreedBy(handler, log, n), FreedIn(handler, log, n));
    Assoc(m.freed, FreedAtOnce(r.came), FreedByDispatch(handler, n, r.event));
  }

  lemma {:induction false} TakesAmount(handler: Handler, log: seq<Round>, ms: seq<Moment>, n: nat)
    requires AllTake(handler, log, ms) && Plain(ms[0].flight) && n <= |log|
    ensures Amounts(ms[0], handler, log, n, ms[n])
  {
    NothingAmounts(ms[0], handler, log);
    for i := 0 to n
      invariant Amounts(ms[0], handler, log, i, ms[i])
    {
      AmountsAt(handler, log, ms, i);
    }
  }

  lemma NothingAmounts(first: Moment, handler: Handler, log: seq<Round>)
    ensures Amounts(first, handler, log, 0, first)
  {
  }

  lemma AmountsAt(handler: Handler, log: seq<Round>, ms: seq<Moment>, n: nat)
    requires AllTake(handler, log, ms) && Plain(ms[0].flight) && n < |log|
    requires Amounts(ms[0], handler, log, n, ms[n])
    ensures Amounts(ms[0], handler, log, n + 1, ms[n + 1])
  {
    assert TakesAt(handler, log, ms, n);
    AmountsStep(ms[0], handler, log, n, ms[n], ms[n + 1]);
  }

  /** Any run of rounds is a trace, and frees what its log says. */
  lemma RoundsTrace(
    handler: Handler, scripts: seq<seq<Tick>>, log: seq<Round>, cs: seq<Course>, ss: seq<Instant>)
    requires Rounds(handler, scripts, log, cs, ss) && Plain(ss[0].events.flight)
    ensures LoopTrace(ss[0].events.flight, handler, log, ss[|log|].events.flight)
    ensures ss[|log|].events.freed == ss[0].events.freed + FreedBy(handler, log, |log|)
    ensures ss[|log|].events.pending == ss[0].events.pending
  {
    RoundsTake(handler, scripts, log, cs, ss);
    TakesAmount(handler, log, Moments(ss), |log|);
  }

  /** A user event that the loop gets was let in by addEvent, so it is not a timer's. */
  lemma UserEventPlain(
    handler: Handler, scripts: seq<seq<Tick>>, log: seq<Round>, cs: seq<Course>, ss: seq<Instant>,
    script: seq<Tick>, e: Event, p: Passage, s': Instant)
    requires Rounds(handler, scripts, log, cs, ss) && Plain(ss[0].events.flight)
    requires Got(true, ss[|log|], script, -1.0, UserEvent, e, p, s')
    ensures !Bogus(e)
  {
    var m := ss[|log|].events;
    GotMeans(true, ss[|log|], script, -1.0, UserEvent, e, p, s');
    RoundsTrace(handler, scripts, log, cs, ss);
    LeftPlain(ss[0].events.flight, handler, log, |log|, m.flight, Came(script, p));
    PlainJoin([e], s'.events.flight);
    assert [e][0] in [e];
  }

  /** How loop ends after the rounds of a log: with a Quit, blocked at the end of a script, or when
      the scripts run out. */
  ghost predicate LoopEnds(
    scripts: seq<seq<Tick>>, n: nat, s: Instant, quit: Option<Event>, late: seq<Event>, p: Passage, s': Instant)
  {
    if n < |scripts| then
      && late == Came(scripts[n], p)
      && match quit
         case Some(e) => e.kind.Quit? && Got(true, s, scripts[n], -1.0, UserEvent, e, p, s')
         case None => Got(true, s, scripts[n], -1.0, StillWaiting, DEFAULT_EVENT, p, s')
    else quit == None && late == [] && s' == s
  }

  lemma LoopEndMeans(
    scripts: seq<seq<Tick>>, n: nat, s: Instant, quit: Option<Event>, late: seq<Event>, p: Passage, s': Instant)
    requires LoopEnds(scripts, n, s, quit, late, p, s')
    ensures s'.events.(flight := Last(quit) + s'.events.flight) == After(true, s.events, late)
    ensures late != [] ==> s.events.flight == []
    ensures quit == None && n < |scripts| ==> s'.events.flight == [] && late == Arrivals(scripts[n])
  {
    if n < |scripts| {
      var outcome := if quit.Some? then UserEvent else StillWaiting;
      var event := if quit.Some? then quit.value else DEFAULT_EVENT;
      GotMeans(true, s, scripts[n], -1.0, outcome, event, p, s');
      assert scripts[n][..|scripts[n]|] == scripts[n];
    } else {
      NothingAdded(true, s.events);
    }
  }

  // ---------------------------------------------------------------- what loop asks of its callers

  function ScriptFor(scripts: seq<seq<Tick>>, n: nat): seq<Tick> {
    if n < |scripts| then scripts[n] else []
  }

  /** A point the loop can reach from its first instant: rounds, then turns of the next call. */
  ghost predicate Reaches(
    handler: Handler, scripts: seq<seq<Tick>>, first: Instant,
    log: seq<Round>, cs: seq<Course>, ss: seq<Instant>, p: Passage)
  {
    && Rounds(handler, scripts, log, cs, ss) && ss[0] == first
    && Waited(true, p.ss, ScriptFor(scripts, |log|), p.waits, -1.0) && p.ss[0] == ss[|log|]
  }

  /** Never are more than 2^32 events in flight at a point the loop can reach. */
  ghost predicate HasRoom(handler: Handler, scripts: seq<seq<Tick>>, first: Instant) {
    forall log, cs, ss, p {:trigger Reaches(handler, scripts, first, log, cs, ss, p)} ::
      Reaches(handler, scripts, first, log, cs, ss, p) ==> |p.ss[|p.waits|].events.flight| <= ID_LIMIT
  }

  /** An event the loop can come to dispatch. */
  ghost predicate Obtains(
    handler: Handler, scripts: seq<seq<Tick>>, first: Instant,
    log: seq<Round>, cs: seq<Course>, ss: seq<Instant>, p: Passage, e: Event, s: Instant)
  {
    && Rounds(handler, scripts, log, cs, ss) && ss[0] == first && |log| < |scripts| && !e.kind.Quit?
    && Got(true, ss[|log|], scripts[|log|], -1.0, OutcomeFor(e), e, p, s)
  }

  /** Handlers create timers at free addresses and delete existing ones. */
  ghost predicate TimersUsed(handler: Handler, scripts: seq<seq<Tick>>, first: Instant) {
    forall log, cs, ss, p, e, s {:trigger Obtains(handler, scripts, first, log, cs, ss, p, e, s)} ::
      Obtains(handler, scripts, first, log, cs, ss, p, e, s) ==>
        CallsAllowed(s.clock.ids, handler.timers(|log|, e))
  }

  lemma RoomInCall(
    handler: Handler, scripts: seq<seq<Tick>>, log: seq<Round>, cs: seq<Course>, ss: seq<Instant>)
    requires Rounds(handler, scripts, log, cs, ss) && |log| < |scripts| && HasRoom(handler, scripts, ss[0])
    ensures RoomToWait(true, ss[|log|], scripts[|log|], -1.0)
  {
    forall turns: seq<Instant>, waits: seq<real> |
      Waited(true, turns, scripts[|log|], waits, -1.0) && turns[0] == ss[|log|]
      ensures |turns[|waits|].events.flight| <= ID_LIMIT
    {
      assert Reaches(handler, scripts, ss[0], log, cs, ss, Passage(turns, waits));
    }
  }

  lemma RoomBetween(
    handler: Handler, scripts: seq<seq<Tick>>, log: seq<Round>, cs: seq<Course>, ss: seq<Instant>)
    requires Rounds(handler, scripts, log, cs, ss) && HasRoom(handler, scripts, ss[0])
    ensures |ss[|log|].events.flight| <= ID_LIMIT
  {
    assert Reaches(handler, scripts, ss[0], log, cs, ss, Passage([ss[|log|]], []));
  }

  lemma RoomAtStart(handler: Handler, scripts: seq<seq<Tick>>, first: Instant)
    requires HasRoom(handler, scripts, first)
    ensures |first.events.flight| <= ID_LIMIT
  {
    RoomBetween(handler, scripts, [], [], [first]);
  }

  lemma RoomToDispatch(
    handler: Handler, scripts: seq<seq<Tick>>, log: seq<Round>, cs: seq<Course>, ss: seq<Instant>,
    r: Round, c: Course, s': Instant)
    requires Rounds(handler, scripts, log, cs, ss) && |log| < |scripts| && HasRoom(handler, scripts, ss[0])
    requires Dispatches(handler, scripts[|log|], |log|, r, c, ss[|log|], s')
    ensures |s'.events.flight| <= ID_LIMIT
  {
    RoundsStep(handler, scripts, log, cs, ss, r, c, s');
    RoomBetween(handler, scripts, log + [r], cs + [c], ss + [s']);
  }

  // ---------------------------------------------------------------- handlers that always have room

  ghost predicate OneForOne(handler: Handler) {
    forall n, e {:trigger handler.events(n, e)} :: |Queued(handler.events(n, e))| <= 1
  }

  lemma AtMostOne(handler: Handler, n: nat, e: Event)
    requires OneForOne(handler)
    ensures |Queued(handler.events(n, e))| <= 1
  {
  }

  lemma RoundSmall(handler: Handler, script: seq<Tick>, n: nat, r: Round, c: Course, s: Instant, s': Instant)
    requires Dispatches(handler, script, n, r, c, s, s') && OneForOne(handler) && FewPerWait(script)
    requires |s.events.flight| <= ID_LIMIT
    ensures |s'.events.flight| <= ID_LIMIT
  {
    FewPerWaitHasRoom(c.call.ss, script, c.call.waits, -1.0);
    AtMostOne(handler, n, r.event);
  }

  lemma RoundSmallAt(
    handler: Handler, scripts: seq<seq<Tick>>, log: seq<Round>, cs: seq<Course>, ss: seq<Instant>, n: nat)
    requires Rounds(handler, scripts, log, cs, ss) && OneForOne(handler) && n < |log|
    requires FewPerWait(scripts[n]) && |ss[n].events.flight| <= ID_LIMIT
    ensures |ss[n + 1].events.flight| <= ID_LIMIT
  {
    assert RoundAt(handler, scripts, log, cs, ss, n);
    RoundSmall(handler, scripts[n], n, log[n], cs[n], ss[n], ss[n + 1]);
  }

  lemma {:induction false} RoundsSmall(
    handler: Handler, scripts: seq<seq<Tick>>, log: seq<Round>, cs: seq<Course>, ss: seq<Instant>, n: nat)
    requires Rounds(handler, scripts, log, cs, ss) && OneForOne(handler) && n <= |log|
    requires forall i :: 0 <= i < |scripts| ==> FewPerWait(scripts[i])
    requires |ss[0].events.flight| <= ID_LIMIT
    ensures |ss[n].events.flight| <= ID_LIMIT
  {
    if n > 0 {
      RoundsSmall(handler, scripts, log, cs, ss, n - 1);
      RoundSmallAt(handler, scripts, log, cs, ss, n - 1);
    }
  }

  /** When no more than 2^32 events are in flight at the start or come in one wait, handlers that
      queue at most one event each leave room for ever. */
  lemma OneForOneHasRoom(handler: Handler, scripts: seq<seq<Tick>>, first: Instant)
    requires OneForOne(handler) && |first.events.flight| <= ID_LIMIT
    requires forall i :: 0 <= i < |scripts| ==> FewPerWait(scripts[i])
    ensures HasRoom(handler, scripts, first)
  {
    forall log, cs, ss, p | Reaches(handler, scripts, first, log, cs, ss, p)
      ensures |p.ss[|p.waits|].events.flight| <= ID_LIMIT
    {
      RoundsSmall(handler, scripts, log, cs, ss, |log|);
      FewPerWaitHasRoom(p.ss, ScriptFor(scripts, |log|), p.waits, -1.0);
    }
  }
}
