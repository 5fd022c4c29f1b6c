/** The main loop's ledger, event by event: how often each was added, dispatched and freed, and how
    often it is still in flight. */
module LoopLedger {
  import opened Options
  import opened EventStore
  import opened QueueSpec
  import opened LoopSpec

  /** How often an event was added in the first n rounds, by other threads or by a handler. */
  ghost function AddedTimes(handler: Handler, log: seq<Round>, n: nat, who: Event): nat
    requires n <= |log|
  {
    if n == 0 then 0
    else
      AddedTimes(handler, log, n - 1, who)
      + Times(log[n - 1].came, who) + Times(handler.events(n - 1, log[n - 1].event), who)
  }

  function DispatchedTimes(log: seq<Round>, n: nat, who: Event): nat
    requires n <= |log|
  {
    if n == 0 then 0 else DispatchedTimes(log, n - 1, who) + if log[n - 1].event == who then 1 else 0
  }

  // What addEvent lets in: bit 0 of the flags asks for immediate delivery.
  predicate EntersQueue(e: Event) {
    !(e.kind.Unknown? || e.kind.System? || e.kind.Timer?) && e.flags % 2 == 0
  }

  /** The data of an event that is not of the queue's own types, and not marked by bit 1 as kept, is
      freed once for each time it was dispatched or added for immediate delivery; no other is. */
  function Freed(who: Event, dispatched: nat, added: nat): nat {
    if who.kind.Other? && who.flags / 2 % 2 == 0 then dispatched + if who.flags % 2 == 1 then added else 0 else 0
  }

  ghost predicate FreedFor(
    before: seq<Event>, freed: seq<Event>, handler: Handler, log: seq<Round>, late: seq<Event>, who: Event)
  {
    Times(freed, who)
    == Times(before, who)
       + Freed(who, DispatchedTimes(log, |log|, who), AddedTimes(handler, log, |log|, who) + Times(late, who))
  }

  /** Whatever was in flight or entered the queue is dispatched, the Quit that ends the loop, or still
      in flight. */
  ghost predicate AccountedFor(
    before: seq<Event>, flight: seq<Event>, handler: Handler, log: seq<Round>, late: seq<Event>,
    quit: Option<Event>, who: Event)
  {
    Times(before, who) + (if EntersQueue(who) then AddedTimes(handler, log, |log|, who) + Times(late, who) else 0)
    == (if who.kind.Timer? then 0 else DispatchedTimes(log, |log|, who))
       + (if quit == Some(who) then 1 else 0) + Times(flight, who)
  }

  // ---------------------------------------------------------------- counting

  lemma TimesJoin(a: seq<Event>, b: seq<Event>, who: Event)
    ensures Times(a + b, who) == Times(a, who) + Times(b, who)
  {
  }

  lemma {:induction false} QueuedTimes(es: seq<Event>, who: Event)
    ensures Times(Queued(es), who) == if EntersQueue(who) then Times(es, who) else 0
  {
    if es != [] {
      var front, last := es[..|es| - 1], es[|es| - 1];
      QueuedTimes(front, who);
      assert es == front + [last];
      TimesJoin(front, [last], who);
      TimesJoin(Queued(front), Queues(last), who);
    }
  }

  lemma {:induction false} FreedAtOnceTimes(es: seq<Event>, who: Event)
    ensures Times(FreedAtOnce(es), who) == Freed(who, 0, Times(es, who))
  {
    if es != [] {
      var front, last := es[..|es| - 1], es[|es| - 1];
      FreedAtOnceTimes(front, who);
      assert es == front + [last];
      TimesJoin(front, [last], who);
      TimesJoin(FreedAtOnce(front), FreesNow(last), who);
    }
  }

  lemma {:induction false} AddedByTimes(handler: Handler, log: seq<Round>, n: nat, who: Event)
    requires n <= |log|
    ensures Times(AddedBy(handler, log, n), who) == AddedTimes(handler, log, n, who)
  {
    if n > 0 {
      var came, more := log[n - 1].came, handler.events(n - 1, log[n - 1].event);
      AddedByTimes(handler, log, n - 1, who);
      TimesJoin(AddedBy(handler, log, n - 1), came + more, who);
      TimesJoin(came, more, who);
    }
  }

  lemma {:induction false} UserTimes(log: seq<Round>, n: nat, who: Event)
    requires n <= |log|
    ensures Times(UserEvents(log, n), who) == if who.kind.Timer? then 0 else DispatchedTimes(log, n, who)
  {
    for i := 0 to n
      invariant Times(UserEvents(log, i), who) == if who.kind.Timer? then 0 else DispatchedTimes(log, i, who)
    {
      OneMoreUser(UserEvents(log, i), log[i].event, who);
    }
  }

  lemma OneMoreUser(users: seq<Event>, e: Event, who: Event)
    ensures Times(users + IfUser(e), who) == Times(users, who) + if e == who && !who.kind.Timer? then 1 else 0
  {
    TimesJoin(users, IfUser(e), who);
  }

  lemma AddedInTimes(handler: Handler, log: seq<Round>, n: nat, who: Event)
    requires n < |log|
    ensures AddedTimes(handler, log, n + 1, who)
         == AddedTimes(handler, log, n, who) + Times(AddedIn(handler, log, n), who)
  {
    TimesJoin(log[n].came, handler.events(n, log[n].event), who);
  }

  /** What a dispatch frees: what the handler added for immediate delivery, and the event itself. */
  lemma DispatchFrees(handler: Handler, n: nat, e: Event, who: Event)
    ensures Times(FreedByDispatch(handler, n, e), who)
         == Freed(who, if e == who then 1 else 0, Times(handler.events(n, e), who))
  {
    FreedAtOnceTimes(handler.events(n, e), who);
    TimesJoin(FreedAtOnce(handler.events(n, e)), if FreesData(e) then [e] else [], who);
  }

  lemma RoundFrees(handler: Handler, log: seq<Round>, n: nat, who: Event)
    requires n < |log|
    ensures Times(FreedIn(handler, log, n), who)
         == Freed(who, if log[n].event == who then 1 else 0, Times(AddedIn(handler, log, n), who))
  {
    var r := log[n];
    FreedAtOnceTimes(r.came, who);
    DispatchFrees(handler, n, r.event, who);
    TimesJoin(FreedAtOnce(r.came), FreedByDispatch(handler, n, r.event), who);
    TimesJoin(r.came, handler.events(n, r.event), who);
  }

  lemma FreedSum(who: Event, d: nat, a: nat, e: nat, b: nat)
    ensures Freed(who, d, a) + Freed(who, e, b) == Freed(who, d + e, a + b)
  {
  }

  ghost predicate FreedUpTo(handler: Handler, log: seq<Round>, n: nat, who: Event, times: nat)
    requires n <= |log|
  {
    times == Freed(who, DispatchedTimes(log, n, who), AddedTimes(handler, log, n, who))
  }

  lemma {:induction false} FreedByTimes(handler: Handler, log: seq<Round>, n: nat, who: Event)
    requires n <= |log|
    ensures FreedUpTo(handler, log, n, who, Times(FreedBy(handler, log, n), who))
  {
    var freed := FreedBy(handler, log, 0);
    for i := 0 to n
      invariant freed == FreedBy(handler, log, i) && FreedUpTo(handler, log, i, who, Times(freed, who))
    {
      TimesJoin(freed, FreedIn(handler, log, i), who);
      RoundFrees(handler, log, i, who);
      FreedNext(handler, log, i, who, Times(freed, who), Times(FreedIn(handler, log, i), who));
      freed := freed + FreedIn(handler, log, i);
    }
  }

  lemma FreedNext(handler: Handler, log: seq<Round>, n: nat, who: Event, times: nat, more: nat)
    requires n < |log| && FreedUpTo(handler, log, n, who, times)
    requires more == Freed(who, if log[n].event == who then 1 else 0, Times(AddedIn(handler, log, n), who))
    ensures FreedUpTo(handler, log, n + 1, who, times + more)
  {
    AddedInTimes(handler, log, n, who);
    FreedSum(
      who, DispatchedTimes(log, n, who), AddedTimes(handler, log, n, who),
      if log[n].event == who then 1 else 0, Times(AddedIn(handler, log, n), who));
  }

  // ---------------------------------------------------------------- the ledger

  ghost predicate AllFreed(
    before: seq<Event>, freed: seq<Event>, handler: Handler, log: seq<Round>, late: seq<Event>)
  {
    forall who :: FreedFor(before, freed, handler, log, late, who)
  }

  ghost predicate AllAccounted(
    before: seq<Event>, flight: seq<Event>, handler: Handler, log: seq<Round>, late: seq<Event>, quit: Option<Event>)
  {
    forall who :: AccountedFor(before, flight, handler, log, late, quit, who)
  }

  /** What the rounds of a log and the arrivals of the last wait free, event by event. */
  lemma LoopFrees(before: seq<Event>, freed: seq<Event>, handler: Handler, log: seq<Round>, late: seq<Event>)
    requires freed == before + FreedBy(handler, log, |log|) + FreedAtOnce(late)
    ensures AllFreed(before, freed, handler, log, late)
  {
    forall who
      ensures FreedFor(before, freed, handler, log, late, who)
    {
      TimesJoin(before + FreedBy(handler, log, |log|), FreedAtOnce(late), who);
      TimesJoin(before, FreedBy(handler, log, |log|), who);
      FreedByTimes(handler, log, |log|, who);
      FreedAtOnceTimes(late, who);
      FreedSum(
        who, DispatchedTimes(log, |log|, who), AddedTimes(handler, log, |log|, who), 0, Times(late, who));
    }
  }

  /** Nothing is lost and nothing dispatched twice. */
  lemma LoopAccounts(
    before: seq<Event>, left: seq<Event>, flight: seq<Event>, handler: Handler, log: seq<Round>, late: seq<Event>,
    quit: Option<Event>)
    requires LoopTrace(before, handler, log, left) && left + Queued(late) == Last(quit) + flight
    ensures AllAccounted(before, flight, handler, log, late, quit)
  {
    var added, users := AddedBy(handler, log, |log|), UserEvents(log, |log|);
    forall who
      ensures AccountedFor(before, flight, handler, log, late, quit, who)
    {
      TimesJoin(before, Queued(added), who);
      TimesJoin(users, left, who);
      TimesJoin(left, Queued(late), who);
      TimesJoin(Last(quit), flight, who);
      QueuedTimes(added, who);
      QueuedTimes(late, who);
      AddedByTimes(handler, log, |log|, who);
      UserTimes(log, |log|, who);
    }
  }

  /** How a whole run of the loop ends: a trace, what is left in flight and pending, and the ledger. */
  lemma LoopDone(
    handler: Handler, scripts: seq<seq<Tick>>, log: seq<Round>, cs: seq<Course>, ss: seq<Instant>,
    quit: Option<Event>, late: seq<Event>, p: Passage, s': Instant)
    requires Rounds(handler, scripts, log, cs, ss) && Plain(ss[0].events.flight)
    requires LoopEnds(scripts, |log|, ss[|log|], quit, late, p, s')
    ensures var first, left, m := ss[0].events, ss[|log|].events.flight, s'.events;
      && LoopTrace(first.flight, handler, log, left)
      && left + Queued(late) == Last(quit) + m.flight && m.pending == first.pending
      && (quit.Some? || |log| == |scripts| || m.flight == [])
      && m.freed == first.freed + FreedBy(handler, log, |log|) + FreedAtOnce(late)
      && AllFreed(first.freed, m.freed, handler, log, late)
      && AllAccounted(first.flight, m.flight, handler, log, late, quit)
  {
    var first, left, m := ss[0].events, ss[|log|].events.flight, s'.events;
    RoundsTrace(handler, scripts, log, cs, ss);
    LoopEndMeans(scripts, |log|, ss[|log|], quit, late, p, s');
    LoopFrees(first.freed, m.freed, handler, log, late);
    LoopAccounts(first.flight, left, m.flight, handler, log, late, quit);
  }
}
