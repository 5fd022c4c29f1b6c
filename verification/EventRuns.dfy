/** What the event queue promises over whole interleaved runs: no empty answer from the buffer,
    ids not reissued while held, and event data freed exactly once. */
module EventRuns {
  import opened Options
  import opened EventStore
  import opened EventMachine
  import opened EventHistory

  // ---------------------------------------------------------------- the consumer's view

  /** With one consumer the buffer never answers Unknown after isEmpty said false, and the
      event taken is always the one whose id was popped: the oldest posted and undelivered. */
  lemma ConsumerGetsOldest(ms: seq<Machine>, ls: seq<Label>, n: nat)
    requires Run(ms, ls) && n < |ls|
    ensures ls[n].Pop? ==> ms[n].buffer.ready && ms[n + 1].consumer.Holding?
    ensures ls[n].Take? ==>
      var h := HistoryOf(ms, ls, n);
      |h.delivered| < |h.posted| && ms[n + 1].consumer == Handling(h.posted[|h.delivered|])
  {
    FifoRefined(ms, ls, n);
    assert ms[n + 1] == Next(ms[n], ls[n]);
    if ls[n].Take? {
      TakeKeeps(ms[n]);
      TakenFromFlight(ms[n]);
    }
  }

  /** A popped id whose event has not been taken is never handed out again. */
  lemma HeldIdNotReissued(ms: seq<Machine>, ls: seq<Label>, n: nat)
    requires Run(ms, ls) && n < |ls| && Stores(ms[n], ls[n])
    ensures ms[n].consumer.Holding? ==> NewId(ms[n].store) != ms[n].consumer.id
    ensures NewId(ms[n].store) !in ms[n].store.table
  {
    RunInv(ms, ls, n);
    SaveAllocates(ms[n].store, DEFAULT_EVENT);
    if ms[n].consumer.Holding? {
      assert Live(ms[n])[0] == ms[n].consumer.id;
      assert Among(Live(ms[n]), ms[n].consumer.id);
    }
  }

  /** Were the buffer adopted while the consumer holds an id, it would get a default event in
      place of the one it popped. */
  lemma AdoptLosesInHand(m: Machine)
    requires Inv(m) && m.consumer.Holding? && m.saving.None?
    ensures Enabled(m, Adopt) && Enabled(Next(m, Adopt), Take)
    ensures Next(Next(m, Adopt), Take).consumer == Handling(DEFAULT_EVENT)
    ensures m.consumer.id in m.store.table
  {
    assert Live(m)[0] == m.consumer.id;
    assert Among(Live(m), m.consumer.id);
  }

  // ---------------------------------------------------------------- ownership

  function One(b: bool): nat {
    if b then 1 else 0
  }

  /** Whether a step takes ownership of `who`: addEvent of any type it does not discard. */
  function Accepts(l: Label, who: Event): nat {
    One(l == Add(who) && !Bogus(who))
  }

  /** How often a step frees the data of `who`: after immediate delivery, when the buffer
      refuses it, after loop has dispatched it, and when adoptBuffer discards the table. */
  ghost function Frees(m: Machine, l: Label, who: Event): nat
    requires Enabled(m, l)
  {
    if !FreesData(who) then 0
    else
      match l
      case Add(e) => One(e == who && DeliverImmediately(e))
      case Refuse => One(Taken(m.store, m.saving.value) == who)
      case Finish => One(m.consumer.event == who)
      case Adopt => Copies(m.store.table, who)
      case _ => 0
  }

  /** The copies of `who` the queue owns: pending, in the table, or being dispatched. */
  ghost function Held(m: Machine, who: Event): nat {
    multiset(m.pending)[who] + Copies(m.store.table, who) + One(m.consumer == Handling(who))
  }

  ghost function TotalAccepted(ls: seq<Label>, who: Event, n: nat): nat
    requires n <= |ls|
  {
    if n == 0 then 0 else TotalAccepted(ls, who, n - 1) + Accepts(ls[n - 1], who)
  }

  ghost function TotalFreed(ms: seq<Machine>, ls: seq<Label>, who: Event, n: nat): nat
    requires Run(ms, ls) && n <= |ls|
  {
    if n == 0 then 0 else TotalFreed(ms, ls, who, n - 1) + Frees(ms[n - 1], ls[n - 1], who)
  }

  lemma StoreHolds(m: Machine, e: Event, who: Event)
    requires Inv(m) && |m.store.table| < ID_LIMIT
    ensures Copies(StoreEvent(m, e).store.table, who) == Copies(m.store.table, who) + One(e == who)
  {
    SaveAllocates(m.store, e);
    CopiesWith(m.store.table, NewId(m.store), e, who);
  }

  lemma DrainConserves(m: Machine, who: Event)
    requires Inv(m) && Enabled(m, Drain) && Guard(m, Drain)
    ensures Held(Next(m, Drain), who) == Held(m, who)
  {
    assert m.pending == [m.pending[0]] + m.pending[1..];
    StoreHolds(m, m.pending[0], who);
  }

  lemma RefuseConserves(m: Machine, who: Event)
    requires Inv(m) && Enabled(m, Refuse)
    ensures Held(Next(m, Refuse), who) + One(Taken(m.store, m.saving.value) == who) == Held(m, who)
  {
    RefuseKeeps(m);
    CopiesWithout(m.store.table, m.saving.value, who);
  }

  lemma TakeConserves(m: Machine, who: Event)
    requires Inv(m) && Enabled(m, Take)
    ensures Held(Next(m, Take), who) == Held(m, who)
  {
    TakeKeeps(m);
    CopiesWithout(m.store.table, m.consumer.id, who);
  }

  lemma AddConserves(m: Machine, e: Event, who: Event)
    requires Inv(m) && Enabled(m, Add(e)) && Guard(m, Add(e)) && FreesData(who)
    ensures Held(Next(m, Add(e)), who) + Frees(m, Add(e), who) == Held(m, who) + Accepts(Add(e), who)
  {
    if Stores(m, Add(e)) {
      StoreHolds(m, e, who);
    }
  }

  lemma StepConserves(m: Machine, l: Label, who: Event)
    requires Inv(m) && Enabled(m, l) && Guard(m, l) && FreesData(who)
    ensures Held(Next(m, l), who) + Frees(m, l, who) == Held(m, who) + Accepts(l, who)
  {
    match l
    case Add(e) => AddConserves(m, e, who);
    case Drain => DrainConserves(m, who);
    case Refuse => RefuseConserves(m, who);
    case Take => TakeConserves(m, who);
    case Adopt =>
      assert Holders(EMPTY_STORE.table, who) == {};
    case _ =>
  }

  lemma StepCounted(ms: seq<Machine>, ls: seq<Label>, who: Event, n: nat)
    requires Run(ms, ls) && n < |ls| && FreesData(who)
    ensures Enabled(ms[n], ls[n])
    ensures Held(ms[n + 1], who) + Frees(ms[n], ls[n], who) == Held(ms[n], who) + Accepts(ls[n], who)
  {
    RunInv(ms, ls, n);
    StepConserves(ms[n], ls[n], who);
  }

  /** Ownership ledger: over every run, each accepted event with freeable data is held once,
      pending, in the table or in the consumer's hand, or its data has been freed once. */
  lemma {:induction false} FreedExactlyOnce(ms: seq<Machine>, ls: seq<Label>, who: Event, n: nat)
    requires Run(ms, ls) && n <= |ls|
    requires who.kind.Other? && who.flags / 2 % 2 == 0
    ensures TotalAccepted(ls, who, n) == Held(ms[n], who) + TotalFreed(ms, ls, who, n)
  {
    if n == 0 {
      assert Holders(INITIAL.store.table, who) == {};
    } else {
      FreedExactlyOnce(ms, ls, who, n - 1);
      StepCounted(ms, ls, who, n - 1);
    }
  }

  /** The data of the queue's own types, and of events that flag bit 1 marks as kept, is never
      freed. */
  lemma {:induction false} OthersNeverFreed(ms: seq<Machine>, ls: seq<Label>, who: Event, n: nat)
    requires Run(ms, ls) && n <= |ls|
    requires !who.kind.Other? || who.flags / 2 % 2 == 1
    ensures TotalFreed(ms, ls, who, n) == 0
  {
    if n > 0 {
      OthersNeverFreed(ms, ls, who, n - 1);
    }
  }
}
