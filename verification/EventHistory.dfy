/** What a run of the event machine has done, from its labels alone, and how the machine's state
    reflects it: the refinement of one FIFO. */
module EventHistory {
  import opened EventStore
  import opened EventMachine
  import opened Sequences

  // Events are told apart by their position in `added`, so equal events are no trouble.
  datatype History = History(
    added: seq<Event>,          // those accepted for queueing, in the order of the addEvent calls
    waiting: seq<nat>,          // the positions of those pending
    entered: seq<nat>,          // the positions of those stored and not lost, in the order of storing
    lost: set<nat>,             // the positions of those refused by a buffer or discarded with one
    overtook: set<(nat, nat)>,  // the first was stored while the second was pending
    posted: seq<Event>,         // those posted to a buffer and not discarded
    delivered: seq<Event>,      // those handed to the consumer
    peak: nat)                  // the most events stored at once in the current buffer's time

  const NO_HISTORY := History([], [], [], {}, {}, [], [], 0)

  function Max(a: nat, b: nat): nat {
    if a < b then b else a
  }

  function Entered(h: History, m: Machine, e: Event, ks: seq<nat>): History {
    h.(entered := h.entered + ks, peak := Max(h.peak, |Saved(m.store, e).table|))
  }

  // All but the first few of the stored events are lost.
  function Discarded(h: History, keep: nat): History {
    if keep > |h.entered| then h
    else h.(entered := h.entered[..keep], lost := h.lost + set k | k in h.entered[keep..])
  }

  ghost function Pairs(n: nat, ks: seq<nat>): (pairs: set<(nat, nat)>)
    ensures forall x, y {:trigger (x, y) in pairs} :: (x, y) in pairs <==> x == n && y in ks
  {
    set k | k in ks :: (n, k)
  }

  ghost function Recorded(h: History, m: Machine, l: Label): History
    requires Enabled(m, l)
  {
    match l
    case Add(e) =>
      var n := |h.added|;
      if Stores(m, l) then
        Entered(h, m, e, [n]).(added := h.added + [e], overtook := h.overtook + Pairs(n, h.waiting))
      else if Defers(m, l) then h.(added := h.added + [e], waiting := h.waiting + [n])
      else h
    case Drain =>
      if h.waiting == [] then h
      else Entered(h, m, m.pending[0], h.waiting[..1]).(waiting := h.waiting[1..])
    case Post => h.(posted := h.posted + [Taken(m.store, m.saving.value)])
    case Refuse => Discarded(h, |h.posted|)
    case Take => h.(delivered := h.delivered + [Taken(m.store, m.consumer.id)])
    case Adopt => Discarded(h, |h.delivered|).(posted := h.delivered, peak := 0)
    case _ => h
  }

  ghost function HistoryOf(ms: seq<Machine>, ls: seq<Label>, n: nat): History
    requires Run(ms, ls) && n <= |ls|
  {
    if n == 0 then NO_HISTORY else Recorded(HistoryOf(ms, ls, n - 1), ms[n - 1], ls[n - 1])
  }

  /** The events at the given positions. */
  function Picked(es: seq<Event>, ks: seq<nat>): (picked: seq<Event>)
    ensures |picked| == |ks|
  {
    seq(|ks|, i requires 0 <= i < |ks| => if ks[i] < |es| then es[ks[i]] else DEFAULT_EVENT)
  }

  ghost predicate Below(ks: seq<nat>, n: nat) {
    forall i :: 0 <= i < |ks| ==> ks[i] < n
  }

  ghost predicate Traced(m: Machine, h: History) {
    && h.posted == h.delivered + InFlight(m)
    && h.peak == Issued(m.store)
    && Picked(h.added, h.entered) == h.posted + BeingSaved(m)
    && Picked(h.added, h.waiting) == m.pending
    && Below(h.entered, |h.added|) && Below(h.waiting, |h.added|)
  }

  lemma PickedJoin(es: seq<Event>, a: seq<nat>, b: seq<nat>)
    ensures Picked(es, a + b) == Picked(es, a) + Picked(es, b)
  {
  }

  lemma PickedGrown(es: seq<Event>, e: Event, ks: seq<nat>)
    requires Below(ks, |es|)
    ensures Picked(es + [e], ks) == Picked(es, ks) && Picked(es + [e], [|es|]) == [e]
  {
  }

  lemma StoreTraced(m: Machine, e: Event)
    requires Inv(m) && m.saving.None? && |m.store.table| < ID_LIMIT
    ensures InFlight(StoreEvent(m, e)) == InFlight(m)
    ensures BeingSaved(m) == [] && BeingSaved(StoreEvent(m, e)) == [e]
    ensures Issued(Saved(m.store, e)) == Max(Issued(m.store), |Saved(m.store, e).table|)
  {
    var id := NewId(m.store);
    SaveAllocates(m.store, e);
    assert Live(m) == Hand(m) + m.buffer.queue;
    assert !Among(Live(m), id);
    EventsKept(m.store.table, id, e, Live(m));
  }

  lemma AddTraced(m: Machine, e: Event, h: History)
    requires Inv(m) && Enabled(m, Add(e)) && Guard(m, Add(e)) && Traced(m, h)
    ensures Traced(Next(m, Add(e)), Recorded(h, m, Add(e)))
  {
    var n := |h.added|;
    PickedGrown(h.added, e, h.entered);
    PickedGrown(h.added, e, h.waiting);
    PickedJoin(h.added + [e], h.entered, [n]);
    PickedJoin(h.added + [e], h.waiting, [n]);
    if Stores(m, Add(e)) {
      StoreTraced(m, e);
    }
  }

  lemma DrainTraced(m: Machine, h: History)
    requires Inv(m) && Enabled(m, Drain) && Guard(m, Drain) && Traced(m, h)
    ensures Traced(Next(m, Drain), Recorded(h, m, Drain))
  {
    StoreTraced(m, m.pending[0]);
    assert h.waiting == h.waiting[..1] + h.waiting[1..];
    PickedJoin(h.added, h.waiting[..1], h.waiting[1..]);
    PickedJoin(h.added, h.entered, h.waiting[..1]);
  }

  lemma PostTraced(m: Machine, h: History)
    requires Enabled(m, Post) && Traced(m, h)
    ensures Traced(Next(m, Post), Recorded(h, m, Post))
  {
    var m', ids := Next(m, Post), Hand(m) + m.buffer.queue;
    assert Hand(m') + m'.buffer.queue == ids + Saving(m);
    EventsJoin(m.store.table, ids, Saving(m));
    assert BeingSaved(m) == [Taken(m.store, m.saving.value)] && BeingSaved(m') == [];
    Assoc(h.delivered, InFlight(m), BeingSaved(m));
  }

  // Taking the last of the stored events out of the history.
  lemma DiscardedTraced(h: History, keep: nat)
    requires keep <= |h.entered|
    ensures Picked(h.added, Discarded(h, keep).entered) == Picked(h.added, h.entered)[..keep]
  {
    assert h.entered == h.entered[..keep] + h.entered[keep..];
    PickedJoin(h.added, h.entered[..keep], h.entered[keep..]);
  }

  lemma RefuseTraced(m: Machine, h: History)
    requires Inv(m) && Enabled(m, Refuse) && Traced(m, h)
    ensures Traced(Next(m, Refuse), Recorded(h, m, Refuse))
  {
    RefuseKeeps(m);
    RemoveAllocates(m.store, m.saving.value);
    EventsKept(m.store.table, m.saving.value, DEFAULT_EVENT, Hand(m) + m.buffer.queue);
    DiscardedTraced(h, |h.posted|);
    assert BeingSaved(Next(m, Refuse)) == [];
  }

  lemma TakeTraced(m: Machine, h: History)
    requires Inv(m) && Enabled(m, Take) && Traced(m, h)
    ensures Traced(Next(m, Take), Recorded(h, m, Take))
  {
    var m', id, e := Next(m, Take), m.consumer.id, Taken(m.store, m.consumer.id);
    TakeKeeps(m);
    RemoveAllocates(m.store, id);
    TakenFromFlight(m);
    Assoc(h.delivered, [e], InFlight(m'));
  }

  lemma AdoptTraced(m: Machine, h: History)
    requires Inv(m) && Enabled(m, Adopt) && Guard(m, Adopt) && Traced(m, h)
    ensures Traced(Next(m, Adopt), Recorded(h, m, Adopt))
  {
    var m' := Next(m, Adopt);
    assert InFlight(m') == [] && BeingSaved(m') == [];
    DiscardedTraced(h, |h.delivered|);
    assert (h.posted + BeingSaved(m))[..|h.delivered|] == h.delivered;
  }

  lemma StepTraced(m: Machine, l: Label, h: History)
    requires Inv(m) && Enabled(m, l) && Guard(m, l) && Traced(m, h)
    ensures Traced(Next(m, l), Recorded(h, m, l))
  {
    match l
    case Add(e) => AddTraced(m, e, h);
    case Drain => DrainTraced(m, h);
    case Post => PostTraced(m, h);
    case Refuse => RefuseTraced(m, h);
    case Pop =>
      PopKeeps(m);
      assert Hand(Next(m, Pop)) + Next(m, Pop).buffer.queue == Hand(m) + m.buffer.queue;
    case Take => TakeTraced(m, h);
    case Adopt => AdoptTraced(m, h);
    case _ =>
      assert Hand(Next(m, l)) == Hand(m);
  }

  lemma HistoryStep(ms: seq<Machine>, ls: seq<Label>, n: nat)
    requires Run(ms, ls) && n < |ls|
    ensures Enabled(ms[n], ls[n])
    ensures HistoryOf(ms, ls, n + 1) == Recorded(HistoryOf(ms, ls, n), ms[n], ls[n])
  {
  }

  lemma {:induction false} RunTraced(ms: seq<Machine>, ls: seq<Label>, n: nat)
    requires Run(ms, ls) && n <= |ls|
    ensures Traced(ms[n], HistoryOf(ms, ls, n))
  {
    if n == 0 {
      assert InFlight(INITIAL) == [] && BeingSaved(INITIAL) == [];
    } else {
      RunTraced(ms, ls, n - 1);
      RunStep(ms, ls, n - 1);
      HistoryStep(ms, ls, n - 1);
      StepTraced(ms[n - 1], ls[n - 1], HistoryOf(ms, ls, n - 1));
    }
  }

  /** Refinement of one FIFO: in every run, with any number of producers interleaved with the
      consumer's two steps, the events posted and not discarded are those delivered followed by
      those in flight, in order, so none is lost, duplicated, reordered or invented. The ids
      ever issued are exactly 0..n-1, each live or free, for n the most events stored at once. */
  lemma FifoRefined(ms: seq<Machine>, ls: seq<Label>, n: nat)
    requires Run(ms, ls) && n <= |ls|
    ensures HistoryOf(ms, ls, n).posted == HistoryOf(ms, ls, n).delivered + InFlight(ms[n])
    ensures Inv(ms[n]) && Issued(ms[n].store) == HistoryOf(ms, ls, n).peak
  {
    RunInv(ms, ls, n);
    RunTraced(ms, ls, n);
  }
}
