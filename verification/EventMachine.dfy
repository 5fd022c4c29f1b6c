/** Producers and the consumer of EventQueue as an interleaved state machine. Each label is one
    critical section; a producer is between its two while it holds m_mutex, the consumer pops
    an id under the buffer's lock and takes the event under m_mutex later. */
module EventMachine {
  import opened Options
  import opened EventStore

  // The consumer: between two looks at the buffer, blocked in a buffer's waitForEvent, past a
  // non-empty check, holding a popped id, or out again with an event that has yet to be
  // dispatched and freed. Buffers are numbered in the order they are adopted.
  datatype Consumer = Idle | Waiting(on: nat) | Seen | Holding(id: nat) | Handling(event: Event)

  datatype Machine = Machine(
    store: Store,
    buffer: Buffer,
    pending: seq<Event>,  // m_pending
    ready: bool,          // m_readyCondVar
    saving: Option<nat>,  // the id saved by the producer that holds m_mutex
    consumer: Consumer,
    adopted: nat)         // the number of the current buffer

  const INITIAL := Machine(EMPTY_STORE, EMPTY_BUFFER, [], false, None, Idle, 0)

  datatype Label =
    | Add(event: Event)   // addEvent up to and including saveEvent
    | Drain               // loop moves the first pending event up to and including saveEvent
    | Post                // the buffer accepts the saved id
    | Refuse              // the buffer refuses it: the event is removed and freed
    | MakeReady           // loop announces readiness
    | Wait                // processEvent starts to wait for the buffer
    | Wake                // the wait is over
    | Look                // processEvent finds the buffer non-empty
    | Pop                 // processEvent asks the buffer for an id
    | Take                // processEvent removes the event
    | Finish              // loop has dispatched the event and frees its data
    | Adopt               // adoptBuffer

  // addEvent goes on to store the event.
  predicate Stores(m: Machine, l: Label) {
    || l.Drain?
    || (l.Add? && !Bogus(l.event) && !DeliverImmediately(l.event) && m.ready)
  }

  // addEvent puts the event on the pending queue.
  predicate Defers(m: Machine, l: Label) {
    l.Add? && !Bogus(l.event) && !DeliverImmediately(l.event) && !m.ready
  }

  predicate Enabled(m: Machine, l: Label) {
    && (Stores(m, l) || l.Take? || l.Adopt? ==> m.saving.None?)
    && match l
       case Drain => m.ready && m.pending != []
       case Post => m.saving.Some?
       case Refuse => m.saving.Some?
       case Wait => m.consumer.Idle?
       case Wake => m.consumer.Waiting?
       case Look => m.consumer.Idle? && m.buffer.ready
       case Pop => m.consumer.Seen?
       case Take => m.consumer.Holding?
       case Finish => m.consumer.Handling?
       case _ => true
  }

  function StoreEvent(m: Machine, e: Event): Machine {
    m.(store := Saved(m.store, e), saving := Some(NewId(m.store)))
  }

  function Next(m: Machine, l: Label): Machine
    requires Enabled(m, l)
  {
    match l
    case Add(e) =>
      if Stores(m, l) then StoreEvent(m, e)
      else if Defers(m, l) then m.(pending := m.pending + [e])
      else m
    case Drain => StoreEvent(m, m.pending[0]).(pending := m.pending[1..])
    case Post => m.(buffer := Posted(m.buffer, m.saving.value), saving := None)
    case Refuse => m.(store := Removed(m.store, m.saving.value), saving := None)
    case MakeReady => m.(ready := true)
    case Wait => m.(consumer := Waiting(m.adopted))
    case Wake => m.(consumer := Idle)
    case Look => m.(consumer := Seen)
    case Pop =>
      // an empty buffer answers Unknown and processEvent starts over or gives up
      if m.buffer.ready && m.buffer.queue != []
      then m.(buffer := Popped(m.buffer), consumer := Holding(m.buffer.queue[0]))
      else m.(consumer := Idle)
    case Take =>
      var id := m.consumer.id;
      m.(store := Removed(m.store, id), consumer := Handling(Taken(m.store, id)))
    case Finish => m.(consumer := Idle)
    case Adopt => m.(store := EMPTY_STORE, buffer := EMPTY_BUFFER, adopted := m.adopted + 1)
  }

  /** What callers must respect: fewer than 2^32 events stored, and no adoptBuffer while the
      consumer waits for the buffer or is between finding it non-empty and removing the event. */
  predicate Guard(m: Machine, l: Label) {
    && (Stores(m, l) ==> |m.store.table| < ID_LIMIT)
    && (l.Adopt? ==> m.consumer.Idle? || m.consumer.Handling?)
  }

  // ---------------------------------------------------------------- invariant

  function Hand(m: Machine): seq<nat> {
    if m.consumer.Holding? then [m.consumer.id] else []
  }

  function Saving(m: Machine): seq<nat> {
    if m.saving.Some? then [m.saving.value] else []
  }

  /** The live ids in the order their events entered the table. */
  function Live(m: Machine): seq<nat> {
    Hand(m) + m.buffer.queue + Saving(m)
  }

  /** The ids in use are those of the stored events, each once; the buffer's flag tells whether
      it holds any, what the consumer saw is still there, and it waits for no buffer but the
      current one. */
  ghost predicate Inv(m: Machine) {
    && Allocated(m.store)
    && NoRepeats(Live(m))
    && (forall id: nat {:trigger Among(Live(m), id)} :: Among(Live(m), id) <==> id in m.store.table)
    && (m.buffer.ready <==> m.buffer.queue != [])
    && (m.consumer.Seen? ==> m.buffer.queue != [])
    && (m.consumer.Waiting? ==> m.consumer.on == m.adopted)
  }

  lemma StoreKeeps(m: Machine, e: Event)
    requires Inv(m) && m.saving.None? && |m.store.table| < ID_LIMIT
    ensures Inv(StoreEvent(m, e))
    ensures Live(StoreEvent(m, e)) == Live(m) + [NewId(m.store)]
  {
    SaveAllocates(m.store, e);
    assert Live(m) == Hand(m) + m.buffer.queue;
    assert Live(StoreEvent(m, e)) == Live(m) + [NewId(m.store)];
    WithLast(Live(m), NewId(m.store));
  }

  lemma PopKeeps(m: Machine)
    requires Inv(m) && m.consumer.Seen?
    ensures Next(m, Pop).consumer.Holding? && Live(Next(m, Pop)) == Live(m) && Inv(Next(m, Pop))
  {
    var m' := Next(m, Pop);
    assert m.buffer.queue == [m.buffer.queue[0]] + m.buffer.queue[1..];
    assert Live(m') == Live(m);
  }

  lemma PostKeeps(m: Machine)
    requires Inv(m) && m.saving.Some?
    ensures Live(Next(m, Post)) == Live(m) && Inv(Next(m, Post))
  {
    assert Live(Next(m, Post)) == Live(m);
  }

  lemma ShrinkKeeps(m: Machine, m': Machine, id: nat)
    requires Inv(m) && Among(Live(m), id) && m'.store == Removed(m.store, id) && m'.buffer == m.buffer
    requires m'.adopted == m.adopted && (m'.consumer == m.consumer || m'.consumer.Handling?)
    requires NoRepeats(Live(m')) && !Among(Live(m'), id)
    requires forall k {:trigger Among(Live(m), k)} :: Among(Live(m), k) <==> k == id || Among(Live(m'), k)
    ensures Inv(m')
  {
    RemoveAllocates(m.store, id);
    forall k: nat
      ensures Among(Live(m'), k) <==> k in m'.store.table
    {
      assert Among(Live(m), k) <==> k in m.store.table;
    }
  }

  lemma TakeShape(m: Machine)
    requires Enabled(m, Take)
    ensures Live(m) == [m.consumer.id] + m.buffer.queue && Among(Live(m), m.consumer.id)
    ensures Live(Next(m, Take)) == m.buffer.queue
  {
    assert Live(m)[0] == m.consumer.id;
  }

  lemma RefuseShape(m: Machine)
    requires Enabled(m, Refuse)
    ensures Live(m) == Hand(m) + m.buffer.queue + [m.saving.value] && Among(Live(m), m.saving.value)
    ensures Live(Next(m, Refuse)) == Hand(m) + m.buffer.queue
  {
    assert Live(m)[|Live(m)| - 1] == m.saving.value;
  }

  lemma TakeKeeps(m: Machine)
    requires Inv(m) && Enabled(m, Take)
    ensures m.consumer.id in m.store.table && Inv(Next(m, Take))
    ensures !Among(m.buffer.queue, m.consumer.id)
  {
    TakeShape(m);
    WithFirst(m.consumer.id, m.buffer.queue);
    ShrinkKeeps(m, Next(m, Take), m.consumer.id);
  }

  lemma RefuseKeeps(m: Machine)
    requires Inv(m) && Enabled(m, Refuse)
    ensures m.saving.value in m.store.table && Inv(Next(m, Refuse))
    ensures !Among(Live(Next(m, Refuse)), m.saving.value)
    ensures Live(Next(m, Refuse)) == Hand(m) + m.buffer.queue
  {
    RefuseShape(m);
    WithLast(Hand(m) + m.buffer.queue, m.saving.value);
    ShrinkKeeps(m, Next(m, Refuse), m.saving.value);
  }

  /** Every step a well-behaved caller can take keeps the invariant. */
  lemma StepKeeps(m: Machine, l: Label)
    requires Inv(m) && Enabled(m, l) && Guard(m, l)
    ensures Inv(Next(m, l))
  {
    match l
    case Add(e) =>
      if Stores(m, l) {
        StoreKeeps(m, e);
      } else {
        assert Live(Next(m, l)) == Live(m);
      }
    case Drain =>
      StoreKeeps(m, m.pending[0]);
      assert Live(Next(m, l)) == Live(StoreEvent(m, m.pending[0]));
    case Post => PostKeeps(m);
    case Refuse => RefuseKeeps(m);
    case Pop => PopKeeps(m);
    case Take => TakeKeeps(m);
    case Adopt =>
      assert Live(Next(m, l)) == [];
      assert Issued(EMPTY_STORE) == 0;
    case _ =>
      assert Live(Next(m, l)) == Live(m);
  }

  /** adoptBuffer is harmless exactly while the consumer is neither blocked in a wait, nor past
      the non-empty check, nor holding an id. */
  lemma AdoptKeepsIff(m: Machine)
    requires Inv(m) && Enabled(m, Adopt)
    ensures Inv(Next(m, Adopt)) <==> m.consumer.Idle? || m.consumer.Handling?
  {
    var m' := Next(m, Adopt);
    if m.consumer.Holding? {
      assert Live(m')[0] == m.consumer.id;
      assert Among(Live(m'), m.consumer.id);
    } else if m.consumer.Idle? || m.consumer.Handling? {
      StepKeeps(m, Adopt);
    }
  }

  // ---------------------------------------------------------------- runs

  ghost predicate Run(ms: seq<Machine>, ls: seq<Label>) {
    && |ms| == |ls| + 1 && ms[0] == INITIAL
    && forall i {:trigger ls[i]} :: 0 <= i < |ls| ==>
         Enabled(ms[i], ls[i]) && Guard(ms[i], ls[i]) && ms[i + 1] == Next(ms[i], ls[i])
  }

  lemma {:induction false} RunInv(ms: seq<Machine>, ls: seq<Label>, n: nat)
    requires Run(ms, ls) && n <= |ls|
    ensures Inv(ms[n])
  {
    if n == 0 {
      assert Live(INITIAL) == [];
    } else {
      RunInv(ms, ls, n - 1);
      StepKeeps(ms[n - 1], ls[n - 1]);
    }
  }

  lemma RunStep(ms: seq<Machine>, ls: seq<Label>, n: nat)
    requires Run(ms, ls) && n < |ls|
    ensures Inv(ms[n]) && Enabled(ms[n], ls[n]) && Guard(ms[n], ls[n]) && ms[n + 1] == Next(ms[n], ls[n])
  {
    RunInv(ms, ls, n);
  }

  // ---------------------------------------------------------------- events in flight

  /** The stored events with the given ids. */
  function EventsOf(t: map<nat, Event>, ids: seq<nat>): (es: seq<Event>)
    ensures |es| == |ids|
  {
    seq(|ids|, i requires 0 <= i < |ids| => if ids[i] in t then t[ids[i]] else DEFAULT_EVENT)
  }

  /** The events on their way from producers to the consumer, oldest first. */
  function InFlight(m: Machine): seq<Event> {
    EventsOf(m.store.table, Hand(m) + m.buffer.queue)
  }

  function BeingSaved(m: Machine): seq<Event> {
    EventsOf(m.store.table, Saving(m))
  }

  // Ids other than the one saved or removed keep their events.
  lemma EventsKept(t: map<nat, Event>, id: nat, e: Event, ids: seq<nat>)
    requires !Among(ids, id)
    ensures EventsOf(t[id := e], ids) == EventsOf(t, ids)
    ensures EventsOf(t - {id}, ids) == EventsOf(t, ids)
  {
  }

  lemma EventsJoin(t: map<nat, Event>, a: seq<nat>, b: seq<nat>)
    ensures EventsOf(t, a + b) == EventsOf(t, a) + EventsOf(t, b)
  {
  }

  lemma TakenFromFlight(m: Machine)
    requires Enabled(m, Take) && !Among(m.buffer.queue, m.consumer.id)
    ensures InFlight(m) == [Taken(m.store, m.consumer.id)] + InFlight(Next(m, Take))
    ensures BeingSaved(m) == BeingSaved(Next(m, Take))
  {
    var m', id := Next(m, Take), m.consumer.id;
    assert Hand(m') + m'.buffer.queue == m.buffer.queue;
    EventsJoin(m.store.table, [id], m.buffer.queue);
    EventsKept(m.store.table, id, DEFAULT_EVENT, m.buffer.queue);
    assert EventsOf(m.store.table, [id]) == [Taken(m.store, id)];
  }

  /** Every stored event is in hand, in the buffer or being saved, and nothing else is. */
  lemma StoredIsLive(m: Machine)
    requires Inv(m)
    ensures |m.store.table| == |Live(m)|
    ensures m.saving.None? ==> |m.store.table| == |InFlight(m)|
  {
    assert forall id: nat :: id in m.store.table <==> Among(Live(m), id);
    KeysCounted(m.store.table, Live(m));
  }

  lemma {:induction false} KeysCounted(t: map<nat, Event>, ids: seq<nat>)
    requires NoRepeats(ids) && forall id: nat :: id in t <==> Among(ids, id)
    ensures |t| == |ids|
  {
    if ids == [] {
      assert t.Keys == {};
    } else {
      var front, last := ids[..|ids| - 1], ids[|ids| - 1];
      assert ids == front + [last];
      WithLast(front, last);
      assert Among(ids, last);
      KeysCounted(t - {last}, front);
      assert t == (t - {last})[last := t[last]];
    }
  }
}
