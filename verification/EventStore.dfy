/** Events, the table that stores them under recycled ids, and the buffer that queues the ids. */
module EventStore {

  // EventTypes: the four types the queue itself treats specially, and all others.
  datatype EventType = Unknown | Quit | System | Timer | Other(code: nat)

  // `data` and `dataObject` are the owned pointers, 0 for nullptr.
  datatype Event = Event(kind: EventType, target: nat, data: nat, dataObject: nat, flags: nat)

  const DEFAULT_EVENT := Event(Unknown, 0, 0, 0, 0)

  // EventFlags::DeliverImmediately is bit 0, EventFlags::DontFreeData is bit 1.
  predicate DeliverImmediately(e: Event) {
    e.flags % 2 == 1
  }

  predicate DontFreeData(e: Event) {
    e.flags / 2 % 2 == 1
  }

  /** Whether Event::deleteData frees the event's data. */
  predicate FreesData(e: Event) {
    e.kind.Other? && !DontFreeData(e)
  }

  /** The types that addEvent discards. */
  predicate Bogus(e: Event) {
    e.kind.Unknown? || e.kind.System? || e.kind.Timer?
  }

  // ---------------------------------------------------------------- table and free list

  // Ids are 32-bit.
  const ID_LIMIT: nat := 0x1_0000_0000

  // m_events and m_oldEventIDs; the free list is a stack with its top last.
  datatype Store = Store(table: map<nat, Event>, free: seq<nat>)

  const EMPTY_STORE := Store(map[], [])

  /** The id saveEvent chooses: the last one freed, or else the table size cast to 32 bits. */
  function NewId(s: Store): (id: nat) {
    if s.free != [] then s.free[|s.free| - 1] else |s.table| % ID_LIMIT
  }

  function Saved(s: Store, e: Event): Store {
    Store(s.table[NewId(s) := e], if s.free != [] then s.free[..|s.free| - 1] else [])
  }

  /** removeEvent: an unknown id changes nothing and yields a default event. */
  function Removed(s: Store, id: nat): Store {
    if id in s.table then Store(s.table - {id}, s.free + [id]) else s
  }

  function Taken(s: Store, id: nat): Event {
    if id in s.table then s.table[id] else DEFAULT_EVENT
  }

  ghost predicate NoRepeats(q: seq<nat>) {
    forall i, j {:trigger Nth(q, i), Nth(q, j)} :: 0 <= i < j < |q| ==> Nth(q, i) != Nth(q, j)
  }

  function Nth(q: seq<nat>, i: int): nat
    requires 0 <= i < |q|
  {
    q[i]
  }

  predicate Among(q: seq<nat>, id: nat) {
    id in q
  }

  lemma WithLast(q: seq<nat>, id: nat)
    ensures NoRepeats(q + [id]) <==> NoRepeats(q) && !Among(q, id)
    ensures forall k {:trigger Among(q + [id], k)} :: Among(q + [id], k) <==> k == id || Among(q, k)
  {
    var r := q + [id];
    forall k
      ensures Among(r, k) <==> k == id || Among(q, k)
    {
      assert r[|q|] == id;
    }
    if NoRepeats(r) {
      forall i, j | 0 <= i < j < |q|
        ensures Nth(q, i) != Nth(q, j)
      {
        assert Nth(r, i) != Nth(r, j);
      }
      forall i | 0 <= i < |q|
        ensures q[i] != id
      {
        assert Nth(r, i) != Nth(r, |q|);
      }
    }
    if NoRepeats(q) && !Among(q, id) {
      forall i, j | 0 <= i < j < |r|
        ensures Nth(r, i) != Nth(r, j)
      {
        assert q[i] == r[i];
        if j < |q| {
          assert Nth(q, i) != Nth(q, j);
        }
      }
    }
  }

  lemma WithFirst(id: nat, q: seq<nat>)
    ensures NoRepeats([id] + q) <==> NoRepeats(q) && !Among(q, id)
    ensures forall k {:trigger Among([id] + q, k)} :: Among([id] + q, k) <==> k == id || Among(q, k)
  {
    var r := [id] + q;
    forall k
      ensures Among(r, k) <==> k == id || Among(q, k)
    {
      assert r[0] == id;
      assert forall i :: 0 <= i < |q| ==> r[i + 1] == q[i];
    }
    if NoRepeats(r) {
      forall i, j | 0 <= i < j < |q|
        ensures Nth(q, i) != Nth(q, j)
      {
        assert Nth(r, i + 1) != Nth(r, j + 1);
      }
      forall i | 0 <= i < |q|
        ensures q[i] != id
      {
        assert Nth(r, 0) != Nth(r, i + 1);
      }
    }
    if NoRepeats(q) && !Among(q, id) {
      forall i, j | 0 <= i < j < |r|
        ensures Nth(r, i) != Nth(r, j)
      {
        assert q[j - 1] == r[j];
        if i > 0 {
          assert Nth(q, i - 1) != Nth(q, j - 1);
        }
      }
    }
  }

  // The number of ids ever handed out since the store was last cleared.
  function Issued(s: Store): nat {
    |s.table| + |s.free|
  }

  predicate Given(s: Store, id: nat) {
    id in s.table || Among(s.free, id)
  }

  /** Live ids and free ids are duplicate-free, disjoint and together exactly 0..n-1. */
  ghost predicate Allocated(s: Store) {
    && NoRepeats(s.free)
    && (forall id {:trigger Among(s.free, id)} :: Among(s.free, id) ==> id !in s.table)
    && (forall id: nat {:trigger Given(s, id)} :: Given(s, id) <==> id < Issued(s))
    && Issued(s) <= ID_LIMIT
  }

  lemma SaveAllocates(s: Store, e: Event)
    requires Allocated(s) && |s.table| < ID_LIMIT
    ensures NewId(s) !in s.table && Allocated(Saved(s, e))
    ensures Issued(Saved(s, e)) == if s.free == [] then Issued(s) + 1 else Issued(s)
    ensures |Saved(s, e).table| == |s.table| + 1
  {
    var id, t := NewId(s), Saved(s, e);
    assert Given(s, id) <==> id < Issued(s);
    if s.free != [] {
      assert s.free == t.free + [id];
      WithLast(t.free, id);
      assert Among(s.free, id);
    }
    assert |t.table| == |s.table| + 1;
    forall k: nat
      ensures Given(t, k) <==> k < Issued(t)
      ensures Among(t.free, k) ==> k !in t.table
    {
      assert s.free != [] ==> (Among(s.free, k) <==> k == id || Among(t.free, k));
      assert Given(t, k) <==> k == id || Given(s, k);
    }
  }

  /** saveEvent overwrites a live event exactly when all 2^32 ids are live. */
  lemma SaveIsFreshIff(s: Store)
    requires Allocated(s)
    ensures NewId(s) !in s.table <==> |s.table| < 0x1_0000_0000
  {
    if |s.table| < ID_LIMIT {
      SaveAllocates(s, DEFAULT_EVENT);
    } else {
      assert s.free == [] && NewId(s) == 0;
      assert Given(s, 0);
    }
  }

  lemma RemoveAllocates(s: Store, id: nat)
    requires Allocated(s) && id in s.table
    ensures Allocated(Removed(s, id)) && Issued(Removed(s, id)) == Issued(s)
    ensures |Removed(s, id).table| == |s.table| - 1
  {
    var t := Removed(s, id);
    WithLast(s.free, id);
    assert s.table == t.table[id := s.table[id]];
    assert |s.table| == |t.table| + 1;
    forall k: nat
      ensures Given(t, k) <==> k < Issued(t)
    {
      assert Given(t, k) <==> Given(s, k);
    }
  }

  /** How many ids hold a given event. */
  ghost function Copies(t: map<nat, Event>, e: Event): nat {
    |Holders(t, e)|
  }

  ghost function Holders(t: map<nat, Event>, e: Event): set<nat> {
    set id | id in t && t[id] == e
  }

  lemma CopiesWith(t: map<nat, Event>, id: nat, e: Event, who: Event)
    requires id !in t
    ensures Copies(t[id := e], who) == Copies(t, who) + if e == who then 1 else 0
  {
    assert Holders(t[id := e], who) == Holders(t, who) + if e == who then {id} else {};
  }

  lemma CopiesWithout(t: map<nat, Event>, id: nat, who: Event)
    requires id in t
    ensures Copies(t, who) == Copies(t - {id}, who) + if t[id] == who then 1 else 0
  {
    CopiesWith(t - {id}, id, t[id], who);
    assert (t - {id})[id := t[id]] == t;
  }

  // ---------------------------------------------------------------- the id buffer

  // The contents of SimpleEventQueueBuffer, oldest id first, and its ready flag.
  datatype Buffer = Buffer(queue: seq<nat>, ready: bool)

  const EMPTY_BUFFER := Buffer([], false)

  function Posted(b: Buffer, id: nat): Buffer {
    Buffer(b.queue + [id], true)
  }

  function Popped(b: Buffer): Buffer
    requires b.queue != []
  {
    Buffer(b.queue[1..], b.queue[1..] != [])
  }
}
