/** SimpleEventQueueBuffer: a deque of event ids, pushed at the front and popped at the back,
    with a flag that tells whether it holds any. */
module SimpleBuffer {
  import opened Options
  import opened EventStore

  function Reversed<T>(s: seq<T>): (r: seq<T>)
    ensures |r| == |s|
  {
    if s == [] then [] else Reversed(s[1..]) + [s[0]]
  }

  lemma {:induction false} ReversedPopBack<T>(s: seq<T>)
    requires s != []
    ensures Reversed(s) == [s[|s| - 1]] + Reversed(s[..|s| - 1])
  {
    if |s| > 1 {
      ReversedPopBack(s[1..]);
      assert s[..|s| - 1][1..] == s[1..][..|s| - 2];
    }
  }

  // What a waiting thread sees each time it wakes: the time it has waited and the ids posted.
  datatype Wake = Wake(elapsed: real, posted: seq<nat>)

  function PostedIds(wakes: seq<Wake>): seq<nat> {
    if wakes == [] then [] else PostedIds(wakes[..|wakes| - 1]) + wakes[|wakes| - 1].posted
  }

  /** After u wake-ups nothing has been posted and the time is not up. */
  predicate StillWaits(timeout: real, wakes: seq<Wake>, u: nat) {
    u <= |wakes| && PostedIds(wakes[..u]) == [] && (u > 0 && timeout >= 0.0 ==> wakes[u - 1].elapsed <= timeout)
  }

  class SimpleEventQueueBuffer {
    var queue: seq<nat>
    var queueReady: bool

    ghost predicate Valid()
      reads this
    {
      queueReady <==> queue != []
    }

    /** The ids oldest first, with the flag. */
    ghost function Contents(): Buffer
      reads this
    {
      Buffer(Reversed(queue), queueReady)
    }

    constructor ()
      ensures Valid() && Contents() == EMPTY_BUFFER
    {
      queue, queueReady := [], false;
    }

    method AddEvent(dataID: nat) returns (accepted: bool)
      modifies this
      ensures Valid() && accepted
      ensures Contents() == Posted(old(Contents()), dataID)
    {
      queue := [dataID] + queue;
      if !queueReady {
        queueReady := true;
      }
      accepted := true;
    }

    /** None is IEventQueueBuffer::Type::Unknown, Some is User with its id. */
    method GetEvent() returns (r: Option<nat>)
      requires Valid()
      modifies this
      ensures Valid()
      ensures var b := old(Contents());
        if b.queue == [] then r == None && Contents() == b
        else r == Some(b.queue[0]) && Contents() == Popped(b)
    {
      if !queueReady {
        return None;
      }
      ReversedPopBack(queue);
      var dataID := queue[|queue| - 1];
      queue := queue[..|queue| - 1];
      queueReady := queue != [];
      r := Some(dataID);
    }

    predicate IsEmpty()
      requires Valid()
      reads this
      ensures IsEmpty() <==> Contents().queue == []
    {
      !queueReady
    }

    /** What other threads post while one waits. */
    method AddEvents(posted: seq<nat>)
      requires Valid()
      modifies this
      ensures Valid() && Contents().queue == old(Contents().queue) + posted
    {
      for i := 0 to |posted|
        invariant Valid() && Contents().queue == old(Contents().queue) + posted[..i]
      {
        var _ := AddEvent(posted[i]);
      }
    }

    /** waitForEvent against a script of wake-ups. A wait that returns has found an id or has
        outlasted a non-negative timeout, and does so at the first wake-up at which that is so;
        the ids posted meanwhile are queued in order. */
    method WaitForEvent(timeout: real, wakes: seq<Wake>) returns (returned: bool, used: nat)
      requires Valid()
      modifies this
      ensures Valid() && used <= |wakes|
      ensures !returned ==> used == |wakes| && Contents().queue == []
      ensures returned && Contents().queue == [] ==>
        used > 0 && 0.0 <= timeout < wakes[used - 1].elapsed
      ensures old(Contents()).queue != [] ==> returned && used == 0
      ensures Contents().queue == old(Contents()).queue + PostedIds(wakes[..used])
      ensures forall u :: 0 <= u < used ==> StillWaits(timeout, wakes, u)
    {
      used := 0;
      var elapsed := 0.0;
      while !queueReady
        invariant Valid() && used <= |wakes|
        invariant Contents().queue == old(Contents()).queue + PostedIds(wakes[..used])
        invariant used == 0 ==> elapsed == 0.0
        invariant used > 0 ==> elapsed == wakes[used - 1].elapsed && old(Contents()).queue == []
        invariant forall u :: 0 <= u < used ==> StillWaits(timeout, wakes, u)
        decreases |wakes| - used
      {
        var timeLeft := timeout;
        if timeLeft >= 0.0 {
          timeLeft := timeLeft - elapsed;
          if timeLeft < 0.0 {
            return true, used;
          }
        }
        if used == |wakes| {
          return false, used;
        }
        assert StillWaits(timeout, wakes, used);
        elapsed := wakes[used].elapsed;
        AddEvents(wakes[used].posted);
        assert wakes[..used + 1][..used] == wakes[..used];
        used := used + 1;
      }
      returned := true;
    }
  }
}
