/** A queued timer, and the min-heap that orders timers by remaining time. */
module TimerHeap {

  type TimerId = nat

  // EventQueue::Timer: `time` counts down from `timeout` (m_timeout, m_time).
  datatype Timer = Timer(id: TimerId, timeout: real, target: nat, oneShot: bool, time: real)

  // Node i is a child of node p in the array layout of a binary heap.
  predicate Child(p: nat, i: nat) {
    i == 2 * p + 1 || i == 2 * p + 2
  }

  // Every node from index k on is no later than its children.
  ghost predicate HeapFrom(c: seq<Timer>, k: nat) {
    forall p: nat, i: nat {:trigger Child(p, i)} ::
      k <= p && i < |c| && Child(p, i) ==> c[p].time <= c[i].time
  }

  ghost predicate IsHeap(c: seq<Timer>) {
    HeapFrom(c, 0)
  }

  lemma {:induction false} FrontIsLeast(c: seq<Timer>, i: nat)
    requires IsHeap(c) && i < |c|
    ensures c[0].time <= c[i].time
  {
    if i > 0 {
      FrontIsLeast(c, (i - 1) / 2);
      assert Child((i - 1) / 2, i);
    }
  }

  /** Every timer's remaining time reduced by dt, in place. */
  function CountedDown(c: seq<Timer>, dt: real): (d: seq<Timer>)
    ensures |d| == |c|
    ensures forall i :: 0 <= i < |c| ==> d[i] == c[i].(time := c[i].time - dt)
  {
    seq(|c|, i requires 0 <= i < |c| => c[i].(time := c[i].time - dt))
  }

  /** A uniform decrement keeps the heap order, so the queue need not be rebuilt. */
  lemma CountdownKeepsHeap(c: seq<Timer>, dt: real)
    requires IsHeap(c)
    ensures IsHeap(CountedDown(c, dt))
  {
  }

  function Swapped(c: seq<Timer>, i: nat, j: nat): seq<Timer>
    requires i < |c| && j < |c|
  {
    c[i := c[j]][j := c[i]]
  }

  lemma SwapPermutes(c: seq<Timer>, i: nat, j: nat)
    requires i < |c| && j < |c|
    ensures multiset(Swapped(c, i, j)) == multiset(c)
  {
  }

  // The heap order holds, except between k and its parent (going up).
  ghost predicate HeapButAbove(c: seq<Timer>, k: nat) {
    && (forall p: nat, i: nat {:trigger Child(p, i)} ::
          i < |c| && i != k && Child(p, i) ==> c[p].time <= c[i].time)
    && (forall p: nat, i: nat {:trigger Child(p, k), Child(k, i)} ::
          i < |c| && Child(p, k) && Child(k, i) ==> c[p].time <= c[i].time)
  }

  // The heap order holds from index `from` on, except between k and its children (going down).
  ghost predicate HeapButBelow(c: seq<Timer>, from: nat, k: nat) {
    && (forall p: nat, i: nat {:trigger Child(p, i)} ::
          from <= p && i < |c| && p != k && Child(p, i) ==> c[p].time <= c[i].time)
    && (forall p: nat, i: nat {:trigger Child(p, k), Child(k, i)} ::
          from <= p && i < |c| && Child(p, k) && Child(k, i) ==> c[p].time <= c[i].time)
  }

  lemma RaiseStep(c: seq<Timer>, parent: nat, k: nat)
    requires k < |c| && Child(parent, k) && HeapButAbove(c, k)
    requires c[parent].time > c[k].time
    ensures HeapButAbove(Swapped(c, parent, k), parent)
  {
    var d := Swapped(c, parent, k);
    forall p: nat, i: nat {:trigger Child(p, i)} | i < |d| && i != parent && Child(p, i)
      ensures d[p].time <= d[i].time
    {
      assert p == k ==> Child(parent, k) && Child(k, i);
    }
    forall p: nat, i: nat {:trigger Child(p, parent), Child(parent, i)}
      | i < |d| && Child(p, parent) && Child(parent, i)
      ensures d[p].time <= d[i].time
    {
      assert c[p].time <= c[parent].time;
    }
  }

  lemma LowerStep(c: seq<Timer>, from: nat, k: nat, child: nat)
    requires from <= k && child < |c| && Child(k, child) && HeapButBelow(c, from, k)
    requires c[child].time < c[k].time
    requires forall i: nat {:trigger Child(k, i)} :: i < |c| && Child(k, i) ==> c[child].time <= c[i].time
    ensures HeapButBelow(Swapped(c, k, child), from, child)
  {
    var d := Swapped(c, k, child);
    forall p: nat, i: nat {:trigger Child(p, i)} | from <= p && i < |d| && p != child && Child(p, i)
      ensures d[p].time <= d[i].time
    {
      assert i == k ==> Child(p, k) && Child(k, child);
    }
    forall p: nat, i: nat {:trigger Child(p, child), Child(child, i)}
      | from <= p && i < |d| && Child(p, child) && Child(child, i)
      ensures d[p].time <= d[i].time
    {
      assert p == k;
    }
  }

  /** PriorityQueue<Timer>: a vector kept as a heap by push_heap, pop_heap and make_heap. */
  // A rearrangement in heap order, except between k and its children.
  ghost predicate Sinking(was: seq<Timer>, c: seq<Timer>, from: nat, k: nat) {
    from <= k < |c| == |was| && multiset(c) == multiset(was) && HeapButBelow(c, from, k)
  }

  lemma SinkingStep(was: seq<Timer>, c: seq<Timer>, from: nat, k: nat, child: nat)
    requires Sinking(was, c, from, k) && child < |c| && Child(k, child) && c[child].time < c[k].time
    requires forall i: nat {:trigger Child(k, i)} :: i < |c| && Child(k, i) ==> c[child].time <= c[i].time
    ensures Sinking(was, Swapped(c, k, child), from, child)
  {
    LowerStep(c, from, k, child);
    SwapPermutes(c, k, child);
  }

  lemma SunkFarEnough(was: seq<Timer>, c: seq<Timer>, from: nat, k: nat)
    requires Sinking(was, c, from, k)
    requires forall i: nat {:trigger Child(k, i)} :: i < |c| && Child(k, i) ==> c[k].time <= c[i].time
    ensures HeapFrom(c, from) && |c| == |was| && multiset(c) == multiset(was)
  {
  }

  class PriorityQueue {
    var c: seq<Timer>

    constructor ()
      ensures c == []
    {
      c := [];
    }

    method Push(v: Timer)
      requires IsHeap(c)
      modifies this
      ensures IsHeap(c)
      ensures multiset(c) == multiset(old(c)) + multiset{v}
    {
      c := c + [v];
      SiftUp();
    }

    method Pop()
      requires IsHeap(c) && c != []
      modifies this
      ensures IsHeap(c)
      ensures multiset(c) == multiset(old(c)) - multiset{old(c)[0]}
    {
      var last := |c| - 1;
      assert c == c[..last] + [c[last]];
      if last == 0 {
        c := [];
      } else {
        assert c[..last] == [c[0]] + c[1..last];
        c := [c[last]] + c[1..last];
        SiftDown(0);
      }
    }

    method Erase(i: nat)
      requires i < |c|
      modifies this
      ensures IsHeap(c)
      ensures multiset(c) == multiset(old(c)) - multiset{old(c)[i]}
    {
      assert c == c[..i] + [c[i]] + c[i + 1..];
      c := c[..i] + c[i + 1..];
      var k: nat := |c| / 2;
      while k > 0
        invariant HeapFrom(c, k)
        invariant multiset(c) == multiset(old(c)) - multiset{old(c)[i]}
      {
        k := k - 1;
        SiftDown(k);
      }
    }

    /** Moves the last element up to its place. */
    method SiftUp()
      requires c != [] && IsHeap(c[..|c| - 1])
      modifies this
      ensures IsHeap(c) && multiset(c) == multiset(old(c))
    {
      var k: nat := |c| - 1;
      while k > 0 && c[(k - 1) / 2].time > c[k].time
        invariant k < |c| && multiset(c) == multiset(old(c))
        invariant HeapButAbove(c, k)
      {
        var parent := (k - 1) / 2;
        RaiseStep(c, parent, k);
        SwapPermutes(c, parent, k);
        c := Swapped(c, parent, k);
        k := parent;
      }
      assert k > 0 ==> Child((k - 1) / 2, k);
    }

    /** Moves the element at `from` down to its place among the nodes below it. */
    method SiftDown(from: nat)
      requires from < |c| && HeapFrom(c, from + 1)
      modifies this
      ensures HeapFrom(c, from)
      ensures |c| == |old(c)| && multiset(c) == multiset(old(c))
    {
      var k: nat := from;
      ghost var was := c;
      while 2 * k + 1 < |c|
        invariant Sinking(was, c, from, k)
      {
        var child := 2 * k + 1;
        if child + 1 < |c| && c[child + 1].time < c[child].time {
          child := child + 1;
        }
        if c[k].time <= c[child].time {
          SunkFarEnough(was, c, from, k);
          return;
        }
        SinkingStep(was, c, from, k, child);
        c := Swapped(c, k, child);
        k := child;
      }
      SunkFarEnough(was, c, from, k);
    }

    /** The loop of hasTimerExpired that subtracts the elapsed time from every element. */
    method CountDown(dt: real)
      requires IsHeap(c)
      modifies this
      ensures c == CountedDown(old(c), dt) && IsHeap(c)
    {
      for i := 0 to |c|
        invariant |c| == |old(c)|
        invariant forall j :: 0 <= j < i ==> c[j] == CountedDown(old(c), dt)[j]
        invariant forall j :: i <= j < |c| ==> c[j] == old(c)[j]
      {
        c := c[i := c[i].(time := c[i].time - dt)];
      }
      assert c == CountedDown(old(c), dt);
    }
  }
}
