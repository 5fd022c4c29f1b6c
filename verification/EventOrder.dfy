/** In which order events travel from addEvent to the consumer: in the order of the calls, except
    that an event stored while earlier ones are pending overtakes them. */
module EventOrder {
  import opened Options
  import opened EventStore
  import opened EventMachine
  import opened EventHistory

  // ---------------------------------------------------------------- overtaking

  /** The positions of the events not lost, in the order in which the consumer gets them. */
  ghost function Order(h: History): seq<nat> {
    h.entered + h.waiting
  }

  /** An event was stored while an earlier one was pending, and neither is lost. */
  ghost predicate Overtaken(h: History) {
    exists x, y :: (x, y) in h.overtook && x !in h.lost && y !in h.lost
  }

  // One position before another: they differ, and the earlier one is the later call's exactly
  // if it overtook.
  ghost predicate Apart(x: nat, y: nat, overtook: set<(nat, nat)>) {
    x != y && (x > y <==> (x, y) in overtook) && (y, x) !in overtook
  }

  ghost predicate Arranged(s: seq<nat>, overtook: set<(nat, nat)>) {
    forall i, j {:trigger Nth(s, i), Nth(s, j)} :: 0 <= i < j < |s| ==> Apart(Nth(s, i), Nth(s, j), overtook)
  }

  /** Each event not lost is on its way, or was delivered, exactly once. */
  ghost predicate Ordered(h: History) {
    && Arranged(Order(h), h.overtook)
    && (forall k: nat {:trigger Among(Order(h), k)} :: Among(Order(h), k) <==> k < |h.added| && k !in h.lost)
    && (forall k :: k in h.lost ==> k < |h.added|)
    && (forall x, y {:trigger (x, y) in h.overtook} :: (x, y) in h.overtook ==> y < x < |h.added|)
  }

  lemma Inserted(a: seq<nat>, x: nat, c: seq<nat>, before: set<(nat, nat)>, after: set<(nat, nat)>)
    requires Arranged(a + c, before)
    requires forall y :: Among(a, y) ==> Apart(y, x, after)
    requires forall y :: Among(c, y) ==> Apart(x, y, after)
    requires forall y, z {:trigger (y, z) in after} :: y != x && z != x ==> ((y, z) in after <==> (y, z) in before)
    requires !Among(a + c, x)
    ensures Arranged(a + [x] + c, after)
    ensures forall k {:trigger Among(a + [x] + c, k)} :: Among(a + [x] + c, k) <==> k == x || Among(a + c, k)
  {
    var s, r := a + [x] + c, a + c;
    forall i, j | 0 <= i < j < |s|
      ensures Apart(Nth(s, i), Nth(s, j), after)
    {
      if i == |a| {
        assert Among(c, s[j]) by { assert s[j] == c[j - |a| - 1]; }
      } else if j == |a| {
        assert Among(a, s[i]) by { assert s[i] == a[i]; }
      } else {
        var k, l := if i < |a| then i else i - 1, if j < |a| then j else j - 1;
        assert Nth(r, k) == s[i] && Nth(r, l) == s[j];
        assert Among(r, s[i]) && Among(r, s[j]);
      }
    }
  }

  lemma Dropped(a: seq<nat>, b: seq<nat>, c: seq<nat>, overtook: set<(nat, nat)>)
    requires Arranged(a + b + c, overtook)
    ensures Arranged(a + c, overtook)
    ensures forall k {:trigger Among(a + c, k)} :: Among(a + c, k) <==> Among(a + b + c, k) && !Among(b, k)
  {
    var s, all := a + c, a + b + c;
    forall i, j | 0 <= i < j < |s|
      ensures Apart(Nth(s, i), Nth(s, j), overtook)
    {
      var k, l := if i < |a| then i else i + |b|, if j < |a| then j else j + |b|;
      assert Nth(all, k) == s[i] && Nth(all, l) == s[j];
    }
    forall i, j | 0 <= i < |s| && 0 <= j < |b|
      ensures s[i] != b[j]
    {
      var k := if i < |a| then i else i + |b|;
      assert Nth(all, k) == s[i] && Nth(all, |a| + j) == b[j];
    }
  }

  lemma DiscardedOrdered(h: History, keep: nat)
    requires Ordered(h)
    ensures Ordered(Discarded(h, keep))
  {
    if keep <= |h.entered| {
      var a, b := h.entered[..keep], h.entered[keep..];
      assert h.entered == a + b;
      Dropped(a, b, h.waiting, h.overtook);
      forall k: nat
        ensures Among(a + h.waiting, k) <==> k < |h.added| && k !in Discarded(h, keep).lost
        ensures Among(b, k) ==> k < |h.added|
      {
        assert Among(b, k) <==> k in b;
        assert Among(b, k) ==> Among(a + b + h.waiting, k);
        assert a + b + h.waiting == Order(h);
      }
    }
  }

  lemma Halves(a: seq<nat>, c: seq<nat>, overtook: set<(nat, nat)>)
    requires Arranged(a + c, overtook)
    ensures forall k {:trigger Among(a + c, k)} :: Among(a + c, k) <==> Among(a, k) || Among(c, k)
    ensures forall k {:trigger Among(a, k)} {:trigger Among(c, k)} :: !(Among(a, k) && Among(c, k))
  {
    var s := a + c;
    forall i, j | 0 <= i < |a| && 0 <= j < |c|
      ensures a[i] != c[j]
    {
      assert Nth(s, i) == a[i] && Nth(s, |a| + j) == c[j];
    }
  }

  lemma AddOrdered(m: Machine, e: Event, h: History)
    requires Enabled(m, Add(e)) && Ordered(h)
    ensures Ordered(Recorded(h, m, Add(e)))
  {
    var n, h' := |h.added|, Recorded(h, m, Add(e));
    assert !Among(Order(h), n);
    Halves(h.entered, h.waiting, h.overtook);
    if Stores(m, Add(e)) {
      forall k: nat
        ensures Among(h.entered, k) ==> Apart(k, n, h'.overtook)
        ensures Among(h.waiting, k) ==> Apart(n, k, h'.overtook)
      {
        assert Among(h.entered, k) || Among(h.waiting, k) <==> Among(Order(h), k);
        assert (n, k) in h'.overtook <==> (n, k) in h.overtook || Among(h.waiting, k);
        assert (k, n) in h'.overtook <==> (k, n) in h.overtook || (k == n && Among(h.waiting, n));
      }
      forall x, y | (x, y) in h'.overtook
        ensures y < x <= n
      {
        assert (x, y) in h.overtook || Among(h.waiting, y);
        assert Among(h.waiting, y) ==> Among(Order(h), y);
      }
      Inserted(h.entered, n, h.waiting, h.overtook, h'.overtook);
      assert Order(h') == h.entered + [n] + h.waiting;
    } else if Defers(m, Add(e)) {
      assert Order(h) == Order(h) + [];
      Inserted(Order(h), n, [], h.overtook, h.overtook);
      assert Order(h') == Order(h) + [n] + [];
    }
  }

  lemma StepOrdered(m: Machine, l: Label, h: History)
    requires Enabled(m, l) && Ordered(h)
    ensures Ordered(Recorded(h, m, l))
  {
    match l
    case Add(e) => AddOrdered(m, e, h);
    case Drain =>
      assert Order(Recorded(h, m, l)) == Order(h);
    case Refuse => DiscardedOrdered(h, |h.posted|);
    case Adopt => DiscardedOrdered(h, |h.delivered|);
    case _ =>
  }

  lemma {:induction false} RunOrdered(ms: seq<Machine>, ls: seq<Label>, n: nat)
    requires Run(ms, ls) && n <= |ls|
    ensures Ordered(HistoryOf(ms, ls, n))
  {
    if n > 0 {
      RunOrdered(ms, ls, n - 1);
      HistoryStep(ms, ls, n - 1);
      StepOrdered(ms[n - 1], ls[n - 1], HistoryOf(ms, ls, n - 1));
    }
  }

  // ---------------------------------------------------------------- the order of the calls

  /** The positions below n of the events not lost, in the order of the calls. */
  function Survivors(n: nat, lost: set<nat>): seq<nat> {
    if n == 0 then [] else Survivors(n - 1, lost) + if n - 1 in lost then [] else [n - 1]
  }

  ghost predicate Increasing(s: seq<nat>) {
    forall i, j {:trigger Nth(s, i), Nth(s, j)} :: 0 <= i < j < |s| ==> Nth(s, i) < Nth(s, j)
  }

  lemma {:induction false} SurvivorsIncrease(n: nat, lost: set<nat>)
    ensures Increasing(Survivors(n, lost)) && Below(Survivors(n, lost), n)
  {
    if n > 0 {
      SurvivorsIncrease(n - 1, lost);
      var front, s := Survivors(n - 1, lost), Survivors(n, lost);
      forall i, j | 0 <= i < j < |s|
        ensures Nth(s, i) < Nth(s, j)
      {
        assert i < |front| && front[i] == s[i];
        assert j < |front| ==> Nth(front, i) < Nth(front, j);
      }
    }
  }

  lemma {:induction false} IncreasingIsSurvivors(s: seq<nat>, n: nat, lost: set<nat>)
    requires Increasing(s) && forall k: nat {:trigger Among(s, k)} :: Among(s, k) <==> k < n && k !in lost
    ensures s == Survivors(n, lost)
  {
    if n == 0 {
      assert s != [] ==> Among(s, s[0]);
    } else if n - 1 in lost {
      assert forall k: nat {:trigger Among(s, k)} :: Among(s, k) <==> k < n - 1 && k !in lost;
      IncreasingIsSurvivors(s, n - 1, lost);
    } else {
      LastIsGreatest(s, n - 1);
      var front := s[..|s| - 1];
      assert s == front + [n - 1];
      FrontIncreases(front, n - 1);
      forall k: nat
        ensures Among(front, k) <==> k < n - 1 && k !in lost
      {
        assert Among(s, k) <==> k == n - 1 || Among(front, k);
      }
      IncreasingIsSurvivors(front, n - 1, lost);
    }
  }

  lemma FrontIncreases(front: seq<nat>, top: nat)
    requires Increasing(front + [top])
    ensures Increasing(front) && !Among(front, top)
    ensures forall k {:trigger Among(front + [top], k)} :: Among(front + [top], k) <==> k == top || Among(front, k)
  {
    var s := front + [top];
    forall i, j | 0 <= i < j < |front|
      ensures Nth(front, i) < Nth(front, j)
    {
      assert Nth(s, i) < Nth(s, j);
    }
    WithLast(front, top);
    assert forall i, j {:trigger Nth(s, i), Nth(s, j)} :: 0 <= i < j < |s| ==> Nth(s, i) != Nth(s, j);
  }

  lemma LastIsGreatest(s: seq<nat>, top: nat)
    requires Increasing(s) && Among(s, top) && forall k: nat {:trigger Among(s, k)} :: Among(s, k) ==> k <= top
    ensures s[|s| - 1] == top
  {
    var i :| 0 <= i < |s| && s[i] == top;
    assert Among(s, s[|s| - 1]);
    assert i < |s| - 1 ==> Nth(s, i) < Nth(s, |s| - 1);
  }

  lemma IncreasingIffNotOvertaken(h: History)
    requires Ordered(h)
    ensures Increasing(Order(h)) <==> !Overtaken(h)
  {
    var s := Order(h);
    if Overtaken(h) {
      var x, y :| (x, y) in h.overtook && x !in h.lost && y !in h.lost;
      assert Among(s, x) && Among(s, y);
      var i, j :| 0 <= i < |s| && 0 <= j < |s| && s[i] == x && s[j] == y;
      assert Nth(s, i) == x && Nth(s, j) == y;
    } else {
      forall i, j | 0 <= i < j < |s|
        ensures Nth(s, i) < Nth(s, j)
      {
        var x, y := Nth(s, i), Nth(s, j);
        assert Among(s, x) && Among(s, y);
        assert x > y ==> (x, y) in h.overtook;
      }
    }
  }

  /** The consumer gets the events that are not lost in the order of the addEvent calls exactly
      when none of them was stored while an earlier one of them was pending, that is, when no
      producer ran between the readiness flip and the end of the drain. */
  lemma OrderKeptIff(ms: seq<Machine>, ls: seq<Label>, n: nat)
    requires Run(ms, ls) && n <= |ls|
    ensures var h := HistoryOf(ms, ls, n);
      Order(h) == Survivors(|h.added|, h.lost) <==> !Overtaken(h)
  {
    var h := HistoryOf(ms, ls, n);
    RunOrdered(ms, ls, n);
    IncreasingIffNotOvertaken(h);
    if !Overtaken(h) {
      IncreasingIsSurvivors(Order(h), |h.added|, h.lost);
    }
    SurvivorsIncrease(|h.added|, h.lost);
  }

  /** In every run, through refusals and adopted buffers, the events delivered, in flight, being
      saved and pending are those accepted and not lost, each exactly once. */
  lemma EachOnItsWayOnce(ms: seq<Machine>, ls: seq<Label>, n: nat)
    requires Run(ms, ls) && n <= |ls|
    ensures var h := HistoryOf(ms, ls, n);
      && h.delivered + InFlight(ms[n]) + BeingSaved(ms[n]) + ms[n].pending == Picked(h.added, Order(h))
      && NoRepeats(Order(h))
      && forall k: nat {:trigger Among(Order(h), k)} :: Among(Order(h), k) <==> k < |h.added| && k !in h.lost
  {
    var h := HistoryOf(ms, ls, n);
    RunTraced(ms, ls, n);
    RunOrdered(ms, ls, n);
    PickedJoin(h.added, h.entered, h.waiting);
  }

  /** End to end: unless overtaken, they come in the order of the addEvent calls. */
  lemma AddedInOrder(ms: seq<Machine>, ls: seq<Label>, n: nat)
    requires Run(ms, ls) && n <= |ls| && !Overtaken(HistoryOf(ms, ls, n))
    ensures var h := HistoryOf(ms, ls, n);
      h.delivered + InFlight(ms[n]) + BeingSaved(ms[n]) + ms[n].pending
      == Picked(h.added, Survivors(|h.added|, h.lost))
  {
    EachOnItsWayOnce(ms, ls, n);
    OrderKeptIff(ms, ls, n);
  }

  lemma FourSteps(
    ms: seq<Machine>, ls: seq<Label>, h1: History, h2: History, h3: History, h4: History)
    requires Run(ms, ls) && |ls| == 4
    requires h1 == Recorded(NO_HISTORY, ms[0], ls[0]) && h2 == Recorded(h1, ms[1], ls[1])
    requires h3 == Recorded(h2, ms[2], ls[2]) && h4 == Recorded(h3, ms[3], ls[3])
    ensures HistoryOf(ms, ls, 4) == h4
  {
    HistoryStep(ms, ls, 0);
    HistoryStep(ms, ls, 1);
    HistoryStep(ms, ls, 2);
    HistoryStep(ms, ls, 3);
  }

  lemma DeferThenStore(a: Event, b: Event, m2: Machine, m3: Machine)
    requires !Bogus(a) && !Bogus(b) && !DeliverImmediately(a) && !DeliverImmediately(b)
    requires m2 == INITIAL.(pending := [a], ready := true) && m3 == StoreEvent(m2, b)
    ensures Enabled(INITIAL, Add(a)) && Next(INITIAL, Add(a)) == INITIAL.(pending := [a])
    ensures Enabled(m2, Add(b)) && Guard(m2, Add(b)) && Next(m2, Add(b)) == m3
    ensures m3.saving == Some(0) && m3.store.table == map[0 := b] && m3.pending == [a]
  {
  }

  lemma DeferThenStoreRecorded(a: Event, b: Event, m2: Machine, m3: Machine) returns (h1: History, h3: History)
    requires !Bogus(a) && !Bogus(b) && !DeliverImmediately(a) && !DeliverImmediately(b)
    requires m2 == INITIAL.(pending := [a], ready := true) && m3 == StoreEvent(m2, b)
    ensures Enabled(INITIAL, Add(a)) && h1 == Recorded(NO_HISTORY, INITIAL, Add(a))
    ensures Enabled(m2, Add(b)) && h3 == Recorded(h1, m2, Add(b))
    ensures h3.added == [a, b] && h3.entered == [1] && h3.waiting == [0] && h3.posted == []
  {
    h1 := Recorded(NO_HISTORY, INITIAL, Add(a));
    h3 := Recorded(h1, m2, Add(b));
  }

  /** A producer that runs before the drain does overtake: b, added second, is posted while a
      is still pending. */
  lemma OvertakingHappens(a: Event, b: Event) returns (ms: seq<Machine>, ls: seq<Label>)
    requires !Bogus(a) && !Bogus(b) && !DeliverImmediately(a) && !DeliverImmediately(b)
    ensures Run(ms, ls) && |ls| == 4
    ensures var h := HistoryOf(ms, ls, 4);
      h.added == [a, b] && h.posted == [b] && ms[4].pending == [a] && Order(h) == [1, 0]
  {
    var m1, m2 := INITIAL.(pending := [a]), INITIAL.(pending := [a], ready := true);
    var m3 := StoreEvent(m2, b);
    DeferThenStore(a, b, m2, m3);
    ms, ls := [INITIAL, m1, m2, m3, Next(m3, Post)], [Add(a), MakeReady, Add(b), Post];
    var h1, h3 := DeferThenStoreRecorded(a, b, m2, m3);
    FourSteps(ms, ls, h1, h1, h3, h3.(posted := [b]));
  }
}
