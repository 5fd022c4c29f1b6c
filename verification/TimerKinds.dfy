/** Which kind of timer a creation queues: target, period and kind of every timer served, and how
    long it stays queued, from the calls of a run alone. */
module TimerKinds {
  import opened Options
  import opened TimerHeap
  import opened Timers
  import opened TimerRuns

  predicate Creates(l: Label, id: TimerId) {
    l.Create? && l.id == id
  }

  /** The newTimer or newOneShotTimer call that returned this address last before step n. */
  ghost predicate LastCreate(ls: seq<Label>, n: nat, id: TimerId, j: nat) {
    j < n <= |ls| && Creates(ls[j], id) && forall i :: j < i < n ==> !Creates(ls[i], id)
  }

  /** A timer as a creating call asks for it; without a target it reports to itself. */
  predicate AsAsked(t: Timer, call: Label)
    requires call.Create?
  {
    && t.id == call.id && t.timeout == call.duration && t.oneShot == call.oneShot
    && t.target == if call.target == 0 then call.id else call.target
  }

  /** What takes a timer out of the queue: deleteTimer, and a report if it was created as a one-shot. */
  predicate TakesOut(call: Label, l: Label, served: Option<Timer>)
    requires call.Create?
  {
    l == Delete(call.id) || (call.oneShot && Serves(served, call.id))
  }

  /** Nothing has taken the timer out from its creation at j until step n. */
  ghost predicate Stays(ls: seq<Label>, served: seq<Option<Timer>>, j: nat, n: nat)
    requires j < n <= |ls| == |served| && ls[j].Create?
  {
    forall i :: j < i < n ==> !TakesOut(ls[j], ls[i], served[i])
  }

  /** An entry of the table is what the last creation of its address asked for, and there is one
      exactly if nothing has taken it out since. */
  lemma {:induction false} QueuedIff(
    vs: seq<View>, ls: seq<Label>, served: seq<Option<Timer>>, id: TimerId, j: nat, n: nat)
    requires TableRun(vs, ls, served) && LastCreate(ls, n, id, j)
    ensures id in vs[n].table <==> Stays(ls, served, j, n)
    ensures id in vs[n].table ==> AsAsked(vs[n].table[id], ls[j])
  {
    assert MovesAt(vs, ls, served, n - 1);
    if n > j + 1 {
      QueuedIff(vs, ls, served, id, j, n - 1);
      EntryMoves(vs[n - 1], ls[n - 1], served[n - 1], vs[n], ls[j]);
    }
  }

  /** A step that does not create it leaves an entry as it is asked for, or takes it out. */
  lemma EntryMoves(v: View, l: Label, served: Option<Timer>, v': View, call: Label)
    requires Moves(v, l, served, v') && call.Create? && !Creates(l, call.id)
    requires call.id in v.table ==> AsAsked(v.table[call.id], call)
    ensures call.id in v'.table <==> call.id in v.table && !TakesOut(call, l, served)
    ensures call.id in v'.table ==> AsAsked(v'.table[call.id], call)
  {
  }

  /** Every entry was created. */
  lemma {:induction false} CreationOf(
    vs: seq<View>, ls: seq<Label>, served: seq<Option<Timer>>, id: TimerId, n: nat) returns (j: nat)
    requires TableRun(vs, ls, served) && vs[0].table == map[] && n <= |ls| && id in vs[n].table
    ensures LastCreate(ls, n, id, j)
  {
    assert n > 0;
    assert MovesAt(vs, ls, served, n - 1);
    if Creates(ls[n - 1], id) {
      j := n - 1;
    } else {
      j := CreationOf(vs, ls, served, id, n - 1);
    }
  }

  /** Every timer served has the target, period and kind that the last creation of its address
      asked for, and has been queued ever since. */
  lemma ServedAsCreated(vs: seq<View>, ls: seq<Label>, served: seq<Option<Timer>>, n: nat) returns (j: nat)
    requires TableRun(vs, ls, served) && vs[0].table == map[] && n < |ls| && served[n].Some?
    ensures LastCreate(ls, n, served[n].value.id, j)
    ensures AsAsked(served[n].value, ls[j]) && Stays(ls, served, j, n)
  {
    var id := served[n].value.id;
    assert MovesAt(vs, ls, served, n);
    j := CreationOf(vs, ls, served, id, n);
    QueuedIff(vs, ls, served, id, j, n);
  }

  /** So a timer created as a periodic one and not deleted is served again: once a check reads its
      deadline or later, it is served by then or within as many checks as timers are queued. */
  lemma PeriodicServedAgain(
    vs: seq<View>, ls: seq<Label>, served: seq<Option<Timer>>, id: TimerId, j: nat, k: nat) returns (n: nat)
    requires TableRun(vs, ls, served) && vs[0].table == map[] && SteadyRun(vs, ls) && k < |ls|
    requires LastCreate(ls, k, id, j) && !ls[j].oneShot && Delete(id) !in ls[j + 1..]
    requires ls[k].Check? && id in Ledger(vs, ls, served, k)
    requires var a := Ledger(vs, ls, served, k)[id]; ls[k].read >= a.armed + a.slack + ls[j].duration
    requires Checks(ls, k + 1, |ls|) >= |vs[k + 1].table|
    ensures k <= n < |ls| && Serves(served[n], id)
  {
    if Serves(served[k], id) {
      n := k;
    } else {
      StaysUndeleted(ls, served, j, k);
      QueuedIff(vs, ls, served, id, j, k);
      DueNext(vs, ls, served, id, k);
      Shrinks(Ahead(vs[k + 1].table, id), vs[k + 1].table.Keys);
      assert ls[k + 1..] == ls[j + 1..][k - j..];
      n := BoundedBypass(vs, ls, served, id, k + 1);
    }
  }

  /** A timer that a check has counted down past its deadline and not served is overdue. */
  lemma DueNext(vs: seq<View>, ls: seq<Label>, served: seq<Option<Timer>>, id: TimerId, k: nat)
    requires TableRun(vs, ls, served) && vs[0].table == map[] && k < |ls|
    requires ls[k].Check? && id in vs[k].table && id in Ledger(vs, ls, served, k) && !Serves(served[k], id)
    requires var a := Ledger(vs, ls, served, k)[id]; ls[k].read >= a.armed + a.slack + vs[k].table[id].timeout
    ensures Overdue(vs[k + 1], id)
  {
    RunBalanced(vs, ls, served, k);
    assert MovesAt(vs, ls, served, k);
    assert Deadlines(vs[k])[id] <= ls[k].read;
  }

  lemma StaysUndeleted(ls: seq<Label>, served: seq<Option<Timer>>, j: nat, n: nat)
    requires j < n <= |ls| == |served| && ls[j].Create? && !ls[j].oneShot && Delete(ls[j].id) !in ls[j + 1..]
    ensures Stays(ls, served, j, n)
  {
    forall i | j < i < n
      ensures ls[i] != Delete(ls[j].id)
    {
      assert ls[i] == ls[j + 1..][i - j - 1];
    }
  }
}
