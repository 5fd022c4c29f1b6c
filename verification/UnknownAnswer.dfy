/** processEvent with a buffer that may answer Unknown, as a platform buffer can when the
    message it saw is gone: the branch that starts over but drops what that attempt reports. */
module UnknownAnswer {
  import opened Options
  import opened EventStore

  // How each attempt ends once its waits are over: the caller's time is up, there is an event
  // (a timer's, a system or a user event), or the buffer that was not empty answers Unknown,
  // with the time the caller has spent by then.
  datatype Answer = TimeIsUp | HasEvent(event: Event) | NoEvent(elapsed: real)

  // What getEvent returns and what it leaves in the caller's event.
  datatype Reply = Reply(available: bool, filled: Option<Event>)

  /** The recursion of processEvent; with no answer left the caller is still waiting. */
  function Process(answers: seq<Answer>, timeout: real): Reply {
    if answers == [] then Reply(false, None)
    else
      match answers[0]
      case TimeIsUp => Reply(false, None)
      case HasEvent(e) => Reply(true, Some(e))
      case NoEvent(elapsed) =>
        if timeout < 0.0 || timeout <= elapsed
        then Process(answers[1..], timeout).(available := false)
        else Reply(false, None)
  }

  /** Attempt n finds an event, after Unknown answers that each made processEvent start over. */
  ghost predicate FoundAt(answers: seq<Answer>, timeout: real, n: nat) {
    && n < |answers| && answers[n].HasEvent?
    && forall i :: 0 <= i < n ==> answers[i].NoEvent? && (timeout < 0.0 || timeout <= answers[i].elapsed)
  }

  lemma {:induction false} FoundMeans(answers: seq<Answer>, timeout: real, n: nat)
    requires FoundAt(answers, timeout, n)
    ensures Process(answers, timeout) == Reply(n == 0, Some(answers[n].event))
  {
    if n > 0 {
      assert answers[0].NoEvent? && (timeout < 0.0 || timeout <= answers[0].elapsed);
      assert forall i :: 0 <= i < n ==> answers[1..][i] == answers[i + 1];
      FoundMeans(answers[1..], timeout, n - 1);
    }
  }

  lemma {:induction false} FilledIff(answers: seq<Answer>, timeout: real)
    ensures Process(answers, timeout).filled.Some? <==> exists n: nat :: FoundAt(answers, timeout, n)
    ensures Process(answers, timeout).available ==> Process(answers, timeout).filled.Some?
  {
    if answers != [] && answers[0].NoEvent? && (timeout < 0.0 || timeout <= answers[0].elapsed) {
      var rest := answers[1..];
      FilledIff(rest, timeout);
      if m: nat :| FoundAt(rest, timeout, m) {
        assert FoundAt(answers, timeout, m + 1) by {
          assert forall i :: 1 <= i <= m ==> answers[i] == rest[i - 1];
        }
      }
      if n: nat :| FoundAt(answers, timeout, n) {
        FoundMeans(answers, timeout, n);
      }
    } else if answers != [] && answers[0].HasEvent? {
      assert FoundAt(answers, timeout, 0);
    }
  }

  /** The reply to any answers: the event of the attempt that finds one, reported only if that is
      the first; and with none, nothing. */
  lemma ReplyMeans(answers: seq<Answer>, timeout: real)
    ensures forall n: nat :: FoundAt(answers, timeout, n) ==>
      Process(answers, timeout) == Reply(n == 0, Some(answers[n].event))
    ensures (forall n: nat :: !FoundAt(answers, timeout, n)) ==> Process(answers, timeout) == Reply(false, None)
  {
    FilledIff(answers, timeout);
    forall n: nat | FoundAt(answers, timeout, n)
      ensures Process(answers, timeout) == Reply(n == 0, Some(answers[n].event))
    {
      FoundMeans(answers, timeout, n);
    }
  }

  /** "Returns true iff an event was available" holds exactly when no attempt after the first
      finds the event. */
  lemma ReplyIsTruthfulIff(answers: seq<Answer>, timeout: real)
    ensures (Process(answers, timeout).available <==> Process(answers, timeout).filled.Some?) <==>
      !exists n: nat :: n > 0 && FoundAt(answers, timeout, n)
  {
    FilledIff(answers, timeout);
    assert Process(answers, timeout).available <==> FoundAt(answers, timeout, 0);
  }

  /** Waiting forever always fills the event in the end, yet reports failure unless the very
      first answer was an event. */
  lemma {:induction false} InfiniteWaitDropsResult(answers: seq<Answer>, event: Event, timeout: real)
    requires timeout < 0.0
    requires forall a <- answers :: a.NoEvent?
    ensures Process(answers + [HasEvent(event)], timeout) == Reply(answers == [], Some(event))
  {
    var all := answers + [HasEvent(event)];
    if answers == [] {
      assert all[0] == HasEvent(event);
    } else {
      assert all[0] == answers[0] && answers[0] in answers;
      InfiniteWaitDropsResult(answers[1..], event, timeout);
      assert all[1..] == answers[1..] + [HasEvent(event)];
    }
  }
}
