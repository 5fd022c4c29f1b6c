/** The timers while the main loop runs: its checks and its handlers' calls are one run of the timer
    machine, and the timer events it dispatches are those of the timers this run serves. */
module LoopTimers {
  import opened Options
  import opened EventStore
  import opened QueueSpec
  import opened LoopSpec
  import opened Chains
  import opened Sequences
  import opened TimerHeap
  import Timers

  type Timing = Chain<Timers.State, Timers.Label>

  ghost function TimerStep(): (Timers.State, Timers.Label, Timers.State) -> bool {
    (s, l, s') => Timers.Step(s, l, s')
  }

  /** The target of the timer a step serves, if any. */
  ghost function Target(): (Timers.State, Timers.Label) -> seq<nat> {
    (s, l) => var served := Timers.Served(s, l); if served.Some? then [served.value.target] else []
  }

  /** A run of the timer machine from s to s' that serves timers with the given targets. */
  ghost predicate Serves(s: Timers.State, c: Timing, s': Timers.State, targets: seq<nat>) {
    Leads(TimerStep(), s, c, s') && Outputs(Target(), c, |c.ls|) == targets
  }

  lemma JoinServes(
    s: Timers.State, a: Timing, m: Timers.State, b: Timing, s': Timers.State, x: seq<nat>, y: seq<nat>, z: seq<nat>)
    returns (c: Timing)
    requires Serves(s, a, m, x) && Serves(m, b, s', y) && z == x + y
    ensures c.ls == a.ls + b.ls && Serves(s, c, s', z)
  {
    JoinLeads(TimerStep(), s, a, m, b, s');
    JoinOutputs(Target(), a, b);
    c := Joined(a, b);
  }

  lemma ServesIsRun(s: Timers.State, c: Timing, s': Timers.State, targets: seq<nat>)
    requires Serves(s, c, s', targets) && Timers.Valid(s)
    ensures Timers.Run(c.ss, c.ls) && Timers.Valid(s')
  {
    forall i {:trigger c.ls[i]} | 0 <= i < |c.ls|
      ensures Timers.Step(c.ss[i], c.ls[i], c.ss[i + 1])
    {
      assert TimerStep()(c.ss[i], c.ls[i], c.ss[i + 1]);
    }
    Timers.RunValid(c.ss, c.ls, |c.ls|);
  }

  /** A run that serves no timer. */
  lemma QuietServes(c: Timing)
    requires Timers.Run(c.ss, c.ls)
    requires forall i {:trigger c.ls[i]} :: 0 <= i < |c.ls| ==> Timers.Served(c.ss[i], c.ls[i]) == None
    ensures Serves(c.ss[0], c, c.ss[|c.ls|], [])
  {
    NoOutputs(Target(), c, |c.ls|);
  }

  // ---------------------------------------------------------------- a getEvent call

  function Checks(ticks: seq<Tick>): (ls: seq<Timers.Label>)
    ensures |ls| == |ticks| && forall i :: 0 <= i < |ticks| ==> ls[i] == CheckOf(ticks[i])
  {
    seq(|ticks|, i requires 0 <= i < |ticks| => CheckOf(ticks[i]))
  }

  ghost function Clocks(ss: seq<Instant>): (cs: seq<Timers.State>)
    ensures |cs| == |ss| && forall i :: 0 <= i < |ss| ==> cs[i] == ss[i].clock
  {
    seq(|ss|, i requires 0 <= i < |ss| => ss[i].clock)
  }

  /** The turns that wait check the timers and serve none. */
  lemma WaitedServes(ready: bool, ss: seq<Instant>, ticks: seq<Tick>, waits: seq<real>, timeout: real)
    requires Waited(ready, ss, ticks, waits, timeout) && Timers.Valid(ss[0].clock)
    ensures Serves(ss[0].clock, Chain(Clocks(ss), Checks(ticks[..|waits|])), ss[|waits|].clock, [])
  {
    var c := Chain(Clocks(ss), Checks(ticks[..|waits|]));
    forall i {:trigger c.ls[i]} | 0 <= i < |waits|
      ensures Timers.Step(c.ss[i], c.ls[i], c.ss[i + 1]) && Timers.Served(c.ss[i], c.ls[i]) == None
    {
      assert Turn(ready, ss[i], ticks[i], timeout, waits[i], ss[i + 1]);
    }
    QuietServes(c);
  }

  /** The script's turns that a call to a loop's getEvent checks: those that wait, and one more for
      a timer's event. */
  function Used(p: Passage, e: Event): nat {
    |p.waits| + if e.kind.Timer? then 1 else 0
  }

  function IfTimer(e: Event): seq<nat> {
    if e.kind.Timer? then [e.target] else []
  }

  lemma CheckServes(s: Timers.State, tick: Tick, timeout: real, e: Event, s': Timers.State)
    requires Checked(s, tick, timeout, Some(TimerExpired), e, 0.0, s')
    ensures Serves(s, Chain([s, s'], [CheckOf(tick)]), s', [e.target])
  {
    var c := Chain([s, s'], [CheckOf(tick)]);
    assert Outputs(Target(), c, 0) == [];
    assert Outputs(Target(), c, 1) == [e.target];
  }

  // The check that ends a call with a timer's event, after the turns that waited.
  lemma LastCheck(s: Timers.State, c: Timing, m: Timers.State, ticks: seq<Tick>, n: nat, e: Event, s': Timers.State)
    returns (all: Timing)
    requires n < |ticks| && c.ls == Checks(ticks[..n]) && Serves(s, c, m, [])
    requires Serves(m, Chain([m, s'], [CheckOf(ticks[n])]), s', [e.target])
    ensures all.ls == Checks(ticks[..n + 1]) && Serves(s, all, s', [e.target])
  {
    var b := Chain([m, s'], [CheckOf(ticks[n])]);
    ChecksNext(ticks, n);
    all := JoinServes(s, c, m, b, s', [], [e.target], [e.target]);
  }

  lemma ChecksNext(ticks: seq<Tick>, n: nat)
    requires n < |ticks|
    ensures Checks(ticks[..n]) + [CheckOf(ticks[n])] == Checks(ticks[..n + 1])
  {
  }

  lemma TimerGot(s: Instant, script: seq<Tick>, e: Event, p: Passage, s': Instant)
    requires Got(true, s, script, -1.0, TimerExpired, e, p, s')
    ensures var n := |p.waits|;
      && Waited(true, p.ss, script, p.waits, -1.0) && p.ss[0] == s && n < |script|
      && Serves(p.ss[n].clock, Chain([p.ss[n].clock, s'.clock], [CheckOf(script[n])]), s'.clock, [e.target])
  {
    CheckServes(p.ss[|p.waits|].clock, script[|p.waits|], -1.0, e, s'.clock);
  }

  /** A call checks the timers once a turn and serves one exactly if it reports a timer's event,
      which then goes to that timer's target. */
  lemma GotServes(s: Instant, script: seq<Tick>, e: Event, p: Passage, s': Instant) returns (c: Timing)
    requires Got(true, s, script, -1.0, OutcomeFor(e), e, p, s') && Timers.Valid(s.clock)
    ensures Used(p, e) <= |script| && c.ls == Checks(script[..Used(p, e)])
    ensures Serves(s.clock, c, s'.clock, IfTimer(e))
  {
    var n := |p.waits|;
    c := Chain(Clocks(p.ss), Checks(script[..n]));
    WaitedServes(true, p.ss, script, p.waits, -1.0);
    if e.kind.Timer? {
      TimerGot(s, script, e, p, s');
      c := LastCheck(s.clock, c, p.ss[n].clock, script, n, e, s'.clock);
    }
  }

  // ---------------------------------------------------------------- rounds

  lemma {:induction false} CallsCheckNothing(ids: set<TimerId>, calls: seq<Timers.Label>, i: nat)
    requires CallsAllowed(ids, calls) && i < |calls|
    ensures !calls[i].Check?
    decreases i
  {
    if i > 0 {
      CallsCheckNothing(IdsAfter(ids, calls[0]), calls[1..], i - 1);
    }
  }

  /** What a round does to the timers: its call's checks, then its handler's calls. */
  function RoundLabels(handler: Handler, script: seq<Tick>, n: nat, r: Round, p: Passage): seq<Timers.Label> {
    Checks(if Used(p, r.event) <= |script| then script[..Used(p, r.event)] else script) + handler.timers(n, r.event)
  }

  lemma CallsServe(ids: set<TimerId>, c: Timing)
    requires CallsAllowed(ids, c.ls) && Timers.Run(c.ss, c.ls)
    ensures Serves(c.ss[0], c, c.ss[|c.ls|], [])
  {
    forall i {:trigger c.ls[i]} | 0 <= i < |c.ls|
      ensures Timers.Served(c.ss[i], c.ls[i]) == None
    {
      CallsCheckNothing(ids, c.ls, i);
    }
    QuietServes(c);
  }

  lemma RoundServes(
    handler: Handler, script: seq<Tick>, n: nat, r: Round, c: Course, s: Instant, s': Instant)
    returns (chain: Timing)
    requires Dispatches(handler, script, n, r, c, s, s') && Timers.Valid(s.clock)
    ensures chain.ls == RoundLabels(handler, script, n, r, c.call)
    ensures Serves(s.clock, chain, s'.clock, IfTimer(r.event))
  {
    var b := Chain(c.timers, handler.timers(n, r.event));
    var got := GotServes(s, script, r.event, c.call, c.got);
    CallsServe(c.got.clock.ids, b);
    chain := JoinServes(s.clock, got, c.got.clock, b, s'.clock, IfTimer(r.event), [], IfTimer(r.event));
  }

  ghost function Labels(
    handler: Handler, scripts: seq<seq<Tick>>, log: seq<Round>, cs: seq<Course>, n: nat): seq<Timers.Label>
    requires n <= |log| <= |scripts| && |cs| == |log|
  {
    if n == 0 then []
    else
      Labels(handler, scripts, log, cs, n - 1)
      + RoundLabels(handler, scripts[n - 1], n - 1, log[n - 1], cs[n - 1].call)
  }

  /** The targets of the timer events among the first n rounds. */
  function TimerTargets(log: seq<Round>, n: nat): seq<nat>
    requires n <= |log|
  {
    if n == 0 then [] else TimerTargets(log, n - 1) + IfTimer(log[n - 1].event)
  }

  lemma RoundServesAt(
    handler: Handler, scripts: seq<seq<Tick>>, log: seq<Round>, cs: seq<Course>, ss: seq<Instant>, n: nat)
    returns (chain: Timing)
    requires Rounds(handler, scripts, log, cs, ss) && n < |log| && Timers.Valid(ss[n].clock)
    ensures chain.ls == RoundLabels(handler, scripts[n], n, log[n], cs[n].call)
    ensures Serves(ss[n].clock, chain, ss[n + 1].clock, IfTimer(log[n].event))
  {
    assert RoundAt(handler, scripts, log, cs, ss, n);
    chain := RoundServes(handler, scripts[n], n, log[n], cs[n], ss[n], ss[n + 1]);
  }

  ghost predicate ServesTo(
    handler: Handler, scripts: seq<seq<Tick>>, log: seq<Round>, cs: seq<Course>, ss: seq<Instant>, n: nat, c: Timing)
    requires n <= |log| <= |scripts| && |cs| == |log| && |ss| == |log| + 1
  {
    c.ls == Labels(handler, scripts, log, cs, n) && Serves(ss[0].clock, c, ss[n].clock, TimerTargets(log, n))
  }

  lemma ServesNext(
    handler: Handler, scripts: seq<seq<Tick>>, log: seq<Round>, cs: seq<Course>, ss: seq<Instant>, n: nat,
    front: Timing)
    returns (chain: Timing)
    requires Rounds(handler, scripts, log, cs, ss) && n < |log| && Timers.Valid(ss[n].clock)
    requires ServesTo(handler, scripts, log, cs, ss, n, front)
    ensures ServesTo(handler, scripts, log, cs, ss, n + 1, chain)
  {
    var next := RoundServesAt(handler, scripts, log, cs, ss, n);
    chain := JoinServes(
      ss[0].clock, front, ss[n].clock, next, ss[n + 1].clock, TimerTargets(log, n), IfTimer(log[n].event),
      TimerTargets(log, n + 1));
  }

  lemma ServesNothing(
    handler: Handler, scripts: seq<seq<Tick>>, log: seq<Round>, cs: seq<Course>, ss: seq<Instant>)
    returns (chain: Timing)
    requires Rounds(handler, scripts, log, cs, ss)
    ensures ServesTo(handler, scripts, log, cs, ss, 0, chain)
  {
    chain := Chain([ss[0].clock], []);
  }

  lemma ServesValid(
    handler: Handler, scripts: seq<seq<Tick>>, log: seq<Round>, cs: seq<Course>, ss: seq<Instant>, n: nat, c: Timing)
    requires Rounds(handler, scripts, log, cs, ss) && n <= |log| && Timers.Valid(ss[0].clock)
    requires ServesTo(handler, scripts, log, cs, ss, n, c)
    ensures Timers.Valid(ss[n].clock)
  {
    ServesIsRun(ss[0].clock, c, ss[n].clock, TimerTargets(log, n));
  }

  lemma {:induction false} RoundsServe(
    handler: Handler, scripts: seq<seq<Tick>>, log: seq<Round>, cs: seq<Course>, ss: seq<Instant>, n: nat)
    returns (chain: Timing)
    requires Rounds(handler, scripts, log, cs, ss) && n <= |log| && Timers.Valid(ss[0].clock)
    ensures ServesTo(handler, scripts, log, cs, ss, n, chain)
  {
    if n == 0 {
      chain := ServesNothing(handler, scripts, log, cs, ss);
    } else {
      var front := RoundsServe(handler, scripts, log, cs, ss, n - 1);
      ServesValid(handler, scripts, log, cs, ss, n - 1, front);
      chain := ServesNext(handler, scripts, log, cs, ss, n - 1, front);
    }
  }

  /** In each round the handler's calls, all of them, take the timers from where getEvent left them to
      the start of the next round... */
  lemma HandlersCall(
    handler: Handler, scripts: seq<seq<Tick>>, log: seq<Round>, cs: seq<Course>, ss: seq<Instant>, n: nat)
    requires Rounds(handler, scripts, log, cs, ss) && n < |log|
    ensures var calls, made := handler.timers(n, log[n].event), cs[n].timers;
      Timers.Run(made, calls) && made[0] == cs[n].got.clock && made[|calls|] == ss[n + 1].clock
  {
    assert RoundAt(handler, scripts, log, cs, ss, n);
  }

  /** ...and the loop's run lists them behind the readings of the round's turns: those that wait, and
      one more if it gets a timer's event. */
  lemma CallsListed(
    handler: Handler, scripts: seq<seq<Tick>>, log: seq<Round>, cs: seq<Course>, ss: seq<Instant>, n: nat)
    returns (checks: seq<Timers.Label>)
    requires Rounds(handler, scripts, log, cs, ss) && n < |log| && Timers.Valid(ss[n].clock)
    ensures Labels(handler, scripts, log, cs, n + 1)
         == (Labels(handler, scripts, log, cs, n) + checks) + handler.timers(n, log[n].event)
    ensures |checks| == |cs[n].call.waits| + (if log[n].event.kind.Timer? then 1 else 0) <= |scripts[n]|
    ensures forall i :: 0 <= i < |checks| ==> checks[i] == Timers.Check(scripts[n][i].read, scripts[n][i].reset)
  {
    var before, used := Labels(handler, scripts, log, cs, n), Used(cs[n].call, log[n].event);
    assert RoundAt(handler, scripts, log, cs, ss, n);
    var _ := GotServes(ss[n], scripts[n], log[n].event, cs[n].call, cs[n].got);
    checks := Checks(scripts[n][..used]);
    Assoc(before, checks, handler.timers(n, log[n].event));
  }

  /** The checks of the loop and its handlers' timer calls are one run of the timer machine, and the
      timer events dispatched go, in order, to the targets of the timers it serves. */
  lemma LoopTiming(
    handler: Handler, scripts: seq<seq<Tick>>, log: seq<Round>, cs: seq<Course>, ss: seq<Instant>)
    returns (states: seq<Timers.State>, labels: seq<Timers.Label>)
    requires Rounds(handler, scripts, log, cs, ss) && Timers.Valid(ss[0].clock)
    ensures labels == Labels(handler, scripts, log, cs, |log|) && Timers.Run(states, labels)
    ensures states[0] == ss[0].clock && states[|labels|] == ss[|log|].clock
    ensures Outputs(Target(), Chain(states, labels), |labels|) == TimerTargets(log, |log|)
  {
    var chain := RoundsServe(handler, scripts, log, cs, ss, |log|);
    ServesIsRun(ss[0].clock, chain, ss[|log|].clock, TimerTargets(log, |log|));
    states, labels := chain.ss, chain.ls;
  }
}
