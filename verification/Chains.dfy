/** Runs of any transition system, and what they put out. */
module Chains {
  import opened Sequences

  datatype Chain<S, L> = Chain(ss: seq<S>, ls: seq<L>)

  /** A run of the steps labelled ls through the states ss, from s to s'. */
  ghost predicate Leads<S(!new), L(!new)>(step: (S, L, S) -> bool, s: S, c: Chain<S, L>, s': S) {
    && |c.ss| == |c.ls| + 1 && c.ss[0] == s && c.ss[|c.ls|] == s'
    && forall i {:trigger c.ls[i]} :: 0 <= i < |c.ls| ==> step(c.ss[i], c.ls[i], c.ss[i + 1])
  }

  /** What the first n steps put out. */
  function Outputs<S, L, O>(out: (S, L) -> seq<O>, c: Chain<S, L>, n: nat): seq<O>
    requires n <= |c.ls| < |c.ss|
  {
    if n == 0 then [] else Outputs(out, c, n - 1) + out(c.ss[n - 1], c.ls[n - 1])
  }

  function Joined<S, L>(a: Chain<S, L>, b: Chain<S, L>): Chain<S, L>
    requires b.ss != []
  {
    Chain(a.ss + b.ss[1..], a.ls + b.ls)
  }

  // c goes on with b where a ends.
  ghost predicate IsJoin<S(!new), L(!new)>(a: Chain<S, L>, b: Chain<S, L>, c: Chain<S, L>) {
    var n := |a.ls|;
    && |a.ss| == n + 1 && |b.ss| == |b.ls| + 1 && |c.ss| == |c.ls| + 1 && |c.ls| == n + |b.ls|
    && (forall i {:trigger c.ls[i]} :: 0 <= i < n ==> c.ls[i] == a.ls[i] && c.ss[i] == a.ss[i])
    && (forall i {:trigger b.ls[i]} :: 0 <= i < |b.ls| ==> c.ls[n + i] == b.ls[i] && c.ss[n + i] == b.ss[i])
  }

  lemma JoinedIsJoin<S(!new), L(!new)>(a: Chain<S, L>, b: Chain<S, L>)
    requires |a.ss| == |a.ls| + 1 && |b.ss| == |b.ls| + 1 && a.ss[|a.ls|] == b.ss[0]
    ensures IsJoin(a, b, Joined(a, b))
  {
  }

  lemma JoinLeads<S(!new), L(!new)>(step: (S, L, S) -> bool, s: S, a: Chain<S, L>, m: S, b: Chain<S, L>, s': S)
    requires Leads(step, s, a, m) && Leads(step, m, b, s')
    ensures Leads(step, s, Joined(a, b), s')
  {
    var c, n := Joined(a, b), |a.ls|;
    forall i {:trigger c.ls[i]} | 0 <= i < |c.ls|
      ensures step(c.ss[i], c.ls[i], c.ss[i + 1])
    {
      if i < n {
        assert c.ls[i] == a.ls[i] && c.ss[i] == a.ss[i] && c.ss[i + 1] == a.ss[i + 1];
      } else {
        var j := i - n;
        assert c.ls[i] == b.ls[j] && c.ss[i] == b.ss[j] && c.ss[i + 1] == b.ss[j + 1];
      }
    }
  }

  lemma {:induction false} FirstOutputs<S(!new), L(!new), O>(
    out: (S, L) -> seq<O>, a: Chain<S, L>, b: Chain<S, L>, c: Chain<S, L>, n: nat)
    requires IsJoin(a, b, c) && n <= |a.ls|
    ensures Outputs(out, c, n) == Outputs(out, a, n)
  {
    if n > 0 {
      FirstOutputs(out, a, b, c, n - 1);
      assert c.ls[n - 1] == a.ls[n - 1];
    }
  }

  lemma {:induction false} NextOutputs<S(!new), L(!new), O>(
    out: (S, L) -> seq<O>, a: Chain<S, L>, b: Chain<S, L>, c: Chain<S, L>, n: nat)
    requires IsJoin(a, b, c) && n <= |b.ls|
    ensures Outputs(out, c, |a.ls| + n) == Outputs(out, a, |a.ls|) + Outputs(out, b, n)
  {
    if n == 0 {
      FirstOutputs(out, a, b, c, |a.ls|);
    } else {
      NextOutputs(out, a, b, c, n - 1);
      var l := b.ls[n - 1];
      Assoc(Outputs(out, a, |a.ls|), Outputs(out, b, n - 1), out(b.ss[n - 1], l));
    }
  }

  lemma JoinOutputs<S(!new), L(!new), O>(out: (S, L) -> seq<O>, a: Chain<S, L>, b: Chain<S, L>)
    requires |a.ss| == |a.ls| + 1 && |b.ss| == |b.ls| + 1 && a.ss[|a.ls|] == b.ss[0]
    ensures |Joined(a, b).ss| == |Joined(a, b).ls| + 1
    ensures Outputs(out, Joined(a, b), |Joined(a, b).ls|) == Outputs(out, a, |a.ls|) + Outputs(out, b, |b.ls|)
  {
    JoinedIsJoin(a, b);
    NextOutputs(out, a, b, Joined(a, b), |b.ls|);
  }

  lemma {:induction false} NoOutputs<S, L, O>(out: (S, L) -> seq<O>, c: Chain<S, L>, n: nat)
    requires n <= |c.ls| < |c.ss|
    requires forall i {:trigger c.ls[i]} :: 0 <= i < n ==> out(c.ss[i], c.ls[i]) == []
    ensures Outputs(out, c, n) == []
  {
    if n > 0 {
      NoOutputs(out, c, n - 1);
      var l := c.ls[n - 1];
    }
  }
}
