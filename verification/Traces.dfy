/** Runs of the protocol as sequences of states, and what can be said of them step by step. */
module Traces {
  import opened Protocol
  import opened Invariant
  import opened Safety

  /** A run from `Arc::new` on thread `t0`: step `j` leads from state `j` to state `j + 1`. */
  ghost predicate Trace(c: Config, t0: Tid, strategy: nat, ss: seq<State>, steps: seq<Step>) {
    && t0 < c.n && |ss| == |steps| + 1 && ss[0] == Init(c, t0, strategy)
    && forall j: nat :: TraceStep(c, ss, steps, j)
  }

  predicate TraceStep(c: Config, ss: seq<State>, steps: seq<Step>, j: nat) {
    j < |steps| && j + 1 < |ss| ==> Enabled(c, ss[j], steps[j]) && ss[j + 1] == Apply(c, ss[j], steps[j])
  }

  /** Every run is one. */
  lemma {:induction false} TraceOf(c: Config, s: State, steps: seq<Step>) returns (ss: seq<State>)
    requires Runs(c, s, steps)
    ensures |ss| == |steps| + 1 && ss[0] == s && ss[|steps|] == Exec(c, s, steps)
    ensures forall j: nat :: TraceStep(c, ss, steps, j)
    decreases |steps|
  {
    if steps == [] {
      ss := [s];
    } else {
      var rest := TraceOf(c, Apply(c, s, steps[0]), steps[1..]);
      ss := [s] + rest;
      forall j: nat ensures TraceStep(c, ss, steps, j) {
        assert j != 0 ==> TraceStep(c, rest, steps[1..], j - 1);
      }
    }
  }

  lemma {:induction false} RunOf(c: Config, ss: seq<State>, steps: seq<Step>, n: nat)
    requires |ss| == |steps| + 1 && n <= |steps| && forall j: nat :: TraceStep(c, ss, steps, j)
    ensures Runs(c, ss[n], steps[n..]) && Exec(c, ss[n], steps[n..]) == ss[|steps|]
    decreases |steps| - n
  {
    if n < |steps| {
      assert TraceStep(c, ss, steps, n);
      assert steps[n..][0] == steps[n] && steps[n..][1..] == steps[n + 1..];
      RunOf(c, ss, steps, n + 1);
    }
  }

  lemma Prefix(c: Config, t0: Tid, strategy: nat, ss: seq<State>, steps: seq<Step>, n: nat)
    requires Trace(c, t0, strategy, ss, steps) && n <= |steps|
    ensures Trace(c, t0, strategy, ss[..n + 1], steps[..n])
  {
    var p, q := ss[..n + 1], steps[..n];
    forall j: nat ensures TraceStep(c, p, q, j) {
      assert TraceStep(c, ss, steps, j);
    }
  }

  /** Its states are the reachable ones. */
  lemma TraceReaches(c: Config, t0: Tid, strategy: nat, ss: seq<State>, steps: seq<Step>, n: nat)
    requires Trace(c, t0, strategy, ss, steps) && n <= |steps|
    ensures Reachable(c, ss[n])
  {
    Prefix(c, t0, strategy, ss, steps, n);
    RunOf(c, ss[..n + 1], steps[..n], 0);
    assert steps[..n][0..] == steps[..n];
  }

  /** A run of the protocol as the code has it. */
  ghost predicate Written(c: Config, t0: Tid, strategy: nat, ss: seq<State>, steps: seq<Step>) {
    AsWritten(c) && c.n <= c.max && Trace(c, t0, strategy, ss, steps)
  }

  lemma TraceInv(c: Config, t0: Tid, strategy: nat, ss: seq<State>, steps: seq<Step>, n: nat)
    requires Written(c, t0, strategy, ss, steps) && n <= |steps|
    ensures Inv(c, ss[n])
  {
    TraceReaches(c, t0, strategy, ss, steps, n);
    ReachableInv(c, ss[n]);
  }
}
