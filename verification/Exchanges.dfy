/** The `fetch_update` loops of the protocol, over runs: from its first load until it is done, each
    writes the count exactly once, whatever the other threads do meanwhile. */
module Exchanges {
  import opened Protocol
  import opened Invariant
  import opened Steps
  import opened Safety

  predicate IdleAt(s: State, t: Tid) {
    t < |s.pcs| && s.pcs[t] == Idle
  }

  /** Thread `t` is inside an operation until the last of the steps, which ends it. */
  predicate Spans(c: Config, s: State, t: Tid, steps: seq<Step>)
    requires Runs(c, s, steps)
    decreases |steps|
  {
    steps != []
    && var r := Apply(c, s, steps[0]);
       if |steps| == 1 then IdleAt(r, t) else !IdleAt(r, t) && Spans(c, r, t, steps[1..])
  }

  /** The messages that `t` appends. */
  function Writes(c: Config, s: State, t: Tid, steps: seq<Step>): seq<nat>
    requires Runs(c, s, steps)
    decreases |steps|
  {
    if steps == [] then []
    else
      var r := Apply(c, s, steps[0]);
      (if steps[0].t == t && |s.hist| < |r.hist| then [|s.hist|] else []) + Writes(c, r, t, steps[1..])
  }

  /** What another thread does leaves `t` where it is. */
  lemma OthersKeep(c: Config, s: State, step: Step, t: Tid)
    requires Enabled(c, s, step) && step.t != t && t < c.n
    ensures var r := Apply(c, s, step); |r.pcs| == |s.pcs| && r.pcs[t] == s.pcs[t]
  {
  }

  /** The holder that a step changes, if there is one. */
  function Changed(s: State, step: Step): nat {
    match step
    case CloneCheck(t) => if t < |s.pcs| && s.pcs[t].Cloning? then s.pcs[t].p else |s.hs|
    case IterDropCas(t, _, _) => if t < |s.pcs| && s.pcs[t].Returning? then s.pcs[t].i else |s.hs|
    case IterNext(_, x) => x
    case IterDrop(_, x, _) => x
    case DropSub(_, x) => x
    case IsUnique(_, x, _) => x
    case Shareable(_, x) => x
    case IntoInner(_, x) => x
    case Send(_, x, _) => x
    case Return(_, x) => x
    case Forget(_, x) => x
    case WithStrategy(_, x, _) => x
    case _ => |s.hs|
  }

  lemma OnlyChanged(c: Config, s: State, step: Step, i: nat)
    requires Enabled(c, s, step) && i < |s.hs| && i != Changed(s, step)
    ensures var r := Apply(c, s, step); i < |r.hs| && r.hs[i] == s.hs[i]
  {
  }

  /** It also leaves the iterators of `t` as they are. */
  lemma OthersLeave(c: Config, s: State, step: Step, i: nat)
    requires PcsOk(s) && Enabled(c, s, step) && i < |s.hs| && s.hs[i].kind == Iter && s.hs[i].at != step.t
    ensures var r := Apply(c, s, step); i < |r.hs| && r.hs[i] == s.hs[i]
  {
    assert PcAt(s, step.t);
    OnlyChanged(c, s, step, i);
  }

  /** Message `a` is the newest, and is the one before it plus `n`, within the limit; what that one
      released is released still. */
  predicate Added(hist: seq<Msg>, a: nat, n: nat, max: nat) {
    0 < a == |hist| - 1 && hist[a].value == hist[a - 1].value + n <= max && hist[a].seen == hist[a - 1].seen
  }

  /** The same, less `n`, of which something is left. */
  predicate Subtracted(hist: seq<Msg>, a: nat, n: nat) {
    0 < a == |hist| - 1 && 0 < hist[a].value == hist[a - 1].value - n && hist[a].seen == hist[a - 1].seen
  }

  /** One step of a thread that is reserving. */
  lemma ReservingStep(c: Config, s: State, t: Tid, step: Step)
    requires Enabled(c, s, step) && step.t == t && t < c.n && s.pcs[t].Reserving? && !Apply(c, s, step).aborted
    ensures var r := Apply(c, s, step); var n := s.pcs[t].n;
            && step.IterCas? && |r.pcs| == |s.pcs|
            && if IdleAt(r, t) then |r.hist| == |s.hist| + 1 && Added(r.hist, |s.hist|, n, c.max)
               else r.hist == s.hist && r.pcs[t].Reserving? && r.pcs[t].n == n
  {
    assert Last(s).seen + {} == Last(s).seen;
  }

  /** After an abort nothing happens. */
  lemma {:induction false} NotAborted(c: Config, s: State, t: Tid, steps: seq<Step>)
    requires Runs(c, s, steps) && steps != [] && Runs(c, Apply(c, s, steps[0]), steps[1..])
    requires |steps| == 1 ==> IdleAt(Apply(c, s, steps[0]), t)
    requires t < |s.pcs| && s.pcs[t] != Idle && steps[0].t == t
    ensures !Apply(c, s, steps[0]).aborted
  {
    var r := Apply(c, s, steps[0]);
    assert 1 < |steps| ==> Enabled(c, r, steps[1..][0]);
  }

  lemma {:induction false} ReserveRun(c: Config, s: State, t: Tid, steps: seq<Step>) returns (a: nat)
    requires Runs(c, s, steps) && t < |s.pcs| && s.pcs[t].Reserving? && Spans(c, s, t, steps)
    ensures Writes(c, s, t, steps) == [a] && |s.hist| <= a && Added(Exec(c, s, steps).hist, a, s.pcs[t].n, c.max)
    decreases |steps|
  {
    var r := Apply(c, s, steps[0]);
    if steps[0].t == t {
      NotAborted(c, s, t, steps);
      ReservingStep(c, s, t, steps[0]);
    } else {
      OthersKeep(c, s, steps[0], t);
    }
    if |steps| == 1 {
      a := |s.hist|;
      assert steps[1..] == [];
    } else {
      a := ReserveRun(c, r, t, steps[1..]);
      HistGrows(c, s, steps[0]);
    }
  }

  lemma HistGrows(c: Config, s: State, step: Step)
    requires Enabled(c, s, step)
    ensures s.hist <= Apply(c, s, step).hist
  {
  }

  /** `ArcCloneIter::new`, from its load until it returns: of all messages appended meanwhile one is
      this thread's, and it is one checked addition of `n` to the message right before it. */
  lemma ReserveIsOneAdd(c: Config, s: State, t: Tid, x: nat, n: nat, k: nat, steps: seq<Step>) returns (a: nat)
    requires Runs(c, s, steps) && steps != [] && steps[0] == IterLoad(t, x, n, k) && Spans(c, s, t, steps)
    ensures Writes(c, s, t, steps) == [a] && |s.hist| <= a
    ensures Added(Exec(c, s, steps).hist, a, n, c.max)
  {
    a := ReserveRun(c, Apply(c, s, steps[0]), t, steps[1..]);
  }

  /** One step of a thread that is giving back the leftover of iterator `i`. */
  lemma ReturningStep(c: Config, s: State, t: Tid, step: Step)
    requires Inv(c, s) && Enabled(c, s, step) && step.t == t && t < c.n && s.pcs[t].Returning?
    ensures var r := Apply(c, s, step); var i := s.pcs[t].i;
            && i < |s.hs| && step.IterDropCas? && |r.pcs| == |s.pcs|
            && if IdleAt(r, t) then |r.hist| == |s.hist| + 1 && Subtracted(r.hist, |s.hist|, s.hs[i].weight)
               else r.hist == s.hist && r.hs == s.hs && r.pcs[t].Returning? && r.pcs[t].i == i
  {
    GiveBackRoom(c, s, t, s.pcs[t].i);
    IterDropCasKeeps(c, s, t, step.ok, step.k);
    assert Last(s).seen + {} == Last(s).seen;
  }

  lemma {:induction false} ReturnRun(c: Config, s: State, t: Tid, steps: seq<Step>) returns (a: nat)
    requires AsWritten(c) && c.n <= c.max && Inv(c, s)
    requires Runs(c, s, steps) && t < |s.pcs| && s.pcs[t].Returning? && Spans(c, s, t, steps)
    ensures var i := s.pcs[t].i;
            && i < |s.hs| && Writes(c, s, t, steps) == [a] && |s.hist| <= a
            && Subtracted(Exec(c, s, steps).hist, a, s.hs[i].weight)
    decreases |steps|
  {
    var r := Apply(c, s, steps[0]);
    var i := s.pcs[t].i;
    StepKeeps(c, s, steps[0]);
    if steps[0].t == t {
      ReturningStep(c, s, t, steps[0]);
    } else {
      assert PcAt(s, t);
      OthersKeep(c, s, steps[0], t);
      OthersLeave(c, s, steps[0], i);
    }
    if |steps| == 1 {
      a := |s.hist|;
      assert steps[1..] == [];
    } else {
      a := ReturnRun(c, r, t, steps[1..]);
      HistGrows(c, s, steps[0]);
    }
  }

  /** `Drop` of an iterator with something left, from its load until it returns: one subtraction of
      the leftover from the message right before, to something above 0. */
  lemma LeftoverIsOneSub(c: Config, s: State, t: Tid, x: nat, k: nat, steps: seq<Step>) returns (a: nat)
    requires Live(c, s) && Runs(c, s, steps) && steps != [] && steps[0] == IterDrop(t, x, k)
    requires 0 < s.hs[x].weight && Spans(c, s, t, steps)
    ensures Writes(c, s, t, steps) == [a] && |s.hist| <= a
    ensures Subtracted(Exec(c, s, steps).hist, a, s.hs[x].weight)
  {
    ReachableInv(c, s);
    StepKeeps(c, s, steps[0]);
    a := ReturnRun(c, Apply(c, s, steps[0]), t, steps[1..]);
  }
}
