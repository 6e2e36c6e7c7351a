/** Double entry: what the calls of a run add and take, against the holders and the count it ends with. */
module Books {
  import opened Protocol
  import opened Invariant
  import opened Safety
  import opened Theorems
  import opened Exchanges
  import opened Traces

  // ---- What there is ----

  function One(h: Holder, kind: Kind): int {
    if h.kind == kind then 1 else 0
  }

  function Held(h: Holder, kind: Kind): int {
    if h.kind == kind then h.weight else 0
  }

  lemma {:induction false} KindUpdate(hs: seq<Holder>, x: nat, h: Holder, kind: Kind)
    requires x < |hs|
    ensures Number(hs[x := h], kind) == Number(hs, kind) - One(hs[x], kind) + One(h, kind)
    ensures Weight(hs[x := h], kind) == Weight(hs, kind) - Held(hs[x], kind) + Held(h, kind)
  {
    var n := |hs| - 1;
    if x == n {
      assert hs[x := h][..n] == hs[..n];
    } else {
      assert hs[x := h][..n] == hs[..n][x := h];
      KindUpdate(hs[..n], x, h, kind);
    }
  }

  lemma {:induction false} KindAppend(hs: seq<Holder>, h: Holder, kind: Kind)
    ensures Number(hs + [h], kind) == Number(hs, kind) + One(h, kind)
    ensures Weight(hs + [h], kind) == Weight(hs, kind) + Held(h, kind)
  {
    assert (hs + [h])[..|hs|] == hs;
  }

  // ---- What the calls add and take ----

  /** A holder of one kind becomes one of another; what is made was `Dead`, and so is what is gone. */
  function Shift(was: Kind, becomes: Kind, kind: Kind): int {
    (if kind == becomes then 1 else 0) - if kind == was then 1 else 0
  }

  /** The exchange of `clone_many` goes through. */
  predicate GoesThrough(c: Config, s: State, step: Step)
    requires Enabled(c, s, step)
  {
    step.IterCas? && step.ok && s.pcs[step.t].c + s.pcs[step.t].n <= c.max
  }

  /** What a step adds to the number of holders of each kind. */
  function Entry(c: Config, s: State, step: Step, kind: Kind): int
    requires Enabled(c, s, step)
  {
    match step
    case CloneAdd(_, _, _) => Shift(Dead, Pending, kind)
    case CloneCheck(t) => if s.pcs[t].prior <= c.max then Shift(Pending, Handle, kind) else 0
    case IterCas(_, _, _) => if GoesThrough(c, s, step) then Shift(Dead, Iter, kind) else 0
    case IterNext(_, _) => Shift(Dead, Handle, kind)
    case IterDrop(_, x, _) => if s.hs[x].weight == 0 then Shift(Iter, Borrow, kind) else 0
    case IterDropCas(_, ok, _) => if ok then Shift(Iter, Borrow, kind) else 0
    case DropSub(_, x) => Shift(s.hs[x].kind, Dead, kind)
    case IsUnique(_, _, _) => Shift(Handle, Unique, kind)
    case Shareable(_, _) => Shift(Unique, Handle, kind)
    case IntoInner(_, _) => Shift(Unique, Dead, kind)
    case Lend(_, _, _) => Shift(Dead, Borrow, kind)
    case Return(_, _) => Shift(Borrow, Dead, kind)
    case Forget(_, x) =>
      if s.hs[x].kind != Iter then Shift(s.hs[x].kind, Forgotten, kind)
      else Shift(Dead, Borrow, kind) + Shift(Iter, if s.hs[x].weight == 0 then Dead else Forgotten, kind)
    case _ => 0
  }

  /** What a step adds to what iterators have reserved. */
  function Reserves(c: Config, s: State, step: Step): int
    requires Enabled(c, s, step)
  {
    match step
    case IterCas(t, _, _) => if GoesThrough(c, s, step) then s.pcs[t].n else 0
    case IterNext(_, _) => -1
    case IterDropCas(t, ok, _) => if ok then 0 - s.hs[s.pcs[t].i].weight else 0
    case Forget(_, x) => if s.hs[x].kind == Iter then 0 - s.hs[x].weight else 0
    case _ => 0
  }

  /** What a step adds to what was forgotten: a handle, or the leftover of an iterator. */
  function Forgets(c: Config, s: State, step: Step): int
    requires Enabled(c, s, step)
  {
    if !step.Forget? then 0 else if s.hs[step.x].kind == Iter then s.hs[step.x].weight else 1
  }

  /** What a step adds to the count. */
  function Change(c: Config, s: State, step: Step): int
    requires Enabled(c, s, step)
  {
    match step
    case CloneAdd(_, _, _) => 1
    case IterCas(_, _, _) => Reserves(c, s, step)
    case IterDropCas(_, _, _) => Reserves(c, s, step)
    case DropSub(_, _) => -1
    case _ => 0
  }

  // ---- Every step does what its entry says ----

  /** The holders after a step in which holder `x` changes, if it is there, and one may be added. */
  predicate Becomes(s: State, r: State, x: nat) {
    && |s.hs| <= |r.hs| <= |s.hs| + 1
    && (x < |s.hs| ==> r.hs[..|s.hs|] == s.hs[x := r.hs[x]])
    && (|s.hs| <= x ==> r.hs[..|s.hs|] == s.hs)
  }

  lemma {:induction false} KindChange(s: State, r: State, x: nat, kind: Kind)
    requires Becomes(s, r, x)
    ensures Number(r.hs, kind) == Number(s.hs, kind)
                                  + (if x < |s.hs| then One(r.hs[x], kind) - One(s.hs[x], kind) else 0)
                                  + if |s.hs| < |r.hs| then One(r.hs[|s.hs|], kind) else 0
    ensures Weight(r.hs, kind) == Weight(s.hs, kind)
                                  + (if x < |s.hs| then Held(r.hs[x], kind) - Held(s.hs[x], kind) else 0)
                                  + if |s.hs| < |r.hs| then Held(r.hs[|s.hs|], kind) else 0
  {
    var hs := r.hs[..|s.hs|];
    if x < |s.hs| { KindUpdate(s.hs, x, r.hs[x], kind); }
    if |s.hs| < |r.hs| {
      assert r.hs == hs + [r.hs[|s.hs|]];
      KindAppend(hs, r.hs[|s.hs|], kind);
    } else {
      assert r.hs == hs;
    }
  }

  lemma StepBecomes(c: Config, s: State, step: Step)
    requires Enabled(c, s, step)
    ensures Becomes(s, Apply(c, s, step), Changed(s, step))
  {
    var r := Apply(c, s, step);
    AtMostOneMore(c, s, step);
    forall i | 0 <= i < |s.hs| && i != Changed(s, step) ensures r.hs[i] == s.hs[i] {
      OnlyChanged(c, s, step, i);
    }
  }

  lemma AtMostOneMore(c: Config, s: State, step: Step)
    requires Enabled(c, s, step)
    ensures |s.hs| <= |Apply(c, s, step).hs| <= |s.hs| + 1
  {
  }

  /** `clone` and the reservation of `clone_many`. */
  predicate Makes(step: Step) {
    step.CloneAdd? || step.CloneCheck? || step.IterLoad? || step.IterCas?
  }

  /** The other operations of an iterator. */
  predicate Spends(step: Step) {
    step.IterNext? || step.IterDrop? || step.IterDropCas?
  }

  /** Of the holder that changes and the one that is new. */
  predicate Entered(c: Config, s: State, step: Step, kind: Kind)
    requires Enabled(c, s, step)
  {
    var r := Apply(c, s, step);
    var x := Changed(s, step);
    var n := |s.hs|;
    && n <= |r.hs| && (x < n ==> x < |r.hs|)
    && Entry(c, s, step, kind) == (if x < n then One(r.hs[x], kind) - One(s.hs[x], kind) else 0)
                                  + if n < |r.hs| then One(r.hs[n], kind) else 0
  }

  lemma MakerEntry(c: Config, s: State, step: Step, kind: Kind)
    requires PcsOk(s) && Enabled(c, s, step) && kind != Dead && Makes(step)
    ensures Entered(c, s, step, kind)
  {
    assert PcAt(s, step.t);
  }

  lemma SpenderEntry(c: Config, s: State, step: Step, kind: Kind)
    requires PcsOk(s) && Enabled(c, s, step) && kind != Dead && Spends(step)
    ensures Entered(c, s, step, kind)
  {
    assert PcAt(s, step.t);
  }

  lemma ForgetEntry(c: Config, s: State, step: Step, kind: Kind)
    requires Enabled(c, s, step) && kind != Dead && step.Forget?
    ensures Entered(c, s, step, kind)
  {
  }

  lemma OtherEntry(c: Config, s: State, step: Step, kind: Kind)
    requires Enabled(c, s, step) && kind != Dead && !Makes(step) && !Spends(step) && !step.Forget?
    ensures Entered(c, s, step, kind)
  {
  }

  predicate Loaded(c: Config, s: State, step: Step)
    requires Enabled(c, s, step)
  {
    var r := Apply(c, s, step);
    var x := Changed(s, step);
    var n := |s.hs|;
    && n <= |r.hs| && (x < n ==> x < |r.hs|)
    && Reserves(c, s, step) == (if x < n then Held(r.hs[x], Iter) - Held(s.hs[x], Iter) else 0)
                               + (if n < |r.hs| then Held(r.hs[n], Iter) else 0)
    && Forgets(c, s, step) == (if x < n then Held(r.hs[x], Forgotten) - Held(s.hs[x], Forgotten) else 0)
                              + if n < |r.hs| then Held(r.hs[n], Forgotten) else 0
  }

  lemma MakerLoad(c: Config, s: State, step: Step)
    requires PcsOk(s) && Enabled(c, s, step) && Makes(step)
    ensures Loaded(c, s, step)
  {
    assert PcAt(s, step.t);
  }

  lemma SpenderLoad(c: Config, s: State, step: Step)
    requires PcsOk(s) && Enabled(c, s, step) && Spends(step)
    ensures Loaded(c, s, step)
  {
    assert PcAt(s, step.t);
  }

  lemma ForgetLoad(c: Config, s: State, step: Step)
    requires Shape(c, s) && Enabled(c, s, step) && step.Forget?
    ensures Loaded(c, s, step)
  {
  }

  lemma PassLoad(c: Config, s: State, step: Step)
    requires Enabled(c, s, step) && (step.Send? || step.Lend? || step.Return? || step.WithStrategy?)
    ensures Loaded(c, s, step)
  {
  }

  lemma OtherLoad(c: Config, s: State, step: Step)
    requires Enabled(c, s, step) && !Makes(step) && !Spends(step) && !step.Forget?
    ensures Loaded(c, s, step)
  {
    if step.Send? || step.Lend? || step.Return? || step.WithStrategy? {
      PassLoad(c, s, step);
    }
  }

  lemma {:induction false} StepEntry(c: Config, s: State, step: Step, kind: Kind)
    requires Shape(c, s) && PcsOk(s) && Enabled(c, s, step) && kind != Dead
    ensures Number(Apply(c, s, step).hs, kind) == Number(s.hs, kind) + Entry(c, s, step, kind)
  {
    StepBecomes(c, s, step);
    KindChange(s, Apply(c, s, step), Changed(s, step), kind);
    if Makes(step) {
      MakerEntry(c, s, step, kind);
    } else if Spends(step) {
      SpenderEntry(c, s, step, kind);
    } else if step.Forget? {
      ForgetEntry(c, s, step, kind);
    } else {
      OtherEntry(c, s, step, kind);
    }
  }

  lemma StepLoad(c: Config, s: State, step: Step)
    requires Shape(c, s) && PcsOk(s) && Enabled(c, s, step)
    ensures var r := Apply(c, s, step);
            && Weight(r.hs, Iter) == Weight(s.hs, Iter) + Reserves(c, s, step)
            && Weight(r.hs, Forgotten) == Weight(s.hs, Forgotten) + Forgets(c, s, step)
  {
    StepBecomes(c, s, step);
    KindChange(s, Apply(c, s, step), Changed(s, step), Iter);
    KindChange(s, Apply(c, s, step), Changed(s, step), Forgotten);
    if Makes(step) {
      MakerLoad(c, s, step);
    } else if Spends(step) {
      SpenderLoad(c, s, step);
    } else if step.Forget? {
      ForgetLoad(c, s, step);
    } else {
      OtherLoad(c, s, step);
    }
  }

  lemma StepChange(c: Config, s: State, step: Step)
    requires PcsOk(s) && Enabled(c, s, step) && InRange(c, s, step)
    ensures Last(Apply(c, s, step)).value == Last(s).value + Change(c, s, step)
  {
    assert PcAt(s, step.t);
  }

  /** The count does not wrap. */
  predicate InRange(c: Config, s: State, step: Step)
    requires 0 < |s.hist|
  {
    (step.CloneAdd? ==> Last(s).value < UsizeMax(c)) && (step.DropSub? ==> 0 < Last(s).value)
  }

  lemma StaysInRange(c: Config, s: State, step: Step)
    requires Live(c, s) && Enabled(c, s, step)
    ensures InRange(c, s, step)
  {
    CountBounded(c, s);
    assert step.CloneAdd? ==> Enabled(c, s, CloneAdd(step.t, step.x, step.strategy));
    assert step.DropSub? ==> Enabled(c, s, DropSub(step.t, step.x));
  }

  lemma CountStep(c: Config, s: State, step: Step)
    requires Live(c, s) && Enabled(c, s, step)
    ensures 0 < |Apply(c, s, step).hist| && Last(Apply(c, s, step)).value == Last(s).value + Change(c, s, step)
  {
    ReachableInv(c, s);
    StaysInRange(c, s, step);
    StepChange(c, s, step);
  }

  // ---- Over a run ----

  ghost predicate Steady(c: Config, ss: seq<State>, steps: seq<Step>) {
    |ss| == |steps| + 1 && forall j: nat :: TraceStep(c, ss, steps, j)
  }

  /** The sum of the entries of the first `n` steps. */
  function Entries(c: Config, ss: seq<State>, steps: seq<Step>, n: nat, kind: Kind): int
    requires Steady(c, ss, steps) && n <= |steps|
  {
    if n == 0 then 0
    else
      assert TraceStep(c, ss, steps, n - 1);
      Entries(c, ss, steps, n - 1, kind) + Entry(c, ss[n - 1], steps[n - 1], kind)
  }

  function AllReserved(c: Config, ss: seq<State>, steps: seq<Step>, n: nat): int
    requires Steady(c, ss, steps) && n <= |steps|
  {
    if n == 0 then 0
    else
      assert TraceStep(c, ss, steps, n - 1);
      AllReserved(c, ss, steps, n - 1) + Reserves(c, ss[n - 1], steps[n - 1])
  }

  function AllForgotten(c: Config, ss: seq<State>, steps: seq<Step>, n: nat): int
    requires Steady(c, ss, steps) && n <= |steps|
  {
    if n == 0 then 0
    else
      assert TraceStep(c, ss, steps, n - 1);
      AllForgotten(c, ss, steps, n - 1) + Forgets(c, ss[n - 1], steps[n - 1])
  }

  function Changes(c: Config, ss: seq<State>, steps: seq<Step>, n: nat): int
    requires Steady(c, ss, steps) && n <= |steps|
  {
    if n == 0 then 0
    else
      assert TraceStep(c, ss, steps, n - 1);
      Changes(c, ss, steps, n - 1) + Change(c, ss[n - 1], steps[n - 1])
  }

  /** Of every kind there is what the calls have made and not yet taken, beside the handle the run
      began with. */
  lemma {:induction false} HoldersBalance(c: Config, t0: Tid, strategy: nat, ss: seq<State>, steps: seq<Step>, n: nat, kind: Kind)
    requires Written(c, t0, strategy, ss, steps) && n <= |steps| && kind != Dead
    ensures Number(ss[n].hs, kind) == (if kind == Handle then 1 else 0) + Entries(c, ss, steps, n, kind)
  {
    if n == 0 {
      assert ss[0].hs[..0] == [];
    } else {
      HoldersBalance(c, t0, strategy, ss, steps, n - 1, kind);
      assert TraceStep(c, ss, steps, n - 1);
      TraceInv(c, t0, strategy, ss, steps, n - 1);
      StepEntry(c, ss[n - 1], steps[n - 1], kind);
    }
  }

  /** The same of what is reserved and what is forgotten. */
  lemma {:induction false} TokensBalance(c: Config, t0: Tid, strategy: nat, ss: seq<State>, steps: seq<Step>, n: nat)
    requires Written(c, t0, strategy, ss, steps) && n <= |steps|
    ensures Weight(ss[n].hs, Iter) == AllReserved(c, ss, steps, n)
    ensures Weight(ss[n].hs, Forgotten) == AllForgotten(c, ss, steps, n)
  {
    if n == 0 {
      assert ss[0].hs[..0] == [];
    } else {
      TokensBalance(c, t0, strategy, ss, steps, n - 1);
      assert TraceStep(c, ss, steps, n - 1);
      TraceInv(c, t0, strategy, ss, steps, n - 1);
      StepLoad(c, ss[n - 1], steps[n - 1]);
    }
  }

  /** The count is 1 and what the calls added to it. */
  lemma {:induction false} CountBalances(c: Config, t0: Tid, strategy: nat, ss: seq<State>, steps: seq<Step>, n: nat)
    requires Written(c, t0, strategy, ss, steps) && n <= |steps|
    ensures 0 < |ss[n].hist| && Last(ss[n]).value == 1 + Changes(c, ss, steps, n)
  {
    if n != 0 {
      CountBalances(c, t0, strategy, ss, steps, n - 1);
      assert TraceStep(c, ss, steps, n - 1);
      TraceReaches(c, t0, strategy, ss, steps, n - 1);
      CountStep(c, ss[n - 1], steps[n - 1]);
    }
  }

  /** The count is never below what has been forgotten, and with anything forgotten the allocation is
      never freed. */
  lemma {:induction false} ForgottenCounts(c: Config, t0: Tid, strategy: nat, ss: seq<State>, steps: seq<Step>, n: nat)
    requires Written(c, t0, strategy, ss, steps) && n <= |steps|
    ensures 0 <= AllForgotten(c, ss, steps, n)
    ensures 0 < |ss[n].hist| && (!ss[n].freed ==> AllForgotten(c, ss, steps, n) <= Last(ss[n]).value)
    ensures 0 < AllForgotten(c, ss, steps, n) ==> !ss[n].freed
  {
    TokensBalance(c, t0, strategy, ss, steps, n);
    TraceInv(c, t0, strategy, ss, steps, n);
    SumByKind(ss[n].hs);
    if ss[n].freed { NothingOf(ss[n].hs, Forgotten); }
  }

  lemma {:induction false} NothingOf(hs: seq<Holder>, kind: Kind)
    requires AllDead(hs) && kind != Dead
    ensures Weight(hs, kind) == 0
  {
    if hs != [] { NothingOf(hs[..|hs| - 1], kind); }
  }
}
