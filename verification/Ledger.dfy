/** What a run's steps say, read off the steps themselves: who holds what under which strategy, how
    many handles, reservations and forgotten tokens there are, and how the allocation ends. */
module Ledger {
  import opened Protocol
  import opened Invariant
  import opened Safety
  import opened Theorems
  import opened Exchanges
  import opened Traces

  // ---- Owners and strategies ----

  datatype Deed = Deed(owner: Tid, strategy: nat)

  /** The deeds after a step, which may have created holders: a clone has the strategy its maker
      chose, an iterator that of what it borrows, what it hands out has its own, and
      `with_strategy` chooses anew. */
  function Convey(s: State, step: Step, grown: bool, deeds: seq<Deed>): seq<Deed> {
    match step
    case CloneAdd(t, _, strategy) => deeds + [Deed(t, strategy)]
    case IterCas(t, _, _) =>
      if grown && t < |s.pcs| && s.pcs[t].Reserving? && s.pcs[t].x < |deeds| then
        deeds + [Deed(t, deeds[s.pcs[t].x].strategy)]
      else deeds
    case IterNext(t, x) => if x < |deeds| then deeds + [Deed(t, deeds[x].strategy)] else deeds
    case Lend(_, x, u) => if x < |deeds| then deeds + [Deed(u, deeds[x].strategy)] else deeds
    case Send(_, x, u) => if x < |deeds| then deeds[x := deeds[x].(owner := u)] else deeds
    case WithStrategy(_, x, strategy) => if x < |deeds| then deeds[x := deeds[x].(strategy := strategy)] else deeds
    case Forget(t, x) => if grown && x < |deeds| then deeds + [deeds[x]] else deeds
    case _ => deeds
  }

  function Deeds(t0: Tid, strategy: nat, ss: seq<State>, steps: seq<Step>, n: nat): seq<Deed>
    requires n <= |steps| && |ss| == |steps| + 1
  {
    if n == 0 then [Deed(t0, strategy)]
    else Convey(ss[n - 1], steps[n - 1], |ss[n - 1].hs| < |ss[n].hs|, Deeds(t0, strategy, ss, steps, n - 1))
  }

  predicate Conveyed(hs: seq<Holder>, deeds: seq<Deed>) {
    |deeds| == |hs| && forall x | 0 <= x < |hs| :: deeds[x] == Deed(hs[x].at, hs[x].strategy)
  }

  /** A step that makes no holder and gives none away leaves every deed. */
  predicate Conveys(step: Step) {
    step.CloneAdd? || step.IterCas? || step.IterNext? || step.Lend? || step.Send? || step.WithStrategy? || step.Forget?
  }

  lemma KeepsDeeds(c: Config, s: State, step: Step)
    requires Enabled(c, s, step) && !Conveys(step)
    ensures var r := Apply(c, s, step);
            && |r.hs| == |s.hs|
            && forall x | 0 <= x < |s.hs| :: r.hs[x].at == s.hs[x].at && r.hs[x].strategy == s.hs[x].strategy
  {
  }

  lemma ConveyStep(c: Config, s: State, step: Step, deeds: seq<Deed>)
    requires Enabled(c, s, step) && Conveyed(s.hs, deeds)
    ensures var r := Apply(c, s, step); Conveyed(r.hs, Convey(s, step, |s.hs| < |r.hs|, deeds))
  {
    if !Conveys(step) { KeepsDeeds(c, s, step); }
  }

  /** Every holder belongs to the thread that made it or was sent it last, and has the strategy that
      was chosen for it last. */
  lemma {:induction false} DeedsHold(c: Config, t0: Tid, strategy: nat, ss: seq<State>, steps: seq<Step>, n: nat)
    requires Trace(c, t0, strategy, ss, steps) && n <= |steps|
    ensures Conveyed(ss[n].hs, Deeds(t0, strategy, ss, steps, n))
  {
    if n != 0 {
      DeedsHold(c, t0, strategy, ss, steps, n - 1);
      assert TraceStep(c, ss, steps, n - 1);
      ConveyStep(c, ss[n - 1], steps[n - 1], Deeds(t0, strategy, ss, steps, n - 1));
    }
  }

  // ---- How it ends ----

  function Disposals(steps: seq<Step>, n: nat): nat
    requires n <= |steps|
  {
    if n == 0 then 0 else Disposals(steps, n - 1) + if steps[n - 1].DropDispose? then 1 else 0
  }

  function Moves(steps: seq<Step>, n: nat): nat
    requires n <= |steps|
  {
    if n == 0 then 0 else Moves(steps, n - 1) + if steps[n - 1].IntoInner? then 1 else 0
  }

  /** The handle of the last `drop`. */
  function LastDropped(steps: seq<Step>, n: nat): nat
    requires n <= |steps|
  {
    if n == 0 then 0 else if steps[n - 1].DropSub? then steps[n - 1].x else LastDropped(steps, n - 1)
  }

  lemma DropsStep(c: Config, s: State, step: Step)
    requires Enabled(c, s, step)
    ensures Apply(c, s, step).drops == s.drops + if step.DropSub? then [step.x] else []
  {
  }

  lemma {:induction false} DropsAre(c: Config, t0: Tid, strategy: nat, ss: seq<State>, steps: seq<Step>, n: nat)
    requires Trace(c, t0, strategy, ss, steps) && n <= |steps|
    ensures var d := ss[n].drops; d != [] ==> d[|d| - 1] == LastDropped(steps, n)
  {
    if n != 0 {
      DropsAre(c, t0, strategy, ss, steps, n - 1);
      assert TraceStep(c, ss, steps, n - 1);
      DropsStep(c, ss[n - 1], steps[n - 1]);
    }
  }

  /** `DropDispose` and `into_inner` end the log, each in its own way; nothing else does, and after
      them nothing is added. */
  lemma EndingStep(c: Config, s: State, step: Step)
    requires Enabled(c, s, step)
    ensures var r := Apply(c, s, step);
            && s.log <= r.log
            && (r.freed <==> s.freed || step.DropDispose? || step.IntoInner?)
            && (step.DropDispose? ==> r.log != [] && r.log[|r.log| - 1].act.Dispose?)
            && (step.IntoInner? ==> r.log != [] && r.log[|r.log| - 1].act.Take?)
            && (step.Synchronise? ==> r.log == s.log)
  {
  }

  /** The last access, once the allocation is freed. */
  predicate EndsBy(s: State, disposed: bool) {
    s.freed ==> s.log != [] && if disposed then s.log[|s.log| - 1].act.Dispose? else s.log[|s.log| - 1].act.Take?
  }

  lemma EndingKeeps(c: Config, s: State, step: Step, disposed: bool)
    requires Enabled(c, s, step) && EndsBy(s, disposed) && (s.freed ==> step.Synchronise?)
    ensures EndsBy(Apply(c, s, step), (disposed && s.freed) || step.DropDispose?)
  {
    EndingStep(c, s, step);
  }

  lemma {:induction false} EndingIs(c: Config, t0: Tid, strategy: nat, ss: seq<State>, steps: seq<Step>, n: nat)
    requires Written(c, t0, strategy, ss, steps) && n <= |steps|
    ensures Disposals(steps, n) + Moves(steps, n) == if ss[n].freed then 1 else 0
    ensures EndsBy(ss[n], Disposals(steps, n) == 1)
  {
    if n != 0 {
      EndingIs(c, t0, strategy, ss, steps, n - 1);
      assert TraceStep(c, ss, steps, n - 1);
      TraceReaches(c, t0, strategy, ss, steps, n - 1);
      if !steps[n - 1].Synchronise? { NoUseAfterFree(c, ss[n - 1], steps[n - 1]); }
      EndingStep(c, ss[n - 1], steps[n - 1]);
      EndingKeeps(c, ss[n - 1], steps[n - 1], Disposals(steps, n - 1) == 1);
    }
  }

  /** The allocation is freed by exactly one step.  If no thread moved the value out, that step hands
      it to a strategy, and it is the strategy chosen last for the handle that was dropped last. */
  lemma LastDropDisposes(c: Config, t0: Tid, strategy: nat, ss: seq<State>, steps: seq<Step>, n: nat)
    requires Written(c, t0, strategy, ss, steps) && n <= |steps|
    requires ss[n].freed && forall j | 0 <= j < n :: !steps[j].IntoInner?
    ensures var h := LastDropped(steps, n); var deeds := Deeds(t0, strategy, ss, steps, n); var log := ss[n].log;
            && Disposals(steps, n) == 1 && h < |deeds| && log != []
            && log[|log| - 1].act == Dispose(h, deeds[h].strategy)
            && forall e | 0 <= e < |log| - 1 :: !Ends(log[e])
  {
    EndingIs(c, t0, strategy, ss, steps, n);
    NoMoves(steps, n);
    TraceInv(c, t0, strategy, ss, steps, n);
    DropsAre(c, t0, strategy, ss, steps, n);
    DeedsHold(c, t0, strategy, ss, steps, n);
  }

  lemma {:induction false} NoMoves(steps: seq<Step>, n: nat)
    requires n <= |steps|
    ensures Moves(steps, n) == 0 <==> forall j | 0 <= j < n :: !steps[j].IntoInner?
  {
    if n != 0 { NoMoves(steps, n - 1); }
  }

  /** If a thread did move the value out, no strategy ever gets the allocation. */
  lemma {:induction false} MovedOutIsNotDisposed(c: Config, t0: Tid, strategy: nat, ss: seq<State>, steps: seq<Step>, n: nat)
    requires Written(c, t0, strategy, ss, steps) && n <= |steps|
    requires exists j :: 0 <= j < n && steps[j].IntoInner?
    ensures ss[n].freed && Moves(steps, n) == 1 && Disposals(steps, n) == 0
    ensures forall e | 0 <= e < |ss[n].log| :: !ss[n].log[e].act.Dispose?
  {
    EndingIs(c, t0, strategy, ss, steps, n);
    NoMoves(steps, n);
    TraceInv(c, t0, strategy, ss, steps, n);
  }

  // ---- What is forgotten ----

  /** The step is about holder `x`. */
  predicate Involves(s: State, step: Step, x: nat) {
    match step
    case CloneCheck(t) => t < |s.pcs| && s.pcs[t].Cloning? && s.pcs[t].p == x
    case IterCas(t, _, _) => t < |s.pcs| && s.pcs[t].Reserving? && s.pcs[t].x == x
    case IterDropCas(t, _, _) => t < |s.pcs| && s.pcs[t].Returning? && s.pcs[t].i == x
    case DropAcquire(t, _) => t < |s.pcs| && s.pcs[t].DropLoad? && s.pcs[t].h == x
    case DropDispose(t) => t < |s.pcs| && s.pcs[t].DropSlow? && s.pcs[t].h == x
    case Synchronise(_, _) => false
    case _ => step.x == x
  }

  predicate IsForgotten(s: State, x: nat) {
    x < |s.hs| && s.hs[x].kind == Forgotten
  }

  lemma ForgottenIsOut(c: Config, s: State, step: Step, x: nat)
    requires PcsOk(s) && Enabled(c, s, step) && IsForgotten(s, x)
    ensures !Involves(s, step, x) && x != Changed(s, step)
  {
    assert PcAt(s, step.t);
  }

  lemma ForgottenStays(c: Config, s: State, step: Step, x: nat)
    requires PcsOk(s) && Enabled(c, s, step) && IsForgotten(s, x)
    ensures !Involves(s, step, x) && IsForgotten(Apply(c, s, step), x)
  {
    ForgottenIsOut(c, s, step, x);
    OnlyChanged(c, s, step, x);
  }

  /** Something with tokens is passed to `mem::forget`. */
  predicate Forgets(s: State, step: Step, x: nat) {
    step.Forget? && step.x == x && x < |s.hs| && (s.hs[x].kind == Iter ==> 0 < s.hs[x].weight)
  }

  lemma {:induction false} StaysForgotten(c: Config, t0: Tid, strategy: nat, ss: seq<State>, steps: seq<Step>, i: nat, j: nat, x: nat)
    requires Written(c, t0, strategy, ss, steps) && i < j <= |steps| && Forgets(ss[i], steps[i], x)
    ensures IsForgotten(ss[j], x)
    decreases j
  {
    assert TraceStep(c, ss, steps, j - 1);
    if i < j - 1 {
      StaysForgotten(c, t0, strategy, ss, steps, i, j - 1, x);
      TraceInv(c, t0, strategy, ss, steps, j - 1);
      ForgottenStays(c, ss[j - 1], steps[j - 1], x);
    }
  }

  /** What was forgotten is never used again, by any thread, and the allocation is never freed. */
  lemma ForgottenForever(c: Config, t0: Tid, strategy: nat, ss: seq<State>, steps: seq<Step>, i: nat, j: nat, x: nat)
    requires Written(c, t0, strategy, ss, steps) && i < j <= |steps| && Forgets(ss[i], steps[i], x)
    ensures !ss[j].freed
    ensures j < |steps| ==> !Involves(ss[j], steps[j], x)
  {
    StaysForgotten(c, t0, strategy, ss, steps, i, j, x);
    TraceInv(c, t0, strategy, ss, steps, j);
    if j < |steps| {
      assert TraceStep(c, ss, steps, j);
      ForgottenStays(c, ss[j], steps[j], x);
    }
  }

  // ---- The shortest runs ----

  lemma Next(c: Config, t0: Tid, strategy: nat, ss: seq<State>, steps: seq<Step>, step: Step) returns (rr: seq<State>)
    requires Trace(c, t0, strategy, ss, steps) && Enabled(c, ss[|steps|], step)
    ensures Trace(c, t0, strategy, rr, steps + [step]) && rr[|steps| + 1] == Apply(c, ss[|steps|], step)
  {
    rr := ss + [Apply(c, ss[|steps|], step)];
    var all := steps + [step];
    forall j: nat ensures TraceStep(c, rr, all, j) {
      assert TraceStep(c, ss, steps, j);
    }
  }

  lemma Start(c: Config, strategy: nat) returns (ss: seq<State>)
    requires 0 < c.n
    ensures Trace(c, 0, strategy, ss, []) && ss == [Init(c, 0, strategy)]
  {
    ss := [Init(c, 0, strategy)];
    forall j: nat ensures TraceStep(c, ss, [], j) {}
  }

  predicate Falling(c: Config, s: State, strategy: nat, pc: Pc) {
    && !s.aborted && 0 < c.n == |s.views| == |s.pcs| && s.pcs[0] == pc && s.hs == [Holder(Dead, 0, 0, 0, 0, strategy)]
    && |s.hist| == 2 && s.views[0].ts == 1
  }

  /** `Arc::new` and `drop`: the strategy of the only handle gets the allocation. */
  lemma NewAndDrop(c: Config, strategy: nat) returns (ss: seq<State>, steps: seq<Step>)
    requires 0 < c.n && AsWritten(c)
    ensures Trace(c, 0, strategy, ss, steps) && |steps| == 3 && ss[3].freed
    ensures ss[3].log != [] && ss[3].log[|ss[3].log| - 1].act == Dispose(0, strategy)
  {
    ss := Start(c, strategy);
    steps := [];
    ss := Next(c, 0, strategy, ss, steps, DropSub(0, 0));
    steps := steps + [DropSub(0, 0)];
    assert Falling(c, ss[1], strategy, DropLoad(0));
    ss := Next(c, 0, strategy, ss, steps, DropAcquire(0, 1));
    steps := steps + [DropAcquire(0, 1)];
    assert Falling(c, ss[2], strategy, DropSlow(0));
    ss := Next(c, 0, strategy, ss, steps, DropDispose(0));
    steps := steps + [DropDispose(0)];
  }

  /** `Arc::new` and `mem::forget`: nothing more can be done with it. */
  lemma NewAndForget(c: Config, strategy: nat) returns (ss: seq<State>, steps: seq<Step>)
    requires 0 < c.n
    ensures Trace(c, 0, strategy, ss, steps) && steps == [Forget(0, 0)] && Forgets(ss[0], steps[0], 0)
    ensures forall t: Tid :: !Enabled(c, ss[1], DropSub(t, 0))
  {
    ss := Start(c, strategy);
    steps := [];
    ss := Next(c, 0, strategy, ss, steps, Forget(0, 0));
    steps := steps + [Forget(0, 0)];
  }
}
