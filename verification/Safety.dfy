/** What every run of the protocol keeps, with the orderings the code uses and at most
    `isize::MAX` threads. */
module Safety {
  import opened Protocol
  import opened Invariant
  import opened Steps

  // ---- The steps, put together ----

  lemma AbortKeeps(c: Config, s: State)
    requires Inv(c, s)
    ensures Inv(c, s.(aborted := true))
  {
    forall t: nat ensures PcAt(s.(aborted := true), t) {
      assert PcAt(s, t);
    }
  }

  lemma CloneKeeps(c: Config, s: State, step: Step)
    requires Before(c, s, step) && OfClone(step)
    ensures Inv(c, Apply(c, s, step))
  {
    match step
    case CloneAdd(t, x, strategy) => CloneAddKeeps(c, s, t, x, strategy);
    case CloneCheck(t) =>
      if c.max < s.pcs[t].prior { AbortKeeps(c, s); } else { ResolveKeeps(c, s, t, s.pcs[t].p); }
  }

  lemma ReloadKeeps(c: Config, s: State, t: Tid, k: nat, pc: Pc)
    requires Inv(c, s) && t < c.n && CanRead(s, t, k) && Neutral(s.pcs[t], pc) && PcOk(s, t, pc) && !Disposing(pc)
    ensures Inv(c, Goto(Load(s, t, k, false), t, pc))
  {
    LoadKeeps(c, s, t, k, false);
    GotoKeeps(c, Load(s, t, k, false), t, pc);
  }

  lemma ReserveKeeps(c: Config, s: State, t: Tid, x: nat, n: nat)
    requires Inv(c, s) && t < c.n && x < |s.hs| && s.pcs[t].Reserving? && s.pcs[t].x == x
    requires Last(s).value + n <= c.max
    ensures Inv(c, Pushed(s, t, Last(s).value + n,
                          s.hs + [Holder(Iter, t, n, |s.hist|, Target(s, x), s.hs[x].strategy)], Idle))
  {
    assert PcAt(s, t);
    GainKeeps(c, s, t, x, Holder(Iter, t, n, |s.hist|, Target(s, x), s.hs[x].strategy), Idle);
  }

  lemma RetryKeeps(c: Config, s: State, t: Tid, k: nat)
    requires Inv(c, s) && t < c.n && s.pcs[t].Reserving? && CanRead(s, t, k)
    ensures Inv(c, Goto(Load(s, t, k, false), t, Reserving(s.pcs[t].x, s.pcs[t].n, s.hist[k].value)))
  {
    assert PcAt(s, t);
    ReloadKeeps(c, s, t, k, Reserving(s.pcs[t].x, s.pcs[t].n, s.hist[k].value));
  }

  /** The exchange that goes through, the one that fails, and the abort. */
  lemma IterCasEffect(c: Config, s: State, t: Tid, ok: bool, k: nat)
    requires Enabled(c, s, IterCas(t, ok, k))
    ensures var Reserving(x, n, v) := s.pcs[t];
            Apply(c, s, IterCas(t, ok, k)) ==
              if c.max < v + n then s.(aborted := true)
              else if ok then
                Pushed(s, t, Last(s).value + n, s.hs + [Holder(Iter, t, n, |s.hist|, Target(s, x), s.hs[x].strategy)], Idle)
              else Goto(Load(s, t, k, false), t, Reserving(s.pcs[t].x, s.pcs[t].n, s.hist[k].value))
  {
  }

  lemma IterCasKeeps(c: Config, s: State, t: Tid, ok: bool, k: nat)
    requires Inv(c, s) && Enabled(c, s, IterCas(t, ok, k))
    ensures Inv(c, Apply(c, s, IterCas(t, ok, k)))
  {
    IterCasEffect(c, s, t, ok, k);
    var Reserving(x, n, v) := s.pcs[t];
    if c.max < v + n {
      AbortKeeps(c, s);
    } else if ok {
      ReserveKeeps(c, s, t, x, n);
    } else {
      RetryKeeps(c, s, t, k);
    }
  }

  lemma IterDropKeeps(c: Config, s: State, t: Tid, x: nat, k: nat)
    requires Inv(c, s) && Enabled(c, s, IterDrop(t, x, k))
    ensures Inv(c, Apply(c, s, IterDrop(t, x, k)))
  {
    if s.hs[x].weight == 0 {
      ReplaceKeeps(c, s, x, s.hs[x].(kind := Borrow), x);
    } else {
      assert ReservedAt(s.hist, s.hs, x, k);
      ReloadKeeps(c, s, t, k, Returning(x, s.hist[k].value));
    }
  }

  lemma LeftoverKeeps(c: Config, s: State, t: Tid, k: nat)
    requires Inv(c, s) && Enabled(c, s, IterDropCas(t, true, k))
    ensures Inv(c, Apply(c, s, IterDropCas(t, true, k))) && !Apply(c, s, IterDropCas(t, true, k)).aborted
  {
    GiveBackKeeps(c, s, t, s.pcs[t].i);
  }

  /** The leftover of an iterator can always be taken off the count, even off a stale one. */
  lemma IterDropCasKeeps(c: Config, s: State, t: Tid, ok: bool, k: nat)
    requires Inv(c, s) && Enabled(c, s, IterDropCas(t, ok, k))
    ensures Inv(c, Apply(c, s, IterDropCas(t, ok, k)))
    ensures !Apply(c, s, IterDropCas(t, ok, k)).aborted
  {
    if ok {
      LeftoverKeeps(c, s, t, k);
    } else {
      assert PcAt(s, t);
      var i := s.pcs[t].i;
      assert ReservedAt(s.hist, s.hs, i, k);
      ReloadKeeps(c, s, t, k, Returning(i, s.hist[k].value));
    }
  }

  lemma IterKeeps(c: Config, s: State, step: Step)
    requires Before(c, s, step) && OfIter(step)
    ensures Inv(c, Apply(c, s, step))
  {
    match step
    case IterLoad(t, x, n, k) => ReloadKeeps(c, s, t, k, Reserving(x, n, s.hist[k].value));
    case IterCas(t, ok, k) => IterCasKeeps(c, s, t, ok, k);
    case IterNext(t, x) => SplitKeeps(c, s, x);
    case IterDrop(t, x, k) => IterDropKeeps(c, s, t, x, k);
    case IterDropCas(t, ok, k) => IterDropCasKeeps(c, s, t, ok, k);
  }

  lemma DropAcquireKeeps(c: Config, s: State, t: Tid, k: nat)
    requires AsWritten(c) && Inv(c, s) && Enabled(c, s, DropAcquire(t, k))
    ensures Inv(c, Apply(c, s, DropAcquire(t, k)))
  {
    assert PcAt(s, t);
    var r := Load(s, t, k, true);
    LoadKeeps(c, s, t, k, true);
    forall e | 0 <= e < |s.log| ensures e in r.views[t].seen {
      assert CoveredAt(Last(s).seen, s.log, s.hs, s.views, e);
    }
    GotoKeeps(c, r, t, DropSlow(s.pcs[t].h));
  }

  lemma EndStepKeeps(c: Config, s: State, step: Step)
    requires Before(c, s, step) && OfEnd(step)
    ensures Inv(c, Apply(c, s, step))
  {
    match step
    case DropSub(t, x) => DropKeeps(c, s, t, x);
    case DropAcquire(t, k) => DropAcquireKeeps(c, s, t, k);
    case DropDispose(t) => DropDisposeKeeps(c, s, t);
    case IntoInner(t, x) => IntoInnerKeeps(c, s, t, x);
  }

  lemma IsUniqueKeeps(c: Config, s: State, t: Tid, x: nat, k: nat)
    requires AsWritten(c) && Inv(c, s) && Enabled(c, s, IsUnique(t, x, k))
    ensures Inv(c, Apply(c, s, IsUnique(t, x, k)))
  {
    UniqueAlone(c, s, t, x, k);
    LoadKeeps(c, s, t, k, true);
    ReplaceKeeps(c, Load(s, t, k, true), x, s.hs[x].(kind := Unique), x);
  }

  lemma UseKeeps(c: Config, s: State, step: Step)
    requires Before(c, s, step) && OfUse(step)
    ensures Inv(c, Apply(c, s, step))
  {
    match step
    case Count(t, x, k) => LoadKeeps(c, s, t, k, true);
    case IsUnique(t, x, k) => IsUniqueKeeps(c, s, t, x, k);
    case Shareable(t, x) => ReplaceKeeps(c, s, x, s.hs[x].(kind := Handle), x);
    case ReadData(t, x) => TouchKeeps(c, s, t, x, Read);
    case WriteData(t, x) => TouchKeeps(c, s, t, x, Write);
  }

  lemma ReturnKeeps(c: Config, s: State, t: Tid, x: nat)
    requires Inv(c, s) && Enabled(c, s, Return(t, x))
    ensures Inv(c, Apply(c, s, Return(t, x)))
  {
    var o := s.hs[s.hs[x].base].at;
    SyncKeeps(c, s, t, o);
    assert BaseOk(s.hs, x);
    ReplaceKeeps(c, Sync(s, t, o), x, s.hs[x].(kind := Dead), s.hs[x].base);
  }

  /** A forgotten iterator leaves what it borrowed behind. */
  lemma ForgetIterKeeps(c: Config, s: State, t: Tid, x: nat)
    requires Inv(c, s) && !s.freed && Holds(c, s, t, x) && s.hs[x].kind == Iter
    ensures var h := s.hs[x];
            Inv(c, AddHolder(SetHolder(s, x, h.(kind := if h.weight == 0 then Dead else Forgotten)),
                             h.(kind := Borrow, weight := 0)))
  {
    var h := s.hs[x];
    var b := h.(kind := Borrow, weight := 0);
    assert BaseOk(s.hs, x);
    LendKeeps(c, s, x, b);
    var g := h.(kind := if h.weight == 0 then Dead else Forgotten);
    ReplaceKeeps(c, AddHolder(s, b), x, g, |s.hs|);
    assert (s.hs + [b])[x := g] == s.hs[x := g] + [b];
  }

  lemma ForgetKeeps(c: Config, s: State, t: Tid, x: nat)
    requires Inv(c, s) && Enabled(c, s, Forget(t, x))
    ensures Inv(c, Apply(c, s, Forget(t, x)))
  {
    assert Active(s.hs[x]);
    if s.hs[x].kind == Iter {
      ForgetIterKeeps(c, s, t, x);
    } else {
      ReplaceKeeps(c, s, x, s.hs[x].(kind := Forgotten), x);
    }
  }

  lemma SendKeeps(c: Config, s: State, t: Tid, x: nat, u: Tid)
    requires Inv(c, s) && Enabled(c, s, Send(t, x, u))
    ensures Inv(c, Apply(c, s, Send(t, x, u)))
  {
    SyncKeeps(c, s, t, u);
    ReplaceKeeps(c, Sync(s, t, u), x, s.hs[x].(at := u), x);
  }

  lemma LendStepKeeps(c: Config, s: State, t: Tid, x: nat, u: Tid)
    requires Inv(c, s) && Enabled(c, s, Lend(t, x, u))
    ensures Inv(c, Apply(c, s, Lend(t, x, u)))
  {
    SyncKeeps(c, s, t, u);
    assert BaseOk(s.hs, x);
    LendKeeps(c, Sync(s, t, u), x, Holder(Borrow, u, 0, s.hs[x].birth, Target(s, x), s.hs[x].strategy));
  }

  lemma PassKeeps(c: Config, s: State, step: Step)
    requires Before(c, s, step) && OfPass(step)
    ensures Inv(c, Apply(c, s, step))
  {
    match step
    case Send(t, x, u) => SendKeeps(c, s, t, x, u);
    case Lend(t, x, u) => LendStepKeeps(c, s, t, x, u);
    case Return(t, x) => ReturnKeeps(c, s, t, x);
    case Forget(t, x) => ForgetKeeps(c, s, t, x);
    case WithStrategy(t, x, strategy) => ReplaceKeeps(c, s, x, s.hs[x].(strategy := strategy), x);
    case Synchronise(t, u) => SyncKeeps(c, s, t, u);
  }

  /** The situation in which a step is taken. */
  ghost predicate Before(c: Config, s: State, step: Step) {
    AsWritten(c) && c.n <= c.max && Inv(c, s) && Enabled(c, s, step)
  }

  lemma StepKeeps(c: Config, s: State, step: Step)
    requires Before(c, s, step)
    ensures Inv(c, Apply(c, s, step))
  {
    if OfClone(step) {
      CloneKeeps(c, s, step);
    } else if OfIter(step) {
      IterKeeps(c, s, step);
    } else if OfEnd(step) {
      EndStepKeeps(c, s, step);
    } else if OfUse(step) {
      UseKeeps(c, s, step);
    } else {
      PassKeeps(c, s, step);
    }
  }

  // ---- Runs ----

  lemma InitKeeps(c: Config, t: Tid, strategy: nat)
    requires t < c.n
    ensures Inv(c, Init(c, t, strategy))
  {
    var s := Init(c, t, strategy);
    assert Sum(s.hs) == Sum(s.hs[..0]) + 1;
    forall u: nat ensures PcAt(s, u) {}
    forall x: nat ensures BaseOk(s.hs, x) {}
    forall x: nat ensures PendingAt(s.hs, s.pcs, x) {}
    forall x: nat, k: nat ensures ReservedAt(s.hist, s.hs, x, k) {}
    forall x: nat, k: nat ensures NotStaleAt(s.hist, s.hs, s.views, x, k) {}
    assert Sees(s.hs, s.views, 0, 0);
    forall e: nat ensures CoveredAt(Last(s).seen, s.log, s.hs, s.views, e) {}
    forall e: nat, x: nat ensures PublishedAt(s.log, s.hs, s.views, e, x) {}
    forall x: nat ensures SoloAt(s.log, s.hs, s.views, |s.hist|, x) {}
    assert Active(s.hs[0]);
  }

  lemma {:induction false} RunKeeps(c: Config, s: State, steps: seq<Step>)
    requires AsWritten(c) && c.n <= c.max && Inv(c, s) && Runs(c, s, steps)
    ensures Inv(c, Exec(c, s, steps))
    decreases |steps|
  {
    if steps != [] {
      StepKeeps(c, s, steps[0]);
      RunKeeps(c, Apply(c, s, steps[0]), steps[1..]);
    }
  }

  /** A reachable state of the protocol as written. */
  ghost predicate Live(c: Config, s: State) {
    AsWritten(c) && c.n <= c.max && Reachable(c, s)
  }

  lemma ReachableInv(c: Config, s: State)
    requires Live(c, s)
    ensures Inv(c, s)
  {
    var t: nat, strategy: nat, steps: seq<Step> :|
      t < c.n && Runs(c, Init(c, t, strategy), steps) && s == Exec(c, Init(c, t, strategy), steps);
    InitKeeps(c, t, strategy);
    RunKeeps(c, Init(c, t, strategy), steps);
  }
}
