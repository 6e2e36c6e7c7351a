/** The guarantees of the protocol, for every reachable state of every run. */
module Theorems {
  import opened Protocol
  import opened Invariant
  import opened Steps
  import opened Safety

  // ---- Conservation and disposal ----

  function Weight(hs: seq<Holder>, kind: Kind): nat {
    if hs == [] then 0
    else Weight(hs[..|hs| - 1], kind) + if hs[|hs| - 1].kind == kind then hs[|hs| - 1].weight else 0
  }

  function Number(hs: seq<Holder>, kind: Kind): nat {
    if hs == [] then 0
    else Number(hs[..|hs| - 1], kind) + if hs[|hs| - 1].kind == kind then 1 else 0
  }

  lemma {:induction false} SumByKind(hs: seq<Holder>)
    requires forall x | 0 <= x < |hs| :: Token(hs[x]) ==> hs[x].weight == 1
    requires forall x | 0 <= x < |hs| :: hs[x].kind == Borrow || hs[x].kind == Dead ==> hs[x].weight == 0
    ensures Sum(hs) == Number(hs, Handle) + Number(hs, Unique) + Number(hs, Pending)
                       + Weight(hs, Iter) + Weight(hs, Forgotten)
  {
    if hs != [] { SumByKind(hs[..|hs| - 1]); }
  }

  /** The count of a live allocation is its handles, its clones in progress, what its iterators
      reserve and what was forgotten. */
  lemma CountIsTokens(c: Config, s: State)
    requires Live(c, s) && !s.freed
    ensures |s.hist| > 0
    ensures Last(s).value == Number(s.hs, Handle) + Number(s.hs, Unique) + Number(s.hs, Pending)
                             + Weight(s.hs, Iter) + Weight(s.hs, Forgotten)
  {
    ReachableInv(c, s);
    SumByKind(s.hs);
  }

  /** The allocation is freed at most once, as the last access to it, when no holder is left; a
      strategy that runs is the one of the handle dropped last. */
  lemma FreedAtMostOnce(c: Config, s: State)
    requires Live(c, s)
    ensures forall d, e | 0 <= d < |s.log| && 0 <= e < |s.log| && Ends(s.log[d]) && Ends(s.log[e]) :: d == e == |s.log| - 1
    ensures s.freed <==> exists e :: 0 <= e < |s.log| && Ends(s.log[e])
    ensures s.freed ==> AllDead(s.hs)
    ensures forall e | 0 <= e < |s.log| && s.log[e].act.Dispose? ::
              |s.drops| > 0 && s.drops[|s.drops| - 1] == s.log[e].act.h < |s.hs|
              && s.log[e].act.strategy == s.hs[s.log[e].act.h].strategy
  {
    ReachableInv(c, s);
  }

  /** With nothing forgotten, nothing held and nobody inside an operation it has been freed. */
  lemma FreedInTheEnd(c: Config, s: State)
    requires Live(c, s) && AllDead(s.hs) && forall t | 0 <= t < |s.pcs| :: s.pcs[t] == Idle
    ensures s.freed
  {
    ReachableInv(c, s);
  }

  /** No step that involves the allocation happens after it was freed. */
  lemma NoUseAfterFree(c: Config, s: State, step: Step)
    requires Live(c, s) && Enabled(c, s, step) && !step.Synchronise?
    ensures !s.freed
  {
    ReachableInv(c, s);
    assert PcAt(s, step.t);
  }

  // ---- Exclusive access ----

  /** A successful `is_unique` by a thread that has its handle to itself: the load read the newest
      count, nothing else holds the allocation, and every access so far happens before the
      thread's next step. */
  lemma UniqueIsExclusive(c: Config, s: State, t: Tid, x: nat, k: nat)
    requires Live(c, s) && Enabled(c, s, IsUnique(t, x, k))
    ensures k == |s.hist| - 1
    ensures forall y | 0 <= y < |s.hs| && y != x :: !Active(s.hs[y])
    ensures SeesAll(s.log, Apply(c, s, IsUnique(t, x, k)).views[t])
  {
    ReachableInv(c, s);
    UniqueAlone(c, s, t, x, k);
  }

  /** As long as a handle is treated as unique the count is 1 and nobody can read another value. */
  lemma UniqueStaysExclusive(c: Config, s: State, x: nat)
    requires Live(c, s) && x < |s.hs| && s.hs[x].kind == Unique
    ensures s.hs[x].at < c.n == |s.views| && Solo(s.log, s.hs, s.views, |s.hist|, x)
    ensures forall k: nat | CanRead(s, s.hs[x].at, k) :: s.hist[k].value == 1
  {
    ReachableInv(c, s);
    assert SoloAt(s.log, s.hs, s.views, |s.hist|, x);
    assert Active(s.hs[x]);
    SumSolo(s.hs, x);
  }

  lemma {:induction false} SumSolo(hs: seq<Holder>, x: nat)
    requires x < |hs| && forall y | 0 <= y < |hs| && y != x :: hs[y].weight == 0
    ensures Sum(hs) == hs[x].weight
  {
    SumUpdate(hs, x, hs[x].(weight := 0));
    SumZero(hs[x := hs[x].(weight := 0)]);
  }

  /** While an iterator is there, no thread that has a handle to itself finds it unique, however
      stale the count that it reads. */
  lemma ReservationsShared(c: Config, s: State, i: nat, t: Tid, x: nat, k: nat)
    requires Live(c, s) && i < |s.hs| && s.hs[i].kind == Iter
    ensures !Enabled(c, s, IsUnique(t, x, k))
  {
    if Enabled(c, s, IsUnique(t, x, k)) {
      UniqueIsExclusive(c, s, t, x, k);
    }
  }

  /** `is_unique` may also be called through a shared borrow, and then may return true while
      something is reserved; but only a thread that has not seen the reservation reads the 1, and
      it reads it from before the reservation. */
  lemma OneIsOlder(c: Config, s: State, i: nat, t: Tid, k: nat)
    requires Live(c, s) && i < |s.hs| && s.hs[i].kind == Iter && 0 < s.hs[i].weight
    requires CanRead(s, t, k) && s.hist[k].value == 1
    ensures s.views[t].ts <= k < s.hs[i].birth
  {
    ReachableInv(c, s);
    assert ReservedAt(s.hist, s.hs, i, k);
  }

  /** When `drop_slow` starts every access made through any handle happens before it. */
  lemma DisposalSeesAll(c: Config, s: State, t: Tid)
    requires Live(c, s) && t < |s.pcs| && s.pcs[t].DropSlow?
    ensures !s.freed && AllDead(s.hs) && t < |s.views| && SeesAll(s.log, s.views[t])
  {
    ReachableInv(c, s);
    assert PcAt(s, t);
  }

  /** No run has a data race: disposal and `into_inner` count as writes. */
  lemma NoDataRace(c: Config, s: State)
    requires Live(c, s)
    ensures RaceFree(s.log)
  {
    ReachableInv(c, s);
  }

  // ---- Nothing blocks ----

  /** The next step of an operation in progress; a load reads the newest message. */
  function Continues(s: State, t: Tid): Step
    requires t < |s.pcs| && 0 < |s.hist|
  {
    var k := |s.hist| - 1;
    match s.pcs[t]
    case Idle => Synchronise(t, t)
    case Cloning(_, _) => CloneCheck(t)
    case Reserving(_, _, v) => IterCas(t, s.hist[k].value == v, k)
    case Returning(_, v) => IterDropCas(t, s.hist[k].value == v, k)
    case DropLoad(_) => DropAcquire(t, k)
    case DropSlow(_) => DropDispose(t)
  }

  /** A thread inside an operation can always go on. */
  lemma OperationsGoOn(c: Config, s: State, t: Tid)
    requires Live(c, s) && !s.aborted && t < c.n
    ensures t < |s.pcs| && 0 < |s.hist| && Enabled(c, s, Continues(s, t))
  {
    ReachableInv(c, s);
    assert PcAt(s, t);
    assert s.views[t].ts < |s.hist|;
  }

  /** Thread `t` is between operations, has `x`, and may read message `k`. */
  predicate Ready(c: Config, s: State, t: Tid, x: nat, k: nat) {
    !s.aborted && 0 < |s.hist| && |s.views| == |s.pcs| == c.n && Holds(c, s, t, x) && CanRead(s, t, k)
  }

  /** Between operations a thread may do with a handle or a borrowed one what `&Arc` allows. */
  lemma SharedWorks(c: Config, s: State, t: Tid, x: nat, k: nat, u: Tid, n: nat)
    requires Ready(c, s, t, x, k) && Access(s, t, x) && u < c.n
    ensures Enabled(c, s, CloneAdd(t, x, n)) && Enabled(c, s, IterLoad(t, x, n, k)) && Enabled(c, s, Count(t, x, k))
    ensures Enabled(c, s, ReadData(t, x)) && Enabled(c, s, Lend(t, x, u))
  {
  }

  /** With a handle that is not lent out, all that it may do with an `Arc` of its own. */
  lemma OwnWorks(c: Config, s: State, t: Tid, x: nat, k: nat, u: Tid, n: nat)
    requires Ready(c, s, t, x, k) && s.hs[x].kind == Handle && Exclusive(s, x) && u < c.n
    ensures Enabled(c, s, DropSub(t, x)) && Enabled(c, s, Forget(t, x)) && Enabled(c, s, Send(t, x, u))
    ensures Enabled(c, s, WithStrategy(t, x, n)) && (Enabled(c, s, IsUnique(t, x, k)) <==> s.hist[k].value == 1)
  {
  }

  /** With a unique handle; nothing can borrow it. */
  lemma UniqueWorks(c: Config, s: State, t: Tid, x: nat, k: nat, u: Tid)
    requires Live(c, s) && Ready(c, s, t, x, k) && s.hs[x].kind == Unique && u < c.n
    ensures Enabled(c, s, ReadData(t, x)) && Enabled(c, s, WriteData(t, x)) && Enabled(c, s, Shareable(t, x))
    ensures Enabled(c, s, DropSub(t, x)) && Enabled(c, s, IntoInner(t, x))
    ensures Enabled(c, s, Send(t, x, u)) && Enabled(c, s, Forget(t, x))
  {
    UniqueStaysExclusive(c, s, x);
  }

  /** With an iterator. */
  lemma IterWorks(c: Config, s: State, t: Tid, x: nat, k: nat, u: Tid)
    requires Ready(c, s, t, x, k) && s.hs[x].kind == Iter && u < c.n
    ensures Enabled(c, s, IterNext(t, x)) <==> 0 < s.hs[x].weight
    ensures Enabled(c, s, IterDrop(t, x, k)) && Enabled(c, s, Forget(t, x)) && Enabled(c, s, Send(t, x, u))
  {
  }

  /** And a borrow can be given back, since what it borrows is still there. */
  lemma BorrowEnds(c: Config, s: State, t: Tid, x: nat, k: nat, u: Tid)
    requires Live(c, s) && Ready(c, s, t, x, k) && s.hs[x].kind == Borrow && u < c.n
    ensures Enabled(c, s, Return(t, x)) && Enabled(c, s, Send(t, x, u))
  {
    ReachableInv(c, s);
    assert BaseOk(s.hs, x);
  }

  // ---- Limits and iterators ----

  /** The count exceeds the limit by at most one more than the threads about to abort, so it never
      wraps, up or down. */
  lemma CountBounded(c: Config, s: State)
    requires Live(c, s)
    ensures |s.hist| > 0 && Last(s).value <= c.max + 1 + Doomed(c.max, s.pcs) <= UsizeMax(c)
    ensures forall t: Tid, x: nat, strategy: nat | Enabled(c, s, CloneAdd(t, x, strategy)) :: Last(s).value < UsizeMax(c)
    ensures forall t: Tid, x: nat | Enabled(c, s, DropSub(t, x)) :: 0 < Last(s).value
  {
    ReachableInv(c, s);
    DoomedBound(c.max, s.pcs);
    forall t: Tid, x: nat | Enabled(c, s, DropSub(t, x)) ensures 0 < Last(s).value {
      assert Active(s.hs[x]);
      SumAtLeast(s.hs, x);
    }
  }

  /** Every count a thread with an iterator can still read covers the leftover and `orig`. */
  lemma IteratorCovered(c: Config, s: State, i: nat, k: nat)
    requires Live(c, s) && i < |s.hs| && s.hs[i].kind == Iter && CanRead(s, s.hs[i].at, k)
    ensures s.hs[i].weight + 1 <= s.hist[k].value
    ensures s.hs[i].base < |s.hs| && s.hs[s.hs[i].base].kind == Handle
  {
    ReachableInv(c, s);
    assert ReservedAt(s.hist, s.hs, i, k) && BaseOk(s.hs, i);
  }

  /** Dropping an iterator never aborts and never brings the count to 0. */
  lemma LeftoverNeverUnderflows(c: Config, s: State, t: Tid, ok: bool, k: nat)
    requires Live(c, s) && Enabled(c, s, IterDropCas(t, ok, k))
    ensures var r := Apply(c, s, IterDropCas(t, ok, k)); !r.aborted && 0 < Last(r).value
  {
    ReachableInv(c, s);
    IterDropCasKeeps(c, s, t, ok, k);
    GiveBackRoom(c, s, t, s.pcs[t].i);
  }

  // ---- Aborts ----

  ghost predicate WasCount(s: State, v: nat) {
    exists k :: 0 <= k < |s.hist| && s.hist[k].value == v
  }

  /** What a thread remembers of the count is a value it read. */
  ghost predicate ReadAt(s: State, t: nat) {
    t < |s.pcs| ==>
      && (s.pcs[t].Cloning? ==> WasCount(s, s.pcs[t].prior))
      && (s.pcs[t].Reserving? || s.pcs[t].Returning? ==> WasCount(s, s.pcs[t].c))
  }

  ghost predicate Reads(s: State) {
    forall t: nat :: ReadAt(s, t)
  }

  lemma WasCountGrows(s: State, r: State)
    requires s.hist <= r.hist
    ensures forall v: nat :: WasCount(s, v) ==> WasCount(r, v)
  {
    forall v: nat | WasCount(s, v) ensures WasCount(r, v) {
      var k :| 0 <= k < |s.hist| && s.hist[k].value == v;
      assert r.hist[k].value == v;
    }
  }

  lemma ReadsKeeps(c: Config, s: State, step: Step)
    requires Reads(s) && Enabled(c, s, step)
    ensures Reads(Apply(c, s, step))
  {
    var r := Apply(c, s, step);
    WasCountGrows(s, r);
    forall t: nat ensures ReadAt(r, t) {
      assert ReadAt(s, t);
    }
  }

  lemma {:induction false} RunReads(c: Config, s: State, steps: seq<Step>)
    requires Reads(s) && Runs(c, s, steps)
    ensures Reads(Exec(c, s, steps))
    decreases |steps|
  {
    if steps != [] {
      ReadsKeeps(c, s, steps[0]);
      RunReads(c, Apply(c, s, steps[0]), steps[1..]);
    }
  }

  /** The three places that abort. */
  lemma AbortingStep(c: Config, s: State, step: Step)
    requires Enabled(c, s, step) && Apply(c, s, step).aborted
    ensures step.CloneCheck? || step.IterCas? || step.IterDropCas?
    ensures step.CloneCheck? ==> c.max < s.pcs[step.t].prior
    ensures step.IterCas? ==> c.max < s.pcs[step.t].c + s.pcs[step.t].n
  {
  }

  lemma ReachableReads(c: Config, s: State, t: Tid)
    requires Reachable(c, s)
    ensures ReadAt(s, t)
  {
    var u: nat, strategy: nat, steps: seq<Step> :|
      u < c.n && Runs(c, Init(c, u, strategy), steps) && s == Exec(c, Init(c, u, strategy), steps);
    forall v: nat ensures ReadAt(Init(c, u, strategy), v) {}
    RunReads(c, Init(c, u, strategy), steps);
  }

  /** The process aborts only in `clone` and `clone_many`, over a count that was really there. */
  lemma AbortsJustified(c: Config, s: State, step: Step)
    requires Live(c, s) && Enabled(c, s, step) && Apply(c, s, step).aborted
    ensures step.CloneCheck? || step.IterCas?
    ensures step.CloneCheck? ==> s.pcs[step.t].Cloning? && c.max < s.pcs[step.t].prior && WasCount(s, s.pcs[step.t].prior)
    ensures step.IterCas? ==>
              s.pcs[step.t].Reserving? && c.max < s.pcs[step.t].c + s.pcs[step.t].n && WasCount(s, s.pcs[step.t].c)
  {
    AbortingStep(c, s, step);
    ReachableReads(c, s, step.t);
    if step.IterDropCas? { LeftoverNeverUnderflows(c, s, step.t, step.ok, step.k); }
  }
}
