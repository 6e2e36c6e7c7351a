/** Concrete runs: each of the three orderings the code asks for is needed, and a shared handle may
    be told an outdated count. */
module Orderings {
  import opened Protocol
  import opened Invariant
  import opened Safety
  import opened Theorems

  // ---- Extending a run ----

  lemma {:induction false} ExecAppend(c: Config, s: State, steps: seq<Step>, step: Step)
    requires Runs(c, s, steps) && Enabled(c, Exec(c, s, steps), step)
    ensures Runs(c, s, steps + [step]) && Exec(c, s, steps + [step]) == Apply(c, Exec(c, s, steps), step)
    decreases |steps|
  {
    if steps == [] {
      assert [step][1..] == [];
    } else {
      ExecAppend(c, Apply(c, s, steps[0]), steps[1..], step);
      assert (steps + [step])[1..] == steps[1..] + [step];
    }
  }

  lemma ReachInit(c: Config, t: Tid, strategy: nat)
    requires t < c.n
    ensures Reachable(c, Init(c, t, strategy))
  {
    assert Runs(c, Init(c, t, strategy), []);
  }

  lemma ReachStep(c: Config, s: State, step: Step)
    requires Reachable(c, s) && Enabled(c, s, step)
    ensures Reachable(c, Apply(c, s, step))
  {
    var t: nat, strategy: nat, steps: seq<Step> :|
      t < c.n && Runs(c, Init(c, t, strategy), steps) && s == Exec(c, Init(c, t, strategy), steps);
    ExecAppend(c, Init(c, t, strategy), steps, step);
  }

  // ---- Two threads share the allocation; the second reads the data and drops its handle ----

  predicate Situation(c: Config, s: State, a: Holder, b: Holder) {
    && 2 <= c.n <= c.max && c.n == |s.views| == |s.pcs| && !s.aborted
    && |s.hs| == 2 && s.hs[0] == a && s.hs[1] == b && 2 <= |s.hist|
  }

  const MINE := Holder(Handle, 0, 1, 0, 0, 0)
  const YOURS := Holder(Handle, 1, 1, 1, 0, 0)
  const GONE := Holder(Dead, 1, 0, 1, 0, 0)

  predicate Shared(s: State) {
    |s.hist| == 2 && s.hist[0].seen == s.hist[1].seen == {} && s.hist[1].value == 2
  }

  /** Thread 0 is cloning its handle. */
  predicate InClone(c: Config, s: State) {
    && Situation(c, s, MINE, Holder(Pending, 0, 1, 1, 0, 0)) && s.pcs[0] == Cloning(1, 1) && s.pcs[1] == Idle
    && Shared(s) && s.views[0] == View(1, {0}) && |s.log| == 1
  }

  lemma Clones(c: Config)
    requires 2 <= c.n <= c.max
    ensures var s := Init(c, 0, 0); Enabled(c, s, CloneAdd(0, 0, 0)) && InClone(c, Apply(c, s, CloneAdd(0, 0, 0)))
  {
  }

  predicate HasClone(c: Config, s: State) {
    && Situation(c, s, MINE, YOURS.(at := 0)) && s.pcs[0] == s.pcs[1] == Idle
    && Shared(s) && s.views[0] == View(1, {0}) && |s.log| == 1
  }

  lemma Checks(c: Config, s: State)
    requires InClone(c, s)
    ensures Enabled(c, s, CloneCheck(0)) && HasClone(c, Apply(c, s, CloneCheck(0)))
  {
  }

  predicate Given(c: Config, s: State) {
    && Situation(c, s, MINE, YOURS) && s.pcs[0] == s.pcs[1] == Idle
    && Shared(s) && s.views[0] == View(1, {0}) && |s.log| == 1
  }

  lemma Gives(c: Config, s: State)
    requires HasClone(c, s)
    ensures Enabled(c, s, Send(0, 1, 1)) && Given(c, Apply(c, s, Send(0, 1, 1)))
  {
    assert Exclusive(s, 1);
  }

  predicate HasRead(c: Config, s: State) {
    && Situation(c, s, MINE, YOURS) && s.pcs[0] == s.pcs[1] == Idle
    && Shared(s) && s.views[0] == View(1, {0}) && |s.log| == 2 && s.log[1].act == Read
  }

  lemma Looks(c: Config, s: State)
    requires Given(c, s)
    ensures Enabled(c, s, ReadData(1, 1)) && HasRead(c, Apply(c, s, ReadData(1, 1)))
  {
  }

  /** Thread 1 has dropped its handle; the count of 1 releases its read only if the decrement does. */
  predicate SecondGone(c: Config, s: State) {
    && Situation(c, s, MINE, GONE) && s.pcs[0] == Idle
    && |s.hist| == 3 && s.hist[2].value == 1 && (!c.subRelease ==> s.hist[2].seen == {})
    && s.views[0] == View(1, {0}) && |s.log| == 2 && s.log[1].act == Read
  }

  lemma Leaves(c: Config, s: State)
    requires HasRead(c, s)
    ensures Enabled(c, s, DropSub(1, 1)) && SecondGone(c, Apply(c, s, DropSub(1, 1)))
  {
    assert Exclusive(s, 1);
  }

  lemma SecondGoes(c: Config) returns (s: State)
    requires 2 <= c.n <= c.max
    ensures Reachable(c, s) && SecondGone(c, s)
  {
    ReachInit(c, 0, 0);
    Clones(c);
    ReachStep(c, Init(c, 0, 0), CloneAdd(0, 0, 0));
    s := Apply(c, Init(c, 0, 0), CloneAdd(0, 0, 0));
    Checks(c, s);
    ReachStep(c, s, CloneCheck(0));
    s := Apply(c, s, CloneCheck(0));
    Gives(c, s);
    ReachStep(c, s, Send(0, 1, 1));
    s := Apply(c, s, Send(0, 1, 1));
    Looks(c, s);
    ReachStep(c, s, ReadData(1, 1));
    s := Apply(c, s, ReadData(1, 1));
    Leaves(c, s);
    ReachStep(c, s, DropSub(1, 1));
    s := Apply(c, s, DropSub(1, 1));
  }

  // ---- What goes wrong ----

  /** Access 2, a write or the disposal by thread 0, does not know of access 1. */
  predicate Unordered(s: State) {
    |s.log| == 3 && s.log[2].act != Read && 1 !in s.log[2].before
  }

  lemma UnorderedRaces(s: State)
    requires Unordered(s)
    ensures !RaceFree(s.log)
  {
    assert !Ordered(s.log, 1, 2);
  }

  predicate Claimed(c: Config, s: State) {
    && Situation(c, s, MINE.(kind := Unique), GONE) && s.pcs[0] == Idle && 1 !in s.views[0].seen && |s.log| == 2
  }

  lemma Claims(c: Config, s: State)
    requires SecondGone(c, s) && (!c.subRelease || !c.countAcquire)
    ensures Enabled(c, s, IsUnique(0, 0, 2)) && Claimed(c, Apply(c, s, IsUnique(0, 0, 2)))
  {
    assert Exclusive(s, 0);
  }

  lemma Writes(c: Config, s: State)
    requires Claimed(c, s)
    ensures Enabled(c, s, WriteData(0, 0)) && Unordered(Apply(c, s, WriteData(0, 0)))
  {
  }

  /** Without the release in `drop` or the acquire in `count`, `get_mut` races with a reader. */
  lemma UniqueRaces(c: Config) returns (s: State)
    requires 2 <= c.n <= c.max && (!c.subRelease || !c.countAcquire)
    ensures Reachable(c, s) && !RaceFree(s.log)
  {
    s := SecondGoes(c);
    Claims(c, s);
    ReachStep(c, s, IsUnique(0, 0, 2));
    s := Apply(c, s, IsUnique(0, 0, 2));
    Writes(c, s);
    ReachStep(c, s, WriteData(0, 0));
    s := Apply(c, s, WriteData(0, 0));
    UnorderedRaces(s);
  }

  predicate Ending(c: Config, s: State, pc: Pc) {
    && Situation(c, s, MINE.(kind := Dead, weight := 0), GONE) && s.pcs[0] == pc
    && s.views[0] == View(3, {0}) && |s.hist| == 4 && |s.log| == 2
  }

  lemma Drops0(c: Config, s: State)
    requires SecondGone(c, s)
    ensures Enabled(c, s, DropSub(0, 0)) && Ending(c, Apply(c, s, DropSub(0, 0)), DropLoad(0))
  {
    assert Exclusive(s, 0);
  }

  lemma Loads0(c: Config, s: State)
    requires Ending(c, s, DropLoad(0)) && !c.dropAcquire
    ensures Enabled(c, s, DropAcquire(0, 3)) && Ending(c, Apply(c, s, DropAcquire(0, 3)), DropSlow(0))
  {
  }

  lemma Disposes0(c: Config, s: State)
    requires Ending(c, s, DropSlow(0))
    ensures Enabled(c, s, DropDispose(0)) && Unordered(Apply(c, s, DropDispose(0)))
  {
  }

  /** Without the acquire load in `drop`, disposal races with a reader. */
  lemma DisposalRaces(c: Config) returns (s: State)
    requires 2 <= c.n <= c.max && !c.dropAcquire
    ensures Reachable(c, s) && !RaceFree(s.log)
  {
    s := SecondGoes(c);
    Drops0(c, s);
    ReachStep(c, s, DropSub(0, 0));
    s := Apply(c, s, DropSub(0, 0));
    Loads0(c, s);
    ReachStep(c, s, DropAcquire(0, 3));
    s := Apply(c, s, DropAcquire(0, 3));
    Disposes0(c, s);
    ReachStep(c, s, DropDispose(0));
    s := Apply(c, s, DropDispose(0));
    UnorderedRaces(s);
  }

  /** With two or more threads the protocol is free of data races exactly with a releasing
      decrement, an acquiring `count` and an acquiring load before disposal; the increments and
      the return of a leftover need no ordering. */
  lemma OrderingsExact(c: Config)
    requires 2 <= c.n <= c.max
    ensures (forall s | Reachable(c, s) :: RaceFree(s.log)) <==> AsWritten(c)
  {
    if AsWritten(c) {
      forall s | Reachable(c, s) ensures RaceFree(s.log) { NoDataRace(c, s); }
    } else if c.dropAcquire {
      var s := UniqueRaces(c);
    } else {
      var s := DisposalRaces(c);
    }
  }

  // ---- A count of 1 that is out of date ----

  predicate LentOut(c: Config, s: State, pc: Pc) {
    && 2 <= c.n == |s.views| == |s.pcs| && !s.aborted && s.pcs[0] == pc && s.pcs[1] == Idle
    && s.hs == [MINE, Holder(Borrow, 1, 0, 0, 0, 0)] && |s.hist| == 1 && s.hist[0].value == 1
    && s.views[0].ts == 0 && s.views[1].ts == 0
  }

  lemma Lends(c: Config)
    requires 2 <= c.n
    ensures var s := Init(c, 0, 0); Enabled(c, s, Lend(0, 0, 1)) && LentOut(c, Apply(c, s, Lend(0, 0, 1)), Idle)
  {
  }

  lemma Begins(c: Config, s: State, n: nat)
    requires LentOut(c, s, Idle)
    ensures Enabled(c, s, IterLoad(0, 0, n, 0)) && LentOut(c, Apply(c, s, IterLoad(0, 0, n, 0)), Reserving(0, n, 1))
  {
  }

  lemma Reserves(c: Config, s: State, n: nat)
    requires LentOut(c, s, Reserving(0, n, 1)) && 1 + n <= c.max
    ensures Enabled(c, s, IterCas(0, true, 0)) && StaleOne(c, Apply(c, s, IterCas(0, true, 0)), n)
  {
  }

  /** Thread 1 can ask the handle it borrowed for its count and be told 1, with `n` reserved. */
  predicate StaleOne(c: Config, s: State, n: nat) {
    && |s.hs| == 3 && s.hs[2].kind == Iter && s.hs[2].weight == n
    && |s.hist| == 2 && s.hist[0].value == 1 && s.hist[1].value == 1 + n
    && Enabled(c, s, Count(1, 1, 0)) && s.hs[1].kind == Borrow && s.hs[1].base == 0
  }

  /** `is_unique` through a shared borrow may miss a reservation of any size. */
  lemma SharedMayBeStale(c: Config, n: nat) returns (s: State)
    requires 2 <= c.n && 1 + n <= c.max
    ensures Reachable(c, s) && StaleOne(c, s, n)
  {
    s := Init(c, 0, 0);
    ReachInit(c, 0, 0);
    Lends(c);
    ReachStep(c, s, Lend(0, 0, 1));
    s := Apply(c, s, Lend(0, 0, 1));
    Begins(c, s, n);
    ReachStep(c, s, IterLoad(0, 0, n, 0));
    s := Apply(c, s, IterLoad(0, 0, n, 0));
    Reserves(c, s, n);
    ReachStep(c, s, IterCas(0, true, 0));
    s := Apply(c, s, IterCas(0, true, 0));
  }
}
