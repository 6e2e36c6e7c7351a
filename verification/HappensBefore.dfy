/** The views of the protocol are the memory model's: what a thread has seen is what happens before its
    next step, and it may read exactly the messages that coherence leaves it. */
module HappensBefore {
  import opened Protocol
  import opened Invariant
  import opened Safety
  import opened Theorems
  import opened Traces

  // ---- Happens-before, from the steps of a run ----

  /** A run from `Arc::new` on thread `t0`.  Its action 0 is the initialisation and action `j` its step
      `j - 1`, taken in state `j - 1`. */
  datatype Run = Run(c: Config, t0: Tid, strategy: nat, ss: seq<State>, steps: seq<Step>)

  ghost predicate IsRun(run: Run) {
    Trace(run.c, run.t0, run.strategy, run.ss, run.steps)
  }

  ghost predicate IsAction(run: Run, j: nat) {
    j <= |run.steps| < |run.ss|
  }

  function Actor(run: Run, j: nat): Tid {
    if 0 < j <= |run.steps| then run.steps[j - 1].t else run.t0
  }

  /** A step tells thread `u` all that its own thread knows: to itself, to whom it sends or lends
      something, to the owner of what it returns, and by other synchronisation. */
  predicate StepTells(s: State, step: Step, u: Tid) {
    step.t == u
    || match step
       case Send(_, _, w) => w == u
       case Lend(_, _, w) => w == u
       case Synchronise(_, w) => w == u
       case Return(_, x) => x < |s.hs| && s.hs[x].base < |s.hs| && s.hs[s.hs[x].base].at == u
       case _ => false
  }

  predicate Tells(run: Run, j: nat, u: Tid) {
    if j == 0 then run.t0 == u
    else j <= |run.steps| && j <= |run.ss| && StepTells(run.ss[j - 1], run.steps[j - 1], u)
  }

  predicate Releases(c: Config, step: Step) {
    step.DropSub? && c.subRelease
  }

  predicate Acquires(c: Config, step: Step) {
    ((step.Count? || step.IsUnique?) && c.countAcquire) || (step.DropAcquire? && c.dropAcquire)
  }

  /** Action `j` acquires what action `i` released: it reads the message `i` wrote or one after it, all
      of which continue its release sequence. */
  predicate Synchronises(run: Run, i: nat, j: nat) {
    && 0 < i <= |run.steps| && i <= |run.ss| && 0 < j <= |run.steps| && Releases(run.c, run.steps[i - 1]) && Acquires(run.c, run.steps[j - 1])
    && |run.ss[i - 1].hist| <= run.steps[j - 1].k
  }

  predicate Edge(run: Run, i: nat, j: nat) {
    i < j && (Tells(run, i, Actor(run, j)) || Synchronises(run, i, j))
  }

  /** Action `i` happens before action `j`. */
  ghost predicate Precedes(run: Run, i: nat, j: nat)
    decreases j, 0
  {
    exists m :: i <= m < j && Edge(run, m, j) && UpTo(run, i, m)
  }

  ghost predicate UpTo(run: Run, i: nat, m: nat)
    decreases m, 1
  {
    i == m || (i < m && Precedes(run, i, m))
  }

  /** After action `n` thread `u` knows of action `i`. */
  ghost predicate Known(run: Run, n: nat, u: Tid, i: nat) {
    exists m :: i <= m <= n && Tells(run, m, u) && UpTo(run, i, m)
  }

  /** A decrement with message `k` in its release sequence has released action `i`. */
  ghost predicate Released(run: Run, n: nat, k: nat, i: nat) {
    exists m :: i <= m <= n && Frees(run, m, k) && UpTo(run, i, m)
  }

  predicate Frees(run: Run, m: nat, k: nat) {
    0 < m <= |run.steps| && m <= |run.ss| && Releases(run.c, run.steps[m - 1]) && |run.ss[m - 1].hist| <= k
  }

  lemma {:induction false} BeforeIs(run: Run, i: nat, j: nat)
    requires IsAction(run, j) && i < j
    ensures Precedes(run, i, j) <==>
            || Known(run, j - 1, Actor(run, j), i)
            || (Acquires(run.c, run.steps[j - 1]) && Released(run, j - 1, run.steps[j - 1].k, i))
  {
    if Precedes(run, i, j) {
      var m :| i <= m < j && Edge(run, m, j) && UpTo(run, i, m);
      if !Tells(run, m, Actor(run, j)) { assert Frees(run, m, run.steps[j - 1].k); }
    }
    if Known(run, j - 1, Actor(run, j), i) {
      var m :| i <= m <= j - 1 && Tells(run, m, Actor(run, j)) && UpTo(run, i, m);
      assert Edge(run, m, j);
    }
    if Acquires(run.c, run.steps[j - 1]) && Released(run, j - 1, run.steps[j - 1].k, i) {
      var m :| i <= m <= j - 1 && Frees(run, m, run.steps[j - 1].k) && UpTo(run, i, m);
      assert Edge(run, m, j);
    }
  }

  lemma KnownGrows(run: Run, n: nat, u: Tid, i: nat)
    requires IsAction(run, n) && 0 < n && i <= n
    ensures Known(run, n, u, i) <==> Known(run, n - 1, u, i) || (Tells(run, n, u) && UpTo(run, i, n))
  {
    if Known(run, n, u, i) {
      var m :| i <= m <= n && Tells(run, m, u) && UpTo(run, i, m);
      assert m == n || Known(run, n - 1, u, i);
    }
    if Known(run, n - 1, u, i) {
      var m :| i <= m <= n - 1 && Tells(run, m, u) && UpTo(run, i, m);
      assert Known(run, n, u, i);
    }
  }

  lemma ReleasedGrows(run: Run, n: nat, k: nat, i: nat)
    requires IsAction(run, n) && 0 < n && i <= n
    ensures Released(run, n, k, i) <==> Released(run, n - 1, k, i) || (Frees(run, n, k) && UpTo(run, i, n))
  {
    if Released(run, n, k, i) {
      var m :| i <= m <= n && Frees(run, m, k) && UpTo(run, i, m);
      assert m == n || Released(run, n - 1, k, i);
    }
    if Released(run, n - 1, k, i) {
      var m :| i <= m <= n - 1 && Frees(run, m, k) && UpTo(run, i, m);
      assert Released(run, n, k, i);
    }
  }

  // ---- What a step does to views, messages and the log ----

  predicate Accesses(step: Step) {
    step.ReadData? || step.WriteData? || step.IntoInner? || step.DropDispose?
  }

  /** What a step learns and adds beyond what its thread has seen. */
  function Learns(c: Config, s: State, step: Step): set<nat>
    requires Enabled(c, s, step)
  {
    (if Acquires(c, step) then s.hist[step.k].seen else {}) + if Accesses(step) then {|s.log|} else {}
  }

  predicate SeenBy(c: Config, s: State, step: Step, u: Tid, e: nat)
    requires Enabled(c, s, step) && u < |s.views|
  {
    var r := Apply(c, s, step);
    && |r.views| == |s.views| && step.t < |s.views|
    && (e in r.views[u].seen <==>
          || e in s.views[u].seen
          || (StepTells(s, step, u) && (e in s.views[step.t].seen || e in Learns(c, s, step))))
  }

  /** Steps after which another thread may know more. */
  predicate Shares(step: Step) {
    step.Send? || step.Lend? || step.Return? || step.Synchronise?
  }

  lemma SharedSeen(c: Config, s: State, step: Step, u: Tid, e: nat)
    requires Enabled(c, s, step) && u < |s.views| && Shares(step)
    ensures SeenBy(c, s, step, u, e)
  {
  }

  lemma AccessSeen(c: Config, s: State, step: Step, u: Tid, e: nat)
    requires Enabled(c, s, step) && u < |s.views| && Accesses(step)
    ensures SeenBy(c, s, step, u, e)
  {
  }

  lemma AcquiredSeen(c: Config, s: State, step: Step, u: Tid, e: nat)
    requires Enabled(c, s, step) && u < |s.views| && Acquires(c, step)
    ensures SeenBy(c, s, step, u, e)
  {
  }

  lemma SeenStep(c: Config, s: State, step: Step, u: Tid, e: nat)
    requires Enabled(c, s, step) && u < |s.views|
    ensures SeenBy(c, s, step, u, e)
  {
    if Shares(step) {
      SharedSeen(c, s, step, u, e);
    } else if Accesses(step) {
      AccessSeen(c, s, step, u, e);
    } else if Acquires(c, step) {
      AcquiredSeen(c, s, step, u, e);
    }
  }

  /** Only read-modify-writes append messages. */
  predicate Modifies(step: Step) {
    step.CloneAdd? || step.IterCas? || step.IterDropCas? || step.DropSub?
  }

  lemma QuietStep(c: Config, s: State, step: Step)
    requires Enabled(c, s, step) && !Modifies(step)
    ensures Apply(c, s, step).hist == s.hist
  {
  }

  lemma HistStep(c: Config, s: State, step: Step)
    requires Enabled(c, s, step)
    ensures var r := Apply(c, s, step);
            && s.hist <= r.hist && |r.hist| <= |s.hist| + 1
            && (Releases(c, step) ==> |s.hist| < |r.hist|)
            && (|s.hist| < |r.hist| ==>
                  r.hist[|s.hist|].seen == Last(s).seen + if Releases(c, step) then s.views[step.t].seen else {})
  {
    if !Modifies(step) { QuietStep(c, s, step); }
  }

  /** The kind of access of a step. */
  predicate Kinds(act: Act, step: Step) {
    match step
    case ReadData(_, _) => act == Read
    case WriteData(_, _) => act == Write
    case IntoInner(_, x) => act == Take(x)
    case _ => act.Dispose?
  }

  lemma LogStep(c: Config, s: State, step: Step)
    requires Enabled(c, s, step)
    ensures var r := Apply(c, s, step);
            && s.log <= r.log && |r.log| == |s.log| + (if Accesses(step) then 1 else 0)
            && (Accesses(step) ==>
                  var e := r.log[|s.log|]; e.tid == step.t && e.before == s.views[step.t].seen && Kinds(e.act, step))
  {
  }

  // ---- Accesses and their places in the log ----

  predicate IsAccess(run: Run, j: nat) {
    j == 0 || (j <= |run.steps| && Accesses(run.steps[j - 1]))
  }

  /** The place in the log of the access that action `j` is. */
  function EventOf(run: Run, j: nat): nat {
    if 0 < j <= |run.ss| then |run.ss[j - 1].log| else 0
  }

  lemma StepOf(run: Run, n: nat)
    requires IsRun(run) && 0 < n <= |run.steps|
    ensures Enabled(run.c, run.ss[n - 1], run.steps[n - 1]) && run.ss[n] == Apply(run.c, run.ss[n - 1], run.steps[n - 1])
  {
    assert TraceStep(run.c, run.ss, run.steps, n - 1);
  }

  lemma {:induction false} EventInLog(run: Run, j: nat, n: nat)
    requires IsRun(run) && j <= n <= |run.steps| && IsAccess(run, j)
    ensures EventOf(run, j) < |run.ss[n].log| && run.ss[j].log <= run.ss[n].log
    decreases n
  {
    if n != 0 {
      StepOf(run, n);
      LogStep(run.c, run.ss[n - 1], run.steps[n - 1]);
    }
    if j < n { EventInLog(run, j, n - 1); }
  }

  /** Nobody knows of accesses still to come. */
  ghost predicate Sober(s: State) {
    && (forall u: nat, e: nat :: SoberView(s, u, e))
    && (forall k: nat, e: nat :: SoberMsg(s, k, e))
  }

  predicate SoberView(s: State, u: nat, e: nat) {
    u < |s.views| && e in s.views[u].seen ==> e < |s.log|
  }

  predicate SoberMsg(s: State, k: nat, e: nat) {
    k < |s.hist| && e in s.hist[k].seen ==> e < |s.log|
  }

  lemma SoberViewStep(c: Config, s: State, step: Step, u: nat, e: nat)
    requires Sober(s) && Enabled(c, s, step)
    ensures SoberView(Apply(c, s, step), u, e)
  {
    LogStep(c, s, step);
    SeenStep(c, s, step, if u < |s.views| then u else step.t, e);
    assert SoberView(s, u, e) && SoberView(s, step.t, e);
    if Acquires(c, step) { assert SoberMsg(s, step.k, e); }
  }

  lemma SoberMsgStep(c: Config, s: State, step: Step, k: nat, e: nat)
    requires Sober(s) && Enabled(c, s, step)
    ensures SoberMsg(Apply(c, s, step), k, e)
  {
    LogStep(c, s, step);
    HistStep(c, s, step);
    assert SoberMsg(s, k, e) && SoberMsg(s, |s.hist| - 1, e) && SoberView(s, step.t, e);
  }

  lemma {:induction false} RunSober(run: Run, n: nat)
    requires IsRun(run) && n <= |run.steps|
    ensures Sober(run.ss[n])
  {
    if n == 0 {
      forall u: nat, e: nat ensures SoberView(run.ss[0], u, e) && SoberMsg(run.ss[0], u, e) {}
    } else {
      RunSober(run, n - 1);
      StepOf(run, n);
      var s, step := run.ss[n - 1], run.steps[n - 1];
      forall u: nat, e: nat ensures SoberView(run.ss[n], u, e) { SoberViewStep(run.c, s, step, u, e); }
      forall k: nat, e: nat ensures SoberMsg(run.ss[n], k, e) { SoberMsgStep(run.c, s, step, k, e); }
    }
  }

  // ---- Views are happens-before ----

  ghost predicate Agrees(run: Run, n: nat) {
    && (forall u: nat, i: nat :: ViewAgrees(run, n, u, i))
    && (forall k: nat, i: nat :: MsgAgrees(run, n, k, i))
  }

  ghost predicate ViewAgrees(run: Run, n: nat, u: nat, i: nat) {
    n < |run.ss| && u < |run.ss[n].views| && i <= n && IsAccess(run, i) ==>
      (EventOf(run, i) in run.ss[n].views[u].seen <==> Known(run, n, u, i))
  }

  ghost predicate MsgAgrees(run: Run, n: nat, k: nat, i: nat) {
    n < |run.ss| && k < |run.ss[n].hist| && i <= n && IsAccess(run, i) ==>
      (EventOf(run, i) in run.ss[n].hist[k].seen <==> Released(run, n, k, i))
  }

  lemma ViewStep(run: Run, n: nat, u: nat, i: nat)
    requires IsRun(run) && 0 < n <= |run.steps| && Agrees(run, n - 1) && Sober(run.ss[n - 1])
    ensures ViewAgrees(run, n, u, i)
  {
    StepOf(run, n);
    var s, step := run.ss[n - 1], run.steps[n - 1];
    if u < |run.ss[n].views| && i <= n && IsAccess(run, i) {
      var e := EventOf(run, i);
      SeenStep(run.c, s, step, u, e);
      KnownGrows(run, n, u, i);
      assert SoberView(s, u, e) && SoberView(s, step.t, e);
      if i < n {
        EventInLog(run, i, n - 1);
        BeforeIs(run, i, n);
        assert ViewAgrees(run, n - 1, u, i) && ViewAgrees(run, n - 1, step.t, i);
        if Acquires(run.c, step) { assert MsgAgrees(run, n - 1, step.k, i); }
      } else {
        assert !Known(run, n - 1, u, i);
      }
    }
  }

  lemma MsgStep(run: Run, n: nat, k: nat, i: nat)
    requires IsRun(run) && 0 < n <= |run.steps| && Agrees(run, n - 1) && Sober(run.ss[n - 1])
    ensures MsgAgrees(run, n, k, i)
  {
    StepOf(run, n);
    var s, step := run.ss[n - 1], run.steps[n - 1];
    if k < |run.ss[n].hist| && i <= n && IsAccess(run, i) {
      var e := EventOf(run, i);
      HistStep(run.c, s, step);
      ReleasedGrows(run, n, k, i);
      if i < n {
        BeforeIs(run, i, n);
        ReleasedBy(run, n - 1, i);
        assert MsgAgrees(run, n - 1, k, i) && MsgAgrees(run, n - 1, |s.hist| - 1, i) && ViewAgrees(run, n - 1, step.t, i);
      } else {
        assert SoberMsg(s, k, e) && SoberMsg(s, |s.hist| - 1, e);
        assert !Released(run, n - 1, k, i);
      }
    }
  }

  /** All that is released so far is released by the newest message. */
  lemma ReleasedBy(run: Run, n: nat, i: nat)
    requires IsRun(run) && n <= |run.steps|
    ensures 0 < |run.ss[n].hist|
    ensures forall k: nat | |run.ss[n].hist| <= k :: Released(run, n, k, i) <==> Released(run, n, |run.ss[n].hist| - 1, i)
  {
    HistGrows(run, 0, n);
    forall k: nat | |run.ss[n].hist| <= k ensures Released(run, n, k, i) <==> Released(run, n, |run.ss[n].hist| - 1, i) {
      if Released(run, n, k, i) {
        var m :| i <= m <= n && Frees(run, m, k) && UpTo(run, i, m);
        StepOf(run, m);
        HistStep(run.c, run.ss[m - 1], run.steps[m - 1]);
        HistGrows(run, m, n);
        assert Frees(run, m, |run.ss[n].hist| - 1);
      }
      if Released(run, n, |run.ss[n].hist| - 1, i) {
        var m :| i <= m <= n && Frees(run, m, |run.ss[n].hist| - 1) && UpTo(run, i, m);
        assert Frees(run, m, k);
      }
    }
  }

  lemma {:induction false} HistGrows(run: Run, m: nat, n: nat)
    requires IsRun(run) && m <= n <= |run.steps|
    ensures 0 < |run.ss[m].hist| <= |run.ss[n].hist|
    decreases n
  {
    if m < n {
      HistGrows(run, m, n - 1);
      StepOf(run, n);
      HistStep(run.c, run.ss[n - 1], run.steps[n - 1]);
    } else if 0 < n {
      HistGrows(run, n - 1, n - 1);
      StepOf(run, n);
      HistStep(run.c, run.ss[n - 1], run.steps[n - 1]);
    }
  }

  lemma AgreesAtFirst(run: Run)
    requires IsRun(run)
    ensures Agrees(run, 0)
  {
    forall u: nat, i: nat ensures ViewAgrees(run, 0, u, i) {
      if i == 0 {
        assert UpTo(run, 0, 0);
        assert Known(run, 0, u, 0) <==> Tells(run, 0, u);
      }
    }
    forall k: nat, i: nat ensures MsgAgrees(run, 0, k, i) {}
  }

  lemma {:induction false} RunAgrees(run: Run, n: nat)
    requires IsRun(run) && n <= |run.steps|
    ensures Agrees(run, n)
  {
    if n == 0 {
      AgreesAtFirst(run);
    } else {
      RunAgrees(run, n - 1);
      RunSober(run, n - 1);
      forall u: nat, i: nat ensures ViewAgrees(run, n, u, i) { ViewStep(run, n, u, i); }
      forall k: nat, i: nat ensures MsgAgrees(run, n, k, i) { MsgStep(run, n, k, i); }
    }
  }

  /** With any orderings: what a run logs as happening before an access is what does. */
  lemma {:induction false} LogIsHappensBefore(run: Run, i: nat, j: nat)
    requires IsRun(run) && i < j <= |run.steps| && IsAccess(run, i) && IsAccess(run, j)
    ensures EventOf(run, i) < EventOf(run, j) < |run.ss[|run.steps|].log|
    ensures EventOf(run, i) in run.ss[|run.steps|].log[EventOf(run, j)].before <==> Precedes(run, i, j)
  {
    StepOf(run, j);
    LogStep(run.c, run.ss[j - 1], run.steps[j - 1]);
    EventInLog(run, j, |run.steps|);
    EventInLog(run, i, j - 1);
    RunAgrees(run, j - 1);
    assert ViewAgrees(run, j - 1, Actor(run, j), i);
    BeforeIs(run, i, j);
  }

  /** Action `j` only reads the data. */
  predicate OnlyReads(run: Run, j: nat) {
    0 < j <= |run.steps| && run.steps[j - 1].ReadData?
  }

  /** Of any two accesses of a run that are not both reads, the first happens before the second:
      initialisation, writes, `into_inner` and disposal included. */
  lemma {:induction false} DataRaceFree(run: Run, i: nat, j: nat)
    requires IsRun(run) && AsWritten(run.c) && run.c.n <= run.c.max
    requires i < j <= |run.steps| && IsAccess(run, i) && IsAccess(run, j) && !(OnlyReads(run, i) && OnlyReads(run, j))
    ensures Precedes(run, i, j)
  {
    var n := |run.steps|;
    LogIsHappensBefore(run, i, j);
    TraceReaches(run.c, run.t0, run.strategy, run.ss, run.steps, n);
    NoDataRace(run.c, run.ss[n]);
    assert Ordered(run.ss[n].log, EventOf(run, i), EventOf(run, j));
    ActOf(run, i);
    ActOf(run, j);
  }

  lemma ActOf(run: Run, j: nat)
    requires IsRun(run) && j <= |run.steps| && IsAccess(run, j)
    ensures EventOf(run, j) < |run.ss[|run.steps|].log|
    ensures run.ss[|run.steps|].log[EventOf(run, j)].act == Read <==> OnlyReads(run, j)
  {
    EventInLog(run, j, |run.steps|);
    if 0 < j {
      StepOf(run, j);
      LogStep(run.c, run.ss[j - 1], run.steps[j - 1]);
    }
  }

  // ---- What a thread may read is coherence ----

  /** The message that a step reads or writes, or -1. */
  function StepTouches(c: Config, s: State, step: Step): int
    requires Enabled(c, s, step)
  {
    match step
    case CloneAdd(_, _, _) => |s.hist|
    case IterLoad(_, _, _, k) => k
    case IterCas(t, ok, k) => if c.max < s.pcs[t].c + s.pcs[t].n then -1 else if ok then |s.hist| else k
    case IterDrop(_, x, k) => if s.hs[x].weight == 0 then -1 else k
    case IterDropCas(t, ok, k) => if s.pcs[t].c < s.hs[s.pcs[t].i].weight then -1 else if ok then |s.hist| else k
    case DropSub(_, _) => |s.hist|
    case DropAcquire(_, k) => k
    case Count(_, _, k) => k
    case IsUnique(_, _, k) => k
    case _ => -1
  }

  ghost function Touches(run: Run, j: nat): int
    requires IsRun(run) && j <= |run.steps|
  {
    if j == 0 then 0
    else
      StepOf(run, j);
      StepTouches(run.c, run.ss[j - 1], run.steps[j - 1])
  }

  function Larger(a: int, b: int): int {
    if a < b then b else a
  }

  predicate ReadsUpTo(c: Config, s: State, step: Step, u: Tid)
    requires Enabled(c, s, step) && u < |s.views|
  {
    var r := Apply(c, s, step);
    && u < |r.views| && step.t < |s.views|
    && r.views[u].ts == if StepTells(s, step, u) then Larger(Larger(s.views[u].ts, s.views[step.t].ts), StepTouches(c, s, step))
                        else s.views[u].ts
  }

  lemma SharedReads(c: Config, s: State, step: Step, u: Tid)
    requires Enabled(c, s, step) && u < |s.views| && Shares(step)
    ensures ReadsUpTo(c, s, step, u)
  {
  }

  lemma StepReads(c: Config, s: State, step: Step, u: Tid)
    requires Enabled(c, s, step) && u < |s.views| && s.views[u].ts < |s.hist|
    ensures ReadsUpTo(c, s, step, u)
  {
    if Shares(step) { SharedReads(c, s, step, u); }
  }

  lemma TouchesOld(c: Config, s: State, step: Step)
    requires Enabled(c, s, step)
    ensures StepTouches(c, s, step) < |Apply(c, s, step).hist|
    ensures StepTouches(c, s, step) <= |s.hist|
  {
    HistStep(c, s, step);
  }

  lemma TouchedBefore(run: Run, i: nat, m: nat)
    requires IsRun(run) && i <= m <= |run.steps| && 0 < m
    ensures Touches(run, i) <= |run.ss[m - 1].hist|
  {
    HistGrows(run, 0, m - 1);
    if 0 < i {
      StepOf(run, i);
      TouchesOld(run.c, run.ss[i - 1], run.steps[i - 1]);
      HistGrows(run, i - 1, m - 1);
    }
  }

  /** The view is not older than anything the thread knows of, and is one of those messages. */
  ghost predicate Coherent(run: Run, n: nat)
    requires IsRun(run) && n <= |run.steps|
  {
    && |run.ss[n].views| == run.c.n
    && (forall u: nat, i: nat :: NotOlder(run, n, u, i))
    && (forall u: nat :: Reached(run, n, u))
  }

  ghost predicate NotOlder(run: Run, n: nat, u: nat, i: nat)
    requires IsRun(run) && n <= |run.steps|
  {
    u < |run.ss[n].views| && i <= n && Known(run, n, u, i) ==> Touches(run, i) <= run.ss[n].views[u].ts
  }

  ghost predicate Reached(run: Run, n: nat, u: nat)
    requires IsRun(run) && n <= |run.steps|
  {
    u < |run.ss[n].views| ==>
      && run.ss[n].views[u].ts < |run.ss[n].hist|
      && (run.ss[n].views[u].ts == 0 || exists i: nat :: i <= n && Known(run, n, u, i) && TouchesAt(run, i, run.ss[n].views[u].ts))
  }

  ghost predicate TouchesAt(run: Run, i: nat, k: nat)
    requires IsRun(run)
  {
    i <= |run.steps| && Touches(run, i) == k
  }

  lemma ViewIs(run: Run, n: nat, u: nat)
    requires IsRun(run) && 0 < n <= |run.steps| && u < run.c.n && Coherent(run, n - 1)
    ensures |run.ss[n].views| == run.c.n
    ensures run.steps[n - 1].t < run.c.n
    ensures var s, step := run.ss[n - 1], run.steps[n - 1];
            run.ss[n].views[u].ts
              == if Tells(run, n, u) then Larger(Larger(s.views[u].ts, s.views[step.t].ts), Touches(run, n)) else s.views[u].ts
  {
    StepOf(run, n);
    var s, step := run.ss[n - 1], run.steps[n - 1];
    assert Reached(run, n - 1, u);
    SeenStep(run.c, s, step, u, 0);
    StepReads(run.c, s, step, u);
  }

  lemma NotOlderStep(run: Run, n: nat, u: nat, i: nat)
    requires IsRun(run) && 0 < n <= |run.steps| && Coherent(run, n - 1)
    ensures NotOlder(run, n, u, i)
  {
    if u < run.c.n && i <= n && Known(run, n, u, i) {
      ViewIs(run, n, u);
      StepOf(run, n);
      KnownGrows(run, n, u, i);
      var t := run.steps[n - 1].t;
      assert NotOlder(run, n - 1, u, i) && NotOlder(run, n - 1, t, i);
      if !Known(run, n - 1, u, i) && i < n {
        BeforeIs(run, i, n);
        if !Known(run, n - 1, t, i) {
          var k := run.steps[n - 1].k;
          var m :| i <= m <= n - 1 && Frees(run, m, k) && UpTo(run, i, m);
          TouchedBefore(run, i, m);
        }
      }
    } else {
      ViewIs(run, n, 0);
    }
  }

  lemma ReachedStep(run: Run, n: nat, u: nat)
    requires IsRun(run) && 0 < n <= |run.steps| && u < run.c.n && Coherent(run, n - 1)
    ensures Reached(run, n, u)
  {
    ViewIs(run, n, u);
    StepOf(run, n);
    HistGrows(run, n - 1, n);
    TouchesOld(run.c, run.ss[n - 1], run.steps[n - 1]);
    var s, t, ts := run.ss[n - 1], run.steps[n - 1].t, run.ss[n].views[u].ts;
    assert Reached(run, n - 1, u) && Reached(run, n - 1, t);
    if ts == 0 {
    } else if ts == s.views[u].ts {
      var i: nat :| i <= n - 1 && Known(run, n - 1, u, i) && TouchesAt(run, i, ts);
      KnownGrows(run, n, u, i);
    } else if ts == s.views[t].ts {
      var i: nat :| i <= n - 1 && Known(run, n - 1, t, i) && TouchesAt(run, i, ts);
      KnownGrows(run, n, u, i);
      BeforeIs(run, i, n);
    } else {
      KnownGrows(run, n, u, n);
      assert TouchesAt(run, n, ts);
    }
  }

  lemma {:induction false} RunCoherent(run: Run, n: nat)
    requires IsRun(run) && n <= |run.steps|
    ensures Coherent(run, n)
  {
    if n == 0 {
      forall u: nat, i: nat ensures NotOlder(run, 0, u, i) && Reached(run, 0, u) {}
    } else {
      RunCoherent(run, n - 1);
      ViewIs(run, n, 0);
      forall u: nat, i: nat ensures NotOlder(run, n, u, i) { NotOlderStep(run, n, u, i); }
      forall u: nat ensures Reached(run, n, u) { if u < run.c.n { ReachedStep(run, n, u); } }
    }
  }

  /** With any orderings: a thread may read a message if and only if it knows of no action that read or
      wrote a newer one. */
  lemma ReadsAreCoherent(run: Run, n: nat, u: Tid, k: nat)
    requires IsRun(run) && n <= |run.steps| && u < run.c.n
    ensures CanRead(run.ss[n], u, k) <==>
            k < |run.ss[n].hist| && forall i: nat | i <= n && Known(run, n, u, i) :: Touches(run, i) <= k
  {
    RunCoherent(run, n);
    assert Reached(run, n, u);
    forall i: nat | i <= n && Known(run, n, u, i) ensures Touches(run, i) <= run.ss[n].views[u].ts {
      assert NotOlder(run, n, u, i);
    }
    if run.ss[n].views[u].ts != 0 {
      var i: nat :| i <= n && Known(run, n, u, i) && TouchesAt(run, i, run.ss[n].views[u].ts);
      assert Touches(run, i) == run.ss[n].views[u].ts;
    }
  }
}
