/** The reference-count protocol of `Arc` under release/acquire views.

    One allocation, its atomic count and any number of threads.  The count is its
    modification order: a sequence of messages, each with a value and the set of data
    accesses it releases.  A thread's view is the oldest message it may still read and
    the data accesses that happen before its next step.  A load may read any message
    that is not older than the view; a read-modify-write reads the last message, appends
    a new one and carries the released accesses along (release sequences, section
    [intro.races] of C++20, the model Rust's atomics follow).

    Everything that keeps the allocation alive is a holder: a handle, a handle known to
    be unique, a clone between its `fetch_add` and its check, an `ArcCloneIter`, a
    borrowed `&Arc`, or something that was passed to `mem::forget`. */
module Protocol {

  type Tid = nat

  datatype View = View(ts: nat, seen: set<nat>)

  datatype Msg = Msg(value: nat, seen: set<nat>)

  datatype Kind = Handle | Unique | Pending | Iter | Borrow | Forgotten | Dead

  /** `weight` is the part of the count the holder accounts for, `birth` the message that
      added it, and `base` (of a borrow or an iterator) the handle it borrows from. */
  datatype Holder = Holder(kind: Kind, at: Tid, weight: nat, birth: nat, base: nat, strategy: nat)

  datatype Act = Read | Write | Take(h: nat) | Dispose(h: nat, strategy: nat)

  /** A data access and the accesses that happen before it. */
  datatype Event = Event(tid: Tid, act: Act, before: set<nat>)

  /** Where a thread is inside an operation that takes several steps. */
  datatype Pc =
    | Idle
    | Cloning(p: nat, prior: nat)
    | Reserving(x: nat, n: nat, c: nat)
    | Returning(i: nat, c: nat)
    | DropLoad(h: nat)
    | DropSlow(h: nat)

  /** `n` threads, `max` for `isize::MAX`, and whether the `fetch_sub` of `drop` releases,
      the load of `count` acquires and the load of `drop` acquires. */
  datatype Config = Config(n: nat, max: nat, subRelease: bool, countAcquire: bool, dropAcquire: bool)

  /** The orderings the code uses. */
  predicate AsWritten(c: Config) {
    c.subRelease && c.countAcquire && c.dropAcquire
  }

  datatype State = State(
    hist: seq<Msg>,
    views: seq<View>,
    pcs: seq<Pc>,
    hs: seq<Holder>,
    log: seq<Event>,
    drops: seq<nat>,
    freed: bool,
    aborted: bool)

  /** `Arc::new` on thread `t`; event 0 is the initialisation of the data. */
  function Init(c: Config, t: Tid, strategy: nat): State
    requires t < c.n
  {
    State([Msg(1, {})],
          seq(c.n, u => if u == t then View(0, {0}) else View(0, {})),
          seq(c.n, u => Idle),
          [Holder(Handle, t, 1, 0, 0, strategy)],
          [Event(t, Write, {})],
          [],
          false,
          false)
  }

  // ---- What a thread may do ----

  predicate Active(h: Holder) {
    h.kind != Dead
  }

  predicate Based(h: Holder, g: nat) {
    (h.kind == Borrow || h.kind == Iter) && h.base == g
  }

  /** No borrow of `g` is outstanding, so its owner may move or mutate it. */
  predicate Exclusive(s: State, g: nat) {
    forall x | 0 <= x < |s.hs| :: !Based(s.hs[x], g)
  }

  /** Thread `t` holds `x` and is not inside another operation. */
  predicate Holds(c: Config, s: State, t: Tid, x: nat) {
    t < c.n && t < |s.pcs| && t < |s.views| && s.pcs[t] == Idle && x < |s.hs| && s.hs[x].at == t
  }

  /** Through `x` thread `t` has an `&Arc`: its own handle or a borrowed one. */
  predicate Access(s: State, t: Tid, x: nat) {
    x < |s.hs| && s.hs[x].at == t && (s.hs[x].kind == Handle || s.hs[x].kind == Borrow)
  }

  function Target(s: State, x: nat): nat
    requires x < |s.hs|
  {
    if s.hs[x].kind == Borrow then s.hs[x].base else x
  }

  /** A load by `t` may read message `k`. */
  predicate CanRead(s: State, t: Tid, k: nat) {
    t < |s.views| && s.views[t].ts <= k < |s.hist|
  }

  /** `Synchronise` is anything outside the allocation that orders two threads; a mutex or a
      channel is a thread that does nothing else. */
  datatype Step =
    | CloneAdd(t: Tid, x: nat, strategy: nat)
    | CloneCheck(t: Tid)
    | IterLoad(t: Tid, x: nat, n: nat, k: nat)
    | IterCas(t: Tid, ok: bool, k: nat)
    | IterNext(t: Tid, x: nat)
    | IterDrop(t: Tid, x: nat, k: nat)
    | IterDropCas(t: Tid, ok: bool, k: nat)
    | DropSub(t: Tid, x: nat)
    | DropAcquire(t: Tid, k: nat)
    | DropDispose(t: Tid)
    | Count(t: Tid, x: nat, k: nat)
    | IsUnique(t: Tid, x: nat, k: nat)
    | Shareable(t: Tid, x: nat)
    | ReadData(t: Tid, x: nat)
    | WriteData(t: Tid, x: nat)
    | IntoInner(t: Tid, x: nat)
    | Send(t: Tid, x: nat, u: Tid)
    | Lend(t: Tid, x: nat, u: Tid)
    | Return(t: Tid, x: nat)
    | Forget(t: Tid, x: nat)
    | WithStrategy(t: Tid, x: nat, strategy: nat)
    | Synchronise(t: Tid, u: Tid)

  predicate Enabled(c: Config, s: State, step: Step) {
    && !s.aborted
    && 0 < |s.hist|
    && |s.views| == |s.pcs| == c.n
    && match step
       case CloneAdd(t, x, _) => Holds(c, s, t, x) && Access(s, t, x)
       case CloneCheck(t) => t < c.n && s.pcs[t].Cloning? && s.pcs[t].p < |s.hs|
       case IterLoad(t, x, _, k) => Holds(c, s, t, x) && Access(s, t, x) && CanRead(s, t, k)
       case IterCas(t, ok, k) =>
         && t < c.n && s.pcs[t].Reserving? && s.pcs[t].x < |s.hs| && CanRead(s, t, k)
         && (ok ==> Last(s).value == s.pcs[t].c)
       case IterNext(t, x) => Holds(c, s, t, x) && s.hs[x].kind == Iter && 0 < s.hs[x].weight
       case IterDrop(t, x, k) => Holds(c, s, t, x) && s.hs[x].kind == Iter && CanRead(s, t, k)
       case IterDropCas(t, ok, k) =>
         && t < c.n && s.pcs[t].Returning? && s.pcs[t].i < |s.hs| && CanRead(s, t, k)
         && (ok ==> Last(s).value == s.pcs[t].c)
       case DropSub(t, x) => Holds(c, s, t, x) && (s.hs[x].kind == Handle || s.hs[x].kind == Unique) && Exclusive(s, x)
       case DropAcquire(t, k) => t < c.n && s.pcs[t].DropLoad? && CanRead(s, t, k)
       case DropDispose(t) => t < c.n && s.pcs[t].DropSlow? && s.pcs[t].h < |s.hs|
       case Count(t, x, k) => Holds(c, s, t, x) && (Access(s, t, x) || s.hs[x].kind == Unique) && CanRead(s, t, k)
       case IsUnique(t, x, k) =>
         && Holds(c, s, t, x) && s.hs[x].kind == Handle && Exclusive(s, x)
         && CanRead(s, t, k) && s.hist[k].value == 1
       case Shareable(t, x) => Holds(c, s, t, x) && s.hs[x].kind == Unique
       case ReadData(t, x) => Holds(c, s, t, x) && (Access(s, t, x) || s.hs[x].kind == Unique)
       case WriteData(t, x) => Holds(c, s, t, x) && s.hs[x].kind == Unique
       case IntoInner(t, x) => Holds(c, s, t, x) && s.hs[x].kind == Unique
       case Send(t, x, u) =>
         && Holds(c, s, t, x) && u < c.n
         && (s.hs[x].kind == Unique || s.hs[x].kind == Iter || s.hs[x].kind == Borrow
             || (s.hs[x].kind == Handle && Exclusive(s, x)))
       case Lend(t, x, u) => Holds(c, s, t, x) && Access(s, t, x) && u < c.n
       case Return(t, x) =>
         && Holds(c, s, t, x) && s.hs[x].kind == Borrow
         && s.hs[x].base < |s.hs| && s.hs[s.hs[x].base].at < c.n
       case Forget(t, x) =>
         && Holds(c, s, t, x)
         && (s.hs[x].kind == Unique || s.hs[x].kind == Iter || (s.hs[x].kind == Handle && Exclusive(s, x)))
       case WithStrategy(t, x, _) => Holds(c, s, t, x) && s.hs[x].kind == Handle && Exclusive(s, x)
       case Synchronise(t, u) => t < c.n && u < c.n && s.pcs[t] == Idle && s.pcs[u] == Idle
  }

  // ---- The effect of a step ----

  function Last(s: State): Msg
    requires 0 < |s.hist|
  {
    s.hist[|s.hist| - 1]
  }

  function UsizeMax(c: Config): nat {
    2 * c.max + 1
  }

  /** The new value of `fetch_add(1)`, which wraps. */
  function AddOne(c: Config, v: nat): nat {
    if v == UsizeMax(c) then 0 else v + 1
  }

  /** The new value of `fetch_sub(1)`, which wraps. */
  function SubOne(c: Config, v: nat): nat {
    if v == 0 then UsizeMax(c) else v - 1
  }

  /** A read-modify-write: append a message and keep what the last one released. */
  function Push(s: State, t: Tid, v: nat, release: bool): State
    requires 0 < |s.hist| && t < |s.views|
  {
    s.(hist := s.hist + [Msg(v, Last(s).seen + if release then s.views[t].seen else {})],
       views := s.views[t := s.views[t].(ts := |s.hist|)])
  }

  /** A load that reads message `k`. */
  function Load(s: State, t: Tid, k: nat, acquire: bool): State
    requires CanRead(s, t, k)
  {
    s.(views := s.views[t := View(k, s.views[t].seen + if acquire then s.hist[k].seen else {})])
  }

  /** Everything `t` has seen happens before what `u` does next. */
  function Sync(s: State, t: Tid, u: Tid): State
    requires t < |s.views| && u < |s.views|
  {
    s.(views := s.views[u := View(if s.views[t].ts <= s.views[u].ts then s.views[u].ts else s.views[t].ts,
                                  s.views[t].seen + s.views[u].seen)])
  }

  /** A data access by `t`. */
  function Touch(s: State, t: Tid, act: Act): State
    requires t < |s.views|
  {
    s.(log := s.log + [Event(t, act, s.views[t].seen)],
       views := s.views[t := s.views[t].(seen := s.views[t].seen + {|s.log|})])
  }

  function Goto(s: State, t: Tid, pc: Pc): State
    requires t < |s.pcs|
  {
    s.(pcs := s.pcs[t := pc])
  }

  function SetHolder(s: State, x: nat, h: Holder): State
    requires x < |s.hs|
  {
    s.(hs := s.hs[x := h])
  }

  function AddHolder(s: State, h: Holder): State {
    s.(hs := s.hs + [h])
  }

  function Kill(s: State, x: nat): State
    requires x < |s.hs|
  {
    SetHolder(s, x, s.hs[x].(kind := Dead, weight := 0))
  }

  /** `clone`. */
  predicate OfClone(step: Step) {
    step.CloneAdd? || step.CloneCheck?
  }

  function ApplyClone(c: Config, s: State, step: Step): State
    requires Enabled(c, s, step) && OfClone(step)
  {
    match step
    case CloneAdd(t, x, strategy) =>
      var prior := Last(s).value;
      Goto(AddHolder(Push(s, t, AddOne(c, prior), false), Holder(Pending, t, 1, |s.hist|, 0, strategy)),
           t, Cloning(|s.hs|, prior))
    case CloneCheck(t) =>
      var p := s.pcs[t].p;
      if c.max < s.pcs[t].prior then s.(aborted := true)
      else Goto(SetHolder(s, p, s.hs[p].(kind := Handle)), t, Idle)
  }

  /** `ArcCloneIter`. */
  predicate OfIter(step: Step) {
    step.IterLoad? || step.IterCas? || step.IterNext? || step.IterDrop? || step.IterDropCas?
  }

  function ApplyIter(c: Config, s: State, step: Step): State
    requires Enabled(c, s, step) && OfIter(step)
  {
    match step
    case IterLoad(t, x, n, k) =>
      Goto(Load(s, t, k, false), t, Reserving(x, n, s.hist[k].value))
    case IterCas(t, ok, k) =>
      var Reserving(x, n, v) := s.pcs[t];
      if c.max < v + n then s.(aborted := true)
      else if ok then
        Goto(AddHolder(Push(s, t, v + n, false), Holder(Iter, t, n, |s.hist|, Target(s, x), s.hs[x].strategy)), t, Idle)
      else Goto(Load(s, t, k, false), t, Reserving(x, n, s.hist[k].value))
    case IterNext(t, x) =>
      var i := s.hs[x];
      AddHolder(SetHolder(s, x, i.(weight := i.weight - 1)), Holder(Handle, t, 1, i.birth, 0, i.strategy))
    case IterDrop(t, x, k) =>
      if s.hs[x].weight == 0 then SetHolder(s, x, s.hs[x].(kind := Borrow))
      else Goto(Load(s, t, k, false), t, Returning(x, s.hist[k].value))
    case IterDropCas(t, ok, k) =>
      var Returning(i, v) := s.pcs[t];
      if v < s.hs[i].weight then s.(aborted := true)
      else if ok then
        Goto(SetHolder(Push(s, t, v - s.hs[i].weight, false), i, s.hs[i].(kind := Borrow, weight := 0)), t, Idle)
      else Goto(Load(s, t, k, false), t, Returning(i, s.hist[k].value))
  }

  /** `drop`, and `into_inner`. */
  predicate OfEnd(step: Step) {
    step.DropSub? || step.DropAcquire? || step.DropDispose? || step.IntoInner?
  }

  function ApplyEnd(c: Config, s: State, step: Step): State
    requires Enabled(c, s, step) && OfEnd(step)
  {
    match step
    case DropSub(t, x) =>
      Goto(Kill(Push(s, t, SubOne(c, Last(s).value), c.subRelease), x).(drops := s.drops + [x]),
           t, if Last(s).value != 1 then Idle else DropLoad(x))
    case DropAcquire(t, k) =>
      Goto(Load(s, t, k, c.dropAcquire), t, DropSlow(s.pcs[t].h))
    case DropDispose(t) =>
      var h := s.pcs[t].h;
      Goto(Touch(s, t, Dispose(h, s.hs[h].strategy)).(freed := true), t, Idle)
    case IntoInner(t, x) => Kill(Touch(s, t, Take(x)), x).(freed := true)
  }

  /** Loads of the count, unique handles, and the data. */
  predicate OfUse(step: Step) {
    step.Count? || step.IsUnique? || step.Shareable? || step.ReadData? || step.WriteData?
  }

  function ApplyUse(c: Config, s: State, step: Step): State
    requires Enabled(c, s, step) && OfUse(step)
  {
    match step
    case Count(t, x, k) => Load(s, t, k, c.countAcquire)
    case IsUnique(t, x, k) => SetHolder(Load(s, t, k, c.countAcquire), x, s.hs[x].(kind := Unique))
    case Shareable(t, x) => SetHolder(s, x, s.hs[x].(kind := Handle))
    case ReadData(t, x) => Touch(s, t, Read)
    case WriteData(t, x) => Touch(s, t, Write)
  }

  /** What goes from thread to thread, is forgotten, or changes its type. */
  predicate OfPass(step: Step) {
    step.Send? || step.Lend? || step.Return? || step.Forget? || step.WithStrategy? || step.Synchronise?
  }

  function ApplyPass(c: Config, s: State, step: Step): State
    requires Enabled(c, s, step) && OfPass(step)
  {
    match step
    case Send(t, x, u) => SetHolder(Sync(s, t, u), x, s.hs[x].(at := u))
    case Lend(t, x, u) =>
      AddHolder(Sync(s, t, u), Holder(Borrow, u, 0, s.hs[x].birth, Target(s, x), s.hs[x].strategy))
    case Return(t, x) => Kill(Sync(s, t, s.hs[s.hs[x].base].at), x)
    case Forget(t, x) =>
      var h := s.hs[x];
      if h.kind != Iter then SetHolder(s, x, h.(kind := Forgotten))
      else AddHolder(SetHolder(s, x, h.(kind := if h.weight == 0 then Dead else Forgotten)),
                     h.(kind := Borrow, weight := 0))
    case WithStrategy(t, x, strategy) => SetHolder(s, x, s.hs[x].(strategy := strategy))
    case Synchronise(t, u) => Sync(s, t, u)
  }

  /** The state after a step. */
  function Apply(c: Config, s: State, step: Step): State
    requires Enabled(c, s, step)
  {
    if OfClone(step) then ApplyClone(c, s, step)
    else if OfIter(step) then ApplyIter(c, s, step)
    else if OfEnd(step) then ApplyEnd(c, s, step)
    else if OfUse(step) then ApplyUse(c, s, step)
    else ApplyPass(c, s, step)
  }

  // ---- Runs ----

  /** `steps` can be taken one after the other from `s`. */
  predicate Runs(c: Config, s: State, steps: seq<Step>)
    decreases |steps|
  {
    steps == [] || (Enabled(c, s, steps[0]) && Runs(c, Apply(c, s, steps[0]), steps[1..]))
  }

  function Exec(c: Config, s: State, steps: seq<Step>): State
    requires Runs(c, s, steps)
    decreases |steps|
  {
    if steps == [] then s else Exec(c, Apply(c, s, steps[0]), steps[1..])
  }

  ghost predicate Reachable(c: Config, s: State) {
    exists t: nat, strategy: nat, steps: seq<Step> ::
      t < c.n && Runs(c, Init(c, t, strategy), steps) && s == Exec(c, Init(c, t, strategy), steps)
  }
}
