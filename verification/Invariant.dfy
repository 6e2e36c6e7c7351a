/** What every reachable state of the protocol satisfies. */
module Invariant {
  import opened Protocol

  // ---- Tokens ----

  function Sum(hs: seq<Holder>): nat {
    if hs == [] then 0 else Sum(hs[..|hs| - 1]) + hs[|hs| - 1].weight
  }

  lemma {:induction false} SumUpdate(hs: seq<Holder>, x: nat, h: Holder)
    requires x < |hs|
    ensures Sum(hs[x := h]) == Sum(hs) - hs[x].weight + h.weight
  {
    var n := |hs| - 1;
    if x == n {
      assert hs[x := h][..n] == hs[..n];
    } else {
      assert hs[x := h][..n] == hs[..n][x := h];
      SumUpdate(hs[..n], x, h);
    }
  }

  lemma {:induction false} SumAppend(hs: seq<Holder>, h: Holder)
    ensures Sum(hs + [h]) == Sum(hs) + h.weight
  {
    assert (hs + [h])[..|hs|] == hs;
  }

  lemma {:induction false} SumAtLeast(hs: seq<Holder>, x: nat)
    requires x < |hs|
    ensures hs[x].weight <= Sum(hs)
  {
    if x < |hs| - 1 { SumAtLeast(hs[..|hs| - 1], x); }
  }

  lemma {:induction false} SumPair(hs: seq<Holder>, x: nat, y: nat)
    requires x < |hs| && y < |hs| && x != y
    ensures hs[x].weight + hs[y].weight <= Sum(hs)
  {
    SumUpdate(hs, x, hs[x].(weight := 0));
    SumAtLeast(hs[x := hs[x].(weight := 0)], y);
  }

  lemma {:induction false} SumZero(hs: seq<Holder>)
    ensures Sum(hs) == 0 <==> forall x | 0 <= x < |hs| :: hs[x].weight == 0
  {
    if hs != [] { SumZero(hs[..|hs| - 1]); }
  }

  /** Threads that went past the limit and have not aborted yet. */
  function Doomed(max: nat, pcs: seq<Pc>): nat {
    if pcs == [] then 0
    else Doomed(max, pcs[..|pcs| - 1]) + if IsDoomed(max, pcs[|pcs| - 1]) then 1 else 0
  }

  predicate IsDoomed(max: nat, pc: Pc) {
    pc.Cloning? && max < pc.prior
  }

  lemma {:induction false} DoomedUpdate(max: nat, pcs: seq<Pc>, t: nat, pc: Pc)
    requires t < |pcs|
    ensures Doomed(max, pcs[t := pc])
         == Doomed(max, pcs) - (if IsDoomed(max, pcs[t]) then 1 else 0) + (if IsDoomed(max, pc) then 1 else 0)
  {
    var n := |pcs| - 1;
    if t == n {
      assert pcs[t := pc][..n] == pcs[..n];
    } else {
      assert pcs[t := pc][..n] == pcs[..n][t := pc];
      DoomedUpdate(max, pcs[..n], t, pc);
    }
  }

  lemma {:induction false} DoomedBound(max: nat, pcs: seq<Pc>)
    ensures Doomed(max, pcs) <= |pcs|
    ensures forall t | 0 <= t < |pcs| && !IsDoomed(max, pcs[t]) :: Doomed(max, pcs) < |pcs|
  {
    if pcs != [] { DoomedBound(max, pcs[..|pcs| - 1]); }
  }

  // ---- The parts of the invariant ----

  predicate HolderOk(views: seq<View>, h: Holder) {
    && h.at < |views|
    && (Token(h) ==> h.weight == 1)
    && (h.kind == Borrow || h.kind == Dead ==> h.weight == 0)
    && (h.kind == Forgotten ==> 0 < h.weight)
    && (Active(h) ==> h.birth <= views[h.at].ts)
  }

  /** What is borrowed from is a plain handle that is still there. */
  ghost predicate BasesOk(hs: seq<Holder>) {
    forall x: nat :: BaseOk(hs, x)
  }

  predicate BaseOk(hs: seq<Holder>, x: nat) {
    x < |hs| && (hs[x].kind == Borrow || hs[x].kind == Iter) ==> hs[x].base < |hs| && hs[hs[x].base].kind == Handle
  }

  predicate Shape(c: Config, s: State) {
    && 0 < |s.hist|
    && |s.views| == |s.pcs| == c.n
    && (forall t | 0 <= t < |s.views| :: s.views[t].ts < |s.hist|)
    && (forall x | 0 <= x < |s.hs| :: HolderOk(s.views, s.hs[x]))
  }

  predicate AllDead(hs: seq<Holder>) {
    forall x | 0 <= x < |hs| :: hs[x].kind == Dead
  }

  predicate Disposing(pc: Pc) {
    pc.DropLoad? || pc.DropSlow?
  }

  predicate PcOk(s: State, t: nat, pc: Pc)
    requires t < |s.views|
  {
    match pc
    case Idle => true
    case Cloning(p, _) => p < |s.hs| && s.hs[p].kind == Pending && s.hs[p].at == t
    case Reserving(x, _, _) => Access(s, t, x)
    case Returning(i, v) => i < |s.hs| && s.hs[i].kind == Iter && s.hs[i].at == t && 0 < s.hs[i].weight < v
    case DropLoad(h) => AllDead(s.hs) && !s.freed && LastDrop(s.hs, s.drops, h) && s.views[t].ts == |s.hist| - 1
    case DropSlow(h) => AllDead(s.hs) && !s.freed && LastDrop(s.hs, s.drops, h) && SeesAll(s.log, s.views[t])
  }

  predicate SeesAll(log: seq<Event>, v: View) {
    forall e | 0 <= e < |log| :: e in v.seen
  }

  predicate LastDrop(hs: seq<Holder>, drops: seq<nat>, h: nat) {
    h < |hs| && 0 < |drops| && drops[|drops| - 1] == h
  }

  /** Every thread is at a point its holders justify. */
  ghost predicate PcsOk(s: State) {
    forall t: nat :: PcAt(s, t)
  }

  predicate PcAt(s: State, t: nat) {
    t < |s.pcs| ==> t < |s.views| && PcOk(s, t, s.pcs[t])
  }

  /** A pending clone belongs to the thread that is making it. */
  ghost predicate PendingOk(hs: seq<Holder>, pcs: seq<Pc>) {
    forall x: nat :: PendingAt(hs, pcs, x)
  }

  predicate PendingAt(hs: seq<Holder>, pcs: seq<Pc>, x: nat) {
    x < |hs| && hs[x].kind == Pending ==> hs[x].at < |pcs| && pcs[hs[x].at].Cloning? && pcs[hs[x].at].p == x
  }

  /** At most one thread is past the last drop. */
  predicate OneDisposer(pcs: seq<Pc>) {
    forall t, u | 0 <= t < |pcs| && 0 <= u < |pcs| && Disposing(pcs[t]) && Disposing(pcs[u]) :: t == u
  }

  /** Conservation: the count is the number of handles, forgotten tokens, reservations and
      pending clones. */
  predicate Conserved(s: State)
    requires 0 < |s.hist|
  {
    !s.freed ==> Last(s).value == Sum(s.hs)
  }

  predicate Ended(hs: seq<Holder>, pcs: seq<Pc>, freed: bool) {
    && (!freed && AllDead(hs) ==> exists t :: 0 <= t < |pcs| && Disposing(pcs[t]))
    && (freed ==> AllDead(hs))
  }

  /** Since its reservation every value of the count has covered an iterator and its `orig`. */
  ghost predicate Reserved(hist: seq<Msg>, hs: seq<Holder>) {
    forall x: nat, k: nat :: ReservedAt(hist, hs, x, k)
  }

  predicate ReservedAt(hist: seq<Msg>, hs: seq<Holder>, x: nat, k: nat) {
    x < |hs| && hs[x].kind == Iter && hs[x].birth <= k < |hist| ==> hs[x].weight < hist[k].value
  }

  predicate Token(h: Holder) {
    h.kind == Handle || h.kind == Unique || h.kind == Pending
  }

  /** The thread of holder `y`, which is `h` or borrows from it, has seen a message after `k`. */
  predicate KnowsBy(hs: seq<Holder>, views: seq<View>, h: nat, k: nat, y: nat) {
    y < |hs| && (y == h || Based(hs[y], h)) && hs[y].at < |views| && k < views[hs[y].at].ts
  }

  /** If the count was ever 1 while a token existed and has moved on, the token's side knows. */
  ghost predicate NotStale(hist: seq<Msg>, hs: seq<Holder>, views: seq<View>) {
    forall x: nat, k: nat :: NotStaleAt(hist, hs, views, x, k)
  }

  ghost predicate NotStaleAt(hist: seq<Msg>, hs: seq<Holder>, views: seq<View>, x: nat, k: nat) {
    x < |hs| && Token(hs[x]) && hs[x].birth <= k < |hist| - 1 && hist[k].value == 1 ==>
      exists y :: KnowsBy(hs, views, x, k, y)
  }

  predicate Sees(hs: seq<Holder>, views: seq<View>, y: nat, e: nat) {
    y < |hs| && Active(hs[y]) && hs[y].at < |views| && e in views[hs[y].at].seen
  }

  /** Every access is released in the count or known to the thread of some holder. */
  ghost predicate Covered(released: set<nat>, log: seq<Event>, hs: seq<Holder>, views: seq<View>) {
    forall e: nat :: CoveredAt(released, log, hs, views, e)
  }

  ghost predicate CoveredAt(released: set<nat>, log: seq<Event>, hs: seq<Holder>, views: seq<View>, e: nat) {
    e < |log| && e !in released ==> exists y :: Sees(hs, views, y, e)
  }

  /** Every write happens before whatever any holder's thread does next. */
  ghost predicate Published(log: seq<Event>, hs: seq<Holder>, views: seq<View>) {
    forall e: nat, x: nat :: PublishedAt(log, hs, views, e, x)
  }

  predicate PublishedAt(log: seq<Event>, hs: seq<Holder>, views: seq<View>, e: nat, x: nat) {
    e < |log| && log[e].act == Write && x < |hs| && Active(hs[x]) ==> Sees(hs, views, x, e)
  }

  /** A unique handle is the only holder; its thread has seen every access and the last of the
      `n` messages. */
  ghost predicate Exclusivity(log: seq<Event>, hs: seq<Holder>, views: seq<View>, n: nat) {
    forall x: nat :: SoloAt(log, hs, views, n, x)
  }

  predicate SoloAt(log: seq<Event>, hs: seq<Holder>, views: seq<View>, n: nat, x: nat) {
    x < |hs| && hs[x].kind == Unique ==> Solo(log, hs, views, n, x)
  }

  predicate Solo(log: seq<Event>, hs: seq<Holder>, views: seq<View>, n: nat, x: nat)
    requires x < |hs|
  {
    && (forall y | 0 <= y < |hs| && y != x :: hs[y].kind == Dead)
    && hs[x].at < |views|
    && SeesAll(log, views[hs[x].at])
    && views[hs[x].at].ts == n - 1
  }

  predicate Ends(e: Event) {
    e.act.Take? || e.act.Dispose?
  }

  /** The allocation is freed once, as the last access. */
  predicate FreedOnce(log: seq<Event>, freed: bool) {
    && (forall e | 0 <= e < |log| && Ends(log[e]) :: freed && e == |log| - 1)
    && (freed ==> 0 < |log| && Ends(log[|log| - 1]))
  }

  /** A backdrop strategy that runs is the one of the last handle dropped. */
  predicate ByLast(log: seq<Event>, drops: seq<nat>, hs: seq<Holder>) {
    forall e | 0 <= e < |log| && log[e].act.Dispose? ::
      LastDrop(hs, drops, log[e].act.h) && log[e].act.strategy == hs[log[e].act.h].strategy
  }

  /** No data race: of two accesses that are not both reads the earlier happens before the later. */
  ghost predicate RaceFree(log: seq<Event>) {
    forall i: nat, j: nat :: Ordered(log, i, j)
  }

  predicate Ordered(log: seq<Event>, i: nat, j: nat) {
    i < j < |log| && (log[i].act != Read || log[j].act != Read) ==> i in log[j].before
  }

  predicate Limited(c: Config, s: State)
    requires 0 < |s.hist|
  {
    Last(s).value <= c.max + 1 + Doomed(c.max, s.pcs)
  }

  ghost predicate Inv(c: Config, s: State) {
    && Shape(c, s)
    && BasesOk(s.hs)
    && PcsOk(s)
    && PendingOk(s.hs, s.pcs)
    && OneDisposer(s.pcs)
    && Conserved(s)
    && Ended(s.hs, s.pcs, s.freed)
    && Reserved(s.hist, s.hs)
    && NotStale(s.hist, s.hs, s.views)
    && (!s.freed ==> Covered(Last(s).seen, s.log, s.hs, s.views))
    && Published(s.log, s.hs, s.views)
    && Exclusivity(s.log, s.hs, s.views, |s.hist|)
    && FreedOnce(s.log, s.freed)
    && ByLast(s.log, s.drops, s.hs)
    && RaceFree(s.log)
    && Limited(c, s)
  }
}
