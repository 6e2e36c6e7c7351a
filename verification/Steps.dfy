/** Every step of the protocol keeps the invariant. */
module Steps {
  import opened Protocol
  import opened Invariant

  // ---- Views only grow ----

  predicate Grows(a: seq<View>, b: seq<View>) {
    |a| == |b| && forall t | 0 <= t < |a| :: a[t].ts <= b[t].ts && a[t].seen <= b[t].seen
  }

  lemma GrowNotStale(hist: seq<Msg>, hs: seq<Holder>, a: seq<View>, b: seq<View>)
    requires NotStale(hist, hs, a) && Grows(a, b)
    ensures NotStale(hist, hs, b)
  {
    forall x: nat, k: nat ensures NotStaleAt(hist, hs, b, x, k) {
      assert NotStaleAt(hist, hs, a, x, k);
      if y :| KnowsBy(hs, a, x, k, y) { assert KnowsBy(hs, b, x, k, y); }
    }
  }

  lemma GrowCovered(released: set<nat>, log: seq<Event>, hs: seq<Holder>, a: seq<View>, b: seq<View>)
    requires Covered(released, log, hs, a) && Grows(a, b)
    ensures Covered(released, log, hs, b)
  {
    forall e: nat ensures CoveredAt(released, log, hs, b, e) {
      assert CoveredAt(released, log, hs, a, e);
      if y :| Sees(hs, a, y, e) { assert Sees(hs, b, y, e); }
    }
  }

  lemma GrowPublished(log: seq<Event>, hs: seq<Holder>, a: seq<View>, b: seq<View>)
    requires Published(log, hs, a) && Grows(a, b)
    ensures Published(log, hs, b)
  {
    forall e: nat, x: nat ensures PublishedAt(log, hs, b, e, x) {
      assert PublishedAt(log, hs, a, e, x);
    }
  }

  lemma GrowThreads(c: Config, s: State, b: seq<View>)
    requires Shape(c, s) && PcsOk(s) && Exclusivity(s.log, s.hs, s.views, |s.hist|) && Grows(s.views, b)
    requires forall t | 0 <= t < |b| :: b[t].ts < |s.hist|
    ensures PcsOk(s.(views := b)) && Exclusivity(s.log, s.hs, b, |s.hist|)
  {
    var r := s.(views := b);
    forall t: nat ensures PcAt(r, t) && SoloAt(s.log, s.hs, b, |s.hist|, t) {
      assert PcAt(s, t) && SoloAt(s.log, s.hs, s.views, |s.hist|, t);
    }
  }

  lemma GrowKeeps(c: Config, s: State, b: seq<View>)
    requires Inv(c, s) && Grows(s.views, b)
    requires forall t | 0 <= t < |b| :: b[t].ts < |s.hist|
    ensures Inv(c, s.(views := b))
  {
    GrowThreads(c, s, b);
    GrowNotStale(s.hist, s.hs, s.views, b);
    if !s.freed { GrowCovered(Last(s).seen, s.log, s.hs, s.views, b); }
    GrowPublished(s.log, s.hs, s.views, b);
  }

  lemma LoadKeeps(c: Config, s: State, t: Tid, k: nat, acquire: bool)
    requires Inv(c, s) && CanRead(s, t, k)
    ensures Inv(c, Load(s, t, k, acquire))
  {
    GrowKeeps(c, s, Load(s, t, k, acquire).views);
  }

  lemma SyncKeeps(c: Config, s: State, t: Tid, u: Tid)
    requires Inv(c, s) && t < c.n && u < c.n
    ensures Inv(c, Sync(s, t, u))
  {
    GrowKeeps(c, s, Sync(s, t, u).views);
  }

  // ---- Moving between the steps of one operation ----

  lemma GotoPcs(s: State, t: Tid, pc: Pc)
    requires t < |s.pcs| && t < |s.views| && PcsOk(s) && PcOk(s, t, pc)
    ensures PcsOk(Goto(s, t, pc))
  {
    var r := Goto(s, t, pc);
    forall u: nat ensures PcAt(r, u) {
      assert PcAt(s, u);
    }
  }

  /** Moving within an operation neither starts nor ends a clone or a disposal. */
  predicate Neutral(a: Pc, b: Pc) {
    !a.Cloning? && !b.Cloning? && Disposing(a) == Disposing(b)
  }

  lemma GotoEnded(hs: seq<Holder>, pcs: seq<Pc>, freed: bool, t: Tid, pc: Pc)
    requires t < |pcs| && Neutral(pcs[t], pc)
    requires OneDisposer(pcs) && Ended(hs, pcs, freed) && PendingOk(hs, pcs)
    ensures OneDisposer(pcs[t := pc]) && Ended(hs, pcs[t := pc], freed) && PendingOk(hs, pcs[t := pc])
  {
    var r := pcs[t := pc];
    forall x: nat ensures PendingAt(hs, r, x) {
      assert PendingAt(hs, pcs, x);
    }
    assert forall u | 0 <= u < |pcs| :: Disposing(r[u]) == Disposing(pcs[u]);
    if !freed && AllDead(hs) {
      var u :| 0 <= u < |pcs| && Disposing(pcs[u]);
      assert Disposing(r[u]);
    }
  }

  lemma GotoKeeps(c: Config, s: State, t: Tid, pc: Pc)
    requires Inv(c, s) && t < c.n && PcOk(s, t, pc) && Neutral(s.pcs[t], pc)
    ensures Inv(c, Goto(s, t, pc))
  {
    GotoPcs(s, t, pc);
    GotoEnded(s.hs, s.pcs, s.freed, t, pc);
    DoomedUpdate(c.max, s.pcs, t, pc);
  }

  // ---- A thread changes its holders, the count and the log stay ----

  /** In `b`, holder `z` stands where `y` stood in `a`: its thread knows no less, on behalf of
      the same handle. */
  predicate Carries(a: seq<Holder>, b: seq<Holder>, views: seq<View>, y: nat, z: nat) {
    y < |a| && Active(a[y]) ==>
      && z < |b| && Active(b[z]) && a[y].at < |views| && b[z].at < |views|
      && views[a[y].at].ts <= views[b[z].at].ts
      && views[a[y].at].seen <= views[b[z].at].seen
      && if a[y].kind == Borrow || a[y].kind == Iter then z == a[y].base || Based(b[z], a[y].base) else z == y
  }

  ghost predicate Inherits(a: seq<Holder>, b: seq<Holder>, views: seq<View>) {
    forall y: nat :: Inherited(a, b, views, y)
  }

  ghost predicate Inherited(a: seq<Holder>, b: seq<Holder>, views: seq<View>, y: nat) {
    exists z :: Carries(a, b, views, y, z)
  }

  /** The thread of holder `x` of `b` knows all that the thread of `y` of `a` does. */
  predicate Stems(a: seq<Holder>, b: seq<Holder>, views: seq<View>, x: nat, y: nat) {
    x < |b| && Active(b[x]) ==>
      y < |a| && Active(a[y]) && a[y].at < |views| && b[x].at < |views| && views[a[y].at].seen <= views[b[x].at].seen
  }

  ghost predicate Derived(a: seq<Holder>, b: seq<Holder>, views: seq<View>) {
    forall x: nat :: DerivedAt(a, b, views, x)
  }

  ghost predicate DerivedAt(a: seq<Holder>, b: seq<Holder>, views: seq<View>, x: nat) {
    exists y :: Stems(a, b, views, x, y)
  }

  /** A token was there before, or is new, or the count has not been 1 since its birth. */
  predicate OldToken(hist: seq<Msg>, a: seq<Holder>, h: Holder, x: nat) {
    || (x < |a| && Token(a[x]) && a[x].birth == h.birth)
    || |hist| <= h.birth + 1
    || (forall k | h.birth <= k < |hist| :: hist[k].value != 1)
  }

  predicate OldTokens(hist: seq<Msg>, a: seq<Holder>, b: seq<Holder>) {
    forall x | 0 <= x < |b| && Token(b[x]) :: OldToken(hist, a, b[x], x)
  }

  lemma InheritNotStale(hist: seq<Msg>, a: seq<Holder>, b: seq<Holder>, views: seq<View>)
    requires NotStale(hist, a, views) && Inherits(a, b, views) && OldTokens(hist, a, b)
    ensures NotStale(hist, b, views)
  {
    forall x: nat, k: nat ensures NotStaleAt(hist, b, views, x, k) {
      assert NotStaleAt(hist, a, views, x, k);
      if x < |b| && Token(b[x]) && b[x].birth <= k < |hist| - 1 && hist[k].value == 1 {
        var y :| KnowsBy(a, views, x, k, y);
        assert Inherited(a, b, views, y);
        var z :| Carries(a, b, views, y, z);
        assert KnowsBy(b, views, x, k, z);
      }
    }
  }

  lemma InheritSeen(released: set<nat>, log: seq<Event>, a: seq<Holder>, b: seq<Holder>, views: seq<View>)
    requires Covered(released, log, a, views) && Published(log, a, views)
    requires Inherits(a, b, views) && Derived(a, b, views)
    ensures Covered(released, log, b, views) && Published(log, b, views)
  {
    forall e: nat ensures CoveredAt(released, log, b, views, e) {
      assert CoveredAt(released, log, a, views, e);
      if y :| Sees(a, views, y, e) {
        assert Inherited(a, b, views, y);
        var z :| Carries(a, b, views, y, z);
        assert Sees(b, views, z, e);
      }
    }
    forall e: nat, x: nat ensures PublishedAt(log, b, views, e, x) {
      assert DerivedAt(a, b, views, x);
      var y :| Stems(a, b, views, x, y);
      assert PublishedAt(log, a, views, e, y);
    }
  }

  /** Thread `t`, outside any operation, replaces its own holders and adds new ones. */
  predicate OwnChange(s: State, t: Tid, b: seq<Holder>) {
    && t < |s.pcs| && s.pcs[t] == Idle && |s.hs| <= |b|
    && (forall x | 0 <= x < |s.hs| && s.hs[x].at != t :: b[x] == s.hs[x])
    && (forall x | 0 <= x < |b| && b[x].kind == Pending :: x < |s.hs| && b[x] == s.hs[x])
    && (exists x :: 0 <= x < |s.hs| && Active(s.hs[x]) && Active(b[x]))
  }

  lemma OwnChangePcs(c: Config, s: State, t: Tid, b: seq<Holder>)
    requires Shape(c, s) && PcsOk(s) && PendingOk(s.hs, s.pcs) && OwnChange(s, t, b)
    ensures PcsOk(s.(hs := b)) && PendingOk(b, s.pcs)
  {
    var r := s.(hs := b);
    forall u: nat ensures PcAt(r, u) {
      assert PcAt(s, u);
    }
    forall x: nat ensures PendingAt(b, s.pcs, x) {
      assert PendingAt(s.hs, s.pcs, x);
    }
  }

  /** While a holder is left nothing has been freed. */
  lemma OwnChangeEnd(s: State, t: Tid, b: seq<Holder>)
    requires Ended(s.hs, s.pcs, s.freed) && FreedOnce(s.log, s.freed) && OwnChange(s, t, b)
    ensures !s.freed && Ended(b, s.pcs, s.freed) && ByLast(s.log, s.drops, b)
  {
  }

  lemma {:induction false} OwnChangeKeeps(c: Config, s: State, t: Tid, b: seq<Holder>)
    requires Inv(c, s) && OwnChange(s, t, b)
    requires Shape(c, s.(hs := b)) && BasesOk(b) && Sum(b) == Sum(s.hs) && Reserved(s.hist, b)
    requires Inherits(s.hs, b, s.views) && Derived(s.hs, b, s.views) && OldTokens(s.hist, s.hs, b)
    requires Exclusivity(s.log, b, s.views, |s.hist|)
    ensures Inv(c, s.(hs := b))
  {
    OwnChangePcs(c, s, t, b);
    OwnChangeEnd(s, t, b);
    InheritNotStale(s.hist, s.hs, b, s.views);
    InheritSeen(Last(s).seen, s.log, s.hs, b, s.views);
  }

  /** `h` takes the place of holder `x`, which keeps its thread's knowledge or passes it on. */
  predicate Replaces(s: State, x: nat, h: Holder, z: nat) {
    && x < |s.hs| && z < |s.hs| && Active(s.hs[x]) && s.hs[x].at < |s.pcs| && s.pcs[s.hs[x].at] == Idle
    && s.hs[x].at < |s.views| && h.weight == s.hs[x].weight && h.birth == s.hs[x].birth && h.base == s.hs[x].base
    && if z == x then Relabels(s, x, h) else Hands(s, x, h, z)
  }

  /** The same holder under another name, strategy or thread; nobody borrows from it unless it
      stays a plain handle. */
  predicate Relabels(s: State, x: nat, h: Holder)
    requires x < |s.hs| && s.hs[x].at < |s.views|
  {
    && h.at < |s.views|
    && s.views[s.hs[x].at].ts <= s.views[h.at].ts && s.views[s.hs[x].at].seen <= s.views[h.at].seen
    && match s.hs[x].kind
       case Handle =>
         && Exclusive(s, x)
         && (h.kind == Handle || h.kind == Forgotten
             || (h.kind == Unique && h.at == s.hs[x].at && Solo(s.log, s.hs, s.views, |s.hist|, x)))
       case Unique => h.kind == Handle || h.kind == Forgotten || h.kind == Unique
       case Iter => h.kind == Iter || (h.kind == Borrow && h.weight == 0)
       case Borrow => h.kind == Borrow
       case _ => false
  }

  /** Borrow or iterator `x` ends, and holder `z` of the same handle knows no less. */
  predicate Hands(s: State, x: nat, h: Holder, z: nat)
    requires x < |s.hs| && z < |s.hs| && s.hs[x].at < |s.views|
  {
    && (s.hs[x].kind == Borrow || s.hs[x].kind == Iter) && Active(s.hs[z])
    && (z == s.hs[x].base || Based(s.hs[z], s.hs[x].base))
    && h.at == s.hs[x].at && h.kind == (if h.weight == 0 then Dead else Forgotten) && s.hs[z].at < |s.views|
    && s.views[s.hs[x].at].ts <= s.views[s.hs[z].at].ts && s.views[s.hs[x].at].seen <= s.views[s.hs[z].at].seen
  }

  lemma ReplaceHolders(c: Config, s: State, x: nat, h: Holder, z: nat)
    requires Shape(c, s) && BasesOk(s.hs) && Reserved(s.hist, s.hs) && Replaces(s, x, h, z)
    requires Exclusivity(s.log, s.hs, s.views, |s.hist|)
    ensures Shape(c, SetHolder(s, x, h)) && BasesOk(s.hs[x := h]) && Reserved(s.hist, s.hs[x := h])
    ensures Exclusivity(s.log, s.hs[x := h], s.views, |s.hist|)
  {
    var b := s.hs[x := h];
    forall y: nat ensures BaseOk(b, y) {
      assert BaseOk(s.hs, y);
    }
    forall y: nat, k: nat ensures ReservedAt(s.hist, b, y, k) {
      assert ReservedAt(s.hist, s.hs, y, k);
    }
    forall y: nat ensures SoloAt(s.log, b, s.views, |s.hist|, y) {
      assert SoloAt(s.log, s.hs, s.views, |s.hist|, y);
    }
  }

  lemma ReplaceInherits(c: Config, s: State, x: nat, h: Holder, z: nat)
    requires Shape(c, s) && BasesOk(s.hs) && Replaces(s, x, h, z)
    ensures Inherits(s.hs, s.hs[x := h], s.views) && Derived(s.hs, s.hs[x := h], s.views)
    ensures OldTokens(s.hist, s.hs, s.hs[x := h])
  {
    var b := s.hs[x := h];
    forall y: nat ensures Inherited(s.hs, b, s.views, y) {
      assert Carries(s.hs, b, s.views, y, if y == x then z else y);
    }
    forall y: nat ensures DerivedAt(s.hs, b, s.views, y) {
      assert Stems(s.hs, b, s.views, y, y);
    }
  }

  lemma ReplaceKeeps(c: Config, s: State, x: nat, h: Holder, z: nat)
    requires Inv(c, s) && Replaces(s, x, h, z)
    ensures Inv(c, SetHolder(s, x, h))
  {
    var b := s.hs[x := h];
    SumUpdate(s.hs, x, h);
    assert Active(s.hs[z]) && Active(b[z]);
    ReplaceHolders(c, s, x, h, z);
    ReplaceInherits(c, s, x, h, z);
    OwnChangeKeeps(c, s, s.hs[x].at, b);
  }

  /** `h` borrows a plain handle on behalf of holder `y`, whose thread is idle and knows no more. */
  predicate Lends(s: State, y: nat, h: Holder) {
    && y < |s.hs| && s.hs[y].at < |s.pcs| && s.pcs[s.hs[y].at] == Idle
    && (s.hs[y].kind == Handle || s.hs[y].kind == Borrow || s.hs[y].kind == Iter)
    && h.kind == Borrow && h.weight == 0 && h.base < |s.hs| && s.hs[h.base].kind == Handle
    && h.at < |s.views| && s.hs[y].at < |s.views| && h.birth <= s.views[h.at].ts
    && s.views[s.hs[y].at].seen <= s.views[h.at].seen
  }

  lemma LendHolders(c: Config, s: State, y: nat, h: Holder)
    requires Shape(c, s) && BasesOk(s.hs) && Reserved(s.hist, s.hs) && Lends(s, y, h)
    requires Exclusivity(s.log, s.hs, s.views, |s.hist|)
    ensures Shape(c, AddHolder(s, h)) && BasesOk(s.hs + [h]) && Reserved(s.hist, s.hs + [h])
    ensures Exclusivity(s.log, s.hs + [h], s.views, |s.hist|)
  {
    var b := s.hs + [h];
    forall x: nat ensures BaseOk(b, x) {
      assert BaseOk(s.hs, x);
    }
    forall x: nat, k: nat ensures ReservedAt(s.hist, b, x, k) {
      assert ReservedAt(s.hist, s.hs, x, k);
    }
    forall x: nat ensures SoloAt(s.log, b, s.views, |s.hist|, x) {
      assert SoloAt(s.log, s.hs, s.views, |s.hist|, x);
    }
  }

  lemma LendInherits(c: Config, s: State, y: nat, h: Holder)
    requires Shape(c, s) && Lends(s, y, h)
    ensures Inherits(s.hs, s.hs + [h], s.views) && Derived(s.hs, s.hs + [h], s.views)
    ensures OldTokens(s.hist, s.hs, s.hs + [h])
  {
    var b := s.hs + [h];
    forall x: nat ensures Inherited(s.hs, b, s.views, x) {
      assert Carries(s.hs, b, s.views, x, x);
    }
    forall x: nat ensures DerivedAt(s.hs, b, s.views, x) {
      assert Stems(s.hs, b, s.views, x, if x == |s.hs| then y else x);
    }
  }

  lemma LendKeeps(c: Config, s: State, y: nat, h: Holder)
    requires Inv(c, s) && Lends(s, y, h)
    ensures Inv(c, AddHolder(s, h))
  {
    var b := s.hs + [h];
    SumAppend(s.hs, h);
    assert Active(s.hs[y]) && b[y] == s.hs[y];
    LendHolders(c, s, y, h);
    LendInherits(c, s, y, h);
    OwnChangeKeeps(c, s, s.hs[y].at, b);
  }

  // ---- `ArcCloneIter::next` ----

  /** The holders after iterator `x` has handed out one `Arc`. */
  function Split(hs: seq<Holder>, x: nat): seq<Holder>
    requires x < |hs| && 0 < hs[x].weight
  {
    hs[x := hs[x].(weight := hs[x].weight - 1)] + [Holder(Handle, hs[x].at, 1, hs[x].birth, 0, hs[x].strategy)]
  }

  lemma SplitHolders(c: Config, s: State, x: nat)
    requires Shape(c, s) && BasesOk(s.hs) && Reserved(s.hist, s.hs)
    requires Exclusivity(s.log, s.hs, s.views, |s.hist|)
    requires x < |s.hs| && s.hs[x].kind == Iter && 0 < s.hs[x].weight
    ensures var b := Split(s.hs, x);
            && Shape(c, s.(hs := b)) && BasesOk(b) && Reserved(s.hist, b)
            && Exclusivity(s.log, b, s.views, |s.hist|) && Sum(b) == Sum(s.hs)
  {
    var b := Split(s.hs, x);
    SumUpdate(s.hs, x, b[x]);
    SumAppend(s.hs[x := b[x]], b[|s.hs|]);
    forall y: nat ensures BaseOk(b, y) {
      assert BaseOk(s.hs, y);
    }
    forall y: nat, k: nat ensures ReservedAt(s.hist, b, y, k) {
      assert ReservedAt(s.hist, s.hs, y, k);
    }
    forall y: nat ensures SoloAt(s.log, b, s.views, |s.hist|, y) {
      assert SoloAt(s.log, s.hs, s.views, |s.hist|, y);
    }
  }

  lemma SplitInherits(c: Config, s: State, x: nat)
    requires Shape(c, s) && Reserved(s.hist, s.hs)
    requires x < |s.hs| && s.hs[x].kind == Iter && 0 < s.hs[x].weight
    ensures Inherits(s.hs, Split(s.hs, x), s.views) && Derived(s.hs, Split(s.hs, x), s.views)
    ensures OldTokens(s.hist, s.hs, Split(s.hs, x))
  {
    var b := Split(s.hs, x);
    forall y: nat ensures Inherited(s.hs, b, s.views, y) {
      assert Carries(s.hs, b, s.views, y, y);
    }
    forall y: nat ensures DerivedAt(s.hs, b, s.views, y) {
      assert Stems(s.hs, b, s.views, y, if y == |s.hs| then x else y);
    }
    forall k | s.hs[x].birth <= k < |s.hist| ensures s.hist[k].value != 1 {
      assert ReservedAt(s.hist, s.hs, x, k);
    }
  }

  lemma SplitKeeps(c: Config, s: State, x: nat)
    requires Inv(c, s)
    requires x < |s.hs| && s.hs[x].kind == Iter && 0 < s.hs[x].weight && s.pcs[s.hs[x].at] == Idle
    ensures Inv(c, s.(hs := Split(s.hs, x)))
  {
    var b := Split(s.hs, x);
    assert Active(s.hs[x]) && Active(b[x]);
    SplitHolders(c, s, x);
    SplitInherits(c, s, x);
    OwnChangeKeeps(c, s, s.hs[x].at, b);
  }

  // ---- Data accesses ----

  /** `r` is `s` after one more access, by a thread that now has seen it. */
  lemma TouchSeen(s: State, t: Tid, x: nat, act: Act)
    requires 0 < |s.hist| && t < |s.views| && x < |s.hs| && s.hs[x].at == t && Active(s.hs[x])
    requires Covered(Last(s).seen, s.log, s.hs, s.views) && Published(s.log, s.hs, s.views)
    requires Exclusivity(s.log, s.hs, s.views, |s.hist|)
    requires act == Write ==> s.hs[x].kind == Unique
    ensures var r := Touch(s, t, act);
            && Covered(Last(r).seen, r.log, r.hs, r.views) && Published(r.log, r.hs, r.views)
            && Exclusivity(r.log, r.hs, r.views, |r.hist|)
  {
    var r := Touch(s, t, act);
    assert Sees(r.hs, r.views, x, |s.log|);
    forall e: nat ensures CoveredAt(Last(r).seen, r.log, r.hs, r.views, e) {
      assert CoveredAt(Last(s).seen, s.log, s.hs, s.views, e);
      if y :| Sees(s.hs, s.views, y, e) { assert Sees(r.hs, r.views, y, e); }
    }
    assert SoloAt(s.log, s.hs, s.views, |s.hist|, x);
    forall e: nat, y: nat ensures PublishedAt(r.log, r.hs, r.views, e, y) {
      assert PublishedAt(s.log, s.hs, s.views, e, y);
    }
    forall y: nat ensures SoloAt(r.log, r.hs, r.views, |r.hist|, y) {
      assert SoloAt(s.log, s.hs, s.views, |s.hist|, y);
    }
  }

  /** The new access happens after every conflicting one. */
  lemma TouchRace(s: State, t: Tid, x: nat, act: Act)
    requires t < |s.views| && x < |s.hs| && s.hs[x].at == t && Active(s.hs[x])
    requires Published(s.log, s.hs, s.views) && Exclusivity(s.log, s.hs, s.views, |s.hist|)
    requires FreedOnce(s.log, s.freed) && !s.freed && RaceFree(s.log)
    requires act != Read ==> s.hs[x].kind == Unique
    ensures RaceFree(Touch(s, t, act).log)
  {
    assert SoloAt(s.log, s.hs, s.views, |s.hist|, x);
    var log := Touch(s, t, act).log;
    forall i: nat, j: nat ensures Ordered(log, i, j) {
      assert Ordered(s.log, i, j) && PublishedAt(s.log, s.hs, s.views, i, x);
    }
  }

  lemma TouchPcs(s: State, t: Tid, act: Act)
    requires t < |s.views| && PcsOk(s) && !AllDead(s.hs)
    ensures PcsOk(Touch(s, t, act))
  {
    forall u: nat ensures PcAt(Touch(s, t, act), u) {
      assert PcAt(s, u);
    }
  }

  lemma TouchKeeps(c: Config, s: State, t: Tid, x: nat, act: Act)
    requires Inv(c, s) && t < c.n && x < |s.hs| && s.hs[x].at == t && Active(s.hs[x])
    requires act == Read || (act == Write && s.hs[x].kind == Unique)
    ensures Inv(c, Touch(s, t, act))
  {
    var r := Touch(s, t, act);
    TouchPcs(s, t, act);
    TouchSeen(s, t, x, act);
    TouchRace(s, t, x, act);
    GrowNotStale(s.hist, s.hs, s.views, r.views);
  }

  // ---- The end of the allocation ----

  /** Thread `t` knows every access and no other thread is inside an operation. */
  predicate Final(s: State, t: Tid, b: seq<Holder>) {
    && t < |s.views| && SeesAll(s.log, s.views[t]) && AllDead(b)
    && (forall u | 0 <= u < |s.pcs| && u != t :: s.pcs[u] == Idle)
  }

  lemma EndKeeps(c: Config, s: State, t: Tid, act: Act, b: seq<Holder>)
    requires Inv(c, s) && !s.freed && t < c.n && !s.pcs[t].Cloning? && Final(s, t, b)
    requires Shape(c, s.(hs := b))
    requires act.Take? || (act.Dispose? && LastDrop(b, s.drops, act.h) && act.strategy == b[act.h].strategy)
    ensures Inv(c, Goto(Touch(s.(hs := b), t, act), t, Idle).(freed := true))
  {
    var r := Goto(Touch(s.(hs := b), t, act), t, Idle).(freed := true);
    DoomedUpdate(c.max, s.pcs, t, Idle);
    forall u: nat ensures PcAt(r, u) {}
    forall x: nat ensures BaseOk(b, x) {}
    forall x: nat ensures PendingAt(b, r.pcs, x) {}
    forall x: nat, k: nat ensures ReservedAt(r.hist, b, x, k) {}
    forall x: nat, k: nat ensures NotStaleAt(r.hist, b, r.views, x, k) {}
    forall e: nat, x: nat ensures PublishedAt(r.log, b, r.views, e, x) {}
    forall x: nat ensures SoloAt(r.log, b, r.views, |r.hist|, x) {}
    forall i: nat, j: nat ensures Ordered(r.log, i, j) {
      assert Ordered(s.log, i, j);
    }
  }

  /** Nobody is inside an operation once only `t` can have a holder. */
  lemma QuietOthers(c: Config, s: State, t: Tid, u: Tid)
    requires Shape(c, s) && PcsOk(s) && u < c.n && u != t
    requires forall x | 0 <= x < |s.hs| && Active(s.hs[x]) :: s.hs[x].at == t
    requires AllDead(s.hs) ==> !Disposing(s.pcs[u])
    ensures s.pcs[u] == Idle
  {
    assert PcAt(s, u);
  }

  lemma DropDisposeKeeps(c: Config, s: State, t: Tid)
    requires Inv(c, s) && Enabled(c, s, DropDispose(t))
    ensures Inv(c, Apply(c, s, DropDispose(t)))
  {
    assert PcAt(s, t);
    forall u | 0 <= u < c.n && u != t ensures s.pcs[u] == Idle { QuietOthers(c, s, t, u); }
    var h := s.pcs[t].h;
    EndKeeps(c, s, t, Dispose(h, s.hs[h].strategy), s.hs);
    assert s.(hs := s.hs) == s;
  }

  lemma IntoInnerKeeps(c: Config, s: State, t: Tid, x: nat)
    requires Inv(c, s) && Enabled(c, s, IntoInner(t, x))
    ensures Inv(c, Apply(c, s, IntoInner(t, x)))
  {
    var b := s.hs[x := s.hs[x].(kind := Dead, weight := 0)];
    assert SoloAt(s.log, s.hs, s.views, |s.hist|, x);
    assert Active(s.hs[x]);
    forall u | 0 <= u < c.n && u != t ensures s.pcs[u] == Idle { QuietOthers(c, s, t, u); }
    EndKeeps(c, s, t, Take(x), b);
    assert s.pcs[t := Idle] == s.pcs;
  }

  // ---- Read-modify-writes ----

  /** A message appended by the thread of `x`, where a count of 1 means every token is that of
      `x`, leaves nobody stale. */
  lemma PushNotStale(hist: seq<Msg>, hs: seq<Holder>, views: seq<View>, m: Msg, x: nat)
    requires NotStale(hist, hs, views) && 0 < |hist| && x < |hs| && hs[x].at < |views|
    requires hist[|hist| - 1].value == 1 ==>
               forall g | 0 <= g < |hs| && Token(hs[g]) :: x == g || Based(hs[x], g)
    requires forall t | 0 <= t < |views| :: views[t].ts < |hist|
    ensures NotStale(hist + [m], hs, views[hs[x].at := views[hs[x].at].(ts := |hist|)])
  {
    var v := views[hs[x].at := views[hs[x].at].(ts := |hist|)];
    forall g: nat, k: nat ensures NotStaleAt(hist + [m], hs, v, g, k) {
      assert NotStaleAt(hist, hs, views, g, k);
      if k < |hist| - 1 {
        if y :| KnowsBy(hs, views, g, k, y) { assert KnowsBy(hs, v, g, k, y); }
      } else if k == |hist| - 1 && hist[k].value == 1 && g < |hs| && Token(hs[g]) {
        assert KnowsBy(hs, v, g, k, x);
      }
    }
  }

  /** A count of 1 leaves room for one token only. */
  lemma {:induction false} OneToken(hs: seq<Holder>, g: nat)
    requires g < |hs| && hs[g].weight == 1 && Sum(hs) == 1
    requires forall x | 0 <= x < |hs| && Token(hs[x]) :: hs[x].weight == 1
    ensures forall x | 0 <= x < |hs| && Token(hs[x]) :: x == g
  {
    forall x | 0 <= x < |hs| && Token(hs[x]) ensures x == g {
      if x != g { SumPair(hs, g, x); }
    }
  }

  lemma {:induction false} PushReserved(hist: seq<Msg>, hs: seq<Holder>, b: seq<Holder>, m: Msg)
    requires Reserved(hist, hs) && BasesOk(b) && m.value == Sum(b)
    requires forall x | 0 <= x < |b| && b[x].kind == Handle :: b[x].weight == 1
    requires forall x | 0 <= x < |b| && b[x].kind == Iter ::
               b[x].birth == |hist| || (x < |hs| && hs[x] == b[x])
    ensures Reserved(hist + [m], b)
  {
    forall x: nat, k: nat ensures ReservedAt(hist + [m], b, x, k) {
      assert ReservedAt(hist, hs, x, k) && BaseOk(b, x);
      if x < |b| && b[x].kind == Iter { SumPair(b, x, b[x].base); }
    }
  }

  /** Thread `t` writes `v` on behalf of its holder `x`, which it keeps; `b` are the holders and
      `pc` its place afterwards. */
  function Pushed(s: State, t: Tid, v: nat, b: seq<Holder>, pc: Pc): State
    requires 0 < |s.hist| && t < |s.views| && t < |s.pcs|
  {
    Goto(Push(s, t, v, false).(hs := b), t, pc)
  }

  /** `t` is the thread of `x`, which is not unique, and replaces at most `x` and one new holder. */
  predicate Pushes(s: State, t: Tid, x: nat, b: seq<Holder>) {
    && x < |s.hs| && s.hs[x].at == t && t < |s.pcs| && t < |s.views|
    && (s.hs[x].kind == Handle || s.hs[x].kind == Borrow || s.hs[x].kind == Iter)
    && (b == s.hs[x := if s.hs[x].kind == Iter then s.hs[x].(kind := Borrow, weight := 0) else s.hs[x]]
        || (s.hs[x].kind != Iter && |b| == |s.hs| + 1 && b == s.hs + [b[|s.hs|]] && Fresh(s, t, b[|s.hs|])))
  }

  predicate Fresh(s: State, t: Tid, h: Holder) {
    && h.at == t && h.birth == |s.hist|
    && ((h.kind == Pending && h.weight == 1) || (h.kind == Iter && h.base < |s.hs| && s.hs[h.base].kind == Handle))
  }

  /** `pc` names the new holder if it is a clone in progress. */
  predicate Lands(s: State, b: seq<Holder>, pc: Pc) {
    if pc.Cloning? then |b| == |s.hs| + 1 && pc.p == |s.hs| && b[|s.hs|].kind == Pending
    else pc == Idle && (|b| == |s.hs| + 1 ==> b[|s.hs|].kind == Iter)
  }

  /** With a count of 1 every token is that of the handle `x` stands for. */
  ghost predicate OneOnly(s: State, x: nat)
    requires 0 < |s.hist|
  {
    Last(s).value == 1 ==> forall g: nat :: TokenOf(s, x, g)
  }

  predicate TokenOf(s: State, x: nat, g: nat) {
    x < |s.hs| && g < |s.hs| && Token(s.hs[g]) ==> x == g || Based(s.hs[x], g)
  }

  lemma PushShape(c: Config, s: State, t: Tid, x: nat, v: nat, b: seq<Holder>, pc: Pc)
    requires Shape(c, s) && BasesOk(s.hs) && Pushes(s, t, x, b)
    ensures Shape(c, Pushed(s, t, v, b, pc)) && BasesOk(b)
  {
    forall y: nat ensures BaseOk(b, y) {
      assert BaseOk(s.hs, y);
    }
  }

  lemma {:induction false} PushHolders(c: Config, s: State, t: Tid, x: nat, v: nat, b: seq<Holder>, pc: Pc)
    requires Shape(c, s) && BasesOk(s.hs) && Pushes(s, t, x, b) && Reserved(s.hist, s.hs) && v == Sum(b)
    requires Exclusivity(s.log, s.hs, s.views, |s.hist|)
    ensures var r := Pushed(s, t, v, b, pc);
            Shape(c, r) && BasesOk(b) && Reserved(r.hist, b) && Exclusivity(r.log, b, r.views, |r.hist|)
  {
    var r := Pushed(s, t, v, b, pc);
    PushShape(c, s, t, x, v, b, pc);
    PushReserved(s.hist, s.hs, b, r.hist[|s.hist|]);
    forall y: nat ensures SoloAt(r.log, b, r.views, |r.hist|, y) {
      assert SoloAt(s.log, s.hs, s.views, |s.hist|, y);
    }
  }

  lemma PushInherits(c: Config, s: State, t: Tid, x: nat, v: nat, b: seq<Holder>, pc: Pc)
    requires Shape(c, s) && Pushes(s, t, x, b)
    ensures var r := Pushed(s, t, v, b, pc);
            Inherits(s.hs, b, r.views) && Derived(s.hs, b, r.views) && OldTokens(r.hist, s.hs, b)
  {
    var r := Pushed(s, t, v, b, pc);
    forall y: nat ensures Inherited(s.hs, b, r.views, y) {
      assert Carries(s.hs, b, r.views, y, y);
    }
    forall y: nat ensures DerivedAt(s.hs, b, r.views, y) {
      assert Stems(s.hs, b, r.views, y, if y < |s.hs| then y else x);
    }
  }

  lemma PushPcs(c: Config, s: State, t: Tid, x: nat, v: nat, b: seq<Holder>, pc: Pc)
    requires Shape(c, s) && PcsOk(s) && PendingOk(s.hs, s.pcs) && Pushes(s, t, x, b)
    requires Lands(s, b, pc)
    requires !s.pcs[t].Cloning?
    ensures PcsOk(Pushed(s, t, v, b, pc)) && PendingOk(b, s.pcs[t := pc])
  {
    var r := Pushed(s, t, v, b, pc);
    forall u: nat ensures PcAt(r, u) {
      assert PcAt(s, u);
    }
    forall y: nat ensures PendingAt(b, r.pcs, y) {
      assert PendingAt(s.hs, s.pcs, y);
    }
  }

  lemma PushViews(c: Config, s: State, t: Tid, x: nat, v: nat, b: seq<Holder>, pc: Pc)
    requires Shape(c, s) && Pushes(s, t, x, b) && NotStale(s.hist, s.hs, s.views)
    requires Covered(Last(s).seen, s.log, s.hs, s.views) && Published(s.log, s.hs, s.views)
    requires OneOnly(s, x)
    ensures var r := Pushed(s, t, v, b, pc);
            NotStale(r.hist, b, r.views) && Covered(Last(r).seen, r.log, b, r.views) && Published(r.log, b, r.views)
  {
    var r := Pushed(s, t, v, b, pc);
    PushInherits(c, s, t, x, v, b, pc);
    if Last(s).value == 1 {
      forall g | 0 <= g < |s.hs| && Token(s.hs[g]) ensures x == g || Based(s.hs[x], g) {
        assert TokenOf(s, x, g);
      }
    }
    PushNotStale(s.hist, s.hs, s.views, r.hist[|s.hist|], x);
    InheritNotStale(r.hist, s.hs, b, r.views);
    assert Last(r).seen == Last(s).seen;
    GrowCovered(Last(s).seen, s.log, s.hs, s.views, r.views);
    GrowPublished(s.log, s.hs, s.views, r.views);
    InheritSeen(Last(s).seen, s.log, s.hs, b, r.views);
  }

  lemma PushEnd(s: State, t: Tid, x: nat, b: seq<Holder>, pc: Pc)
    requires Ended(s.hs, s.pcs, s.freed) && FreedOnce(s.log, s.freed) && Pushes(s, t, x, b) && OneDisposer(s.pcs)
    requires !Disposing(pc)
    ensures !s.freed && Ended(b, s.pcs[t := pc], s.freed) && ByLast(s.log, s.drops, b) && OneDisposer(s.pcs[t := pc])
  {
    assert Active(s.hs[x]) && Active(b[x]);
  }

  /** The write of `v` fits the holders and the limit, and leaves nobody behind. */
  ghost predicate PushReady(c: Config, s: State, t: Tid, x: nat, v: nat, b: seq<Holder>, pc: Pc) {
    && Shape(c, s) && Pushes(s, t, x, b) && v == Sum(b) && Lands(s, b, pc) && !s.pcs[t].Cloning?
    && OneOnly(s, x) && Limited(c, Pushed(s, t, v, b, pc))
  }

  lemma {:induction false} PushKeeps(c: Config, s: State, t: Tid, x: nat, v: nat, b: seq<Holder>, pc: Pc)
    requires Inv(c, s) && PushReady(c, s, t, x, v, b, pc)
    ensures Inv(c, Pushed(s, t, v, b, pc))
  {
    PushEnd(s, t, x, b, pc);
    PushHolders(c, s, t, x, v, b, pc);
    PushPcs(c, s, t, x, v, b, pc);
    PushViews(c, s, t, x, v, b, pc);
  }

  /** Whoever clones through `x`: with a count of 1 there is no other token. */
  lemma OnlyToken(c: Config, s: State, t: Tid, x: nat)
    requires Inv(c, s) && Access(s, t, x)
    ensures !s.freed
    ensures OneOnly(s, x)
  {
    assert Active(s.hs[x]) && BaseOk(s.hs, x);
    if Last(s).value == 1 {
      OneToken(s.hs, Target(s, x));
      forall g: nat ensures TokenOf(s, x, g) {}
    }
  }

  /** A clone in progress or an iterator adds its tokens. */
  predicate Gains(s: State, t: Tid, x: nat, h: Holder, pc: Pc) {
    && Access(s, t, x) && t < |s.pcs| && t < |s.views| && !s.pcs[t].Cloning? && h.at == t && h.birth == |s.hist|
    && if pc.Cloning? then h.kind == Pending && h.weight == 1 && pc.p == |s.hs|
       else pc == Idle && h.kind == Iter && h.base == Target(s, x)
  }

  lemma GainPushes(s: State, t: Tid, x: nat, h: Holder, pc: Pc)
    requires BasesOk(s.hs) && Gains(s, t, x, h, pc)
    ensures Pushes(s, t, x, s.hs + [h])
  {
    assert BaseOk(s.hs, x);
  }

  lemma GainReady(c: Config, s: State, t: Tid, x: nat, h: Holder, pc: Pc)
    requires Shape(c, s) && BasesOk(s.hs) && Conserved(s) && !s.freed && OneOnly(s, x) && Gains(s, t, x, h, pc)
    requires Last(s).value + h.weight <= c.max + 1 + Doomed(c.max, s.pcs[t := pc])
    ensures PushReady(c, s, t, x, Last(s).value + h.weight, s.hs + [h], pc)
  {
    SumAppend(s.hs, h);
    GainPushes(s, t, x, h, pc);
  }

  lemma GainKeeps(c: Config, s: State, t: Tid, x: nat, h: Holder, pc: Pc)
    requires Inv(c, s) && Gains(s, t, x, h, pc)
    requires Last(s).value + h.weight <= c.max + 1 + Doomed(c.max, s.pcs[t := pc])
    ensures Inv(c, Pushed(s, t, Last(s).value + h.weight, s.hs + [h], pc))
  {
    OnlyToken(c, s, t, x);
    GainReady(c, s, t, x, h, pc);
    PushKeeps(c, s, t, x, Last(s).value + h.weight, s.hs + [h], pc);
  }

  lemma CloneAddKeeps(c: Config, s: State, t: Tid, x: nat, strategy: nat)
    requires Inv(c, s) && c.n <= c.max && Holds(c, s, t, x) && Access(s, t, x)
    ensures Last(s).value < UsizeMax(c)
    ensures Inv(c, Pushed(s, t, Last(s).value + 1, s.hs + [Holder(Pending, t, 1, |s.hist|, 0, strategy)],
                          Cloning(|s.hs|, Last(s).value)))
  {
    var pc := Cloning(|s.hs|, Last(s).value);
    DoomedBound(c.max, s.pcs);
    DoomedUpdate(c.max, s.pcs, t, pc);
    GainKeeps(c, s, t, x, Holder(Pending, t, 1, |s.hist|, 0, strategy), pc);
  }

  // ---- The second half of `clone` ----

  lemma ResolveHolders(c: Config, s: State, t: Tid, p: nat)
    requires Shape(c, s) && BasesOk(s.hs) && Reserved(s.hist, s.hs) && t < c.n
    requires p < |s.hs| && s.hs[p].kind == Pending && s.hs[p].at == t
    requires Exclusivity(s.log, s.hs, s.views, |s.hist|)
    ensures var b := s.hs[p := s.hs[p].(kind := Handle)];
            && Shape(c, s.(hs := b)) && BasesOk(b) && Reserved(s.hist, b)
            && Exclusivity(s.log, b, s.views, |s.hist|)
            && Inherits(s.hs, b, s.views) && Derived(s.hs, b, s.views) && OldTokens(s.hist, s.hs, b)
  {
    var b := s.hs[p := s.hs[p].(kind := Handle)];
    forall y: nat ensures BaseOk(b, y) {
      assert BaseOk(s.hs, y);
    }
    forall y: nat, k: nat ensures ReservedAt(s.hist, b, y, k) {
      assert ReservedAt(s.hist, s.hs, y, k);
    }
    forall y: nat ensures SoloAt(s.log, b, s.views, |s.hist|, y) {
      assert SoloAt(s.log, s.hs, s.views, |s.hist|, y);
    }
    forall y: nat ensures Inherited(s.hs, b, s.views, y) {
      assert Carries(s.hs, b, s.views, y, y);
    }
    forall y: nat ensures DerivedAt(s.hs, b, s.views, y) {
      assert Stems(s.hs, b, s.views, y, y);
    }
  }

  lemma ResolvePcs(c: Config, s: State, t: Tid, p: nat)
    requires Shape(c, s) && PcsOk(s) && PendingOk(s.hs, s.pcs) && OneDisposer(s.pcs)
    requires Ended(s.hs, s.pcs, s.freed) && FreedOnce(s.log, s.freed)
    requires p < |s.hs| && s.hs[p].kind == Pending && s.hs[p].at == t && t < c.n && s.pcs[t].Cloning? && s.pcs[t].p == p
    ensures var b := s.hs[p := s.hs[p].(kind := Handle)];
            && PcsOk(Goto(s.(hs := b), t, Idle)) && PendingOk(b, s.pcs[t := Idle]) && OneDisposer(s.pcs[t := Idle])
            && !s.freed && Ended(b, s.pcs[t := Idle], s.freed) && ByLast(s.log, s.drops, b)
  {
    var b := s.hs[p := s.hs[p].(kind := Handle)];
    var pcs := s.pcs[t := Idle];
    assert b[p].kind == Handle;
    forall u: nat ensures PcAt(Goto(s.(hs := b), t, Idle), u) {
      assert PcAt(s, u);
    }
    forall y: nat ensures PendingAt(b, pcs, y) {
      assert PendingAt(s.hs, s.pcs, y);
    }
  }

  lemma ResolveKeeps(c: Config, s: State, t: Tid, p: nat)
    requires Inv(c, s) && t < c.n && s.pcs[t].Cloning? && s.pcs[t].p == p && s.pcs[t].prior <= c.max
    ensures p < |s.hs| && Inv(c, Goto(SetHolder(s, p, s.hs[p].(kind := Handle)), t, Idle))
  {
    assert PcAt(s, t);
    var b := s.hs[p := s.hs[p].(kind := Handle)];
    SumUpdate(s.hs, p, b[p]);
    DoomedUpdate(c.max, s.pcs, t, Idle);
    ResolveHolders(c, s, t, p);
    ResolvePcs(c, s, t, p);
    InheritNotStale(s.hist, s.hs, b, s.views);
    InheritSeen(Last(s).seen, s.log, s.hs, b, s.views);
  }

  // ---- Giving back the leftover of an iterator ----

  function GivenBack(hs: seq<Holder>, i: nat): seq<Holder>
    requires i < |hs|
  {
    hs[i := hs[i].(kind := Borrow, weight := 0)]
  }

  lemma GiveBackRoom(c: Config, s: State, t: Tid, i: nat)
    requires Shape(c, s) && PcsOk(s) && BasesOk(s.hs) && Reserved(s.hist, s.hs)
    requires t < c.n && s.pcs[t].Returning? && s.pcs[t].i == i
    ensures i < |s.hs| && s.hs[i].weight < Last(s).value
    ensures Pushes(s, t, i, GivenBack(s.hs, i))
    ensures 1 < Last(s).value
  {
    assert PcAt(s, t);
    assert ReservedAt(s.hist, s.hs, i, |s.hist| - 1);
  }

  lemma FewerLimited(c: Config, s: State, t: Tid, v: nat, b: seq<Holder>, pc: Pc)
    requires Shape(c, s) && Limited(c, s) && t < c.n && !s.pcs[t].Cloning? && v <= Last(s).value
    ensures Limited(c, Pushed(s, t, v, b, pc))
  {
    DoomedUpdate(c.max, s.pcs, t, pc);
  }

  lemma GiveBackSum(s: State, i: nat)
    requires 0 < |s.hist| && i < |s.hs| && s.hs[i].kind == Iter && Ended(s.hs, s.pcs, s.freed) && Conserved(s)
    requires s.hs[i].weight < Last(s).value
    ensures Last(s).value - s.hs[i].weight == Sum(GivenBack(s.hs, i))
  {
    assert Active(s.hs[i]);
    SumUpdate(s.hs, i, GivenBack(s.hs, i)[i]);
  }

  lemma GiveBackReady(c: Config, s: State, t: Tid, i: nat)
    requires Shape(c, s) && PcsOk(s) && BasesOk(s.hs) && Reserved(s.hist, s.hs) && Limited(c, s)
    requires Ended(s.hs, s.pcs, s.freed) && Conserved(s)
    requires t < c.n && s.pcs[t].Returning? && s.pcs[t].i == i
    ensures i < |s.hs| && s.hs[i].weight < Last(s).value
    ensures PushReady(c, s, t, i, Last(s).value - s.hs[i].weight, GivenBack(s.hs, i), Idle)
  {
    GiveBackRoom(c, s, t, i);
    assert PcAt(s, t);
    GiveBackSum(s, i);
    FewerLimited(c, s, t, Last(s).value - s.hs[i].weight, GivenBack(s.hs, i), Idle);
  }

  lemma GiveBackKeeps(c: Config, s: State, t: Tid, i: nat)
    requires Inv(c, s) && t < c.n && s.pcs[t].Returning? && s.pcs[t].i == i
    ensures i < |s.hs| && s.hs[i].weight < Last(s).value
    ensures Inv(c, Pushed(s, t, Last(s).value - s.hs[i].weight, GivenBack(s.hs, i), Idle))
  {
    GiveBackReady(c, s, t, i);
    PushKeeps(c, s, t, i, Last(s).value - s.hs[i].weight, GivenBack(s.hs, i), Idle);
  }

  // ---- `Drop` ----

  /** The state after the `fetch_sub` of a handle that nobody borrows. */
  function Dropped(s: State, t: Tid, x: nat, v: nat, pc: Pc): State
    requires 0 < |s.hist| && t < |s.views| && t < |s.pcs| && x < |s.hs|
  {
    Goto(Kill(Push(s, t, v, true), x).(drops := s.drops + [x]), t, pc)
  }

  predicate Drops(s: State, t: Tid, x: nat) {
    && t < |s.views| && t < |s.pcs| && s.pcs[t] == Idle && x < |s.hs| && s.hs[x].at == t
    && (s.hs[x].kind == Handle || s.hs[x].kind == Unique) && Exclusive(s, x)
  }

  lemma DropHolders(c: Config, s: State, t: Tid, x: nat, v: nat, pc: Pc)
    requires Shape(c, s) && BasesOk(s.hs) && Reserved(s.hist, s.hs) && Drops(s, t, x)
    requires Exclusivity(s.log, s.hs, s.views, |s.hist|) && v + 1 == Sum(s.hs)
    ensures var r := Dropped(s, t, x, v, pc);
            && Shape(c, r) && BasesOk(r.hs) && Reserved(r.hist, r.hs) && Sum(r.hs) == v
            && Exclusivity(r.log, r.hs, r.views, |r.hist|)
  {
    var r := Dropped(s, t, x, v, pc);
    SumUpdate(s.hs, x, r.hs[x]);
    forall y: nat ensures BaseOk(r.hs, y) {
      assert BaseOk(s.hs, y);
    }
    PushReserved(s.hist, s.hs, r.hs, r.hist[|s.hist|]);
    forall y: nat ensures SoloAt(r.log, r.hs, r.views, |r.hist|, y) {
      assert SoloAt(s.log, s.hs, s.views, |s.hist|, y);
    }
  }

  lemma DropViews(c: Config, s: State, t: Tid, x: nat, v: nat, pc: Pc)
    requires Shape(c, s) && NotStale(s.hist, s.hs, s.views) && Drops(s, t, x)
    requires Last(s).value == 1 ==> forall g | 0 <= g < |s.hs| && Token(s.hs[g]) :: x == g
    requires Covered(Last(s).seen, s.log, s.hs, s.views) && Published(s.log, s.hs, s.views)
    ensures var r := Dropped(s, t, x, v, pc);
            && NotStale(r.hist, r.hs, r.views) && Covered(Last(r).seen, r.log, r.hs, r.views)
            && Published(r.log, r.hs, r.views)
  {
    var r := Dropped(s, t, x, v, pc);
    PushNotStale(s.hist, s.hs, s.views, r.hist[|s.hist|], x);
    forall g: nat, k: nat ensures NotStaleAt(r.hist, r.hs, r.views, g, k) {
      assert NotStaleAt(r.hist, s.hs, r.views, g, k);
      if y :| KnowsBy(s.hs, r.views, g, k, y) { assert y != x ==> KnowsBy(r.hs, r.views, g, k, y); }
    }
    forall e: nat ensures CoveredAt(Last(r).seen, r.log, r.hs, r.views, e) {
      assert CoveredAt(Last(s).seen, s.log, s.hs, s.views, e);
      if y :| Sees(s.hs, s.views, y, e) { assert y != x ==> Sees(r.hs, r.views, y, e); }
    }
    forall e: nat, y: nat ensures PublishedAt(r.log, r.hs, r.views, e, y) {
      assert PublishedAt(s.log, s.hs, s.views, e, y);
    }
  }

  /** A count of 0 leaves nobody. */
  lemma {:induction false} NobodyLeft(hs: seq<Holder>)
    requires BasesOk(hs)
    requires forall x | 0 <= x < |hs| :: Token(hs[x]) ==> hs[x].weight == 1
    requires forall x | 0 <= x < |hs| :: hs[x].kind == Forgotten ==> 0 < hs[x].weight
    requires forall x | 0 <= x < |hs| :: hs[x].kind == Dead ==> hs[x].weight == 0
    ensures Sum(hs) == 0 <==> AllDead(hs)
  {
    SumZero(hs);
    forall x | 0 <= x < |hs| && Sum(hs) == 0 ensures hs[x].kind == Dead {
      assert BaseOk(hs, x);
    }
  }

  lemma DropPcs(c: Config, s: State, t: Tid, x: nat, v: nat, pc: Pc)
    requires Shape(c, s) && PcsOk(s) && PendingOk(s.hs, s.pcs) && OneDisposer(s.pcs) && Drops(s, t, x)
    requires Ended(s.hs, s.pcs, s.freed) && FreedOnce(s.log, s.freed)
    requires var r := Dropped(s, t, x, v, pc); AllDead(r.hs) <==> v == 0
    requires pc == if v != 0 then Idle else DropLoad(x)
    ensures var r := Dropped(s, t, x, v, pc);
            && PcsOk(r) && PendingOk(r.hs, r.pcs) && OneDisposer(r.pcs)
            && !s.freed && Ended(r.hs, r.pcs, r.freed) && ByLast(r.log, r.drops, r.hs)
  {
    var r := Dropped(s, t, x, v, pc);
    assert Active(s.hs[x]);
    forall u: nat ensures PcAt(r, u) && (u < |s.pcs| ==> !Disposing(s.pcs[u])) {
      assert PcAt(s, u);
    }
    forall y: nat ensures PendingAt(r.hs, r.pcs, y) {
      assert PendingAt(s.hs, s.pcs, y);
    }
    assert v == 0 ==> Disposing(r.pcs[t]);
  }

  lemma DropKeeps(c: Config, s: State, t: Tid, x: nat)
    requires Inv(c, s) && c.n <= c.max && Drops(s, t, x)
    ensures 0 < Last(s).value
    ensures var v := Last(s).value - 1; Inv(c, Dropped(s, t, x, v, if v != 0 then Idle else DropLoad(x)))
  {
    assert Active(s.hs[x]) && !s.freed;
    SumAtLeast(s.hs, x);
    var v := Last(s).value - 1;
    var pc := if v != 0 then Idle else DropLoad(x);
    FewerLimited(c, s, t, v, s.hs, pc);
    DropHolders(c, s, t, x, v, pc);
    NobodyLeft(Dropped(s, t, x, v, pc).hs);
    DropPcs(c, s, t, x, v, pc);
    if Last(s).value == 1 { OneToken(s.hs, x); }
    DropViews(c, s, t, x, v, pc);
  }

  // ---- `is_unique` ----

  /** The load cannot be stale: a thread with exclusive access to a handle reads 1 only from
      the last message. */
  lemma UniqueIsLast(s: State, t: Tid, x: nat, k: nat)
    requires NotStale(s.hist, s.hs, s.views) && x < |s.hs| && Token(s.hs[x]) && Exclusive(s, x)
    requires s.hs[x].at == t && CanRead(s, t, k) && s.hs[x].birth <= s.views[t].ts && s.hist[k].value == 1
    ensures k == |s.hist| - 1
  {
    assert NotStaleAt(s.hist, s.hs, s.views, x, k);
    assert forall y :: !KnowsBy(s.hs, s.views, x, k, y);
  }

  lemma {:induction false} Alone(hs: seq<Holder>, x: nat)
    requires x < |hs| && hs[x].weight == 1 && Sum(hs) == 1 && BasesOk(hs)
    requires forall y | 0 <= y < |hs| :: (Token(hs[y]) ==> hs[y].weight == 1) && !Based(hs[y], x)
    requires forall y | 0 <= y < |hs| :: hs[y].kind == Forgotten ==> 0 < hs[y].weight
    ensures forall y | 0 <= y < |hs| && y != x :: hs[y].kind == Dead
  {
    forall y | 0 <= y < |hs| && y != x ensures hs[y].kind == Dead {
      SumPair(hs, x, y);
      assert BaseOk(hs, y);
      if hs[y].kind == Borrow || hs[y].kind == Iter { SumPair(hs, x, hs[y].base); }
    }
  }

  /** What a successful `is_unique` means: the load read the last message, every other holder is
      gone, and every access so far happens before what the thread does next. */
  lemma UniqueAlone(c: Config, s: State, t: Tid, x: nat, k: nat)
    requires Inv(c, s) && Enabled(c, s, IsUnique(t, x, k))
    ensures k == |s.hist| - 1 && !s.freed
    ensures Solo(s.log, s.hs, Load(s, t, k, true).views, |s.hist|, x)
  {
    assert Active(s.hs[x]);
    UniqueIsLast(s, t, x, k);
    Alone(s.hs, x);
    var r := Load(s, t, k, true);
    forall e | 0 <= e < |s.log| ensures e in r.views[t].seen {
      assert CoveredAt(Last(s).seen, s.log, s.hs, s.views, e);
    }
  }
}
