/** `clone_many` reserves tokens with one addition and hands them out one at a time; it behaves
    like cloning one at a time. */
module Batch {
  import opened Cells

  function ReservedOf(slot: Slot, c: nat): nat {
    if slot.Iter? && slot.cell == c then slot.left else 0
  }

  /** What the live iterators have reserved of cell `c`. */
  function Reserved(slots: seq<Slot>, c: nat): nat {
    if slots == [] then 0 else Reserved(slots[..|slots| - 1], c) + ReservedOf(slots[|slots| - 1], c)
  }

  function Minus(a: nat, b: nat): nat {
    if a < b then 0 else a - b
  }

  function EraseCell<V>(m: Mem<V>, c: nat): Cell<V>
    requires c < |m.cells|
  {
    m.cells[c].(count := Minus(m.cells[c].count, Reserved(m.slots, c)))
  }

  /** The memory in which a clone is counted when it is handed out, not when it is reserved. */
  function Erase<V>(m: Mem<V>): Mem<V> {
    m.(cells := seq(|m.cells|, c requires 0 <= c < |m.cells| => EraseCell(m, c)))
  }

  /** The same program with an iterator that calls `clone` on every `next`. */
  function LoopStep<V>(max: nat, m: Mem<V>, op: Op<V>): (Mem<V>, Out<V>)
    requires Allowed(m, op)
  {
    match op
    case CloneMany(h, n) => (AddSlot(m, Iter(h, m.slots[h].cell, n)), Done)
    case Next(h) =>
      var Iter(orig, c, left) := m.slots[h];
      if left == 0 then (m, Flag(false))
      else if max < m.cells[c].count then (m, Aborted)
      else (AddSlot(SetSlot(SetCount(m, c, m.cells[c].count + 1), h, Iter(orig, c, left - 1)),
                    Arc(c, m.slots[orig].strategy)), Flag(true))
    case DropIter(h) => (SetSlot(m, h, Empty), Done)
    case _ => Step(max, m, op)
  }

  /** No live cell is counted past the point where `clone` aborts. */
  predicate Limited<V>(max: nat, m: Mem<V>) {
    forall c | 0 <= c < |m.cells| :: m.cells[c].count <= max + 1
  }

  lemma {:induction false} ReservedUpdate(slots: seq<Slot>, x: nat, slot: Slot, c: nat)
    requires x < |slots|
    ensures Reserved(slots[x := slot], c) == Reserved(slots, c) - ReservedOf(slots[x], c) + ReservedOf(slot, c)
  {
    var n := |slots| - 1;
    if x == n {
      assert slots[x := slot][..n] == slots[..n];
    } else {
      assert slots[x := slot][..n] == slots[..n][x := slot];
      ReservedUpdate(slots[..n], x, slot, c);
    }
  }

  lemma {:induction false} ReservedAppend(slots: seq<Slot>, slot: Slot, c: nat)
    ensures Reserved(slots + [slot], c) == Reserved(slots, c) + ReservedOf(slot, c)
  {
    assert (slots + [slot])[..|slots|] == slots;
  }

  lemma {:induction false} ReservedLess(slots: seq<Slot>, c: nat)
    ensures Reserved(slots, c) <= Tokens(slots, c)
    ensures Reserved(slots, c) == 0 || exists x :: 0 <= x < |slots| && 0 < ReservedOf(slots[x], c)
  {
    if slots != [] {
      ReservedLess(slots[..|slots| - 1], c);
      assert 0 < ReservedOf(slots[|slots| - 1], c) || Reserved(slots[..|slots| - 1], c) == Reserved(slots, c);
    }
  }

  /** Every handle is counted on top of the reservations. */
  lemma {:induction false} HandlesOnTop(slots: seq<Slot>, x: nat, c: nat)
    requires x < |slots| && slots[x].Arc?
    ensures Reserved(slots, c) + TokensOf(slots[x], c) <= Tokens(slots, c)
  {
    TokensUpdate(slots, x, Empty, c);
    ReservedUpdate(slots, x, Empty, c);
    ReservedLess(slots[x := Empty], c);
  }

  lemma {:induction false} TwoHandlesOnTop(slots: seq<Slot>, x: nat, y: nat, c: nat)
    requires x < |slots| && y < |slots| && x != y && slots[x].Arc? && slots[y].Arc?
    ensures Reserved(slots, c) + TokensOf(slots[x], c) + TokensOf(slots[y], c) <= Tokens(slots, c)
  {
    TokensUpdate(slots, x, Empty, c);
    ReservedUpdate(slots, x, Empty, c);
    HandlesOnTop(slots[x := Empty], y, c);
  }

  /** A handle nobody borrows is the only one with reservations exactly when it is without. */
  lemma SoleAgrees<V>(m: Mem<V>, h: nat)
    requires Good(m) && IsArc(m, h) && Unborrowed(m.slots, h)
    ensures var c := m.slots[h].cell;
            && Reserved(m.slots, c) < m.cells[c].count
            && (m.cells[c].count == 1 <==> EraseCell(m, c).count == 1)
            && (m.cells[c].count == 1 ==> Reserved(m.slots, c) == 0)
  {
    var c := m.slots[h].cell;
    assert SlotOk(m, h) && CellOk(m, c);
    HandlesOnTop(m.slots, h, c);
    ReservedLess(m.slots, c);
    if Reserved(m.slots, c) != 0 {
      var x :| 0 <= x < |m.slots| && 0 < ReservedOf(m.slots[x], c);
      assert SlotOk(m, x);
      TwoHandlesOnTop(m.slots, h, m.slots[x].orig, c);
    }
  }

  /** The result of `count` differs by what is reserved; everything else is returned alike. */
  predicate SameOut<V(==)>(m: Mem<V>, op: Op<V>, a: Out<V>, b: Out<V>) {
    if op.Count? then IsArc(m, op.h) && a.Number? && b.Number? && a.n == b.n + Reserved(m.slots, m.slots[op.h].cell)
    else a == b
  }

  /** Two memories agree once the reservations of the first are erased. */
  lemma ErasesTo<V>(r: Mem<V>, q: Mem<V>)
    requires r.slots == q.slots && |r.cells| == |q.cells|
    requires forall c | 0 <= c < |r.cells| :: q.cells[c] == EraseCell(r, c)
    ensures Erase(r) == q
  {
  }

  /** `op` does the same to the erased memory. */
  predicate Agrees<V(==)>(max: nat, m: Mem<V>, op: Op<V>)
    requires Allowed(m, op)
  {
    var (r, a) := Step(max, m, op);
    var (q, b) := LoopStep(max, Erase(m), op);
    q == Erase(r) && SameOut(m, op, a, b)
  }

  lemma FacingHandle<V>(m: Mem<V>, h: nat)
    requires Good(m) && IsArc(m, h)
    ensures var c := m.slots[h].cell;
            m.cells[c].end == Alive && Reserved(m.slots, c) < m.cells[c].count && EraseCell(m, c).count + Reserved(m.slots, c) == m.cells[c].count
    ensures Unborrowed(m.slots, h) ==>
              (CellOf(m, h).count == 1 <==> EraseCell(m, m.slots[h].cell).count == 1)
              && (CellOf(m, h).count == 1 ==> Reserved(m.slots, m.slots[h].cell) == 0)
  {
    assert SlotOk(m, h) && CellOk(m, m.slots[h].cell);
    HandlesOnTop(m.slots, h, m.slots[h].cell);
    if Unborrowed(m.slots, h) { SoleAgrees(m, h); }
  }

  /** What is reserved of any cell depends on the iterators only. */
  lemma {:induction false} HandleChange(slots: seq<Slot>, h: nat, slot: Slot)
    requires h < |slots| && !slots[h].Iter? && !slot.Iter?
    ensures forall c: nat :: Reserved(slots[h := slot], c) == Reserved(slots, c)
  {
    forall c: nat ensures Reserved(slots[h := slot], c) == Reserved(slots, c) { ReservedUpdate(slots, h, slot, c); }
  }

  lemma {:induction false} HandleAdded(slots: seq<Slot>, slot: Slot)
    requires !slot.Iter?
    ensures forall c: nat :: Reserved(slots + [slot], c) == Reserved(slots, c)
  {
    forall c: nat ensures Reserved(slots + [slot], c) == Reserved(slots, c) { ReservedAppend(slots, slot, c); }
  }

  /** A clone aborts with the reservations counted exactly if it aborts without, except when only
      the reservations take the count past the limit. */
  lemma CloneAgrees<V>(max: nat, m: Mem<V>, h: nat, strategy: nat)
    requires Good(m) && Limited(max, m) && Allowed(m, Clone(h, strategy))
    ensures Agrees(max, m, Clone(h, strategy)) <==>
            CellOf(m, h).count <= max || max < EraseCell(m, m.slots[h].cell).count
  {
    FacingHandle(m, h);
    if CellOf(m, h).count <= max {
      HandleAdded(m.slots, Arc(m.slots[h].cell, strategy));
      ErasesTo(Step(max, m, Clone(h, strategy)).0, LoopStep(max, Erase(m), Clone(h, strategy)).0);
    }
  }

  lemma NewAgrees<V>(max: nat, m: Mem<V>, v: V, strategy: nat)
    requires Good(m)
    ensures Agrees(max, m, New(v, strategy))
  {
    HandleAdded(m.slots, Arc(|m.cells|, strategy));
    assert CellOk(m, |m.cells|);
    ReservedLess(m.slots, |m.cells|);
    ErasesTo(Step(max, m, New(v, strategy)).0, LoopStep(max, Erase(m), New(v, strategy)).0);
  }

  lemma ReleaseAgrees<V>(m: Mem<V>, h: nat)
    requires Good(m) && IsArc(m, h) && Unborrowed(m.slots, h)
    ensures Release(Erase(m), h) == Erase(Release(m, h))
  {
    FacingHandle(m, h);
    HandleChange(m.slots, h, Empty);
    ErasesTo(Release(m, h), Release(Erase(m), h));
  }

  lemma MoveOutAgrees<V>(m: Mem<V>, h: nat)
    requires Good(m) && IsArc(m, h)
    ensures MoveOut(Erase(m), h) == Erase(MoveOut(m, h))
  {
    HandleChange(m.slots, h, Empty);
    ErasesTo(MoveOut(m, h), MoveOut(Erase(m), h));
  }

  lemma SetValueAgrees<V>(m: Mem<V>, c: nat, w: V)
    requires c < |m.cells|
    ensures SetValue(Erase(m), c, w) == Erase(SetValue(m, c, w))
  {
    ErasesTo(SetValue(m, c, w), SetValue(Erase(m), c, w));
  }

  lemma ReplaceAgrees<V>(m: Mem<V>, h: nat, w: V)
    requires Good(m) && IsArc(m, h) && Unborrowed(m.slots, h)
    ensures Replace(Erase(m), h, w) == Erase(Replace(m, h, w))
  {
    ReleaseAgrees(m, h);
    var r := Release(m, h);
    HandleChange(r.slots, h, Arc(|r.cells|, m.slots[h].strategy));
    assert CellOk(m, |m.cells|);
    ReservedLess(m.slots, |m.cells|);
    HandleChange(m.slots, h, Empty);
    ErasesTo(Replace(m, h, w), Replace(Erase(m), h, w));
  }

  lemma OwnerAgrees<V>(max: nat, m: Mem<V>, op: Op<V>)
    requires Good(m) && Allowed(m, op)
    requires op.Drop? || op.Read? || op.MakeMut? || op.GetMut? || op.TryUnwrap? || op.UnwrapOrClone? || op.Count?
             || op.WithStrategy? || (op.Forget? && m.slots[op.h].Arc?)
    ensures Agrees(max, m, op)
  {
    var h := op.h;
    FacingHandle(m, h);
    match op
    case Drop(_) => ReleaseAgrees(m, h);
    case MakeMut(_, w) =>
      if CellOf(m, h).count == 1 {
        SetValueAgrees(m, m.slots[h].cell, w);
      } else {
        var r := Replace(m, h, CellOf(m, h).value);
        ReplaceAgrees(m, h, CellOf(m, h).value);
        SetValueAgrees(r, r.slots[h].cell, w);
      }
    case GetMut(_, w) => SetValueAgrees(m, m.slots[h].cell, w);
    case TryUnwrap(_) => MoveOutAgrees(m, h);
    case UnwrapOrClone(_) => MoveOutAgrees(m, h); ReleaseAgrees(m, h);
    case WithStrategy(_, strategy) =>
      HandleChange(m.slots, h, Arc(m.slots[h].cell, strategy));
      ErasesTo(Step(max, m, op).0, LoopStep(max, Erase(m), op).0);
    case Forget(_) =>
      HandleChange(m.slots, h, Leaked(m.slots[h].cell, 1));
      ErasesTo(Step(max, m, op).0, LoopStep(max, Erase(m), op).0);
    case _ =>
  }

  /** `clone_many` aborts over what the loop has not counted yet. */
  lemma CloneManyAgrees<V>(max: nat, m: Mem<V>, h: nat, n: nat)
    requires Good(m) && Allowed(m, CloneMany(h, n))
    ensures Agrees(max, m, CloneMany(h, n)) <==> CellOf(m, h).count + n <= max
  {
    FacingHandle(m, h);
    if CellOf(m, h).count + n <= max {
      var slot := Iter(h, m.slots[h].cell, n);
      forall c | 0 <= c < |m.cells| ensures Reserved(m.slots + [slot], c) == Reserved(m.slots, c) + ReservedOf(slot, c) {
        ReservedAppend(m.slots, slot, c);
      }
      ErasesTo(Step(max, m, CloneMany(h, n)).0, LoopStep(max, Erase(m), CloneMany(h, n)).0);
    }
  }

  lemma FacingIter<V>(m: Mem<V>, h: nat)
    requires Good(m) && IsIter(m, h)
    ensures var c := m.slots[h].cell;
            m.slots[h].left <= Reserved(m.slots, c) < m.cells[c].count && m.cells[c].end == Alive
  {
    var c := m.slots[h].cell;
    assert SlotOk(m, h) && CellOk(m, c);
    HandlesOnTop(m.slots, m.slots[h].orig, c);
    ReservedUpdate(m.slots, h, Empty, c);
  }

  lemma {:induction false} NextReserved(slots: seq<Slot>, h: nat, arc: Slot)
    requires h < |slots| && slots[h].Iter? && 0 < slots[h].left && arc.Arc?
    ensures forall c: nat :: Reserved(slots[h := slots[h].(left := slots[h].left - 1)] + [arc], c)
                          == Reserved(slots, c) - if c == slots[h].cell then 1 else 0
  {
    var slot := slots[h].(left := slots[h].left - 1);
    forall c: nat ensures Reserved(slots[h := slot] + [arc], c) == Reserved(slots, c) - if c == slots[h].cell then 1 else 0 {
      ReservedUpdate(slots, h, slot, c);
      ReservedAppend(slots[h := slot], arc, c);
    }
  }

  lemma NextAgrees<V>(max: nat, m: Mem<V>, h: nat)
    requires Good(m) && Limited(max, m) && Allowed(m, Next(h))
    ensures Agrees(max, m, Next(h))
  {
    FacingIter(m, h);
    var r := Step(max, m, Next(h)).0;
    if 0 < m.slots[h].left {
      NextReserved(m.slots, h, r.slots[|m.slots|]);
      ErasesTo(r, LoopStep(max, Erase(m), Next(h)).0);
    }
  }

  lemma DropIterAgrees<V>(max: nat, m: Mem<V>, h: nat)
    requires Good(m) && Allowed(m, DropIter(h))
    ensures Agrees(max, m, DropIter(h))
  {
    FacingIter(m, h);
    var r := Step(max, m, DropIter(h)).0;
    forall c | 0 <= c < |m.cells|
      ensures Reserved(r.slots, c) == Reserved(m.slots, c) - if c == m.slots[h].cell then m.slots[h].left else 0
    {
      ReservedUpdate(m.slots, h, Empty, c);
    }
    ErasesTo(r, LoopStep(max, Erase(m), DropIter(h)).0);
  }

  /** `mem::forget` of an iterator that still has something to hand out. */
  predicate ForgetsReserved<V>(m: Mem<V>, op: Op<V>) {
    op.Forget? && IsIter(m, op.h) && 0 < m.slots[op.h].left
  }

  /** Forgetting an iterator loses what it reserved, which the loop never counted. */
  lemma ForgetIterAgrees<V>(max: nat, m: Mem<V>, h: nat)
    requires Good(m) && IsIter(m, h)
    ensures Agrees(max, m, Forget(h)) <==> m.slots[h].left == 0
  {
    FacingIter(m, h);
    var r := Step(max, m, Forget(h)).0;
    var c := m.slots[h].cell;
    forall d | 0 <= d < |m.cells|
      ensures Reserved(r.slots, d) == Reserved(m.slots, d) - if d == c then m.slots[h].left else 0
    {
      ReservedUpdate(m.slots, h, r.slots[h], d);
    }
    if m.slots[h].left == 0 {
      ErasesTo(r, LoopStep(max, Erase(m), Forget(h)).0);
    } else {
      assert Erase(r).cells[c].count == Erase(m).cells[c].count + m.slots[h].left;
    }
  }

  /** When batching does not show: a reservation stays within the limit, a clone is not the one that
      only the reservations take past it, and no iterator is forgotten with something left. */
  predicate Unnoticed<V(==)>(max: nat, m: Mem<V>, op: Op<V>)
    requires Allowed(m, op)
  {
    match op
    case CloneMany(h, n) => CellOf(m, h).count + n <= max
    case Clone(h, _) => CellOf(m, h).count <= max || max < EraseCell(m, m.slots[h].cell).count
    case _ => !ForgetsReserved(m, op)
  }

  /** Up to the reservations, `clone_many` and its iterator do what a loop of `clone` does, aborts
      included, exactly when batching does not show. */
  lemma BatchIsLoop<V>(max: nat, m: Mem<V>, op: Op<V>)
    requires Good(m) && Limited(max, m) && Allowed(m, op)
    ensures Agrees(max, m, op) <==> Unnoticed(max, m, op)
  {
    match op
    case New(v, strategy) => NewAgrees(max, m, v, strategy);
    case Clone(h, strategy) => CloneAgrees(max, m, h, strategy);
    case CloneMany(h, n) => CloneManyAgrees(max, m, h, n);
    case Next(h) => NextAgrees(max, m, h);
    case DropIter(h) => DropIterAgrees(max, m, h);
    case Forget(h) => if m.slots[h].Iter? { ForgetIterAgrees(max, m, h); } else { OwnerAgrees(max, m, op); }
    case _ => OwnerAgrees(max, m, op);
  }

  lemma StepLimited<V>(max: nat, m: Mem<V>, op: Op<V>)
    requires Limited(max, m) && Allowed(m, op)
    ensures Limited(max, Step(max, m, op).0)
  {
  }

  /** A program that is well typed, up to where it aborts if it does. */
  predicate Follows<V(==)>(max: nat, m: Mem<V>, ops: seq<Op<V>>)
    decreases |ops|
  {
    ops == []
    || (Allowed(m, ops[0]) && (Step(max, m, ops[0]).1 == Aborted || Follows(max, Step(max, m, ops[0]).0, ops[1..])))
  }

  /** Batching does not show at any operation of the program. */
  predicate NeverNoticed<V(==)>(max: nat, m: Mem<V>, ops: seq<Op<V>>)
    requires Follows(max, m, ops)
    decreases |ops|
  {
    ops == []
    || (&& Unnoticed(max, m, ops[0])
        && (Step(max, m, ops[0]).1 == Aborted || NeverNoticed(max, Step(max, m, ops[0]).0, ops[1..])))
  }

  /** The program from `m` and the same program with the loop from `q` go side by side: the same
      handles, values and disposals at every point, the same results, and an abort at the same place. */
  predicate Alike<V(==)>(max: nat, m: Mem<V>, q: Mem<V>, ops: seq<Op<V>>)
    requires Follows(max, m, ops)
    decreases |ops|
  {
    && q == Erase(m)
    && (ops == []
        || (&& Allowed(q, ops[0])
            && var (r, a) := Step(max, m, ops[0]);
               var (p, b) := LoopStep(max, q, ops[0]);
               SameOut(m, ops[0], a, b) && if a == Aborted then p == Erase(r) else Alike(max, r, p, ops[1..])))
  }

  /** Whole programs do the same with `clone_many` and with the loop exactly when batching never shows. */
  lemma {:induction false} RunIsLoop<V>(max: nat, m: Mem<V>, ops: seq<Op<V>>)
    requires Good(m) && Limited(max, m) && Follows(max, m, ops)
    ensures Alike(max, m, Erase(m), ops) <==> NeverNoticed(max, m, ops)
    decreases |ops|
  {
    if ops != [] {
      BatchIsLoop(max, m, ops[0]);
      StepKeeps(max, m, ops[0]);
      StepLimited(max, m, ops[0]);
      assert Allowed(Erase(m), ops[0]);
      var (r, a) := Step(max, m, ops[0]);
      var p := LoopStep(max, Erase(m), ops[0]).0;
      if a != Aborted {
        RunIsLoop(max, r, ops[1..]);
        assert Alike(max, r, p, ops[1..]) ==> p == Erase(r);
      }
    }
  }

  // ---- Programs in which batching shows ----

  const NOTHING: Mem<int> := Mem([], [])

  lemma NothingIsGood()
    ensures Good(NOTHING) && Erase(NOTHING) == NOTHING
  {
    forall c: nat ensures CellOk(NOTHING, c) && SlotOk(NOTHING, c) {}
  }

  lemma {:induction false} OpFirst<V>(max: nat, m: Mem<V>, op: Op<V>, ops: seq<Op<V>>)
    requires Allowed(m, op) && Step(max, m, op).1 != Aborted && Follows(max, Step(max, m, op).0, ops)
    ensures Follows(max, m, [op] + ops)
    ensures NeverNoticed(max, m, [op] + ops) ==> NeverNoticed(max, Step(max, m, op).0, ops)
  {
    assert ([op] + ops)[1..] == ops;
  }

  /** A program from the empty memory whose first operation makes an `Arc`, to which it comes. */
  lemma {:induction false} Starts(max: nat, ops: seq<Op<int>>)
    requires var m := Mem([Cell(1, 7, Alive)], [Arc(0, 0)]); Follows(max, m, ops) && !NeverNoticed(max, m, ops)
    ensures Follows(max, NOTHING, [New(7, 0)] + ops) && !Alike(max, NOTHING, NOTHING, [New(7, 0)] + ops)
  {
    assert Step(max, NOTHING, New(7, 0)).0 == Mem([Cell(1, 7, Alive)], [Arc(0, 0)]);
    OpFirst(max, NOTHING, New(7, 0), ops);
    NothingIsGood();
    RunIsLoop(max, NOTHING, [New(7, 0)] + ops);
  }

  /** An iterator is forgotten with something left: the loop has counted nothing for it. */
  lemma {:induction false} ForgettingShows(max: nat)
    requires 2 <= max
    ensures var ops: seq<Op<int>> := [New(7, 0)] + ([CloneMany(0, 1)] + [Forget(1)]);
            Follows(max, NOTHING, ops) && !Alike(max, NOTHING, NOTHING, ops)
  {
    var m := Mem([Cell(1, 7, Alive)], [Arc(0, 0)]);
    var r := Step(max, m, CloneMany(0, 1)).0;
    assert r.slots == [Arc(0, 0), Iter(0, 0, 1)];
    OpFirst(max, m, CloneMany(0, 1), [Forget(1)]);
    Starts(max, [CloneMany(0, 1)] + [Forget(1)]);
  }

  /** At the limit `clone_many` aborts, and the clones would not. */
  lemma {:induction false} ReservingShows(max: nat)
    requires 1 <= max
    ensures var ops: seq<Op<int>> := [New(7, 0)] + [CloneMany(0, max)];
            Follows(max, NOTHING, ops) && !Alike(max, NOTHING, NOTHING, ops)
    ensures Runs(max, NOTHING, [New(7, 0)] + Repeat(Clone(0, 0), max))
  {
    var m := Mem([Cell(1, 7, Alive)], [Arc(0, 0)]);
    Starts(max, [CloneMany(0, max)]);
    ClonesSome(max, m, 0, 0, max);
    assert Step(max, NOTHING, New(7, 0)).0 == m;
    assert ([New(7, 0)] + Repeat(Clone(0, 0), max))[1..] == Repeat(Clone(0, 0), max);
  }

  /** The second of two clones aborts over reservations that the loop has not counted. */
  lemma CloningShows(max: nat)
    requires 2 <= max
    ensures var ops: seq<Op<int>> := [New(7, 0)] + ([CloneMany(0, max - 1)] + ([Clone(0, 0)] + [Clone(0, 0)]));
            Follows(max, NOTHING, ops) && !Alike(max, NOTHING, NOTHING, ops)
  {
    var m := Mem([Cell(1, 7, Alive)], [Arc(0, 0)]);
    var r := Step(max, m, CloneMany(0, max - 1)).0;
    LastClone(max, r);
    OpFirst(max, m, CloneMany(0, max - 1), [Clone(0, 0)] + [Clone(0, 0)]);
    Starts(max, [CloneMany(0, max - 1)] + ([Clone(0, 0)] + [Clone(0, 0)]));
  }

  lemma {:induction false} LastClone(max: nat, r: Mem<int>)
    requires 2 <= max && r == Mem([Cell(max, 7, Alive)], [Arc(0, 0)] + [Iter(0, 0, max - 1)])
    ensures var ops := [Clone(0, 0)] + [Clone(0, 0)]; Follows(max, r, ops) && !NeverNoticed(max, r, ops)
  {
    var p := Step(max, r, Clone(0, 0)).0;
    ReservedAppend([Arc(0, 0)], Iter(0, 0, max - 1), 0);
    ReservedAppend(r.slots, Arc(0, 0), 0);
    assert !Unnoticed(max, p, Clone(0, 0));
    OpFirst(max, r, Clone(0, 0), [Clone(0, 0)]);
  }

  // ---- `clone_many(n)` of which `k` are taken ----

  function Min(a: nat, b: nat): nat {
    if a < b then a else b
  }

  function Repeat<X>(x: X, k: nat): (r: seq<X>)
    ensures |r| == k && forall i | 0 <= i < k :: r[i] == x
  {
    seq(k, i => x)
  }

  lemma {:induction false} TakesSome<V>(max: nat, m: Mem<V>, i: nat, k: nat)
    requires IsIter(m, i)
    ensures var j := Min(k, m.slots[i].left);
            && Runs(max, m, Repeat(Next(i), k))
            && Exec(max, m, Repeat(Next(i), k)).0
               == m.(slots := m.slots[i := m.slots[i].(left := m.slots[i].left - j)]
                              + Repeat(Arc(m.slots[i].cell, m.slots[m.slots[i].orig].strategy), j))
    decreases k
  {
    var ops: seq<Op<V>> := Repeat(Next(i), k);
    var arc := Arc(m.slots[i].cell, m.slots[m.slots[i].orig].strategy);
    var j := Min(k, m.slots[i].left);
    if k == 0 {
      assert m.slots[i := m.slots[i]] + Repeat(arc, 0) == m.slots;
    } else {
      var r := Step(max, m, Next(i)).0;
      TakesSome(max, r, i, k - 1);
      assert ops[1..] == Repeat(Next(i), k - 1);
      if 0 < m.slots[i].left {
        assert r.slots[i := r.slots[i].(left := m.slots[i].left - j)] + Repeat(arc, j - 1)
            == m.slots[i := m.slots[i].(left := m.slots[i].left - j)] + Repeat(arc, j);
      }
    }
  }

  lemma {:induction false} ClonesSome<V>(max: nat, m: Mem<V>, h: nat, strategy: nat, k: nat)
    requires IsArc(m, h) && CellOf(m, h).count + k <= max + 1
    ensures var ops := Repeat(Clone(h, strategy), k);
            && Runs(max, m, ops)
            && Exec(max, m, ops).0
               == SetCount(m, m.slots[h].cell, CellOf(m, h).count + k).(slots := m.slots + Repeat(Arc(m.slots[h].cell, strategy), k))
    decreases k
  {
    var c := m.slots[h].cell;
    if k == 0 {
      assert SetCount(m, c, m.cells[c].count).cells == m.cells;
    } else {
      var r := Step(max, m, Clone(h, strategy)).0;
      ClonesSome(max, r, h, strategy, k - 1);
      var ops: seq<Op<V>> := Repeat(Clone(h, strategy), k);
      assert ops[1..] == Repeat(Clone(h, strategy), k - 1);
      assert r.slots + Repeat(Arc(c, strategy), k - 1) == m.slots + Repeat(Arc(c, strategy), k);
    }
  }

  /** An iterator over `n` clones that is asked `k` times and dropped leaves the counts and the
      handles of `min(k, n)` clones, and one variable that is empty again. */
  lemma {:induction false} TakeIsClones<V>(max: nat, m: Mem<V>, h: nat, n: nat, k: nat)
    requires IsArc(m, h) && CellOf(m, h).count + n <= max
    ensures var i := |m.slots|;
            var j := Min(k, n);
            var clones: seq<Op<V>> := Repeat(Clone(h, m.slots[h].strategy), j);
            var arcs := Repeat(Arc(m.slots[h].cell, m.slots[h].strategy), j);
            var made := Step(max, m, CloneMany(h, n)).0;
            && Runs(max, m, clones) && IsIter(made, i) && Runs(max, made, Repeat(Next(i), k))
            && var taken := Exec(max, made, Repeat(Next(i), k)).0;
            && IsIter(taken, i) && Step(max, taken, DropIter(i)).1 == Done
            && var done := Step(max, taken, DropIter(i)).0;
            && done.cells == Exec(max, m, clones).0.cells
            && Exec(max, m, clones).0.slots == m.slots + arcs && done.slots == m.slots + [Empty] + arcs
  {
    var i := |m.slots|;
    var made := Step(max, m, CloneMany(h, n)).0;
    assert IsIter(made, i);
    TakesSome(max, made, i, k);
    ClonesSome(max, m, h, m.slots[h].strategy, Min(k, n));
  }

  lemma {:induction false} DropThenCount<V>(max: nat, m: Mem<V>, i: nat, h: nat)
    requires IsIter(m, i) && IsArc(m, h) && Step(max, m, DropIter(i)).1 == Done
    requires IsArc(Step(max, m, DropIter(i)).0, h)
    ensures var ops := [DropIter(i)] + [Op<V>.Count(h)];
            && Runs(max, m, ops)
            && Exec(max, m, ops).1 == [Done] + [Number(CellOf(Step(max, m, DropIter(i)).0, h).count)]
  {
    var ops := [DropIter(i)] + [Op<V>.Count(h)];
    assert ops[0] == DropIter(i) && ops[1..] == [Op<V>.Count(h)];
    var r := Step(max, m, DropIter(i)).0;
    assert Runs(max, r, [Op<V>.Count(h)]) && Exec(max, r, [Op<V>.Count(h)]).1 == [Number(CellOf(r, h).count)] by {
      assert [Op<V>.Count(h)][1..] == [];
    }
  }

  /** Of `n` clones `k` are taken, the iterator is dropped, and `count` has gone up by `min(k, n)`. */
  lemma {:induction false} TakeThenCount<V>(max: nat, m: Mem<V>, h: nat, n: nat, k: nat)
    requires IsArc(m, h) && CellOf(m, h).count + n <= max
    ensures var i := |m.slots|;
            var ops := [CloneMany(h, n)] + (Repeat(Next(i), k) + ([DropIter(i)] + [Op<V>.Count(h)]));
            && Runs(max, m, ops)
            && var outs := Exec(max, m, ops).1;
               outs != [] && outs[|outs| - 1] == Number(CellOf(m, h).count + Min(k, n))
  {
    var i := |m.slots|;
    TakeIsClones(max, m, h, n, k);
    ClonesSome(max, m, h, m.slots[h].strategy, Min(k, n));
    var made := Step(max, m, CloneMany(h, n)).0;
    var taken := Exec(max, made, Repeat(Next(i), k)).0;
    DropThenCount(max, taken, i, h);
    OneAfterTheOther(max, made, Repeat(Next(i), k), [DropIter(i)] + [Op<V>.Count(h)]);
    assert ([CloneMany(h, n)] + (Repeat(Next(i), k) + ([DropIter(i)] + [Op<V>.Count(h)])))[1..]
        == Repeat(Next(i), k) + ([DropIter(i)] + [Op<V>.Count(h)]);
  }

  /** The documented examples, for every limit and number: with a new `Arc` it is `1 + min(k, n)`. */
  lemma {:induction false} CountsAfterTaking<V>(max: nat, v: V, strategy: nat, n: nat, k: nat)
    requires 1 + n <= max
    ensures var rest := [CloneMany(0, n)] + (Repeat(Next(1), k) + ([DropIter(1)] + [Op<V>.Count(0)]));
            var ops := [New(v, strategy)] + rest;
            && Runs(max, Mem([], []), ops)
            && var outs := Exec(max, Mem([], []), ops).1;
               outs != [] && outs[|outs| - 1] == Number(1 + Min(k, n))
  {
    var rest := [CloneMany(0, n)] + (Repeat(Next(1), k) + ([DropIter(1)] + [Op<V>.Count(0)]));
    var m := Step(max, Mem([], []), New(v, strategy)).0;
    TakeThenCount(max, m, 0, n, k);
    assert ([New(v, strategy)] + rest)[1..] == rest;
  }
}
