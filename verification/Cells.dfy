/** One thread's programs over `Arc`: shared counted cells, and the handles that point to them. */
module Cells {

  /** Whether a cell is there, was handed to a backdrop strategy, or was moved out of. */
  datatype End = Alive | Disposed(strategy: nat) | MovedOut

  datatype Cell<V> = Cell(count: nat, value: V, end: End)

  /** The program's variables.  An iterator borrows the handle `orig`. */
  datatype Slot =
    | Empty
    | Arc(cell: nat, strategy: nat)
    | Iter(orig: nat, cell: nat, left: nat)
    | Leaked(cell: nat, tokens: nat)

  datatype Mem<V> = Mem(cells: seq<Cell<V>>, slots: seq<Slot>)

  datatype Op<V> =
    | New(v: V, strategy: nat)
    | Clone(h: nat, strategy: nat)
    | CloneMany(h: nat, n: nat)
    | Next(h: nat)
    | DropIter(h: nat)
    | Drop(h: nat)
    | Forget(h: nat)
    | Read(h: nat)
    | MakeMut(h: nat, w: V)
    | GetMut(h: nat, w: V)
    | TryUnwrap(h: nat)
    | UnwrapOrClone(h: nat)
    | Count(h: nat)
    | WithStrategy(h: nat, strategy: nat)

  datatype Out<V> = Done | Got(v: V) | Flag(b: bool) | Number(n: nat) | Aborted

  // ---- Which operations a program may perform ----

  predicate IsArc<V>(m: Mem<V>, h: nat) {
    h < |m.slots| && m.slots[h].Arc? && m.slots[h].cell < |m.cells|
  }

  predicate IsIter<V>(m: Mem<V>, h: nat) {
    h < |m.slots| && m.slots[h].Iter? && m.slots[h].cell < |m.cells| && IsArc(m, m.slots[h].orig)
  }

  /** No live iterator borrows `h`. */
  predicate Unborrowed(slots: seq<Slot>, h: nat) {
    forall x | 0 <= x < |slots| && slots[x].Iter? :: slots[x].orig != h
  }

  predicate Allowed<V>(m: Mem<V>, op: Op<V>) {
    match op
    case New(_, _) => true
    case Clone(h, _) => IsArc(m, h)
    case CloneMany(h, _) => IsArc(m, h)
    case Next(h) => IsIter(m, h)
    case DropIter(h) => IsIter(m, h)
    case Forget(h) => IsIter(m, h) || (IsArc(m, h) && Unborrowed(m.slots, h))
    case Read(h) => IsArc(m, h)
    case Count(h) => IsArc(m, h)
    case _ => IsArc(m, op.h) && Unborrowed(m.slots, op.h)
  }

  // ---- The operations ----

  function CellOf<V>(m: Mem<V>, h: nat): Cell<V>
    requires IsArc(m, h)
  {
    m.cells[m.slots[h].cell]
  }

  function SetCount<V>(m: Mem<V>, c: nat, n: nat): Mem<V>
    requires c < |m.cells|
  {
    m.(cells := m.cells[c := m.cells[c].(count := n)])
  }

  function SetValue<V>(m: Mem<V>, c: nat, w: V): Mem<V>
    requires c < |m.cells|
  {
    m.(cells := m.cells[c := m.cells[c].(value := w)])
  }

  function SetSlot<V>(m: Mem<V>, h: nat, slot: Slot): Mem<V>
    requires h < |m.slots|
  {
    m.(slots := m.slots[h := slot])
  }

  function AddSlot<V>(m: Mem<V>, slot: Slot): Mem<V> {
    m.(slots := m.slots + [slot])
  }

  /** `Drop for Arc`: one token less, and the strategy runs if it was the last. */
  function Release<V>(m: Mem<V>, h: nat): Mem<V>
    requires IsArc(m, h)
  {
    var Arc(c, strategy) := m.slots[h];
    var cell := m.cells[c];
    var n := if cell.count == 0 then 0 else cell.count - 1;
    SetSlot(m.(cells := m.cells[c := cell.(count := n, end := if cell.count == 1 then Disposed(strategy) else cell.end)]),
            h, Empty)
  }

  /** `UniqueArc::into_inner`: the value leaves, the count is never touched again. */
  function MoveOut<V>(m: Mem<V>, h: nat): Mem<V>
    requires IsArc(m, h)
  {
    var c := m.slots[h].cell;
    SetSlot(m.(cells := m.cells[c := m.cells[c].(end := MovedOut)]), h, Empty)
  }

  /** A new cell for the variable `h`, which let go of the old one. */
  function Replace<V>(m: Mem<V>, h: nat, w: V): Mem<V>
    requires IsArc(m, h)
  {
    var r := Release(m, h);
    r.(cells := r.cells + [Cell(1, w, Alive)], slots := r.slots[h := Arc(|r.cells|, m.slots[h].strategy)])
  }

  function Step<V>(max: nat, m: Mem<V>, op: Op<V>): (Mem<V>, Out<V>)
    requires Allowed(m, op)
  {
    match op
    case New(v, strategy) =>
      (Mem(m.cells + [Cell(1, v, Alive)], m.slots + [Arc(|m.cells|, strategy)]), Done)
    case Clone(h, strategy) =>
      if max < CellOf(m, h).count then (m, Aborted)
      else (AddSlot(SetCount(m, m.slots[h].cell, CellOf(m, h).count + 1), Arc(m.slots[h].cell, strategy)), Done)
    case CloneMany(h, n) =>
      if max < CellOf(m, h).count + n then (m, Aborted)
      else (AddSlot(SetCount(m, m.slots[h].cell, CellOf(m, h).count + n), Iter(h, m.slots[h].cell, n)), Done)
    case Next(h) =>
      var Iter(orig, c, left) := m.slots[h];
      if left == 0 then (m, Flag(false))
      else (AddSlot(SetSlot(m, h, Iter(orig, c, left - 1)), Arc(c, m.slots[orig].strategy)), Flag(true))
    case DropIter(h) =>
      var Iter(orig, c, left) := m.slots[h];
      if left == 0 then (SetSlot(m, h, Empty), Done)
      else if m.cells[c].count < left then (m, Aborted)
      else (SetSlot(SetCount(m, c, m.cells[c].count - left), h, Empty), Done)
    case Drop(h) => (Release(m, h), Done)
    case Forget(h) => (SetSlot(m, h, Leaked(m.slots[h].cell, if m.slots[h].Iter? then m.slots[h].left else 1)), Done)
    case Read(h) => (m, Got(CellOf(m, h).value))
    case MakeMut(h, w) =>
      if CellOf(m, h).count == 1 then (SetValue(m, m.slots[h].cell, w), Done)
      else
        // The copy of the value is made, the old cell let go, and only then the write happens.
        var r := Replace(m, h, CellOf(m, h).value);
        (SetValue(r, r.slots[h].cell, w), Done)
    case GetMut(h, w) =>
      if CellOf(m, h).count == 1 then (SetValue(m, m.slots[h].cell, w), Flag(true)) else (m, Flag(false))
    case TryUnwrap(h) =>
      if CellOf(m, h).count == 1 then (MoveOut(m, h), Got(CellOf(m, h).value)) else (m, Flag(false))
    case UnwrapOrClone(h) =>
      if CellOf(m, h).count == 1 then (MoveOut(m, h), Got(CellOf(m, h).value))
      else (Release(m, h), Got(CellOf(m, h).value))
    case Count(h) => (m, Number(CellOf(m, h).count))
    case WithStrategy(h, strategy) => (SetSlot(m, h, Arc(m.slots[h].cell, strategy)), Done)
  }

  /** `ops` can be performed one after the other, none of them aborting. */
  predicate Runs<V(==)>(max: nat, m: Mem<V>, ops: seq<Op<V>>)
    decreases |ops|
  {
    ops == [] || (Allowed(m, ops[0]) && Step(max, m, ops[0]).1 != Aborted && Runs(max, Step(max, m, ops[0]).0, ops[1..]))
  }

  function Exec<V(==)>(max: nat, m: Mem<V>, ops: seq<Op<V>>): (Mem<V>, seq<Out<V>>)
    requires Runs(max, m, ops)
    decreases |ops|
  {
    if ops == [] then (m, [])
    else
      var (r, out) := Step(max, m, ops[0]);
      var (q, outs) := Exec(max, r, ops[1..]);
      (q, [out] + outs)
  }

  // ---- What every run keeps ----

  function TokensOf(slot: Slot, c: nat): nat {
    match slot
    case Empty => 0
    case Arc(d, _) => if d == c then 1 else 0
    case Iter(_, d, left) => if d == c then left else 0
    case Leaked(d, n) => if d == c then n else 0
  }

  function Tokens(slots: seq<Slot>, c: nat): nat {
    if slots == [] then 0 else Tokens(slots[..|slots| - 1], c) + TokensOf(slots[|slots| - 1], c)
  }

  /** A cell that is there is counted exactly; one that is gone has no tokens left. */
  ghost predicate CellOk<V>(m: Mem<V>, c: nat) {
    if c < |m.cells| && m.cells[c].end == Alive then 0 < m.cells[c].count == Tokens(m.slots, c)
    else Tokens(m.slots, c) == 0
  }

  /** A variable points to a cell that is there. */
  predicate SlotOk<V>(m: Mem<V>, x: nat) {
    x < |m.slots| ==>
      match m.slots[x]
      case Empty => true
      case Arc(c, _) => c < |m.cells| && m.cells[c].end == Alive
      case Iter(orig, c, _) => IsArc(m, orig) && m.slots[orig].cell == c && c < |m.cells| && m.cells[c].end == Alive
      case Leaked(c, n) => c < |m.cells| && (0 < n ==> m.cells[c].end == Alive)
  }

  ghost predicate Good<V>(m: Mem<V>) {
    (forall c: nat :: CellOk(m, c)) && (forall x: nat :: SlotOk(m, x))
  }

  lemma {:induction false} TokensUpdate(slots: seq<Slot>, x: nat, slot: Slot, c: nat)
    requires x < |slots|
    ensures Tokens(slots[x := slot], c) == Tokens(slots, c) - TokensOf(slots[x], c) + TokensOf(slot, c)
  {
    var n := |slots| - 1;
    if x == n {
      assert slots[x := slot][..n] == slots[..n];
    } else {
      assert slots[x := slot][..n] == slots[..n][x := slot];
      TokensUpdate(slots[..n], x, slot, c);
    }
  }

  lemma {:induction false} TokensAppend(slots: seq<Slot>, slot: Slot, c: nat)
    ensures Tokens(slots + [slot], c) == Tokens(slots, c) + TokensOf(slot, c)
  {
    assert (slots + [slot])[..|slots|] == slots;
  }

  lemma {:induction false} TokensAtLeast(slots: seq<Slot>, x: nat, c: nat)
    requires x < |slots|
    ensures TokensOf(slots[x], c) <= Tokens(slots, c)
  {
    if x < |slots| - 1 { TokensAtLeast(slots[..|slots| - 1], x, c); }
  }

  lemma {:induction false} TokensPair(slots: seq<Slot>, x: nat, y: nat, c: nat)
    requires x < |slots| && y < |slots| && x != y
    ensures TokensOf(slots[x], c) + TokensOf(slots[y], c) <= Tokens(slots, c)
  {
    TokensUpdate(slots, x, Empty, c);
    TokensAtLeast(slots[x := Empty], y, c);
  }

  lemma {:induction false} NoTokens(slots: seq<Slot>, c: nat)
    requires forall x | 0 <= x < |slots| :: TokensOf(slots[x], c) == 0
    ensures Tokens(slots, c) == 0
  {
    if slots != [] { NoTokens(slots[..|slots| - 1], c); }
  }

  /** Replacing one variable by something with the same tokens of every cell. */
  lemma RelabelGood<V>(m: Mem<V>, h: nat, slot: Slot)
    requires Good(m) && h < |m.slots| && Unborrowed(m.slots, h)
    requires forall c :: TokensOf(slot, c) == TokensOf(m.slots[h], c)
    requires slot.Empty? || (slot.Arc? && m.slots[h].Arc?) || slot.Leaked?
    requires !slot.Empty? ==> !m.slots[h].Empty? && slot.cell == m.slots[h].cell
    ensures Good(SetSlot(m, h, slot))
  {
    var r := SetSlot(m, h, slot);
    assert SlotOk(m, h);
    assert !slot.Empty? ==> TokensOf(slot, slot.cell) == TokensOf(m.slots[h], slot.cell);
    forall c: nat ensures CellOk(r, c) {
      assert CellOk(m, c);
      TokensUpdate(m.slots, h, slot, c);
    }
    forall x: nat ensures SlotOk(r, x) {
      assert SlotOk(m, x);
    }
  }

  lemma SetValueGood<V>(m: Mem<V>, c: nat, w: V)
    requires Good(m) && c < |m.cells|
    ensures Good(SetValue(m, c, w))
  {
    forall d: nat ensures CellOk(SetValue(m, c, w), d) && SlotOk(SetValue(m, c, w), d) {
      assert CellOk(m, d) && SlotOk(m, d);
    }
  }

  /** A fresh cell, in a new variable or in one that was empty. */
  lemma NewCellGood<V>(m: Mem<V>, v: V, slots: seq<Slot>, h: nat)
    requires Good(m) && h < |slots| && slots[h].Arc? && slots[h].cell == |m.cells|
    requires if h == |m.slots| then slots == m.slots + [slots[h]]
             else h < |m.slots| && m.slots[h] == Empty && slots == m.slots[h := slots[h]]
    ensures Good(Mem(m.cells + [Cell(1, v, Alive)], slots))
  {
    var r := Mem(m.cells + [Cell(1, v, Alive)], slots);
    forall c: nat ensures CellOk(r, c) {
      assert CellOk(m, c);
      if h == |m.slots| { TokensAppend(m.slots, slots[h], c); } else { TokensUpdate(m.slots, h, slots[h], c); }
    }
    forall x: nat ensures SlotOk(r, x) {
      assert SlotOk(m, x);
    }
  }

  /** Adding a variable with tokens of the cell of `h`. */
  lemma GainGood<V>(m: Mem<V>, h: nat, slot: Slot)
    requires Good(m) && IsArc(m, h) && !slot.Empty? && !slot.Leaked? && slot.cell == m.slots[h].cell
    requires slot.Iter? ==> slot.orig == h
    ensures Good(AddSlot(SetCount(m, slot.cell, m.cells[slot.cell].count + TokensOf(slot, slot.cell)), slot))
  {
    var r := AddSlot(SetCount(m, slot.cell, m.cells[slot.cell].count + TokensOf(slot, slot.cell)), slot);
    assert SlotOk(m, h);
    forall c: nat ensures CellOk(r, c) {
      assert CellOk(m, c);
      TokensAppend(m.slots, slot, c);
    }
    forall x: nat ensures SlotOk(r, x) {
      assert SlotOk(m, x);
    }
  }

  /** The only token of a cell with a count of 1. */
  lemma OnlyArc<V>(m: Mem<V>, h: nat, x: nat)
    requires Good(m) && IsArc(m, h) && Unborrowed(m.slots, h) && CellOf(m, h).count == 1
    requires x < |m.slots| && x != h
    ensures (m.slots[x].Arc? || m.slots[x].Iter?) ==> m.slots[x].cell != m.slots[h].cell
    ensures m.slots[x].Leaked? && 0 < m.slots[x].tokens ==> m.slots[x].cell != m.slots[h].cell
  {
    var c := m.slots[h].cell;
    assert CellOk(m, c) && SlotOk(m, h) && SlotOk(m, x);
    TokensPair(m.slots, x, h, c);
    if m.slots[x].Iter? { TokensPair(m.slots, m.slots[x].orig, h, c); }
  }

  lemma ReleaseGood<V>(m: Mem<V>, h: nat)
    requires Good(m) && IsArc(m, h) && Unborrowed(m.slots, h)
    ensures Good(Release(m, h))
  {
    var r := Release(m, h);
    var d := m.slots[h].cell;
    assert SlotOk(m, h);
    forall c: nat ensures CellOk(r, c) {
      assert CellOk(m, c);
      TokensUpdate(m.slots, h, Empty, c);
    }
    forall x: nat ensures SlotOk(r, x) {
      assert SlotOk(m, x);
      if x < |m.slots| && x != h && m.cells[d].count == 1 { OnlyArc(m, h, x); }
    }
  }

  lemma MoveOutGood<V>(m: Mem<V>, h: nat)
    requires Good(m) && IsArc(m, h) && Unborrowed(m.slots, h) && CellOf(m, h).count == 1
    ensures Good(MoveOut(m, h))
  {
    var r := MoveOut(m, h);
    assert SlotOk(m, h);
    forall c: nat ensures CellOk(r, c) {
      assert CellOk(m, c);
      TokensUpdate(m.slots, h, Empty, c);
    }
    forall x: nat ensures SlotOk(r, x) {
      assert SlotOk(m, x);
      if x < |m.slots| && x != h { OnlyArc(m, h, x); }
    }
  }

  lemma NextGood<V>(max: nat, m: Mem<V>, h: nat)
    requires Good(m) && IsIter(m, h) && 0 < m.slots[h].left
    ensures Good(Step(max, m, Next(h)).0)
  {
    var r := Step(max, m, Next(h)).0;
    assert SlotOk(m, h);
    forall c: nat ensures CellOk(r, c) {
      assert CellOk(m, c);
      TokensUpdate(m.slots, h, r.slots[h], c);
      TokensAppend(m.slots[h := r.slots[h]], r.slots[|m.slots|], c);
    }
    forall x: nat ensures SlotOk(r, x) {
      assert SlotOk(m, x);
    }
  }

  /** The leftover of an iterator is less than the count, which also has `orig`. */
  lemma LeftoverFits<V>(m: Mem<V>, h: nat)
    requires Good(m) && IsIter(m, h)
    ensures m.slots[h].left < m.cells[m.slots[h].cell].count
    ensures m.cells[m.slots[h].cell].end == Alive
  {
    assert SlotOk(m, h) && CellOk(m, m.slots[h].cell);
    TokensPair(m.slots, h, m.slots[h].orig, m.slots[h].cell);
  }

  lemma DropIterGood<V>(max: nat, m: Mem<V>, h: nat)
    requires Good(m) && IsIter(m, h)
    ensures Good(Step(max, m, DropIter(h)).0)
    ensures Step(max, m, DropIter(h)).1 == Done
  {
    var r := Step(max, m, DropIter(h)).0;
    LeftoverFits(m, h);
    forall c: nat ensures CellOk(r, c) {
      assert CellOk(m, c);
      TokensUpdate(m.slots, h, Empty, c);
    }
    forall x: nat ensures SlotOk(r, x) {
      assert SlotOk(m, x);
    }
  }

  /** `make_mut` and `make_unique` on a shared cell. */
  lemma ReplaceGood<V>(m: Mem<V>, h: nat, w: V)
    requires Good(m) && IsArc(m, h) && Unborrowed(m.slots, h)
    ensures Good(Replace(m, h, w))
  {
    ReleaseGood(m, h);
    var r := Release(m, h);
    NewCellGood(r, w, r.slots[h := Arc(|r.cells|, m.slots[h].strategy)], h);
  }

  lemma StepKeeps<V>(max: nat, m: Mem<V>, op: Op<V>)
    requires Good(m) && Allowed(m, op)
    ensures Good(Step(max, m, op).0)
  {
    match op
    case New(v, strategy) => NewCellGood(m, v, m.slots + [Arc(|m.cells|, strategy)], |m.slots|);
    case Clone(h, strategy) => GainGood(m, h, Arc(m.slots[h].cell, strategy));
    case CloneMany(h, n) => GainGood(m, h, Iter(h, m.slots[h].cell, n));
    case Next(h) => if 0 < m.slots[h].left { NextGood(max, m, h); }
    case DropIter(h) => DropIterGood(max, m, h);
    case Drop(h) => ReleaseGood(m, h);
    case Forget(h) =>
      assert SlotOk(m, h);
      if m.slots[h].Iter? { NotBorrowed(m, h); }
      RelabelGood(m, h, Step(max, m, op).0.slots[h]);
    case MakeMut(h, w) =>
      if CellOf(m, h).count == 1 {
        SetValueGood(m, m.slots[h].cell, w);
      } else {
        var v := CellOf(m, h).value;
        ReplaceGood(m, h, v);
        SetValueGood(Replace(m, h, v), Replace(m, h, v).slots[h].cell, w);
      }
    case GetMut(h, w) => SetValueGood(m, m.slots[h].cell, w);
    case TryUnwrap(h) => if CellOf(m, h).count == 1 { MoveOutGood(m, h); }
    case UnwrapOrClone(h) => if CellOf(m, h).count == 1 { MoveOutGood(m, h); } else { ReleaseGood(m, h); }
    case WithStrategy(h, strategy) => RelabelGood(m, h, Arc(m.slots[h].cell, strategy));
    case _ =>
  }

  /** Nothing borrows from an iterator. */
  lemma NotBorrowed<V>(m: Mem<V>, h: nat)
    requires Good(m) && IsIter(m, h)
    ensures Unborrowed(m.slots, h)
  {
    forall x | 0 <= x < |m.slots| && m.slots[x].Iter? ensures m.slots[x].orig != h {
      assert SlotOk(m, x);
    }
  }

  lemma {:induction false} RunKeeps<V>(max: nat, m: Mem<V>, ops: seq<Op<V>>)
    requires Good(m) && Runs(max, m, ops)
    ensures Good(Exec(max, m, ops).0)
    decreases |ops|
  {
    if ops != [] {
      StepKeeps(max, m, ops[0]);
      RunKeeps(max, Step(max, m, ops[0]).0, ops[1..]);
    }
  }

  /** `count` answers the number of tokens of the cell: its handles, what is reserved of it, and what
      was forgotten. */
  lemma CountIsTokens<V>(max: nat, m: Mem<V>, h: nat)
    requires Good(m) && Allowed(m, Count(h))
    ensures Step(max, m, Count(h)) == (m, Number(Tokens(m.slots, m.slots[h].cell)))
  {
    assert SlotOk(m, h) && CellOk(m, m.slots[h].cell);
  }

  /** What was forgotten stays, and so does its cell, whatever the program does then. */
  lemma {:induction false} LeakIsForever<V>(max: nat, m: Mem<V>, h: nat, ops: seq<Op<V>>)
    requires Good(m) && Runs(max, m, ops) && h < |m.slots| && m.slots[h].Leaked? && 0 < m.slots[h].tokens
    ensures var r := Exec(max, m, ops).0; var c := m.slots[h].cell;
            && h < |r.slots| && r.slots[h] == m.slots[h]
            && c < |r.cells| && r.cells[c].end == Alive && m.slots[h].tokens <= r.cells[c].count
    decreases |ops|
  {
    if ops == [] {
      assert SlotOk(m, h) && CellOk(m, m.slots[h].cell);
      TokensAtLeast(m.slots, h, m.slots[h].cell);
    } else {
      StepKeeps(max, m, ops[0]);
      LeakStays(max, m, h, ops[0]);
      LeakIsForever(max, Step(max, m, ops[0]).0, h, ops[1..]);
    }
  }

  lemma LeakStays<V>(max: nat, m: Mem<V>, h: nat, op: Op<V>)
    requires Allowed(m, op) && h < |m.slots| && m.slots[h].Leaked?
    ensures var r := Step(max, m, op).0; h < |r.slots| && r.slots[h] == m.slots[h]
  {
  }

  /** `mem::forget` leaves the tokens behind. */
  lemma ForgetLeaks<V>(max: nat, m: Mem<V>, h: nat)
    requires Good(m) && Allowed(m, Forget(h))
    ensures var r := Step(max, m, Forget(h)).0;
            && r.cells == m.cells && |r.slots| == |m.slots| && r.slots[h].Leaked? && r.slots[h].cell == m.slots[h].cell
            && r.slots[h].tokens == TokensOf(m.slots[h], m.slots[h].cell)
            && forall x | 0 <= x < |m.slots| && x != h :: r.slots[x] == m.slots[x]
  {
    assert SlotOk(m, h);
  }

  lemma {:induction false} OneAfterTheOther<V>(max: nat, m: Mem<V>, a: seq<Op<V>>, b: seq<Op<V>>)
    requires Runs(max, m, a) && Runs(max, Exec(max, m, a).0, b)
    ensures Runs(max, m, a + b)
    ensures Exec(max, m, a + b).0 == Exec(max, Exec(max, m, a).0, b).0
    ensures Exec(max, m, a + b).1 == Exec(max, m, a).1 + Exec(max, Exec(max, m, a).0, b).1
    decreases |a|
  {
    if a == [] {
      assert a + b == b;
    } else {
      assert (a + b)[0] == a[0] && (a + b)[1..] == a[1..] + b;
      OneAfterTheOther(max, Step(max, m, a[0]).0, a[1..], b);
    }
  }
}
