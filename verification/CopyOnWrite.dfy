/** Shared cells behave as if every handle owned a value of its own. */
module CopyOnWrite {
  import opened Cells

  /** A program's variables when cloning a handle copies the value. */
  datatype Private<V> = Nothing | Own(v: V) | Copies(orig: nat, left: nat)

  function PrivateOf<V>(m: Mem<V>, slot: Slot): Private<V> {
    match slot
    case Arc(c, _) => if c < |m.cells| then Own(m.cells[c].value) else Nothing
    case Iter(orig, _, left) => Copies(orig, left)
    case _ => Nothing
  }

  function Abs<V>(m: Mem<V>): seq<Private<V>> {
    seq(|m.slots|, x requires 0 <= x < |m.slots| => PrivateOf(m, m.slots[x]))
  }

  predicate Owns<V>(p: seq<Private<V>>, h: nat) {
    h < |p| && p[h].Own?
  }

  predicate Counts<V>(p: seq<Private<V>>, h: nat) {
    h < |p| && p[h].Copies? && Owns(p, p[h].orig)
  }

  /** One operation on private values.  Whether `get_mut` and `try_unwrap` succeed, and the number
      `count` returns, is not determined: they may depend on the sharing. */
  predicate OwnStep<V(==)>(p: seq<Private<V>>, op: Op<V>, out: Out<V>, q: seq<Private<V>>) {
    match op
    case New(v, _) => q == p + [Own(v)] && out == Done
    case Clone(h, _) => Owns(p, h) && q == p + [p[h]] && out == Done
    case CloneMany(h, n) => Owns(p, h) && q == p + [Copies(h, n)] && out == Done
    case Next(h) =>
      && Counts(p, h)
      && if p[h].left == 0 then q == p && out == Flag(false)
         else q == p[h := Copies(p[h].orig, p[h].left - 1)] + [p[p[h].orig]] && out == Flag(true)
    case DropIter(h) => Counts(p, h) && q == p[h := Nothing] && out == Done
    case Drop(h) => Owns(p, h) && q == p[h := Nothing] && out == Done
    case Forget(h) => (Owns(p, h) || Counts(p, h)) && q == p[h := Nothing] && out == Done
    case Read(h) => Owns(p, h) && q == p && out == Got(p[h].v)
    case MakeMut(h, w) => Owns(p, h) && q == p[h := Own(w)] && out == Done
    case GetMut(h, w) => Owns(p, h) && ((q == p[h := Own(w)] && out == Flag(true)) || (q == p && out == Flag(false)))
    case TryUnwrap(h) => Owns(p, h) && ((q == p[h := Nothing] && out == Got(p[h].v)) || (q == p && out == Flag(false)))
    case UnwrapOrClone(h) => Owns(p, h) && q == p[h := Nothing] && out == Got(p[h].v)
    case Count(h) => Owns(p, h) && q == p && out.Number?
    case WithStrategy(h, _) => Owns(p, h) && q == p && out == Done
  }

  /** `outs` is what `ops` return on private values, starting from `p`. */
  ghost predicate OwnRun<V(!new)>(p: seq<Private<V>>, ops: seq<Op<V>>, outs: seq<Out<V>>, q: seq<Private<V>>)
    decreases |ops|
  {
    if ops == [] then outs == [] && p == q
    else outs != [] && exists r :: OwnStep(p, ops[0], outs[0], r) && OwnRun(r, ops[1..], outs[1..], q)
  }

  /** A write through `h` that is its own handle or the only one changes the value of `h` alone. */
  lemma WriteIsPrivate<V>(m: Mem<V>, h: nat, w: V)
    requires Good(m) && IsArc(m, h) && Unborrowed(m.slots, h) && CellOf(m, h).count == 1
    ensures Abs(SetValue(m, m.slots[h].cell, w)) == Abs(m)[h := Own(w)]
  {
    forall x | 0 <= x < |m.slots| && x != h
      ensures PrivateOf(SetValue(m, m.slots[h].cell, w), m.slots[x]) == PrivateOf(m, m.slots[x])
    {
      OnlyArc(m, h, x);
    }
  }

  /** Counts, ends and new cells make no difference to what the variables hold. */
  lemma ValuesStay<V>(m: Mem<V>, r: Mem<V>)
    requires Good(m) && |m.cells| <= |r.cells|
    requires forall c | 0 <= c < |m.cells| :: r.cells[c].value == m.cells[c].value
    ensures forall x | 0 <= x < |m.slots| :: PrivateOf(r, m.slots[x]) == PrivateOf(m, m.slots[x])
  {
    forall x | 0 <= x < |m.slots| ensures PrivateOf(r, m.slots[x]) == PrivateOf(m, m.slots[x]) {
      assert SlotOk(m, x);
    }
  }

  lemma MakeMutIsPrivate<V>(max: nat, m: Mem<V>, h: nat, w: V)
    requires Good(m) && Allowed(m, MakeMut(h, w))
    ensures Step(max, m, MakeMut(h, w)).1 == Done
    ensures Abs(Step(max, m, MakeMut(h, w)).0) == Abs(m)[h := Own(w)]
  {
    if CellOf(m, h).count == 1 {
      WriteIsPrivate(m, h, w);
    } else {
      var r := Step(max, m, MakeMut(h, w)).0;
      ValuesStay(m, r);
      assert r.slots == m.slots[h := r.slots[h]];
    }
  }

  lemma StepIsPrivate<V>(max: nat, m: Mem<V>, op: Op<V>)
    requires Good(m) && Allowed(m, op) && Step(max, m, op).1 != Aborted
    ensures OwnStep(Abs(m), op, Step(max, m, op).1, Abs(Step(max, m, op).0))
  {
    var (r, out) := Step(max, m, op);
    if op.MakeMut? {
      MakeMutIsPrivate(max, m, op.h, op.w);
    } else if op.GetMut? && CellOf(m, op.h).count == 1 {
      WriteIsPrivate(m, op.h, op.w);
    } else {
      if !op.New? { assert SlotOk(m, op.h); }
      ValuesStay(m, r);
    }
  }

  /** Every program over shared cells returns what it returns when every handle owns its value. */
  lemma {:induction false} RunIsPrivate<V(!new)>(max: nat, m: Mem<V>, ops: seq<Op<V>>)
    requires Good(m) && Runs(max, m, ops)
    ensures OwnRun(Abs(m), ops, Exec(max, m, ops).1, Abs(Exec(max, m, ops).0))
    decreases |ops|
  {
    if ops != [] {
      StepIsPrivate(max, m, ops[0]);
      StepKeeps(max, m, ops[0]);
      var (r, out) := Step(max, m, ops[0]);
      RunIsPrivate(max, r, ops[1..]);
      assert Exec(max, m, ops).1[1..] == Exec(max, r, ops[1..]).1;
      assert OwnStep(Abs(m), ops[0], out, Abs(r));
    }
  }

  /** From the empty memory: no assumption on the program but that it is well typed and does not
      abort. */
  lemma {:induction false} ProgramIsPrivate<V(!new)>(max: nat, ops: seq<Op<V>>)
    requires Runs(max, Mem([], []), ops)
    ensures var (m, outs) := Exec(max, Mem([], []), ops); OwnRun([], ops, outs, Abs(m)) && Good(m)
  {
    var m: Mem<V> := Mem([], []);
    forall c: nat ensures CellOk(m, c) {}
    forall x: nat ensures SlotOk(m, x) {}
    RunIsPrivate(max, m, ops);
    assert Abs(m) == [];
    RunKeeps(max, m, ops);
  }
}
