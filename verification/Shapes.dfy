/** The pointer representations of a handle: `Arc`, `UniqueArc`, `OffsetArc`, `ArcBorrow` and the
    tagged `ArcUnion`, over a memory of counted blocks at addresses. */
module Shapes {
  import opened Layouts
  import C = Cells

  /** The two types an `ArcUnion` chooses between. */
  datatype Ty = A | B

  /** The word size and the alignments of `A` and `B`. */
  datatype Geometry = Geometry(w: nat, alignA: nat, alignB: nat)

  ghost predicate IsGeometry(g: Geometry) {
    IsWord(g.w) && IsPow2(g.alignA) && IsPow2(g.alignB) && 0 < g.alignA && 0 < g.alignB
  }

  function AlignOf(g: Geometry, t: Ty): nat {
    if t == A then g.alignA else g.alignB
  }

  /** `offset_of!(ArcInner<T>, data)`. */
  function Offset(g: Geometry, t: Ty): nat {
    DataOffset(g.w, AlignOf(g, t))
  }

  /** It is where the allocator's layout puts the data of a value of that alignment, whatever its size. */
  lemma OffsetIsData(g: Geometry, max: nat, size: nat)
    requires IsGeometry(g)
    ensures var l := ArcInner(max, g.w, Layout(size, g.alignA)); l.Some? ==> l.value.1 == Offset(g, A)
    ensures var l := ArcInner(max, g.w, Layout(size, g.alignB)); l.Some? ==> l.value.1 == Offset(g, B)
  {
  }

  datatype Inner<V> = Inner(count: nat, data: V)

  /** What a variable of the program holds; the type and the strategy are static. */
  datatype Rep =
    | Nothing
    | ArcPtr(p: nat, t: Ty, strategy: nat)
    | UniquePtr(p: nat, t: Ty, strategy: nat)
    | OffsetPtr(d: nat, t: Ty, strategy: nat)
    | UnionPtr(u: nat, strategy: nat)

  // ---- The tag of `ArcUnion` ----

  function FromFirst(d: nat): nat {
    d
  }

  /** `d | 0x1` */
  function FromSecond(d: nat): nat {
    if d % 2 == 0 then d + 1 else d
  }

  predicate IsFirst(u: nat) {
    u % 2 == 0
  }

  /** `u & !0x1` */
  function Untag(u: nat): nat {
    u - u % 2
  }

  /** `borrow`: the type and the address of the data. */
  function BorrowUnion(u: nat): (Ty, nat) {
    if IsFirst(u) then (A, u) else (B, Untag(u))
  }

  /** An even address can carry the tag. */
  lemma TagReads(d: nat, e: nat)
    requires d % 2 == 0 && e % 2 == 0
    ensures BorrowUnion(FromFirst(d)) == (A, d) && BorrowUnion(FromSecond(e)) == (B, e)
    ensures IsFirst(FromFirst(d)) && !IsFirst(FromSecond(e))
  {
  }

  /** For the data of a block anywhere, of any alignment, the tag is read back with the address,
      and no two encodings meet. */
  lemma UnionRoundTrip(g: Geometry, p: nat, q: nat)
    requires IsGeometry(g) && Divides(Max(g.w, g.alignA), p) && Divides(Max(g.w, g.alignB), q)
    ensures var d := p + Offset(g, A); BorrowUnion(FromFirst(d)) == (A, d)
    ensures var d := q + Offset(g, B); BorrowUnion(FromSecond(d)) == (B, d)
    ensures FromFirst(p + Offset(g, A)) != FromSecond(q + Offset(g, B))
  {
    DataIsEven(g.w, g.alignA, p);
    DataIsEven(g.w, g.alignB, q);
    TagReads(p + Offset(g, A), q + Offset(g, B));
  }

  // ---- What the representations stand for ----

  /** A backdrop strategy that ran, and the block it got. */
  datatype Disposal = Disposal(p: nat, strategy: nat)

  /** Memory, variables and the disposals so far, with the counted cells they represent: cell `c` is
      at `addr[c]` and has type `ty[c]`, and disposal `k` was that of cell `ended[k]`. */
  datatype Image<V> = Image(
    inner: map<nat, Inner<V>>,
    vars: seq<Rep>,
    disposals: seq<Disposal>,
    mem: C.Mem<V>,
    addr: seq<nat>,
    ty: seq<Ty>,
    ended: seq<nat>)

  predicate At<V>(i: Image<V>, slot: C.Slot, t: Ty, strategy: nat, p: int) {
    && slot.Arc? && slot.cell < |i.addr| == |i.ty| && slot.strategy == strategy
    && i.ty[slot.cell] == t && i.addr[slot.cell] == p
  }

  predicate Represents<V>(g: Geometry, i: Image<V>, rep: Rep, slot: C.Slot) {
    match rep
    case Nothing => slot.Empty? || slot.Leaked?
    case ArcPtr(p, t, s) => At(i, slot, t, s, p)
    case UniquePtr(p, t, s) => At(i, slot, t, s, p) && slot.cell < |i.mem.cells| && i.mem.cells[slot.cell].count == 1
    case OffsetPtr(d, t, s) => At(i, slot, t, s, d - Offset(g, t))
    case UnionPtr(u, s) =>
      var (t, d) := BorrowUnion(u);
      At(i, slot, t, s, d - Offset(g, t))
  }

  /** Cell `c`, if it is still there, is in memory where it should be, alone at its address. */
  ghost predicate CellAt<V>(g: Geometry, i: Image<V>, c: nat)
    requires |i.addr| == |i.ty| == |i.mem.cells|
  {
    c < |i.mem.cells| && i.mem.cells[c].end == C.Alive ==>
      && i.addr[c] in i.inner && i.inner[i.addr[c]] == Inner(i.mem.cells[c].count, i.mem.cells[c].value)
      && Divides(Max(g.w, AlignOf(g, i.ty[c])), i.addr[c])
      && forall d: nat :: Distinct(i, c, d)
  }

  predicate Distinct<V>(i: Image<V>, c: nat, d: nat)
    requires c < |i.addr| == |i.mem.cells|
  {
    d < |i.mem.cells| && d != c && i.mem.cells[d].end == C.Alive ==> i.addr[d] != i.addr[c]
  }

  /** Every block in memory is a cell that is still there: nothing is leaked, and what ended was freed. */
  ghost predicate Tidy<V>(inner: map<nat, Inner<V>>, cells: seq<C.Cell<V>>, addr: seq<nat>) {
    forall p: nat :: BlockAt(inner, cells, addr, p)
  }

  ghost predicate BlockAt<V>(inner: map<nat, Inner<V>>, cells: seq<C.Cell<V>>, addr: seq<nat>, p: nat) {
    p in inner ==> exists c :: IsAt(cells, addr, c, p)
  }

  predicate IsAt<V>(cells: seq<C.Cell<V>>, addr: seq<nat>, c: nat, p: nat) {
    c < |cells| && c < |addr| && cells[c].end == C.Alive && addr[c] == p
  }

  /** The disposals are those of the cells that were handed to a strategy, each of them once. */
  ghost predicate Logged<V>(cells: seq<C.Cell<V>>, addr: seq<nat>, disposals: seq<Disposal>, ended: seq<nat>) {
    && |disposals| == |ended|
    && (forall k: nat :: DisposalOf(cells, addr, disposals, ended, k))
    && (forall c: nat :: DisposedAt(cells, ended, c))
    && (forall j: nat, k: nat :: Once(ended, j, k))
  }

  predicate Once(ended: seq<nat>, j: nat, k: nat) {
    j < k < |ended| ==> ended[j] != ended[k]
  }

  predicate DisposalOf<V>(cells: seq<C.Cell<V>>, addr: seq<nat>, disposals: seq<Disposal>, ended: seq<nat>, k: nat) {
    k < |disposals| && k < |ended| ==>
      && ended[k] < |cells| && ended[k] < |addr|
      && disposals[k].p == addr[ended[k]] && cells[ended[k]].end == C.Disposed(disposals[k].strategy)
  }

  predicate DisposedAt<V>(cells: seq<C.Cell<V>>, ended: seq<nat>, c: nat) {
    c < |cells| && cells[c].end.Disposed? ==> c in ended
  }

  ghost predicate Rel<V>(g: Geometry, i: Image<V>) {
    && IsGeometry(g)
    && C.Good(i.mem)
    && |i.addr| == |i.ty| == |i.mem.cells|
    && |i.vars| == |i.mem.slots|
    && (forall x | 0 <= x < |i.mem.slots| :: !i.mem.slots[x].Iter?)
    && (forall x: nat :: VarOk(g, i, x))
    && (forall c: nat :: CellAt(g, i, c))
    && Tidy(i.inner, i.mem.cells, i.addr)
    && Logged(i.mem.cells, i.addr, i.disposals, i.ended)
  }

  // ---- Disposals ----

  function Strategies(disposals: seq<Disposal>): seq<nat> {
    seq(|disposals|, k requires 0 <= k < |disposals| => disposals[k].strategy)
  }

  /** The strategies that ran between two states of the cells. */
  function NewlyDisposed<V>(a: seq<C.Cell<V>>, b: seq<C.Cell<V>>): seq<nat>
    requires |a| <= |b|
    decreases |a|
  {
    if a == [] then []
    else
      var n := |a| - 1;
      NewlyDisposed(a[..n], b)
        + if a[n].end == C.Alive && b[n].end.Disposed? then [b[n].end.strategy] else []
  }

  /** Only cell `e` may have ended. */
  lemma {:induction false} OneDisposed<V>(a: seq<C.Cell<V>>, b: seq<C.Cell<V>>, e: nat)
    requires |a| <= |b| && forall c | 0 <= c < |a| && c != e :: b[c].end == a[c].end
    ensures NewlyDisposed(a, b)
         == if e < |a| && a[e].end == C.Alive && b[e].end.Disposed? then [b[e].end.strategy] else []
    decreases |a|
  {
    if a != [] { OneDisposed(a[..|a| - 1], b, e); }
  }

  /** The log has grown by the strategies that ran. */
  predicate Logs<V>(i: Image<V>, r: Image<V>) {
    && |i.mem.cells| <= |r.mem.cells| && i.disposals <= r.disposals
    && Strategies(r.disposals) == Strategies(i.disposals) + NewlyDisposed(i.mem.cells, r.mem.cells)
  }

  ghost predicate VarOk<V>(g: Geometry, i: Image<V>, x: nat)
    requires IsGeometry(g) && |i.vars| == |i.mem.slots|
  {
    x < |i.vars| ==> Represents(g, i, i.vars[x], i.mem.slots[x])
  }

  function Before(d: nat, n: nat): nat {
    if d < n then 0 else d - n
  }

  /** The block that `rep` points to, by its own arithmetic. */
  function Block(g: Geometry, rep: Rep): nat {
    match rep
    case Nothing => 0
    case ArcPtr(p, _, _) => p
    case UniquePtr(p, _, _) => p
    case OffsetPtr(d, t, _) => Before(d, Offset(g, t))
    case UnionPtr(u, _) =>
      var (t, d) := BorrowUnion(u);
      Before(d, Offset(g, t))
  }

  /** The block is in memory, with the count and value of the cell. */
  lemma BlockIsCell<V>(g: Geometry, i: Image<V>, h: nat)
    requires Rel(g, i) && h < |i.vars| && !i.vars[h].Nothing?
    ensures C.IsArc(i.mem, h) && C.Unborrowed(i.mem.slots, h)
    ensures var c := i.mem.slots[h].cell; var p := Block(g, i.vars[h]);
            && i.mem.cells[c].end == C.Alive && i.addr[c] == p && p in i.inner
            && i.inner[p] == Inner(i.mem.cells[c].count, i.mem.cells[c].value)
  {
    assert VarOk(g, i, h) && C.SlotOk(i.mem, h);
    assert CellAt(g, i, i.mem.slots[h].cell);
  }

  /** No other variable points to the cell of a unique handle. */
  lemma UniqueUntouched<V>(g: Geometry, i: Image<V>, x: nat, h: nat)
    requires Rel(g, i) && h < |i.vars| && x < |i.vars| && x != h && i.vars[x].UniquePtr? && !i.vars[h].Nothing?
    ensures i.mem.slots[x].Arc? && i.mem.slots[h].Arc? && i.mem.slots[x].cell != i.mem.slots[h].cell
  {
    assert VarOk(g, i, x) && VarOk(g, i, h);
    BlockIsCell(g, i, x);
    C.OnlyArc(i.mem, x, h);
  }

  // ---- One operation on memory and on the cells at once ----

  /** A variable takes another form; nothing else changes. */
  lemma ConvertKeeps<V>(g: Geometry, i: Image<V>, h: nat, rep: Rep)
    requires Rel(g, i) && h < |i.vars| && Represents(g, i, rep, i.mem.slots[h])
    ensures Rel(g, i.(vars := i.vars[h := rep]))
  {
    var r := i.(vars := i.vars[h := rep]);
    forall x: nat ensures VarOk(g, r, x) {
      assert VarOk(g, i, x);
    }
    forall c: nat ensures CellAt(g, r, c) {
      assert CellAt(g, i, c);
      if c < |i.mem.cells| { forall d: nat ensures i.mem.cells[c].end == C.Alive ==> Distinct(r, c, d) { assert i.mem.cells[c].end == C.Alive ==> Distinct(i, c, d); } }
    }
  }

  /** A clone of `h` with any strategy, stored in any shape. */
  lemma CloneKeeps<V>(g: Geometry, i: Image<V>, max: nat, h: nat, rep: Rep, strategy: nat)
    requires Rel(g, i) && h < |i.vars| && !i.vars[h].Nothing? && !i.vars[h].UniquePtr?
    requires C.IsArc(i.mem, h) && C.CellOf(i.mem, h).count <= max
    requires !rep.UniquePtr? && !rep.Nothing?
    requires Represents(g, i, rep, C.Arc(i.mem.slots[h].cell, strategy))
    ensures var p := Block(g, i.vars[h]);
            && p in i.inner
            && var r := i.(inner := i.inner[p := i.inner[p].(count := i.inner[p].count + 1)], vars := i.vars + [rep],
                           mem := C.Step(max, i.mem, C.Clone(h, strategy)).0);
               Rel(g, r) && Logs(i, r)
  {
    BlockIsCell(g, i, h);
    C.StepKeeps(max, i.mem, C.Clone(h, strategy));
    var p := Block(g, i.vars[h]);
    var r := i.(inner := i.inner[p := i.inner[p].(count := i.inner[p].count + 1)], vars := i.vars + [rep],
                mem := C.Step(max, i.mem, C.Clone(h, strategy)).0);
    forall x: nat ensures VarOk(g, r, x) {
      assert VarOk(g, i, x);
      if x < |i.vars| && x != h && i.vars[x].UniquePtr? { UniqueUntouched(g, i, x, h); }
    }
    CellsKeep(g, i, r, i.mem.slots[h].cell);
  }

  /** Cell `e` alone changed, and its block; if it ended, the block is gone, and if a strategy got
      it that is in the log. */
  ghost predicate Changes<V>(i: Image<V>, r: Image<V>, e: nat) {
    && e < |i.mem.cells| == |r.mem.cells| && e < |i.addr| && i.mem.cells[e].end == C.Alive
    && r.addr == i.addr && r.ty == i.ty
    && (forall c | 0 <= c < |i.mem.cells| && c != e :: r.mem.cells[c] == i.mem.cells[c])
    && r.inner == (if r.mem.cells[e].end == C.Alive
                   then i.inner[i.addr[e] := Inner(r.mem.cells[e].count, r.mem.cells[e].value)] else i.inner - {i.addr[e]})
    && (if r.mem.cells[e].end.Disposed?
        then r.ended == i.ended + [e] && r.disposals == i.disposals + [Disposal(i.addr[e], r.mem.cells[e].end.strategy)]
        else r.ended == i.ended && r.disposals == i.disposals)
  }

  /** Blocks, cells and the log still correspond. */
  lemma CellsKeep<V>(g: Geometry, i: Image<V>, r: Image<V>, e: nat)
    requires Rel(g, i) && Changes(i, r, e)
    ensures forall c: nat :: CellAt(g, r, c)
    ensures Tidy(r.inner, r.mem.cells, r.addr) && Logged(r.mem.cells, r.addr, r.disposals, r.ended) && Logs(i, r)
  {
    assert CellAt(g, i, e);
    forall c: nat ensures CellAt(g, r, c) {
      assert CellAt(g, i, c);
      if c < |i.mem.cells| && i.mem.cells[c].end == C.Alive {
        assert Distinct(i, c, e);
        forall d: nat ensures Distinct(r, c, d) { assert Distinct(i, c, d); }
      }
    }
    TidyKeeps(g, i, r, e);
    LogKeeps(i, r, e);
  }

  lemma TidyKeeps<V>(g: Geometry, i: Image<V>, r: Image<V>, e: nat)
    requires Rel(g, i) && Changes(i, r, e)
    ensures Tidy(r.inner, r.mem.cells, r.addr)
  {
    forall p: nat ensures BlockAt(r.inner, r.mem.cells, r.addr, p) {
      assert BlockAt(i.inner, i.mem.cells, i.addr, p);
      if p in r.inner {
        assert CellAt(g, i, e);
        var c :| IsAt(i.mem.cells, i.addr, c, p);
        assert IsAt(r.mem.cells, r.addr, c, p);
      }
    }
  }

  lemma LogKeeps<V>(i: Image<V>, r: Image<V>, e: nat)
    requires Changes(i, r, e) && Logged(i.mem.cells, i.addr, i.disposals, i.ended)
    ensures Logged(r.mem.cells, r.addr, r.disposals, r.ended) && Logs(i, r)
  {
    forall k: nat ensures DisposalOf(r.mem.cells, r.addr, r.disposals, r.ended, k) && (k < |i.ended| ==> i.ended[k] != e) {
      assert DisposalOf(i.mem.cells, i.addr, i.disposals, i.ended, k);
    }
    forall c: nat ensures DisposedAt(r.mem.cells, r.ended, c) {
      assert DisposedAt(i.mem.cells, i.ended, c);
    }
    forall j: nat, k: nat ensures Once(r.ended, j, k) {
      assert Once(i.ended, j, k);
    }
    LogGrows(i, r, e);
  }

  lemma LogGrows<V>(i: Image<V>, r: Image<V>, e: nat)
    requires Changes(i, r, e)
    ensures Logs(i, r)
  {
    OneDisposed(i.mem.cells, r.mem.cells, e);
  }

  /** The memory and the log after the handle on `p` with this strategy is dropped. */
  function Dropped<V>(inner: map<nat, Inner<V>>, p: nat): map<nat, Inner<V>>
    requires p in inner && 0 < inner[p].count
  {
    if inner[p].count == 1 then inner - {p} else inner[p := inner[p].(count := inner[p].count - 1)]
  }

  function Ran<V>(inner: map<nat, Inner<V>>, p: nat, strategy: nat): seq<Disposal>
    requires p in inner
  {
    if inner[p].count == 1 then [Disposal(p, strategy)] else []
  }

  function Bumped<V>(inner: map<nat, Inner<V>>, p: nat): map<nat, Inner<V>>
    requires p in inner
  {
    inner[p := inner[p].(count := inner[p].count + 1)]
  }

  function Written<V>(inner: map<nat, Inner<V>>, p: nat, w: V): map<nat, Inner<V>>
    requires p in inner
  {
    inner[p := inner[p].(data := w)]
  }

  /** The cells that ended, after variable `h` let go of its cell. */
  function Ended<V>(i: Image<V>, h: nat): seq<nat>
    requires C.IsArc(i.mem, h)
  {
    if C.CellOf(i.mem, h).count == 1 then i.ended + [i.mem.slots[h].cell] else i.ended
  }

  /** Variable `h` lets go of its cell: the strategy runs and the block is gone if it was the last. */
  lemma ReleaseKeeps<V>(g: Geometry, i: Image<V>, h: nat)
    requires Rel(g, i) && h < |i.vars| && !i.vars[h].Nothing?
    ensures C.IsArc(i.mem, h)
    ensures var p := Block(g, i.vars[h]);
            && p in i.inner && 0 < i.inner[p].count
            && var r := i.(inner := Dropped(i.inner, p), vars := i.vars[h := Nothing],
                           disposals := i.disposals + Ran(i.inner, p, i.vars[h].strategy),
                           mem := C.Release(i.mem, h), ended := Ended(i, h));
               Rel(g, r) && Logs(i, r)
  {
    BlockIsCell(g, i, h);
    C.ReleaseGood(i.mem, h);
    var p := Block(g, i.vars[h]);
    var e := i.mem.slots[h].cell;
    assert C.CellOk(i.mem, e) && VarOk(g, i, h);
    var r := i.(inner := Dropped(i.inner, p), vars := i.vars[h := Nothing],
                disposals := i.disposals + Ran(i.inner, p, i.vars[h].strategy),
                mem := C.Release(i.mem, h), ended := Ended(i, h));
    forall x: nat ensures VarOk(g, r, x) {
      assert VarOk(g, i, x);
      if x < |i.vars| && x != h && i.vars[x].UniquePtr? { UniqueUntouched(g, i, x, h); }
    }
    CellsKeep(g, i, r, e);
  }

  /** The value of the only handle is moved out and the block is freed; no strategy runs. */
  lemma MoveOutKeeps<V>(g: Geometry, i: Image<V>, h: nat)
    requires Rel(g, i) && h < |i.vars| && !i.vars[h].Nothing?
    requires C.IsArc(i.mem, h) && C.CellOf(i.mem, h).count == 1
    ensures var r := i.(inner := i.inner - {Block(g, i.vars[h])}, vars := i.vars[h := Nothing], mem := C.MoveOut(i.mem, h));
            Rel(g, r) && Logs(i, r)
  {
    BlockIsCell(g, i, h);
    C.MoveOutGood(i.mem, h);
    var r := i.(inner := i.inner - {Block(g, i.vars[h])}, vars := i.vars[h := Nothing], mem := C.MoveOut(i.mem, h));
    forall x: nat ensures VarOk(g, r, x) {
      assert VarOk(g, i, x);
    }
    CellsKeep(g, i, r, i.mem.slots[h].cell);
  }

  /** A write in place. */
  lemma WriteKeeps<V>(g: Geometry, i: Image<V>, h: nat, v: V)
    requires Rel(g, i) && h < |i.vars| && !i.vars[h].Nothing?
    ensures C.IsArc(i.mem, h)
    ensures var p := Block(g, i.vars[h]);
            && p in i.inner
            && var r := i.(inner := i.inner[p := i.inner[p].(data := v)], mem := C.SetValue(i.mem, i.mem.slots[h].cell, v));
               Rel(g, r) && Logs(i, r)
  {
    BlockIsCell(g, i, h);
    var p := Block(g, i.vars[h]);
    var e := i.mem.slots[h].cell;
    C.SetValueGood(i.mem, e, v);
    var r := i.(inner := i.inner[p := i.inner[p].(data := v)], mem := C.SetValue(i.mem, e, v));
    forall x: nat ensures VarOk(g, r, x) {
      assert VarOk(g, i, x);
    }
    CellsKeep(g, i, r, e);
  }

  /** A block the allocator hands out: free and aligned for the type. */
  ghost predicate Allocates<V>(g: Geometry, i: Image<V>, q: nat, t: Ty) {
    q !in i.inner && Divides(Max(g.w, AlignOf(g, t)), q)
  }

  /** A new cell at `q`, with these variables. */
  function Grown<V>(i: Image<V>, q: nat, t: Ty, v: V, vars: seq<Rep>, slots: seq<C.Slot>): Image<V> {
    i.(inner := i.inner[q := Inner(1, v)], vars := vars, mem := C.Mem(i.mem.cells + [C.Cell(1, v, C.Alive)], slots),
       addr := i.addr + [q], ty := i.ty + [t])
  }

  /** `h`, a new variable or one that was empty, points to it. */
  lemma NewKeeps<V>(g: Geometry, i: Image<V>, q: nat, t: Ty, v: V, vars: seq<Rep>, slots: seq<C.Slot>, h: nat)
    requires Rel(g, i) && Allocates(g, i, q, t) && h < |slots| == |vars|
    requires slots[h].Arc? && slots[h].cell == |i.mem.cells|
    requires if h == |i.vars| then slots == i.mem.slots + [slots[h]] && vars == i.vars + [vars[h]]
             else h < |i.vars| && i.mem.slots[h] == C.Empty && slots == i.mem.slots[h := slots[h]] && vars == i.vars[h := vars[h]]
    requires Represents(g, Grown(i, q, t, v, vars, slots), vars[h], slots[h])
    ensures Rel(g, Grown(i, q, t, v, vars, slots)) && Logs(i, Grown(i, q, t, v, vars, slots))
  {
    var r := Grown(i, q, t, v, vars, slots);
    C.NewCellGood(i.mem, v, slots, h);
    forall x: nat ensures VarOk(g, r, x) {
      assert VarOk(g, i, x);
    }
    forall c: nat ensures CellAt(g, r, c) {
      assert CellAt(g, i, c);
      if c < |r.mem.cells| && r.mem.cells[c].end == C.Alive {
        forall d: nat ensures Distinct(r, c, d) {
          assert CellAt(g, i, d);
          if c < |i.mem.cells| { assert Distinct(i, c, d); }
        }
      }
    }
    NewLogged(i, r, q);
  }

  lemma NewLogged<V>(i: Image<V>, r: Image<V>, q: nat)
    requires Tidy(i.inner, i.mem.cells, i.addr) && Logged(i.mem.cells, i.addr, i.disposals, i.ended)
    requires |i.addr| == |i.mem.cells| && r.disposals == i.disposals && r.ended == i.ended && r.addr == i.addr + [q]
    requires |r.mem.cells| == |i.mem.cells| + 1 && r.mem.cells[..|i.mem.cells|] == i.mem.cells
    requires r.mem.cells[|i.mem.cells|].end == C.Alive && q in r.inner && r.inner == i.inner[q := r.inner[q]]
    ensures Tidy(r.inner, r.mem.cells, r.addr) && Logged(r.mem.cells, r.addr, r.disposals, r.ended) && Logs(i, r)
  {
    var n := |i.mem.cells|;
    assert forall c | 0 <= c < n :: r.mem.cells[c] == r.mem.cells[..n][c];
    assert IsAt(r.mem.cells, r.addr, n, q);
    forall p: nat ensures BlockAt(r.inner, r.mem.cells, r.addr, p) {
      assert BlockAt(i.inner, i.mem.cells, i.addr, p);
      if c :| IsAt(i.mem.cells, i.addr, c, p) { assert IsAt(r.mem.cells, r.addr, c, p); }
    }
    forall k: nat ensures DisposalOf(r.mem.cells, r.addr, r.disposals, r.ended, k) {
      assert DisposalOf(i.mem.cells, i.addr, i.disposals, i.ended, k);
    }
    forall c: nat ensures DisposedAt(r.mem.cells, r.ended, c) {
      assert DisposedAt(i.mem.cells, i.ended, c);
    }
    OneDisposed(i.mem.cells, r.mem.cells, n);
  }

  /** A handle passed to `mem::forget`. */
  lemma ForgetKeeps<V>(g: Geometry, i: Image<V>, h: nat)
    requires Rel(g, i) && h < |i.vars| && !i.vars[h].Nothing?
    ensures C.IsArc(i.mem, h)
    ensures var r := i.(vars := i.vars[h := Nothing], mem := C.SetSlot(i.mem, h, C.Leaked(i.mem.slots[h].cell, 1)));
            Rel(g, r) && Logs(i, r)
  {
    BlockIsCell(g, i, h);
    C.RelabelGood(i.mem, h, C.Leaked(i.mem.slots[h].cell, 1));
    var r := i.(vars := i.vars[h := Nothing], mem := C.SetSlot(i.mem, h, C.Leaked(i.mem.slots[h].cell, 1)));
    forall x: nat ensures VarOk(g, r, x) {
      assert VarOk(g, i, x);
    }
    CellsKeep(g, i, r, i.mem.slots[h].cell);
  }

  lemma StrategyKeeps<V>(g: Geometry, i: Image<V>, h: nat, strategy: nat)
    requires Rel(g, i) && h < |i.vars| && i.vars[h].ArcPtr?
    ensures C.IsArc(i.mem, h)
    ensures var r := i.(vars := i.vars[h := ArcPtr(i.vars[h].p, i.vars[h].t, strategy)],
                        mem := C.SetSlot(i.mem, h, C.Arc(i.mem.slots[h].cell, strategy)));
            Rel(g, r) && Logs(i, r)
  {
    BlockIsCell(g, i, h);
    C.RelabelGood(i.mem, h, C.Arc(i.mem.slots[h].cell, strategy));
    var r := i.(vars := i.vars[h := ArcPtr(i.vars[h].p, i.vars[h].t, strategy)],
                mem := C.SetSlot(i.mem, h, C.Arc(i.mem.slots[h].cell, strategy)));
    forall x: nat ensures VarOk(g, r, x) {
      assert VarOk(g, i, x);
    }
    CellsKeep(g, i, r, i.mem.slots[h].cell);
  }

  /** The tagged pointer to the data of `h` means the same block and type. */
  lemma TagKeeps<V>(g: Geometry, i: Image<V>, h: nat)
    requires Rel(g, i) && h < |i.vars| && i.vars[h].ArcPtr?
    ensures var d := i.vars[h].p + Offset(g, i.vars[h].t);
            Represents(g, i, UnionPtr(if i.vars[h].t == A then FromFirst(d) else FromSecond(d), i.vars[h].strategy), i.mem.slots[h])
    ensures IsFirst(FromFirst(i.vars[h].p + Offset(g, i.vars[h].t))) && !IsFirst(FromSecond(i.vars[h].p + Offset(g, i.vars[h].t)))
  {
    BlockIsCell(g, i, h);
    assert VarOk(g, i, h) && CellAt(g, i, i.mem.slots[h].cell);
    var d := i.vars[h].p + Offset(g, i.vars[h].t);
    DataIsEven(g.w, AlignOf(g, i.vars[h].t), i.vars[h].p);
    TagReads(d, d);
  }

  /** A union pointer is what tagging the data pointer again gives. */
  lemma UnionIsTagged<V>(g: Geometry, i: Image<V>, h: nat)
    requires Rel(g, i) && h < |i.vars| && i.vars[h].UnionPtr?
    ensures var d := Block(g, i.vars[h]) + Offset(g, FormOf(i.vars[h]).ty);
            i.vars[h].u == if IsFirst(i.vars[h].u) then FromFirst(d) else FromSecond(d)
  {
    BlockIsCell(g, i, h);
    assert VarOk(g, i, h) && CellAt(g, i, i.mem.slots[h].cell);
  }

  /** `make_mut` and a write through it when the block is shared: `h` moves to a new block at `q`. */
  function Moved<V>(g: Geometry, i: Image<V>, h: nat, w: V, q: nat, t: Ty, rep: Rep): Image<V>
    requires 0 < g.alignA && 0 < g.alignB && h < |i.vars| && Block(g, i.vars[h]) in i.inner
    requires C.Allowed(i.mem, C.MakeMut(h, w)) && 0 < i.inner[Block(g, i.vars[h])].count
  {
    var p := Block(g, i.vars[h]);
    i.(inner := i.inner[q := Inner(1, w)][p := i.inner[p].(count := i.inner[p].count - 1)], vars := i.vars[h := rep],
       mem := C.Step(0, i.mem, C.MakeMut(h, w)).0, addr := i.addr + [q], ty := i.ty + [t])
  }

  /** A shared block: `h` lets go of it, which leaves everything else as it was. */
  lemma SharedRelease<V>(g: Geometry, i: Image<V>, h: nat) returns (r: Image<V>)
    requires Rel(g, i) && h < |i.vars| && !i.vars[h].Nothing?
    requires C.IsArc(i.mem, h) && 1 < C.CellOf(i.mem, h).count
    ensures C.Unborrowed(i.mem.slots, h) && Block(g, i.vars[h]) in i.inner && 1 < i.inner[Block(g, i.vars[h])].count
    ensures i.inner[Block(g, i.vars[h])].data == C.CellOf(i.mem, h).value
    ensures Rel(g, r) && r == i.(inner := Dropped(i.inner, Block(g, i.vars[h])), vars := i.vars[h := Nothing], mem := C.Release(i.mem, h))
  {
    BlockIsCell(g, i, h);
    ReleaseKeeps(g, i, h);
    r := i.(inner := Dropped(i.inner, Block(g, i.vars[h])), vars := i.vars[h := Nothing], mem := C.Release(i.mem, h));
    assert i.disposals + [] == i.disposals;
  }

  lemma MakeMutKeeps<V>(g: Geometry, i: Image<V>, h: nat, w: V, q: nat, t: Ty, rep: Rep)
    requires Rel(g, i) && h < |i.vars| && !i.vars[h].Nothing? && Allocates(g, i, q, t)
    requires C.IsArc(i.mem, h) && 1 < C.CellOf(i.mem, h).count
    requires !rep.UniquePtr?
    requires Represents(g, i.(mem := C.Replace(i.mem, h, C.CellOf(i.mem, h).value), addr := i.addr + [q], ty := i.ty + [t]),
                        rep, C.Arc(|i.mem.cells|, i.mem.slots[h].strategy))
    ensures C.Unborrowed(i.mem.slots, h) && Block(g, i.vars[h]) in i.inner && 0 < i.inner[Block(g, i.vars[h])].count
    ensures Rel(g, Moved(g, i, h, w, q, t, rep)) && Logs(i, Moved(g, i, h, w, q, t, rep))
  {
    var r := SharedRelease(g, i, h);
    var p := Block(g, i.vars[h]);
    var v := i.inner[p].data;
    var slots := r.mem.slots[h := C.Arc(|r.mem.cells|, i.mem.slots[h].strategy)];
    NewKeeps(g, r, q, t, v, r.vars[h := rep], slots, h);
    var s := Grown(r, q, t, v, r.vars[h := rep], slots);
    WriteKeeps(g, s, h, w);
    BlockIsCell(g, s, h);
    assert i.vars[h := Nothing][h := rep] == i.vars[h := rep];
    assert r.inner[q := Inner(1, v)][q := Inner(1, w)]
        == i.inner[q := Inner(1, w)][p := i.inner[p].(count := i.inner[p].count - 1)];
    OneDisposed(i.mem.cells, Moved(g, i, h, w, q, t, rep).mem.cells, |i.mem.cells|);
  }

  // ---- Programs that mix the representations ----

  /** The static type of a variable: what it is a handle of, and its strategy.  Of an `ArcUnion` it
      also says which of the two it is. */
  datatype Shape = AsArc | AsUnique | AsOffset | AsUnion

  datatype Form = NoForm | Form(shape: Shape, ty: Ty, strategy: nat)

  function FormOf(rep: Rep): Form {
    match rep
    case Nothing => NoForm
    case ArcPtr(_, t, s) => Form(AsArc, t, s)
    case UniquePtr(_, t, s) => Form(AsUnique, t, s)
    case OffsetPtr(_, t, s) => Form(AsOffset, t, s)
    case UnionPtr(u, s) => Form(AsUnion, BorrowUnion(u).0, s)
  }

  function Forms(vars: seq<Rep>): seq<Form> {
    seq(|vars|, x requires 0 <= x < |vars| => FormOf(vars[x]))
  }

  datatype Cmd<V> =
    | New(v: V, t: Ty, strategy: nat)
    | Clone(h: nat)
    | CloneArc(h: nat, strategy: nat)
    | Drop(h: nat)
    | Forget(h: nat)
    | Read(h: nat)
    | Count(h: nat)
    | MakeMut(h: nat, w: V)
    | GetMut(h: nat, w: V)
    | TryUnwrap(h: nat)
    | UnwrapOrClone(h: nat)
    | IntoInner(h: nat)
    | WithStrategy(h: nat, strategy: nat)
    | TryUnique(h: nat)
    | Shareable(h: nat)
    | IntoRawOffset(h: nat)
    | FromRawOffset(h: nat)
    | FromFirstArc(h: nat)
    | FromSecondArc(h: nat)

  predicate Has(forms: seq<Form>, h: nat, shapes: set<Shape>) {
    h < |forms| && forms[h].Form? && forms[h].shape in shapes
  }

  /** The command type-checks. */
  predicate WellTyped<V>(forms: seq<Form>, cmd: Cmd<V>) {
    match cmd
    case New(_, _, _) => true
    case Clone(h) => Has(forms, h, {AsArc, AsOffset, AsUnion})
    case CloneArc(h, _) => Has(forms, h, {AsArc, AsOffset, AsUnion})
    case MakeMut(h, _) => Has(forms, h, {AsArc, AsOffset})
    case GetMut(h, _) => Has(forms, h, {AsArc, AsUnique})
    case IntoInner(h) => Has(forms, h, {AsUnique})
    case Shareable(h) => Has(forms, h, {AsUnique})
    case FromRawOffset(h) => Has(forms, h, {AsOffset})
    case FromFirstArc(h) => Has(forms, h, {AsArc}) && forms[h].ty == A
    case FromSecondArc(h) => Has(forms, h, {AsArc}) && forms[h].ty == B
    case Drop(h) => Has(forms, h, {AsArc, AsUnique, AsOffset, AsUnion})
    case Forget(h) => Has(forms, h, {AsArc, AsUnique, AsOffset, AsUnion})
    case Read(h) => Has(forms, h, {AsArc, AsUnique, AsOffset, AsUnion})
    case Count(h) => Has(forms, h, {AsArc, AsUnique, AsOffset, AsUnion})
    case _ => Has(forms, cmd.h, {AsArc})
  }

  /** The types of the variables after a command that answered `out`. */
  function Retype<V>(forms: seq<Form>, cmd: Cmd<V>, out: C.Out<V>): seq<Form>
    requires WellTyped(forms, cmd)
  {
    match cmd
    case New(_, t, strategy) => forms + [Form(AsArc, t, strategy)]
    case Clone(h) => forms + [forms[h]]
    case CloneArc(h, strategy) => forms + [Form(AsArc, forms[h].ty, strategy)]
    case Drop(h) => forms[h := NoForm]
    case Forget(h) => forms[h := NoForm]
    case TryUnwrap(h) => if out.Got? then forms[h := NoForm] else forms
    case UnwrapOrClone(h) => forms[h := NoForm]
    case IntoInner(h) => forms[h := NoForm]
    case WithStrategy(h, strategy) => forms[h := forms[h].(strategy := strategy)]
    case TryUnique(h) => if out == C.Flag(true) then forms[h := forms[h].(shape := AsUnique)] else forms
    case Shareable(h) => forms[h := forms[h].(shape := AsArc)]
    case IntoRawOffset(h) => forms[h := forms[h].(shape := AsOffset)]
    case FromRawOffset(h) => forms[h := forms[h].(shape := AsArc)]
    case FromFirstArc(h) => forms[h := forms[h].(shape := AsUnion)]
    case FromSecondArc(h) => forms[h := forms[h].(shape := AsUnion)]
    case _ => forms
  }

  /** The same command when every handle is a plain `Arc`: the conversions do nothing. */
  function PlainOp<V>(m: C.Mem<V>, cmd: Cmd<V>): Option<C.Op<V>> {
    match cmd
    case New(v, _, strategy) => Some(C.New(v, strategy))
    case Clone(h) => Some(C.Clone(h, if C.IsArc(m, h) then m.slots[h].strategy else 0))
    case CloneArc(h, strategy) => Some(C.Clone(h, strategy))
    case Drop(h) => Some(C.Drop(h))
    case Forget(h) => Some(C.Forget(h))
    case Read(h) => Some(C.Read(h))
    case Count(h) => Some(C.Count(h))
    case MakeMut(h, w) => Some(C.MakeMut(h, w))
    case GetMut(h, w) => Some(C.GetMut(h, w))
    case TryUnwrap(h) => Some(C.TryUnwrap(h))
    case UnwrapOrClone(h) => Some(C.UnwrapOrClone(h))
    case IntoInner(h) => Some(C.TryUnwrap(h))
    case WithStrategy(h, strategy) => Some(C.WithStrategy(h, strategy))
    case _ => None
  }

  /** Of the conversions `try_unique` alone has something to say. */
  function PlainStep<V>(max: nat, m: C.Mem<V>, cmd: Cmd<V>): (C.Mem<V>, C.Out<V>) {
    match PlainOp(m, cmd)
    case None => (m, if cmd.TryUnique? then C.Flag(C.IsArc(m, cmd.h) && C.CellOf(m, cmd.h).count == 1) else C.Done)
    case Some(op) => if C.Allowed(m, op) then C.Step(max, m, op) else (m, C.Aborted)
  }

  lemma PlainGrows<V>(max: nat, m: C.Mem<V>, cmd: Cmd<V>)
    ensures |m.cells| <= |PlainStep(max, m, cmd).0.cells|
  {
  }

  /** A program over plain `Arc`s up to its end or to where it aborts: the cells and the types of the
      variables there, what it returned, and the strategies that ran, in order. */
  datatype Outcome<V> = Outcome(mem: C.Mem<V>, forms: seq<Form>, outs: seq<C.Out<V>>, strategies: seq<nat>)

  /** A program that type-checks command by command, given what was returned before. */
  predicate Typed<V(==)>(max: nat, m: C.Mem<V>, forms: seq<Form>, cmds: seq<Cmd<V>>)
    decreases |cmds|
  {
    cmds == []
    || (&& WellTyped(forms, cmds[0])
        && var (r, out) := PlainStep(max, m, cmds[0]);
           out == C.Aborted || Typed(max, r, Retype(forms, cmds[0], out), cmds[1..]))
  }

  function PlainRun<V(==)>(max: nat, m: C.Mem<V>, forms: seq<Form>, cmds: seq<Cmd<V>>): Outcome<V>
    requires Typed(max, m, forms, cmds)
    decreases |cmds|
  {
    if cmds == [] then Outcome(m, forms, [], [])
    else
      PlainGrows(max, m, cmds[0]);
      var (r, out) := PlainStep(max, m, cmds[0]);
      if out == C.Aborted then Outcome(m, forms, [out], [])
      else
        var rest := PlainRun(max, r, Retype(forms, cmds[0], out), cmds[1..]);
        rest.(outs := [out] + rest.outs, strategies := NewlyDisposed(m.cells, r.cells) + rest.strategies)
  }

  /** What a program forgets it never frees: whatever follows, in any representation, the cell is
      there with its tokens. */
  lemma {:induction false} PlainLeak<V>(max: nat, m: C.Mem<V>, forms: seq<Form>, cmds: seq<Cmd<V>>, h: nat)
    requires C.Good(m) && Typed(max, m, forms, cmds) && h < |m.slots| && m.slots[h].Leaked? && 0 < m.slots[h].tokens
    ensures var r := PlainRun(max, m, forms, cmds).mem; var c := m.slots[h].cell;
            && C.Good(r) && h < |r.slots| && r.slots[h] == m.slots[h]
            && c < |r.cells| && r.cells[c].end == C.Alive && m.slots[h].tokens <= r.cells[c].count
    decreases |cmds|
  {
    C.LeakIsForever(max, m, h, []);
    if cmds != [] {
      var (r, out) := PlainStep(max, m, cmds[0]);
      var op := PlainOp(m, cmds[0]);
      if op.Some? && C.Allowed(m, op.value) {
        C.StepKeeps(max, m, op.value);
        C.LeakStays(max, m, h, op.value);
      }
      if out != C.Aborted { PlainLeak(max, r, Retype(forms, cmds[0], out), cmds[1..], h); }
    }
  }

  /** So its block is in memory as long as the program runs. */
  lemma LeakedBlockStays<V>(g: Geometry, i: Image<V>, h: nat)
    requires Rel(g, i) && h < |i.mem.slots| && i.mem.slots[h].Leaked? && 0 < i.mem.slots[h].tokens
    ensures i.mem.slots[h].cell < |i.addr| && i.addr[i.mem.slots[h].cell] in i.inner
  {
    assert C.SlotOk(i.mem, h) && CellAt(g, i, i.mem.slots[h].cell);
  }

  // ---- Allocation ----

  ghost function Bound(s: set<nat>): (r: nat)
    ensures forall x | x in s :: x <= r
  {
    if s == {} then 0
    else
      var x :| x in s;
      assert forall y | y in s :: y == x || y in s - {x};
      Max(x, Bound(s - {x}))
  }

  /** However many blocks there are, another address is free and aligned. */
  lemma FreeAddress(s: set<nat>, a: nat)
    requires 0 < a
    ensures exists k: nat :: Times(a, k) !in s
  {
    var k := Bound(s) + 1;
    AtLeast(a, k);
    assert Times(a, k) !in s;
  }

  lemma {:induction false} AtLeast(a: nat, k: nat)
    requires 0 < a
    ensures k <= Times(a, k)
  {
    if k != 0 { AtLeast(a, k - 1); }
  }

  // ---- Following a run ----

  /** What is left of the run, from cells `m`, makes the rest of `run`. */
  predicate Ahead<V(==)>(max: nat, m: C.Mem<V>, forms: seq<Form>, cmds: seq<Cmd<V>>, run: Outcome<V>,
                         outs: seq<C.Out<V>>, before: seq<nat>, now: seq<nat>) {
    && Typed(max, m, forms, cmds)
    && var rest := PlainRun(max, m, forms, cmds);
       && run.mem == rest.mem && run.forms == rest.forms && run.outs == outs + rest.outs
       && before + run.strategies == now + rest.strategies
  }

  lemma AheadStep<V>(max: nat, m: C.Mem<V>, forms: seq<Form>, cmds: seq<Cmd<V>>, run: Outcome<V>,
                     outs: seq<C.Out<V>>, before: seq<nat>, now: seq<nat>)
    requires cmds != [] && Ahead(max, m, forms, cmds, run, outs, before, now)
    ensures var (r, out) := PlainStep(max, m, cmds[0]);
            && |m.cells| <= |r.cells|
            && (out == C.Aborted ==> run.outs == outs + [out] && before + run.strategies == now)
            && (out != C.Aborted ==>
                  Ahead(max, r, Retype(forms, cmds[0], out), cmds[1..], run, outs + [out], before,
                        now + NewlyDisposed(m.cells, r.cells)))
  {
    PlainGrows(max, m, cmds[0]);
    var (r, out) := PlainStep(max, m, cmds[0]);
    if out != C.Aborted {
      var rest := PlainRun(max, r, Retype(forms, cmds[0], out), cmds[1..]);
      Regroup(outs, [out], rest.outs);
      Regroup(now, NewlyDisposed(m.cells, r.cells), rest.strategies);
    }
  }

  lemma Regroup<X>(a: seq<X>, b: seq<X>, c: seq<X>)
    ensures a + (b + c) == (a + b) + c
  {
  }

  // ---- The program's memory, changed in place ----

  class Heap<V(==)> {
    const g: Geometry
    const max: nat
    var inner: map<nat, Inner<V>>
    var vars: seq<Rep>
    var disposals: seq<Disposal>
    ghost var mem: C.Mem<V>
    ghost var addr: seq<nat>
    ghost var ty: seq<Ty>
    ghost var ended: seq<nat>

    ghost function Picture(): Image<V>
      reads this
    {
      Image(inner, vars, disposals, mem, addr, ty, ended)
    }

    /** Memory, variables and log represent the cells and handles of `mem`. */
    ghost predicate Valid()
      reads this
    {
      Rel(g, Picture())
    }

    /** The heap now is what `op` makes of the cells that were, with the strategies that it runs, and
        `out` is its answer. */
    twostate predicate Performs(op: C.Op<V>, new out: C.Out<V>)
      reads this
    {
      && Valid()
      && C.Allowed(old(mem), op)
      && out != C.Aborted
      && (mem, out) == C.Step(max, old(mem), op)
      && Logs(old(Picture()), Picture())
    }

    /** `op` aborts; the process is gone. */
    twostate predicate Aborts(op: C.Op<V>)
      reads this
    {
      C.Allowed(old(mem), op) && C.Step(max, old(mem), op).1 == C.Aborted
    }

    /** Variable `h` takes another form; nothing else changes. */
    twostate predicate Converts(h: nat, rep: Rep)
      reads this
    {
      && Valid() && mem == old(mem) && inner == old(inner) && disposals == old(disposals) && ended == old(ended)
      && h < |old(vars)| && vars == old(vars)[h := rep]
    }

    /** Variable `h` is empty, its block has one handle fewer, and if that was the last it is gone and
        its strategy has run on it. */
    twostate predicate LetsGo(h: nat)
      reads this
    {
      && 0 < g.alignA && 0 < g.alignB && h < |old(vars)| && !old(vars)[h].Nothing?
      && var p := Block(g, old(vars)[h]);
         && p in old(inner) && 0 < old(inner)[p].count
         && vars == old(vars)[h := Nothing] && inner == Dropped(old(inner), p)
         && disposals == old(disposals) + Ran(old(inner), p, old(vars)[h].strategy)
    }

    /** A write through `h` in place, or in a new block of its own, one handle fewer on the old one. */
    twostate predicate Mutates(h: nat, w: V)
      reads this
    {
      && 0 < g.alignA && 0 < g.alignB && h < |old(vars)| && h < |vars|
      && var p := Block(g, old(vars)[h]); var q := Block(g, vars[h]);
         && p in old(inner)
         && if old(inner)[p].count == 1 then q == p && inner == Written(old(inner), p, w)
            else 0 < old(inner)[p].count && q !in old(inner) && inner == Dropped(old(inner), p)[q := Inner(1, w)]
    }

    constructor (g: Geometry, max: nat)
      requires IsGeometry(g)
      ensures Valid() && this.g == g && this.max == max && mem == C.Mem([], []) && vars == [] && disposals == []
    {
      this.g := g;
      this.max := max;
      inner := map[];
      vars := [];
      disposals := [];
      mem := C.Mem([], []);
      addr := [];
      ty := [];
      ended := [];
      new;
      forall c: nat ensures C.CellOk(mem, c) && CellAt(g, Picture(), c) {}
      forall x: nat ensures C.SlotOk(mem, x) && VarOk(g, Picture(), x) {}
      forall p: nat ensures BlockAt(inner, mem.cells, addr, p) {}
      forall k: nat ensures DisposalOf(mem.cells, addr, disposals, ended, k) && DisposedAt(mem.cells, ended, k) {}
    }

    // ---- On blocks: what `Arc` does through its pointer ----

    /** The allocator: any address that is free and aligned for the type. */
    method Allocate(t: Ty) returns (q: nat)
      requires IsGeometry(g)
      ensures Allocates(g, Picture(), q, t)
    {
      var a := Max(g.w, AlignOf(g, t));
      FreeAddress(inner.Keys, a);
      var k: nat :| Times(a, k) !in inner;
      q := Times(a, k);
    }

    /** `Arc::clone`: false is the abort. */
    method CloneAt(p: nat) returns (ok: bool)
      requires p in inner
      modifies this`inner
      ensures inner == Bumped(old(inner), p)
      ensures ok <==> old(inner)[p].count <= max
    {
      var prior := inner[p].count;
      inner := inner[p := inner[p].(count := prior + 1)];
      ok := prior <= max;
    }

    /** `Drop for Arc`. */
    method DropAt(p: nat, strategy: nat)
      requires p in inner && 0 < inner[p].count
      modifies this`inner, this`disposals
      ensures inner == Dropped(old(inner), p)
      ensures disposals == old(disposals) + Ran(old(inner), p, strategy)
    {
      var prior := inner[p].count;
      inner := inner[p := inner[p].(count := prior - 1)];
      if prior != 1 { return; }
      inner := inner - {p};
      disposals := disposals + [Disposal(p, strategy)];
    }

    /** `Arc::make_mut` and a write through it. */
    method MakeMutAt(p: nat, t: Ty, strategy: nat, w: V) returns (r: nat)
      requires IsGeometry(g) && p in inner && 0 < inner[p].count
      modifies this`inner, this`disposals
      ensures disposals == old(disposals)
      ensures old(inner)[p].count == 1 ==> r == p && inner == old(inner)[p := old(inner)[p].(data := w)]
      ensures old(inner)[p].count != 1 ==>
                && Allocates(g, old(Picture()), r, t)
                && inner == old(inner)[r := Inner(1, w)][p := old(inner)[p].(count := old(inner)[p].count - 1)]
    {
      r := p;
      if inner[p].count != 1 {
        r := Allocate(t);
        inner := inner[r := Inner(1, inner[p].data)];
        DropAt(p, strategy);
      }
      inner := inner[r := inner[r].(data := w)];
    }

    // ---- `Arc` ----

    method New(v: V, t: Ty, strategy: nat)
      requires Valid()
      modifies this
      ensures Performs(C.New(v, strategy), C.Done) && disposals == old(disposals)
      ensures |vars| == |old(vars)| + 1 && vars[|old(vars)|].ArcPtr? && vars[|old(vars)|].p !in old(inner)
      ensures vars == old(vars) + [ArcPtr(vars[|old(vars)|].p, t, strategy)]
      ensures inner == old(inner)[vars[|old(vars)|].p := Inner(1, v)]
    {
      ghost var i := Picture();
      var q := Allocate(t);
      inner := inner[q := Inner(1, v)];
      vars := vars + [ArcPtr(q, t, strategy)];
      mem := C.Step(max, mem, C.New(v, strategy)).0;
      addr := addr + [q];
      ty := ty + [t];
      NewKeeps(g, i, q, t, v, vars, mem.slots, |i.vars|);
    }

    method ArcClone(h: nat) returns (ok: bool)
      requires Valid() && h < |vars| && vars[h].ArcPtr?
      modifies this
      ensures var op := C.Clone(h, old(vars[h]).strategy); if ok then Performs(op, C.Done) else Aborts(op)
      ensures disposals == old(disposals)
      ensures ok ==> vars == old(vars) + [old(vars[h])]
      ensures Block(g, old(vars[h])) in old(inner) && (ok ==> inner == Bumped(old(inner), Block(g, old(vars[h]))))
    {
      ghost var i := Picture();
      BlockIsCell(g, i, h);
      assert VarOk(g, i, h);
      var ArcPtr(p, t, strategy) := vars[h];
      ok := CloneAt(p);
      if !ok { return; }
      vars := vars + [ArcPtr(p, t, strategy)];
      CloneKeeps(g, i, max, h, ArcPtr(p, t, strategy), strategy);
      mem := C.Step(max, mem, C.Clone(h, strategy)).0;
    }

    /** A `UniqueArc` drops the `Arc` in it. */
    method ArcDrop(h: nat)
      requires Valid() && h < |vars| && (vars[h].ArcPtr? || vars[h].UniquePtr?)
      modifies this
      ensures Performs(C.Drop(h), C.Done) && LetsGo(h)
    {
      ghost var i := Picture();
      BlockIsCell(g, i, h);
      ReleaseKeeps(g, i, h);
      var p, strategy := vars[h].p, vars[h].strategy;
      vars := vars[h := Nothing];
      DropAt(p, strategy);
      mem := C.Step(max, mem, C.Drop(h)).0;
      ended := Ended(i, h);
    }

    /** What `make_mut` and a write do to the cells, once the block has been changed. */
    ghost method FinishMakeMut(i: Image<V>, h: nat, w: V, q: nat, t: Ty)
      requires Rel(g, i) && h < |i.vars| && !i.vars[h].Nothing? && C.IsArc(i.mem, h)
      requires mem == i.mem && addr == i.addr && ty == i.ty && ended == i.ended && disposals == i.disposals && h < |vars|
      requires var p := Block(g, i.vars[h]);
               && p in i.inner && 0 < i.inner[p].count
               && if i.inner[p].count == 1 then inner == i.inner[p := i.inner[p].(data := w)] && vars == i.vars
                  else Allocates(g, i, q, t)
                       && inner == i.inner[q := Inner(1, w)][p := i.inner[p].(count := i.inner[p].count - 1)]
                       && vars == i.vars[h := vars[h]] && !vars[h].UniquePtr?
                       && Represents(g, i.(mem := C.Replace(i.mem, h, C.CellOf(i.mem, h).value), addr := i.addr + [q], ty := i.ty + [t]),
                                     vars[h], C.Arc(|i.mem.cells|, i.mem.slots[h].strategy))
      modifies this`mem, this`addr, this`ty
      ensures Valid() && C.Allowed(i.mem, C.MakeMut(h, w)) && mem == C.Step(max, i.mem, C.MakeMut(h, w)).0
      ensures Logs(i, Picture())
    {
      BlockIsCell(g, i, h);
      mem := C.Step(max, mem, C.MakeMut(h, w)).0;
      if C.CellOf(i.mem, h).count == 1 {
        WriteKeeps(g, i, h, w);
      } else {
        addr := addr + [q];
        ty := ty + [t];
        MakeMutKeeps(g, i, h, w, q, t, vars[h]);
        assert Picture() == Moved(g, i, h, w, q, t, vars[h]);
      }
    }

    /** In place, or the variable moves to a new block. */
    method ArcMakeMut(h: nat, w: V)
      requires Valid() && h < |vars| && vars[h].ArcPtr?
      modifies this
      ensures Performs(C.MakeMut(h, w), C.Done) && disposals == old(disposals)
      ensures h < |vars| && vars[h].ArcPtr? && vars == old(vars)[h := ArcPtr(vars[h].p, old(vars[h]).t, old(vars[h]).strategy)]
      ensures C.CellOf(old(mem), h).count == 1 ==> vars == old(vars)
      ensures Mutates(h, w)
    {
      ghost var i := Picture();
      BlockIsCell(g, i, h);
      assert VarOk(g, i, h) && C.CellOk(mem, mem.slots[h].cell);
      var ArcPtr(p, t, strategy) := vars[h];
      var r := MakeMutAt(p, t, strategy, w);
      vars := vars[h := ArcPtr(r, t, strategy)];
      FinishMakeMut(i, h, w, r, t);
    }

    method GetMut(h: nat, w: V) returns (ok: bool)
      requires Valid() && h < |vars| && vars[h].ArcPtr?
      modifies this
      ensures Performs(C.GetMut(h, w), C.Flag(ok)) && vars == old(vars) && disposals == old(disposals)
      ensures old(vars[h]).p in old(inner) && (ok <==> old(inner)[old(vars[h]).p].count == 1)
      ensures inner == if ok then Written(old(inner), old(vars[h]).p, w) else old(inner)
    {
      ghost var i := Picture();
      BlockIsCell(g, i, h);
      WriteKeeps(g, i, h, w);
      var p := vars[h].p;
      ok := inner[p].count == 1;
      if ok { inner := inner[p := inner[p].(data := w)]; }
      mem := C.Step(max, mem, C.GetMut(h, w)).0;
      OneDisposed(i.mem.cells, mem.cells, |mem.cells|);
    }

    method WithStrategy(h: nat, strategy: nat)
      requires Valid() && h < |vars| && vars[h].ArcPtr?
      modifies this
      ensures Performs(C.WithStrategy(h, strategy), C.Done) && inner == old(inner) && disposals == old(disposals)
      ensures vars == old(vars)[h := ArcPtr(old(vars[h]).p, old(vars[h]).t, strategy)]
    {
      ghost var i := Picture();
      BlockIsCell(g, i, h);
      StrategyKeeps(g, i, h, strategy);
      vars := vars[h := ArcPtr(vars[h].p, vars[h].t, strategy)];
      mem := C.Step(max, mem, C.WithStrategy(h, strategy)).0;
    }

    method Forget(h: nat)
      requires Valid() && h < |vars| && !vars[h].Nothing?
      modifies this
      ensures Performs(C.Forget(h), C.Done) && inner == old(inner) && disposals == old(disposals)
      ensures vars == old(vars)[h := Nothing]
    {
      ghost var i := Picture();
      BlockIsCell(g, i, h);
      ForgetKeeps(g, i, h);
      vars := vars[h := Nothing];
      mem := C.Step(max, mem, C.Forget(h)).0;
    }

    method Count(h: nat) returns (n: nat)
      requires Valid() && h < |vars| && !vars[h].Nothing?
      ensures C.Allowed(mem, C.Count(h)) && C.Step(max, mem, C.Count(h)) == (mem, C.Number(n))
      ensures Block(g, vars[h]) in inner && n == inner[Block(g, vars[h])].count
    {
      BlockIsCell(g, Picture(), h);
      var t, d := Borrow(h);
      n := inner[d - Offset(g, t)].count;
    }

    /** `try_unwrap`: `try_unique`, and `into_inner` if that succeeds. */
    method TryUnwrap(h: nat) returns (r: Option<V>)
      requires Valid() && h < |vars| && vars[h].ArcPtr?
      modifies this
      ensures Performs(C.TryUnwrap(h), if r.Some? then C.Got(r.value) else C.Flag(false))
      ensures disposals == old(disposals)
      ensures old(vars[h]).p in old(inner)
      ensures r == if old(inner)[old(vars[h]).p].count == 1 then Some(old(inner)[old(vars[h]).p].data) else None
      ensures if r.Some? then vars == old(vars)[h := Nothing] && inner == old(inner) - {old(vars[h]).p}
              else vars == old(vars) && inner == old(inner)
    {
      ghost var i := Picture();
      var ok := TryUnique(h);
      if !ok {
        BlockIsCell(g, i, h);
        OneDisposed(i.mem.cells, mem.cells, |mem.cells|);
        return None;
      }
      var v := IntoInner(h);
      r := Some(v);
    }

    /** `unwrap_or_clone`: the value itself, or a copy and one handle less. */
    method UnwrapOrClone(h: nat) returns (v: V)
      requires Valid() && h < |vars| && vars[h].ArcPtr?
      modifies this
      ensures Performs(C.UnwrapOrClone(h), C.Got(v)) && vars == old(vars)[h := Nothing] && disposals == old(disposals)
      ensures old(vars[h]).p in old(inner) && 0 < old(inner)[old(vars[h]).p].count
      ensures v == old(inner)[old(vars[h]).p].data && inner == Dropped(old(inner), old(vars[h]).p)
    {
      ghost var i := Picture();
      BlockIsCell(g, i, h);
      assert C.CellOk(mem, mem.slots[h].cell);
      var r := TryUnwrap(h);
      if r.Some? { return r.value; }
      v := Read(h);
      ArcDrop(h);
    }

    // ---- `UniqueArc` ----

    /** `try_unique` and `try_from`. */
    method TryUnique(h: nat) returns (ok: bool)
      requires Valid() && h < |vars| && vars[h].ArcPtr?
      modifies this`vars
      ensures C.IsArc(mem, h) && (ok <==> C.CellOf(mem, h).count == 1)
      ensures old(vars[h]).p in inner && (ok <==> inner[old(vars[h]).p].count == 1)
      ensures Converts(h, if ok then UniquePtr(old(vars[h]).p, old(vars[h]).t, old(vars[h]).strategy) else old(vars[h]))
    {
      ghost var i := Picture();
      BlockIsCell(g, i, h);
      assert VarOk(g, i, h);
      var ArcPtr(p, t, strategy) := vars[h];
      ok := inner[p].count == 1;
      if ok {
        ConvertKeeps(g, i, h, UniquePtr(p, t, strategy));
        vars := vars[h := UniquePtr(p, t, strategy)];
      }
    }

    method Shareable(h: nat)
      requires Valid() && h < |vars| && vars[h].UniquePtr?
      modifies this`vars
      ensures Converts(h, ArcPtr(old(vars[h]).p, old(vars[h]).t, old(vars[h]).strategy))
    {
      assert VarOk(g, Picture(), h);
      var UniquePtr(p, t, strategy) := vars[h];
      ConvertKeeps(g, Picture(), h, ArcPtr(p, t, strategy));
      vars := vars[h := ArcPtr(p, t, strategy)];
    }

    /** `deref_mut` never looks at the count, and writes exactly when `get_mut` would. */
    method UniqueWrite(h: nat, w: V)
      requires Valid() && h < |vars| && vars[h].UniquePtr?
      modifies this
      ensures Performs(C.GetMut(h, w), C.Flag(true)) && vars == old(vars) && disposals == old(disposals)
      ensures old(vars[h]).p in old(inner) && old(inner)[old(vars[h]).p].count == 1
      ensures inner == Written(old(inner), old(vars[h]).p, w)
    {
      ghost var i := Picture();
      BlockIsCell(g, i, h);
      assert VarOk(g, i, h);
      WriteKeeps(g, i, h, w);
      var p := vars[h].p;
      inner := inner[p := inner[p].(data := w)];
      mem := C.Step(max, mem, C.GetMut(h, w)).0;
    }

    /** The value leaves, the block is freed and no strategy runs. */
    method IntoInner(h: nat) returns (v: V)
      requires Valid() && h < |vars| && vars[h].UniquePtr?
      modifies this
      ensures Performs(C.TryUnwrap(h), C.Got(v)) && vars == old(vars)[h := Nothing]
      ensures old(vars[h]).p in old(inner) && v == old(inner)[old(vars[h]).p].data
      ensures inner == old(inner) - {old(vars[h]).p} && disposals == old(disposals)
    {
      ghost var i := Picture();
      BlockIsCell(g, i, h);
      assert VarOk(g, i, h);
      MoveOutKeeps(g, i, h);
      var p := vars[h].p;
      v := inner[p].data;
      inner := inner - {p};
      vars := vars[h := Nothing];
      mem := C.Step(max, mem, C.TryUnwrap(h)).0;
    }

    // ---- `OffsetArc` ----

    method IntoRawOffset(h: nat)
      requires Valid() && h < |vars| && vars[h].ArcPtr?
      modifies this`vars
      ensures Converts(h, OffsetPtr(old(vars[h]).p + Offset(g, old(vars[h]).t), old(vars[h]).t, old(vars[h]).strategy))
    {
      assert VarOk(g, Picture(), h);
      var ArcPtr(p, t, strategy) := vars[h];
      var d := p + Offset(g, t);
      ConvertKeeps(g, Picture(), h, OffsetPtr(d, t, strategy));
      vars := vars[h := OffsetPtr(d, t, strategy)];
    }

    method FromRawOffset(h: nat)
      requires Valid() && h < |vars| && vars[h].OffsetPtr?
      modifies this`vars
      ensures Converts(h, ArcPtr(Block(g, old(vars[h])), old(vars[h]).t, old(vars[h]).strategy))
      ensures Block(g, old(vars[h])) + Offset(g, old(vars[h]).t) == old(vars[h]).d
    {
      assert VarOk(g, Picture(), h);
      BlockIsCell(g, Picture(), h);
      var OffsetPtr(d, t, strategy) := vars[h];
      var p := d - Offset(g, t);
      ConvertKeeps(g, Picture(), h, ArcPtr(p, t, strategy));
      vars := vars[h := ArcPtr(p, t, strategy)];
    }

    /** `clone_arc` on a transient `Arc`, and back to an `OffsetArc`. */
    method OffsetClone(h: nat) returns (ok: bool)
      requires Valid() && h < |vars| && vars[h].OffsetPtr?
      modifies this
      ensures var op := C.Clone(h, old(vars[h]).strategy); if ok then Performs(op, C.Done) else Aborts(op)
      ensures disposals == old(disposals)
      ensures ok ==> vars == old(vars) + [old(vars[h])]
      ensures Block(g, old(vars[h])) in old(inner) && (ok ==> inner == Bumped(old(inner), Block(g, old(vars[h]))))
    {
      ghost var i := Picture();
      BlockIsCell(g, i, h);
      assert VarOk(g, i, h);
      var OffsetPtr(d, t, strategy) := vars[h];
      var p := d - Offset(g, t);
      ok := CloneAt(p);
      if !ok { return; }
      vars := vars + [OffsetPtr(p + Offset(g, t), t, strategy)];
      CloneKeeps(g, i, max, h, OffsetPtr(p + Offset(g, t), t, strategy), strategy);
      mem := C.Step(max, mem, C.Clone(h, strategy)).0;
    }

    method OffsetDrop(h: nat)
      requires Valid() && h < |vars| && vars[h].OffsetPtr?
      modifies this
      ensures Performs(C.Drop(h), C.Done) && LetsGo(h)
    {
      ghost var i := Picture();
      BlockIsCell(g, i, h);
      ReleaseKeeps(g, i, h);
      assert VarOk(g, i, h);
      var OffsetPtr(d, t, strategy) := vars[h];
      vars := vars[h := Nothing];
      DropAt(d - Offset(g, t), strategy);
      mem := C.Step(max, mem, C.Drop(h)).0;
      ended := Ended(i, h);
    }

    /** Read the pointer out, treat it as an `Arc`, and write the pointer back, moved or not. */
    method OffsetMakeMut(h: nat, w: V)
      requires Valid() && h < |vars| && vars[h].OffsetPtr?
      modifies this
      ensures Performs(C.MakeMut(h, w), C.Done) && disposals == old(disposals)
      ensures h < |vars| && vars[h].OffsetPtr? && vars == old(vars)[h := OffsetPtr(vars[h].d, old(vars[h]).t, old(vars[h]).strategy)]
      ensures C.CellOf(old(mem), h).count == 1 ==> vars == old(vars)
      ensures Mutates(h, w)
    {
      ghost var i := Picture();
      BlockIsCell(g, i, h);
      assert VarOk(g, i, h) && C.CellOk(mem, mem.slots[h].cell);
      var OffsetPtr(d, t, strategy) := vars[h];
      var p := d - Offset(g, t);
      var r := MakeMutAt(p, t, strategy, w);
      vars := vars[h := OffsetPtr(r + Offset(g, t), t, strategy)];
      FinishMakeMut(i, h, w, r, t);
    }

    // ---- `ArcBorrow` ----

    /** A pointer to the data, from any form that lends one. */
    method Borrow(h: nat) returns (t: Ty, d: nat)
      requires Valid() && h < |vars| && !vars[h].Nothing?
      ensures Block(g, vars[h]) + Offset(g, t) == d && C.IsArc(mem, h) && t == FormOf(vars[h]).ty
      ensures mem.slots[h].cell < |ty| && ty[mem.slots[h].cell] == t
    {
      BlockIsCell(g, Picture(), h);
      assert VarOk(g, Picture(), h);
      match vars[h]
      case ArcPtr(p, t0, _) => t, d := t0, p + Offset(g, t0);
      case UniquePtr(p, t0, _) => t, d := t0, p + Offset(g, t0);
      case OffsetPtr(d0, t0, _) => t, d := t0, d0;
      case UnionPtr(u, _) =>
        var b := BorrowUnion(u);
        t, d := b.0, b.1;
    }

    /** `clone_arc`: one more handle, an `Arc` with a strategy of the caller's choice. */
    method BorrowCloneArc(h: nat, strategy: nat) returns (ok: bool)
      requires Valid() && h < |vars| && !vars[h].Nothing? && !vars[h].UniquePtr?
      modifies this
      ensures var op := C.Clone(h, strategy); if ok then Performs(op, C.Done) else Aborts(op)
      ensures disposals == old(disposals)
      ensures ok ==> vars == old(vars) + [ArcPtr(Block(g, old(vars[h])), FormOf(old(vars[h])).ty, strategy)]
      ensures Block(g, old(vars[h])) in old(inner) && (ok ==> inner == Bumped(old(inner), Block(g, old(vars[h]))))
    {
      ghost var i := Picture();
      BlockIsCell(g, i, h);
      assert VarOk(g, i, h);
      var t, d := Borrow(h);
      var p := d - Offset(g, t);
      ok := CloneAt(p);
      if !ok { return; }
      vars := vars + [ArcPtr(p, t, strategy)];
      CloneKeeps(g, i, max, h, ArcPtr(p, t, strategy), strategy);
      mem := C.Step(max, mem, C.Clone(h, strategy)).0;
    }

    /** `Deref` of every form. */
    method Read(h: nat) returns (v: V)
      requires Valid() && h < |vars| && !vars[h].Nothing?
      ensures C.Allowed(mem, C.Read(h)) && C.Step(max, mem, C.Read(h)) == (mem, C.Got(v))
      ensures Block(g, vars[h]) in inner && v == inner[Block(g, vars[h])].data
    {
      BlockIsCell(g, Picture(), h);
      var t, d := Borrow(h);
      v := inner[d - Offset(g, t)].data;
    }

    // ---- `ArcUnion` ----

    method UnionFromFirst(h: nat)
      requires Valid() && h < |vars| && vars[h].ArcPtr? && vars[h].t == A
      modifies this`vars
      ensures Converts(h, UnionPtr(FromFirst(old(vars[h]).p + Offset(g, A)), old(vars[h]).strategy))
      ensures h < |vars| && FormOf(vars[h]) == Form(AsUnion, A, old(vars[h]).strategy)
    {
      var ArcPtr(p, t, strategy) := vars[h];
      TagKeeps(g, Picture(), h);
      var u := FromFirst(p + Offset(g, A));
      ConvertKeeps(g, Picture(), h, UnionPtr(u, strategy));
      vars := vars[h := UnionPtr(u, strategy)];
    }

    method UnionFromSecond(h: nat)
      requires Valid() && h < |vars| && vars[h].ArcPtr? && vars[h].t == B
      modifies this`vars
      ensures Converts(h, UnionPtr(FromSecond(old(vars[h]).p + Offset(g, B)), old(vars[h]).strategy))
      ensures h < |vars| && FormOf(vars[h]) == Form(AsUnion, B, old(vars[h]).strategy)
    {
      var ArcPtr(p, t, strategy) := vars[h];
      TagKeeps(g, Picture(), h);
      var u := FromSecond(p + Offset(g, B));
      ConvertKeeps(g, Picture(), h, UnionPtr(u, strategy));
      vars := vars[h := UnionPtr(u, strategy)];
    }

    /** `borrow`, `clone_arc`, and the tag again: the same tagged pointer. */
    method UnionClone(h: nat) returns (ok: bool)
      requires Valid() && h < |vars| && vars[h].UnionPtr?
      modifies this
      ensures var op := C.Clone(h, old(vars[h]).strategy); if ok then Performs(op, C.Done) else Aborts(op)
      ensures disposals == old(disposals)
      ensures ok ==> vars == old(vars) + [old(vars[h])]
      ensures Block(g, old(vars[h])) in old(inner) && (ok ==> inner == Bumped(old(inner), Block(g, old(vars[h]))))
    {
      var n := |vars|;
      var strategy := vars[h].strategy;
      var first := IsFirst(vars[h].u);
      UnionIsTagged(g, Picture(), h);
      ok := BorrowCloneArc(h, strategy);
      if !ok { return; }
      if first { UnionFromFirst(n); } else { UnionFromSecond(n); }
    }

    /** `borrow`, and an `Arc` made from the reference, which is dropped. */
    method UnionDrop(h: nat)
      requires Valid() && h < |vars| && vars[h].UnionPtr?
      modifies this
      ensures Performs(C.Drop(h), C.Done) && LetsGo(h)
    {
      ghost var i := Picture();
      BlockIsCell(g, i, h);
      ReleaseKeeps(g, i, h);
      var t, d := Borrow(h);
      var strategy := vars[h].strategy;
      vars := vars[h := Nothing];
      DropAt(d - Offset(g, t), strategy);
      mem := C.Step(max, mem, C.Drop(h)).0;
      ended := Ended(i, h);
    }

    /** `eq`: the same variant and equal data. */
    method UnionEq(h: nat, k: nat) returns (b: bool)
      requires Valid() && h < |vars| && k < |vars| && vars[h].UnionPtr? && vars[k].UnionPtr?
      ensures C.IsArc(mem, h) && C.IsArc(mem, k) && mem.slots[h].cell < |ty| && mem.slots[k].cell < |ty|
      ensures b <==> ty[mem.slots[h].cell] == ty[mem.slots[k].cell] && C.CellOf(mem, h).value == C.CellOf(mem, k).value
    {
      var t, d := Borrow(h);
      var u, e := Borrow(k);
      var x := Read(h);
      var y := Read(k);
      b := t == u && x == y;
    }

    // ---- Whole programs ----

    /** What a command does to the blocks in memory and answers, by the pointer in its variable. */
    twostate predicate Acts(cmd: Cmd<V>, new out: C.Out<V>)
      reads this
    {
      && 0 < g.alignA && 0 < g.alignB
      && (!cmd.Drop? ==> disposals == old(disposals))
      && if cmd.New? then
           && out == C.Done && |vars| == |old(vars)| + 1
           && var q := Block(g, vars[|old(vars)|]);
              q !in old(inner) && inner == old(inner)[q := Inner(1, cmd.v)]
         else
           && cmd.h < |old(vars)|
           && var p := Block(g, old(vars)[cmd.h]);
              && p in old(inner)
              && var (count, v) := (old(inner)[p].count, old(inner)[p].data);
                 if cmd.Clone? || cmd.CloneArc? then out == C.Done && inner == Bumped(old(inner), p)
                 else if cmd.Drop? then out == C.Done && LetsGo(cmd.h)
                 else if cmd.Read? then out == C.Got(v) && inner == old(inner)
                 else if cmd.Count? then out == C.Number(count) && inner == old(inner)
                 else if cmd.MakeMut? then out == C.Done && Mutates(cmd.h, cmd.w)
                 else if cmd.GetMut? then
                   out == C.Flag(count == 1) && inner == if count == 1 then Written(old(inner), p, cmd.w) else old(inner)
                 else if cmd.TryUnwrap? && count != 1 then out == C.Flag(false) && inner == old(inner)
                 else if cmd.UnwrapOrClone? then out == C.Got(v) && 0 < count && inner == Dropped(old(inner), p)
                 else if cmd.TryUnwrap? || cmd.IntoInner? then out == C.Got(v) && inner == old(inner) - {p}
                 else if cmd.TryUnique? then out == C.Flag(count == 1) && inner == old(inner)
                 else out == C.Done && inner == old(inner)
    }

    /** The command answers `out` as it does over plain `Arc`s and, unless it aborts, does what it should
        to the blocks, leaves the same cells, has run the same strategies, and gives the variables
        the types it should. */
    twostate predicate Does(cmd: Cmd<V>, new out: C.Out<V>)
      reads this
    {
      && WellTyped(Forms(old(vars)), cmd)
      && out == PlainStep(max, old(mem), cmd).1
      && (out == C.Aborted ==> disposals == old(disposals))
      && (out != C.Aborted ==>
            && Acts(cmd, out)
            && Valid() && mem == PlainStep(max, old(mem), cmd).0
            && Forms(vars) == Retype(Forms(old(vars)), cmd, out)
            && Logs(old(Picture()), Picture()))
    }

    method DoClone(cmd: Cmd<V>) returns (out: C.Out<V>)
      requires Valid() && WellTyped(Forms(vars), cmd) && (cmd.Clone? || cmd.CloneArc?)
      modifies this
      ensures Does(cmd, out)
    {
      var h := cmd.h;
      BlockIsCell(g, Picture(), h);
      assert VarOk(g, Picture(), h);
      var ok;
      if cmd.CloneArc? {
        ok := BorrowCloneArc(h, cmd.strategy);
      } else {
        match vars[h]
        case ArcPtr(_, _, _) => ok := ArcClone(h);
        case OffsetPtr(_, _, _) => ok := OffsetClone(h);
        case UnionPtr(_, _) => ok := UnionClone(h);
      }
      out := if ok then C.Done else C.Aborted;
    }

    method DoDrop(cmd: Cmd<V>) returns (out: C.Out<V>)
      requires Valid() && WellTyped(Forms(vars), cmd) && cmd.Drop?
      modifies this
      ensures Does(cmd, out)
    {
      var h := cmd.h;
      out := C.Done;
      match vars[h]
      case ArcPtr(_, _, _) => ArcDrop(h);
      case UniquePtr(_, _, _) => ArcDrop(h);
      case OffsetPtr(_, _, _) => OffsetDrop(h);
      case UnionPtr(_, _) => UnionDrop(h);
    }

    method DoUnwrap(cmd: Cmd<V>) returns (out: C.Out<V>)
      requires Valid() && WellTyped(Forms(vars), cmd) && (cmd.TryUnwrap? || cmd.UnwrapOrClone? || cmd.IntoInner?)
      modifies this
      ensures Does(cmd, out)
    {
      match cmd
      case TryUnwrap(h) =>
        var r := TryUnwrap(h);
        out := if r.Some? then C.Got(r.value) else C.Flag(false);
      case UnwrapOrClone(h) =>
        var v := UnwrapOrClone(h);
        out := C.Got(v);
      case IntoInner(h) =>
        var v := IntoInner(h);
        out := C.Got(v);
    }

    method DoLook(cmd: Cmd<V>) returns (out: C.Out<V>)
      requires Valid() && WellTyped(Forms(vars), cmd) && (cmd.Read? || cmd.Count?)
      ensures out == PlainStep(max, mem, cmd).1 && out != C.Aborted && PlainStep(max, mem, cmd).0 == mem
      ensures Logs(Picture(), Picture()) && Block(g, vars[cmd.h]) in inner
      ensures out == if cmd.Read? then C.Got(inner[Block(g, vars[cmd.h])].data) else C.Number(inner[Block(g, vars[cmd.h])].count)
    {
      OneDisposed(mem.cells, mem.cells, |mem.cells|);
      match cmd
      case Read(h) =>
        var v := Read(h);
        out := C.Got(v);
      case Count(h) =>
        var n := Count(h);
        out := C.Number(n);
    }

    method DoMutate(cmd: Cmd<V>) returns (out: C.Out<V>)
      requires Valid() && WellTyped(Forms(vars), cmd) && (cmd.MakeMut? || cmd.GetMut?)
      modifies this
      ensures Does(cmd, out)
    {
      match cmd
      case MakeMut(h, w) =>
        if vars[h].ArcPtr? { ArcMakeMut(h, w); } else { OffsetMakeMut(h, w); }
        out := C.Done;
      case GetMut(h, w) =>
        var ok := true;
        if vars[h].UniquePtr? { UniqueWrite(h, w); } else { ok := GetMut(h, w); }
        out := C.Flag(ok);
    }

    method DoTryUnique(cmd: Cmd<V>) returns (out: C.Out<V>)
      requires Valid() && WellTyped(Forms(vars), cmd) && cmd.TryUnique?
      modifies this`vars
      ensures Does(cmd, out)
    {
      BlockIsCell(g, Picture(), cmd.h);
      OneDisposed(mem.cells, mem.cells, |mem.cells|);
      var ok := TryUnique(cmd.h);
      out := C.Flag(ok);
    }

    method DoShareable(cmd: Cmd<V>) returns (out: C.Out<V>)
      requires Valid() && WellTyped(Forms(vars), cmd) && cmd.Shareable?
      modifies this`vars
      ensures Does(cmd, out)
    {
      BlockIsCell(g, Picture(), cmd.h);
      OneDisposed(mem.cells, mem.cells, |mem.cells|);
      Shareable(cmd.h);
      out := C.Done;
    }

    method DoOffset(cmd: Cmd<V>) returns (out: C.Out<V>)
      requires Valid() && WellTyped(Forms(vars), cmd) && (cmd.IntoRawOffset? || cmd.FromRawOffset?)
      modifies this`vars
      ensures Does(cmd, out)
    {
      BlockIsCell(g, Picture(), cmd.h);
      OneDisposed(mem.cells, mem.cells, |mem.cells|);
      out := C.Done;
      if cmd.IntoRawOffset? { IntoRawOffset(cmd.h); } else { FromRawOffset(cmd.h); }
    }

    method DoUnion(cmd: Cmd<V>) returns (out: C.Out<V>)
      requires Valid() && WellTyped(Forms(vars), cmd) && (cmd.FromFirstArc? || cmd.FromSecondArc?)
      modifies this`vars
      ensures Does(cmd, out)
    {
      BlockIsCell(g, Picture(), cmd.h);
      OneDisposed(mem.cells, mem.cells, |mem.cells|);
      out := C.Done;
      if cmd.FromFirstArc? { UnionFromFirst(cmd.h); } else { UnionFromSecond(cmd.h); }
    }

    method DoOther(cmd: Cmd<V>) returns (out: C.Out<V>)
      requires Valid() && WellTyped(Forms(vars), cmd) && (cmd.New? || cmd.Forget? || cmd.WithStrategy?)
      modifies this
      ensures Does(cmd, out)
    {
      out := C.Done;
      if cmd.New? {
        New(cmd.v, cmd.t, cmd.strategy);
      } else {
        BlockIsCell(g, Picture(), cmd.h);
        if cmd.Forget? { Forget(cmd.h); } else { WithStrategy(cmd.h, cmd.strategy); }
      }
    }

    /** One command, in whatever form its variable is. */
    method Do(cmd: Cmd<V>) returns (out: C.Out<V>)
      requires Valid() && WellTyped(Forms(vars), cmd)
      modifies this
      ensures Does(cmd, out)
    {
      if cmd.Clone? || cmd.CloneArc? {
        out := DoClone(cmd);
      } else if cmd.Drop? {
        out := DoDrop(cmd);
      } else if cmd.Read? || cmd.Count? {
        out := DoLook(cmd);
      } else if cmd.MakeMut? || cmd.GetMut? {
        out := DoMutate(cmd);
      } else if cmd.TryUnwrap? || cmd.UnwrapOrClone? || cmd.IntoInner? {
        out := DoUnwrap(cmd);
      } else if cmd.TryUnique? {
        out := DoTryUnique(cmd);
      } else if cmd.Shareable? {
        out := DoShareable(cmd);
      } else if cmd.IntoRawOffset? || cmd.FromRawOffset? {
        out := DoOffset(cmd);
      } else if cmd.FromFirstArc? || cmd.FromSecondArc? {
        out := DoUnion(cmd);
      } else {
        out := DoOther(cmd);
      }
    }

    /** A program that type-checks, over any mix of representations, runs to its end or to where it
        aborts over plain `Arc`s.  It returns the same and runs the same strategies in the same
        order; and unless it aborts it leaves the same counts and values, the variables in the forms
        the program gives them, no block but those of the cells that are left, and in its log each
        disposed cell's block once. */
    method Run(cmds: seq<Cmd<V>>) returns (outs: seq<C.Out<V>>, aborted: bool)
      requires Valid() && Typed(max, mem, Forms(vars), cmds)
      modifies this
      ensures var run := PlainRun(max, old(mem), Forms(old(vars)), cmds);
              && outs == run.outs
              && (aborted <==> outs != [] && outs[|outs| - 1] == C.Aborted)
              && Strategies(disposals) == Strategies(old(disposals)) + run.strategies
              && (!aborted ==> |outs| == |cmds| && Valid() && mem == run.mem && Forms(vars) == run.forms)
      ensures old(disposals) <= disposals
      ensures !aborted ==> Tidy(inner, mem.cells, addr) && Logged(mem.cells, addr, disposals, ended)
    {
      outs, aborted := [], false;
      ghost var run := PlainRun(max, mem, Forms(vars), cmds);
      ghost var before := Strategies(disposals);
      var i := 0;
      while i < |cmds|
        invariant i <= |cmds| && Valid() && |outs| == i && (outs != [] ==> outs[i - 1] != C.Aborted)
        invariant old(disposals) <= disposals
        invariant Ahead(max, mem, Forms(vars), cmds[i..], run, outs, before, Strategies(disposals))
      {
        AheadStep(max, mem, Forms(vars), cmds[i..], run, outs, before, Strategies(disposals));
        assert cmds[i..][1..] == cmds[i + 1..];
        assert cmds[i..][0] == cmds[i];
        var out := Do(cmds[i]);
        outs := outs + [out];
        if out == C.Aborted { return outs, true; }
        i := i + 1;
      }
    }
  }
}
