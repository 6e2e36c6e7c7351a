/** Sizes, alignments and offsets of `ArcInner`, as `core::alloc::Layout` computes them. */
module Layouts {

  datatype Option<T> = None | Some(value: T)

  // ---- Alignment ----

  function Pow2(k: nat): (r: nat)
    ensures 0 < r
  {
    if k == 0 then 1 else 2 * Pow2(k - 1)
  }

  ghost predicate IsPow2(a: nat) {
    exists k :: 0 <= k && a == Pow2(k)
  }

  ghost predicate Divides(a: nat, n: nat) {
    exists q: nat :: n == Times(a, q)
  }

  /** `q` copies of `a` added up. */
  function Times(a: nat, q: nat): nat {
    if q == 0 then 0 else Times(a, q - 1) + a
  }

  lemma {:induction false} TimesIs(a: nat, q: nat)
    ensures Times(a, q) == a * q
  {
    if q != 0 { TimesIs(a, q - 1); }
  }

  /** The smallest multiple of `a` that is not below `n`. */
  function RoundUp(n: nat, a: nat): nat {
    Times(a, Units(n, a))
  }

  /** How many times `a` must be added up to get to `n`. */
  function Units(n: nat, a: nat): nat {
    if n == 0 || a == 0 then 0 else if n <= a then 1 else Units(n - a, a) + 1
  }

  lemma {:induction false} RoundUpFits(n: nat, a: nat)
    requires 0 < a
    ensures n <= RoundUp(n, a) < n + a
    ensures Divides(a, RoundUp(n, a))
  {
    if a < n {
      RoundUpFits(n - a, a);
      assert RoundUp(n, a) == RoundUp(n - a, a) + a;
    } else {
      assert Times(a, 0) == 0 && Times(a, 1) == a;
    }
    assert RoundUp(n, a) == Times(a, Units(n, a));
  }

  lemma {:induction false} TimesAdd(a: nat, p: nat, q: nat)
    ensures Times(a, p + q) == Times(a, p) + Times(a, q)
  {
    if q != 0 { TimesAdd(a, p, q - 1); }
  }

  lemma {:induction false} TimesMore(a: nat, p: nat, q: nat)
    requires p < q
    ensures Times(a, p) + a <= Times(a, q)
  {
    TimesAdd(a, p, 1);
    TimesAdd(a, p + 1, q - p - 1);
    assert Times(a, 1) == a;
  }

  /** `Layout` computes it by division. */
  lemma RoundUpDivides(n: nat, a: nat)
    requires 0 < a
    ensures RoundUp(n, a) == (n + a - 1) / a * a
  {
    RoundUpFits(n, a);
    var q, k := Units(n, a), (n + a - 1) / a;
    assert n + a - 1 == k * a + (n + a - 1) % a;
    TimesIs(a, k);
    if k < q { TimesMore(a, k, q); }
    if q < k { TimesMore(a, q, k); }
  }

  lemma RoundUpLeast(n: nat, a: nat, m: nat)
    requires 0 < a && n <= m && Divides(a, m)
    ensures RoundUp(n, a) <= m
  {
    RoundUpFits(n, a);
    var q: nat :| m == Times(a, q);
    var k := Units(n, a);
    if q < k {
      TimesMore(a, q, k);
    } else {
      TimesAdd(a, k, q - k);
    }
  }

  /** A multiple of the alignment is left as it is. */
  lemma RoundUpExact(n: nat, a: nat)
    requires 0 < a && Divides(a, n)
    ensures RoundUp(n, a) == n
  {
    RoundUpFits(n, a);
    RoundUpLeast(n, a, n);
  }

  lemma DividesSum(a: nat, m: nat, n: nat)
    requires Divides(a, m) && Divides(a, n)
    ensures Divides(a, m + n)
  {
    var p: nat :| m == Times(a, p);
    var q: nat :| n == Times(a, q);
    TimesAdd(a, p, q);
  }

  lemma {:induction false} DividesTimes(a: nat, n: nat, k: nat)
    requires Divides(a, n)
    ensures Divides(a, Times(n, k))
  {
    if k == 0 {
      assert Times(a, 0) == 0;
    } else {
      DividesTimes(a, n, k - 1);
      DividesSum(a, Times(n, k - 1), n);
    }
  }

  lemma DividesTrans(a: nat, b: nat, n: nat)
    requires Divides(a, b) && Divides(b, n)
    ensures Divides(a, n)
  {
    var q: nat :| n == Times(b, q);
    DividesTimes(a, b, q);
  }

  lemma {:induction false} Pow2Divides(j: nat, k: nat)
    requires j <= k
    ensures Divides(Pow2(j), Pow2(k)) && Pow2(j) <= Pow2(k)
  {
    if j == k {
      assert Pow2(k) == Times(Pow2(j), 1);
    } else {
      Pow2Divides(j, k - 1);
      var q: nat :| Pow2(k - 1) == Times(Pow2(j), q);
      TimesAdd(Pow2(j), q, q);
      assert Pow2(k) == Times(Pow2(j), q + q);
    }
  }

  /** Of two alignments the smaller divides the larger. */
  lemma SmallerDivides(a: nat, b: nat)
    requires IsPow2(a) && IsPow2(b) && a <= b
    ensures 0 < a && Divides(a, b)
  {
    var j: nat :| a == Pow2(j);
    var k: nat :| b == Pow2(k);
    if k < j {
      Pow2Divides(k, j);
      assert a == b;
      assert b == Times(a, 1);
    } else {
      Pow2Divides(j, k);
    }
  }

  // ---- `core::alloc::Layout` ----

  datatype Layout = Layout(size: nat, align: nat)

  function Max(a: nat, b: nat): nat {
    if a < b then b else a
  }

  /** `Layout::from_size_align`: the padded size must not exceed `isize::MAX`. */
  function Checked(max: nat, l: Layout): Option<Layout> {
    if RoundUp(l.size, l.align) <= max then Some(l) else None
  }

  /** `Layout::extend`: `b` after `a`, with the offset of `b`. */
  function Extend(max: nat, a: Layout, b: Layout): Option<(Layout, nat)> {
    var offset := RoundUp(a.size, b.align);
    match Checked(max, Layout(offset + b.size, Max(a.align, b.align)))
    case None => None
    case Some(l) => Some((l, offset))
  }

  function PadToAlign(l: Layout): Layout {
    Layout(RoundUp(l.size, l.align), l.align)
  }

  /** `Layout::array`. */
  function ArrayOf(max: nat, t: Layout, len: nat): Option<Layout> {
    Checked(max, Layout(Times(t.size, len), t.align))
  }

  /** A Rust type: the alignment is a power of two and divides the size. */
  ghost predicate IsType(l: Layout) {
    IsPow2(l.align) && 0 < l.align && Divides(l.align, l.size)
  }

  /** `usize`, and with it `AtomicUsize` and `ArcInner<()>`: at least two bytes, aligned to its size. */
  ghost predicate IsWord(w: nat) {
    2 <= w && IsPow2(w)
  }

  // ---- What the code computes ----

  /** The layout `allocate_for_header_and_slice` passes on: a header and `len` items. */
  function HeaderSlice(max: nat, h: Layout, t: Layout, len: nat): Option<(Layout, nat)> {
    match ArrayOf(max, t, len)
    case None => None
    case Some(items) =>
      match Extend(max, h, items)
      case None => None
      case Some((l, offset)) => Some((PadToAlign(l), offset))
  }

  /** The layout `try_allocate_for_layout` allocates, with the offset of the data. */
  function ArcInner(max: nat, w: nat, value: Layout): Option<(Layout, nat)> {
    match Extend(max, Layout(w, w), value)
    case None => None
    case Some((l, offset)) => Some((PadToAlign(l), offset))
  }

  /** `offset_of!(ArcInner<T>, data)` in a `repr(C)` struct of a word and a `T`. */
  function DataOffset(w: nat, align: nat): nat {
    RoundUp(w, align)
  }

  // ---- The layout the language gives to a `repr(C)` struct ----

  /** The end of the fields laid out one after the other from `at`. */
  function FieldsEnd(fields: seq<Layout>, at: nat): nat {
    if fields == [] then at else FieldsEnd(fields[1..], RoundUp(at, fields[0].align) + fields[0].size)
  }

  function MaxAlign(fields: seq<Layout>): (r: nat)
    ensures 1 <= r
  {
    if fields == [] then 1 else Max(fields[0].align, MaxAlign(fields[1..]))
  }

  function ReprC(fields: seq<Layout>): Layout {
    Layout(RoundUp(FieldsEnd(fields, 0), MaxAlign(fields)), MaxAlign(fields))
  }

  lemma TwoFields(a: Layout, b: Layout)
    requires 0 < a.align && 0 < b.align
    ensures ReprC([a, b]) == PadToAlign(Layout(RoundUp(a.size, b.align) + b.size, Max(a.align, b.align)))
  {
    assert [a, b][1..] == [b] && [b][1..] == [];
    assert Times(a.align, 0) == 0;
    RoundUpExact(0, a.align);
    assert FieldsEnd([a, b], 0) == FieldsEnd([b], a.size);
    assert FieldsEnd([b], a.size) == FieldsEnd([], RoundUp(a.size, b.align) + b.size);
    assert MaxAlign([a, b]) == Max(a.align, MaxAlign([b])) && MaxAlign([b]) == Max(b.align, MaxAlign([]));
  }

  /** What is allocated has the layout of `ArcInner<HeaderSlice<H, [T]>>`. */
  lemma {:induction false} AllocatesReprC(max: nat, w: nat, h: Layout, t: Layout, len: nat)
    requires IsWord(w) && IsType(h) && IsType(t)
    requires HeaderSlice(max, h, t, len).Some? && ArcInner(max, w, HeaderSlice(max, h, t, len).value.0).Some?
    ensures ArcInner(max, w, HeaderSlice(max, h, t, len).value.0).value.0
         == ReprC([Layout(w, w), ReprC([h, Layout(Times(t.size, len), t.align)])])
  {
    TwoFields(h, Layout(Times(t.size, len), t.align));
    TwoFields(Layout(w, w), HeaderSlice(max, h, t, len).value.0);
  }

  /** The size the language gives to `ArcInner<HeaderSlice<H, [T]>>` with `len` items. */
  function AllocationSize(w: nat, h: Layout, t: Layout, len: nat): nat {
    ReprC([Layout(w, w), ReprC([h, Layout(Times(t.size, len), t.align)])]).size
  }

  lemma ExtendFits(max: nat, a: Layout, b: Layout)
    requires 0 < a.align && 0 < b.align
    ensures var l := Layout(RoundUp(a.size, b.align) + b.size, Max(a.align, b.align));
            && (Extend(max, a, b).Some? <==> ReprC([a, b]).size <= max)
            && (Extend(max, a, b).Some? ==> PadToAlign(Extend(max, a, b).value.0) == ReprC([a, b]))
            && b.size <= ReprC([a, b]).size
  {
    TwoFields(a, b);
    RoundUpFits(RoundUp(a.size, b.align) + b.size, Max(a.align, b.align));
  }

  /** The computations succeed exactly if the whole allocation, with its padding, is at most
      `isize::MAX` bytes. */
  lemma LayoutsFit(max: nat, w: nat, h: Layout, t: Layout, len: nat)
    requires IsWord(w) && IsType(h) && IsType(t)
    ensures HeaderSlice(max, h, t, len).Some? && ArcInner(max, w, HeaderSlice(max, h, t, len).value.0).Some?
       <==> AllocationSize(w, h, t, len) <= max
  {
    var items := Layout(Times(t.size, len), t.align);
    DividesTimes(t.align, t.size, len);
    RoundUpExact(items.size, t.align);
    ExtendFits(max, h, items);
    ExtendFits(max, Layout(w, w), ReprC([h, items]));
  }

  // ---- Everything has its place ----

  /** Bytes `[a, a + m)` and `[b, b + n)` have none in common. */
  predicate Apart(a: nat, m: nat, b: nat, n: nat) {
    a + m <= b || b + n <= a
  }

  /** Where item `i` of the slice is in the allocation. */
  function ItemAt(data: nat, slice: nat, t: Layout, i: nat): nat {
    data + slice + Times(t.size, i)
  }

  /** In an allocation at `p` the count, the header and the items are aligned, in bounds and apart. */
  ghost predicate Placed(p: nat, w: nat, l: Layout, data: nat, slice: nat, h: Layout, t: Layout, len: nat) {
    && Divides(w, p)
    && Divides(h.align, p + data) && w <= data
    && data + h.size <= l.size
    && (forall i: nat :: PlacedItem(p, w, l, data, slice, h, t, len, i))
    && (forall i: nat, j: nat :: i < j < len ==> Apart(ItemAt(data, slice, t, i), t.size, ItemAt(data, slice, t, j), t.size))
  }

  ghost predicate PlacedItem(p: nat, w: nat, l: Layout, data: nat, slice: nat, h: Layout, t: Layout, len: nat, i: nat) {
    i < len ==>
      && Divides(t.align, p + ItemAt(data, slice, t, i))
      && data + h.size <= ItemAt(data, slice, t, i)
      && ItemAt(data, slice, t, i) + t.size <= l.size
  }

  lemma ItemsApart(data: nat, slice: nat, t: Layout, i: nat, j: nat)
    requires i < j
    ensures Apart(ItemAt(data, slice, t, i), t.size, ItemAt(data, slice, t, j), t.size)
  {
    TimesMore(t.size, i, j);
  }

  lemma MaxOfAligns(a: nat, b: nat)
    requires IsPow2(a) && IsPow2(b) && 0 < a && 0 < b
    ensures IsPow2(Max(a, b)) && Divides(a, Max(a, b)) && Divides(b, Max(a, b))
  {
    if a <= b { SmallerDivides(a, b); SmallerDivides(b, b); } else { SmallerDivides(b, a); SmallerDivides(a, a); }
  }

  /** What `extend` and `pad_to_align` promise: `b` starts aligned, after `a`, and ends in time. */
  lemma ExtendBounds(max: nat, a: Layout, b: Layout)
    requires 0 < a.align && 0 < b.align && Extend(max, a, b).Some?
    ensures var (l, offset) := Extend(max, a, b).value;
            && a.size <= offset && Divides(b.align, offset) && l.align == Max(a.align, b.align)
            && offset + b.size <= PadToAlign(l).size <= max && PadToAlign(l).align == l.align
  {
    var (l, offset) := Extend(max, a, b).value;
    RoundUpFits(a.size, b.align);
    RoundUpFits(l.size, l.align);
  }

  /** The offsets and ends of the nested layouts. */
  lemma {:induction false} LayoutBounds(max: nat, w: nat, h: Layout, t: Layout, len: nat)
    requires IsWord(w) && IsType(h) && IsType(t)
    requires HeaderSlice(max, h, t, len).Some? && ArcInner(max, w, HeaderSlice(max, h, t, len).value.0).Some?
    ensures var (value, slice) := HeaderSlice(max, h, t, len).value;
            var (l, data) := ArcInner(max, w, value).value;
            && h.size <= slice && slice + Times(t.size, len) <= value.size && w <= data && data + value.size <= l.size <= max
            && value.align == Max(h.align, t.align) && l.align == Max(w, value.align)
            && Divides(t.align, slice) && Divides(value.align, data)
  {
    ExtendBounds(max, h, ArrayOf(max, t, len).value);
    ExtendBounds(max, Layout(w, w), HeaderSlice(max, h, t, len).value.0);
  }

  /** The start of the data and of the slice are aligned for what is stored there. */
  lemma LayoutAligns(w: nat, h: Layout, t: Layout, p: nat, data: nat, slice: nat)
    requires IsWord(w) && IsType(h) && IsType(t)
    requires Divides(Max(w, Max(h.align, t.align)), p) && Divides(Max(h.align, t.align), data) && Divides(t.align, slice)
    ensures Divides(w, p) && Divides(h.align, p + data) && Divides(t.align, p + data + slice)
  {
    var a := Max(h.align, t.align);
    MaxOfAligns(h.align, t.align);
    MaxOfAligns(w, a);
    DividesTrans(w, Max(w, a), p);
    DividesTrans(a, Max(w, a), p);
    DividesSum(a, p, data);
    DividesTrans(h.align, a, p + data);
    DividesTrans(t.align, a, p + data);
    DividesSum(t.align, p + data, slice);
  }

  lemma {:induction false} ItemPlaced(p: nat, data: nat, slice: nat, t: Layout, len: nat, i: nat)
    requires Divides(t.align, p + data + slice) && Divides(t.align, t.size) && i < len
    ensures Divides(t.align, p + ItemAt(data, slice, t, i))
    ensures data + slice <= ItemAt(data, slice, t, i) && ItemAt(data, slice, t, i) + t.size <= data + slice + Times(t.size, len)
  {
    DividesTimes(t.align, t.size, i);
    DividesSum(t.align, p + data + slice, Times(t.size, i));
    TimesMore(t.size, i, len);
  }

  /** For every word, header, item type and length whose layouts are computed without overflow. */
  lemma LayoutPlaces(max: nat, w: nat, h: Layout, t: Layout, len: nat, p: nat)
    requires IsWord(w) && IsType(h) && IsType(t)
    requires HeaderSlice(max, h, t, len).Some? && ArcInner(max, w, HeaderSlice(max, h, t, len).value.0).Some?
    requires Divides(ArcInner(max, w, HeaderSlice(max, h, t, len).value.0).value.0.align, p)
    ensures var (value, slice) := HeaderSlice(max, h, t, len).value;
            var (l, data) := ArcInner(max, w, value).value;
            Placed(p, w, l, data, slice, h, t, len) && l.size <= max
  {
    var (value, slice) := HeaderSlice(max, h, t, len).value;
    var (l, data) := ArcInner(max, w, value).value;
    LayoutBounds(max, w, h, t, len);
    LayoutAligns(w, h, t, p, data, slice);
    forall i: nat ensures PlacedItem(p, w, l, data, slice, h, t, len, i) {
      if i < len { ItemPlaced(p, data, slice, t, len, i); }
    }
    forall i: nat, j: nat | i < j < len
      ensures Apart(ItemAt(data, slice, t, i), t.size, ItemAt(data, slice, t, j), t.size)
    {
      ItemsApart(data, slice, t, i, j);
    }
  }

  // ---- Offsets on which the pointer conversions rest ----

  /** `HeaderSlice<(), [T]>` is laid out like `[T]`, and the items are where `offset_of!` puts a
      single `T`, for every length, so the header conversions and `from_raw_slice` are sound. */
  lemma UnitHeaderIsSlice(max: nat, w: nat, t: Layout, len: nat)
    requires IsWord(w) && IsType(t) && ArrayOf(max, t, len).Some?
    ensures HeaderSlice(max, Layout(0, 1), t, len) == Some((ArrayOf(max, t, len).value, 0))
    ensures ArcInner(max, w, ArrayOf(max, t, len).value).Some? ==>
              ArcInner(max, w, ArrayOf(max, t, len).value).value.1 == DataOffset(w, t.align)
  {
    var items := ArrayOf(max, t, len).value;
    assert Times(t.align, 0) == 0;
    RoundUpExact(0, t.align);
    DividesTimes(t.align, t.size, len);
    RoundUpExact(items.size, t.align);
  }

  /** A pointer to a slice carries the length. */
  datatype Fat = Fat(at: nat, len: nat)

  /** `into_raw` of an `Arc<[T]>` whose allocation starts at `arc.at`. */
  function IntoRaw(max: nat, w: nat, t: Layout, arc: Fat): Option<Fat> {
    match ArrayOf(max, t, arc.len)
    case None => None
    case Some(items) =>
      match ArcInner(max, w, items)
      case None => None
      case Some((_, data)) => Some(Fat(arc.at + data, arc.len))
  }

  /** `from_raw_slice`, which subtracts the offset of a single `T`. */
  function FromRawSlice(w: nat, t: Layout, raw: Fat): Option<Fat> {
    if raw.at < DataOffset(w, t.align) then None else Some(Fat(raw.at - DataOffset(w, t.align), raw.len))
  }

  /** Start and length come back, for every alignment and length including 0, and the raw pointer
      is aligned for the items, which are in the allocation. */
  lemma RawSliceRoundTrip(max: nat, w: nat, t: Layout, arc: Fat)
    requires IsWord(w) && IsType(t) && IntoRaw(max, w, t, arc).Some?
    requires Divides(Max(w, t.align), arc.at)
    ensures var raw := IntoRaw(max, w, t, arc).value;
            && FromRawSlice(w, t, raw) == Some(arc)
            && Divides(t.align, raw.at) && arc.at + w <= raw.at
            && raw.at + Times(t.size, arc.len) <= arc.at + ArcInner(max, w, ArrayOf(max, t, arc.len).value).value.0.size
  {
    var (l, data) := ArcInner(max, w, ArrayOf(max, t, arc.len).value).value;
    RoundUpFits(w, t.align);
    RoundUpFits(data + Times(t.size, arc.len), l.align);
    MaxOfAligns(w, t.align);
    DividesTrans(t.align, Max(w, t.align), arc.at);
    DividesSum(t.align, arc.at, data);
  }

  lemma WordIsEven(w: nat)
    requires IsWord(w)
    ensures Divides(2, w)
  {
    assert Pow2(1) == 2;
    SmallerDivides(2, w);
  }

  lemma EvenNumber(n: nat)
    requires Divides(2, n)
    ensures n % 2 == 0
  {
    var q: nat :| n == Times(2, q);
    TimesIs(2, q);
  }

  /** The offset of the data of any type is a multiple of the word and not zero. */
  lemma DataAfterWord(w: nat, align: nat)
    requires IsWord(w) && IsPow2(align) && 0 < align
    ensures w <= DataOffset(w, align) && Divides(w, DataOffset(w, align))
  {
    RoundUpFits(w, align);
    if align <= w {
      SmallerDivides(align, w);
      RoundUpExact(w, align);
      assert w == Times(w, 1);
    } else {
      SmallerDivides(w, align);
      DividesTrans(w, align, DataOffset(w, align));
    }
  }

  /** The data of any type starts at an even address, because a word comes first. */
  lemma DataIsEven(w: nat, align: nat, p: nat)
    requires IsWord(w) && IsPow2(align) && 0 < align && Divides(Max(w, align), p)
    ensures (p + DataOffset(w, align)) % 2 == 0
  {
    MaxOfAligns(w, align);
    DividesTrans(w, Max(w, align), p);
    DataAfterWord(w, align);
    DividesSum(w, p, DataOffset(w, align));
    WordIsEven(w);
    DividesTrans(2, w, p + DataOffset(w, align));
    EvenNumber(p + DataOffset(w, align));
  }
}
