/** The constructors that fill a fresh allocation: from an iterator, a slice or a `Vec`. */
module Constructors {
  import opened Layouts

  /** The types involved, as sizes and alignments; `w` is the word and `max` is `isize::MAX`. */
  datatype Types = Types(w: nat, max: nat, header: Layout, item: Layout)

  ghost predicate Sane(y: Types) {
    IsWord(y.w) && IsType(y.header) && IsType(y.item)
  }

  /** Whether the layout computations for `len` items succeed. */
  predicate Computes(y: Types, len: nat) {
    match HeaderSlice(y.max, y.header, y.item, len)
    case None => false
    case Some((l, _)) => ArcInner(y.max, y.w, l).Some?
  }

  /** Count, header, `len` items and all padding together are at most `isize::MAX` bytes. */
  ghost predicate Allocatable(y: Types, len: nat) {
    AllocationSize(y.w, y.header, y.item, len) <= y.max
  }

  lemma ComputesIfAllocatable(y: Types, len: nat)
    requires Sane(y)
    ensures Computes(y, len) <==> Allocatable(y, len)
  {
    LayoutsFit(y.max, y.w, y.header, y.item, len);
  }

  /** Uninitialised memory is `None`. */
  class Block<H, T> {
    var count: nat
    var header: Option<H>
    var slice: array<Option<T>>

    /** `allocate_for_header_and_slice`: the count is written, the rest is not. */
    constructor (len: nat)
      ensures count == 1 && header == None && fresh(slice) && slice.Length == len
      ensures forall i | 0 <= i < len :: slice[i] == None
    {
      count := 1;
      header := None;
      slice := new Option<T>[len](_ => None);
    }

    /** Fully initialised, with these contents. */
    ghost predicate Holds(h: H, items: seq<T>)
      reads this, slice
    {
      count == 1 && header == Some(h) && slice.Length == |items|
      && forall i | 0 <= i < |items| :: slice[i] == Some(items[i])
    }
  }

  datatype Panic = ZeroSized | Capacity | OverReported | UnderReported

  datatype Made<H, T> = Panicked(why: Panic) | Made(block: Block<H, T>)

  // ---- Iterators ----

  /** Any iterator: the answers to successive calls of `next`, `None` from some point on. */
  class Items<T> {
    const script: seq<Option<T>>
    var pos: nat

    constructor (script: seq<Option<T>>)
      ensures this.script == script && pos == 0
    {
      this.script := script;
      pos := 0;
    }

    method Next() returns (r: Option<T>)
      modifies this`pos
      ensures r == Answer(script, old(pos)) && pos == old(pos) + 1
    {
      r := if pos < |script| then script[pos] else None;
      pos := pos + 1;
    }
  }

  function Answer<T>(script: seq<Option<T>>, i: nat): Option<T> {
    if i < |script| then script[i] else None
  }

  /** The items before the first `None`. */
  function Yielded<T>(script: seq<Option<T>>): (r: seq<T>)
    ensures |r| <= |script|
    ensures forall i | 0 <= i < |r| :: Answer(script, i) == Some(r[i])
    ensures Answer(script, |r|) == None
  {
    if script == [] || script[0].None? then []
    else
      var rest := Yielded(script[1..]);
      assert forall i | 0 < i :: Answer(script, i) == Answer(script[1..], i - 1);
      [script[0].value] + rest
  }

  lemma {:induction false} YieldedExactly<T>(script: seq<Option<T>>, n: nat)
    requires forall i | 0 <= i < n :: Answer(script, i).Some?
    requires Answer(script, n).None?
    ensures |Yielded(script)| == n
  {
    var end := Answer(script, |Yielded(script)|);
    var answer := Answer(script, n);
  }

  /** Items that are not zero-sized, room for `n`, and an iterator that keeps the promise of
      `ExactSizeIterator` as far as it is asked: `n` items and then `None`, twice unless there are
      no items. */
  ghost predicate ExactReturns<T>(y: Types, script: seq<Option<T>>, n: nat) {
    y.item.size != 0 && Allocatable(y, n) && |Yielded(script)| == n && (n != 0 ==> Answer(script, n + 1).None?)
  }

  // ---- The constructors ----

  /** `from_header_and_iter`, where `len` is what `items.len()` reports. */
  method FromHeaderAndIter<H, T>(y: Types, header: H, items: Items<T>, len: nat) returns (r: Made<H, T>)
    requires Sane(y) && items.pos == 0
    modifies items
    ensures r.Made? <==> ExactReturns(y, items.script, len)
    ensures r.Made? ==> fresh(r.block) && fresh(r.block.slice) && r.block.Holds(header, Yielded(items.script))
    ensures r == Panicked(ZeroSized) <==> y.item.size == 0
    ensures r == Panicked(Capacity) <==> y.item.size != 0 && !Allocatable(y, len)
    ensures r == Panicked(OverReported) <==> y.item.size != 0 && Allocatable(y, len) && |Yielded(items.script)| < len
  {
    if y.item.size == 0 { return Panicked(ZeroSized); }
    ComputesIfAllocatable(y, len);
    if !Computes(y, len) { return Panicked(Capacity); }
    ghost var script := items.script;
    var block := new Block<H, T>(len);
    block.header := Some(header);
    if len != 0 {
      for current := 0 to len
        invariant items.pos == current && block.count == 1 && block.header == Some(header)
        invariant fresh(block) && fresh(block.slice) && block.slice.Length == len
        invariant forall i | 0 <= i < current :: Answer(script, i).Some? && block.slice[i] == Answer(script, i)
      {
        var item := items.Next();
        if item.None? {
          YieldedExactly(script, current);
          return Panicked(OverReported);
        }
        block.slice[current] := item;
      }
      var extra := items.Next();
      if extra.Some? {
        assert |Yielded(script)| > len by { TooMany(script, len); }
        return Panicked(UnderReported);
      }
      YieldedExactly(script, len);
    }
    var last := items.Next();
    if last.Some? { return Panicked(UnderReported); }
    YieldedExactly(script, len);
    r := Made(block);
  }

  lemma {:induction false} TooMany<T>(script: seq<Option<T>>, n: nat)
    requires forall i | 0 <= i <= n :: Answer(script, i).Some?
    ensures n < |Yielded(script)|
  {
    var end := Answer(script, |Yielded(script)|);
  }

  /** `from_header_and_slice`. */
  method FromHeaderAndSlice<H, T>(y: Types, header: H, items: seq<T>) returns (r: Made<H, T>)
    requires Sane(y)
    ensures r.Made? <==> y.item.size != 0 && Allocatable(y, |items|)
    ensures r.Made? ==> fresh(r.block) && r.block.Holds(header, items)
  {
    if y.item.size == 0 { return Panicked(ZeroSized); }
    ComputesIfAllocatable(y, |items|);
    if !Computes(y, |items|) { return Panicked(Capacity); }
    var block := new Block<H, T>(|items|);
    block.header := Some(header);
    CopyTo(items, block.slice);
    r := Made(block);
  }

  /** `copy_nonoverlapping`. */
  method CopyTo<T>(items: seq<T>, dst: array<Option<T>>)
    requires dst.Length == |items|
    modifies dst
    ensures forall i | 0 <= i < |items| :: dst[i] == Some(items[i])
  {
    forall i | 0 <= i < |items| {
      dst[i] := Some(items[i]);
    }
  }

  /** A `Vec` drops what is below its length. */
  class Vector<T> {
    var items: seq<T>

    constructor ()
      ensures items == []
    {
      items := [];
    }

    method Push(x: T)
      modifies this
      ensures items == old(items) + [x]
    {
      items := items + [x];
    }

    method SetLenToZero()
      modifies this
      ensures items == []
    {
      items := [];
    }
  }

  /** `from_header_and_vec`: the items move, the vector keeps none to drop.  A zero-sized item type
      is allowed here. */
  method FromHeaderAndVec<H, T>(y: Types, header: H, v: Vector<T>) returns (r: Made<H, T>)
    requires Sane(y)
    modifies v
    ensures r.Made? <==> Allocatable(y, |old(v.items)|)
    ensures r.Made? ==> fresh(r.block) && fresh(r.block.slice) && r.block.Holds(header, old(v.items)) && v.items == []
    ensures r.Panicked? ==> v.items == old(v.items)
  {
    ComputesIfAllocatable(y, |v.items|);
    if !Computes(y, |v.items|) { return Panicked(Capacity); }
    var block := new Block<H, T>(|v.items|);
    block.header := Some(header);
    CopyTo(v.items, block.slice);
    v.SetLenToZero();
    r := Made(block);
  }

  // ---- `UniqueArc::from_iter` ----

  /** `collect::<Vec<_>>`: until the first `None`. */
  method Collect<T>(items: Items<T>) returns (v: Vector<T>)
    requires items.pos == 0
    modifies items
    ensures fresh(v) && v.items == Yielded(items.script)
  {
    v := new Vector();
    ghost var script := items.script;
    var item := items.Next();
    while item.Some?
      invariant 0 < items.pos && item == Answer(script, items.pos - 1) && fresh(v)
      invariant |v.items| == items.pos - 1
      invariant forall i | 0 <= i < |v.items| :: Answer(script, i) == Some(v.items[i])
      decreases |script| + 1 - items.pos
    {
      v.Push(item.value);
      item := items.Next();
    }
    YieldedExactly(script, |v.items|);
  }

  datatype SizeHint = SizeHint(lower: nat, upper: Option<nat>)

  predicate IsExact(hint: SizeHint) {
    Some(hint.lower) == hint.upper
  }

  /** The hint bounds what the iterator yields. */
  predicate IsTruthful<T>(hint: SizeHint, script: seq<Option<T>>) {
    hint.lower <= |Yielded(script)| && (hint.upper.Some? ==> |Yielded(script)| <= hint.upper.value)
  }

  /** `IteratorAsExactSizeIterator::len`. */
  function Len(hint: SizeHint): nat {
    hint.lower
  }

  /** Whether the path through a vector returns. */
  ghost predicate VectorReturns<T>(y: Types, script: seq<Option<T>>) {
    Allocatable(y, |Yielded(script)|)
  }

  /** `from_iter`, through an exact size or through a vector.  Whatever it returns holds exactly the
      items the iterator yields before its first `None`. */
  method FromIter<T>(y: Types, items: Items<T>, hint: SizeHint) returns (r: Made<(), T>)
    requires Sane(y) && items.pos == 0
    modifies items
    ensures r.Made? ==> fresh(r.block) && r.block.Holds((), Yielded(items.script))
    ensures hint.upper == Some(hint.lower) ==> (r.Made? <==> ExactReturns(y, items.script, hint.lower))
    ensures hint.upper != Some(hint.lower) ==> (r.Made? <==> VectorReturns(y, items.script))
    ensures hint.upper == Some(hint.lower) && |Yielded(items.script)| != hint.lower ==> r.Panicked?
  {
    if IsExact(hint) {
      r := FromHeaderAndIter(y, (), items, Len(hint));
    } else {
      var v := Collect(items);
      r := FromHeaderAndVec(y, (), v);
    }
  }

  /** An iterator answers `None` again, the one time that the exact-size path asks again. */
  predicate StaysDone<T>(script: seq<Option<T>>) {
    Yielded(script) == [] || Answer(script, |Yielded(script)| + 1).None?
  }

  /** Whatever the iterator, the exact-size path returns if and only if the path through a vector
      does, the hint is truthful, items are not zero-sized and the iterator stays done. */
  lemma PathsAgree<T>(y: Types, script: seq<Option<T>>, hint: SizeHint)
    requires Sane(y) && hint.upper == Some(hint.lower)
    ensures ExactReturns(y, script, hint.lower) <==>
            VectorReturns(y, script) && IsTruthful(hint, script) && y.item.size != 0 && StaysDone(script)
  {
    assert IsTruthful(hint, script) <==> |Yielded(script)| == hint.lower;
  }

  /** Zero-sized items: the path through a vector takes them, the exact-size path does not. */
  lemma ZeroSizedDiffers(y: Types, n: nat)
    requires Sane(y) && y.item.size == 0 && Allocatable(y, n)
    ensures var script := seq(n, _ => Some(()));
            |Yielded(script)| == n && StaysDone(script) && VectorReturns(y, script) && !ExactReturns(y, script, n)
  {
    var script := seq(n, _ => Some(()));
    YieldedExactly(script, n);
  }

  /** An iterator that goes on after its end: its hint is right, `collect` never notices, and the
      second check after the last item does. */
  lemma UnfusedDiffers(y: Types)
    requires Sane(y) && y.item.size != 0 && Allocatable(y, 1)
    ensures var script := [Some(1), None, Some(2)];
            |Yielded(script)| == 1 && VectorReturns(y, script) && !ExactReturns(y, script, 1)
  {
    YieldedExactly([Some(1), None, Some(2)], 1);
  }
}
