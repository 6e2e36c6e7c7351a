# A verified model of `backdrop_arc`

`Arc<T, S>` is a reference-counted pointer without a weak count. One atomic word precedes the data of
every allocation, and the whole crate is safe because of what threads may and may not do with that word.
When the last handle goes, the backdrop strategy `S` of that handle gets the allocation.

The project has four parts.

**The reference-count protocol** (`Protocol`, `Invariant`, `Steps`, `Safety`, `Theorems`, `Exchanges`,
`Traces`, `Ledger`, `Books`, `HappensBefore`, `Orderings`) is a step machine over any number of threads and
handles under release/acquire views. The count is its modification order, a sequence of messages `(value,
released accesses)`. A thread's view is the oldest message it may still read, and the data accesses that
happen before its next step. A load may read any message that is not older than the view; a
read-modify-write reads the newest message, appends one, and carries on what the newest one released
(release sequences, section [intro.races] of C++20). `clone` is two steps, `drop` three; the loops of
`ArcCloneIter` are a load and then an exchange that may fail; handles are sent, lent, returned, forgotten
and turned into `UniqueArc`s, and threads synchronise in other ways at any time. A mutex or a channel is a
thread that does nothing but synchronise and pass things on. Runs in which every load reads the newest
message are the plain interleavings. The configuration says which of the code's three orderings are really
used; `AsWritten` means all three.
`Invariant.Inv` holds in every reachable state, and the theorems follow from it. `Exchanges` is about
the two `fetch_update` loops from beginning to end, with any steps of other threads in between. `Orderings`
has concrete runs: dropping any of the three orderings makes a data race reachable, and a shared handle may
be told an outdated count. `Ledger` and `Books` read a run's steps only, and say who owns what under which
strategy, how the allocation ends, that what is forgotten stays forgotten, and that the books balance.
`HappensBefore` defines happens-before from the steps of a run, without views, and proves that the views are
exactly that: what is logged as seen is what happens before, and a thread may read exactly the messages that
coherence leaves it.

**Programs of one thread** (`Cells`, `CopyOnWrite`, `Batch`). Shared counted cells and handles to them:
every program returns what it returns if each handle owns a value of its own, and `clone_many` behaves as a
loop of `clone`.

**Representations** (`Layouts`, `Shapes`). `Layouts` has the layout arithmetic of the allocator calls and
the pointer offsets. `Shapes.Heap` is memory changed in place: blocks at addresses, and variables that hold
an `Arc`, `UniqueArc`, `OffsetArc` or tagged `ArcUnion` pointer, or lend an `ArcBorrow`, with a log of the
strategies that ran. A program is typed without looking at the heap, over plain `Arc`s; one that
type-checks runs to its end in the heap and behaves as it does over plain `Arc`s.

**Loops** (`CloneIter`, `Constructors`). The two `fetch_update` loops against arbitrary interference, the
counter of `ArcCloneIter`, and the constructors that fill an allocation from an iterator, a slice or a
`Vec`.

Values are a type parameter; strategies are numbers; threads are `0..n`, at most `isize::MAX` of them
(`max` in the configuration), as the comment in `clone` assumes. `T::clone` returns an equal value. That a
borrowed handle is neither dropped nor mutated, which the borrow checker guarantees, is a precondition of
the steps. A clone's strategy is arbitrary, so `ArcBorrow::clone_arc` is a clone like any other.

`clone_many` is documented as an optimisation of many calls of `clone` (src/arc.rs:608-618). Up to what is
reserved, programs do the same with it as with a loop of `clone`, with three exceptions, and no others
(`Batch.BatchIsLoop`, `Batch.RunIsLoop`):

- an iterator is passed to `mem::forget` with something left, and what it reserved leaks;
- the sum exceeds `MAX_REFCOUNT`, and `clone_many` aborts; `clone` tests the old count, so the loop may go one
  further, and counts nothing that is not taken;
- a `clone` finds the count past the limit only because of reservations, and aborts.

The two paths of `from_iter` differ in what they accept: the one for an exact size hint refuses zero-sized
items, a hint that lies, and an iterator that yields again after its end when it is asked a second time
(`Constructors.PathsAgree`).

## Model

| member | source | states |
|---|---|---|
| Safety.InitKeeps | src/arc.rs:100-112 | `Arc::new` on any thread establishes the invariant. |
| Safety.StepKeeps | src/arc.rs:474-837 | Every step of every thread keeps the invariant: conservation, stale reads bounded, every access released or known to a holder, exclusivity, single disposal, no data race, overflow bound. |
| Safety.ReachableInv | src/arc.rs:474-837 | The invariant holds in every state of every run. |
| Safety.IterDropCasKeeps | src/arc.rs:555-569 | The exchange that returns a leftover keeps the invariant and never takes the underflow abort, even when it works from a stale count. |
| Steps.CloneAddKeeps | src/arc.rs:474-508 | The relaxed increment of `clone` keeps the invariant and does not wrap. |
| Steps.DropKeeps | src/arc.rs:805-810 | The releasing decrement of `drop` keeps the invariant; the thread goes on to dispose exactly if the count was 1. |
| Steps.GiveBackKeeps | src/arc.rs:564-568 | The relaxed decrement by the leftover keeps the invariant, in particular everything earlier decrements released. |
| Steps.UniqueIsLast | src/arc.rs:747-757 | A thread that has its handle to itself reads a count of 1 only from the newest message. |
| Steps.UniqueAlone | src/arc.rs:747-757 | After that read the thread's handle is the only holder and all accesses so far happen before the thread's next step. |
| Theorems.CountIsTokens | src/arc.rs:486-591 | The count of a live allocation is the number of handles, unique handles and clones in progress, plus what iterators reserve, plus what was forgotten. |
| Theorems.FreedAtMostOnce | src/arc.rs:286-288 | At most one disposal or `into_inner`, never both, as the last access and with no holder left; a strategy that runs is that of the handle dropped last. |
| Theorems.FreedInTheEnd | src/arc.rs:805-837 | With nothing held, nothing forgotten and nobody inside an operation, the allocation has been freed. |
| Theorems.NoUseAfterFree | src/arc.rs:274-282 | No step that involves the allocation, not even a load of the count, is possible after it was freed. |
| Theorems.OperationsGoOn | src/arc.rs:486-591 | A thread inside an operation can always take its next step. |
| Theorems.SharedWorks | src/arc.rs:474-508 | Through a handle or a borrow a thread can always clone, reserve, count, read and lend. |
| Theorems.OwnWorks | src/arc.rs:730-838 | With a handle that is not lent out it can drop, forget, send and change the strategy; `is_unique` succeeds exactly on a 1. |
| Theorems.UniqueWorks | src/unique_arc.rs:53-97 | With a unique handle it can read, write, share, move out, drop, send and forget. |
| Theorems.IterWorks | src/arc.rs:553-591 | An iterator hands out an `Arc` exactly while something is left, and can be dropped, forgotten and sent. |
| Theorems.BorrowEnds | src/offset_arc.rs:115-125 | A borrow can always be given back. |
| Ledger.DeedsHold | src/arc.rs:118-121 | In every run a holder has the strategy chosen for it last, by its clone, its iterator or `with_strategy`, and belongs to the thread that made it or was sent it last. |
| Ledger.LastDropDisposes | src/arc.rs:805-837 | A run without `into_inner` that has freed did so in one step, which handed the allocation to the strategy chosen last for the handle of the last `drop`. |
| Ledger.MovedOutIsNotDisposed | src/unique_arc.rs:53-65 | After `into_inner` no strategy ever gets the allocation. |
| Ledger.ForgottenForever | src/arc.rs:486-499 | After `mem::forget` of something with tokens no step of any thread is about it and the allocation is never freed. |
| Ledger.NewAndDrop | src/arc.rs:805-837 | The run of `Arc::new` and `drop`: the strategy of the only handle gets the allocation. |
| Ledger.NewAndForget | src/arc.rs:486-499 | The run of `Arc::new` and `mem::forget`, after which nobody can drop the handle. |
| Books.HoldersBalance | src/arc.rs:474-838 | Of every kind of holder a run has what its calls made less what they took, beside the first handle. |
| Books.TokensBalance | src/arc.rs:526-591 | The same of what is reserved and of what is forgotten. |
| Books.CountBalances | src/arc.rs:486-568 | The count is 1 plus the clones and reservations less the drops and the leftovers returned. |
| Books.ForgottenCounts | src/arc.rs:486-499 | The count is never below what was forgotten, and a run that forgot any token never frees. |
| Theorems.UniqueIsExclusive | src/arc.rs:730-787 | A successful `is_unique` (so `get_mut`, `make_mut`, `try_unique`) means no other handle, reservation, pending clone, borrow or forgotten token, and every access ever made is in the thread's view. |
| Theorems.UniqueStaysExclusive | src/unique_arc.rs:95-125 | As long as a handle is treated as unique it is the only holder, and its thread can read no count but 1. |
| Theorems.ReservationsShared | src/arc.rs:730-787 | While any iterator is live no thread that has a handle to itself finds it unique, whatever message its load reads. |
| Theorems.OneIsOlder | src/arc.rs:747-757 | Through a shared borrow `is_unique` reads a 1 only from before the reservation, so only in a thread that has not seen the reservation. |
| Theorems.DisposalSeesAll | src/arc.rs:805-837 | When `drop_slow` starts, every access by any thread through any handle happens before it. |
| Theorems.NoDataRace | src/arc.rs:806-832 | In no run do two accesses race; disposal and `into_inner` count as writes. |
| HappensBefore.LogIsHappensBefore | src/arc.rs:475-486 | With any orderings, one access is logged as seen by another exactly if it happens before it: by program order, by what is passed on, and from a releasing `drop` to an acquiring load of its release sequence. |
| HappensBefore.DataRaceFree | src/arc.rs:806-832 | With the orderings of the code, of two accesses that are not both reads the first happens before the second. |
| HappensBefore.ReadsAreCoherent | src/arc.rs:754-757 | A thread may read a message exactly if it knows of no action that read or wrote a newer one. |
| Theorems.CountBounded | src/arc.rs:486-499 | The count is at most `MAX_REFCOUNT + 1` plus the threads about to abort; neither the wrapping `fetch_add` nor the wrapping `fetch_sub` wraps. |
| Theorems.IteratorCovered | src/arc.rs:555-569 | Every count the thread of an iterator can still read exceeds the leftover by at least one, and `orig` is still a handle. |
| Theorems.LeftoverNeverUnderflows | src/arc.rs:564-568 | The leftover decrement does not abort and leaves the count positive. |
| Exchanges.ReserveIsOneAdd | src/arc.rs:534-550 | From the load of `ArcCloneIter::new` to its return, with any steps of others in between, the thread writes the count once: the message right before plus `n`, at most the limit, carrying on what that one released. |
| Exchanges.LeftoverIsOneSub | src/arc.rs:555-569 | From the load of the iterator's `drop` to its return the thread writes the count once: the message right before less the leftover, above 0. |
| Exchanges.OthersLeave | src/arc.rs:553-570 | No step of another thread changes an iterator. |
| Theorems.ReadsKeeps | src/arc.rs:534-568 | What a thread remembers of the count is always a value the count really had. |
| Theorems.AbortsJustified | src/arc.rs:497-542 | The process aborts only in `clone` and `clone_many`, over a count that was really there and for which the sum exceeds the limit. |
| Orderings.UniqueRaces | src/arc.rs:746-757 | Without the release in `drop` or the acquire in `count`, a write after `get_mut` races with a read in a reachable state. |
| Orderings.DisposalRaces | src/arc.rs:812-832 | Without the acquire load in `drop`, disposal races with a read in a reachable state. |
| Orderings.OrderingsExact | src/arc.rs:806-832 | With two or more threads, all reachable states are free of data races if and only if all three orderings are as written. |
| Orderings.SharedMayBeStale | src/arc.rs:747-757 | A reachable state, with a reservation of any size, in which a thread that borrows the handle may read a count of 1. |
| Cells.StepKeeps | src/arc.rs:474-837 | Every operation of a program keeps every live cell's count equal to its tokens and leaves none to a dead cell. |
| Cells.RunKeeps | src/arc.rs:474-837 | The same for whole programs. |
| Cells.OnlyArc | src/arc.rs:678-692 | With a count of 1 no other handle, iterator or leaked token of that cell exists. |
| Cells.LeftoverFits | src/arc.rs:562-568 | The leftover of an iterator is less than the count of its cell, which is alive. |
| Cells.CountIsTokens | src/arc.rs:755-757 | `count` answers the number of handles, reservations and forgotten tokens of the cell. |
| Cells.ForgetLeaks | src/arc.rs:486-499 | `mem::forget` leaves the tokens of a handle or an iterator behind and changes no cell. |
| Cells.LeakIsForever | src/arc.rs:486-499 | What was forgotten stays, and its cell and count with it, whatever the program does. |
| CopyOnWrite.WriteIsPrivate | src/arc.rs:730-739 | A write through the only handle changes what no other handle reads. |
| CopyOnWrite.MakeMutIsPrivate | src/arc.rs:678-714 | `make_mut` or `make_unique` and a write change the value of that handle alone, shared or not. |
| CopyOnWrite.StepIsPrivate | src/arc.rs:474-837 | Every operation over shared cells does and returns what it does when each handle owns a value. |
| CopyOnWrite.ProgramIsPrivate | src/arc.rs:660-722 | So does every program from the empty memory that does not abort. |
| Batch.BatchIsLoop | src/arc.rs:526-597 | Up to what is reserved, each operation does and returns the same with `clone_many` as with a loop of `clone`, aborts included, if and only if it is none of the three exceptions. |
| Batch.CloneManyAgrees | src/arc.rs:534-544 | `clone_many` agrees with the loop if and only if the sum is within the limit. |
| Batch.CloneAgrees | src/arc.rs:497-499 | `clone` agrees if and only if the count is within the limit or is past it without the reservations as well. |
| Batch.ForgetIterAgrees | src/arc.rs:521-524 | Forgetting an iterator agrees with the loop if and only if nothing is left in it. |
| Batch.RunIsLoop | src/arc.rs:608-645 | A whole program, up to where it aborts if it does, goes side by side with the same program over the loop, with the same handles, values, disposals and results at every point, if and only if none of its operations is an exception. |
| Batch.ForgettingShows | src/arc.rs:521-524 | A program from the empty memory that forgets an iterator with something left, and differs. |
| Batch.ReservingShows | src/arc.rs:538-542 | One in which `clone_many(MAX_REFCOUNT)` aborts, and as many clones go through. |
| Batch.CloningShows | src/arc.rs:497-499 | One in which a `clone` aborts over reservations only. |
| Batch.TakeIsClones | src/arc.rs:624-645 | `clone_many(n)` asked `k` times and dropped leaves the counts and handles of `min(k, n)` clones, within the limit. |
| Batch.TakeThenCount | src/arc.rs:624-645 | `count` then answers `min(k, n)` more than before. |
| Batch.CountsAfterTaking | src/arc.rs:624-642 | From the empty memory, for every `n` and `k`: the documented examples. |
| CloneIter.AtomicCount.FetchUpdate | src/arc.rs:534-568 | Against arbitrary interference and spurious failures, a loop that succeeds wrote once, the closure's result for the message right before; one that aborts wrote nothing and read a value the closure rejects. It ends by the first round that reads the newest value and is not disturbed. |
| CloneIter.ArcCloneIter.Next | src/arc.rs:576-591 | One `Arc` fewer, or `None` at 0. |
| CloneIter.ArcCloneIter.Take | src/arc.rs:576-591 | `k` calls give out `min(k, left)` Arcs. |
| CloneIter.ArcCloneIter.Drop | src/arc.rs:555-569 | Nothing, or one subtraction of the leftover. |
| CloneIter.TakeFrom | src/arc.rs:526-597 | Reserving, taking and dropping write the count once, plus `n`, and a second time, minus `n - k`, exactly if `k < n`; all other messages are other threads'. An abort read a value to which `n` cannot be added, or, after the reservation, one below the rest. |
| Layouts.RoundUpLeast | src/arc.rs:351-355 | What `extend` and `pad_to_align` round to is the smallest multiple of the alignment that is not below. |
| Layouts.RoundUpDivides | src/arc.rs:351-355 | It is what `Layout` computes by division. |
| Layouts.AllocatesReprC | src/arc.rs:347-398 | The nested `extend` and `pad_to_align` give the `repr(C)` layout of `ArcInner<HeaderSlice<H, [T]>>`. |
| Layouts.LayoutsFit | src/arc.rs:377-381 | All layouts are computed if and only if the size of `ArcInner<HeaderSlice<H, [T]>>` with its padding is at most `isize::MAX`. |
| Layouts.LayoutPlaces | src/arc.rs:374-398 | Count, header and items are aligned, in bounds and pairwise disjoint, for all sizes, alignments and lengths. |
| Layouts.UnitHeaderIsSlice | src/header.rs:186-211 | `HeaderSlice<(), [T]>` is laid out like `[T]`, and its data is where a single `T` would be. |
| Layouts.RawSliceRoundTrip | src/arc.rs:204-239 | `from_raw_slice(into_raw(a))` recovers start and length; the raw pointer is aligned and its items are inside the allocation. |
| Layouts.DataAfterWord | src/arc.rs:44-47 | The data offset is a multiple of the word and at least one word. |
| Layouts.DataIsEven | src/arc_union.rs:104-118 | The data of any allocation starts at an even address, whatever the alignment. |
| Shapes.OffsetIsData | src/arc.rs:130-137 | The offset the pointer conversions use is that of the data in the allocation. |
| Shapes.UnionRoundTrip | src/arc_union.rs:90-118 | `borrow` recovers variant and address after `from_first` and `from_second`, and the two never meet. |
| Shapes.Heap.ArcClone | src/arc.rs:474-508 | One more variable with the same pointer, and the block changes as the cell does; or the process aborts. |
| Shapes.Heap.ArcDrop | src/arc.rs:805-837 | As over cells; exactly if the count was 1 the block leaves memory and the handle's strategy is logged with it. |
| Shapes.Heap.ArcMakeMut | src/arc.rs:678-692 | As over cells; the variable is an `Arc` still, to the same block if the count was 1, and no strategy runs. |
| Shapes.Heap.GetMut | src/arc.rs:730-739 | As over cells; no variable changes. |
| Shapes.Heap.Count | src/arc.rs:755-757 | The count in the block of the variable. |
| Shapes.Heap.Read | src/arc.rs:655-657 | The data in the block of the variable. |
| Shapes.Heap.TryUnwrap | src/arc.rs:193-195 | `try_unique` and then `into_inner`: the value leaves with the block and no strategy runs, or nothing changes. |
| Shapes.Heap.UnwrapOrClone | src/arc.rs:719-721 | The value itself, or an equal copy and one handle fewer; no strategy runs. |
| Shapes.Heap.WithStrategy | src/arc.rs:118-121 | Only the strategy of that variable changes. |
| Shapes.Heap.TryUnique | src/arc.rs:779-787 | Succeeds exactly at a count of 1; that variable becomes a `UniqueArc` to the same block and nothing else changes. |
| Shapes.Heap.Shareable | src/unique_arc.rs:95-97 | That variable becomes an `Arc` to the same block and nothing else changes. |
| Shapes.Heap.UniqueWrite | src/unique_arc.rs:240-243 | Writes without looking at the count, and does what a successful `get_mut` does; no variable changes. |
| Shapes.Heap.IntoInner | src/unique_arc.rs:53-65 | The value leaves, the block leaves memory, and no strategy runs. |
| Shapes.Heap.IntoRawOffset | src/arc.rs:142-163 | That variable becomes an `OffsetArc` at the data and nothing else changes. |
| Shapes.Heap.FromRawOffset | src/arc.rs:168-174 | That variable becomes an `Arc` to the block whose data it pointed to and nothing else changes. |
| Shapes.Heap.OffsetClone | src/offset_arc.rs:67-69 | What `Arc::clone` does, with one more `OffsetArc` at the same data. |
| Shapes.Heap.OffsetDrop | src/offset_arc.rs:76-82 | What `Arc::drop` does: the same blocks leave memory and the same strategies are logged. |
| Shapes.Heap.OffsetMakeMut | src/offset_arc.rs:132-149 | Reading out, converting, `make_mut` and writing back is `Arc::make_mut`, and leaves an `OffsetArc`. |
| Shapes.Heap.BorrowCloneArc | src/arc_borrow.rs:43-51 | One more handle, an `Arc` of the right type with the strategy the caller chose. |
| Shapes.Heap.UnionFromFirst | src/arc_union.rs:104-106 | That variable becomes the tagged pointer of the first type and nothing else changes. |
| Shapes.Heap.UnionFromSecond | src/arc_union.rs:110-112 | That variable becomes the tagged pointer of the second type and nothing else changes. |
| Shapes.Heap.UnionClone | src/arc_union.rs:148-153 | What `Arc::clone` does, with one more of the same tagged pointer. |
| Shapes.Heap.UnionDrop | src/arc_union.rs:161-170 | What `Arc::drop` does: the same blocks leave memory and the same strategies are logged. |
| Shapes.Heap.UnionEq | src/arc_union.rs:52-59 | True exactly for the same variant and equal values. |
| Shapes.Heap.Do | src/offset_arc.rs:115-155 | One command that type-checks, in any representation, does to the block of its variable what it should (a clone adds one, a forgotten handle changes nothing, and so on), returns and does what it does over plain `Arc`s, where conversions do nothing, runs the same strategies, and gives every variable the type it should have. |
| Shapes.Heap.Run | src/arc.rs:142-174 | Programs that mix the representations and type-check run to their end, or to the abort: equal results, counts and values, the same strategies in the same order, each disposed block logged once, no block left but those of live cells, and every variable in the form the program gives it. |
| Shapes.PlainLeak | src/arc.rs:142-174 | After a `mem::forget` in such a program the cell is there with its tokens, whatever follows. |
| Shapes.LeakedBlockStays | src/arc.rs:286-288 | And its block is in memory. |
| Constructors.FromHeaderAndIter | src/header.rs:33-77 | Returns if and only if items are not zero-sized, the allocation is at most `isize::MAX` bytes and the iterator yields `len` items and then `None` to each check; then it holds the header and exactly those items. Which panic is which. |
| Constructors.FromHeaderAndSlice | src/header.rs:81-104 | Returns unless items are zero-sized or the allocation exceeds `isize::MAX` bytes; the items are copied. |
| Constructors.FromHeaderAndVec | src/header.rs:108-145 | Returns unless the allocation exceeds `isize::MAX` bytes, zero-sized items included; the items move and the vector keeps none. |
| Constructors.Yielded | src/header.rs:51-63 | The items before the first `None`. |
| Constructors.FromIter | src/unique_arc.rs:251-263 | With equal bounds in the hint it returns exactly when the exact-size path does for that many items, otherwise exactly when the vector path does; it holds exactly the yielded items, and a hint that lies makes it panic. |
| Constructors.PathsAgree | src/iterator_as_exact_size_iterator.rs:38-46 | For equal bounds, the exact-size path returns if and only if the vector path would, the hint is truthful, items are not zero-sized and the iterator stays done. |
| Constructors.ZeroSizedDiffers | src/header.rs:37-37 | Zero-sized items, with a truthful hint: only the vector path returns. |
| Constructors.UnfusedDiffers | src/header.rs:60-68 | One item, a `None` and another item, with a truthful hint: only the vector path returns. |

## Left out

- The derived `Clone` of `ArcCloneIter` (src/arc.rs:520): it copies `arcs_left` without touching the count, and conservation does not hold with it.
- Several allocations in one protocol run: the machine is about one allocation; allocations share no state but the threads' views, and another allocation can only synchronise threads, which `Synchronise` steps allow at any time between operations.
- Lending a `&UniqueArc` to another thread: a unique handle is read and written by its own thread only, until it is sent or made shareable.
- CloneIter.AtomicCount.FetchUpdate: no claim that the loop ends under contention; `GaveUp` stands for a loop that is still going after the given rounds, all of them disturbed.
- Theorems.CountBounded: for at most `isize::MAX` threads.
- Shapes.Heap.Run: `clone_many` is not among its commands (`Batch` has it); a `make_mut` or `get_mut` is one write; blocks have an address but no extent, so the allocator's promise that blocks do not overlap is distinct addresses.
- Threads and pauses between the reads and writes of a program in `Cells` and `Shapes`: those are programs of one thread.
- Unwinding out of `T::clone` or an iterator's `next`, failed allocations and `handle_alloc_error`: no memory is released or leaked in the model on those paths.
- Constructors.FromHeaderAndIter: the partly filled block on a panic is only known not to escape; the model has no leaks.
- `core::alloc::Layout` is modelled from its documented behaviour; its code is not part of this model.
- The iterators in `Constructors` answer `None` from some point on; one that yields forever never returns from `collect`.
- What a backdrop strategy does with an allocation: it is an event that takes the allocation once.
- `From<Box<T>>`, `from_header_and_str`, `new_uninit`, `new_uninit_slice`, `assume_init` and the deprecated `write` and `as_mut_slice`: the same block with other initialisation.
- `OffsetArc` equality, `ptr_eq`, formatting, `Hash`, `Ord`, `Default`, `AsRef` and `Borrow`: one-expression delegation.
- src/thin_arc.rs, which is not compiled, and src/arc_swap_support.rs, the serde, stable_deref_trait, yoke, triomphe and unsize impls.
- Pointer provenance, `Send`/`Sync` and lifetimes: preconditions of the steps.
