/** `ArcCloneIter`: its two `fetch_update` loops, against arbitrary interference, and its counter. */
module CloneIter {

  /** What happens to one round of a loop: how far behind the newest message it reads, what others
      write before its exchange, and whether the exchange fails for no reason. */
  datatype Round = Round(behind: nat, others: seq<nat>, spurious: bool)

  predicate Calm(round: Round) {
    round.behind == 0 && round.others == [] && !round.spurious
  }

  /** How a compare-exchange loop ends; `GaveUp` stands for a loop that is still going. */
  datatype Outcome = Updated | Aborted | GaveUp

  /** The closures passed to `fetch_update`: a checked addition and a checked subtraction. */
  datatype Update = Add(n: nat, max: nat) | Sub(n: nat)

  predicate Rejects(u: Update, c: nat) {
    match u
    case Add(n, max) => max < c + n
    case Sub(n) => c < n
  }

  function New(u: Update, c: nat): nat
    requires !Rejects(u, c)
  {
    match u
    case Add(n, _) => c + n
    case Sub(n) => c - n
  }

  /** The count in the order of its modifications, each marked as this thread's or another's. */
  class AtomicCount {
    var order: seq<nat>
    ghost var ours: seq<bool>

    ghost predicate Valid()
      reads this
    {
      0 < |order| == |ours|
    }

    constructor (v: nat)
      ensures Valid() && order == [v] && ours == [false]
    {
      order := [v];
      ours := [false];
    }

    /** Other threads write whatever they like. */
    method Interfere(more: seq<nat>)
      requires Valid()
      modifies this
      ensures Valid() && order == old(order) + more && old(ours) <= ours
      ensures forall i | |old(ours)| <= i < |ours| :: !ours[i]
    {
      order := order + more;
      ours := ours + seq(|more|, _ => false);
    }

    /** A relaxed load: any value not older than message `seen`. */
    method Load(seen: nat, behind: nat) returns (k: nat)
      requires Valid() && seen < |order|
      ensures seen <= k < |order| && (behind == 0 ==> k == |order| - 1)
    {
      k := if |order| - 1 - seen < behind then seen else |order| - 1 - behind;
    }

    /** `compare_exchange_weak`: may fail for no reason. */
    method CompareExchangeWeak(c: nat, v: nat, spurious: bool) returns (ok: bool)
      requires Valid()
      modifies this
      ensures Valid() && (ok <==> !spurious && old(order)[|old(order)| - 1] == c)
      ensures ok ==> order == old(order) + [v] && ours == old(ours) + [true]
      ensures !ok ==> order == old(order) && ours == old(ours)
    {
      ok := !spurious && order[|order| - 1] == c;
      if ok {
        order := order + [v];
        ours := ours + [true];
      }
    }

    /** `fetch_update`, by a thread that has seen message `seen`: a load, and exchanges of what the
        last load returned until one goes through.  A failed exchange is a load too, the one its
        next round starts with.  When it is `Updated`, write `k` is the only one of this thread and is
        the closure's result for the message right before it; otherwise there is no write, and an
        abort saw a value for which the closure aborts.  It ends by the first calm round. */
    method FetchUpdate(u: Update, seen: nat, rounds: seq<Round>) returns (r: Outcome, k: nat)
      requires Valid() && seen < |order|
      modifies this
      ensures Valid() && old(order) <= order && old(ours) <= ours && seen <= k < |order|
      ensures r == Updated ==>
                && |old(order)| <= k
                && (match u
                    case Add(n, max) => order[k] == order[k - 1] + n <= max
                    case Sub(n) => order[k] + n == order[k - 1])
                && forall i | |old(order)| <= i < |order| :: ours[i] <==> i == k
      ensures r != Updated ==> forall i | |old(order)| <= i < |order| :: !ours[i]
      ensures r == Aborted ==>
                match u
                case Add(n, max) => max < order[k] + n
                case Sub(n) => order[k] < n
      ensures r == GaveUp ==> forall j | 0 <= j < |rounds| :: !Calm(rounds[j])
    {
      k := seen;
      r := GaveUp;
      for j := 0 to |rounds|
        invariant Valid() && old(order) <= order && old(ours) <= ours && seen <= k < |order| && r == GaveUp
        invariant forall i | |old(order)| <= i < |order| :: !ours[i]
        invariant forall i | 0 <= i < j :: !Calm(rounds[i])
      {
        k := Load(k, rounds[j].behind);
        var c := order[k];
        if Rejects(u, c) { return Aborted, k; }
        Interfere(rounds[j].others);
        var ok := CompareExchangeWeak(c, New(u, c), rounds[j].spurious);
        if ok { return Updated, |order| - 1; }
      }
    }
  }

  /** The iterator itself: a reservation that shrinks with every `Arc` it gives out. */
  class ArcCloneIter {
    const count: AtomicCount
    var arcsLeft: nat

    /** `ArcCloneIter::new` once its reservation has gone through. */
    constructor (count: AtomicCount, n: nat)
      ensures this.count == count && arcsLeft == n
    {
      this.count := count;
      arcsLeft := n;
    }

    method Next() returns (some: bool)
      modifies this`arcsLeft
      ensures some <==> 0 < old(arcsLeft)
      ensures arcsLeft == if some then old(arcsLeft) - 1 else 0
    {
      if arcsLeft == 0 { return false; }
      arcsLeft := arcsLeft - 1;
      some := true;
    }

    /** Asked `k` times it gives out `min(k, arcsLeft)` Arcs, and nothing after the first `None`. */
    method Take(k: nat) returns (given: nat)
      modifies this`arcsLeft
      ensures given == (if k < old(arcsLeft) then k else old(arcsLeft)) && given + arcsLeft == old(arcsLeft)
    {
      given := 0;
      for asked := 0 to k
        invariant given == (if asked < old(arcsLeft) then asked else old(arcsLeft)) && given + arcsLeft == old(arcsLeft)
      {
        var some := Next();
        if some { given := given + 1; }
      }
    }

    /** `Drop`: nothing to return, or one checked subtraction of the leftover. */
    method Drop(seen: nat, rounds: seq<Round>) returns (r: Outcome, k: nat)
      requires count.Valid() && seen < |count.order|
      modifies count
      ensures count.Valid() && old(count.order) <= count.order && old(count.ours) <= count.ours
      ensures arcsLeft == 0 ==> r == Updated && k == seen && count.order == old(count.order) && count.ours == old(count.ours)
      ensures 0 < arcsLeft && r == Updated ==>
                && |old(count.order)| <= k < |count.order| && count.order[k] + arcsLeft == count.order[k - 1]
                && forall i | |old(count.order)| <= i < |count.order| :: count.ours[i] <==> i == k
      ensures r == Aborted ==> seen <= k < |count.order| && count.order[k] < arcsLeft
      ensures r != Updated ==> forall i | |old(count.order)| <= i < |count.order| :: !count.ours[i]
      ensures r == GaveUp ==> forall j | 0 <= j < |rounds| :: !Calm(rounds[j])
    {
      if arcsLeft == 0 { return Updated, seen; }
      r, k := count.FetchUpdate(Sub(arcsLeft), seen, rounds);
    }
  }

  /** Of everything from message `start` on, `a` and `b` are this thread's and the rest is not. */
  ghost predicate OnlyOurs(ours: seq<bool>, start: nat, a: nat, b: nat) {
    forall i | start <= i < |ours| :: ours[i] <==> i == a || i == b
  }

  /** `clone_many`, taken from `k` times and dropped, with interference at every step: the thread's
      own writes are one addition of `n`, at `a`, and if anything is left one subtraction of the
      rest, at `b`. */
  method TakeFrom(count: AtomicCount, n: nat, max: nat, k: nat, first: seq<Round>, between: seq<nat>, second: seq<Round>)
    returns (given: nat, r: Outcome, a: nat, b: nat)
    requires count.Valid()
    modifies count
    ensures count.Valid() && old(count.order) <= count.order && old(count.ours) <= count.ours
    ensures r == Updated ==>
              && given == (if k < n then k else n)
              && |old(count.order)| <= a <= b < |count.order|
              && count.order[a] == count.order[a - 1] + n && count.order[a] <= max
              && (if n <= k then a == b else a < b && count.order[b] + (n - k) == count.order[b - 1])
              && OnlyOurs(count.ours, |old(count.order)|, a, b)
    ensures r == Aborted ==>
              || (given == 0 && a < |count.order| && max < count.order[a] + n
                  && forall i | |old(count.order)| <= i < |count.order| :: !count.ours[i])
              || (k < n && b < |count.order| && count.order[b] < n - k
                  && |old(count.order)| <= a < |count.order| && count.order[a] == count.order[a - 1] + n
                  && OnlyOurs(count.ours, |old(count.order)|, a, a))
    ensures r == GaveUp ==>
              (forall j | 0 <= j < |first| :: !Calm(first[j])) || (forall j | 0 <= j < |second| :: !Calm(second[j]))
  {
    given := 0;
    b := 0;
    r, a := count.FetchUpdate(Add(n, max), |count.order| - 1, first);
    if r != Updated { return; }
    count.Interfere(between);
    var iter := new ArcCloneIter(count, n);
    given := iter.Take(k);
    ghost var order, ours := count.order, count.ours;
    r, b := iter.Drop(a, second);
    assert count.order[a] == order[a] && count.order[a - 1] == order[a - 1];
    assert forall i | 0 <= i < |ours| :: count.ours[i] == ours[i];
    assert forall i | |old(count.ours)| <= i < |ours| :: ours[i] <==> i == a;
  }
}
