/** A page of tuples, sorted in place. */
module TupleCollections {
  import opened TupleOrders

  function Swapped(s: seq<Tuple>, x: nat, y: nat): seq<Tuple>
    requires x < |s| && y < |s|
  {
    s[x := s[y]][y := s[x]]
  }

  /** A swap inside a range permutes the range and touches nothing else. */
  lemma SwapInRange(s: seq<Tuple>, x: nat, y: nat, i: nat, j: nat)
    requires i <= x < j <= |s| && i <= y < j
    ensures Permutes(s[i..j], Swapped(s, x, y)[i..j])
    ensures Outside(s, Swapped(s, x, y), i, j)
  {
    var r := s[i..j];
    assert Swapped(s, x, y)[i..j] == Swapped(r, x - i, y - i);
    assert multiset(Swapped(r, x - i, y - i)) == multiset(r);
  }

  /** Nothing before i and nothing from j on has changed. */
  predicate Outside(s: seq<Tuple>, t: seq<Tuple>, i: nat, j: nat) {
    && |s| == |t|
    && (forall k | 0 <= k < i && k < |s| :: t[k] == s[k])
    && (forall k | j <= k < |s| :: t[k] == s[k])
  }

  /** Where partitioning a range around its pivot leads. */
  ghost predicate Partitioned(order: Order, s: seq<Tuple>, i: nat, p: nat, j: nat) {
    i <= p < j <= |s| && AllBefore(order, s[i..p], s[p]) && AllAfter(order, s[p + 1..j], s[p])
  }

  /** Sorting one side of a partition keeps it a partition. */
  lemma LowSideSorted(order: Order, s: seq<Tuple>, t: seq<Tuple>, i: nat, p: nat, j: nat)
    requires Partitioned(order, s, i, p, j) && Outside(s, t, i, p) && Permutes(s[i..p], t[i..p])
    ensures Partitioned(order, t, i, p, j) && Permutes(s[i..j], t[i..j]) && Outside(s, t, i, j)
  {
    PermutesMembers(s[i..p], t[i..p]);
    assert s[p..j] == t[p..j] && s[p + 1..j] == t[p + 1..j];
    PermutesJoin(s[i..p], s[p..j], t[i..p], t[p..j]);
    assert s[i..j] == s[i..p] + s[p..j] && t[i..j] == t[i..p] + t[p..j];
  }

  lemma HighSideSorted(order: Order, s: seq<Tuple>, t: seq<Tuple>, i: nat, p: nat, j: nat)
    requires Partitioned(order, s, i, p, j) && Outside(s, t, p + 1, j) && Permutes(s[p + 1..j], t[p + 1..j])
    ensures Partitioned(order, t, i, p, j) && Permutes(s[i..j], t[i..j]) && Outside(s, t, i, j)
    ensures s[i..p] == t[i..p]
  {
    PermutesMembers(s[p + 1..j], t[p + 1..j]);
    assert s[i..p] == t[i..p] && s[i..p + 1] == t[i..p + 1];
    PermutesJoin(s[i..p + 1], s[p + 1..j], t[i..p + 1], t[p + 1..j]);
    assert s[i..j] == s[i..p + 1] + s[p + 1..j] && t[i..j] == t[i..p + 1] + t[p + 1..j];
  }

  lemma BothSidesSorted(order: Order, s: seq<Tuple>, i: nat, p: nat, j: nat)
    requires Lawful(order) && Partitioned(order, s, i, p, j)
    requires Sorted(order, s[i..p]) && Sorted(order, s[p + 1..j])
    ensures Sorted(order, s[i..j])
  {
    SortedAround(order, s[i..p], s[p], s[p + 1..j]);
    assert s[i..j] == s[i..p] + [s[p]] + s[p + 1..j];
  }

  lemma OutsideTwice(s: seq<Tuple>, t: seq<Tuple>, u: seq<Tuple>, i: nat, j: nat)
    requires Outside(s, t, i, j) && Outside(t, u, i, j) && i <= j <= |s|
    requires |s| == |t| == |u|
    requires Permutes(s[i..j], t[i..j]) && Permutes(t[i..j], u[i..j])
    ensures Outside(s, u, i, j) && Permutes(s[i..j], u[i..j])
  {
  }

  /** Partitioning under way: what has been seen precedes the pivot below `low`, and follows it from
      there up to j; the pivot waits at f. */
  ghost predicate InParts(order: Order, was: seq<Tuple>, now: seq<Tuple>, pivot: Tuple, i: nat, low: nat, j: nat, f: nat) {
    && i <= low <= j <= f < |now| == |was| && now[f] == pivot
    && (forall k | i <= k < low :: Precedes(order, now[k], pivot))
    && (forall k | low <= k < j :: Precedes(order, pivot, now[k]))
    && Permutes(was[i..f + 1], now[i..f + 1]) && Outside(was, now, i, f + 1)
  }

  lemma PartsStart(order: Order, was: seq<Tuple>, i: nat, x: nat, f: nat)
    requires i <= x <= f < |was|
    ensures InParts(order, was, Swapped(was, x, f), was[x], i, i, i, f)
  {
    SwapInRange(was, x, f, i, f + 1);
  }

  lemma {:induction false} PartsGrowLow(order: Order, was: seq<Tuple>, now: seq<Tuple>, pivot: Tuple, i: nat, low: nat, j: nat, f: nat)
    requires InParts(order, was, now, pivot, i, low, j, f) && j < f
    requires Precedes(order, now[j], pivot)
    ensures InParts(order, was, Swapped(now, low, j), pivot, i, low + 1, j + 1, f)
  {
    hide Precedes, Permutes, Outside;
    SwapInRange(now, low, j, i, f + 1);
    OutsideTwice(was, now, Swapped(now, low, j), i, f + 1);
  }

  lemma PartsGrowHigh(order: Order, was: seq<Tuple>, now: seq<Tuple>, pivot: Tuple, i: nat, low: nat, j: nat, f: nat)
    requires Lawful(order) && InParts(order, was, now, pivot, i, low, j, f) && j < f
    requires !Precedes(order, now[j], pivot)
    ensures InParts(order, was, now, pivot, i, low, j + 1, f)
  {
    hide Precedes, Permutes, Outside;
  }

  lemma PartsDone(order: Order, was: seq<Tuple>, now: seq<Tuple>, pivot: Tuple, i: nat, low: nat, f: nat)
    requires InParts(order, was, now, pivot, i, low, f, f)
    ensures var s := Swapped(now, low, f);
            && Partitioned(order, s, i, low, f + 1)
            && Permutes(was[i..f + 1], s[i..f + 1]) && Outside(was, s, i, f + 1)
  {
    hide Precedes, Permutes;
    SwapInRange(now, low, f, i, f + 1);
    OutsideTwice(was, now, Swapped(now, low, f), i, f + 1);
    PivotInPlace(order, now, pivot, i, low, f);
  }

  lemma PivotInPlace(order: Order, now: seq<Tuple>, pivot: Tuple, i: nat, low: nat, f: nat)
    requires i <= low <= f < |now| && now[f] == pivot
    requires forall k | i <= k < low :: Precedes(order, now[k], pivot)
    requires forall k | low <= k < f :: Precedes(order, pivot, now[k])
    ensures Partitioned(order, Swapped(now, low, f), i, low, f + 1)
  {
    hide Precedes;
    var s := Swapped(now, low, f);
    forall t | t in s[i..low] ensures Precedes(order, t, s[low]) {
      var k :| i <= k < low && s[k] == t;
      assert t == now[k];
    }
    forall t | t in s[low + 1..f + 1] ensures Precedes(order, s[low], t) {
      var k :| low + 1 <= k < f + 1 && s[k] == t;
      assert t == now[if k == f then low else k];
    }
  }

  lemma NothingToSort(order: Order, s: seq<Tuple>, i: nat, j: nat)
    requires Lawful(order) && i <= j <= |s| && j <= i + 1
    ensures Sorted(order, s[i..j]) && Permutes(s[i..j], s[i..j]) && Outside(s, s, i, j)
  {
  }

  class TupleCollection {
    const order: Order
    const tuples: array<Tuple>
    var count: nat

    ghost predicate Valid()
      reads this
    {
      count <= tuples.Length
    }

    function Contents(): seq<Tuple>
      requires Valid()
      reads this, tuples
    {
      tuples[..count]
    }

    constructor (tupleOrder: Order, capacity: nat)
      ensures Valid() && Contents() == [] && order == tupleOrder && tuples.Length == capacity && fresh(tuples)
    {
      order := tupleOrder;
      tuples := new Tuple[capacity](_ => []);
      count := 0;
    }

    predicate IsFull()
      reads this
    {
      count == tuples.Length
    }

    method Add(tuple: Tuple)
      requires Valid() && !IsFull()
      modifies this`count, tuples
      ensures Valid() && Contents() == old(Contents()) + [tuple]
    {
      tuples[count] := tuple;
      count := count + 1;
    }

    method Swap(x: nat, y: nat)
      requires x < tuples.Length && y < tuples.Length
      modifies tuples
      ensures tuples[..] == Swapped(old(tuples[..]), x, y)
    {
      var xTuple := tuples[x];
      var yTuple := tuples[y];
      tuples[y] := xTuple;
      tuples[x] := yTuple;
    }

    /** Bring a pivot, taken anywhere in the range, to its place: what precedes it before it, the
        rest after it. */
    method Partition(i: nat, f: nat) returns (p: nat)
      requires Lawful(order) && i < f < tuples.Length
      modifies tuples
      ensures i <= p <= f && Partitioned(order, tuples[..], i, p, f + 1)
      ensures Permutes(old(tuples[..])[i..f + 1], tuples[..][i..f + 1]) && Outside(old(tuples[..]), tuples[..], i, f + 1)
    {
      hide InParts, Partitioned, Swapped, Outside, Permutes;
      ghost var was := tuples[..];
      var x: nat :| i <= x <= f;
      var pivot := tuples[x];
      PartsStart(order, was, i, x, f);
      Swap(x, f);
      var lowEl: int := i - 1;
      for j := i to f
        invariant i <= lowEl + 1 <= j
        invariant InParts(order, was, tuples[..], pivot, i, lowEl + 1, j, f)
      {
        var first := HasPriority(order, tuples[j], pivot);
        if !first {
          PartsGrowHigh(order, was, tuples[..], pivot, i, lowEl + 1, j, f);
        } else {
          PartsGrowLow(order, was, tuples[..], pivot, i, lowEl + 1, j, f);
          lowEl := lowEl + 1;
          Swap(lowEl, j);
        }
      }
      PartsDone(order, was, tuples[..], pivot, i, lowEl + 1, f);
      Swap(lowEl + 1, f);
      p := lowEl + 1;
    }

    method Quicksort(i: int, f: int)
      requires Lawful(order) && 0 <= i <= f + 1 <= tuples.Length
      modifies tuples
      ensures Sorted(order, tuples[..][i..f + 1])
      ensures Permutes(old(tuples[..])[i..f + 1], tuples[..][i..f + 1]) && Outside(old(tuples[..]), tuples[..], i, f + 1)
      decreases f + 1 - i
    {
      hide Partitioned, Sorted, Permutes, Outside, Lawful;
      NothingToSort(order, tuples[..], i, if i < f then i else f + 1);
      if i < f {
        ghost var was := tuples[..];
        var p: int := Partition(i, f);
        ghost var split := tuples[..];
        Quicksort(i, p - 1);
        ghost var low := tuples[..];
        LowSideSorted(order, split, low, i, p, f + 1);
        Quicksort(p + 1, f);
        HighSideSorted(order, low, tuples[..], i, p, f + 1);
        assert tuples[..][i..p] == low[i..p];
        BothSidesSorted(order, tuples[..], i, p, f + 1);
        OutsideTwice(was, split, low, i, f + 1);
        OutsideTwice(was, low, tuples[..], i, f + 1);
      }
    }

    /** The tuples of the page in order, none lost and none twice. */
    method Sort()
      requires Valid() && Lawful(order)
      modifies tuples
      ensures Valid() && Sorted(order, Contents()) && Permutes(old(Contents()), Contents())
    {
      Quicksort(0, count - 1);
    }
  }
}
