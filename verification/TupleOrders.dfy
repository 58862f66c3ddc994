/** The order of an ORDER BY clause on tuples, and sorted sequences of tuples. */
module TupleOrders {
  /** Values are opaque: how two of them compare is a parameter of the order. */
  type Value = int
  type Tuple = seq<Value>

  datatype Key = Key(index: nat, ascending: bool)

  datatype Order = Order(less: (Value, Value) -> bool, keys: seq<Key>)

  function At(tuple: Tuple, index: nat): Value {
    if index < |tuple| then tuple[index] else 0
  }

  /** Whether the tuples compare in the wanted way on the keys from k on; equal tuples do. */
  predicate PrecedesFrom(order: Order, left: Tuple, right: Tuple, k: nat)
    requires k <= |order.keys|
    decreases |order.keys| - k
  {
    if k == |order.keys| then true else
      var key := order.keys[k];
      var a, b := At(left, key.index), At(right, key.index);
      if order.less(a, b) then key.ascending
      else if order.less(b, a) then !key.ascending
      else PrecedesFrom(order, left, right, k + 1)
  }

  predicate Precedes(order: Order, left: Tuple, right: Tuple) {
    PrecedesFrom(order, left, right, 0)
  }

  /** The comparison as it is computed, key by key. */
  method HasPriority(order: Order, left: Tuple, right: Tuple) returns (yes: bool)
    ensures yes == Precedes(order, left, right)
  {
    for i := 0 to |order.keys|
      invariant Precedes(order, left, right) == PrecedesFrom(order, left, right, i)
    {
      var key := order.keys[i];
      var a, b := At(left, key.index), At(right, key.index);
      if order.less(a, b) {
        return key.ascending;
      } else if order.less(b, a) {
        return !key.ascending;
      }
    }
    return true;
  }

  /** A total preorder on values, by its strict part. */
  ghost predicate WeakOrder(less: (Value, Value) -> bool) {
    && (forall a, b :: !(less(a, b) && less(b, a)))
    && (forall a, b, c :: less(a, b) ==> less(a, c) || less(c, b))
  }

  /** A total preorder on tuples. */
  ghost predicate Lawful(order: Order) {
    && (forall s, t :: Precedes(order, s, t) || Precedes(order, t, s))
    && (forall s, t, u :: Precedes(order, s, t) && Precedes(order, t, u) ==> Precedes(order, s, u))
  }

  /** The first key on which two tuples differ decides. */
  lemma {:induction false} PrecedesMeans(order: Order, left: Tuple, right: Tuple, k: nat)
    requires WeakOrder(order.less) && k <= |order.keys|
    ensures PrecedesFrom(order, left, right, k) <==>
              forall i | k <= i < |order.keys| && Differ(order, left, right, i)
                && (forall j | k <= j < i :: !Differ(order, left, right, j)) :: Leads(order, left, right, i)
    decreases |order.keys| - k
  {
    if k != |order.keys| {
      PrecedesMeans(order, left, right, k + 1);
      if Differ(order, left, right, k) {
        assert PrecedesFrom(order, left, right, k) <==> Leads(order, left, right, k);
      }
    }
  }

  predicate Differ(order: Order, left: Tuple, right: Tuple, i: nat)
    requires i < |order.keys|
  {
    var a, b := At(left, order.keys[i].index), At(right, order.keys[i].index);
    order.less(a, b) || order.less(b, a)
  }

  predicate Leads(order: Order, left: Tuple, right: Tuple, i: nat)
    requires i < |order.keys|
  {
    var a, b := At(left, order.keys[i].index), At(right, order.keys[i].index);
    if order.keys[i].ascending then order.less(a, b) else order.less(b, a)
  }

  /** On tuples that have all the columns: said of the columns themselves. */
  lemma ColumnsDecide(order: Order, s: Tuple, t: Tuple)
    requires WeakOrder(order.less)
    requires forall k | 0 <= k < |order.keys| :: order.keys[k].index < |s| && order.keys[k].index < |t|
    ensures Precedes(order, s, t) <==>
              forall k | 0 <= k < |order.keys|
                && (var c := order.keys[k].index; order.less(s[c], t[c]) || order.less(t[c], s[c]))
                && (forall j | 0 <= j < k ::
                      var c := order.keys[j].index; !order.less(s[c], t[c]) && !order.less(t[c], s[c])) ::
                var c := order.keys[k].index;
                if order.keys[k].ascending then order.less(s[c], t[c]) else order.less(t[c], s[c])
  {
    PrecedesMeans(order, s, t, 0);
    forall k | 0 <= k < |order.keys|
      ensures Differ(order, s, t, k) <==> var c := order.keys[k].index; order.less(s[c], t[c]) || order.less(t[c], s[c])
      ensures Leads(order, s, t, k) <==>
                var c := order.keys[k].index;
                if order.keys[k].ascending then order.less(s[c], t[c]) else order.less(t[c], s[c])
    {
    }
  }

  lemma {:induction false} PrecedesIsTotal(order: Order, s: Tuple, t: Tuple, k: nat)
    requires WeakOrder(order.less) && k <= |order.keys|
    ensures PrecedesFrom(order, s, t, k) || PrecedesFrom(order, t, s, k)
    decreases |order.keys| - k
  {
    if k != |order.keys| {
      PrecedesIsTotal(order, s, t, k + 1);
    }
  }

  lemma {:induction false} PrecedesIsTransitive(order: Order, s: Tuple, t: Tuple, u: Tuple, k: nat)
    requires WeakOrder(order.less) && k <= |order.keys|
    requires PrecedesFrom(order, s, t, k) && PrecedesFrom(order, t, u, k)
    ensures PrecedesFrom(order, s, u, k)
    decreases |order.keys| - k
  {
    if k != |order.keys| {
      var key := order.keys[k];
      var a, b, c := At(s, key.index), At(t, key.index), At(u, key.index);
      if !order.less(a, b) && !order.less(b, a) && !order.less(b, c) && !order.less(c, b) {
        PrecedesIsTransitive(order, s, t, u, k + 1);
        assert !order.less(a, c) && !order.less(c, a);
      }
    }
  }

  /** Over a total preorder on values, comparing by keys is a total preorder on tuples. */
  lemma OrderIsLawful(order: Order)
    requires WeakOrder(order.less)
    ensures Lawful(order)
  {
    forall s, t ensures Precedes(order, s, t) || Precedes(order, t, s) {
      PrecedesIsTotal(order, s, t, 0);
    }
    forall s, t, u | Precedes(order, s, t) && Precedes(order, t, u) ensures Precedes(order, s, u) {
      PrecedesIsTransitive(order, s, t, u, 0);
    }
  }

  // ----- Sorted sequences

  ghost predicate Sorted(order: Order, s: seq<Tuple>) {
    forall i, j | 0 <= i <= j < |s| :: Precedes(order, s[i], s[j])
  }

  ghost predicate AllBefore(order: Order, s: seq<Tuple>, pivot: Tuple) {
    forall t | t in s :: Precedes(order, t, pivot)
  }

  ghost predicate AllAfter(order: Order, s: seq<Tuple>, pivot: Tuple) {
    forall t | t in s :: Precedes(order, pivot, t)
  }

  /** The same tuples, each as often, in any order. */
  ghost predicate Permutes(s: seq<Tuple>, t: seq<Tuple>) {
    multiset(s) == multiset(t)
  }

  lemma PermutesMembers(s: seq<Tuple>, t: seq<Tuple>)
    requires Permutes(s, t)
    ensures |s| == |t| && forall x :: x in s <==> x in t
  {
    assert |multiset(s)| == |s| && |multiset(t)| == |t|;
    assert forall x :: x in s <==> x in multiset(s);
    assert forall x :: x in t <==> x in multiset(t);
  }

  lemma PermutesJoin(a: seq<Tuple>, b: seq<Tuple>, c: seq<Tuple>, d: seq<Tuple>)
    requires Permutes(a, c) && Permutes(b, d)
    ensures Permutes(a + b, c + d)
  {
  }

  /** Quicksort's step: two sorted parts around a pivot that separates them. */
  lemma SortedAround(order: Order, low: seq<Tuple>, pivot: Tuple, high: seq<Tuple>)
    requires Lawful(order) && Sorted(order, low) && Sorted(order, high)
    requires AllBefore(order, low, pivot) && AllAfter(order, high, pivot)
    ensures Sorted(order, low + [pivot] + high)
  {
    var s := low + [pivot] + high;
    forall i, j | 0 <= i <= j < |s| ensures Precedes(order, s[i], s[j]) {
      if i < |low| { assert s[i] in low; }
      if |low| < j { assert s[j] in high; }
      assert Precedes(order, pivot, pivot);
      if i <= |low| <= j {
        assert Precedes(order, s[i], pivot) && Precedes(order, pivot, s[j]);
      }
    }
  }

  lemma SortedPart(order: Order, s: seq<Tuple>, i: nat, j: nat)
    requires Sorted(order, s) && i <= j <= |s|
    ensures Sorted(order, s[i..j])
  {
  }

  // ----- Merging

  /** Two runs merged, the left one first among equals. */
  function Merged(order: Order, left: seq<Tuple>, right: seq<Tuple>): (m: seq<Tuple>)
    ensures |m| == |left| + |right|
  {
    if left == [] then right
    else if right == [] then left
    else if Precedes(order, left[0], right[0]) then [left[0]] + Merged(order, left[1..], right)
    else [right[0]] + Merged(order, left, right[1..])
  }

  lemma {:induction false} MergedPermutes(order: Order, left: seq<Tuple>, right: seq<Tuple>)
    ensures Permutes(Merged(order, left, right), left + right)
  {
    if left == [] {
      assert left + right == right;
    } else if right == [] {
      assert left + right == left;
    } else if Precedes(order, left[0], right[0]) {
      MergedPermutes(order, left[1..], right);
      assert left + right == [left[0]] + (left[1..] + right);
    } else {
      MergedPermutes(order, left, right[1..]);
      assert right == [right[0]] + right[1..];
      assert multiset(left + right) == multiset(left) + multiset([right[0]]) + multiset(right[1..]);
    }
  }

  lemma {:induction false} MergedIsSorted(order: Order, left: seq<Tuple>, right: seq<Tuple>)
    requires Lawful(order) && Sorted(order, left) && Sorted(order, right)
    ensures Sorted(order, Merged(order, left, right))
  {
    if left != [] && right != [] {
      var m := Merged(order, left, right);
      assert Precedes(order, m[0], left[0]) && Precedes(order, m[0], right[0]);
      if Precedes(order, left[0], right[0]) {
        MergedIsSorted(order, left[1..], right);
        MergedPermutes(order, left[1..], right);
        PermutesMembers(m[1..], left[1..] + right);
      } else {
        MergedIsSorted(order, left, right[1..]);
        MergedPermutes(order, left, right[1..]);
        PermutesMembers(m[1..], left + right[1..]);
      }
      forall t | t in m[1..] ensures Precedes(order, m[0], t) {
        if t in left {
          var k :| 0 <= k < |left| && left[k] == t;
          assert Precedes(order, left[0], t);
        } else {
          var k :| 0 <= k < |right| && right[k] == t;
          assert Precedes(order, right[0], t);
        }
      }
      assert m == [m[0]] + m[1..];
      SortedFront(order, m[0], m[1..]);
    }
  }

  lemma SortedFront(order: Order, first: Tuple, rest: seq<Tuple>)
    requires Lawful(order) && Sorted(order, rest) && AllAfter(order, rest, first)
    ensures Sorted(order, [first] + rest)
  {
    SortedAround(order, [], first, rest);
    assert [] + [first] + rest == [first] + rest;
  }
}
