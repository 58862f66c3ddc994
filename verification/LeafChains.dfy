/** The leaves of a B+tree from left to right, and positions in them. */
module LeafChains {
  import opened Records
  import opened PageTrees

  ghost function Leaves(t: Tree): seq<Tree>
    decreases t
  {
    if t.Leaf? then [t] else LeavesOf(t.kids)
  }

  ghost function LeavesOf(ts: seq<Tree>): seq<Tree>
    decreases ts
  {
    if ts == [] then [] else Leaves(ts[0]) + LeavesOf(ts[1..])
  }

  ghost function Flat(ls: seq<Tree>): seq<Record> {
    if ls == [] then [] else (if ls[0].Leaf? then ls[0].records else []) + Flat(ls[1..])
  }

  lemma {:induction false} LeavesConcat(a: seq<Tree>, b: seq<Tree>)
    ensures LeavesOf(a + b) == LeavesOf(a) + LeavesOf(b)
    decreases a
  {
    if a == [] {
      assert a + b == b;
    } else {
      assert (a + b)[0] == a[0] && (a + b)[1..] == a[1..] + b;
      LeavesConcat(a[1..], b);
    }
  }

  lemma {:induction false} FlatConcat(a: seq<Tree>, b: seq<Tree>)
    ensures Flat(a + b) == Flat(a) + Flat(b)
  {
    if a == [] {
      assert a + b == b;
    } else {
      assert (a + b)[0] == a[0] && (a + b)[1..] == a[1..] + b;
      FlatConcat(a[1..], b);
    }
  }

  lemma LeavesOfOne(t: Tree)
    ensures LeavesOf([t]) == Leaves(t)
  {
    assert LeavesOf([t]) == Leaves(t) + LeavesOf([]);
  }

  lemma LeavesAround(kids: seq<Tree>, i: nat)
    requires i < |kids|
    ensures LeavesOf(kids) == LeavesOf(kids[..i]) + Leaves(kids[i]) + LeavesOf(kids[i + 1..])
  {
    hide Leaves, LeavesOf;
    SplitAround(kids, i);
    LeavesConcat(kids[..i] + [kids[i]], kids[i + 1..]);
    LeavesConcat(kids[..i], [kids[i]]);
    LeavesOfOne(kids[i]);
  }

  /** The leaves hold the records of the tree in order. */
  lemma {:induction false} FlatLeaves(t: Tree)
    ensures Flat(Leaves(t)) == InOrder(t)
    decreases t
  {
    if t.Leaf? {
      assert Flat([t]) == t.records + Flat([]);
    } else {
      FlatLeavesOf(t.kids);
    }
  }

  lemma {:induction false} FlatLeavesOf(ts: seq<Tree>)
    ensures Flat(LeavesOf(ts)) == Joined(ts)
    decreases ts
  {
    if ts != [] {
      FlatLeaves(ts[0]);
      FlatLeavesOf(ts[1..]);
      FlatConcat(Leaves(ts[0]), LeavesOf(ts[1..]));
    }
  }

  ghost predicate Follows(ls: seq<Tree>, after: nat, i: nat)
    requires i < |ls|
  {
    ls[i].Leaf? && ls[i].next == if i + 1 < |ls| then ls[i + 1].page else after
  }

  /** Each leaf leads to the one right of it and the last one to `after`; no page occurs twice. */
  ghost predicate Chain(ls: seq<Tree>, after: nat) {
    && (forall i :: 0 <= i < |ls| ==> Follows(ls, after, i))
    && (forall i, j :: 0 <= i < j < |ls| ==> ls[i].page != ls[j].page)
  }

  ghost predicate PagesIn(ls: seq<Tree>, pages: set<nat>) {
    forall i :: 0 <= i < |ls| ==> ls[i].page in pages
  }

  lemma ChainConcat(a: seq<Tree>, b: seq<Tree>, after: nat, pa: set<nat>, pb: set<nat>)
    requires b != [] && Chain(a, b[0].page) && Chain(b, after)
    requires PagesIn(a, pa) && PagesIn(b, pb) && pa !! pb
    ensures Chain(a + b, after) && PagesIn(a + b, pa + pb)
  {
    var ls := a + b;
    forall i | 0 <= i < |a| ensures Follows(ls, after, i) {
      assert Follows(a, b[0].page, i);
    }
    forall i | 0 <= i < |ls| ensures Follows(ls, after, i) {
      if i >= |a| {
        assert Follows(b, after, i - |a|);
      }
    }
  }

  /** The leaves of a good subtree are chained from its first leaf to what comes after it. */
  lemma {:induction false} GoodIsChained(z: Sizes, t: Tree, d: nat, lo: nat, hi: nat, after: nat)
    requires Good(z, t, d, lo, hi, after) || GoodDir(z, t, d, lo, hi, after)
    ensures Leaves(t) != [] && Leaves(t)[0].page == First(t) && Chain(Leaves(t), after) && PagesIn(Leaves(t), LeafPages(t))
    decreases t, |Leaves(t)| + 1
  {
    if t.Dir? {
      RowIsChained(z, t.keys, t.kids, d - 1, lo, hi, after, 0);
      assert t.kids[0..] == t.kids;
      assert RowPages(t.kids, 0) == LeafPages(t);
    }
  }

  ghost function RowPages(kids: seq<Tree>, k: nat): set<nat>
    requires k <= |kids|
  {
    set i, p | k <= i < |kids| && p in LeafPages(kids[i]) :: p
  }

  lemma {:induction false} RowIsChained(z: Sizes, keys: seq<Record>, kids: seq<Tree>, d: nat, lo: nat, hi: nat, after: nat, k: nat)
    requires Row(z, keys, kids, d, lo, hi, after) && k < |kids|
    ensures LeavesOf(kids[k..]) != [] && LeavesOf(kids[k..])[0].page == First(kids[k])
    ensures Chain(LeavesOf(kids[k..]), after) && PagesIn(LeavesOf(kids[k..]), RowPages(kids, k))
    decreases kids, |kids| - k
  {
    hide Good, Edge, Chain, PagesIn, RowPages;
    GoodIsChained(z, kids[k], d, Edge(keys, lo, hi, k), Edge(keys, lo, hi, k + 1), After(kids, after, k));
    if k + 1 == |kids| {
      assert kids[k..] == [kids[k]];
      LeavesOfOne(kids[k]);
      LastPages(kids, k);
    } else {
      RowIsChained(z, keys, kids, d, lo, hi, after, k + 1);
      assert kids[k..][0] == kids[k] && kids[k..][1..] == kids[k + 1..];
      RowPagesApart(z, keys, kids, d, lo, hi, after, k);
      ChainConcat(Leaves(kids[k]), LeavesOf(kids[k + 1..]), after, LeafPages(kids[k]), RowPages(kids, k + 1));
    }
  }

  lemma LastPages(kids: seq<Tree>, k: nat)
    requires k + 1 == |kids|
    ensures RowPages(kids, k) == LeafPages(kids[k])
  {
  }

  lemma RowPagesApart(z: Sizes, keys: seq<Record>, kids: seq<Tree>, d: nat, lo: nat, hi: nat, after: nat, k: nat)
    requires Row(z, keys, kids, d, lo, hi, after) && k + 1 < |kids|
    ensures LeafPages(kids[k]) !! RowPages(kids, k + 1)
    ensures RowPages(kids, k) == LeafPages(kids[k]) + RowPages(kids, k + 1)
  {
    hide Good, Edge, LeafPages, DirPages;
    assert forall i :: k < i < |kids| ==> Apart(kids[k], kids[i]);
  }

  /** Every leaf is on its page. */
  lemma {:induction false} LeavesStored(t: Tree, dirs: seq<DirNode>, leaves: seq<LeafNode>)
    requires Stored(t, dirs, leaves)
    ensures forall i :: 0 <= i < |Leaves(t)| ==> Stored(Leaves(t)[i], dirs, leaves)
    decreases t
  {
    if t.Dir? {
      LeavesOfStored(t.kids, dirs, leaves);
    }
  }

  lemma {:induction false} LeavesOfStored(ts: seq<Tree>, dirs: seq<DirNode>, leaves: seq<LeafNode>)
    requires forall i :: 0 <= i < |ts| ==> Stored(ts[i], dirs, leaves)
    ensures forall i :: 0 <= i < |LeavesOf(ts)| ==> Stored(LeavesOf(ts)[i], dirs, leaves)
    decreases ts
  {
    if ts != [] {
      LeavesStored(ts[0], dirs, leaves);
      LeavesOfStored(ts[1..], dirs, leaves);
    }
  }

  // ----- positions -----------------------------------------------------------------------------------

  /** How many records come before slot `pos` of leaf `li`; a slot beyond the end counts as the end. */
  ghost function Position(ls: seq<Tree>, li: nat, pos: nat): nat
    requires li < |ls| && ls[li].Leaf?
  {
    |Flat(ls[..li])| + if pos <= |ls[li].records| then pos else |ls[li].records|
  }

  /** The record at a position is the one in the slot. */
  lemma AtPosition(ls: seq<Tree>, li: nat, pos: nat)
    requires li < |ls| && ls[li].Leaf?
    ensures Position(ls, li, pos) <= |Flat(ls)|
    ensures Position(ls, li, pos) == 0 ==> pos == 0 || ls[li].records == []
    ensures pos < |ls[li].records| ==> Position(ls, li, pos) < |Flat(ls)| && Flat(ls)[Position(ls, li, pos)] == ls[li].records[pos]
    ensures pos >= |ls[li].records| && li + 1 < |ls| && ls[li + 1].Leaf? ==> Position(ls, li, pos) == Position(ls, li + 1, 0)
    ensures pos >= |ls[li].records| && li + 1 == |ls| ==> Position(ls, li, pos) == |Flat(ls)|
  {
    SplitAround(ls, li);
    FlatConcat(ls[..li] + [ls[li]], ls[li + 1..]);
    FlatConcat(ls[..li], [ls[li]]);
    assert Flat([ls[li]]) == ls[li].records + Flat([]);
    if li + 1 < |ls| {
      assert ls[..li + 1] == ls[..li] + [ls[li]];
    } else {
      assert ls[li + 1..] == [];
    }
  }

  /** A directory inside the tree whose leaves are `all`: the subtree below it and what is around it. */
  datatype Spot = Spot(t: Tree, d: nat, lo: nat, hi: nat, after: nat, left: seq<Tree>, right: seq<Tree>)

  ghost predicate SpotIn(z: Sizes, all: seq<Tree>, s: Spot) {
    && GoodDir(z, s.t, s.d, s.lo, s.hi, s.after)
    && all == s.left + Leaves(s.t) + s.right && AllBelow(Flat(s.left), s.lo) && NoneBelow(Flat(s.right), s.hi)
  }

  ghost function KidSpot(s: Spot, i: nat): Spot
    requires s.t.Dir? && s.d > 0 && i < |s.t.kids|
  {
    Spot(s.t.kids[i], s.d - 1, Edge(s.t.keys, s.lo, s.hi, i), Edge(s.t.keys, s.lo, s.hi, i + 1), After(s.t.kids, s.after, i),
         s.left + LeavesOf(s.t.kids[..i]), LeavesOf(s.t.kids[i + 1..]) + s.right)
  }

  lemma KidAround(z: Sizes, all: seq<Tree>, s: Spot, i: nat)
    requires SpotIn(z, all, s) && i < |s.t.kids|
    ensures var k := KidSpot(s, i);
      && Good(z, k.t, k.d, k.lo, k.hi, k.after)
      && all == k.left + Leaves(k.t) + k.right && AllBelow(Flat(k.left), k.lo) && NoneBelow(Flat(k.right), k.hi)
  {
    hide Rank, Leaves, LeavesOf, Flat;
    var t, k := s.t, KidSpot(s, i);
    KidIsGood(z, s, i);
    RowAround(z, t.keys, t.kids, s.d - 1, s.lo, s.hi, s.after, i);
    LeavesAround(t.kids, i);
    assert Leaves(t) == LeavesOf(t.kids) by { LeavesOfDir(t); }
    FlatLeavesOf(t.kids[..i]);
    FlatLeavesOf(t.kids[i + 1..]);
    FlatConcat(s.left, LeavesOf(t.kids[..i]));
    FlatConcat(LeavesOf(t.kids[i + 1..]), s.right);
  }

  lemma LeavesOfDir(t: Tree)
    requires t.Dir?
    ensures Leaves(t) == LeavesOf(t.kids)
  {
  }

  lemma KidIsGood(z: Sizes, s: Spot, i: nat)
    requires GoodDir(z, s.t, s.d, s.lo, s.hi, s.after) && i < |s.t.kids|
    ensures Good(z, KidSpot(s, i).t, s.d - 1, KidSpot(s, i).lo, KidSpot(s, i).hi, KidSpot(s, i).after)
    ensures s.lo <= KidSpot(s, i).lo && KidSpot(s, i).hi <= s.hi
  {
    hide Good;
    if i > 0 {
      EdgesAscend(z, s.t.keys, s.t.kids, s.d - 1, s.lo, s.hi, s.after, 0, i);
    }
    if i + 1 < |s.t.kids| {
      EdgesAscend(z, s.t.keys, s.t.kids, s.d - 1, s.lo, s.hi, s.after, i + 1, |s.t.kids|);
    }
  }

  /** The place of `x` in a leaf is its place in the whole tree. */
  lemma PlaceInLeaf(all: seq<Tree>, left: seq<Tree>, leaf: Tree, right: seq<Tree>, lo: nat, hi: nat, x: nat, index: nat)
    requires leaf.Leaf? && all == left + [leaf] + right && AllBelow(Flat(left), lo) && NoneBelow(Flat(right), hi) && lo <= x < hi
    requires if leaf.records == [] then true else index == Place(leaf.records, x)
    ensures Position(all, |left|, index) == Place(Flat(all), x)
  {
    hide Rank, Place, Flat;
    FlatConcat(left + [leaf], right);
    FlatConcat(left, [leaf]);
    FlatOne(leaf);
    PlaceInside(Flat(left), leaf.records, Flat(right), x);
    SlicesOf(left, leaf, right);
    if leaf.records == [] {
      PlaceIs(leaf.records, x, 0);
    }
  }

  lemma FlatOne(leaf: Tree)
    requires leaf.Leaf?
    ensures Flat([leaf]) == leaf.records
  {
    assert Flat([leaf]) == leaf.records + Flat([]);
  }

  lemma SlicesOf<T>(a: seq<T>, x: T, b: seq<T>)
    ensures (a + [x] + b)[..|a|] == a && (a + [x] + b)[|a|] == x
  {
  }

  /** When `x` lies between the first and the last record of a leaf, its place there is its place in the
      whole tree. */
  lemma PlaceInCachedLeaf(all: seq<Tree>, li: nat, x: nat)
    requires li < |all| && all[li].Leaf? && Ascending(Flat(all)) && all[li].records != []
    requires Rank(all[li].records[0]) <= x <= Rank(all[li].records[|all[li].records| - 1])
    ensures Place(all[li].records, x) < |all[li].records|
    ensures Position(all, li, Place(all[li].records, x)) == Place(Flat(all), x)
  {
    hide Rank, Place, Flat;
    var left, leaf, right := all[..li], all[li], all[li + 1..];
    SplitAround(all, li);
    FlatConcat(left + [leaf], right);
    FlatConcat(left, [leaf]);
    FlatOne(leaf);
    AscendingAround(Flat(left), leaf.records, Flat(right));
    PlaceInLeaf(all, left, leaf, right, Rank(leaf.records[0]), Rank(leaf.records[|leaf.records| - 1]) + 1, x, Place(leaf.records, x));
  }

  lemma AscendingAround(a: seq<Record>, b: seq<Record>, c: seq<Record>)
    requires Ascending(a + b + c) && b != []
    ensures AllBelow(a, Rank(b[0])) && NoneBelow(c, Rank(b[|b| - 1]) + 1) && Ascending(b)
  {
    hide Rank;
    var s := a + b + c;
    assert s[|a|] == b[0] && s[|a| + |b| - 1] == b[|b| - 1];
    assert forall i :: 0 <= i < |a| ==> s[i] == a[i];
    assert forall i :: 0 <= i < |b| ==> s[|a| + i] == b[i];
    forall i | 0 <= i < |c| ensures Rank(c[i]) >= Rank(b[|b| - 1]) + 1 {
      assert s[|a| + |b| + i] == c[i];
    }
  }

  lemma LeafAscends(all: seq<Tree>, li: nat)
    requires li < |all| && all[li].Leaf? && Ascending(Flat(all))
    ensures Ascending(all[li].records)
  {
    hide Rank, Flat;
    if all[li].records != [] {
      SplitAround(all, li);
      FlatConcat(all[..li] + [all[li]], all[li + 1..]);
      FlatConcat(all[..li], [all[li]]);
      FlatOne(all[li]);
      AscendingAround(Flat(all[..li]), all[li].records, Flat(all[li + 1..]));
    }
  }

  /** Only the leaf on page 0 may be empty, when no leaf follows it. */
  ghost predicate NoEmptyLeaf(ls: seq<Tree>) {
    forall i :: 0 <= i < |ls| ==> ls[i].Leaf? && (ls[i].records == [] ==> ls[i].page == 0 && ls[i].next == 0)
  }

  lemma {:induction false} GoodHasNoEmptyLeaf(z: Sizes, t: Tree, d: nat, lo: nat, hi: nat, after: nat)
    requires Good(z, t, d, lo, hi, after) || GoodDir(z, t, d, lo, hi, after)
    ensures NoEmptyLeaf(Leaves(t))
    decreases t, 0
  {
    if t.Dir? {
      RowHasNoEmptyLeaf(z, t.keys, t.kids, d - 1, lo, hi, after, 0);
      assert t.kids[0..] == t.kids;
    }
  }

  lemma {:induction false} RowHasNoEmptyLeaf(z: Sizes, keys: seq<Record>, kids: seq<Tree>, d: nat, lo: nat, hi: nat, after: nat, k: nat)
    requires Row(z, keys, kids, d, lo, hi, after) && k <= |kids|
    ensures NoEmptyLeaf(LeavesOf(kids[k..]))
    decreases kids, |kids| - k
  {
    if k < |kids| {
      GoodHasNoEmptyLeaf(z, kids[k], d, Edge(keys, lo, hi, k), Edge(keys, lo, hi, k + 1), After(kids, after, k));
      RowHasNoEmptyLeaf(z, keys, kids, d, lo, hi, after, k + 1);
      assert kids[k..][0] == kids[k] && kids[k..][1..] == kids[k + 1..];
    }
  }

  /** Between the first and the last key of a directory lie only records of its own range. */
  lemma KeysInRange(z: Sizes, t: Tree, d: nat, lo: nat, hi: nat, after: nat, x: nat)
    requires GoodDir(z, t, d, lo, hi, after) && t.keys != [] && Rank(t.keys[0]) <= x <= Rank(t.keys[|t.keys| - 1])
    ensures lo <= x < hi
  {
    hide Rank, Good;
    EdgesAscend(z, t.keys, t.kids, d - 1, lo, hi, after, 0, 1);
    EdgesAscend(z, t.keys, t.kids, d - 1, lo, hi, after, |t.keys|, |t.keys| + 1);
  }
}
