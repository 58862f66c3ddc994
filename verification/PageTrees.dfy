/** B+trees as values: what the pages of an index hold, the tree they make up and its order. */
module PageTrees {
  import opened Records

  datatype LeafNode = LeafNode(records: seq<Record>, next: nat)

  datatype DirNode = DirNode(keys: seq<Record>, children: seq<int>)

  /** The width of the records, and how many fit in a leaf and in a directory. */
  datatype Sizes = Sizes(n: nat, leafMax: nat, dirMax: nat) {
    predicate Valid() {
      n >= 1 && leafMax >= 1 && dirMax >= 2
    }
  }

  datatype Tree = Leaf(page: nat, records: seq<Record>, next: nat)
                | Dir(page: nat, keys: seq<Record>, kids: seq<Tree>)
  {
    /** How a directory refers to this page: leaves by their number, directories by minus theirs. */
    function Pointer(): int {
      if Leaf? then page else 0 - page
    }
  }

  ghost function Pointers(ts: seq<Tree>): (ps: seq<int>)
    ensures |ps| == |ts| && forall i :: 0 <= i < |ts| ==> ps[i] == ts[i].Pointer()
  {
    seq(|ts|, i requires 0 <= i < |ts| => ts[i].Pointer())
  }

  /** The records of a tree from left to right. */
  ghost function InOrder(t: Tree): seq<Record>
    decreases t
  {
    if t.Leaf? then t.records else Joined(t.kids)
  }

  ghost function Joined(ts: seq<Tree>): seq<Record>
    decreases ts
  {
    if ts == [] then [] else InOrder(ts[0]) + Joined(ts[1..])
  }

  /** The page of the leftmost leaf. */
  ghost function First(t: Tree): nat
    decreases t
  {
    if t.Leaf? then t.page else if t.kids == [] then 0 else First(t.kids[0])
  }

  ghost function LeafPages(t: Tree): set<nat>
    decreases t
  {
    if t.Leaf? then {t.page} else set i, p | 0 <= i < |t.kids| && p in LeafPages(t.kids[i]) :: p
  }

  ghost function DirPages(t: Tree): set<nat>
    decreases t
  {
    if t.Leaf? then {} else {t.page} + set i, p | 0 <= i < |t.kids| && p in DirPages(t.kids[i]) :: p
  }

  ghost predicate Apart(s: Tree, t: Tree) {
    LeafPages(s) !! LeafPages(t) && DirPages(s) !! DirPages(t)
  }

  /** The smallest rank that child `i` may hold; for `i` one past the last child, the end of the range. */
  ghost function Edge(keys: seq<Record>, lo: nat, hi: nat, i: nat): nat {
    if i == 0 then lo else if i <= |keys| then Rank(keys[i - 1]) else hi
  }

  /** The leaf that follows child `i`. */
  ghost function After(kids: seq<Tree>, after: nat, i: nat): nat
    requires i < |kids|
  {
    if i + 1 < |kids| then First(kids[i + 1]) else after
  }

  /** A subtree of depth `d`: the records lie in [lo, hi) in order, every leaf is at depth `d`, the
      leaves are chained and the last one leads to `after`, nothing is overfull and no page is used
      twice.  A leaf is empty only while it is the only one. */
  ghost predicate Good(z: Sizes, t: Tree, d: nat, lo: nat, hi: nat, after: nat)
    decreases t
  {
    if t.Leaf? then
      && d == 0 && t.next == after && |t.records| <= z.leafMax && (t.records == [] ==> t.page == 0 && after == 0)
      && AreRecords(z.n, t.records) && Ascending(t.records) && Within(t.records, lo, hi)
    else
      && t.page > 0 && d > 0 && |t.keys| <= z.dirMax
      && Row(z, t.keys, t.kids, d - 1, lo, hi, after)
      && (forall i :: 0 <= i < |t.kids| ==> t.page !in DirPages(t.kids[i]))
  }

  /** What holds of every directory, the root included. */
  ghost predicate GoodDir(z: Sizes, t: Tree, d: nat, lo: nat, hi: nat, after: nat) {
    && t.Dir? && d > 0 && |t.keys| <= z.dirMax
    && Row(z, t.keys, t.kids, d - 1, lo, hi, after)
    && (forall i :: 0 <= i < |t.kids| ==> t.page !in DirPages(t.kids[i]))
  }

  ghost predicate Row(z: Sizes, keys: seq<Record>, kids: seq<Tree>, d: nat, lo: nat, hi: nat, after: nat)
    decreases kids
  {
    && |kids| == |keys| + 1 && AreRecords(z.n, keys)
    && (forall i :: 0 <= i < |kids| ==> Edge(keys, lo, hi, i) < Edge(keys, lo, hi, i + 1))
    && (forall i :: 0 <= i < |kids| ==>
          Good(z, kids[i], d, Edge(keys, lo, hi, i), Edge(keys, lo, hi, i + 1), After(kids, after, i)))
    && (forall i, j :: 0 <= i < j < |kids| ==> Apart(kids[i], kids[j]))
  }

  /** The pages of `t` hold `t`. */
  ghost predicate Stored(t: Tree, dirs: seq<DirNode>, leaves: seq<LeafNode>)
    decreases t
  {
    if t.Leaf? then t.page < |leaves| && leaves[t.page] == LeafNode(t.records, t.next)
    else
      && t.page < |dirs| && dirs[t.page] == DirNode(t.keys, Pointers(t.kids))
      && forall i :: 0 <= i < |t.kids| ==> Stored(t.kids[i], dirs, leaves)
  }

  lemma RowKid(z: Sizes, keys: seq<Record>, kids: seq<Tree>, d: nat, lo: nat, hi: nat, after: nat, i: nat)
    requires Row(z, keys, kids, d, lo, hi, after) && i < |kids|
    ensures Good(z, kids[i], d, Edge(keys, lo, hi, i), Edge(keys, lo, hi, i + 1), After(kids, after, i))
  {
  }

  // ----- order -----------------------------------------------------------------------------------

  lemma {:induction false} JoinedConcat(a: seq<Tree>, b: seq<Tree>)
    ensures Joined(a + b) == Joined(a) + Joined(b)
    decreases a
  {
    if a == [] {
      assert a + b == b;
    } else {
      assert (a + b)[0] == a[0] && (a + b)[1..] == a[1..] + b;
      JoinedConcat(a[1..], b);
    }
  }

  lemma JoinedOne(t: Tree)
    ensures Joined([t]) == InOrder(t)
  {
    assert Joined([t]) == InOrder(t) + Joined([]);
  }

  lemma SplitAround<T>(s: seq<T>, i: nat)
    requires i < |s|
    ensures s == s[..i] + [s[i]] + s[i + 1..]
  {
  }

  /** The records of a row around child `i`. */
  lemma JoinedAround(kids: seq<Tree>, i: nat)
    requires i < |kids|
    ensures Joined(kids) == Joined(kids[..i]) + InOrder(kids[i]) + Joined(kids[i + 1..])
  {
    hide InOrder, Joined;
    var a, b := kids[..i], kids[i + 1..];
    SplitAround(kids, i);
    JoinedConcat(a + [kids[i]], b);
    JoinedConcat(a, [kids[i]]);
    JoinedOne(kids[i]);
  }

  lemma {:induction false} EdgesAscend(z: Sizes, keys: seq<Record>, kids: seq<Tree>, d: nat, lo: nat, hi: nat, after: nat, i: nat, j: nat)
    requires Row(z, keys, kids, d, lo, hi, after) && i < j <= |kids|
    ensures Edge(keys, lo, hi, i) < Edge(keys, lo, hi, j)
    decreases j
  {
    if i < j - 1 {
      EdgesAscend(z, keys, kids, d, lo, hi, after, i, j - 1);
    }
    assert Edge(keys, lo, hi, j - 1) < Edge(keys, lo, hi, j - 1 + 1);
  }

  ghost predicate SortedWithin(n: nat, s: seq<Record>, lo: nat, hi: nat) {
    AreRecords(n, s) && Ascending(s) && Within(s, lo, hi)
  }

  lemma SortedConcat(n: nat, a: seq<Record>, b: seq<Record>, lo: nat, mid: nat, hi: nat)
    requires lo <= mid <= hi && SortedWithin(n, a, lo, mid) && SortedWithin(n, b, mid, hi)
    ensures SortedWithin(n, a + b, lo, hi)
  {
  }

  /** The records of a subtree come in strictly ascending order and stay in its range. */
  lemma {:induction false} GoodIsSorted(z: Sizes, t: Tree, d: nat, lo: nat, hi: nat, after: nat)
    requires Good(z, t, d, lo, hi, after)
    ensures SortedWithin(z.n, InOrder(t), lo, hi)
    decreases t, 0
  {
    if t.Dir? {
      RowIsSorted(z, t.keys, t.kids, d - 1, lo, hi, after, |t.kids|);
      assert t.kids[..|t.kids|] == t.kids;
    }
  }

  lemma {:induction false} RowIsSorted(z: Sizes, keys: seq<Record>, kids: seq<Tree>, d: nat, lo: nat, hi: nat, after: nat, i: nat)
    requires Row(z, keys, kids, d, lo, hi, after) && i <= |kids|
    ensures SortedWithin(z.n, Joined(kids[..i]), lo, Edge(keys, lo, hi, i))
    decreases kids, i
  {
    if i > 0 {
      var k := i - 1;
      RowIsSorted(z, keys, kids, d, lo, hi, after, k);
      GoodIsSorted(z, kids[k], d, Edge(keys, lo, hi, k), Edge(keys, lo, hi, i), After(kids, after, k));
      assert kids[..i] == kids[..k] + [kids[k]];
      JoinedConcat(kids[..k], [kids[k]]);
      JoinedOne(kids[k]);
      if k > 0 {
        EdgesAscend(z, keys, kids, d, lo, hi, after, 0, k);
      }
      SortedConcat(z.n, Joined(kids[..k]), InOrder(kids[k]), lo, Edge(keys, lo, hi, k), Edge(keys, lo, hi, i));
    }
  }

  /** The records of a row to the left of child `i` are below its range and those to the right above it. */
  lemma RowAround(z: Sizes, keys: seq<Record>, kids: seq<Tree>, d: nat, lo: nat, hi: nat, after: nat, i: nat)
    requires Row(z, keys, kids, d, lo, hi, after) && i < |kids|
    ensures Joined(kids) == Joined(kids[..i]) + InOrder(kids[i]) + Joined(kids[i + 1..])
    ensures AllBelow(Joined(kids[..i]), Edge(keys, lo, hi, i))
    ensures NoneBelow(Joined(kids[i + 1..]), Edge(keys, lo, hi, i + 1))
  {
    JoinedAround(kids, i);
    RowIsSorted(z, keys, kids, d, lo, hi, after, i);
    if i + 1 < |kids| {
      CutIsRow(z, keys, kids, d, lo, hi, after, i);
      var right := kids[i + 1..];
      RowIsSorted(z, keys[i + 1..], right, d, Rank(keys[i]), hi, after, |right|);
      assert right[..|right|] == right;
    }
  }

  /** A row cut at key `m`: what is left of it and what is right of it are rows. */
  lemma CutIsRow(z: Sizes, keys: seq<Record>, kids: seq<Tree>, d: nat, lo: nat, hi: nat, after: nat, m: nat)
    requires Row(z, keys, kids, d, lo, hi, after) && m < |keys|
    ensures Row(z, keys[..m], kids[..m + 1], d, lo, Rank(keys[m]), First(kids[m + 1]))
    ensures Row(z, keys[m + 1..], kids[m + 1..], d, Rank(keys[m]), hi, after)
    ensures lo < Rank(keys[m]) < hi && IsRecord(z.n, keys[m]) && |kids| == |keys| + 1
  {
    EdgesAscend(z, keys, kids, d, lo, hi, after, 0, m + 1);
    EdgesAscend(z, keys, kids, d, lo, hi, after, m + 1, |kids|);
    CutRows(z, keys, kids, d, lo, hi, after, m);
  }

  lemma CutRows(z: Sizes, keys: seq<Record>, kids: seq<Tree>, d: nat, lo: nat, hi: nat, after: nat, m: nat)
    requires Row(z, keys, kids, d, lo, hi, after) && m < |keys|
    ensures Row(z, keys[..m], kids[..m + 1], d, lo, Rank(keys[m]), First(kids[m + 1]))
    ensures Row(z, keys[m + 1..], kids[m + 1..], d, Rank(keys[m]), hi, after)
  {
    var k0, t0, k1, t1 := keys[..m], kids[..m + 1], keys[m + 1..], kids[m + 1..];
    forall i | 0 <= i < |t0|
      ensures Edge(k0, lo, Rank(keys[m]), i) < Edge(k0, lo, Rank(keys[m]), i + 1)
      ensures Good(z, t0[i], d, Edge(k0, lo, Rank(keys[m]), i), Edge(k0, lo, Rank(keys[m]), i + 1), After(t0, First(kids[m + 1]), i))
    {
      assert Edge(keys, lo, hi, i) < Edge(keys, lo, hi, i + 1);
    }
    forall i | 0 <= i < |t1|
      ensures Edge(k1, Rank(keys[m]), hi, i) < Edge(k1, Rank(keys[m]), hi, i + 1)
      ensures Good(z, t1[i], d, Edge(k1, Rank(keys[m]), hi, i), Edge(k1, Rank(keys[m]), hi, i + 1), After(t1, after, i))
    {
      assert Edge(keys, lo, hi, m + 1 + i) < Edge(keys, lo, hi, m + 1 + i + 1);
      assert kids[m + 1 + i] == t1[i];
    }
  }

  // ----- replacing a child -------------------------------------------------------------------------

  ghost predicate Bounded(t: Tree, nd: nat, nl: nat) {
    (forall p :: p in LeafPages(t) ==> p < nl) && (forall p :: p in DirPages(t) ==> p < nd)
  }

  /** `s` uses pages of `t` and pages that did not exist before. */
  ghost predicate Renews(s: Tree, t: Tree, nd: nat, nl: nat) {
    && (forall p :: p in LeafPages(s) ==> p in LeafPages(t) || p >= nl)
    && (forall p :: p in DirPages(s) ==> p in DirPages(t) || p >= nd)
  }

  lemma {:induction false} StoredIsBounded(t: Tree, dirs: seq<DirNode>, leaves: seq<LeafNode>)
    requires Stored(t, dirs, leaves)
    ensures Bounded(t, |dirs|, |leaves|)
    decreases t
  {
    if t.Dir? {
      forall i | 0 <= i < |t.kids| ensures Bounded(t.kids[i], |dirs|, |leaves|) {
        StoredIsBounded(t.kids[i], dirs, leaves);
      }
      assert forall p :: p in DirPages(t) ==> p == t.page || exists i :: 0 <= i < |t.kids| && p in DirPages(t.kids[i]);
    }
  }

  /** A tree is still stored when only pages of others changed. */
  lemma {:induction false} StoredElsewhere(t: Tree, dirs: seq<DirNode>, leaves: seq<LeafNode>, dirs': seq<DirNode>, leaves': seq<LeafNode>)
    requires Stored(t, dirs, leaves) && |dirs| <= |dirs'| && |leaves| <= |leaves'|
    requires forall p :: p in DirPages(t) && p < |dirs| ==> dirs'[p] == dirs[p]
    requires forall p :: p in LeafPages(t) && p < |leaves| ==> leaves'[p] == leaves[p]
    ensures Stored(t, dirs', leaves')
    decreases t
  {
    if t.Dir? {
      forall i | 0 <= i < |t.kids| ensures Stored(t.kids[i], dirs', leaves') {
        assert forall p :: p in DirPages(t.kids[i]) ==> p in DirPages(t);
        assert forall p :: p in LeafPages(t.kids[i]) ==> p in LeafPages(t);
        StoredElsewhere(t.kids[i], dirs, leaves, dirs', leaves');
      }
    }
  }

  ghost predicate AllBounded(kids: seq<Tree>, nd: nat, nl: nat) {
    forall i :: 0 <= i < |kids| ==> Bounded(kids[i], nd, nl)
  }

  lemma RowReplace(z: Sizes, keys: seq<Record>, kids: seq<Tree>, d: nat, lo: nat, hi: nat, after: nat, i: nat, t: Tree, nd: nat, nl: nat)
    requires Row(z, keys, kids, d, lo, hi, after) && i < |kids| && AllBounded(kids, nd, nl)
    requires Good(z, t, d, Edge(keys, lo, hi, i), Edge(keys, lo, hi, i + 1), After(kids, after, i))
    requires First(t) == First(kids[i]) && Renews(t, kids[i], nd, nl)
    ensures Row(z, keys, kids[i := t], d, lo, hi, after) && First(kids[i := t][0]) == First(kids[0])
  {
    hide Good, First, LeafPages, DirPages, Edge;
    var row := kids[i := t];
    forall j | 0 <= j < |row|
      ensures Good(z, row[j], d, Edge(keys, lo, hi, j), Edge(keys, lo, hi, j + 1), After(row, after, j))
    {
      assert After(row, after, j) == After(kids, after, j);
    }
    forall j, k | 0 <= j < k < |row| ensures Apart(row[j], row[k]) {
      assert Apart(kids[j], kids[k]) && Bounded(kids[j], nd, nl) && Bounded(kids[k], nd, nl);
    }
  }

  /** The children after child `i` was split into `l` and `r`. */
  ghost function Grown(kids: seq<Tree>, i: nat, l: Tree, r: Tree): (row: seq<Tree>)
    requires i < |kids|
    ensures |row| == |kids| + 1
    ensures forall j :: 0 <= j < |row| ==> row[j] == if j < i then kids[j] else if j == i then l else if j == i + 1 then r else kids[j - 1]
  {
    InsertAt(kids[i := l], i + 1, r)
  }

  lemma RowGrow(z: Sizes, keys: seq<Record>, kids: seq<Tree>, d: nat, lo: nat, hi: nat, after: nat, i: nat,
                l: Tree, k: Record, r: Tree, nd: nat, nl: nat)
    requires Row(z, keys, kids, d, lo, hi, after) && i < |kids| && AllBounded(kids, nd, nl)
    requires IsRecord(z.n, k) && Edge(keys, lo, hi, i) < Rank(k) < Edge(keys, lo, hi, i + 1)
    requires Good(z, l, d, Edge(keys, lo, hi, i), Rank(k), First(r))
    requires Good(z, r, d, Rank(k), Edge(keys, lo, hi, i + 1), After(kids, after, i))
    requires First(l) == First(kids[i]) && Renews(l, kids[i], nd, nl) && Renews(r, kids[i], nd, nl) && Apart(l, r)
    ensures Row(z, InsertAt(keys, i, k), Grown(kids, i, l, r), d, lo, hi, after)
    ensures First(Grown(kids, i, l, r)[0]) == First(kids[0])
  {
    hide Good, First, LeafPages, DirPages;
    var row, ks := Grown(kids, i, l, r), InsertAt(keys, i, k);
    forall j | 0 <= j < |row|
      ensures Edge(ks, lo, hi, j) < Edge(ks, lo, hi, j + 1)
      ensures Good(z, row[j], d, Edge(ks, lo, hi, j), Edge(ks, lo, hi, j + 1), After(row, after, j))
    {
      if j < i {
        assert Edge(keys, lo, hi, j) < Edge(keys, lo, hi, j + 1);
        assert Good(z, kids[j], d, Edge(keys, lo, hi, j), Edge(keys, lo, hi, j + 1), After(kids, after, j));
      } else if j > i + 1 {
        assert Edge(keys, lo, hi, j - 1) < Edge(keys, lo, hi, j);
        assert Good(z, kids[j - 1], d, Edge(keys, lo, hi, j - 1), Edge(keys, lo, hi, j), After(kids, after, j - 1));
      }
    }
    forall a, b | 0 <= a < b < |row| ensures Apart(row[a], row[b]) {
      GrownApart(z, keys, kids, d, lo, hi, after, i, l, r, nd, nl, a, b);
    }
  }

  lemma GrownApart(z: Sizes, keys: seq<Record>, kids: seq<Tree>, d: nat, lo: nat, hi: nat, after: nat, i: nat,
                   l: Tree, r: Tree, nd: nat, nl: nat, a: nat, b: nat)
    requires Row(z, keys, kids, d, lo, hi, after) && i < |kids| && AllBounded(kids, nd, nl)
    requires Renews(l, kids[i], nd, nl) && Renews(r, kids[i], nd, nl) && Apart(l, r)
    requires a < b <= |kids|
    ensures Apart(Grown(kids, i, l, r)[a], Grown(kids, i, l, r)[b])
  {
    hide Good, First, LeafPages, DirPages, Edge;
    var x := if a <= i then a else a - 1;
    var y := if b <= i then b else b - 1;
    assert Bounded(kids[x], nd, nl) && Bounded(kids[y], nd, nl);
    if x < y {
      assert Apart(kids[x], kids[y]);
    }
  }

  lemma JoinedGrown(kids: seq<Tree>, i: nat, l: Tree, r: Tree)
    requires i < |kids|
    ensures Joined(Grown(kids, i, l, r)) == Joined(kids[..i]) + (InOrder(l) + InOrder(r)) + Joined(kids[i + 1..])
  {
    hide InOrder, Joined;
    var a, b := kids[..i], kids[i + 1..];
    assert Grown(kids, i, l, r) == a + [l] + [r] + b;
    JoinedConcat(a + [l] + [r], b);
    JoinedConcat(a + [l], [r]);
    JoinedConcat(a, [l]);
    JoinedOne(l);
    JoinedOne(r);
  }

  lemma JoinedReplaced(kids: seq<Tree>, i: nat, t: Tree)
    requires i < |kids|
    ensures Joined(kids[i := t]) == Joined(kids[..i]) + InOrder(t) + Joined(kids[i + 1..])
  {
    hide InOrder, Joined;
    var row := kids[i := t];
    JoinedAround(row, i);
    assert row[..i] == kids[..i] && row[i + 1..] == kids[i + 1..];
  }

  /** A record in the range of child `i` is in the row just when it is in that child, and putting it
      into that child puts it into the row. */
  lemma RowInsert(z: Sizes, keys: seq<Record>, kids: seq<Tree>, d: nat, lo: nat, hi: nat, after: nat, i: nat, r: Record)
    requires Row(z, keys, kids, d, lo, hi, after) && i < |kids|
    requires Edge(keys, lo, hi, i) <= Rank(r) < Edge(keys, lo, hi, i + 1)
    ensures r in Joined(kids) <==> r in InOrder(kids[i])
    ensures Inserted(Joined(kids), r) == Joined(kids[..i]) + Inserted(InOrder(kids[i]), r) + Joined(kids[i + 1..])
  {
    hide InOrder, Joined, Good, Row, Edge, Inserted;
    RowAround(z, keys, kids, d, lo, hi, after, i);
    InsertedInside(Joined(kids[..i]), InOrder(kids[i]), Joined(kids[i + 1..]), r);
  }
}
