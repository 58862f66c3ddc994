/** B+trees that grow at their right end: a new last leaf, all of whose records are above the others. */
module BulkTrees {
  import opened Records
  import opened PageTrees
  import opened TreeInsertion

  /** The first record of a subtree. */
  ghost function Head(t: Tree): Record
    decreases t
  {
    if t.Leaf? then (if t.records == [] then [] else t.records[0])
    else if t.kids == [] then [] else Head(t.kids[0])
  }

  /** No leaf is empty, and every separator is the first record of the leaf to its right. */
  ghost predicate Separated(t: Tree)
    decreases t
  {
    if t.Leaf? then t.records != []
    else
      && |t.kids| == |t.keys| + 1
      && (forall i :: 0 <= i < |t.kids| ==> Separated(t.kids[i]))
      && (forall i :: 0 <= i < |t.keys| ==> t.keys[i] == Head(t.kids[i + 1]))
  }

  /** The head of a subtree is its least record. */
  lemma {:induction false} HeadIsFirst(z: Sizes, t: Tree, d: nat, lo: nat, hi: nat, after: nat)
    requires (Good(z, t, d, lo, hi, after) || GoodDir(z, t, d, lo, hi, after)) && Separated(t)
    ensures InOrder(t) != [] && InOrder(t)[0] == Head(t)
    decreases t
  {
    if t.Dir? {
      RowKid(z, t.keys, t.kids, d - 1, lo, hi, after, 0);
      HeadIsFirst(z, t.kids[0], d - 1, Edge(t.keys, lo, hi, 0), Edge(t.keys, lo, hi, 1), After(t.kids, after, 0));
    }
  }

  // ----- a closer end of the range -------------------------------------------------------------------

  /** When all records are below `end`, the range may as well end there. */
  lemma {:induction false} Lower(z: Sizes, t: Tree, d: nat, lo: nat, hi: nat, after: nat, end: nat)
    requires (Good(z, t, d, lo, hi, after) || GoodDir(z, t, d, lo, hi, after)) && Separated(t)
    requires lo < end <= hi && AllBelow(InOrder(t), end)
    ensures Good(z, t, d, lo, hi, after) ==> Good(z, t, d, lo, end, after)
    ensures GoodDir(z, t, d, lo, hi, after) ==> GoodDir(z, t, d, lo, end, after)
    decreases t
  {
    if t.Dir? {
      LowerRow(z, t, d, lo, hi, after, end);
    }
  }

  lemma {:induction false} LowerRow(z: Sizes, t: Tree, d: nat, lo: nat, hi: nat, after: nat, end: nat)
    requires t.Dir? && d > 0 && Row(z, t.keys, t.kids, d - 1, lo, hi, after) && Separated(t)
    requires lo < end <= hi && AllBelow(InOrder(t), end)
    ensures Row(z, t.keys, t.kids, d - 1, lo, end, after)
    decreases t, 0
  {
    hide Good, Rank, First, LeafPages, DirPages, Joined;
    var m := |t.keys|;
    var kid := t.kids[m];
    JoinedAround(t.kids, m);
    assert InOrder(t) == Joined(t.kids[..m]) + InOrder(kid) + Joined(t.kids[m + 1..]);
    BelowInside(Joined(t.kids[..m]), InOrder(kid), Joined(t.kids[m + 1..]), end);
    RowKid(z, t.keys, t.kids, d - 1, lo, hi, after, m);
    HeadIsFirst(z, kid, d - 1, Edge(t.keys, lo, hi, m), Edge(t.keys, lo, hi, m + 1), After(t.kids, after, m));
    if m > 0 {
      assert t.keys[m - 1] == Head(kid);
    }
    Lower(z, kid, d - 1, Edge(t.keys, lo, hi, m), Edge(t.keys, lo, hi, m + 1), After(t.kids, after, m), end);
    LastOfRow(z, t.keys, t.kids, d - 1, lo, hi, after, kid, end, after);
    assert t.kids[m := kid] == t.kids;
  }

  lemma BelowInside(a: seq<Record>, b: seq<Record>, c: seq<Record>, end: nat)
    requires AllBelow(a + b + c, end)
    ensures AllBelow(b, end)
  {
    forall i | 0 <= i < |b| ensures Rank(b[i]) < end {
      assert (a + b + c)[|a| + i] == b[i];
    }
  }

  // ----- the last child grows, or there is one more -----------------------------------------------------

  /** The last child may be replaced by one with the same first leaf that goes on farther. */
  lemma LastOfRow(z: Sizes, keys: seq<Record>, kids: seq<Tree>, d: nat, lo: nat, hi: nat, after: nat, t: Tree, end: nat, next: nat)
    requires Row(z, keys, kids, d, lo, hi, after) && Edge(keys, lo, hi, |keys|) < end
    requires Good(z, t, d, Edge(keys, lo, hi, |keys|), end, next) && First(t) == First(kids[|keys|])
    requires forall j :: 0 <= j < |keys| ==> Apart(kids[j], t)
    ensures Row(z, keys, kids[|keys| := t], d, lo, end, next)
    ensures First(kids[|keys| := t][0]) == First(kids[0])
  {
    hide Good, First, Apart, Rank;
    var m := |keys|;
    var row := kids[m := t];
    forall j | 0 <= j < |row|
      ensures Edge(keys, lo, end, j) < Edge(keys, lo, end, j + 1)
      ensures Good(z, row[j], d, Edge(keys, lo, end, j), Edge(keys, lo, end, j + 1), After(row, next, j))
    {
      if j < m {
        assert Edge(keys, lo, hi, j) < Edge(keys, lo, hi, j + 1);
        assert Good(z, kids[j], d, Edge(keys, lo, hi, j), Edge(keys, lo, hi, j + 1), After(kids, after, j));
        assert After(row, next, j) == After(kids, after, j);
      }
    }
    forall i, j | 0 <= i < j < |row| ensures Apart(row[i], row[j]) {
      assert j < m ==> Apart(kids[i], kids[j]);
    }
  }

  /** One more key and child at the right end. */
  lemma RowExtended(z: Sizes, keys: seq<Record>, kids: seq<Tree>, d: nat, lo: nat, k: Record, r: Tree, hi: nat, after: nat)
    requires Row(z, keys, kids, d, lo, Rank(k), First(r)) && IsRecord(z.n, k)
    requires Good(z, r, d, Rank(k), hi, after) && Rank(k) < hi
    requires forall j :: 0 <= j < |kids| ==> Apart(kids[j], r)
    ensures Row(z, keys + [k], kids + [r], d, lo, hi, after)
  {
    hide Good, First, Apart, Rank;
    var ks, row := keys + [k], kids + [r];
    forall j | 0 <= j < |row|
      ensures Edge(ks, lo, hi, j) < Edge(ks, lo, hi, j + 1)
      ensures Good(z, row[j], d, Edge(ks, lo, hi, j), Edge(ks, lo, hi, j + 1), After(row, after, j))
    {
      if j < |kids| {
        assert Edge(keys, lo, Rank(k), j) < Edge(keys, lo, Rank(k), j + 1);
        assert Good(z, kids[j], d, Edge(keys, lo, Rank(k), j), Edge(keys, lo, Rank(k), j + 1), After(kids, First(r), j));
        assert Edge(ks, lo, hi, j) == Edge(keys, lo, Rank(k), j) && Edge(ks, lo, hi, j + 1) == Edge(keys, lo, Rank(k), j + 1);
        assert After(row, after, j) == After(kids, First(r), j);
      }
    }
    forall i, j | 0 <= i < j < |row| ensures Apart(row[i], row[j]) {
      assert j < |kids| ==> Apart(kids[i], kids[j]);
    }
  }

  lemma OneKid(z: Sizes, r: Tree, d: nat, lo: nat, hi: nat, after: nat)
    requires Good(z, r, d, lo, hi, after) && lo < hi
    ensures Row(z, [], [r], d, lo, hi, after)
  {
  }

  // ----- what one level does ------------------------------------------------------------------------------

  /** What inserting the leaf leads to: the same page holds a tree with the leaf at its end, or the tree
      is as it was and there is a tree beside it with just that leaf. */
  ghost predicate Bulked(z: Sizes, t: Tree, leaf: Tree, d: nat, lo: nat, hi: nat, after: nat, nd: nat,
                         split: bool, l: Tree, r: Tree)
    requires leaf.Leaf? && leaf.records != []
  {
    if split then
      l == t && Beside(z, leaf, d, hi, after, nd, r)
    else
      && l.Dir? && l.page == t.page && GoodDir(z, l, d, lo, hi, after) && First(l) == First(t) && Separated(l)
      && Head(l) == Head(t) && InOrder(l) == InOrder(t) + leaf.records
      && Renews(l, t, nd, leaf.page)
  }

  /** A tree that holds the one leaf and otherwise uses new pages. */
  ghost predicate Beside(z: Sizes, leaf: Tree, d: nat, hi: nat, after: nat, nd: nat, r: Tree)
    requires leaf.Leaf? && leaf.records != []
  {
    && Good(z, r, d, Rank(leaf.records[0]), hi, after) && First(r) == leaf.page && Separated(r)
    && Head(r) == leaf.records[0] && InOrder(r) == leaf.records
    && LeafPages(r) == {leaf.page} && (forall p :: p in DirPages(r) ==> p >= nd)
  }

  /** The leaf that is added, and the tree that it follows. */
  ghost predicate Fits(z: Sizes, t: Tree, leaf: Tree, d: nat, lo: nat, hi: nat, after: nat, nd: nat) {
    && leaf.Leaf? && Separated(t) && leaf.records != [] && IsRecord(z.n, leaf.records[0])
    && GoodDir(z, t, d, lo, Rank(leaf.records[0]), leaf.page)
    && Good(z, leaf, 0, Rank(leaf.records[0]), hi, after)
    && Bounded(t, nd, leaf.page)
  }

  lemma LastKid(z: Sizes, t: Tree, d: nat, lo: nat, hi: nat, after: nat)
    requires GoodDir(z, t, d, lo, hi, after) && Separated(t)
    ensures var m := |t.keys|; var kid := t.kids[m];
            && |t.kids| == m + 1 && Good(z, kid, d - 1, Edge(t.keys, lo, hi, m), hi, after)
            && Separated(kid) && (kid.Pointer() < 0 <==> kid.Dir?)
            && Edge(t.keys, lo, hi, m) < hi
  {
    var m := |t.keys|;
    RowKid(z, t.keys, t.kids, d - 1, lo, hi, after, m);
    assert After(t.kids, after, m) == after && Edge(t.keys, lo, hi, m + 1) == hi;
    PointerTells(z, t.kids[m], d - 1, Edge(t.keys, lo, hi, m), hi, after);
    assert Edge(t.keys, lo, hi, m) < Edge(t.keys, lo, hi, m + 1);
  }

  /** The child page is full or a leaf: what is added below belongs into this directory. */
  lemma Extended(z: Sizes, t: Tree, leaf: Tree, d: nat, lo: nat, hi: nat, after: nat, nd: nat, nd': nat, r: Tree)
    requires Fits(z, t, leaf, d, lo, hi, after, nd) && nd <= nd' && Beside(z, leaf, d - 1, hi, after, nd, r)
    requires |t.keys| < z.dirMax
    ensures var l := Dir(t.page, t.keys + [leaf.records[0]], t.kids + [r]);
            Bulked(z, t, leaf, d, lo, hi, after, nd, false, l, r)
  {
    hide Good, Rank, LeafPages, DirPages, First;
    var k, l := leaf.records[0], Dir(t.page, t.keys + [leaf.records[0]], t.kids + [r]);
    LeafRange(z, leaf, hi, after);
    KidsApart(t, r, leaf.page, nd);
    RowExtended(z, t.keys, t.kids, d - 1, lo, k, r, hi, after);
    JoinedConcat(t.kids, [r]);
    JoinedOne(r);
    ExtendedPages(t, l, r, nd, leaf.page);
    FirstOfKids(t);
    FirstOfKids(l);
    HeadOfKids(t);
    HeadOfKids(l);
  }

  lemma LeafRange(z: Sizes, leaf: Tree, hi: nat, after: nat)
    requires leaf.Leaf? && leaf.records != [] && Good(z, leaf, 0, Rank(leaf.records[0]), hi, after)
    ensures Rank(leaf.records[0]) < hi
  {
    assert Rank(leaf.records[0]) <= Rank(leaf.records[0]) < hi;
  }

  lemma FirstOfKids(t: Tree)
    requires t.Dir? && t.kids != []
    ensures First(t) == First(t.kids[0])
  {
  }

  lemma HeadOfKids(t: Tree)
    requires t.Dir? && t.kids != []
    ensures Head(t) == Head(t.kids[0])
  {
  }

  lemma KidsApart(t: Tree, r: Tree, page: nat, nd: nat)
    requires t.Dir? && Bounded(t, nd, page) && LeafPages(r) == {page} && forall p :: p in DirPages(r) ==> p >= nd
    ensures forall j :: 0 <= j < |t.kids| ==> Apart(t.kids[j], r)
    ensures t.page < nd && t.page !in DirPages(r)
  {
    OwnPage(t);
    forall j | 0 <= j < |t.kids| ensures Apart(t.kids[j], r) {
      KidPages(t, j);
    }
  }

  lemma ExtendedPages(t: Tree, l: Tree, r: Tree, nd: nat, page: nat)
    requires t.Dir? && l.Dir? && l.page == t.page && l.kids == t.kids + [r]
    requires LeafPages(r) == {page} && forall p :: p in DirPages(r) ==> p >= nd
    ensures Renews(l, t, nd, page)
  {
    forall j | 0 <= j < |l.kids| ensures Renews(l.kids[j], t, nd, page) {
      if j < |t.kids| {
        KidPages(t, j);
      }
    }
    KidsRenew(l, t, nd, page);
  }

  /** The leaf went into the last child. */
  lemma Passed(z: Sizes, t: Tree, leaf: Tree, d: nat, lo: nat, hi: nat, after: nat, nd: nat, kid: Tree)
    requires Fits(z, t, leaf, d, lo, hi, after, nd) && t.kids[|t.keys|].Dir?
    requires Bulked(z, t.kids[|t.keys|], leaf, d - 1, Edge(t.keys, lo, Rank(leaf.records[0]), |t.keys|), hi, after, nd, false, kid, kid)
    requires t.kids[|t.keys|].page > 0
    ensures Bulked(z, t, leaf, d, lo, hi, after, nd, false, With(t, |t.keys|, kid), kid)
  {
    hide Good, Rank, LeafPages, DirPages, First, InOrder, Joined, Head;
    var m := |t.keys|;
    var l := With(t, m, kid);
    LeafRange(z, leaf, hi, after);
    assert Edge(t.keys, lo, Rank(leaf.records[0]), m) < Edge(t.keys, lo, Rank(leaf.records[0]), m + 1);
    DirIsGood(z, kid, d - 1, Edge(t.keys, lo, Rank(leaf.records[0]), m), hi, after);
    PassedApart(t, kid, nd, leaf.page);
    LastOfRow(z, t.keys, t.kids, d - 1, lo, Rank(leaf.records[0]), leaf.page, kid, hi, after);
    PassedRecords(t, kid, leaf.records);
    PassedPages(t, l, kid, nd, leaf.page);
    FirstOfKids(t);
    FirstOfKids(l);
    HeadOfKids(t);
    HeadOfKids(l);
    assert forall i :: 0 <= i < |l.kids| ==> l.kids[i] == if i == m then kid else t.kids[i];
  }

  lemma PassedApart(t: Tree, kid: Tree, nd: nat, page: nat)
    requires t.Dir? && |t.kids| == |t.keys| + 1 && Bounded(t, nd, page) && Renews(kid, t.kids[|t.keys|], nd, page)
    requires forall i, j :: 0 <= i < j < |t.kids| ==> Apart(t.kids[i], t.kids[j])
    requires forall i :: 0 <= i < |t.kids| ==> t.page !in DirPages(t.kids[i])
    ensures forall j :: 0 <= j < |t.keys| ==> Apart(t.kids[j], kid)
    ensures t.page !in DirPages(kid)
  {
    hide LeafPages, DirPages;
    OwnPage(t);
    forall j | 0 <= j < |t.keys| ensures Apart(t.kids[j], kid) {
      KidPages(t, j);
      assert Apart(t.kids[j], t.kids[|t.keys|]);
    }
  }

  lemma PassedPages(t: Tree, l: Tree, kid: Tree, nd: nat, page: nat)
    requires t.Dir? && |t.kids| == |t.keys| + 1 && l == With(t, |t.keys|, kid) && Renews(kid, t.kids[|t.keys|], nd, page)
    ensures Renews(l, t, nd, page)
  {
    hide LeafPages, DirPages;
    forall j | 0 <= j < |l.kids| ensures Renews(l.kids[j], t, nd, page) {
      if j < |t.keys| {
        KidPages(t, j);
      } else {
        RenewsKid(kid, t, j, nd, page);
      }
    }
    KidsRenew(l, t, nd, page);
  }

  lemma PassedRecords(t: Tree, kid: Tree, records: seq<Record>)
    requires t.Dir? && |t.kids| == |t.keys| + 1 && InOrder(kid) == InOrder(t.kids[|t.keys|]) + records
    ensures InOrder(With(t, |t.keys|, kid)) == InOrder(t) + records
  {
    hide Joined;
    var m := |t.keys|;
    JoinedAround(t.kids, m);
    JoinedReplaced(t.kids, m, kid);
    assert t.kids[m + 1..] == [];
    assert Joined([]) == [] by { NoTrees(); }
  }

  lemma NoTrees()
    ensures Joined([]) == []
  {
  }

  /** A full directory that is not the root stays; the new page beside it holds one child. */
  lemma NewBeside(z: Sizes, leaf: Tree, d: nat, hi: nat, after: nat, nd: nat, nd': nat, r: Tree)
    requires leaf.Leaf? && leaf.records != [] && Beside(z, leaf, d, hi, after, nd, r) && Bounded(r, nd', leaf.page + 1)
    requires nd <= nd' && 0 < nd' && Rank(leaf.records[0]) < hi
    ensures Beside(z, leaf, d + 1, hi, after, nd, Dir(nd', [], [r]))
  {
    hide Rank;
    var s := Dir(nd', [], [r]);
    OneKid(z, r, d, Rank(leaf.records[0]), hi, after);
    JoinedOne(r);
    assert s.kids[0] == r;
    assert LeafPages(s) == LeafPages(r);
    assert DirPages(s) == {nd'} + DirPages(r);
  }

  /** A full root: both halves move to new pages. */
  lemma NewRoot(z: Sizes, t: Tree, leaf: Tree, d: nat, lo: nat, hi: nat, after: nat, nd: nat, nd': nat, r: Tree)
    requires z.Valid() && Fits(z, t, leaf, d, lo, hi, after, nd) && Beside(z, leaf, d - 1, hi, after, nd, r)
    requires nd <= nd' && 0 < nd' && Bounded(r, nd', leaf.page + 1)
    ensures var k := leaf.records[0];
            var x, y := Dir(nd', t.keys, t.kids), Dir(nd' + 1, [], [r]);
            var l := Dir(t.page, [k], [x, y]);
            && Bulked(z, t, leaf, d + 1, lo, hi, after, nd, false, l, r)
  {
    hide Rank, Good, LeafPages, DirPages, First, Row;
    var k := leaf.records[0];
    var x, y := Dir(nd', t.keys, t.kids), Dir(nd' + 1, [], [r]);
    var l := Dir(t.page, [k], [x, y]);
    LeafRange(z, leaf, hi, after);
    MovedGood(z, t, d, lo, Rank(k), leaf.page, nd, nd');
    RangeOfRow(z, t, d, lo, Rank(k), leaf.page);
    BesideBounded(z, leaf, d - 1, hi, after, nd, nd', r);
    NewBeside(z, leaf, d - 1, hi, after, nd, nd' + 1, r);
    MovedPages(t, r, leaf.page, nd, nd');
    RootOfTwo(z, k, x, y, d, lo, hi, after);
    FirstOfKids(t);
    FirstOfKids(x);
    HeadOfKids(t);
    HeadOfKids(x);
    HeadOfKids(l);
    FirstOfKids(l);
    SeparatedRoot(t, leaf, x, y, l);
  }

  lemma BesideBounded(z: Sizes, leaf: Tree, d: nat, hi: nat, after: nat, nd: nat, nd': nat, r: Tree)
    requires leaf.Leaf? && leaf.records != [] && Beside(z, leaf, d, hi, after, nd, r) && Bounded(r, nd', leaf.page + 1)
    ensures Bounded(r, nd' + 1, leaf.page + 1)
  {
  }

  lemma RangeOfRow(z: Sizes, t: Tree, d: nat, lo: nat, hi: nat, after: nat)
    requires GoodDir(z, t, d, lo, hi, after)
    ensures t.kids != [] && lo < hi
  {
    EdgesAscend(z, t.keys, t.kids, d - 1, lo, hi, after, 0, |t.kids|);
  }

  lemma MovedGood(z: Sizes, t: Tree, d: nat, lo: nat, hi: nat, after: nat, nd: nat, page: nat)
    requires GoodDir(z, t, d, lo, hi, after) && Bounded(t, nd, after) && nd <= page && 0 < page
    ensures Good(z, Dir(page, t.keys, t.kids), d, lo, hi, after)
    ensures InOrder(Dir(page, t.keys, t.kids)) == InOrder(t)
  {
    forall i | 0 <= i < |t.kids| ensures page !in DirPages(t.kids[i]) {
      KidPages(t, i);
    }
  }

  lemma MovedPages(t: Tree, r: Tree, leafPage: nat, nd: nat, nd': nat)
    requires t.Dir? && Bounded(t, nd, leafPage) && nd <= nd' && Bounded(r, nd', leafPage + 1)
    requires LeafPages(r) == {leafPage} && forall p :: p in DirPages(r) ==> p >= nd
    requires forall i :: 0 <= i < |t.kids| ==> t.page !in DirPages(t.kids[i])
    ensures var x, y := Dir(nd', t.keys, t.kids), Dir(nd' + 1, [], [r]);
            && Apart(x, y) && t.page !in DirPages(x) && t.page !in DirPages(y)
            && forall k :: Renews(Dir(t.page, [k], [x, y]), t, nd, leafPage)
  {
    var x, y := Dir(nd', t.keys, t.kids), Dir(nd' + 1, [], [r]);
    OwnPage(t);
    assert LeafPages(x) == LeafPages(t);
    assert y.kids[0] == r;
    assert LeafPages(y) == LeafPages(r) && DirPages(y) == {nd' + 1} + DirPages(r);
    forall k ensures Renews(Dir(t.page, [k], [x, y]), t, nd, leafPage) {
      KidsRenew(Dir(t.page, [k], [x, y]), t, nd, leafPage);
    }
  }

  lemma SeparatedRoot(t: Tree, leaf: Tree, x: Tree, y: Tree, l: Tree)
    requires Separated(t) && t.Dir? && x.Dir? && x.keys == t.keys && x.kids == t.kids
    requires leaf.Leaf? && leaf.records != [] && Separated(y) && Head(y) == leaf.records[0]
    requires l.Dir? && l.keys == [leaf.records[0]] && l.kids == [x, y]
    ensures Separated(l)
  {
    assert Separated(x);
  }
}
