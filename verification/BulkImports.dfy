/** The bulk build of an index: a writer for leaf pages and one for directory pages. */
module BulkImports {
  import opened Records
  import opened PageTrees
  import opened TreeInsertion
  import opened LeafChains
  import opened BulkTrees

  // ----- what the pages hold ---------------------------------------------------------------------------

  /** The tree is still stored when its last child changed in pages of its own or new ones. */
  lemma StoredPassed(t: Tree, kid: Tree, dirs: seq<DirNode>, now: seq<DirNode>, leaves: seq<LeafNode>)
    requires t.Dir? && |t.kids| == |t.keys| + 1 && Stored(t, dirs, leaves)
    requires OnlyIn(DirPages(t.kids[|t.keys|]), dirs, now) && Stored(kid, now, leaves)
    requires kid.Pointer() == t.kids[|t.keys|].Pointer()
    requires forall i, j :: 0 <= i < j < |t.kids| ==> Apart(t.kids[i], t.kids[j])
    requires forall i :: 0 <= i < |t.kids| ==> t.page !in DirPages(t.kids[i])
    ensures Stored(With(t, |t.keys|, kid), now, leaves)
  {
    hide LeafPages, DirPages;
    var m := |t.keys|;
    var l := With(t, m, kid);
    assert Pointers(l.kids) == Pointers(t.kids);
    forall j | 0 <= j < |l.kids| ensures Stored(l.kids[j], now, leaves) {
      if j < m {
        assert Apart(t.kids[j], t.kids[m]);
        StoredElsewhere(t.kids[j], dirs, leaves, now, leaves);
      }
    }
  }

  /** A tree that does not use page p is still stored when that page is rewritten and others are added. */
  lemma StoredBeside(t: Tree, dirs: seq<DirNode>, now: seq<DirNode>, leaves: seq<LeafNode>, p: nat)
    requires Stored(t, dirs, leaves) && OnlyIn({p}, dirs, now) && p !in DirPages(t)
    ensures Stored(t, now, leaves)
  {
    StoredElsewhere(t, dirs, leaves, now, leaves);
  }

  lemma KidsStoredBeside(t: Tree, dirs: seq<DirNode>, now: seq<DirNode>, leaves: seq<LeafNode>)
    requires t.Dir? && Stored(t, dirs, leaves) && OnlyIn({t.page}, dirs, now)
    requires forall i :: 0 <= i < |t.kids| ==> t.page !in DirPages(t.kids[i])
    ensures AllStored(t.kids, now, leaves)
  {
    hide DirPages, LeafPages;
    forall j | 0 <= j < |t.kids| ensures Stored(t.kids[j], now, leaves) {
      StoredBeside(t.kids[j], dirs, now, leaves, t.page);
    }
  }

  lemma StoredIs(t: Tree, dirs: seq<DirNode>, leaves: seq<LeafNode>)
    requires t.Dir? && t.page < |dirs| && dirs[t.page] == DirNode(t.keys, Pointers(t.kids)) && AllStored(t.kids, dirs, leaves)
    ensures Stored(t, dirs, leaves)
  {
  }

  lemma StoredExtended(t: Tree, k: Record, r: Tree, dirs: seq<DirNode>, leaves: seq<LeafNode>)
    requires t.Dir? && Stored(t, dirs, leaves) && Stored(r, dirs, leaves) && t.page !in DirPages(r)
    requires forall i :: 0 <= i < |t.kids| ==> t.page !in DirPages(t.kids[i])
    ensures t.page < |dirs|
    ensures var now := dirs[t.page := DirNode(t.keys + [k], Pointers(t.kids) + [r.Pointer()])];
            Stored(Dir(t.page, t.keys + [k], t.kids + [r]), now, leaves) && OnlyIn({t.page}, dirs, now)
  {
    hide DirPages, LeafPages;
    var l := Dir(t.page, t.keys + [k], t.kids + [r]);
    var now := dirs[t.page := DirNode(t.keys + [k], Pointers(t.kids) + [r.Pointer()])];
    KidsStoredBeside(t, dirs, now, leaves);
    StoredBeside(r, dirs, now, leaves, t.page);
    assert Pointers(l.kids) == Pointers(t.kids) + [r.Pointer()];
    StoredIs(l, now, leaves);
  }

  lemma StoredNewBeside(t: Tree, r: Tree, dirs: seq<DirNode>, leaves: seq<LeafNode>)
    requires Stored(t, dirs, leaves) && Stored(r, dirs, leaves)
    ensures var now := dirs + [DirNode([], [r.Pointer()])];
            Stored(t, now, leaves) && Stored(Dir(|dirs|, [], [r]), now, leaves)
  {
    hide DirPages, LeafPages;
    var now := dirs + [DirNode([], [r.Pointer()])];
    var s := Dir(|dirs|, [], [r]);
    StoredElsewhere(t, dirs, leaves, now, leaves);
    StoredElsewhere(r, dirs, leaves, now, leaves);
    assert Pointers(s.kids) == [r.Pointer()];
    assert forall j :: 0 <= j < |s.kids| ==> s.kids[j] == r;
    StoredIs(s, now, leaves);
  }

  lemma StoredNewRoot(t: Tree, k: Record, r: Tree, dirs: seq<DirNode>, leaves: seq<LeafNode>)
    requires t.Dir? && Stored(t, dirs, leaves) && Stored(r, dirs, leaves) && t.page !in DirPages(r)
    requires forall i :: 0 <= i < |t.kids| ==> t.page !in DirPages(t.kids[i])
    ensures t.page < |dirs|
    ensures var nd := |dirs|;
            var now := (dirs + [dirs[t.page], DirNode([], [r.Pointer()])])[t.page := DirNode([k], [0 - nd, 0 - (nd + 1)])];
            var x, y := Dir(nd, t.keys, t.kids), Dir(nd + 1, [], [r]);
            Stored(Dir(t.page, [k], [x, y]), now, leaves) && OnlyIn({t.page}, dirs, now)
  {
    hide DirPages, LeafPages;
    var nd := |dirs|;
    var now := (dirs + [dirs[t.page], DirNode([], [r.Pointer()])])[t.page := DirNode([k], [0 - nd, 0 - (nd + 1)])];
    var x, y := Dir(nd, t.keys, t.kids), Dir(nd + 1, [], [r]);
    var l := Dir(t.page, [k], [x, y]);
    KidsStoredBeside(t, dirs, now, leaves);
    StoredBeside(r, dirs, now, leaves, t.page);
    StoredIs(x, now, leaves);
    assert Pointers(y.kids) == [r.Pointer()];
    assert forall j :: 0 <= j < |y.kids| ==> y.kids[j] == r;
    StoredIs(y, now, leaves);
    assert Pointers(l.kids) == [0 - nd, 0 - (nd + 1)];
    StoredIs(l, now, leaves);
  }

  lemma LeafBeside(z: Sizes, t: Tree, leaf: Tree, d: nat, lo: nat, hi: nat, after: nat, nd: nat)
    requires Fits(z, t, leaf, d, lo, hi, after, nd)
    ensures Beside(z, leaf, 0, hi, after, nd, leaf) && Bounded(leaf, nd, leaf.page + 1)
    ensures leaf.Pointer() == leaf.page
  {
  }

  lemma KidFits(z: Sizes, t: Tree, leaf: Tree, d: nat, lo: nat, hi: nat, after: nat, nd: nat)
    requires Fits(z, t, leaf, d, lo, hi, after, nd)
    ensures t.Dir? && d > 0 && leaf.Leaf? && leaf.records != []
    ensures var m := |t.keys|;
            && m < |t.kids|
            && (t.kids[m].Pointer() < 0 <==> t.kids[m].Dir?)
            && (t.kids[m].Leaf? ==> d == 1)
            && (t.kids[m].Dir? ==>
                  Fits(z, t.kids[m], leaf, d - 1, Edge(t.keys, lo, Rank(leaf.records[0]), m), hi, after, nd) && t.kids[m].page > 0)
    ensures forall i, j :: 0 <= i < j < |t.kids| ==> Apart(t.kids[i], t.kids[j])
    ensures forall i :: 0 <= i < |t.kids| ==> t.page !in DirPages(t.kids[i])
    ensures |t.kids| == |t.keys| + 1 && |t.keys| <= z.dirMax
  {
    hide Rank;
    var m := |t.keys|;
    LastKid(z, t, d, lo, Rank(leaf.records[0]), leaf.page);
    KidPages(t, m);
    if t.kids[m].Dir? {
      GoodIsDir(z, t.kids[m], d - 1, Edge(t.keys, lo, Rank(leaf.records[0]), m), Rank(leaf.records[0]), leaf.page);
    }
  }

  lemma StoredLast(t: Tree, dirs: seq<DirNode>, leaves: seq<LeafNode>)
    requires t.Dir? && |t.kids| == |t.keys| + 1 && Stored(t, dirs, leaves)
    ensures t.page < |dirs| && dirs[t.page].keys == t.keys && |dirs[t.page].children| == |t.keys| + 1
    ensures dirs[t.page].children == Pointers(t.kids)
    ensures dirs[t.page].children[|t.keys|] == t.kids[|t.keys|].Pointer()
    ensures Stored(t.kids[|t.keys|], dirs, leaves)
  {
  }

  // ----- the finished index ------------------------------------------------------------------------------

  /** The leaf file as the leaves of the tree: each leads to the next one, and the last one to `next`. */
  ghost predicate Chained(file: seq<LeafNode>, next: nat) {
    forall i :: 0 <= i < |file| ==> file[i].next == if i + 1 < |file| then i + 1 else next
  }

  function RecordsOf(file: seq<LeafNode>): seq<Record> {
    if file == [] then [] else RecordsOf(file[..|file| - 1]) + file[|file| - 1].records
  }

  lemma RecordsOfMore(file: seq<LeafNode>, node: LeafNode)
    ensures RecordsOf(file + [node]) == RecordsOf(file) + node.records
  {
    assert (file + [node])[..|file|] == file;
  }

  /** The pages make up a good tree over the leaf file; its last leaf leads to `next`. */
  ghost predicate Complete(z: Sizes, tree: Tree, depth: nat, pages: seq<DirNode>, file: seq<LeafNode>, next: nat) {
    && file != [] && tree.Dir? && tree.page == 0 && First(tree) == 0 && Separated(tree)
    && GoodDir(z, tree, depth, 0, Limit(z.n), next) && Stored(tree, pages, file)
    && InOrder(tree) == RecordsOf(file) && Chained(file, next)
  }

  lemma {:induction false} FirstLeaf(z: Sizes, output: seq<Record>, next: nat)
    requires z.Valid() && 0 < |output| <= z.leafMax && AreRecords(z.n, output) && Ascending(output)
    ensures Complete(z, Dir(0, [], [Leaf(0, output, next)]), 1, [DirNode([], [0])], [LeafNode(output, next)], next)
  {
    hide Rank;
    var leaf, file := Leaf(0, output, next), [LeafNode(output, next)];
    forall i | 0 <= i < |output| ensures 0 <= Rank(output[i]) < Limit(z.n) {
      RankBelowLimit(z.n, output[i]);
    }
    assert IsRecord(z.n, output[0]);
    OneKid(z, leaf, 0, 0, Limit(z.n), next);
    JoinedOne(leaf);
    RecordsOfMore([], file[0]);
    assert [] + [file[0]] == file;
    assert Pointers([leaf]) == [0];
    var t := Dir(0, [], [leaf]);
    assert RecordsOf(file) == output == InOrder(t);
    assert GoodDir(z, t, 1, 0, Limit(z.n), next) && First(t) == 0 && Separated(t);
    assert Stored(t, [DirNode([], [0])], file);
    assert |file| == 1 && file[0].next == next;
  }

  /** The leaf to come, and the tree seen as ending where it begins. */
  lemma {:induction false} NextLeaf(z: Sizes, tree: Tree, depth: nat, pages: seq<DirNode>, file: seq<LeafNode>, output: seq<Record>, next: nat)
    requires z.Valid() && Complete(z, tree, depth, pages, file, |file|)
    requires 0 < |output| <= z.leafMax && AreRecords(z.n, output) && Ascending(RecordsOf(file) + output)
    ensures var leaf, leaves := Leaf(|file|, output, next), file + [LeafNode(output, next)];
            && tree.Dir? && tree.page == 0 && Fits(z, tree, leaf, depth, 0, Limit(z.n), next, |pages|)
            && Stored(tree, pages, leaves) && Stored(leaf, pages, leaves)
  {
    hide Rank, Chained, Separated, RecordsOf;
    var leaf, leaves := Leaf(|file|, output, next), file + [LeafNode(output, next)];
    var all, m := RecordsOf(file) + output, |RecordsOf(file)|;
    forall i | 0 <= i < m ensures Rank(RecordsOf(file)[i]) < Rank(output[0]) {
      assert all[i] == RecordsOf(file)[i] && all[m] == output[0];
    }
    forall i, j | 0 <= i < j < |output| ensures Rank(output[i]) < Rank(output[j]) {
      assert all[m + i] == output[i] && all[m + j] == output[j];
    }
    forall i | 0 <= i < |output| ensures Rank(output[0]) <= Rank(output[i]) < Limit(z.n) {
      RankBelowLimit(z.n, output[i]);
    }
    HeadIsFirst(z, tree, depth, 0, Limit(z.n), |file|);
    assert 0 <= Rank(InOrder(tree)[0]) < Rank(output[0]);
    Lower(z, tree, depth, 0, Limit(z.n), |file|, Rank(output[0]));
    StoredIsBounded(tree, pages, file);
    StoredElsewhere(tree, pages, file, pages, leaves);
  }

  lemma {:induction false} LeafAdded(z: Sizes, tree: Tree, depth: nat, pages: seq<DirNode>, file: seq<LeafNode>, output: seq<Record>, next: nat,
                  l: Tree, r: Tree, e: nat, now: seq<DirNode>)
    requires 0 < |output| && Complete(z, tree, depth, pages, file, |file|)
    requires Bulked(z, tree, Leaf(|file|, output, next), e, 0, Limit(z.n), next, |pages|, false, l, r)
    requires Stored(l, now, file + [LeafNode(output, next)])
    ensures Complete(z, l, e, now, file + [LeafNode(output, next)], next)
  {
    hide Rank, GoodDir, Stored, Separated, InOrder, First;
    RecordsOfMore(file, LeafNode(output, next));
  }

  /** What a complete index is: all leaves at one depth, chained in order, holding the records of the leaf file
      in strictly ascending order; and every separator is the first record of the leaf to its right. */
  lemma {:induction false} CompleteIndex(z: Sizes, tree: Tree, depth: nat, pages: seq<DirNode>, file: seq<LeafNode>)
    requires Complete(z, tree, depth, pages, file, 0)
    ensures GoodDir(z, tree, depth, 0, Limit(z.n), 0) && Stored(tree, pages, file)
    ensures Chain(Leaves(tree), 0) && Flat(Leaves(tree)) == InOrder(tree) == RecordsOf(file)
    ensures AreRecords(z.n, RecordsOf(file)) && Ascending(RecordsOf(file)) && Separated(tree)
  {
    hide Rank, Stored, Chained, Separated, RecordsOf;
    GoodIsChained(z, tree, depth, 0, Limit(z.n), 0);
    FlatLeaves(tree);
    RowIsSorted(z, tree.keys, tree.kids, depth - 1, 0, Limit(z.n), 0, |tree.kids|);
    assert tree.kids[..|tree.kids|] == tree.kids;
  }

  // ----- the writers -----------------------------------------------------------------------------------

  /** The leaf file and the directory pages under construction. */
  class BptWriter {
    const z: Sizes
    var leafFile: seq<LeafNode>
    var pages: seq<DirNode>
    ghost var tree: Tree
    ghost var depth: nat

    constructor (z: Sizes)
      ensures this.z == z && leafFile == [] && pages == [DirNode([], [0])]
      ensures tree == Dir(0, [], [Leaf(0, [], 0)]) && depth == 1
    {
      this.z, leafFile, pages := z, [], [DirNode([], [0])];
      tree, depth := Dir(0, [], [Leaf(0, [], 0)]), 1;
    }

    /** Add the leaf to the last child of the directory; what does not fit comes back as one more child
        for the directory above. */
    method BulkInsert(record: Record, p: nat, leafPage: nat, ghost t: Tree, ghost leaf: Tree, ghost d: nat, ghost lo: nat,
                      ghost hi: nat, ghost after: nat, ghost leaves: seq<LeafNode>)
      returns (split: bool, pointer: int, ghost l: Tree, ghost r: Tree, ghost e: nat)
      requires z.Valid() && Fits(z, t, leaf, d, lo, hi, after, |pages|) && t.Dir? && t.page == p
      requires leaf.page == leafPage && leaf.records[0] == record && |leaves| == leafPage + 1
      requires Stored(t, pages, leaves) && Stored(leaf, pages, leaves)
      modifies this`pages
      ensures OnlyIn(DirPages(t), old(pages), pages)
      ensures Bulked(z, t, leaf, e, lo, hi, after, |old(pages)|, split, l, r) && (p != 0 ==> e == d)
      ensures split ==> p != 0 && pointer == r.Pointer() && Stored(t, pages, leaves) && Stored(r, pages, leaves)
      ensures !split ==> Stored(l, pages, leaves)
      decreases t
    {
      hide Fits, Bulked, Beside, Stored, Good, GoodDir, DirPages, LeafPages, Rank, Separated, InOrder, Head, First;
      ghost var nd := |pages|;
      KidFits(z, t, leaf, d, lo, hi, after, nd);
      ghost var m := |t.keys|;
      StoredLast(t, pages, leaves);
      ghost var kid := t.kids[m];
      ghost var now := kid;
      e := d;
      if pages[p].children[|pages[p].keys|] < 0 {
        ghost var f;
        split, pointer, now, r, f := BulkInsert(record, 0 - pages[p].children[|pages[p].keys|], leafPage, kid, leaf, d - 1,
                                                Edge(t.keys, lo, Rank(leaf.records[0]), m), hi, after, leaves);
        BulkedPointer(z, kid, leaf, d - 1, Edge(t.keys, lo, Rank(leaf.records[0]), m), hi, after, nd, split, now, r);
      } else {
        split, pointer, r := true, leafPage, leaf;
        LeafBeside(z, t, leaf, d, lo, hi, after, nd);
      }
      if split {
        StoredPassed(t, kid, old(pages), pages, leaves);
        assert With(t, m, kid) == t by { assert t.kids[m := kid] == t.kids; }
        StoredIsBounded(r, pages, leaves);
        split, pointer, l, r, e := Place(record, p, pointer, t, leaf, d, lo, hi, after, nd, r, leaves);
      } else {
        Passed(z, t, leaf, d, lo, hi, after, nd, now);
        StoredPassed(t, now, old(pages), pages, leaves);
        l := With(t, m, now);
        BulkedDropsRight(z, t, leaf, d, lo, hi, after, nd, l, now, r);
      }
      OwnPage(t);
      KidPages(t, m);
    }

    /** The three cases for one more child of a directory: there is room, or a new page beside it, or a root
        whose content moves down. */
    method Place(record: Record, p: nat, child: int, ghost t: Tree, ghost leaf: Tree, ghost d: nat, ghost lo: nat,
                 ghost hi: nat, ghost after: nat, ghost nd: nat, ghost kid: Tree, ghost leaves: seq<LeafNode>)
      returns (split: bool, pointer: int, ghost l: Tree, ghost r: Tree, ghost e: nat)
      requires z.Valid() && Fits(z, t, leaf, d, lo, hi, after, nd) && t.page == p && nd <= |pages|
      requires leaf.records[0] == record && d > 0 && child == kid.Pointer()
      requires Beside(z, leaf, d - 1, hi, after, nd, kid) && Bounded(kid, |pages|, leaf.page + 1)
      requires Stored(t, pages, leaves) && Stored(kid, pages, leaves)
      modifies this`pages
      ensures OnlyIn({t.page}, old(pages), pages)
      ensures Bulked(z, t, leaf, e, lo, hi, after, nd, split, l, r) && (p != 0 ==> e == d)
      ensures split ==> p != 0 && pointer == r.Pointer() && Stored(t, pages, leaves) && Stored(r, pages, leaves)
      ensures !split ==> Stored(l, pages, leaves)
    {
      hide Fits, Bulked, Beside, Stored, Good, GoodDir, DirPages, LeafPages, Rank, Separated, InOrder, Head, First;
      KidFits(z, t, leaf, d, lo, hi, after, nd);
      StoredLast(t, pages, leaves);
      BesideApart(z, t, leaf, d, lo, hi, after, nd, kid);
      r := kid;
      e := d;
      if |pages[p].keys| < z.dirMax {
        StoredExtended(t, record, kid, pages, leaves);
        Extended(z, t, leaf, d, lo, hi, after, nd, |pages|, kid);
        pages := pages[p := DirNode(pages[p].keys + [record], pages[p].children + [child])];
        split, pointer, l := false, 0, Dir(t.page, t.keys + [record], t.kids + [kid]);
      } else if p != 0 {
        StoredNewBeside(t, kid, pages, leaves);
        NewBeside(z, leaf, d - 1, hi, after, nd, |pages|, kid);
        r := Dir(|pages|, [], [kid]);
        BesideIsBulked(z, t, leaf, d, lo, hi, after, nd, r);
        split, pointer, l := true, 0 - |pages|, t;
        pages := pages + [DirNode([], [child])];
      } else {
        StoredNewRoot(t, record, kid, pages, leaves);
        NewRoot(z, t, leaf, d, lo, hi, after, nd, |pages|, kid);
        l := Dir(t.page, [record], [Dir(|pages|, t.keys, t.kids), Dir(|pages| + 1, [], [kid])]);
        var lhs, rhs := |pages|, |pages| + 1;
        pages := (pages + [pages[p], DirNode([], [child])])[p := DirNode([record], [0 - lhs, 0 - rhs])];
        split, pointer, e := false, 0, d + 1;
      }
    }

    method ProcessBlock(output: seq<Record>, next: nat)
      modifies this`leafFile
      ensures leafFile == old(leafFile) + [LeafNode(output, next)]
    {
      leafFile := leafFile + [LeafNode(output, next)];
    }

    method MakeEmpty()
      modifies this`leafFile
      ensures leafFile == old(leafFile) + [LeafNode([], 0)]
    {
      leafFile := leafFile + [LeafNode([], 0)];
    }

    /** What has been written so far is an index, but for its last leaf, which leads to the one to come. */
    ghost predicate Valid(next: nat)
      reads this
    {
      Complete(z, tree, depth, pages, leafFile, next)
    }

    /** Nothing has been written. */
    ghost predicate Untouched()
      reads this
    {
      leafFile == [] && pages == [DirNode([], [0])]
    }

    /** One more leaf: its first record goes into the directories, unless it is the first leaf, and then the
        leaf is written. */
    method FlushBlock(output: seq<Record>, leafBlock: nat, next: nat)
      requires z.Valid() && leafBlock == |leafFile| && (if leafBlock == 0 then Untouched() else Valid(leafBlock))
      requires 0 < |output| <= z.leafMax && AreRecords(z.n, output) && Ascending(RecordsOf(leafFile) + output)
      modifies this
      ensures Valid(next) && leafFile == old(leafFile) + [LeafNode(output, next)]
      ensures RecordsOf(leafFile) == RecordsOf(old(leafFile)) + output
    {
      hide Rank, Complete, Fits, Bulked, Stored;
      ghost var file, was := leafFile, pages;
      RecordsOfMore(file, LeafNode(output, next));
      if leafBlock > 0 {
        NextLeaf(z, tree, depth, pages, leafFile, output, next);
        ghost var l, r, e;
        var split, pointer;
        split, pointer, l, r, e := BulkInsert(output[0], 0, leafBlock, tree, Leaf(leafBlock, output, next), depth, 0, Limit(z.n), next,
                                              leafFile + [LeafNode(output, next)]);
        LeafAdded(z, tree, depth, was, file, output, next, l, r, e, pages);
        tree, depth := l, e;
      } else {
        assert [] + output == output;
        FirstLeaf(z, output, next);
        assert [] + [LeafNode(output, next)] == [LeafNode(output, next)];
        tree, depth := Dir(0, [], [Leaf(0, output, next)]), 1;
      }
      ProcessBlock(output, next);
    }
  }

  lemma BesideApart(z: Sizes, t: Tree, leaf: Tree, d: nat, lo: nat, hi: nat, after: nat, nd: nat, r: Tree)
    requires Fits(z, t, leaf, d, lo, hi, after, nd) && d > 0 && Beside(z, leaf, d - 1, hi, after, nd, r)
    ensures t.page !in DirPages(r) && t.page < nd && Rank(leaf.records[0]) < hi
  {
    hide Rank;
    KidsApart(t, r, leaf.page, nd);
    LeafRange(z, leaf, hi, after);
  }

  lemma BesideIsBulked(z: Sizes, t: Tree, leaf: Tree, d: nat, lo: nat, hi: nat, after: nat, nd: nat, r: Tree)
    requires leaf.Leaf? && leaf.records != [] && Beside(z, leaf, d, hi, after, nd, r)
    ensures Bulked(z, t, leaf, d, lo, hi, after, nd, true, t, r)
  {
  }

  lemma BulkedPointer(z: Sizes, t: Tree, leaf: Tree, d: nat, lo: nat, hi: nat, after: nat, nd: nat, split: bool, l: Tree, r: Tree)
    requires leaf.Leaf? && leaf.records != [] && t.Dir? && Bulked(z, t, leaf, d, lo, hi, after, nd, split, l, r)
    ensures split ==> l == t && Beside(z, leaf, d, hi, after, nd, r)
    ensures !split ==> l.Pointer() == t.Pointer() && forall x :: Bulked(z, t, leaf, d, lo, hi, after, nd, false, l, x)
  {
  }

  lemma BulkedDropsRight(z: Sizes, t: Tree, leaf: Tree, d: nat, lo: nat, hi: nat, after: nat, nd: nat, l: Tree, x: Tree, r: Tree)
    requires leaf.Leaf? && leaf.records != [] && Bulked(z, t, leaf, d, lo, hi, after, nd, false, l, x)
    ensures Bulked(z, t, leaf, d, lo, hi, after, nd, false, l, r)
  {
  }
}
