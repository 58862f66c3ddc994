/** The B+tree: insertion through leaf, directory and root splits. */
module BPlusTrees {
  import opened Records
  import opened PageTrees
  import opened TreeInsertion
  import opened LeafChains
  import opened IndexPages

  /** Pages do not share their arrays. */
  ghost predicate Unshared(dirs: seq<DirPage>, leaves: seq<LeafPage>) {
    && (forall i, j :: 0 <= i < j < |dirs| ==> dirs[i].keys != dirs[j].keys && dirs[i].children != dirs[j].children)
    && (forall i, j :: 0 <= i < j < |leaves| ==> leaves[i].records != leaves[j].records)
    && (forall i, j :: 0 <= i < |dirs| && 0 <= j < |leaves| ==> dirs[i].keys != leaves[j].records)
  }

  class BPlusTree {
    const z: Sizes
    var dirs: seq<DirPage>
    var leaves: seq<LeafPage>

    // what the pages hold, and the tree they make up
    ghost var dirNodes: seq<DirNode>
    ghost var leafNodes: seq<LeafNode>
    ghost var tree: Tree
    ghost var depth: nat

    // the arrays of the pages
    ghost var recordArrays: set<array<Record>>
    ghost var childArrays: set<array<int>>

    /** The tree, its pages and their arrays. */
    ghost function Parts(): set<object>
      reads this
    {
      {this as object} + (set o: object | o in dirs) + (set o: object | o in leaves)
      + (set o: object | o in recordArrays) + (set o: object | o in childArrays)
    }

    /** The pages hold what the ghost fields say. */
    ghost predicate Paged()
      reads this`dirs, this`leaves, this`dirNodes, this`leafNodes, this`recordArrays, this`childArrays
      reads dirs, leaves, recordArrays, childArrays
    {
      && z.Valid() && |dirs| == |dirNodes| && |leaves| == |leafNodes| && Unshared(dirs, leaves)
      && (forall i :: 0 <= i < |dirs| ==> dirs[i].keys in recordArrays && dirs[i].children in childArrays)
      && (forall i :: 0 <= i < |leaves| ==> leaves[i].records in recordArrays)
      && (forall i :: 0 <= i < |dirs| ==> dirs[i].pageNumber == i && dirs[i].Is(z, i, dirNodes[i]))
      && (forall i :: 0 <= i < |leaves| ==> leaves[i].pageNumber == i && leaves[i].Is(z, i, leafNodes[i]))
    }

    /** The leaves that were not there before are new objects. */
    twostate predicate NewLeaves(before: seq<LeafPage>)
      reads this`leaves, this`recordArrays
    {
      fresh(recordArrays - old(recordArrays)) && forall i :: |before| <= i < |leaves| ==> fresh(leaves[i]) && fresh(leaves[i].records)
    }

    twostate predicate NewDirs(before: seq<DirPage>)
      reads this`dirs, this`recordArrays, this`childArrays
    {
      fresh(recordArrays - old(recordArrays)) && fresh(childArrays - old(childArrays))
      && forall i :: |before| <= i < |dirs| ==> fresh(dirs[i]) && fresh(dirs[i].keys) && fresh(dirs[i].children)
    }

    /** Adds a leaf page of zeros. */
    method AppendLeaf() returns (page: LeafPage)
      requires Paged()
      modifies this`leaves, this`recordArrays, this`leafNodes
      ensures Paged() && leaves == old(leaves) + [page] && leafNodes == old(leafNodes) + [LeafNode([], 0)]
      ensures recordArrays == old(recordArrays) + {page.records}
      ensures fresh(page) && fresh(page.records) && page.Is(z, |old(leaves)|, LeafNode([], 0))
    {
      page := new LeafPage(z, |leaves|);
      leaves := leaves + [page];
      recordArrays := recordArrays + {page.records};
      leafNodes := leafNodes + [LeafNode([], 0)];
    }

    /** Adds a directory page of zeros. */
    method AppendDir() returns (page: DirPage)
      requires Paged()
      modifies this`dirs, this`recordArrays, this`childArrays, this`dirNodes
      ensures Paged() && dirs == old(dirs) + [page] && dirNodes == old(dirNodes) + [DirNode([], [0])]
      ensures recordArrays == old(recordArrays) + {page.keys} && childArrays == old(childArrays) + {page.children}
      ensures fresh(page) && fresh(page.keys) && fresh(page.children) && page.Is(z, |old(dirs)|, DirNode([], [0]))
    {
      page := new DirPage(z, |dirs|);
      dirs := dirs + [page];
      recordArrays, childArrays := recordArrays + {page.keys}, childArrays + {page.children};
      dirNodes := dirNodes + [DirNode([], [0])];
    }

    // ----- leaves ------------------------------------------------------------------------------------

    method PutInLeaf(p: nat, index: nat, record: Record)
      requires Paged() && p < |leaves| && index <= |leafNodes[p].records| < z.leafMax && IsRecord(z.n, record)
      modifies this`leafNodes, leaves[p], leaves[p].records
      ensures Paged()
      ensures leafNodes == old(leafNodes)[p := LeafNode(InsertAt(old(leafNodes[p].records), index, record), old(leafNodes[p].next))]
    {
      ghost var node := leafNodes[p];
      leaves[p].Put(z, index, record, node);
      leafNodes := leafNodes[p := LeafNode(InsertAt(node.records, index, record), node.next)];
    }

    method SplitLeaf(p: nat, index: nat, record: Record) returns (key: Record)
      requires Paged() && p < |leaves| && index <= |leafNodes[p].records| == z.leafMax && IsRecord(z.n, record)
      modifies this`leaves, this`recordArrays, this`leafNodes, leaves[p], leaves[p].records
      ensures Paged() && old(leaves) <= leaves && NewLeaves(old(leaves))
      ensures var all, m := InsertAt(old(leafNodes[p].records), index, record), (z.leafMax + 1) / 2;
        && m < |all| && key == all[m]
        && leafNodes == old(leafNodes)[p := LeafNode(all[..m], |old(leaves)|)] + [LeafNode(all[m..], old(leafNodes[p].next))]
    {
      hide InsertAt, Rank, LeafPage.Is, DirPage.Is;
      ghost var node := leafNodes[p];
      var leaf := leaves[p];
      var newLeaf := AppendLeaf();
      key := leaf.SplitInto(z, index, record, newLeaf, node);
      ghost var all, m := InsertAt(node.records, index, record), (z.leafMax + 1) / 2;
      leafNodes := leafNodes[p := LeafNode(all[..m], newLeaf.pageNumber)][newLeaf.pageNumber := LeafNode(all[m..], node.next)];
    }

    method InsertInLeaf(p: nat, record: Record) returns (result: Outcome)
      requires Paged() && p < |leaves| && IsRecord(z.n, record) && Ascending(leafNodes[p].records)
      modifies this`leaves, this`recordArrays, this`leafNodes, leaves[p], leaves[p].records
      ensures Paged() && old(leaves) <= leaves && NewLeaves(old(leaves))
      ensures LeafInserted(z, old(leafNodes), p, record, leafNodes, result)
    {
      hide Rank, Place, InsertAt, LeafPage.Is, DirPage.Is;
      var leaf := leaves[p];
      ghost var node := leafNodes[p];
      leaf.Counts(z, p, node);
      if leaf.valueCount == 0 {
        PutInLeaf(p, 0, record);
        return Done;
      }
      var index := leaf.SearchIndex(z, record, node);
      if index < leaf.valueCount && leaf.records[index] == record {
        assert node.records[index] == record;
        return Duplicate;
      }
      assert record !in node.records;
      if leaf.valueCount < z.leafMax {
        PutInLeaf(p, index, record);
        result := Done;
      } else {
        var key := SplitLeaf(p, index, record);
        result := Split(key, |leaves| - 1);
      }
    }

    // ----- directories -------------------------------------------------------------------------------

    method PutInDir(p: nat, index: nat, key: Record, child: int)
      requires Paged() && p < |dirs| && index <= |dirNodes[p].keys| < z.dirMax && IsRecord(z.n, key)
      requires |dirNodes[p].children| == |dirNodes[p].keys| + 1
      modifies this`dirNodes, dirs[p], dirs[p].keys, dirs[p].children
      ensures Paged()
      ensures var node := old(dirNodes[p]);
        dirNodes == old(dirNodes)[p := DirNode(InsertAt(node.keys, index, key), InsertAt(node.children, index + 1, child))]
    {
      hide InsertAt, Rank, LeafPage.Is, DirPage.Is;
      ghost var node := dirNodes[p];
      dirs[p].Put(z, index, key, child, node);
      dirNodes := dirNodes[p := DirNode(InsertAt(node.keys, index, key), InsertAt(node.children, index + 1, child))];
    }

    method OverflowDir(p: nat, index: nat, key: Record, child: int) returns (lastKey: Record, lastChild: int)
      requires Paged() && p < |dirs| && index <= |dirNodes[p].keys| == z.dirMax && IsRecord(z.n, key)
      requires |dirNodes[p].children| == |dirNodes[p].keys| + 1
      modifies this`dirNodes, dirs[p].keys, dirs[p].children
      ensures Paged() && IsRecord(z.n, lastKey) && |dirNodes| == |old(dirNodes)|
      ensures dirNodes == old(dirNodes)[p := dirNodes[p]]
      ensures dirNodes[p].keys + [lastKey] == InsertAt(old(dirNodes[p]).keys, index, key)
      ensures dirNodes[p].children + [lastChild] == InsertAt(old(dirNodes[p]).children, index + 1, child)
    {
      hide InsertAt, Rank, LeafPage.Is, DirPage.Is;
      ghost var node := dirNodes[p];
      lastKey, lastChild := dirs[p].Overflow(z, index, key, child, node);
      dirNodes := dirNodes[p := DirNode(dirs[p].keys[..], dirs[p].children[..])];
    }

    method AppendUpper(p: nat, middle: nat, lastKey: Record, lastChild: int)
      requires Paged() && p < |dirs| && middle < |dirNodes[p].keys| == z.dirMax && IsRecord(z.n, lastKey)
      requires |dirNodes[p].children| == |dirNodes[p].keys| + 1
      modifies this`dirs, this`recordArrays, this`childArrays, this`dirNodes
      ensures Paged() && old(dirs) <= dirs && NewDirs(old(dirs))
      ensures var node := old(dirNodes[p]);
        dirNodes == old(dirNodes) + [DirNode((node.keys + [lastKey])[middle + 1..], (node.children + [lastChild])[middle + 1..])]
    {
      hide InsertAt, Rank, LeafPage.Is, DirPage.Is;
      ghost var node := dirNodes[p];
      var from := dirs[p];
      var page := AppendDir();
      page.TakeUpper(z, from, middle, lastKey, lastChild, node);
      dirNodes := dirNodes[page.pageNumber :=
        DirNode((node.keys + [lastKey])[middle + 1..], (node.children + [lastChild])[middle + 1..])];
    }

    method AppendLower(p: nat, middle: nat)
      requires Paged() && p < |dirs| && middle < |dirNodes[p].keys| == z.dirMax
      requires |dirNodes[p].children| == |dirNodes[p].keys| + 1
      modifies this`dirs, this`recordArrays, this`childArrays, this`dirNodes
      ensures Paged() && old(dirs) <= dirs && NewDirs(old(dirs))
      ensures var node := old(dirNodes[p]);
        dirNodes == old(dirNodes) + [DirNode(node.keys[..middle], node.children[..middle + 1])]
    {
      hide InsertAt, Rank, LeafPage.Is, DirPage.Is;
      ghost var node := dirNodes[p];
      var from := dirs[p];
      var page := AppendDir();
      page.TakeLower(z, from, middle, node);
      dirNodes := dirNodes[page.pageNumber := DirNode(node.keys[..middle], node.children[..middle + 1])];
    }

    /** The root is split: two new directories take everything but the key in the middle. */
    method SplitRoot(middle: nat, lastKey: Record, lastChild: int)
      requires Paged() && |dirs| > 0 && middle < |dirNodes[0].keys| == z.dirMax && IsRecord(z.n, lastKey)
      requires |dirNodes[0].children| == |dirNodes[0].keys| + 1
      modifies this`dirs, this`recordArrays, this`childArrays, this`dirNodes, dirs[0], dirs[0].keys, dirs[0].children
      ensures Paged() && old(dirs) <= dirs && NewDirs(old(dirs))
      ensures var full, nd := old(dirNodes[0]), |old(dirNodes)|;
        dirNodes == old(dirNodes)[0 := DirNode([full.keys[middle]], [-nd, -nd - 1])]
                    + [DirNode(full.keys[..middle], full.children[..middle + 1]),
                       DirNode((full.keys + [lastKey])[middle + 1..], (full.children + [lastChild])[middle + 1..])]
    {
      hide Rank, LeafPage.Is, DirPage.Is;
      ghost var full := dirNodes[0];
      AppendLower(0, middle);
      AppendUpper(0, middle, lastKey, lastChild);
      dirs[0].KeepOne(z, middle, -(|dirs| - 2), -(|dirs| - 1), full);
      dirNodes := dirNodes[0 := DirNode([full.keys[middle]], [-(|dirs| - 2), -(|dirs| - 1)])];
    }

    /** Any other directory keeps its lower half; the key in the middle goes up with a new directory. */
    method SplitDir(p: nat, middle: nat, lastKey: Record, lastChild: int) returns (up: Record)
      requires Paged() && p < |dirs| && middle < |dirNodes[p].keys| == z.dirMax && IsRecord(z.n, lastKey)
      requires |dirNodes[p].children| == |dirNodes[p].keys| + 1
      modifies this`dirs, this`recordArrays, this`childArrays, this`dirNodes, dirs[p], dirs[p].keys, dirs[p].children
      ensures Paged() && old(dirs) <= dirs && NewDirs(old(dirs)) && |dirs| == |old(dirs)| + 1
      ensures up == old(dirNodes[p]).keys[middle]
      ensures var full := old(dirNodes[p]);
        dirNodes == old(dirNodes)[p := DirNode(full.keys[..middle], full.children[..middle + 1])]
                    + [DirNode((full.keys + [lastKey])[middle + 1..], (full.children + [lastChild])[middle + 1..])]
    {
      hide Rank, LeafPage.Is, DirPage.Is;
      ghost var full := dirNodes[p];
      AppendUpper(p, middle, lastKey, lastChild);
      up := dirs[p].Truncate(z, middle, full);
      dirNodes := dirNodes[p := DirNode(full.keys[..middle], full.children[..middle + 1])];
    }

    method AddChild(p: nat, index: nat, key: Record, child: int) returns (result: Outcome)
      requires Paged() && p < |dirs| && IsRecord(z.n, key) && index <= |dirNodes[p].keys| <= z.dirMax
      requires |dirNodes[p].children| == |dirNodes[p].keys| + 1
      modifies this`dirs, this`recordArrays, this`childArrays, this`dirNodes, dirs[p], dirs[p].keys, dirs[p].children
      ensures Paged() && old(dirs) <= dirs && NewDirs(old(dirs))
      ensures DirAdded(z, old(dirNodes), p, index, key, child, dirNodes, result)
    {
      hide InsertAt, Rank, LeafPage.Is, DirPage.Is;
      var dir := dirs[p];
      ghost var node := dirNodes[p];
      ghost var ks, cs := InsertAt(node.keys, index, key), InsertAt(node.children, index + 1, child);
      dir.Counts(z, p, node);
      if dir.keyCount < z.dirMax {
        PutInDir(p, index, key, child);
        return Done;
      }
      var lastKey, lastChild := OverflowDir(p, index, key, child);
      ghost var full := dirNodes[p];
      var middle := (dir.keyCount + 1) / 2;
      assert full.keys[..middle] == ks[..middle] && full.children[..middle + 1] == cs[..middle + 1] && full.keys[middle] == ks[middle];
      if p == 0 {
        SplitRoot(middle, lastKey, lastChild);
        result := Done;
      } else {
        var up := SplitDir(p, middle, lastKey, lastChild);
        result := Split(up, -(|dirs| - 1));
      }
    }

    // ----- insertion ---------------------------------------------------------------------------------

    ghost predicate Holds(t: Tree)
      reads this`dirNodes, this`leafNodes
    {
      Stored(t, dirNodes, leafNodes)
    }

    method ChildFor(p: nat, record: Record, ghost t: Tree, ghost d: nat, ghost lo: nat, ghost hi: nat, ghost after: nat)
      returns (index: nat, pointer: int)
      requires Paged() && GoodDir(z, t, d, lo, hi, after) && t.page == p && Holds(t)
      requires IsRecord(z.n, record) && lo <= Rank(record) < hi
      ensures index < |t.kids| && Edge(t.keys, lo, hi, index) <= Rank(record) < Edge(t.keys, lo, hi, index + 1)
      ensures pointer == t.kids[index].Pointer() && Holds(t.kids[index])
    {
      hide Rank, Place, Good, Row, Edge, LeafPage.Is;
      var dir := dirs[p];
      dir.Counts(z, p, dirNodes[p]);
      RowCount(z, t.keys, t.kids, d - 1, lo, hi, after);
      KeysAscend(z, t.keys, t.kids, d - 1, lo, hi, after);
      RowFind(z, t.keys, t.kids, d - 1, lo, hi, after, Rank(record));
      index := 0;
      if dir.keyCount > 0 {
        index := dir.SearchChildIndex(z, record, dirNodes[p]);
      }
      pointer := dir.children[index];
      assert dirNodes[p].children[index] == pointer;
    }

    /** Inserts below directory `p`, which itself is not changed. */
    method InsertBelow(p: nat, record: Record, ghost t: Tree, ghost d: nat, ghost lo: nat, ghost hi: nat, ghost after: nat)
      returns (result: Outcome, ghost i: nat, ghost l: Tree, ghost r: Tree)
      requires Paged() && GoodDir(z, t, d, lo, hi, after) && t.page == p && Holds(t)
      requires IsRecord(z.n, record) && lo <= Rank(record) < hi
      modifies this`dirs, this`leaves, this`recordArrays, this`childArrays, this`dirNodes, this`leafNodes, dirs, leaves, recordArrays, childArrays
      ensures Paged() && old(dirs) <= dirs && NewDirs(old(dirs)) && old(leaves) <= leaves && NewLeaves(old(leaves))
      ensures t.Dir? && i < |t.kids|
      ensures Below(z, t, record, d, lo, hi, after, i, result, l, r, old(dirNodes), old(leafNodes), dirNodes, leafNodes)
      ensures result == Duplicate ==> dirNodes == old(dirNodes) && leafNodes == old(leafNodes)
      decreases d, 0, 0
    {
      hide Rank, Place, Edge, Regrown, Renews, LeafPage.Is, DirPage.Is, Paged, Good, Row, First, InOrder;
      var index, pointer := ChildFor(p, record, t, d, lo, hi, after);
      i := index;
      ghost var low, high, next := Edge(t.keys, lo, hi, i), Edge(t.keys, lo, hi, i + 1), After(t.kids, after, i);
      RowKid(z, t.keys, t.kids, d - 1, lo, hi, after, i);
      result, l, r := InsertChild(pointer, record, t.kids[i], d - 1, low, high, next);
    }

    /** Inserts into the directory or the leaf that `pointer` leads to. */
    method InsertChild(pointer: int, record: Record, ghost t: Tree, ghost d: nat, ghost lo: nat, ghost hi: nat, ghost after: nat)
      returns (result: Outcome, ghost l: Tree, ghost r: Tree)
      requires Paged() && Good(z, t, d, lo, hi, after) && t.Pointer() == pointer && Holds(t)
      requires IsRecord(z.n, record) && lo <= Rank(record) < hi
      modifies this`dirs, this`leaves, this`recordArrays, this`childArrays, this`dirNodes, this`leafNodes, dirs, leaves, recordArrays, childArrays
      ensures Paged() && old(dirs) <= dirs && NewDirs(old(dirs)) && old(leaves) <= leaves && NewLeaves(old(leaves))
      ensures Regrown(z, t, record, d, lo, hi, after, |old(dirNodes)|, |old(leafNodes)|, result, l, r)
      ensures Holds(l) && (result.Split? ==> Holds(r))
      ensures OnlyIn(DirPages(t), old(dirNodes), dirNodes) && OnlyIn(LeafPages(t), old(leafNodes), leafNodes)
      ensures result == Duplicate ==> dirNodes == old(dirNodes) && leafNodes == old(leafNodes)
      decreases d, 1
    {
      hide Rank, Place, Edge, Regrown, Renews, LeafPage.Is, DirPage.Is;
      PointerTells(z, t, d, lo, hi, after);
      if pointer < 0 {
        result, l, r := InsertInto(-pointer, record, t, d, lo, hi, after);
      } else {
        ghost var before := leafNodes;
        result := InsertInLeaf(pointer, record);
        l, r := LeafRegrown(z, t, record, lo, hi, after, dirNodes, before, leafNodes, result);
      }
    }

    /** Inserts into the directory on page `p`, which is not the root. */
    method InsertInto(p: nat, record: Record, ghost t: Tree, ghost d: nat, ghost lo: nat, ghost hi: nat, ghost after: nat)
      returns (result: Outcome, ghost l: Tree, ghost r: Tree)
      requires Paged() && t.Dir? && Good(z, t, d, lo, hi, after) && t.page == p && Holds(t)
      requires IsRecord(z.n, record) && lo <= Rank(record) < hi
      modifies this`dirs, this`leaves, this`recordArrays, this`childArrays, this`dirNodes, this`leafNodes, dirs, leaves, recordArrays, childArrays
      ensures Paged() && old(dirs) <= dirs && NewDirs(old(dirs)) && old(leaves) <= leaves && NewLeaves(old(leaves))
      ensures Regrown(z, t, record, d, lo, hi, after, |old(dirNodes)|, |old(leafNodes)|, result, l, r)
      ensures Holds(l) && (result.Split? ==> Holds(r))
      ensures OnlyIn(DirPages(t), old(dirNodes), dirNodes) && OnlyIn(LeafPages(t), old(leafNodes), leafNodes)
      ensures result == Duplicate ==> dirNodes == old(dirNodes) && leafNodes == old(leafNodes)
      decreases d, 0, 1
    {
      hide Rank, Place, Edge, Regrown, Renews, LeafPage.Is, DirPage.Is, Row, Good, Stored, DirAdded, Below;
      GoodIsDir(z, t, d, lo, hi, after);
      ghost var i, kid, right;
      ghost var dirs0, leaves0 := dirNodes, leafNodes;
      result, i, kid, right := InsertBelow(p, record, t, d, lo, hi, after);
      if result.Split? {
        ghost var mid := dirNodes;
        ghost var key, pointer := result.key, result.pointer;
        DirGrown(z, t, record, d, lo, hi, after, i, key, pointer, kid, right, dirs0, leaves0, mid, leafNodes);
        var index := dirs[p].SearchChildIndex(z, result.key, dirNodes[p]);
        result := AddChild(p, index, result.key, result.pointer);
        l, r := DirSplits(z, t, record, d, lo, hi, after, i, key, pointer, kid, right, dirs0, leaves0, mid, leafNodes, dirNodes, result);
      } else {
        l, r := With(t, i, kid), right;
        DirKept(z, t, record, d, lo, hi, after, i, kid, right, result, dirs0, leaves0, dirNodes, leafNodes);
      }
    }

    // ----- the whole tree ----------------------------------------------------------------------------

    ghost predicate Valid()
      reads this, dirs, leaves, recordArrays, childArrays
    {
      && Paged() && Holds(tree) && GoodDir(z, tree, depth, 0, Limit(z.n), 0)
      && tree.page == 0 && First(tree) == 0
    }

    /** The records of the tree from left to right. */
    ghost function Contents(): seq<Record>
      reads this`tree
    {
      InOrder(tree)
    }

    /** Two pages of zeros: a root with one empty leaf. */
    constructor (z: Sizes)
      requires z.Valid()
      ensures Valid() && Contents() == [] && this.z == z
      ensures |dirs| == |leaves| == 1 && fresh(dirs[0]) && fresh(leaves[0]) && fresh(recordArrays) && fresh(childArrays)
    {
      this.z := z;
      dirs, leaves, dirNodes, leafNodes, recordArrays, childArrays := [], [], [], [], {}, {};
      depth, tree := 1, Dir(0, [], [Leaf(0, [], 0)]);
      new;
      hide Rank, LeafPage.Is, DirPage.Is, GoodDir, Stored, InOrder, First, Limit;
      Start();
      EmptyTree(z);
    }

    method Start()
      requires Paged() && dirs == [] && leaves == [] && recordArrays == {} && childArrays == {}
      modifies this`dirs, this`leaves, this`dirNodes, this`leafNodes, this`recordArrays, this`childArrays
      ensures Paged() && dirNodes == [DirNode([], [0])] && leafNodes == [LeafNode([], 0)]
      ensures |dirs| == |leaves| == 1 && fresh(dirs[0]) && fresh(leaves[0]) && fresh(recordArrays) && fresh(childArrays)
    {
      hide Rank, LeafPage.Is, DirPage.Is;
      var root := AppendDir();
      var leaf := AppendLeaf();
    }

    /** Inserts from the root on; `a` is the tree that the pages make up afterwards. */
    method InsertRoot(record: Record) returns (result: Outcome, ghost a: Tree, ghost e: nat)
      requires Valid() && IsRecord(z.n, record)
      modifies this`dirs, this`leaves, this`recordArrays, this`childArrays, this`dirNodes, this`leafNodes, dirs, leaves, recordArrays, childArrays
      ensures Paged() && old(dirs) <= dirs && NewDirs(old(dirs)) && old(leaves) <= leaves && NewLeaves(old(leaves))
      ensures tree == old(tree)
      ensures GoodDir(z, a, e, 0, Limit(z.n), 0) && a.page == 0 && First(a) == 0 && Holds(a) && !result.Split?
      ensures result == Duplicate ==> record in InOrder(tree) && a == tree && dirNodes == old(dirNodes) && leafNodes == old(leafNodes)
      ensures result == Done ==> record !in InOrder(tree) && InOrder(a) == Inserted(InOrder(tree), record)
    {
      hide Rank, Place, Edge, Regrown, Renews, LeafPage.Is, DirPage.Is, Row, Good, Stored, DirAdded, Below;
      hide InOrder, First, Inserted, AllStored, GoodDir, OnlyIn, Limit;
      RankBelowLimit(z.n, record);
      ghost var dirs0, leaves0, d, hi := dirNodes, leafNodes, depth, Limit(z.n);
      ghost var i, kid, right;
      result, i, kid, right := InsertBelow(0, record, tree, d, 0, hi, 0);
      if result.Split? {
        ghost var mid := dirNodes;
        ghost var key, pointer := result.key, result.pointer;
        DirGrown(z, tree, record, d, 0, hi, 0, i, key, pointer, kid, right, dirs0, leaves0, mid, leafNodes);
        var index := dirs[0].SearchChildIndex(z, result.key, dirNodes[0]);
        result := AddChild(0, index, result.key, result.pointer);
        a, e := RootSplits(z, tree, record, d, 0, hi, 0, i, key, pointer, kid, right, dirs0, leaves0, mid, leafNodes, dirNodes, result);
      } else {
        a, e := With(tree, i, kid), d;
        DirKept(z, tree, record, d, 0, hi, 0, i, kid, right, result, dirs0, leaves0, dirNodes, leafNodes);
      }
    }

    /** Adds `record` unless it is there already; then nothing is changed. */
    method Insert(record: Record) returns (added: bool)
      requires Valid() && IsRecord(z.n, record)
      modifies this`dirs, this`leaves, this`recordArrays, this`childArrays, this`dirNodes, this`leafNodes, this`tree, this`depth, dirs, leaves, recordArrays, childArrays
      ensures Valid() && NewDirs(old(dirs)) && NewLeaves(old(leaves))
      ensures added == (record !in old(Contents()))
      ensures added ==> Contents() == Inserted(old(Contents()), record)
      ensures forall r :: r in Contents() <==> r == record || r in old(Contents())
      ensures !added ==> dirNodes == old(dirNodes) && leafNodes == old(leafNodes) && tree == old(tree)
    {
      hide Rank, Place, LeafPage.Is, DirPage.Is, Stored, InOrder, First, Inserted, GoodDir;
      ContentsAscend();
      if record !in Contents() {
        InsertedAdds(z.n, Contents(), record);
      }
      var result;
      result, tree, depth := InsertRoot(record);
      added := result == Done;
    }

    /** The records are in strictly ascending order, none twice. */
    lemma ContentsAscend()
      requires Valid()
      ensures AreRecords(z.n, Contents()) && Ascending(Contents())
    {
      RowIsSorted(z, tree.keys, tree.kids, depth - 1, 0, Limit(z.n), 0, |tree.kids|);
      assert tree.kids[..|tree.kids|] == tree.kids;
    }

    // ----- searching ---------------------------------------------------------------------------------

    ghost function AllLeaves(): seq<Tree>
      reads this`tree
    {
      Leaves(tree)
    }

    /** Directory `dir` is the one at spot `s` of the tree. */
    ghost predicate IsAt(dir: DirPage, s: Spot)
      reads this`dirs, this`tree, this`dirNodes, this`leafNodes
    {
      SpotIn(z, AllLeaves(), s) && Holds(s.t) && s.t.page < |dirs| && dir == dirs[s.t.page]
    }

    ghost function RootSpot(): Spot
      reads this`tree, this`depth
    {
      Spot(tree, depth, 0, Limit(z.n), 0, [], [])
    }

    lemma RootIsAt()
      requires Valid()
      ensures IsAt(dirs[0], RootSpot())
    {
      assert AllLeaves() == [] + Leaves(tree) + [];
    }

    /** The leaf in which the first record not below `min` is, or would be, and its place there.  Starting
        from any directory whose range holds `min` gives the place in the whole tree.  The directories
        below it on the way are returned for the search stack. */
    method SearchLeaf(dir: DirPage, min: Record, ghost s: Spot)
      returns (leaf: LeafPage, index: nat, ghost li: nat, pushed: seq<DirPage>, ghost spots: seq<Spot>)
      requires Valid() && IsAt(dir, s) && IsRecord(z.n, min) && s.lo <= Rank(min) < s.hi
      ensures IsLeaf(leaf, li) && Position(AllLeaves(), li, index) == Place(Contents(), Rank(min))
      ensures |spots| == |pushed| && forall k :: 0 <= k < |pushed| ==> IsAt(pushed[k], spots[k])
      decreases s.t
    {
      hide Rank, Place, Edge, LeafPage.Is, DirPage.Is, Good, Row, Leaves, Flat, InOrder, First, Limit;
      var p := dir.pageNumber;
      var child, pointer := ChildFor(p, min, s.t, s.d, s.lo, s.hi, s.after);
      ghost var k := KidSpot(s, child);
      KidAround(z, AllLeaves(), s, child);
      PointerTells(z, k.t, k.d, k.lo, k.hi, k.after);
      if pointer < 0 {
        var next := dirs[-pointer];
        GoodIsDir(z, k.t, k.d, k.lo, k.hi, k.after);
        leaf, index, li, pushed, spots := SearchLeaf(next, min, k);
        pushed, spots := [next] + pushed, [k] + spots;
      } else {
        leaf, li, pushed, spots := leaves[pointer], |k.left|, [], [];
        index := SearchInLeaf(leaf, min, k);
      }
    }

    ghost predicate IsLeaf(leaf: LeafPage, li: nat)
      reads this`leaves, this`tree
    {
      li < |AllLeaves()| && AllLeaves()[li].Leaf? && AllLeaves()[li].page < |leaves| && leaf == leaves[AllLeaves()[li].page]
    }

    method SearchInLeaf(leaf: LeafPage, min: Record, ghost k: Spot) returns (index: nat)
      requires Valid() && k.t.Leaf? && Holds(k.t) && leaf == leaves[k.t.page] && Good(z, k.t, k.d, k.lo, k.hi, k.after)
      requires IsRecord(z.n, min) && k.lo <= Rank(min) < k.hi
      requires AllLeaves() == k.left + Leaves(k.t) + k.right && AllBelow(Flat(k.left), k.lo) && NoneBelow(Flat(k.right), k.hi)
      ensures IsLeaf(leaf, |k.left|) && Position(AllLeaves(), |k.left|, index) == Place(Contents(), Rank(min))
    {
      hide Rank, Place, Edge, LeafPage.Is, DirPage.Is, Row, Flat, InOrder, First, Limit;
      index := leaf.SearchIndex(z, min, leafNodes[k.t.page]);
      assert Leaves(k.t) == [k.t];
      PlaceInLeaf(AllLeaves(), k.left, k.t, k.right, k.lo, k.hi, Rank(min), index);
      FlatLeaves(tree);
    }

    /** The leaves of the tree are its pages from left to right, and only the last one leads nowhere. */
    lemma LeafFacts(li: nat)
      requires Valid() && li < |AllLeaves()|
      ensures AllLeaves()[li].Leaf? && Holds(AllLeaves()[li]) && Flat(AllLeaves()) == Contents()
      ensures AllLeaves()[li].next != 0 <==> li + 1 < |AllLeaves()|
      ensures li + 1 < |AllLeaves()| ==>
                var next := AllLeaves()[li + 1]; next.Leaf? && next.page == AllLeaves()[li].next && next.page < |leaves|
      ensures AllLeaves()[li].records == [] ==> li == 0 && |AllLeaves()| == 1
    {
      hide Rank, Stored, Row, LeafPage.Is, DirPage.Is, Leaves, Flat, InOrder, First, Limit;
      var ls := AllLeaves();
      GoodIsChained(z, tree, depth, 0, Limit(z.n), 0);
      LeavesStored(tree, dirNodes, leafNodes);
      FlatLeaves(tree);
      GoodHasNoEmptyLeaf(z, tree, depth, 0, Limit(z.n), 0);
      assert Follows(ls, 0, li);
      if li > 0 {
        assert ls[0].page != ls[li].page;
      }
      if li + 1 < |ls| {
        assert Follows(ls, 0, li + 1);
        assert ls[0].page != ls[li + 1].page;
        StoredLeaf(ls[li + 1], dirNodes, leafNodes);
      }
    }

    /** Whether `record` lies between the first and the last key of a directory; then it is in its range. */
    method CheckDir(dir: DirPage, record: Record, ghost s: Spot) returns (inside: bool)
      requires Valid() && IsAt(dir, s) && IsRecord(z.n, record)
      ensures inside ==> s.lo <= Rank(record) < s.hi
    {
      hide Rank, LeafPage.Is, DirPage.Is, Good, Row, Leaves, Flat, InOrder, First, Limit;
      inside := dir.CheckRange(z, record, dirNodes[dir.pageNumber]);
      if inside {
        KeysInRange(z, s.t, s.d, s.lo, s.hi, s.after, Rank(record));
      }
    }

    /** What a page says about its leaf. */
    lemma LeafHolds(leaf: LeafPage, li: nat)
      requires Valid() && IsLeaf(leaf, li)
      ensures var t := AllLeaves()[li];
        && z.Valid() && leaf.Is(z, leaf.pageNumber, LeafNode(t.records, t.next)) && Ascending(t.records)
        && leaf.valueCount == |t.records| <= leaf.records.Length && leaf.nextLeaf == t.next
        && forall i :: 0 <= i < |t.records| ==> leaf.records[i] == t.records[i] && IsRecord(z.n, t.records[i])
    {
      hide Rank, Flat, Leaves, GoodDir, InOrder;
      LeafFacts(li);
      ContentsAscend();
      LeafAscends(AllLeaves(), li);
      assert leaf.Is(z, leaf.pageNumber, leafNodes[leaf.pageNumber]);
    }
  }

  lemma StoredLeaf(t: Tree, dirs: seq<DirNode>, leaves: seq<LeafNode>)
    requires t.Leaf? && Stored(t, dirs, leaves)
    ensures t.page < |leaves|
  {
  }

  lemma EmptyTree(z: Sizes)
    requires z.Valid()
    ensures var t := Dir(0, [], [Leaf(0, [], 0)]);
      && GoodDir(z, t, 1, 0, Limit(z.n), 0) && First(t) == 0 && InOrder(t) == []
      && Stored(t, [DirNode([], [0])], [LeafNode([], 0)])
  {
    RankBelowLimit(z.n, seq(z.n, _ => 0));
    var kids := [Leaf(0, [], 0)];
    assert Pointers(kids) == [0];
    JoinedOne(kids[0]);
  }
}
