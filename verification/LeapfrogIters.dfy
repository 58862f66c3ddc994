/** The trie-like iterators over B+trees that leapfrog joins seek with. */
module LeapfrogIters {
  import opened Options
  import opened Records
  import opened Prefixes
  import opened PageTrees
  import opened LeafChains
  import opened IndexPages
  import opened BPlusTrees
  import opened RangeScan

  class LeapfrogBptIter {
    const tree: BPlusTree
    var currentTuple: Record
    var currentLeaf: LeafPage
    var currentPosInLeaf: nat
    var directoryStack: seq<DirPage>
    var level: int
    var enumBptIter: BptIter?

    // which leaf the current one is, and where the directories of the stack are in the tree
    ghost var li: nat
    ghost var spots: seq<Spot>

    // where the group that is being enumerated begins
    ghost var enumBegin: nat

    ghost function Relation(): seq<Record>
      reads tree`tree
    {
      tree.Contents()
    }

    ghost predicate Stacked()
      reads this`directoryStack, this`spots, tree
    {
      && |directoryStack| == |spots| > 0 && spots[0] == tree.RootSpot()
      && forall k :: 0 <= k < |spots| ==> tree.IsAt(directoryStack[k], spots[k])
    }

    ghost predicate Valid()
      reads this`currentTuple, this`currentLeaf, this`currentPosInLeaf, this`directoryStack, this`li, this`spots
      reads tree, tree.dirs, tree.leaves, tree.recordArrays, tree.childArrays
    {
      && tree.Valid() && IsRecord(tree.z.n, currentTuple) && tree.IsLeaf(currentLeaf, li) && Stacked()
      && (Relation() != [] ==> At() < |Relation()| && currentTuple == Relation()[At()])
    }

    /** Everything that `Valid` depends on. */
    ghost function Parts(): set<object>
      reads tree
    {
      {this as object} + tree.Parts()
    }

    lemma PartsAre(o: object)
      requires o in Parts()
      ensures o is LeapfrogBptIter || o is BPlusTree || o is DirPage || o is LeafPage || o is array<Record> || o is array<int>
    {
    }

    /** The iterator runs over the records `s` of width `n`; it stands at `tuple` on `level`. */
    ghost predicate StandsAt(n: nat, s: seq<Record>, level: int, tuple: Record)
      reads this, tree, Parts()
    {
      && Valid() && tree.z.n == n && Relation() == s && this.level == level && currentTuple == tuple
    }

    /** How many records come before the current one. */
    ghost function At(): nat
      requires tree.IsLeaf(currentLeaf, li)
      reads this`currentLeaf, this`currentPosInLeaf, this`li, tree
    {
      Position(tree.AllLeaves(), li, currentPosInLeaf)
    }

    /** What a search for [low, high] has to find, and where that leaves the iterator. */
    ghost predicate Searched(low: nat, high: nat, found: bool)
      requires tree.IsLeaf(currentLeaf, li)
      reads this`currentTuple, this`currentLeaf, this`currentPosInLeaf, this`li, tree
    {
      var s, g := Relation(), Place(Relation(), low);
      && found == (g < |s| && Rank(s[g]) <= high)
      && (found ==> At() == g && currentTuple == s[g])
    }

    /** Starts at the first record; the tuple of an empty tree is whatever was in memory. */
    constructor (tree: BPlusTree)
      requires tree.Valid()
      ensures Valid() && this.tree == tree && level == -1 && enumBptIter == null
      ensures At() == 0
    {
      hide Rank, Place, Flat, Leaves, InOrder, GoodDir, LeafPage.Is, DirPage.Is, BPlusTree.Valid, Stored, Position, SpotIn;
      var min := Fill(tree.z.n, 0);
      ZerosComeFirst(tree.z.n);
      RankBelowLimit(tree.z.n, min);
      tree.RootIsAt();
      var root := tree.dirs[0];
      ghost var rootSpot := tree.RootSpot();
      var leaf, index, li0, pushed, below := tree.SearchLeaf(root, min, rootSpot);
      tree.LeafFacts(li0);
      tree.LeafHolds(leaf, li0);
      AtPosition(tree.AllLeaves(), li0, index);
      PlaceIs(tree.Contents(), 0, 0);
      this.tree, currentLeaf, currentPosInLeaf, li := tree, leaf, index, li0;
      directoryStack, spots := [root] + pushed, [rootSpot] + below;
      level, enumBptIter := -1, null;
      if index < leaf.valueCount {
        currentTuple := leaf.records[index];
      } else {
        var garbage :| IsRecord(tree.z.n, garbage);
        currentTuple := garbage;
      }
    }

    /** The first record not below `min`, if it is not above `max`: looked for in the current leaf. */
    method SearchHere(min: Record, max: Record) returns (found: bool)
      requires Valid() && IsRecord(tree.z.n, min) && IsRecord(tree.z.n, max)
      requires var leaf := tree.AllLeaves()[li].records; leaf != [] && Rank(leaf[0]) <= Rank(min) <= Rank(leaf[|leaf| - 1])
      modifies this`currentTuple, this`currentLeaf, this`currentPosInLeaf, this`li
      ensures Valid() && Searched(Rank(min), Rank(max), found)
      ensures !found ==> unchanged(this)
    {
      hide Stacked, Rank, Place, Flat, Leaves, InOrder, GoodDir, LeafPage.Is, DirPage.Is, BPlusTree.Valid, Stored;
      ghost var leaf := tree.AllLeaves()[li];
      tree.LeafFacts(li);
      tree.LeafHolds(currentLeaf, li);
      tree.ContentsAscend();
      PlaceInCachedLeaf(tree.AllLeaves(), li, Rank(min));
      var pos := currentLeaf.SearchIndex(tree.z, min, LeafNode(leaf.records, leaf.next));
      found := Take(currentLeaf, pos, li, Rank(min), max);
    }

    /** The same search in the directories: climbs until one is sure to hold `min`, then goes down. */
    method SearchAbove(min: Record, max: Record) returns (found: bool)
      requires Valid() && IsRecord(tree.z.n, min) && IsRecord(tree.z.n, max)
      modifies this`currentTuple, this`currentLeaf, this`currentPosInLeaf, this`directoryStack, this`li, this`spots
      ensures Valid() && Searched(Rank(min), Rank(max), found)
      ensures !found ==> unchanged(`currentTuple, `currentLeaf, `currentPosInLeaf, `li)
    {
      hide Rank, Place, Flat, Leaves, InOrder, GoodDir, LeafPage.Is, DirPage.Is, BPlusTree.Valid, Stored, Position, SpotIn;
      ghost var spot := Climb(min);
      var top := directoryStack[|directoryStack| - 1];
      var leaf, index, at, pushed, below := tree.SearchLeaf(top, min, spot);
      directoryStack, spots := directoryStack + pushed, spots + below;
      found := Land(leaf, index, at, min, max);
    }

    /** Pops directories until the one on top is sure to hold `min`; the root is never popped. */
    method Climb(min: Record) returns (ghost spot: Spot)
      requires Valid() && IsRecord(tree.z.n, min)
      modifies this`directoryStack, this`spots
      ensures Valid() && spot == spots[|spots| - 1] && spot.lo <= Rank(min) < spot.hi
    {
      hide Rank, Place, Flat, Leaves, InOrder, GoodDir, LeafPage.Is, DirPage.Is, BPlusTree.Valid, Stored, Position, SpotIn;
      var inside := false;
      while |directoryStack| > 1 && !inside
        invariant Valid() && (inside ==> spots[|spots| - 1].lo <= Rank(min) < spots[|spots| - 1].hi)
        decreases |directoryStack|, !inside
      {
        ghost var s := spots[|spots| - 1];
        inside := tree.CheckDir(directoryStack[|directoryStack| - 1], min, s);
        if !inside {
          directoryStack, spots := directoryStack[..|directoryStack| - 1], spots[..|spots| - 1];
        }
      }
      spot := spots[|spots| - 1];
      RankBelowLimit(tree.z.n, min);
    }

    /** The place was found in `leaf`, or in the leaf after it when it is past the end. */
    method Land(leaf: LeafPage, index: nat, ghost at: nat, min: Record, max: Record) returns (found: bool)
      requires Valid() && IsRecord(tree.z.n, max) && tree.IsLeaf(leaf, at)
      requires Position(tree.AllLeaves(), at, index) == Place(Relation(), Rank(min))
      modifies this`currentTuple, this`currentLeaf, this`currentPosInLeaf, this`li
      ensures Valid() && Searched(Rank(min), Rank(max), found)
      ensures !found ==> unchanged(this)
    {
      hide Stacked, Rank, Place, Flat, Leaves, InOrder, GoodDir, LeafPage.Is, DirPage.Is, BPlusTree.Valid, Stored, Position, SpotIn;
      var newLeaf, pos := leaf, index;
      ghost var newLi := at;
      tree.LeafFacts(newLi);
      tree.LeafHolds(newLeaf, newLi);
      AtPosition(tree.AllLeaves(), newLi, pos);
      if pos >= newLeaf.valueCount {
        if newLeaf.nextLeaf == 0 {
          return false;
        }
        newLeaf, pos, newLi := tree.leaves[newLeaf.nextLeaf], 0, newLi + 1;
        tree.LeafFacts(newLi);
        tree.LeafHolds(newLeaf, newLi);
        AtPosition(tree.AllLeaves(), newLi, pos);
      }
      found := Take(newLeaf, pos, newLi, Rank(min), max);
    }

    /** Moves to slot `pos` of `leaf`, unless the record there is above `max`. */
    method Take(leaf: LeafPage, pos: nat, ghost at: nat, ghost low: nat, max: Record) returns (found: bool)
      requires Valid() && IsRecord(tree.z.n, max) && tree.IsLeaf(leaf, at) && pos < |tree.AllLeaves()[at].records|
      requires Position(tree.AllLeaves(), at, pos) == Place(Relation(), low)
      modifies this`currentTuple, this`currentLeaf, this`currentPosInLeaf, this`li
      ensures Valid() && Searched(low, Rank(max), found)
      ensures !found ==> unchanged(this)
    {
      hide Stacked, Rank, Place, Flat, Leaves, InOrder, GoodDir, LeafPage.Is, DirPage.Is, BPlusTree.Valid, Stored, Position, SpotIn;
      tree.LeafFacts(at);
      tree.LeafHolds(leaf, at);
      AtPosition(tree.AllLeaves(), at, pos);
      var tuple := leaf.records[pos];
      var c := Compare(tree.z.n, tuple, max);
      found := c != Greater;
      if found {
        currentTuple, currentLeaf, currentPosInLeaf, li := tuple, leaf, pos, at;
      }
    }

    /** Finds the first record in [min, max].  When there is none the iterator stays where it is. */
    method InternalSearch(min: Record, max: Record) returns (found: bool)
      requires Valid() && IsRecord(tree.z.n, min) && IsRecord(tree.z.n, max)
      modifies this`currentTuple, this`currentLeaf, this`currentPosInLeaf, this`directoryStack, this`li, this`spots
      ensures Valid() && Searched(Rank(min), Rank(max), found)
      ensures !found ==> unchanged(`currentTuple, `currentLeaf, `currentPosInLeaf, `li)
    {
      hide Stacked, Rank, Place, Flat, Leaves, InOrder, GoodDir, LeafPage.Is, DirPage.Is, BPlusTree.Valid, Stored, Position, SpotIn;
      ghost var leaf := tree.AllLeaves()[li];
      tree.LeafHolds(currentLeaf, li);
      var here := currentLeaf.CheckRange(tree.z, min, LeafNode(leaf.records, leaf.next));
      if here {
        found := SearchHere(min, max);
      } else {
        found := SearchAbove(min, max);
      }
    }

    // ----- the levels of the trie ------------------------------------------------------------------------

    method Up()
      modifies this`level
      ensures level == old(level) - 1
    {
      level := level - 1;
    }

    /** Goes one identifier deeper, to the first record that starts like the current one. */
    method Down()
      requires Valid() && 0 <= level + 1 < tree.z.n && Relation() != []
      modifies this`level, this`currentTuple, this`currentLeaf, this`currentPosInLeaf, this`directoryStack, this`li, this`spots
      ensures Valid() && level == old(level) + 1
      ensures IsFirst(Relation(), old(currentTuple), level, 0, currentTuple)
    {
      hide Rank, Place, Searched, BPlusTree.Valid, Stacked, IsFirst, HasAny;
      var t := currentTuple;
      level := level + 1;
      var _ := SearchFrom(0);
      assert t in Relation() && From(t, level, 0, t);
      SomeFirst(Relation(), t, level, 0, t);
    }

    lemma SomeFirst(s: seq<Record>, t: Record, l: nat, key: nat, x: Record)
      requires x in s && From(t, l, key, x)
      ensures HasAny(s, t, l, key)
    {
    }

    /** Looks for a record that agrees with the current one before the current level and has at least
        `key` there. */
    method SearchFrom(key: nat) returns (found: bool)
      requires Valid() && 0 <= level < tree.z.n && key <= MAX_ID
      modifies this`currentTuple, this`currentLeaf, this`currentPosInLeaf, this`directoryStack, this`li, this`spots
      ensures Valid() && found == HasAny(Relation(), old(currentTuple), level, key)
      ensures found ==> IsFirst(Relation(), old(currentTuple), level, key, currentTuple)
      ensures !found ==> currentTuple == old(currentTuple) && At() == old(At())
    {
      hide Rank, Place, BPlusTree.Valid, Stacked, IsFirst, HasAny, Low, High, Position;
      var min, max := Low(tree.z.n, currentTuple, level, key), High(tree.z.n, currentTuple, level);
      BoundsAreRecords(tree.z.n, currentTuple, level, key);
      tree.ContentsAscend();
      FoundIsFirst(tree.z.n, Relation(), currentTuple, level, key);
      found := InternalSearch(min, max);
    }

    /** The next larger identifier at the current level; identifiers stay below the largest one. */
    method Next() returns (found: bool)
      requires Valid() && 0 <= level < tree.z.n && currentTuple[level] < MAX_ID
      modifies this`currentTuple, this`currentLeaf, this`currentPosInLeaf, this`directoryStack, this`li, this`spots
      ensures Valid() && found == HasAny(Relation(), old(currentTuple), level, old(currentTuple[level]) + 1)
      ensures found ==> IsFirst(Relation(), old(currentTuple), level, old(currentTuple[level]) + 1, currentTuple)
      ensures !found ==> currentTuple == old(currentTuple) && At() == old(At())
    {
      found := SearchFrom(currentTuple[level] + 1);
    }

    method Seek(key: nat) returns (found: bool)
      requires Valid() && 0 <= level < tree.z.n && key <= MAX_ID
      modifies this`currentTuple, this`currentLeaf, this`currentPosInLeaf, this`directoryStack, this`li, this`spots
      ensures Valid() && found == HasAny(Relation(), old(currentTuple), level, key)
      ensures found ==> IsFirst(Relation(), old(currentTuple), level, key, currentTuple)
      ensures !found ==> currentTuple == old(currentTuple) && At() == old(At())
    {
      found := SearchFrom(key);
    }

    /** Goes to the first record that starts with the given terms. */
    method OpenTerms(terms: Record) returns (found: bool)
      requires Valid() && |terms| <= tree.z.n && IsRecord(|terms|, terms)
      modifies this`level, this`currentTuple, this`currentLeaf, this`currentPosInLeaf, this`directoryStack, this`li, this`spots
      ensures Valid() && level == |terms| - 1
      ensures found == exists r :: r in Relation() && Starts(terms, r)
      ensures found ==> Starts(terms, currentTuple) && currentTuple in Relation()
      ensures found ==> forall r :: r in Relation() && Starts(terms, r) ==> Rank(currentTuple) <= Rank(r)
    {
      hide Rank, Place, BPlusTree.Valid, Stacked, Lowest, Highest, Position, Starts;
      var n := tree.z.n;
      var min, max := Lowest(n, terms), Highest(n, terms);
      PrefixMeaning(n, terms, Fill(n, 0));
      tree.ContentsAscend();
      level := |terms| - 1;
      found := InternalSearch(min, max);
      forall r | r in Relation() ensures Starts(terms, r) ==> found && Rank(currentTuple) <= Rank(r) {
        PrefixMeaning(n, terms, r);
        var k :| 0 <= k < |Relation()| && Relation()[k] == r;
      }
      if found {
        PrefixMeaning(n, terms, currentTuple);
        assert currentTuple == Relation()[At()];
      }
    }

    // ----- enumeration ---------------------------------------------------------------------------------

    /** The records that agree with the current one up to the current level, and how many of them the
        enumeration has passed. */
    ghost predicate Enumerating(group: seq<Record>, passed: nat)
      reads this, tree, Parts(), enumBptIter
    {
      && enumBptIter != null && enumBptIter.tree == tree && enumBptIter.Valid() && -1 <= level < tree.z.n
      && |currentTuple| == tree.z.n && group == Group(tree.z.n, Relation(), currentTuple[..level + 1]) && passed <= |group|
      && AreRecords(tree.z.n, group)
      && GroupIs(Relation(), Rank(enumBptIter.max), enumBegin, group) && enumBptIter.At() == enumBegin + passed
    }

    /** Starts to enumerate the group of the current record, which is the first one of it. */
    method BeginEnumeration()
      requires Valid() && -1 <= level < tree.z.n && Relation() != []
      requires forall x :: x in Relation() && Starts(currentTuple[..level + 1], x) ==> Rank(currentTuple) <= Rank(x)
      modifies this`enumBptIter, this`enumBegin
      ensures fresh(enumBptIter) && Enumerating(Group(tree.z.n, Relation(), currentTuple[..level + 1]), 0)
    {
      hide Rank, Place, BPlusTree.Valid, Stacked, Lowest, Highest, Position, Group;
      var n, p := tree.z.n, currentTuple[..level + 1];
      tree.ContentsAscend();
      PrefixMeaning(n, p, currentTuple);
      forall i | 0 <= i < At() ensures !Starts(p, Relation()[i]) {
        assert Relation()[i] in Relation() && Rank(Relation()[i]) < Rank(Relation()[At()]);
      }
      GroupBegins(n, Relation(), p, At());
      GroupHas(n, Relation(), p);
      enumBptIter := new BptIter(tree, currentLeaf, currentPosInLeaf, Highest(n, p), li);
      enumBegin := At();
    }

    /** The next record of the group: what it has beyond the current level is for the enumeration variables. */
    method NextEnumeration(ghost group: seq<Record>, ghost passed: nat) returns (values: Option<Record>)
      requires Enumerating(group, passed) && Valid()
      modifies enumBptIter
      ensures values == if passed < |group| then Some(group[passed][level + 1..]) else None
      ensures passed < |group| ==> Enumerating(group, passed + 1)
      ensures passed >= |group| ==> Enumerating(group, passed)
    {
      hide Rank, Place, BPlusTree.Valid, Stacked, Position, Group;
      var record := enumBptIter.Next();
      match record {
        case Some(r) => values := Some(r[level + 1..]);
        case None => values := None;
      }
    }
  }
}
