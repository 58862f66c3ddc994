/** Range scans over a B+tree. */
module RangeScan {
  import opened Options
  import opened Records
  import opened PageTrees
  import opened LeafChains
  import opened IndexPages
  import opened BPlusTrees

  class BptIter {
    const tree: BPlusTree
    const max: Record
    var currentPos: nat
    var currentLeaf: LeafPage

    // which leaf that is, counted from the left
    ghost var li: nat

    ghost predicate Valid()
      reads this, tree, tree.dirs, tree.leaves, tree.recordArrays, tree.childArrays
    {
      tree.Valid() && IsRecord(tree.z.n, max) && tree.IsLeaf(currentLeaf, li)
    }

    /** How many records of the tree come before the next one. */
    ghost function At(): nat
      requires Valid()
      reads this, tree, tree.dirs, tree.leaves, tree.recordArrays, tree.childArrays
    {
      Position(tree.AllLeaves(), li, currentPos)
    }

    constructor (tree: BPlusTree, leaf: LeafPage, pos: nat, max: Record, ghost li: nat)
      requires tree.Valid() && IsRecord(tree.z.n, max) && tree.IsLeaf(leaf, li)
      ensures Valid() && this.tree == tree && this.max == max && At() == Position(tree.AllLeaves(), li, pos)
    {
      this.tree, this.max, this.currentPos, this.currentLeaf, this.li := tree, max, pos, leaf, li;
    }

    /** The next record of the tree if it is not above `max`; from then on, nothing. */
    method Next() returns (res: Option<Record>)
      requires Valid()
      modifies this
      ensures Valid() && old(At()) <= |tree.Contents()|
      ensures var s, g := tree.Contents(), old(At());
        if g < |s| && Rank(s[g]) <= Rank(max) then res == Some(s[g]) && At() == g + 1
        else res == None && At() == g
    {
      hide Rank, Flat, Leaves, Stored, GoodDir, LeafPage.Is, DirPage.Is;
      while true
        invariant Valid() && At() == old(At())
        decreases |tree.AllLeaves()| - li
      {
        tree.LeafFacts(li);
        AtPosition(tree.AllLeaves(), li, currentPos);
        tree.LeafHolds(currentLeaf, li);
        if currentPos < currentLeaf.valueCount {
          var record := currentLeaf.records[currentPos];
          var c := Compare(tree.z.n, record, max);
          if c == Greater {
            return None;
          }
          currentPos := currentPos + 1;
          return Some(record);
        } else if currentLeaf.nextLeaf != 0 {
          currentLeaf := tree.leaves[currentLeaf.nextLeaf];
          currentPos, li := 0, li + 1;
        } else {
          return None;
        }
      }
    }
  }

  method GetRange(tree: BPlusTree, min: Record, max: Record) returns (iter: BptIter)
    requires tree.Valid() && IsRecord(tree.z.n, min) && IsRecord(tree.z.n, max)
    ensures iter.Valid() && iter.tree == tree && iter.max == max && iter.At() == Place(tree.Contents(), Rank(min))
    ensures fresh(iter)
  {
    hide Rank, Place;
    RankBelowLimit(tree.z.n, min);
    tree.RootIsAt();
    var leaf, index, li, pushed, spots := tree.SearchLeaf(tree.dirs[0], min, tree.RootSpot());
    iter := new BptIter(tree, leaf, index, max, li);
  }

  /** Takes everything that the iterator still yields. */
  method Drain(iter: BptIter) returns (out: seq<Record>)
    requires iter.Valid()
    modifies iter
    ensures iter.Valid()
    ensures old(iter.At()) <= iter.At() <= |iter.tree.Contents()|
    ensures out == iter.tree.Contents()[old(iter.At())..iter.At()]
    ensures forall i :: old(iter.At()) <= i < iter.At() ==> Rank(iter.tree.Contents()[i]) <= Rank(iter.max)
    ensures iter.At() < |iter.tree.Contents()| ==> Rank(iter.tree.Contents()[iter.At()]) > Rank(iter.max)
  {
    hide Rank, Place, Position, BPlusTree.Valid, BPlusTree.IsLeaf, IsRecord;
    ghost var s, from := iter.tree.Contents(), iter.At();
    out := [];
    var next := iter.Next();
    while next != None
      invariant iter.Valid() && from + |out| <= |s| && out == s[from..from + |out|]
      invariant forall i :: from <= i < from + |out| ==> Rank(s[i]) <= Rank(iter.max)
      invariant if next == None then iter.At() == from + |out| && (iter.At() < |s| ==> Rank(s[iter.At()]) > Rank(iter.max))
                else from + |out| < |s| && next == Some(s[from + |out|]) && Rank(next.value) <= Rank(iter.max) && iter.At() == from + |out| + 1
      decreases |s| - |out|, next != None
    {
      out := out + [next.value];
      next := iter.Next();
    }
  }

  /** The records in [min, max], in order; asking again yields nothing. */
  method Scan(tree: BPlusTree, min: Record, max: Record) returns (out: seq<Record>, iter: BptIter)
    requires tree.Valid() && IsRecord(tree.z.n, min) && IsRecord(tree.z.n, max)
    ensures out == InRange(tree.Contents(), Rank(min), Rank(max))
    ensures forall r :: r in out <==> r in tree.Contents() && Rank(min) <= Rank(r) <= Rank(max)
    ensures Ascending(out)
    ensures iter.Valid() && (iter.At() < |tree.Contents()| ==> Rank(tree.Contents()[iter.At()]) > Rank(iter.max))
  {
    hide Rank, Place, InRange, Position, BPlusTree.Valid, Ascending, BPlusTree.IsLeaf, IsRecord;
    tree.ContentsAscend();
    iter := GetRange(tree, min, max);
    out := Drain(iter);
    RangeIs(tree.Contents(), Rank(min), Rank(max), iter.At());
  }
}
