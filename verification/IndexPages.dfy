/** The pages of a B+tree: arrays that are searched, shifted and copied in place. */
module IndexPages {
  import opened Records
  import opened PageTrees

  /** Copies `len` elements; the arrays are different pages. */
  method Copy<T>(dst: array<T>, at: nat, src: array<T>, from: nat, len: nat)
    requires dst != src && at + len <= dst.Length && from + len <= src.Length
    modifies dst
    ensures dst[at..at + len] == src[from..from + len]
    ensures dst[..at] == old(dst[..at]) && dst[at + len..] == old(dst[at + len..])
  {
    for i := 0 to len
      invariant forall j :: 0 <= j < dst.Length ==>
                  dst[j] == if at <= j < at + i then src[from + j - at] else old(dst[j])
    {
      dst[at + i] := src[from + i];
    }
  }

  /** Copies what an overfull array holds from `from` on, `last` being what does not fit in `src`. */
  method CopyUpper<T>(dst: array<T>, src: array<T>, from: nat, last: T)
    requires dst != src && from <= src.Length && src.Length - from < dst.Length
    modifies dst
    ensures dst[..src.Length - from + 1] == (src[..] + [last])[from..]
    ensures dst[src.Length - from + 1..] == old(dst[src.Length - from + 1..])
  {
    var len := src.Length - from;
    Copy(dst, 0, src, from, len);
    assert forall j :: 0 <= j < len ==> dst[j] == dst[0..len][j] == src[from + j];
    assert forall j :: len <= j < dst.Length ==> dst[j] == dst[len..][j - len] == old(dst[j]);
    dst[len] := last;
  }

  /** Moves the elements from `from` up to, and not including, `end` one place to the right. */
  method ShiftRight<T>(a: array<T>, from: nat, end: nat)
    requires from <= end < a.Length
    modifies a
    ensures forall j :: 0 <= j < a.Length ==> a[j] == if from < j <= end then old(a[j - 1]) else old(a[j])
  {
    for i := end downto from
      invariant forall j :: 0 <= j < a.Length ==> a[j] == if i < j <= end then old(a[j - 1]) else old(a[j])
    {
      a[i + 1] := a[i];
    }
  }

  /** Puts `x` at `index` of the first `count` elements; there is room for it. */
  method PutAt<T>(a: array<T>, count: nat, index: nat, x: T)
    requires index <= count < a.Length
    modifies a
    ensures a[..count + 1] == InsertAt(old(a[..count]), index, x)
    ensures a[count + 1..] == old(a[count + 1..])
  {
    ShiftRight(a, index, count);
    a[index] := x;
  }

  /** Puts `x` at `index` of a full array; what no longer fits is returned. */
  method PushOut<T>(a: array<T>, index: nat, x: T) returns (last: T)
    requires index <= a.Length && a.Length > 0
    modifies a
    ensures a[..] + [last] == InsertAt(old(a[..]), index, x)
  {
    ghost var all := InsertAt(a[..], index, x);
    if index == a.Length {
      last := x;
    } else {
      last := a[a.Length - 1];
      ShiftRight(a, index, a.Length - 1);
      a[index] := x;
    }
    assert forall j :: 0 <= j < a.Length ==> a[j] == all[j];
  }

  lemma AllRecords(z: Sizes, index: nat, record: Record, s: seq<Record>)
    requires AreRecords(z.n, s) && IsRecord(z.n, record) && index <= |s|
    ensures AreRecords(z.n, InsertAt(s, index, record))
  {
  }

  class LeafPage {
    const pageNumber: nat
    const records: array<Record>
    var valueCount: nat
    var nextLeaf: nat

    /** A new page is all zeros. */
    constructor (z: Sizes, pageNumber: nat)
      requires z.Valid()
      ensures Is(z, pageNumber, LeafNode([], 0)) && fresh(records)
    {
      this.pageNumber := pageNumber;
      records := new Record[z.leafMax](_ => seq(z.n, _ => 0));
      valueCount, nextLeaf := 0, 0;
    }

    /** This is leaf page `p` and it holds `node`. */
    ghost predicate Is(z: Sizes, p: nat, node: LeafNode)
      reads this, records
    {
      && p == pageNumber && records.Length == z.leafMax && valueCount <= records.Length
      && AreRecords(z.n, records[..]) && node == LeafNode(records[..valueCount], nextLeaf)
    }

    lemma Counts(z: Sizes, p: nat, node: LeafNode)
      requires Is(z, p, node)
      ensures valueCount == |node.records| <= records.Length == z.leafMax
      ensures forall i :: 0 <= i < valueCount ==> records[i] == node.records[i]
    {
    }

    /** The position of the first record that is not below `record`. */
    method SearchIndex(z: Sizes, record: Record, ghost node: LeafNode) returns (index: nat)
      requires z.Valid() && Is(z, pageNumber, node) && IsRecord(z.n, record) && Ascending(node.records)
      ensures node.records != [] ==> index == Place(node.records, Rank(record))
      ensures index <= |node.records| + 1
    {
      hide Rank;
      var from, high: int := 0, valueCount - 1;
      ghost var s := node.records;
      while from < high
        invariant 0 <= from <= high + 1 <= valueCount && (from < valueCount || valueCount == 0)
        invariant forall j :: 0 <= j < from ==> Rank(s[j]) < Rank(record)
        invariant forall j :: high < j < valueCount ==> Rank(s[j]) > Rank(record)
        decreases high - from
      {
        var middle := (from + high) / 2;
        var c := Compare(z.n, record, records[middle]);
        match c {
          case Smaller => high := middle - 1;
          case Greater => from := middle + 1;
          case Equal =>
            PlaceIs(s, Rank(record), middle);
            return middle;
        }
      }
      var c := Compare(z.n, record, records[from]);
      index := if c == Greater then from + 1 else from;
      if valueCount > 0 {
        PlaceIs(s, Rank(record), index);
      }
    }

    method CheckRange(z: Sizes, record: Record, ghost node: LeafNode) returns (inside: bool)
      requires Is(z, pageNumber, node) && IsRecord(z.n, record)
      ensures inside == (node.records != [] && Rank(node.records[0]) <= Rank(record) <= Rank(node.records[|node.records| - 1]))
    {
      if valueCount == 0 {
        return false;
      }
      var low := Compare(z.n, records[0], record);
      var high := Compare(z.n, record, records[valueCount - 1]);
      inside := low != Greater && high != Greater;
    }

    /** Puts a record into a leaf that has room. */
    method Put(z: Sizes, index: nat, record: Record, ghost node: LeafNode)
      requires Is(z, pageNumber, node) && index <= |node.records| < z.leafMax && IsRecord(z.n, record)
      modifies this`valueCount, records
      ensures Is(z, pageNumber, LeafNode(InsertAt(node.records, index, record), node.next))
    {
      PutAt(records, valueCount, index, record);
      valueCount := valueCount + 1;
      assert records[..] == records[..valueCount] + records[valueCount..];
    }

    /** Splits this full leaf, with `record` put in at `index`, between itself and the empty leaf `to`. */
    method SplitInto(z: Sizes, index: nat, record: Record, to: LeafPage, ghost node: LeafNode) returns (key: Record)
      requires z.Valid() && Is(z, pageNumber, node) && index <= |node.records| == z.leafMax && IsRecord(z.n, record)
      requires this != to && records != to.records && to.Is(z, to.pageNumber, LeafNode([], 0))
      modifies this, records, to, to.records
      ensures var all, m := InsertAt(node.records, index, record), (z.leafMax + 1) / 2;
        && Is(z, pageNumber, LeafNode(all[..m], to.pageNumber))
        && to.Is(z, to.pageNumber, LeafNode(all[m..], node.next)) && key == all[m]
    {
      hide InsertAt;
      ghost var all := InsertAt(node.records, index, record);
      AllRecords(z, index, record, node.records);
      assert node.records == records[..];
      var last := PushOut(records, index, record);
      assert all == records[..] + [last];
      assert forall j :: 0 <= j < records.Length ==> records[j] == all[j];
      to.nextLeaf, nextLeaf := nextLeaf, to.pageNumber;
      var middle := (valueCount + 1) / 2;
      to.TakeUpper(z, records, middle, last, all);
      valueCount := middle;
      key := to.records[0];
    }

    /** Takes what is at `middle` or right of it in an overflowing leaf. */
    method TakeUpper(z: Sizes, from: array<Record>, middle: nat, last: Record, ghost all: seq<Record>)
      requires z.Valid() && Is(z, pageNumber, LeafNode([], nextLeaf)) && from != records && from.Length == z.leafMax
      requires all == from[..] + [last] && AreRecords(z.n, all) && middle == (z.leafMax + 1) / 2
      modifies this`valueCount, records
      ensures Is(z, pageNumber, LeafNode(all[middle..], nextLeaf))
    {
      assert forall j :: 0 <= j < records.Length ==> IsRecord(z.n, records[..][j]);
      CopyUpper(records, from, middle, last);
      valueCount := records.Length / 2 + 1;
      KeepRecords(z, records[..], old(records[..]), all[middle..], valueCount);
    }
  }

  lemma KeepRecords(z: Sizes, now: seq<Record>, before: seq<Record>, s: seq<Record>, len: nat)
    requires AreRecords(z.n, before) && AreRecords(z.n, s) && |now| == |before| && len <= |now|
    requires now[..len] == s && now[len..] == before[len..]
    ensures AreRecords(z.n, now)
  {
    forall j | 0 <= j < |now| ensures IsRecord(z.n, now[j]) {
      assert now[j] == if j < len then s[j] else before[len..][j - len];
    }
  }

  class DirPage {
    const pageNumber: nat
    const keys: array<Record>
    const children: array<int>
    var keyCount: nat

    /** A new page is all zeros. */
    constructor (z: Sizes, pageNumber: nat)
      requires z.Valid()
      ensures Is(z, pageNumber, DirNode([], [0])) && fresh(keys) && fresh(children)
    {
      this.pageNumber := pageNumber;
      keys := new Record[z.dirMax](_ => seq(z.n, _ => 0));
      children := new int[z.dirMax + 1](_ => 0);
      keyCount := 0;
    }

    /** This is directory page `p` and it holds `node`. */
    ghost predicate Is(z: Sizes, p: nat, node: DirNode)
      reads this, keys, children
    {
      && p == pageNumber && keys.Length == z.dirMax && children.Length == z.dirMax + 1 && keyCount <= keys.Length
      && AreRecords(z.n, keys[..]) && node == DirNode(keys[..keyCount], children[..keyCount + 1])
    }

    lemma Counts(z: Sizes, p: nat, node: DirNode)
      requires Is(z, p, node)
      ensures keyCount == |node.keys| && |node.children| == keyCount + 1
    {
    }

    /** The child whose range holds `record`: right of the last key that is not above it. */
    method SearchChildIndex(z: Sizes, record: Record, ghost node: DirNode) returns (index: nat)
      requires Is(z, pageNumber, node) && IsRecord(z.n, record) && Ascending(node.keys)
      ensures index == Place(node.keys, Rank(record) + 1)
    {
      hide Rank;
      var from, high: nat := 0, keyCount;
      while from != high
        invariant from <= high <= keyCount
        invariant forall j :: 0 <= j < from ==> Rank(node.keys[j]) < Rank(record) + 1
        invariant forall j :: high <= j < keyCount ==> Rank(node.keys[j]) >= Rank(record) + 1
        decreases high - from
      {
        var middleDir := (from + high + 1) / 2;
        var middleRecord := middleDir - 1;
        var c := Compare(z.n, record, keys[middleRecord]);
        assert keys[middleRecord] == node.keys[middleRecord];
        if c == Smaller {
          high := middleRecord;
        } else {
          from := middleRecord + 1;
        }
      }
      PlaceIs(node.keys, Rank(record) + 1, from);
      index := from;
    }

    method CheckRange(z: Sizes, record: Record, ghost node: DirNode) returns (inside: bool)
      requires Is(z, pageNumber, node) && IsRecord(z.n, record)
      ensures inside == (node.keys != [] && Rank(node.keys[0]) <= Rank(record) <= Rank(node.keys[|node.keys| - 1]))
    {
      if keyCount == 0 {
        return false;
      }
      var low := Compare(z.n, keys[0], record);
      var high := Compare(z.n, record, keys[keyCount - 1]);
      inside := low != Greater && high != Greater;
    }

    /** Adds a key and the child to its right; there is room. */
    method Put(z: Sizes, index: nat, key: Record, child: int, ghost node: DirNode)
      requires Is(z, pageNumber, node) && index <= |node.keys| < z.dirMax && IsRecord(z.n, key)
      modifies this`keyCount, keys, children
      ensures Is(z, pageNumber, DirNode(InsertAt(node.keys, index, key), InsertAt(node.children, index + 1, child)))
    {
      PutAt(keys, keyCount, index, key);
      PutAt(children, keyCount + 1, index + 1, child);
      keyCount := keyCount + 1;
      assert keys[..] == keys[..keyCount] + keys[keyCount..];
    }

    /** Adds a key and a child to a full directory; what no longer fits is returned. */
    method Overflow(z: Sizes, index: nat, key: Record, child: int, ghost node: DirNode)
      returns (lastKey: Record, lastChild: int)
      requires z.Valid() && Is(z, pageNumber, node) && index <= |node.keys| == z.dirMax && IsRecord(z.n, key)
      modifies keys, children
      ensures keys[..] + [lastKey] == InsertAt(node.keys, index, key)
      ensures children[..] + [lastChild] == InsertAt(node.children, index + 1, child)
      ensures Is(z, pageNumber, DirNode(keys[..], children[..])) && IsRecord(z.n, lastKey)
    {
      ghost var all := InsertAt(node.keys, index, key);
      assert node.keys == keys[..] && node.children == children[..];
      assert AreRecords(z.n, all);
      lastKey := PushOut(keys, index, key);
      lastChild := PushOut(children, index + 1, child);
      assert all[|all| - 1] == lastKey;
      assert forall j :: 0 <= j < keys.Length ==> keys[j] == all[j];
    }

    /** Takes what is right of the key at `middle` out of an overflowing directory. */
    method TakeUpper(z: Sizes, from: DirPage, middle: nat, lastKey: Record, lastChild: int, ghost node: DirNode)
      requires this != from && keys != from.keys && children != from.children
      requires Is(z, pageNumber, DirNode([], [0])) && IsRecord(z.n, lastKey)
      requires from.Is(z, from.pageNumber, node) && middle < |node.keys| == z.dirMax
      modifies this`keyCount, keys, children
      ensures Is(z, pageNumber, DirNode((node.keys + [lastKey])[middle + 1..], (node.children + [lastChild])[middle + 1..]))
    {
      CopyUpper(keys, from.keys, middle + 1, lastKey);
      CopyUpper(children, from.children, middle + 1, lastChild);
      keyCount := keys.Length - middle;
      assert keyCount == from.keys.Length - (middle + 1) + 1;
      assert keys[..keyCount] == (node.keys + [lastKey])[middle + 1..];
      KeepRecords(z, keys[..], old(keys[..]), (node.keys + [lastKey])[middle + 1..], keyCount);
    }

    /** Takes what is left of the key at `middle`. */
    method TakeLower(z: Sizes, from: DirPage, middle: nat, ghost node: DirNode)
      requires this != from && keys != from.keys && children != from.children
      requires Is(z, pageNumber, DirNode([], [0]))
      requires from.Is(z, from.pageNumber, node) && middle < |node.keys| == z.dirMax
      modifies this`keyCount, keys, children
      ensures Is(z, pageNumber, DirNode(node.keys[..middle], node.children[..middle + 1]))
    {
      Copy(keys, 0, from.keys, 0, middle);
      Copy(children, 0, from.children, 0, middle + 1);
      keyCount := middle;
      KeepRecords(z, keys[..], old(keys[..]), node.keys[..middle], middle);
    }

    /** Keeps what is left of the key at `middle`, and returns that key. */
    method Truncate(z: Sizes, middle: nat, ghost node: DirNode) returns (key: Record)
      requires Is(z, pageNumber, node) && middle < |node.keys|
      modifies this`keyCount
      ensures key == node.keys[middle]
      ensures Is(z, pageNumber, DirNode(node.keys[..middle], node.children[..middle + 1]))
    {
      keyCount := middle;
      key := keys[middle];
    }

    /** Keeps just the key at `middle`, with two new children. */
    method KeepOne(z: Sizes, middle: nat, left: int, right: int, ghost node: DirNode)
      requires Is(z, pageNumber, node) && middle < |node.keys|
      modifies this`keyCount, keys, children
      ensures Is(z, pageNumber, DirNode([node.keys[middle]], [left, right]))
    {
      assert forall j :: 0 <= j < keys.Length ==> IsRecord(z.n, keys[..][j]);
      keyCount := 1;
      keys[0] := keys[middle];
      children[0], children[1] := left, right;
      assert keys[..1] == [node.keys[middle]] && children[..2] == [left, right];
    }
  }
}
