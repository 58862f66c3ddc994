/** What insertion does to the tree that the pages make up. */
module TreeInsertion {
  import opened Records
  import opened PageTrees

  // ----- insertion ---------------------------------------------------------------------------------

  datatype Outcome = Duplicate | Done | Split(key: Record, pointer: int)

  /** What inserting `record` below `t` leaves: one tree, or two with a key between them, that hold
      the records of `t` and `record`, use pages of `t` and new ones and are as good as `t` was. */
  ghost predicate Regrown(z: Sizes, t: Tree, record: Record, d: nat, lo: nat, hi: nat, after: nat, nd: nat, nl: nat,
                          result: Outcome, l: Tree, r: Tree)
  {
    && First(l) == First(t) && l.Pointer() == t.Pointer() && Renews(l, t, nd, nl)
    && match result
       case Duplicate => record in InOrder(t) && l == t && Good(z, l, d, lo, hi, after)
       case Done => record !in InOrder(t) && InOrder(l) == Inserted(InOrder(t), record) && Good(z, l, d, lo, hi, after)
       case Split(key, pointer) =>
         && record !in InOrder(t) && InOrder(l) + InOrder(r) == Inserted(InOrder(t), record)
         && IsRecord(z.n, key) && lo < Rank(key) < hi && pointer == r.Pointer()
         && Good(z, l, d, lo, Rank(key), First(r)) && Good(z, r, d, Rank(key), hi, after)
         && Renews(r, t, nd, nl) && Apart(l, r)
  }

  /** What inserting `record` makes of the leaf pages, page `p` being the one to put it in. */
  ghost predicate LeafInserted(z: Sizes, before: seq<LeafNode>, p: nat, record: Record, now: seq<LeafNode>, result: Outcome)
    requires p < |before|
  {
    var node := before[p];
    var all, m := Inserted(node.records, record), (z.leafMax + 1) / 2;
    if record in node.records then result == Duplicate && now == before
    else if |node.records| < z.leafMax then result == Done && now == before[p := LeafNode(all, node.next)]
    else
      && m < |all| && result == Split(all[m], |before|)
      && now == before[p := LeafNode(all[..m], |before|)] + [LeafNode(all[m..], node.next)]
  }

  /** What adding a key and the child right of it makes of the directory pages. */
  ghost predicate DirAdded(z: Sizes, before: seq<DirNode>, p: nat, index: nat, key: Record, child: int,
                           now: seq<DirNode>, result: Outcome)
    requires p < |before| && index <= |before[p].keys| && |before[p].children| == |before[p].keys| + 1
  {
    var ks, cs := InsertAt(before[p].keys, index, key), InsertAt(before[p].children, index + 1, child);
    var m := (z.dirMax + 1) / 2;
    if |ks| <= z.dirMax then result == Done && now == before[p := DirNode(ks, cs)]
    else
      && m < z.dirMax < |ks|
      && (if p == 0 then
            && result == Done
            && now == before[0 := DirNode([ks[m]], [-|before|, -|before| - 1])]
                      + [DirNode(ks[..m], cs[..m + 1]), DirNode(ks[m + 1..], cs[m + 1..])]
          else
            && result == Split(ks[m], -|before|)
            && now == before[p := DirNode(ks[..m], cs[..m + 1])] + [DirNode(ks[m + 1..], cs[m + 1..])])
  }

  lemma LeafRegrown(z: Sizes, t: Tree, record: Record, lo: nat, hi: nat, after: nat, dirs: seq<DirNode>,
                    before: seq<LeafNode>, now: seq<LeafNode>, result: Outcome) returns (l: Tree, r: Tree)
    requires z.Valid() && t.Leaf? && Good(z, t, 0, lo, hi, after) && Stored(t, dirs, before)
    requires IsRecord(z.n, record) && lo <= Rank(record) < hi
    requires LeafInserted(z, before, t.page, record, now, result)
    ensures Regrown(z, t, record, 0, lo, hi, after, |dirs|, |before|, result, l, r)
    ensures Stored(l, dirs, now) && (result.Split? ==> Stored(r, dirs, now))
  {
    hide Rank, Inserted;
    l, r := t, t;
    if result == Done {
      l := Leaf(t.page, Inserted(t.records, record), t.next);
      LeafGrown(z, t.records, record, lo, hi);
    } else if result.Split? {
      var all, m := Inserted(t.records, record), (z.leafMax + 1) / 2;
      l, r := Leaf(t.page, all[..m], |before|), Leaf(|before|, all[m..], t.next);
      LeafGrown(z, t.records, record, lo, hi);
      LeafCut(z, all, m, lo, hi);
    }
  }

  lemma LeafGrown(z: Sizes, s: seq<Record>, record: Record, lo: nat, hi: nat)
    requires SortedWithin(z.n, s, lo, hi) && IsRecord(z.n, record) && lo <= Rank(record) < hi && record !in s
    ensures SortedWithin(z.n, Inserted(s, record), lo, hi) && |Inserted(s, record)| == |s| + 1
  {
    hide Rank, Inserted;
    InsertedAdds(z.n, s, record);
    var all := Inserted(s, record);
    forall i | 0 <= i < |all| ensures lo <= Rank(all[i]) < hi {
      assert all[i] in all;
    }
  }

  lemma LeafCut(z: Sizes, all: seq<Record>, m: nat, lo: nat, hi: nat)
    requires SortedWithin(z.n, all, lo, hi) && 0 < m < |all|
    ensures SortedWithin(z.n, all[..m], lo, Rank(all[m])) && SortedWithin(z.n, all[m..], Rank(all[m]), hi)
    ensures lo < Rank(all[m]) < hi && all[..m] + all[m..] == all
  {
    hide Rank;
    assert Rank(all[0]) < Rank(all[m]);
  }

  // ----- directories -------------------------------------------------------------------------------

  /** The child in whose range `x` lies is the one right of the last key that is not above it. */
  lemma RowFind(z: Sizes, keys: seq<Record>, kids: seq<Tree>, d: nat, lo: nat, hi: nat, after: nat, x: nat)
    requires Row(z, keys, kids, d, lo, hi, after) && lo <= x < hi
    ensures var i := Place(keys, x + 1); i < |kids| && Edge(keys, lo, hi, i) <= x < Edge(keys, lo, hi, i + 1)
  {
    hide Rank, Good, Place;
  }

  lemma KeysAscend(z: Sizes, keys: seq<Record>, kids: seq<Tree>, d: nat, lo: nat, hi: nat, after: nat)
    requires Row(z, keys, kids, d, lo, hi, after)
    ensures Ascending(keys)
  {
    hide Rank, Good;
    forall i, j | 0 <= i < j < |keys| ensures Rank(keys[i]) < Rank(keys[j]) {
      EdgesAscend(z, keys, kids, d, lo, hi, after, i + 1, j + 1);
    }
  }

  lemma RowFindsAgain(z: Sizes, keys: seq<Record>, kids: seq<Tree>, d: nat, lo: nat, hi: nat, after: nat, i: nat, x: nat)
    requires Row(z, keys, kids, d, lo, hi, after) && i < |kids|
    requires Edge(keys, lo, hi, i) <= x < Edge(keys, lo, hi, i + 1)
    ensures Place(keys, x + 1) == i
  {
    hide Rank, Good, Place;
    forall j | 0 <= j < i ensures Rank(keys[j]) < x + 1 {
      if j + 1 < i {
        EdgesAscend(z, keys, kids, d, lo, hi, after, j + 1, i);
      }
    }
    PlaceIs(keys, x + 1, i);
  }

  /** `t` with child `i` replaced. */
  ghost function With(t: Tree, i: nat, kid: Tree): Tree
    requires t.Dir? && i < |t.kids|
  {
    Dir(t.page, t.keys, t.kids[i := kid])
  }

  /** `t` with child `i` split in two. */
  ghost function Grow(t: Tree, i: nat, l: Tree, k: Record, r: Tree): Tree
    requires t.Dir? && i < |t.kids| && i <= |t.keys|
  {
    Dir(t.page, InsertAt(t.keys, i, k), Grown(t.kids, i, l, r))
  }

  lemma KidPages(t: Tree, i: nat)
    requires t.Dir? && i < |t.kids|
    ensures DirPages(t.kids[i]) <= DirPages(t) && LeafPages(t.kids[i]) <= LeafPages(t) && t.page in DirPages(t)
  {
  }

  lemma KidsRenew(s: Tree, t: Tree, nd: nat, nl: nat)
    requires s.Dir? && t.Dir? && (s.page == t.page || s.page >= nd)
    requires forall i :: 0 <= i < |s.kids| ==> Renews(s.kids[i], t, nd, nl)
    ensures Renews(s, t, nd, nl)
  {
  }

  lemma RenewsKid(s: Tree, t: Tree, i: nat, nd: nat, nl: nat)
    requires t.Dir? && i < |t.kids| && Renews(s, t.kids[i], nd, nl)
    ensures Renews(s, t, nd, nl)
  {
    hide LeafPages, DirPages;
    KidPages(t, i);
  }

  /** Insertion below child `i` that did not split it. */
  lemma DirKeeps(z: Sizes, t: Tree, record: Record, d: nat, lo: nat, hi: nat, after: nat, i: nat, nd: nat, nl: nat, l: Tree, r: Tree)
    requires GoodDir(z, t, d, lo, hi, after) && i < |t.kids| && AllBounded(t.kids, nd, nl) && t.page < nd
    requires Edge(t.keys, lo, hi, i) <= Rank(record) < Edge(t.keys, lo, hi, i + 1)
    requires Regrown(z, t.kids[i], record, d - 1, Edge(t.keys, lo, hi, i), Edge(t.keys, lo, hi, i + 1),
                     After(t.kids, after, i), nd, nl, Done, l, r)
    ensures var s := With(t, i, l);
      && GoodDir(z, s, d, lo, hi, after) && First(s) == First(t) && Renews(s, t, nd, nl)
      && record !in InOrder(t) && InOrder(s) == Inserted(InOrder(t), record)
  {
    hide Rank, Good, Row, LeafPages, DirPages, Renews, Inserted, Edge;
    var s := With(t, i, l);
    RowCount(z, t.keys, t.kids, d - 1, lo, hi, after);
    RowReplace(z, t.keys, t.kids, d - 1, lo, hi, after, i, l, nd, nl);
    RowInsert(z, t.keys, t.kids, d - 1, lo, hi, after, i, record);
    JoinedReplaced(t.kids, i, l);
    forall j | 0 <= j < |s.kids| ensures Renews(s.kids[j], t, nd, nl) && s.page !in DirPages(s.kids[j]) {
      OldKid(t, j, nd, nl);
      RenewsKid(s.kids[j], t, j, nd, nl);
      NotRenewed(s.kids[j], t.kids[j], t.page, nd, nl);
    }
    KidsRenew(s, t, nd, nl);
  }

  lemma RowCount(z: Sizes, keys: seq<Record>, kids: seq<Tree>, d: nat, lo: nat, hi: nat, after: nat)
    requires Row(z, keys, kids, d, lo, hi, after)
    ensures |kids| == |keys| + 1
  {
  }

  lemma OldKid(t: Tree, j: nat, nd: nat, nl: nat)
    requires t.Dir? && j < |t.kids|
    ensures Renews(t.kids[j], t.kids[j], nd, nl)
  {
  }

  lemma NotRenewed(s: Tree, t: Tree, p: nat, nd: nat, nl: nat)
    requires Renews(s, t, nd, nl) && p !in DirPages(t) && p < nd
    ensures p !in DirPages(s)
  {
  }

  /** Insertion below child `i` that split it. */
  lemma DirGrows(z: Sizes, t: Tree, record: Record, d: nat, lo: nat, hi: nat, after: nat, i: nat, nd: nat, nl: nat,
                 key: Record, pointer: int, l: Tree, r: Tree)
    requires GoodDir(z, t, d, lo, hi, after) && i < |t.kids| && AllBounded(t.kids, nd, nl) && t.page < nd
    requires Edge(t.keys, lo, hi, i) <= Rank(record) < Edge(t.keys, lo, hi, i + 1)
    requires Regrown(z, t.kids[i], record, d - 1, Edge(t.keys, lo, hi, i), Edge(t.keys, lo, hi, i + 1),
                     After(t.kids, after, i), nd, nl, Split(key, pointer), l, r)
    ensures i <= |t.keys| && Place(t.keys, Rank(key) + 1) == i
    ensures var s := Grow(t, i, l, key, r);
      && Row(z, s.keys, s.kids, d - 1, lo, hi, after) && First(s) == First(t) && Renews(s, t, nd, nl)
      && (forall j :: 0 <= j < |s.kids| ==> s.page !in DirPages(s.kids[j]))
      && record !in InOrder(t) && InOrder(s) == Inserted(InOrder(t), record)
  {
    hide Rank, Good, Row, LeafPages, DirPages, Renews, Inserted, Edge, Place;
    RowCount(z, t.keys, t.kids, d - 1, lo, hi, after);
    RowFindsAgain(z, t.keys, t.kids, d - 1, lo, hi, after, i, Rank(key));
    var s := Grow(t, i, l, key, r);
    RowGrow(z, t.keys, t.kids, d - 1, lo, hi, after, i, l, key, r, nd, nl);
    RowInsert(z, t.keys, t.kids, d - 1, lo, hi, after, i, record);
    JoinedGrown(t.kids, i, l, r);
    forall j | 0 <= j < |s.kids| ensures Renews(s.kids[j], t, nd, nl) && s.page !in DirPages(s.kids[j]) {
      var x := if j <= i then j else j - 1;
      OldKid(t, x, nd, nl);
      RenewsKid(s.kids[j], t, x, nd, nl);
      NotRenewed(s.kids[j], t.kids[x], t.page, nd, nl);
    }
    KidsRenew(s, t, nd, nl);
  }

  ghost function LeftPart(t: Tree, page: nat, m: nat): Tree
    requires t.Dir? && m < |t.keys| < |t.kids|
  {
    Dir(page, t.keys[..m], t.kids[..m + 1])
  }

  ghost function RightPart(t: Tree, page: nat, m: nat): Tree
    requires t.Dir? && m < |t.keys| < |t.kids|
  {
    Dir(page, t.keys[m + 1..], t.kids[m + 1..])
  }

  /** An overfull directory cut at key `m` into two that lie on pages `p` and `q`. */
  lemma DirCut(z: Sizes, t: Tree, d: nat, lo: nat, hi: nat, after: nat, m: nat, p: nat, q: nat)
    requires t.Dir? && d > 0 && Row(z, t.keys, t.kids, d - 1, lo, hi, after)
    requires m <= z.dirMax && m < |t.keys| <= m + 1 + z.dirMax && p > 0 && q > 0 && p != q
    requires forall j :: 0 <= j < |t.kids| ==> p !in DirPages(t.kids[j]) && q !in DirPages(t.kids[j])
    ensures |t.kids| == |t.keys| + 1 && lo < Rank(t.keys[m]) < hi && IsRecord(z.n, t.keys[m])
    ensures var l, r := LeftPart(t, p, m), RightPart(t, q, m);
      && Good(z, l, d, lo, Rank(t.keys[m]), First(r)) && Good(z, r, d, Rank(t.keys[m]), hi, after)
      && Apart(l, r) && First(l) == First(t) && InOrder(l) + InOrder(r) == InOrder(t)
  {
    hide Rank, Good, Row, LeafPages, DirPages, Joined, Edge;
    CutIsRow(z, t.keys, t.kids, d - 1, lo, hi, after, m);
    assert t.kids == t.kids[..m + 1] + t.kids[m + 1..];
    JoinedConcat(t.kids[..m + 1], t.kids[m + 1..]);
    var l, r := LeftPart(t, p, m), RightPart(t, q, m);
    DirIsGood(z, l, d, lo, Rank(t.keys[m]), First(t.kids[m + 1]));
    DirIsGood(z, r, d, Rank(t.keys[m]), hi, after);
    PartsApart(z, t, d - 1, lo, hi, after, l, r, m);
  }

  lemma DirIsGood(z: Sizes, t: Tree, d: nat, lo: nat, hi: nat, after: nat)
    requires GoodDir(z, t, d, lo, hi, after) && t.page > 0
    ensures Good(z, t, d, lo, hi, after)
  {
  }

  /** The sign of a pointer tells what kind of page it leads to. */
  lemma PointerTells(z: Sizes, t: Tree, d: nat, lo: nat, hi: nat, after: nat)
    requires Good(z, t, d, lo, hi, after)
    ensures t.Pointer() < 0 <==> t.Dir?
  {
  }

  lemma GoodIsDir(z: Sizes, t: Tree, d: nat, lo: nat, hi: nat, after: nat)
    requires Good(z, t, d, lo, hi, after) && t.Dir?
    ensures GoodDir(z, t, d, lo, hi, after) && t.page > 0
  {
  }

  lemma PartsApart(z: Sizes, t: Tree, d: nat, lo: nat, hi: nat, after: nat, l: Tree, r: Tree, m: nat)
    requires t.Dir? && Row(z, t.keys, t.kids, d, lo, hi, after) && m < |t.keys|
    requires l.Dir? && r.Dir? && l.page != r.page && l.kids == t.kids[..m + 1] && r.kids == t.kids[m + 1..]
    requires forall j :: 0 <= j < |t.kids| ==> l.page !in DirPages(t.kids[j]) && r.page !in DirPages(t.kids[j])
    ensures Apart(l, r)
  {
    hide Good, Edge;
    forall i, j | 0 <= i < |l.kids| && 0 <= j < |r.kids| ensures Apart(l.kids[i], r.kids[j]) {
      assert Apart(t.kids[i], t.kids[m + 1 + j]);
    }
    assert forall j :: 0 <= j < |r.kids| ==> r.kids[j] == t.kids[m + 1 + j];
  }

  // ----- what the pages hold afterwards ---------------------------------------------------------------

  /** Nothing but `pages` and new pages changed. */
  ghost predicate OnlyIn<T>(pages: set<nat>, before: seq<T>, now: seq<T>) {
    |before| <= |now| && forall q :: 0 <= q < |before| && q !in pages ==> now[q] == before[q]
  }

  lemma OnlyInTrans<T>(a: set<nat>, b: set<nat>, s: seq<T>, t: seq<T>, u: seq<T>)
    requires OnlyIn(a, s, t) && OnlyIn(b, t, u)
    ensures OnlyIn(a + b, s, u)
  {
  }

  ghost predicate AllStored(kids: seq<Tree>, dirs: seq<DirNode>, leaves: seq<LeafNode>) {
    forall i :: 0 <= i < |kids| ==> Stored(kids[i], dirs, leaves)
  }

  lemma AllStoredBounded(kids: seq<Tree>, dirs: seq<DirNode>, leaves: seq<LeafNode>)
    requires AllStored(kids, dirs, leaves)
    ensures AllBounded(kids, |dirs|, |leaves|)
  {
    hide Stored, Bounded;
    forall i | 0 <= i < |kids| ensures Bounded(kids[i], |dirs|, |leaves|) {
      StoredIsBounded(kids[i], dirs, leaves);
    }
  }

  /** Changes below child `i` leave the other children and the directory itself alone. */
  lemma OthersStored(z: Sizes, t: Tree, d: nat, lo: nat, hi: nat, after: nat, i: nat,
                     dirs: seq<DirNode>, leaves: seq<LeafNode>, dirs': seq<DirNode>, leaves': seq<LeafNode>)
    requires GoodDir(z, t, d, lo, hi, after) && i < |t.kids| && Stored(t, dirs, leaves)
    requires OnlyIn(DirPages(t.kids[i]), dirs, dirs') && OnlyIn(LeafPages(t.kids[i]), leaves, leaves')
    ensures t.page < |dirs| && dirs'[t.page] == dirs[t.page]
    ensures forall j :: 0 <= j < |t.kids| && j != i ==> Stored(t.kids[j], dirs', leaves')
  {
    hide Good, DirPages, LeafPages, Edge;
    forall j | 0 <= j < |t.kids| && j != i ensures Stored(t.kids[j], dirs', leaves') {
      assert Stored(t.kids[j], dirs, leaves);
      assert Apart(t.kids[i], t.kids[j]) by {
        assert if i < j then Apart(t.kids[i], t.kids[j]) else Apart(t.kids[j], t.kids[i]);
      }
      StoredElsewhere(t.kids[j], dirs, leaves, dirs', leaves');
    }
  }

  /** Writing page `p` and appending pages leaves trees that do not use `p` stored. */
  lemma StillStored(kids: seq<Tree>, p: nat, dirs: seq<DirNode>, leaves: seq<LeafNode>, dirs': seq<DirNode>)
    requires AllStored(kids, dirs, leaves) && OnlyIn({p}, dirs, dirs')
    requires forall j :: 0 <= j < |kids| ==> p !in DirPages(kids[j])
    ensures AllStored(kids, dirs', leaves)
  {
    hide Stored, DirPages, LeafPages;
    forall j | 0 <= j < |kids| ensures Stored(kids[j], dirs', leaves) {
      StoredElsewhere(kids[j], dirs, leaves, dirs', leaves);
    }
  }

  lemma PointersGrown(kids: seq<Tree>, i: nat, l: Tree, r: Tree)
    requires i < |kids| && l.Pointer() == kids[i].Pointer()
    ensures Pointers(Grown(kids, i, l, r)) == InsertAt(Pointers(kids), i + 1, r.Pointer())
  {
  }

  lemma PointersWith(kids: seq<Tree>, i: nat, l: Tree)
    requires i < |kids| && l.Pointer() == kids[i].Pointer()
    ensures Pointers(kids[i := l]) == Pointers(kids)
  {
  }

  lemma PointersPart(kids: seq<Tree>, m: nat)
    requires m <= |kids|
    ensures Pointers(kids[..m]) == Pointers(kids)[..m] && Pointers(kids[m..]) == Pointers(kids)[m..]
  {
  }

  /** The state after inserting below child `i` of `t`. */
  ghost predicate Below(z: Sizes, t: Tree, record: Record, d: nat, lo: nat, hi: nat, after: nat, i: nat,
                        result: Outcome, l: Tree, r: Tree,
                        dirs: seq<DirNode>, leaves: seq<LeafNode>, dirs': seq<DirNode>, leaves': seq<LeafNode>)
  {
    && GoodDir(z, t, d, lo, hi, after) && i < |t.kids| && Stored(t, dirs, leaves)
    && Edge(t.keys, lo, hi, i) <= Rank(record) < Edge(t.keys, lo, hi, i + 1)
    && Regrown(z, t.kids[i], record, d - 1, Edge(t.keys, lo, hi, i), Edge(t.keys, lo, hi, i + 1),
               After(t.kids, after, i), |dirs|, |leaves|, result, l, r)
    && Stored(l, dirs', leaves') && (result.Split? ==> Stored(r, dirs', leaves'))
    && OnlyIn(DirPages(t.kids[i]), dirs, dirs') && OnlyIn(LeafPages(t.kids[i]), leaves, leaves')
  }

  lemma BelowBasics(z: Sizes, t: Tree, record: Record, d: nat, lo: nat, hi: nat, after: nat, i: nat,
                    result: Outcome, l: Tree, r: Tree,
                    dirs: seq<DirNode>, leaves: seq<LeafNode>, dirs': seq<DirNode>, leaves': seq<LeafNode>)
    requires Below(z, t, record, d, lo, hi, after, i, result, l, r, dirs, leaves, dirs', leaves')
    ensures AllBounded(t.kids, |dirs|, |leaves|) && t.page < |dirs| && |t.kids| == |t.keys| + 1
    ensures dirs'[t.page] == dirs[t.page] == DirNode(t.keys, Pointers(t.kids))
    ensures forall j :: 0 <= j < |t.kids| && j != i ==> Stored(t.kids[j], dirs', leaves')
    ensures OnlyIn(DirPages(t), dirs, dirs') && OnlyIn(LeafPages(t), leaves, leaves')
  {
    hide Rank, Good, Edge, Regrown, DirPages, LeafPages, Bounded;
    OthersStored(z, t, d, lo, hi, after, i, dirs, leaves, dirs', leaves');
    AllStoredBounded(t.kids, dirs, leaves);
    KidPages(t, i);
  }

  /** Nothing but child `i` changed. */
  lemma DirKept(z: Sizes, t: Tree, record: Record, d: nat, lo: nat, hi: nat, after: nat, i: nat, l: Tree, r: Tree, result: Outcome,
                dirs: seq<DirNode>, leaves: seq<LeafNode>, dirs': seq<DirNode>, leaves': seq<LeafNode>)
    requires Below(z, t, record, d, lo, hi, after, i, result, l, r, dirs, leaves, dirs', leaves') && !result.Split?
    ensures var s := With(t, i, l);
      && First(s) == First(t) && Renews(s, t, |dirs|, |leaves|) && GoodDir(z, s, d, lo, hi, after)
      && (result == Duplicate ==> record in InOrder(t) && s == t)
      && (result == Done ==> record !in InOrder(t) && InOrder(s) == Inserted(InOrder(t), record))
      && Stored(s, dirs', leaves')
      && (t.page > 0 ==> Regrown(z, t, record, d, lo, hi, after, |dirs|, |leaves|, result, s, r))
    ensures OnlyIn(DirPages(t), dirs, dirs') && OnlyIn(LeafPages(t), leaves, leaves')
  {
    hide Rank, Good, Row, Edge, DirPages, LeafPages, Bounded, Renews, Inserted;
    BelowBasics(z, t, record, d, lo, hi, after, i, result, l, r, dirs, leaves, dirs', leaves');
    PointersWith(t.kids, i, l);
    if result == Done {
      DirKeeps(z, t, record, d, lo, hi, after, i, |dirs|, |leaves|, l, r);
    } else {
      assert t.kids[i := l] == t.kids;
      RowInsert(z, t.keys, t.kids, d - 1, lo, hi, after, i, record);
      OldKid(Dir(0, [], [t]), 0, |dirs|, |leaves|);
    }
    if t.page > 0 {
      DirIsGood(z, With(t, i, l), d, lo, hi, after);
    }
  }

  /** Child `i` was split: what holds before the new child is added to the directory. */
  lemma DirGrown(z: Sizes, t: Tree, record: Record, d: nat, lo: nat, hi: nat, after: nat, i: nat, key: Record, pointer: int,
                 l: Tree, r: Tree, dirs: seq<DirNode>, leaves: seq<LeafNode>, dirs': seq<DirNode>, leaves': seq<LeafNode>)
    requires Below(z, t, record, d, lo, hi, after, i, Split(key, pointer), l, r, dirs, leaves, dirs', leaves')
    ensures t.Dir? && d > 0 && |t.keys| <= z.dirMax
    ensures IsRecord(z.n, key) && i <= |t.keys| && Place(t.keys, Rank(key) + 1) == i && Ascending(t.keys)
    ensures t.page < |dirs| && dirs'[t.page] == dirs[t.page] == DirNode(t.keys, Pointers(t.kids)) && |t.kids| == |t.keys| + 1
    ensures OnlyIn(DirPages(t), dirs, dirs') && OnlyIn(LeafPages(t), leaves, leaves')
    ensures var s := Grow(t, i, l, key, r);
      && Row(z, s.keys, s.kids, d - 1, lo, hi, after) && First(s) == First(t) && Renews(s, t, |dirs|, |leaves|)
      && (forall j :: 0 <= j < |s.kids| ==> s.page !in DirPages(s.kids[j]))
      && record !in InOrder(t) && InOrder(s) == Inserted(InOrder(t), record)
      && AllStored(s.kids, dirs', leaves') && Pointers(s.kids) == InsertAt(Pointers(t.kids), i + 1, pointer)
  {
    hide Rank, Good, Row, Edge, DirPages, LeafPages, Bounded, Renews, Inserted, Place, Ascending;
    BelowBasics(z, t, record, d, lo, hi, after, i, Split(key, pointer), l, r, dirs, leaves, dirs', leaves');
    KeysAscend(z, t.keys, t.kids, d - 1, lo, hi, after);
    DirGrows(z, t, record, d, lo, hi, after, i, |dirs|, |leaves|, key, pointer, l, r);
    PointersGrown(t.kids, i, l, r);
  }

  lemma PartsRenew(s: Tree, t: Tree, part: Tree, nd: nat, nl: nat)
    requires s.Dir? && part.Dir? && t.Dir? && Renews(s, t, nd, nl) && (part.page == t.page || part.page >= nd)
    requires forall j :: 0 <= j < |part.kids| ==> part.kids[j] in s.kids
    ensures Renews(part, t, nd, nl)
  {
    hide DirPages, LeafPages;
    forall j | 0 <= j < |part.kids| ensures Renews(part.kids[j], t, nd, nl) {
      assert part.kids[j] in s.kids;
      var i :| 0 <= i < |s.kids| && s.kids[i] == part.kids[j];
      KidPages(s, i);
    }
    KidsRenew(part, t, nd, nl);
  }

  lemma StoredDir(t: Tree, dirs: seq<DirNode>, leaves: seq<LeafNode>)
    requires t.Dir? && t.page < |dirs| && dirs[t.page] == DirNode(t.keys, Pointers(t.kids)) && AllStored(t.kids, dirs, leaves)
    ensures Stored(t, dirs, leaves)
  {
  }

  /** The directory grew, and was split itself if it was full. */
  lemma DirSplits(z: Sizes, t: Tree, record: Record, d: nat, lo: nat, hi: nat, after: nat, i: nat, key: Record, pointer: int,
                  l: Tree, r: Tree, dirs: seq<DirNode>, leaves: seq<LeafNode>, mid: seq<DirNode>, leaves': seq<LeafNode>,
                  now: seq<DirNode>, result: Outcome) returns (a: Tree, b: Tree)
    requires z.Valid() && Below(z, t, record, d, lo, hi, after, i, Split(key, pointer), l, r, dirs, leaves, mid, leaves')
    requires t.page > 0 && t.page < |mid| && mid[t.page] == DirNode(t.keys, Pointers(t.kids))
    requires i <= |t.keys| && |t.kids| == |t.keys| + 1 && DirAdded(z, mid, t.page, i, key, pointer, now, result)
    ensures Regrown(z, t, record, d, lo, hi, after, |dirs|, |leaves|, result, a, b) && result != Duplicate
    ensures Stored(a, now, leaves') && (result.Split? ==> Stored(b, now, leaves'))
    ensures OnlyIn(DirPages(t), dirs, now)
  {
    hide Rank, Good, Row, Edge, DirPages, LeafPages, Bounded, Renews, Inserted, Place, Ascending, Stored, Below, InOrder, First, Apart;
    DirGrown(z, t, record, d, lo, hi, after, i, key, pointer, l, r, dirs, leaves, mid, leaves');
    var s := Grow(t, i, l, key, r);
    a, b := s, s;
    var p, q, m := t.page, |mid|, (z.dirMax + 1) / 2;
    StillStored(s.kids, p, mid, leaves', now);
    OnlyInTrans(DirPages(t), {p}, dirs, mid, now);
    assert DirPages(t) + {p} == DirPages(t) by { OwnPage(t); }
    if |s.keys| <= z.dirMax {
      StoredDir(a, now, leaves');
      DirIsGood(z, s, d, lo, hi, after);
    } else {
      AllStoredBounded(s.kids, mid, leaves');
      NewPage(s.kids, q, leaves');
      DirCut(z, s, d, lo, hi, after, m, p, q);
      a, b := LeftPart(s, p, m), RightPart(s, q, m);
      PointersPart(s.kids, m + 1);
      StoredDir(a, now, leaves');
      StoredDir(b, now, leaves');
      PartsRenew(s, t, a, |dirs|, |leaves|);
      PartsRenew(s, t, b, |dirs|, |leaves|);
    }
  }

  lemma OwnPage(t: Tree)
    requires t.Dir?
    ensures t.page in DirPages(t)
  {
  }

  lemma NewPage(kids: seq<Tree>, q: nat, leaves: seq<LeafNode>)
    requires AllBounded(kids, q, |leaves|)
    ensures forall j :: 0 <= j < |kids| ==> q !in DirPages(kids[j])
  {
    hide DirPages, LeafPages;
    forall j | 0 <= j < |kids| ensures q !in DirPages(kids[j]) {
      assert Bounded(kids[j], q, |leaves|);
    }
  }

  /** The root grew; if it was full the tree became one level deeper. */
  lemma RootSplits(z: Sizes, t: Tree, record: Record, d: nat, lo: nat, hi: nat, after: nat, i: nat, key: Record, pointer: int,
                   l: Tree, r: Tree, dirs: seq<DirNode>, leaves: seq<LeafNode>, mid: seq<DirNode>, leaves': seq<LeafNode>,
                   now: seq<DirNode>, result: Outcome) returns (a: Tree, e: nat)
    requires z.Valid() && Below(z, t, record, d, lo, hi, after, i, Split(key, pointer), l, r, dirs, leaves, mid, leaves')
    requires t.page == 0 < |mid| && mid[0] == DirNode(t.keys, Pointers(t.kids))
    requires i <= |t.keys| && |t.kids| == |t.keys| + 1 && DirAdded(z, mid, 0, i, key, pointer, now, result)
    ensures GoodDir(z, a, e, lo, hi, after) && a.page == 0 && First(a) == First(t) && Stored(a, now, leaves')
    ensures record !in InOrder(t) && InOrder(a) == Inserted(InOrder(t), record) && result == Done
  {
    hide Rank, Good, Row, Edge, DirPages, LeafPages, Bounded, Renews, Inserted, Place, Ascending, Stored, Below, InOrder, First, Apart;
    DirGrown(z, t, record, d, lo, hi, after, i, key, pointer, l, r, dirs, leaves, mid, leaves');
    var s := Grow(t, i, l, key, r);
    a, e := s, d;
    var p, q, m := |mid|, |mid| + 1, (z.dirMax + 1) / 2;
    StillStored(s.kids, 0, mid, leaves', now);
    if |s.keys| <= z.dirMax {
      StoredDir(a, now, leaves');
    } else {
      AllStoredBounded(s.kids, mid, leaves');
      NewPage(s.kids, p, leaves');
      WiderBound(s.kids, p, q, |leaves'|);
      NewPage(s.kids, q, leaves');
      DirCut(z, s, d, lo, hi, after, m, p, q);
      var x, y := LeftPart(s, p, m), RightPart(s, q, m);
      PointersPart(s.kids, m + 1);
      StoredDir(x, now, leaves');
      StoredDir(y, now, leaves');
      a, e := Dir(0, [s.keys[m]], [x, y]), d + 1;
      assert Pointers(a.kids) == [x.Pointer(), y.Pointer()];
      StoredDir(a, now, leaves');
      RootOfTwo(z, s.keys[m], x, y, d, lo, hi, after);
      NotInPart(s, x);
      NotInPart(s, y);
    }
  }

  lemma WiderBound(kids: seq<Tree>, nd: nat, nd': nat, nl: nat)
    requires AllBounded(kids, nd, nl) && nd <= nd'
    ensures AllBounded(kids, nd', nl)
  {
  }

  lemma NotInPart(s: Tree, part: Tree)
    requires s.Dir? && part.Dir? && s.page != part.page
    requires forall j :: 0 <= j < |s.kids| ==> s.page !in DirPages(s.kids[j])
    requires forall j :: 0 <= j < |part.kids| ==> part.kids[j] in s.kids
    ensures s.page !in DirPages(part)
  {
    forall j | 0 <= j < |part.kids| ensures s.page !in DirPages(part.kids[j]) {
      assert part.kids[j] in s.kids;
    }
  }

  lemma RootOfTwo(z: Sizes, k: Record, x: Tree, y: Tree, d: nat, lo: nat, hi: nat, after: nat)
    requires Good(z, x, d, lo, Rank(k), First(y)) && Good(z, y, d, Rank(k), hi, after)
    requires lo < Rank(k) < hi && IsRecord(z.n, k) && Apart(x, y)
    ensures Row(z, [k], [x, y], d, lo, hi, after)
    ensures First(Dir(0, [k], [x, y])) == First(x)
    ensures InOrder(Dir(0, [k], [x, y])) == InOrder(x) + InOrder(y)
  {
    hide Rank, Good, Apart;
    var kids := [x, y];
    assert After(kids, after, 0) == First(y);
    assert [x] + [y] == kids;
    JoinedConcat([x], [y]);
    JoinedOne(x);
    JoinedOne(y);
  }
}
