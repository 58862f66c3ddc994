/** ORDER BY over any number of pages: each page sorted in memory, then runs of pages merged two by
    two between two temporary files. */
module OrderBys {
  import opened TupleOrders
  import opened TupleCollections
  import opened RunMerging

  /** Every page is full but perhaps the last, and only a file of one page may have an empty one. */
  ghost predicate Packed(file: File, cap: nat) {
    && 0 < |file| && Full(file, 0, |file| - 1, cap)
    && |file[|file| - 1]| <= cap && (1 < |file| ==> 0 < |file[|file| - 1]|)
  }

  function Min(a: nat, b: nat): nat {
    if a < b then a else b
  }

  /** Where the g-th run of w pages begins. */
  function Start(w: nat, g: nat): nat {
    g * w
  }

  lemma NextStart(w: nat, g: nat)
    ensures Start(w, g + 1) == Start(w, g) + w && Start(w, 0) == 0
  {
  }

  lemma HalfStarts(half: nat, g: nat)
    ensures Start(half, 2 * g) == Start(2 * half, g) && Start(half, 2 * g + 1) == Start(2 * half, g) + half
  {
    assert (2 * g + 1) * half == (2 * g) * half + half;
    assert (2 * g) * half == g * (2 * half);
  }

  lemma StartsGrow(w: nat, g: nat, h: nat)
    requires g <= h
    ensures Start(w, g) <= Start(w, h)
  {
  }

  /** The g-th run of w pages, or what there is of it. */
  function RunOf(file: File, w: nat, g: nat): File
    requires Start(w, g) <= |file|
  {
    file[Start(w, g)..Min(Start(w, g) + w, |file|)]
  }

  ghost predicate RunsSorted(order: Order, file: File, w: nat) {
    forall g: nat | Start(w, g) < |file| :: Sorted(order, Flat(RunOf(file, w, g)))
  }

  lemma SortedSlice(order: Order, file: File, i: nat, a: nat, b: nat, j: nat)
    requires i <= a <= b <= j <= |file| && Sorted(order, Flat(file[i..j]))
    ensures Sorted(order, Flat(file[a..b]))
  {
    FlatSplit(file, i, a, j);
    FlatSplit(file, a, b, j);
    var s := Flat(file[i..j]);
    SortedPart(order, s, |Flat(file[i..a])|, |Flat(file[i..a])| + |Flat(file[a..b])|);
    assert s[|Flat(file[i..a])|..|Flat(file[i..a])| + |Flat(file[a..b])|] == Flat(file[a..b]);
  }

  // ----- One pass over the pages

  /** A pass with runs of w pages, half of them sorted before, has come to page `start`, which
      begins the g-th run. */
  ghost predicate PassedTo(order: Order, was: File, source: File, dest: File, w: nat, g: nat, start: nat) {
    && start == Min(Start(w, g), |was|) && |source| == |was| && start <= |dest| <= |was|
    && (forall k | start <= k < |was| :: source[k] == was[k])
    && (forall k | 0 <= k < start :: |dest[k]| == |was[k]|)
    && Permutes(Flat(dest[..start]), Flat(was[..start]))
    && (forall h: nat | h < g && Start(w, h) < |was| :: Start(w, h) < Min(Start(w, h) + w, |was|) <= start
          && Sorted(order, Flat(dest[Start(w, h)..Min(Start(w, h) + w, |was|)])))
  }

  /** What a group is split into is sorted: two runs, or the halves of one short run. */
  lemma HalvesAreSorted(order: Order, was: File, half: nat, g: nat, middle: nat, end: nat)
    requires 0 < half && RunsSorted(order, was, half)
    requires var start := Start(2 * half, g);
             && start < |was| && end == Min(start + 2 * half, |was|) - 1
             && start <= middle < end && (middle == start + half - 1 || end < start + half)
    ensures var start := Start(2 * half, g);
            Sorted(order, Flat(was[start..middle + 1])) && Sorted(order, Flat(was[middle + 1..end + 1]))
  {
    hide Start, Sorted, Flat;
    var start := Start(2 * half, g);
    HalfStarts(half, g);
    assert Sorted(order, Flat(RunOf(was, half, 2 * g)));
    if end < start + half {
      SortedSlice(order, was, start, start, middle + 1, Min(start + half, |was|));
      SortedSlice(order, was, start, middle + 1, end + 1, Min(start + half, |was|));
    } else {
      assert Sorted(order, Flat(RunOf(was, half, 2 * g + 1)));
    }
  }

  lemma OnePageIsSorted(order: Order, was: File, half: nat, g: nat)
    requires 0 < half && RunsSorted(order, was, half) && Start(2 * half, g) < |was|
    ensures var start := Start(2 * half, g); Sorted(order, Flat(was[start..start + 1]))
  {
    hide Start, Sorted, Flat;
    var start := Start(2 * half, g);
    HalfStarts(half, g);
    assert Sorted(order, Flat(RunOf(was, half, 2 * g)));
    SortedSlice(order, was, start, start, start + 1, Min(start + half, |was|));
  }

  lemma GroupDone(order: Order, was: File, source: File, next: File, dest: File, made: File, w: nat, g: nat, start: nat, end: nat)
    requires 0 < w && PassedTo(order, was, source, dest, w, g, start)
    requires start == Start(w, g) < |was| && end == Min(start + w, |was|) - 1
    requires |next| == |was| && forall k | end < k < |was| :: next[k] == source[k]
    requires end < |made| <= |was| && forall k | 0 <= k < start :: made[k] == dest[k]
    requires forall k | start <= k <= end :: |made[k]| == |was[k]|
    requires Sorted(order, Flat(made[start..end + 1]))
    requires Permutes(Flat(made[start..end + 1]), Flat(was[start..end + 1]))
    ensures PassedTo(order, was, next, made, w, g + 1, end + 1)
  {
    hide Sorted, Flat, Start;
    NextStart(w, g);
    assert made[..start] == dest[..start];
    assert made[..end + 1] == made[..start] + made[start..end + 1];
    assert was[..end + 1] == was[..start] + was[start..end + 1];
    FlatOfSum(made[..start], made[start..end + 1]);
    FlatOfSum(was[..start], was[start..end + 1]);
    forall h: nat | h < g + 1 && Start(w, h) < |was|
      ensures Start(w, h) < Min(Start(w, h) + w, |was|) <= end + 1
      ensures Sorted(order, Flat(made[Start(w, h)..Min(Start(w, h) + w, |was|)]))
    {
      if h < g {
        assert made[Start(w, h)..Min(Start(w, h) + w, |was|)] == dest[Start(w, h)..Min(Start(w, h) + w, |was|)];
      }
    }
  }

  lemma PassDone(order: Order, was: File, source: File, dest: File, w: nat, g: nat)
    requires 0 < w && PassedTo(order, was, source, dest, w, g, |was|)
    ensures RunsSorted(order, dest, w) && Permutes(Flat(dest), Flat(was))
    ensures |dest| == |was| == |source| && forall k | 0 <= k < |was| :: |dest[k]| == |was[k]|
  {
    assert dest[..|was|] == dest && was[..|was|] == was;
    forall h: nat | Start(w, h) < |dest| ensures Sorted(order, Flat(RunOf(dest, w, h))) {
      if g <= h {
        StartsGrow(w, g, h);
        assert false;
      }
    }
  }

  /** Copy one page tuple by tuple, leaving the source page empty. */
  method CopyPage(source: File, output: File, page: nat) returns (next: File, out: File)
    requires page < |source| && page <= |output|
    ensures next == source[page := []]
    ensures out == Opened(output, page)[page := source[page]]
  {
    out := Opened(output, page);
    var tuples := source[page];
    for i := 0 to |tuples|
      invariant out == Opened(output, page)[page := tuples[..i]]
    {
      out := out[page := out[page] + [tuples[i]]];
      assert tuples[..i] + [tuples[i]] == tuples[..i + 1];
    }
    assert tuples[..|tuples|] == tuples;
    next := source[page := []];
  }

  /** The pages from start to end, a group of at most two runs, become one run of the target. */
  method MergeGroup(order: Order, cap: nat, ghost was: File, before: File, made: File, ghost half: nat, ghost g: nat,
                    startPage: nat, middle: int, endPage: nat)
    returns (source: File, dest: File)
    requires Lawful(order) && 0 < cap && Packed(was, cap) && 0 < half && RunsSorted(order, was, half)
    requires PassedTo(order, was, before, made, 2 * half, g, startPage)
    requires startPage == Start(2 * half, g) < |was| && endPage == Min(startPage + 2 * half, |was|) - 1
    requires startPage < endPage ==>
               startPage <= middle < endPage
               && (middle == startPage + half - 1 || endPage < startPage + half)
    ensures PassedTo(order, was, source, dest, 2 * half, g + 1, endPage + 1)
  {
    hide RunsSorted, Flat, Sorted, Lawful, Permutes, Start, Merged, Opened;
    source, dest := before, made;
    if startPage == endPage {
      OnePageIsSorted(order, was, half, g);
      OpenedAt(made, startPage);
      source, dest := CopyPage(source, dest, startPage);
      CopiedSame(was, dest, startPage);
      SameIsPermuted(Flat(dest[startPage..endPage + 1]));
    } else {
      HalvesAreSorted(order, was, half, g, middle, endPage);
      assert source[startPage..middle + 1] == was[startPage..middle + 1];
      assert source[middle + 1..endPage + 1] == was[middle + 1..endPage + 1];
      dest := Merge(order, cap, source, dest, startPage, middle, endPage);
      MergedGroup(order, was, startPage, middle, endPage);
    }
    GroupDone(order, was, before, source, made, dest, 2 * half, g, startPage, endPage);
  }

  /** One pass: every two neighbouring runs of half the width become one; a run that is left over
      at the end is merged from two halves of itself, and a single page is copied. */
  method MergePass(order: Order, cap: nat, was: File, target: File, half: nat) returns (source: File, dest: File, runsToMerge: nat)
    requires Lawful(order) && 0 < cap && Packed(was, cap) && 0 < half < |was| && |target| <= |was|
    requires RunsSorted(order, was, half)
    ensures RunsSorted(order, dest, 2 * half) && Permutes(Flat(dest), Flat(was))
    ensures |dest| == |was| == |source| && forall k | 0 <= k < |was| :: |dest[k]| == |was[k]|
    ensures runsToMerge == Min(2 * half, |was|)
  {
    hide PassedTo, RunsSorted, Flat, Sorted, Lawful, Permutes, Start, Merged, Opened;
    source, dest := was, target;
    var totalPages := |was|;
    runsToMerge := half * 2;
    var startPage := 0;
    var middle := runsToMerge / 2 - 1;
    var endPage;
    if runsToMerge > totalPages {
      runsToMerge := totalPages;
      endPage := runsToMerge - 1;
    } else {
      endPage := runsToMerge - 1;
    }
    ghost var g := 0;
    NextStart(2 * half, 0);
    PassStarts(order, was, dest, 2 * half);
    while startPage < totalPages
      invariant PassedTo(order, was, source, dest, 2 * half, g, startPage)
      invariant startPage == Min(Start(2 * half, g), |was|)
      invariant startPage < totalPages ==>
                  && endPage == Min(startPage + 2 * half, |was|) - 1
                  && (startPage < endPage ==>
                        startPage <= middle < endPage
                        && (middle == startPage + half - 1 || endPage < startPage + half))
      decreases totalPages - startPage
    {
      source, dest := MergeGroup(order, cap, was, source, dest, half, g, startPage, middle, endPage);
      NextStart(2 * half, g);
      g := g + 1;
      startPage := endPage + 1;
      middle := startPage + runsToMerge / 2 - 1;
      endPage := endPage + runsToMerge;
      if endPage >= totalPages {
        endPage := totalPages - 1;
      }
      if middle >= endPage {
        middle := (startPage + endPage) / 2;
      }
    }
    PassDone(order, was, source, dest, 2 * half, g);
  }

  lemma PassStarts(order: Order, was: File, dest: File, w: nat)
    requires |dest| <= |was|
    ensures PassedTo(order, was, was, dest, w, 0, 0)
  {
  }

  lemma OpenedAt(file: File, page: nat)
    requires page <= |file|
    ensures var o := Opened(file, page);
            && |o| == (if page < |file| then |file| else page + 1)
            && forall k | 0 <= k < |file| && k != page :: o[k] == file[k]
  {
  }

  lemma CopiedSame(was: File, dest: File, page: nat)
    requires page < |was| && page < |dest| && dest[page] == was[page]
    ensures dest[page..page + 1] == was[page..page + 1]
  {
  }

  lemma SameIsPermuted(s: seq<Tuple>)
    ensures Permutes(s, s)
  {
  }

  lemma MergedGroup(order: Order, was: File, start: nat, middle: nat, end: nat)
    requires Lawful(order) && start <= middle < end < |was|
    requires Sorted(order, Flat(was[start..middle + 1])) && Sorted(order, Flat(was[middle + 1..end + 1]))
    ensures var m := Merged(order, Flat(was[start..middle + 1]), Flat(was[middle + 1..end + 1]));
            Sorted(order, m) && Permutes(m, Flat(was[start..end + 1]))
  {
    hide Flat;
    MergedBoth(order, Flat(was[start..middle + 1]), Flat(was[middle + 1..end + 1]));
    FlatSplit(was, start, middle + 1, end + 1);
  }

  lemma MergedBoth(order: Order, left: seq<Tuple>, right: seq<Tuple>)
    requires Lawful(order) && Sorted(order, left) && Sorted(order, right)
    ensures Sorted(order, Merged(order, left, right)) && Permutes(Merged(order, left, right), left + right)
  {
    MergedIsSorted(order, left, right);
    MergedPermutes(order, left, right);
  }

  // ----- Filling the first file

  ghost predicate PagesSorted(order: Order, file: File) {
    forall k | 0 <= k < |file| :: Sorted(order, file[k])
  }

  /** The pages written so far are full and sorted, and together with the current one hold what has
      been seen; only at the very start is the current page empty. */
  ghost predicate Filling(order: Order, file: File, current: seq<Tuple>, seen: seq<Tuple>, cap: nat) {
    && Full(file, 0, |file|, cap) && PagesSorted(order, file) && |current| <= cap
    && (file != [] ==> current != [])
    && Permutes(Flat(file) + current, seen)
  }

  lemma FlatAppend(file: File, page: seq<Tuple>)
    ensures Flat(file + [page]) == Flat(file) + page
  {
    assert (file + [page])[..|file|] == file;
  }

  lemma PageSorted(order: Order, file: File, page: seq<Tuple>, sorted: seq<Tuple>, seen: seq<Tuple>, cap: nat)
    requires Filling(order, file, page, seen, cap) && Sorted(order, sorted) && Permutes(page, sorted)
    ensures |sorted| == |page| && PagesSorted(order, file + [sorted])
    ensures Permutes(Flat(file + [sorted]), seen)
  {
    hide Sorted;
    PermutesMembers(page, sorted);
    FlatAppend(file, sorted);
    PermutesJoin(Flat(file), page, Flat(file), sorted);
  }

  lemma FillingStarts(order: Order, cap: nat)
    ensures Filling(order, [], [], [], cap)
  {
    assert Flat([]) + [] == [];
  }

  lemma FillingIsBounded(order: Order, file: File, page: seq<Tuple>, seen: seq<Tuple>, cap: nat)
    requires Filling(order, file, page, seen, cap)
    ensures |page| <= cap
  {
  }

  /** A full page is sorted and left, and the next tuple goes to a new one. */
  lemma FillingNextPage(order: Order, file: File, page: seq<Tuple>, sorted: seq<Tuple>, seen: seq<Tuple>, cap: nat, t: Tuple)
    requires Filling(order, file, page, seen, cap) && |page| == cap && 0 < cap
    requires Sorted(order, sorted) && Permutes(page, sorted)
    ensures Filling(order, file + [sorted], [t], seen + [t], cap)
  {
    PageSorted(order, file, page, sorted, seen, cap);
  }

  lemma FillingOne(order: Order, file: File, page: seq<Tuple>, seen: seq<Tuple>, cap: nat, t: Tuple)
    requires Filling(order, file, page, seen, cap) && |page| < cap
    ensures Filling(order, file, page + [t], seen + [t], cap)
  {
    assert Flat(file) + (page + [t]) == (Flat(file) + page) + [t];
  }

  lemma Filled(order: Order, file: File, page: seq<Tuple>, sorted: seq<Tuple>, seen: seq<Tuple>, cap: nat)
    requires Filling(order, file, page, seen, cap)
    requires Sorted(order, sorted) && Permutes(page, sorted)
    ensures Packed(file + [sorted], cap) && RunsSorted(order, file + [sorted], 1)
    ensures Permutes(Flat(file + [sorted]), seen)
  {
    PageSorted(order, file, page, sorted, seen, cap);
    var all := file + [sorted];
    forall g: nat | Start(1, g) < |all| ensures Sorted(order, Flat(RunOf(all, 1, g))) {
      assert RunOf(all, 1, g) == [] + [all[g]];
      FlatAppend([], all[g]);
    }
  }

  // ----- From pass to pass

  lemma WiderRuns(order: Order, file: File, w: nat, r: nat)
    requires 0 < w && RunsSorted(order, file, w) && r == Min(w, |file|)
    ensures RunsSorted(order, file, r)
  {
    if r < w {
      forall g: nat | Start(r, g) < |file| ensures Sorted(order, Flat(RunOf(file, r, g))) {
        if g != 0 { StartsGrow(r, 1, g); }
        assert Start(w, 0) == 0 == Start(r, 0);
        assert Sorted(order, Flat(RunOf(file, w, 0)));
        assert RunOf(file, w, 0) == RunOf(file, r, g);
      }
    }
  }

  lemma OneRun(order: Order, file: File, w: nat)
    requires RunsSorted(order, file, w) && |file| <= w && file != []
    ensures Sorted(order, Flat(file))
  {
    assert Start(w, 0) == 0;
    assert Sorted(order, Flat(RunOf(file, w, 0)));
    assert RunOf(file, w, 0) == file;
  }

  lemma PermutedOn(s: seq<Tuple>, t: seq<Tuple>, u: seq<Tuple>)
    requires Permutes(s, t) && Permutes(t, u)
    ensures Permutes(s, u)
  {
  }

  lemma SameShapePacked(file: File, other: File, cap: nat)
    requires Packed(file, cap) && |other| == |file| && forall k | 0 <= k < |file| :: |other[k]| == |file[k]|
    ensures Packed(other, cap)
  {
  }

  // ----- Reading the result

  /** Past the end of a page the next one is read, or there is none. */
  lemma PageIsRead(file: File, page: nat, total: nat)
    requires page < total == |file|
    ensures page + 1 < total ==> Unread(file, page, |file[page]|, total - 1) == Unread(file, page + 1, 0, total - 1)
    ensures page + 1 == total ==> Unread(file, page, |file[page]|, total - 1) == []
  {
    if page + 1 < total {
      FlatFrom(file, page + 1, total);
    } else if page + 1 == total {
      assert file[total..total] == [];
    }
  }

  lemma WholeUnread(file: File)
    requires file != []
    ensures Unread(file, 0, 0, |file| - 1) == Flat(file)
  {
    FlatFrom(file, 0, |file|);
    assert file[0..|file|] == file && file[0][0..] == file[0];
  }

  lemma NextPageHolds(file: File, page: nat, cap: nat)
    requires Packed(file, cap) && 0 < cap && 0 < page < |file|
    ensures 0 < |file[page]|
  {
  }

  lemma ReadOneMore(file: File, page: nat, at: nat, end: nat)
    requires page <= end < |file| && at < |file[page]|
    ensures Unread(file, page, at, end) == [file[page][at]] + Unread(file, page, at + 1, end)
  {
    assert file[page][at..] == [file[page][at]] + file[page][at + 1..];
  }

  // ----- The operator

  class OrderBy {
    const order: Order
    const capacity: nat
    var firstFile: File
    var secondFile: File
    var outputIsInSecond: bool
    var totalPages: nat
    var currentPage: nat
    var pagePosition: nat
    var run: seq<Tuple>

    constructor (tupleOrder: Order, tuplesPerPage: nat)
      ensures order == tupleOrder && capacity == tuplesPerPage && currentPage == pagePosition == 0
    {
      order, capacity := tupleOrder, tuplesPerPage;
      firstFile, secondFile, outputIsInSecond := [], [], false;
      totalPages, currentPage, pagePosition, run := 0, 0, 0, [];
    }

    function Output(): File
      reads this
    {
      if outputIsInSecond then secondFile else firstFile
    }

    /** What `Begin` has left in the output file. */
    ghost predicate Ready()
      reads this
    {
      totalPages == |Output()| && Packed(Output(), capacity) && 0 < capacity
    }

    /** Fill the pages of the first file with the tuples of the child, each page sorted. */
    method FillPages(child: seq<Tuple>)
      requires Lawful(order) && 0 < capacity
      modifies this`firstFile, this`totalPages
      ensures totalPages == |firstFile| && Packed(firstFile, capacity)
      ensures RunsSorted(order, firstFile, 1) && Permutes(Flat(firstFile), child)
    {
      hide Filling, Sorted, Flat, Permutes, Lawful, RunsSorted, Packed;
      totalPages := 0;
      firstFile := [];
      FillingStarts(order, capacity);
      var run := new TupleCollection(order, capacity);
      for i := 0 to |child|
        invariant fresh(run) && fresh(run.tuples) && run.order == order && run.tuples.Length == capacity && run.Valid()
        invariant totalPages == |firstFile|
        invariant Filling(order, firstFile, run.Contents(), child[..i], capacity)
      {
        ghost var file, page := firstFile, run.Contents();
        FillingIsBounded(order, file, page, child[..i], capacity);
        if run.IsFull() {
          totalPages := totalPages + 1;
          run.Sort();
          FillingNextPage(order, file, page, run.Contents(), child[..i], capacity, child[i]);
          firstFile := firstFile + [run.Contents()];
          run := new TupleCollection(order, capacity);
          assert [] + [child[i]] == [child[i]];
        } else {
          FillingOne(order, file, page, child[..i], capacity, child[i]);
        }
        run.Add(child[i]);
        assert child[..i] + [child[i]] == child[..i + 1];
      }
      ghost var page := run.Contents();
      run.Sort();
      assert child[..|child|] == child;
      Filled(order, firstFile, page, run.Contents(), child, capacity);
      firstFile := firstFile + [run.Contents()];
      totalPages := totalPages + 1;
    }

    /** Merge runs of one page, of two, of four, until one run holds all pages. */
    method MergeSort()
      requires Lawful(order) && 0 < capacity
      requires totalPages == |firstFile| && Packed(firstFile, capacity) && RunsSorted(order, firstFile, 1)
      modifies this`firstFile, this`secondFile, this`outputIsInSecond
      ensures Ready() && Sorted(order, Flat(Output())) && Permutes(Flat(Output()), old(Flat(firstFile)))
      ensures |Output()| == |old(firstFile)|
      ensures forall k | 0 <= k < |Output()| :: |Output()[k]| == |old(firstFile)[k]|
    {
      hide RunsSorted, Flat, Sorted, Lawful, Permutes;
      ghost var was := firstFile;
      SameIsPermuted(Flat(was));
      var runsToMerge := 1;
      outputIsInSecond := false;
      secondFile := [];
      while runsToMerge < totalPages
        invariant 0 < runsToMerge && Packed(Output(), capacity) && RunsSorted(order, Output(), runsToMerge)
        invariant Permutes(Flat(Output()), Flat(was))
        invariant totalPages == |Output()| == |was|
        invariant |if outputIsInSecond then firstFile else secondFile| <= totalPages
        invariant forall k | 0 <= k < |was| :: |Output()[k]| == |was[k]|
        decreases totalPages - runsToMerge
      {
        ghost var before := Output();
        ghost var half := runsToMerge;
        if outputIsInSecond {
          secondFile, firstFile, runsToMerge := MergePass(order, capacity, secondFile, firstFile, runsToMerge);
        } else {
          firstFile, secondFile, runsToMerge := MergePass(order, capacity, firstFile, secondFile, runsToMerge);
        }
        outputIsInSecond := !outputIsInSecond;
        SameShapePacked(before, Output(), capacity);
        WiderRuns(order, Output(), 2 * half, runsToMerge);
        PermutedOn(Flat(Output()), Flat(before), Flat(was));
      }
      OneRun(order, Output(), runsToMerge);
    }

    /** Afterwards the output file holds the tuples of the child in order, on packed pages. */
    method Begin(child: seq<Tuple>)
      requires Lawful(order) && 0 < capacity && currentPage == pagePosition == 0
      modifies this
      ensures Valid() && Sorted(order, Flat(Output())) && Permutes(Flat(Output()), child)
      ensures ToCome() == Flat(Output())
    {
      hide Sorted, Flat, Permutes, Lawful, RunsSorted, Unread;
      FillPages(child);
      ghost var filled := Flat(firstFile);
      MergeSort();
      PermutedOn(Flat(Output()), filled, child);
      run := Output()[0];
      WholeUnread(Output());
    }

    /** Where reading the output stands. */
    ghost predicate Valid()
      reads this
    {
      && Ready() && pagePosition <= |run|
      && (currentPage < totalPages ==> run == Output()[currentPage])
      && (currentPage >= totalPages ==> pagePosition == |run|)
    }

    /** The tuples that are still to be returned. */
    ghost function ToCome(): seq<Tuple>
      requires Valid()
      reads this
    {
      if currentPage < totalPages then Unread(Output(), currentPage, pagePosition, totalPages - 1) else []
    }

    method Next() returns (found: bool, tuple: Tuple)
      requires Valid()
      modifies this`currentPage, this`pagePosition, this`run
      ensures Valid() && Output() == old(Output())
      ensures found <==> old(ToCome()) != []
      ensures if found then old(ToCome()) == [tuple] + ToCome() else ToCome() == []
    {
      hide Unread, Packed;
      found, tuple := false, [];
      if pagePosition == |run| {
        if currentPage < totalPages { PageIsRead(Output(), currentPage, totalPages); }
        currentPage := currentPage + 1;
        if currentPage >= totalPages {
          return;
        }
        NextPageHolds(Output(), currentPage, capacity);
        run := Output()[currentPage];
        pagePosition := 0;
      }
      ReadOneMore(Output(), currentPage, pagePosition, totalPages - 1);
      tuple := run[pagePosition];
      pagePosition := pagePosition + 1;
      found := true;
    }
  }

  /** The first column on which two tuples differ is in the wanted order. */
  ghost predicate InColumns(order: Order, s: Tuple, t: Tuple) {
    && (forall k | 0 <= k < |order.keys| :: order.keys[k].index < |s| && order.keys[k].index < |t|)
    && (forall k | 0 <= k < |order.keys|
          && (var c := order.keys[k].index; order.less(s[c], t[c]) || order.less(t[c], s[c]))
          && (forall j | 0 <= j < k ::
                var c := order.keys[j].index; !order.less(s[c], t[c]) && !order.less(t[c], s[c])) ::
          var c := order.keys[k].index;
          if order.keys[k].ascending then order.less(s[c], t[c]) else order.less(t[c], s[c]))
  }

  /** For every number of tuples, and so of pages: each comes out as often as it went in, and of any two
      that have all the columns, the first column on which they differ is in the wanted order. */
  method Ordered(order: Order, capacity: nat, child: seq<Tuple>) returns (log: seq<Tuple>)
    requires WeakOrder(order.less) && 0 < capacity
    ensures Sorted(order, log) && multiset(log) == multiset(child)
    ensures (forall t, k | t in child && 0 <= k < |order.keys| :: order.keys[k].index < |t|) ==>
              forall a, b | 0 <= a < b < |log| :: InColumns(order, log[a], log[b])
  {
    hide Sorted, Lawful, WeakOrder, InColumns;
    OrderIsLawful(order);
    log := Drained(order, capacity, child);
    if forall t, k | t in child && 0 <= k < |order.keys| :: order.keys[k].index < |t| {
      ColumnsInOrder(order, log, child);
    }
  }

  lemma ColumnsInOrder(order: Order, log: seq<Tuple>, child: seq<Tuple>)
    requires WeakOrder(order.less) && Sorted(order, log) && Permutes(log, child)
    requires forall t, k | t in child && 0 <= k < |order.keys| :: order.keys[k].index < |t|
    ensures forall a, b | 0 <= a < b < |log| :: InColumns(order, log[a], log[b])
  {
    hide Precedes, WeakOrder, Permutes;
    PermutesMembers(log, child);
    forall a, b | 0 <= a < b < |log| ensures InColumns(order, log[a], log[b]) {
      assert log[a] in log && log[b] in log;
      assert log[a] in child && log[b] in child && Precedes(order, log[a], log[b]);
      ColumnsDecide(order, log[a], log[b]);
    }
  }

  /** Begin, and ask for tuples until there are no more. */
  method Drained(order: Order, capacity: nat, child: seq<Tuple>) returns (log: seq<Tuple>)
    requires Lawful(order) && 0 < capacity
    ensures Sorted(order, log) && Permutes(log, child)
  {
    hide Sorted, Permutes, Lawful, Flat, OrderBy.ToCome, OrderBy.Valid;
    var op := new OrderBy(order, capacity);
    op.Begin(child);
    ghost var all := op.ToCome();
    log := [];
    var found, tuple := op.Next();
    while found
      invariant fresh(op) && op.Valid()
      invariant if found then log + [tuple] + op.ToCome() == all else log == all
      decreases |all| - |log|, found
    {
      log := log + [tuple];
      found, tuple := op.Next();
    }
  }
}
