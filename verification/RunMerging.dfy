/** Sorted runs of pages, merged two by two from one file into another. */
module RunMerging {
  import opened TupleOrders

  /** The pages of a temporary file, in order. */
  type File = seq<seq<Tuple>>

  function Flat(pages: File): seq<Tuple> {
    if pages == [] then [] else Flat(pages[..|pages| - 1]) + pages[|pages| - 1]
  }

  lemma {:induction false} FlatOfSum(a: File, b: File)
    ensures Flat(a + b) == Flat(a) + Flat(b)
  {
    if b == [] {
      assert a + b == a;
    } else {
      FlatOfSum(a, b[..|b| - 1]);
      assert (a + b)[..|a + b| - 1] == a + b[..|b| - 1];
    }
  }

  lemma FlatFrom(pages: File, i: nat, j: nat)
    requires i < j <= |pages|
    ensures Flat(pages[i..j]) == pages[i] + Flat(pages[i + 1..j])
  {
    FlatOfSum([pages[i]], pages[i + 1..j]);
    assert pages[i..j] == [pages[i]] + pages[i + 1..j];
    assert Flat([pages[i]]) == pages[i] by { assert [pages[i]][..0] == []; }
  }

  lemma FlatUpTo(pages: File, i: nat, j: nat)
    requires i <= j < |pages|
    ensures Flat(pages[i..j + 1]) == Flat(pages[i..j]) + pages[j]
  {
    assert pages[i..j + 1][..j - i] == pages[i..j];
  }

  lemma FlatSplit(pages: File, i: nat, j: nat, k: nat)
    requires i <= j <= k <= |pages|
    ensures Flat(pages[i..k]) == Flat(pages[i..j]) + Flat(pages[j..k])
  {
    FlatOfSum(pages[i..j], pages[j..k]);
    assert pages[i..k] == pages[i..j] + pages[j..k];
  }

  // ----- Packed pages

  predicate Full(pages: File, i: nat, j: nat, cap: nat)
    requires j <= |pages|
  {
    forall k | i <= k < j :: |pages[k]| == cap
  }

  lemma {:induction false} FullLength(pages: File, i: nat, j: nat, cap: nat)
    requires i <= j <= |pages| && Full(pages, i, j, cap)
    ensures |Flat(pages[i..j])| == cap * (j - i)
  {
    if i < j {
      FullLength(pages, i, j - 1, cap);
      FlatUpTo(pages, i, j - 1);
      assert cap * (j - i) == cap * (j - 1 - i) + cap;
    } else {
      assert pages[i..j] == [];
    }
  }

  /** A number of tuples fills only one number of pages. */
  lemma OnePacking(cap: nat, a: nat, x: nat, b: nat, y: nat)
    requires cap * a + x == cap * b + y && 1 <= x <= cap && 1 <= y <= cap
    ensures a == b && x == y
  {
    if a < b {
      FewerPages(cap, a, b);
    } else if b < a {
      FewerPages(cap, b, a);
    }
  }

  lemma {:induction false} FewerPages(cap: nat, a: nat, b: nat)
    requires a < b
    ensures cap * a + cap <= cap * b
  {
    if a + 1 < b {
      FewerPages(cap, a, b - 1);
    }
    assert cap * b == cap * (b - 1) + cap;
  }

  // ----- Reading a run

  /** What is still to be read of the pages up to `end`, from tuple `at` of page `page` on. */
  function Unread(pages: File, page: nat, at: nat, end: nat): seq<Tuple>
    requires page <= end < |pages| && at <= |pages[page]|
  {
    pages[page][at..] + Flat(pages[page + 1..end + 1])
  }

  lemma ReadOne(pages: File, page: nat, at: nat, end: nat)
    requires page <= end < |pages| && at < |pages[page]|
    requires forall k | page < k <= end :: 0 < |pages[k]|
    ensures Unread(pages, page, at, end)[0] == pages[page][at]
    ensures var rest := Unread(pages, page, at, end)[1..];
            && (at + 1 < |pages[page]| ==> rest == Unread(pages, page, at + 1, end))
            && (at + 1 == |pages[page]| && page < end ==> rest == Unread(pages, page + 1, 0, end))
            && (at + 1 == |pages[page]| && page == end ==> rest == [])
  {
    if at + 1 == |pages[page]| {
      assert pages[page][at..] == [pages[page][at]];
      if page < end {
        FlatFrom(pages, page + 1, end + 1);
      } else {
        assert pages[page + 1..end + 1] == [];
      }
    } else {
      assert pages[page][at..] == [pages[page][at]] + pages[page][at + 1..];
    }
  }

  // ----- Writing a run

  /** The file with an empty page `n`. */
  function Opened(file: File, n: nat): File
    requires n <= |file|
  {
    file[..n] + [[]] + if n < |file| then file[n + 1..] else []
  }

  /** The pages from `start` to `page` hold `done`, all full but perhaps the last; the rest of the
      file is as it was. */
  ghost predicate Written(was: File, now: File, start: nat, page: nat, done: seq<Tuple>, cap: nat) {
    && start <= |was| && start <= page < |now| && |now| == (if page < |was| then |was| else page + 1)
    && Full(now, start, page, cap) && |now[page]| <= cap
    && (done == [] || 0 < |now[page]|)
    && Flat(now[start..page + 1]) == done
    && (forall k | 0 <= k < start :: now[k] == was[k])
    && (forall k | page < k < |was| :: now[k] == was[k])
  }

  lemma WriteFirst(was: File, start: nat, cap: nat)
    requires start <= |was|
    ensures Written(was, Opened(was, start), start, start, [], cap)
  {
    var now := Opened(was, start);
    FlatUpTo(now, start, start);
    assert now[start..start] == [];
  }

  /** Going to the next page, which happens only to put a tuple there at once. */
  lemma WriteNextPage(was: File, now: File, start: nat, page: nat, done: seq<Tuple>, cap: nat, t: Tuple)
    requires Written(was, now, start, page, done, cap) && |now[page]| == cap && 0 < cap
    ensures Written(was, Opened(now, page + 1)[page + 1 := [t]], start, page + 1, done + [t], cap)
  {
    var next := Opened(now, page + 1)[page + 1 := [t]];
    assert next[start..page + 1] == now[start..page + 1];
    FlatUpTo(next, start, page + 1);
  }

  lemma WriteOne(was: File, now: File, start: nat, page: nat, done: seq<Tuple>, cap: nat, t: Tuple)
    requires Written(was, now, start, page, done, cap) && |now[page]| < cap
    ensures Written(was, now[page := now[page] + [t]], start, page, done + [t], cap)
  {
    var next := now[page := now[page] + [t]];
    assert next[start..page] == now[start..page];
    FlatUpTo(now, start, page);
    FlatUpTo(next, start, page);
  }

  /** As many tuples as a packed range of pages held fill just that range again. */
  lemma WriteLast(was: File, now: File, start: nat, page: nat, done: seq<Tuple>, cap: nat, source: File, end: nat)
    requires Written(was, now, start, page, done, cap)
    requires start <= end < |source| && Full(source, start, end, cap) && 1 <= |source[end]| <= cap
    requires |done| == |Flat(source[start..end + 1])|
    ensures page == end && forall k | start <= k <= end :: |now[k]| == |source[k]|
  {
    FlatUpTo(now, start, page);
    FlatUpTo(source, start, end);
    FullLength(now, start, page, cap);
    FullLength(source, start, end, cap);
    assert 1 <= |source[end]| <= |done|;
    OnePacking(cap, page - start, |now[page]|, end - start, |source[end]|);
  }

  /** Where reading a run stands: at a tuple of an open run, or past the end. */
  ghost predicate Reading(pages: File, page: nat, at: nat, end: nat, isOpen: bool, tuple: Tuple, rest: seq<Tuple>) {
    if isOpen then
      && page <= end < |pages| && at < |pages[page]| && tuple == pages[page][at]
      && rest == Unread(pages, page, at, end)
      && (forall k | page < k <= end :: 0 < |pages[k]|)
    else rest == []
  }

  lemma StartReading(pages: File, start: nat, end: nat)
    requires start <= end < |pages| && forall k | start <= k <= end :: 0 < |pages[k]|
    ensures Reading(pages, start, 0, end, true, pages[start][0], Flat(pages[start..end + 1]))
  {
    FlatFrom(pages, start, end + 1);
    assert pages[start][0..] == pages[start];
  }

  lemma Advance(pages: File, page: nat, at: nat, end: nat, tuple: Tuple, rest: seq<Tuple>)
    requires Reading(pages, page, at, end, true, tuple, rest)
    ensures page <= end < |pages| && at < |pages[page]|
    ensures rest != [] && rest[0] == tuple
    ensures at + 1 < |pages[page]| ==> Reading(pages, page, at + 1, end, true, pages[page][at + 1], rest[1..])
    ensures at + 1 == |pages[page]| && page < end ==>
              0 < |pages[page + 1]| && Reading(pages, page + 1, 0, end, true, pages[page + 1][0], rest[1..])
    ensures at + 1 == |pages[page]| && page == end ==>
              Reading(pages, page + 1, at + 1, end, false, tuple, rest[1..])
  {
    ReadOne(pages, page, at, end);
  }

  lemma Closed(pages: File, page: nat, at: nat, end: nat, tuple: Tuple, rest: seq<Tuple>)
    requires Reading(pages, page, at, end, false, tuple, rest)
    ensures rest == []
  {
  }

  lemma TakeLeft(order: Order, done: seq<Tuple>, left: seq<Tuple>, right: seq<Tuple>)
    requires left != [] && (right == [] || Precedes(order, left[0], right[0]))
    ensures done + Merged(order, left, right) == (done + [left[0]]) + Merged(order, left[1..], right)
  {
    hide Precedes;
    var rest := Merged(order, left[1..], right);
    if right == [] {
      assert rest == left[1..];
    }
    assert Merged(order, left, right) == [left[0]] + rest;
    assert done + ([left[0]] + rest) == (done + [left[0]]) + rest;
  }

  lemma TakeRight(order: Order, done: seq<Tuple>, left: seq<Tuple>, right: seq<Tuple>)
    requires right != [] && (left == [] || !Precedes(order, left[0], right[0]))
    ensures done + Merged(order, left, right) == (done + [right[0]]) + Merged(order, left, right[1..])
  {
    hide Precedes;
    var rest := Merged(order, left, right[1..]);
    if left == [] {
      assert rest == right[1..];
    }
    assert Merged(order, left, right) == [right[0]] + rest;
    assert done + ([right[0]] + rest) == (done + [right[0]]) + rest;
  }

  // ----- Merging two runs

  /** Make room for one more tuple: the next page when this one is full. */
  method Room(file: File, page: nat, cap: nat) returns (out: File, outPage: nat)
    requires page < |file|
    ensures outPage == if |file[page]| == cap then page + 1 else page
    ensures out == if |file[page]| == cap then Opened(file, page + 1) else file
  {
    out, outPage := file, page;
    if |out[outPage]| == cap {
      outPage := outPage + 1;
      out := Opened(out, outPage);
    }
  }

  lemma Added(was: File, file: File, start: nat, page: nat, done: seq<Tuple>, cap: nat, t: Tuple)
    requires Written(was, file, start, page, done, cap) && 0 < cap
    ensures page < |file|
    ensures |file[page]| == cap ==>
              var next := Opened(file, page + 1);
              page + 1 < |next| && Written(was, next[page + 1 := next[page + 1] + [t]], start, page + 1, done + [t], cap)
    ensures |file[page]| != cap ==> Written(was, file[page := file[page] + [t]], start, page, done + [t], cap)
  {
    if |file[page]| == cap {
      WriteNextPage(was, file, start, page, done, cap, t);
      assert Opened(file, page + 1)[page + 1] + [t] == [t];
    } else {
      WriteOne(was, file, start, page, done, cap, t);
    }
  }

  /** Merge pages leftStart to leftEnd with the pages after them up to rightEnd, into the same pages
      of the output file. */
  method Merge(order: Order, cap: nat, source: File, output: File, leftStart: nat, leftEnd: nat, rightEnd: nat)
    returns (out: File)
    requires leftStart <= leftEnd < rightEnd < |source| && leftStart <= |output|
    requires 0 < cap && Full(source, leftStart, rightEnd, cap) && 1 <= |source[rightEnd]| <= cap
    ensures |out| == if rightEnd < |output| then |output| else rightEnd + 1
    ensures forall k | 0 <= k < |output| && !(leftStart <= k <= rightEnd) :: out[k] == output[k]
    ensures forall k | leftStart <= k <= rightEnd :: |out[k]| == |source[k]|
    ensures Flat(out[leftStart..rightEnd + 1]) ==
            Merged(order, Flat(source[leftStart..leftEnd + 1]), Flat(source[leftEnd + 1..rightEnd + 1]))
  {
    hide Precedes, Merged, Opened;
    ghost var done;
    var outPage;
    out, outPage, done := MergeRuns(order, cap, source, output, leftStart, leftEnd, rightEnd);
    FlatSplit(source, leftStart, leftEnd + 1, rightEnd + 1);
    WriteLast(output, out, leftStart, outPage, done, cap, source, rightEnd);
  }

  method MergeRuns(order: Order, cap: nat, source: File, output: File, leftStart: nat, leftEnd: nat, rightEnd: nat)
    returns (out: File, outPage: nat, ghost done: seq<Tuple>)
    requires leftStart <= leftEnd < rightEnd < |source| && leftStart <= |output|
    requires 0 < cap && forall k | leftStart <= k <= rightEnd :: 0 < |source[k]|
    ensures Written(output, out, leftStart, outPage, done, cap)
    ensures done == Merged(order, Flat(source[leftStart..leftEnd + 1]), Flat(source[leftEnd + 1..rightEnd + 1]))
  {
    hide Written, Reading, Flat, Opened, Precedes, Merged;
    ghost var l, r := Flat(source[leftStart..leftEnd + 1]), Flat(source[leftEnd + 1..rightEnd + 1]);
    var left, right := leftStart, leftEnd + 1;
    var leftTuple, rightTuple := source[left][0], source[right][0];
    var leftCounter, rightCounter := 0, 0;
    outPage := leftStart;
    out := Opened(output, outPage);
    var openLeft, openRight := true, true;
    ghost var restLeft, restRight := l, r;
    done := [];
    StartReading(source, leftStart, leftEnd);
    StartReading(source, leftEnd + 1, rightEnd);
    WriteFirst(output, leftStart, cap);
    while openLeft || openRight
      invariant Reading(source, left, leftCounter, leftEnd, openLeft, leftTuple, restLeft)
      invariant Reading(source, right, rightCounter, rightEnd, openRight, rightTuple, restRight)
      invariant Written(output, out, leftStart, outPage, done, cap)
      invariant done + Merged(order, restLeft, restRight) == Merged(order, l, r)
      decreases |restLeft| + |restRight|
    {
      if openLeft { Advance(source, left, leftCounter, leftEnd, leftTuple, restLeft); }
      else { Closed(source, left, leftCounter, leftEnd, leftTuple, restLeft); }
      if openRight { Advance(source, right, rightCounter, rightEnd, rightTuple, restRight); }
      else { Closed(source, right, rightCounter, rightEnd, rightTuple, restRight); }
      Added(output, out, leftStart, outPage, done, cap, leftTuple);
      Added(output, out, leftStart, outPage, done, cap, rightTuple);
      out, outPage := Room(out, outPage, cap);
      var leftFirst := HasPriority(order, leftTuple, rightTuple);
      if openLeft && (leftFirst || !openRight) {
        TakeLeft(order, done, restLeft, restRight);
        out := out[outPage := out[outPage] + [leftTuple]];
        done := done + [leftTuple];
        restLeft := restLeft[1..];
        leftCounter := leftCounter + 1;
        if leftCounter == |source[left]| {
          left := left + 1;
          if left <= leftEnd {
            leftCounter := 0;
          } else {
            openLeft := false;
            continue;
          }
        }
        leftTuple := source[left][leftCounter];
      } else if openRight && (!leftFirst || !openLeft) {
        TakeRight(order, done, restLeft, restRight);
        out := out[outPage := out[outPage] + [rightTuple]];
        done := done + [rightTuple];
        restRight := restRight[1..];
        rightCounter := rightCounter + 1;
        if rightCounter == |source[right]| {
          right := right + 1;
          if right <= rightEnd {
            rightCounter := 0;
          } else {
            openRight := false;
            continue;
          }
        }
        rightTuple := source[right][rightCounter];
      }
    }
    Closed(source, left, leftCounter, leftEnd, leftTuple, restLeft);
    Closed(source, right, rightCounter, rightEnd, rightTuple, restRight);
    NothingLeft(order);
    assert done + [] == done;
  }

  lemma NothingLeft(order: Order)
    ensures Merged(order, [], []) == []
  {
  }
}
