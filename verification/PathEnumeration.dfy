/** The predecessor links a search records, read as a set of runs, and the position of the
    cursors that step through these runs.  `n` is always the layer (distance) of `k`. */
module PathEnumeration {
  import opened ProductGraph

  type Links = map<Key, seq<Edge>>
  type Cursors = map<Key, int>
  type Distances = map<Key, nat>

  function LinksOf(links: Links, k: Key): seq<Edge> {
    if k in links then links[k] else []
  }

  /** -1 stands for a cursor that points nowhere. */
  function CursorOf(cursors: Cursors, k: Key): int {
    if k in cursors then cursors[k] else -1
  }

  predicate IsLink(links: Links, e: Edge) {
    e in LinksOf(links, e.to)
  }

  /** Every link of a state comes from the layer just before it; only layer 0 has no links. */
  ghost predicate Layered(dist: Distances, links: Links) {
    && dist.Keys == links.Keys
    && (forall k {:trigger links[k]} :: k in links ==> (dist[k] == 0 <==> links[k] == []))
    && (forall k, j {:trigger links[k][j]} :: k in links && 0 <= j < |links[k]| ==> links[k][j].to == k)
    && forall e {:trigger IsLink(links, e)} :: IsLink(links, e) ==>
         e.to in dist && e.from in dist && dist[e.from] + 1 == dist[e.to]
  }

  lemma LinkBelow(dist: Distances, links: Links, k: Key, j: nat)
    requires Layered(dist, links) && k in links && j < |links[k]|
    ensures links[k][j].to == k && links[k][j].from in dist && dist[links[k][j].from] + 1 == dist[k]
  {
    assert IsLink(links, links[k][j]);
  }

  function Extend(runs: seq<Run>, e: Edge): (r: seq<Run>)
    ensures |r| == |runs| && forall i :: 0 <= i < |runs| ==> r[i] == runs[i] + [e]
  {
    seq(|runs|, i requires 0 <= i < |runs| => runs[i] + [e])
  }

  /** The runs the links spell out from layer 0 to `k`, oldest last link first. */
  ghost function Paths(links: Links, n: nat, k: Key): seq<Run>
    decreases n, 0
  {
    if n == 0 then [[]] else PathsVia(links, n, LinksOf(links, k))
  }

  /** The runs whose last edge is one of `es`. */
  ghost function PathsVia(links: Links, n: nat, es: seq<Edge>): seq<Run>
    requires n > 0
    decreases n - 1, |es| + 1
  {
    if es == [] then [] else Extend(Paths(links, n - 1, es[0].from), es[0]) + PathsVia(links, n, es[1..])
  }

  predicate AtLink(links: Links, cursors: Cursors, k: Key) {
    0 <= CursorOf(cursors, k) < |LinksOf(links, k)|
  }

  function Current(links: Links, cursors: Cursors, k: Key): Edge
    requires AtLink(links, cursors, k)
  {
    LinksOf(links, k)[CursorOf(cursors, k)]
  }

  /** The run the cursors spell out, walking back from `k`. */
  ghost function Chain(links: Links, cursors: Cursors, n: nat, k: Key): Run {
    if n == 0 || !AtLink(links, cursors, k) then []
    else
      var e := Current(links, cursors, k);
      Chain(links, cursors, n - 1, e.from) + [e]
  }

  /** The runs that the iterator of `k` has not produced yet. */
  ghost function Rest(links: Links, cursors: Cursors, n: nat, k: Key): seq<Run> {
    if n == 0 then []
    else if !AtLink(links, cursors, k) then Paths(links, n, k)
    else
      var e := Current(links, cursors, k);
      Extend(Rest(links, cursors, n - 1, e.from), e) + PathsVia(links, n, LinksOf(links, k)[CursorOf(cursors, k) + 1..])
  }

  ghost predicate NullBelow(dist: Distances, cursors: Cursors, n: nat) {
    forall x :: x in dist && dist[x] < n ==> CursorOf(cursors, x) == -1
  }

  ghost predicate Alone(dist: Distances, c: Cursors, n: nat, k: Key) {
    forall x {:trigger CursorOf(c, x)} :: x in dist && dist[x] == n && x != k ==> CursorOf(c, x) == -1
  }

  /** In the layers up to `n`, only the states on the chain that ends in `k` have a cursor. */
  ghost predicate Tidy(dist: Distances, links: Links, cursors: Cursors, n: nat, k: Key) {
    && Alone(dist, cursors, n, k)
    && if n == 0 || !AtLink(links, cursors, k)
       then CursorOf(cursors, k) == -1 && NullBelow(dist, cursors, n)
       else Tidy(dist, links, cursors, n - 1, Current(links, cursors, k).from)
  }

  // ----- where every cursor is null ---------------------------------------------------------

  lemma {:induction false} TidyBelow(dist: Distances, links: Links, c: Cursors, n: nat, k: Key)
    requires Layered(dist, links) && k in dist && dist[k] == n && NullBelow(dist, c, n + 1)
    ensures Tidy(dist, links, c, n, k)
    ensures Rest(links, c, n, k) == if n == 0 then [] else Paths(links, n, k)
    ensures n == 0 ==> Chain(links, c, n, k) == []
  {
  }

  lemma {:induction false} PathsNonEmpty(dist: Distances, links: Links, n: nat, k: Key)
    requires Layered(dist, links) && k in dist && dist[k] == n
    ensures Paths(links, n, k) != []
  {
    if n > 0 {
      LinkBelow(dist, links, k, 0);
      PathsNonEmpty(dist, links, n - 1, links[k][0].from);
    }
  }

  // ----- one step of an iterator -------------------------------------------------------

  /** The step of the iterator of `k`, on the cursors alone: whether there is a next run, and
      where the cursors point afterwards. */
  ghost function Advance(links: Links, c: Cursors, n: nat, k: Key): (bool, Cursors)
    decreases n, 3
  {
    if n == 0 || LinksOf(links, k) == [] then (false, c)
    else if AtLink(links, c, k) then MoveOn(links, c, n, k)
    else (true, StartLink(links, c, n, k, 0))
  }

  /** Points at link `j` and takes the first run of the state it comes from. */
  ghost function StartLink(links: Links, c: Cursors, n: nat, k: Key, j: nat): Cursors
    requires n > 0 && j < |LinksOf(links, k)|
    decreases n, 0
  {
    Advance(links, c[k := j], n - 1, LinksOf(links, k)[j].from).1
  }

  ghost function MoveOn(links: Links, c: Cursors, n: nat, k: Key): (bool, Cursors)
    requires n > 0 && AtLink(links, c, k)
    decreases n, 2
  {
    var inner := Advance(links, c, n - 1, Current(links, c, k).from);
    if inner.0 then inner
    else if AtLink(links, inner.1, k) then NextLink(links, inner.1, n, k)
    else inner
  }

  ghost function NextLink(links: Links, c: Cursors, n: nat, k: Key): (bool, Cursors)
    requires n > 0 && AtLink(links, c, k)
    decreases n, 1
  {
    var j := CursorOf(c, k);
    if j + 1 == |LinksOf(links, k)| then (false, c[k := -1]) else (true, StartLink(links, c, n, k, j + 1))
  }

  /** The cursors of the layers above `n` stay where they are. */
  lemma {:induction false} AdvanceKeepsAbove(dist: Distances, links: Links, c: Cursors, n: nat, k: Key, x: Key)
    requires Layered(dist, links) && k in dist && dist[k] == n && x in dist && dist[x] > n
    ensures CursorOf(Advance(links, c, n, k).1, x) == CursorOf(c, x)
    decreases n
  {
    var es := links[k];
    if n > 0 && !AtLink(links, c, k) {
      LinkBelow(dist, links, k, 0);
      AdvanceKeepsAbove(dist, links, c[k := 0], n - 1, es[0].from, x);
      SetCursor(c, k, 0, x);
    } else if n > 0 {
      var j := CursorOf(c, k);
      var inner := Advance(links, c, n - 1, es[j].from);
      LinkBelow(dist, links, k, j);
      AdvanceKeepsAbove(dist, links, c, n - 1, es[j].from, x);
      AdvanceKeepsAbove(dist, links, c, n - 1, es[j].from, k);
      if !inner.0 && j + 1 < |es| {
        LinkBelow(dist, links, k, j + 1);
        SetCursor(inner.1, k, j + 1, x);
        AdvanceKeepsAbove(dist, links, inner.1[k := j + 1], n - 1, es[j + 1].from, x);
        assert Advance(links, c, n, k) == MoveOn(links, c, n, k) == (true, StartLink(links, inner.1, n, k, j + 1));
      } else if !inner.0 {
        SetCursor(inner.1, k, -1, x);
        assert Advance(links, c, n, k) == MoveOn(links, c, n, k) == (false, inner.1[k := -1]);
      }
    }
  }

  lemma ExtendCons(first: Run, rest: seq<Run>, e: Edge)
    ensures Extend([first] + rest, e) == [first + [e]] + Extend(rest, e)
  {
  }

  /** What is left after the first run through link `j` has come out. */
  lemma FirstThroughLink(dist: Distances, links: Links, d: Cursors, n: nat, k: Key, j: nat)
    requires Layered(dist, links) && k in dist && dist[k] == n && n > 0
    requires j < |links[k]| && CursorOf(d, k) == j
    requires var p := links[k][j].from;
      Paths(links, n - 1, p) == [Chain(links, d, n - 1, p)] + Rest(links, d, n - 1, p)
    ensures PathsVia(links, n, links[k][j..]) == [Chain(links, d, n, k)] + Rest(links, d, n, k)
  {
    var es, e := links[k][j..], links[k][j];
    assert es[0] == e && es[1..] == links[k][j + 1..];
    assert AtLink(links, d, k) && Current(links, d, k) == e;
    var first, rest, later := Chain(links, d, n - 1, e.from), Rest(links, d, n - 1, e.from), PathsVia(links, n, es[1..]);
    assert PathsVia(links, n, es) == Extend([first] + rest, e) + later;
    assert Chain(links, d, n, k) == first + [e];
    assert Rest(links, d, n, k) == Extend(rest, e) + later;
    ExtendCons(first, rest, e);
  }

  /** Only cursors of layers below `n`, and that of `k`, can have moved. */
  ghost predicate MovedWithin(dist: Distances, c: Cursors, d: Cursors, n: nat, k: Key) {
    forall x {:trigger CursorOf(c, x)} {:trigger CursorOf(d, x)} :: x != k && (x in dist ==> dist[x] >= n) ==> CursorOf(d, x) == CursorOf(c, x)
  }

  /** The source of the current link moved on; the state itself stays on its link. */
  lemma MovedInside(dist: Distances, links: Links, c: Cursors, d: Cursors, n: nat, k: Key)
    requires Layered(dist, links) && k in dist && dist[k] == n && n > 0
    requires AtLink(links, c, k) && Alone(dist, c, n, k)
    requires var p := Current(links, c, k).from;
      p in dist && dist[p] == n - 1 && MovedWithin(dist, c, d, n - 1, p)
    ensures CursorOf(d, k) == CursorOf(c, k) && Alone(dist, d, n, k) && MovedWithin(dist, c, d, n, k)
  {
  }

  lemma SetCursor(c: Cursors, k: Key, v: int, x: Key)
    ensures CursorOf(c[k := v], x) == if x == k then v else CursorOf(c, x)
  {
  }

  lemma SetCursorMoves(dist: Distances, c: Cursors, d: Cursors, n: nat, k: Key, v: int)
    requires MovedWithin(dist, c, d, n, k)
    ensures MovedWithin(dist, c, d[k := v], n, k)
    ensures Alone(dist, d, n, k) ==> Alone(dist, d[k := v], n, k)
    ensures NullBelow(dist, d, n) ==> NullBelow(dist, d[k := v], n) || (k in dist && dist[k] < n)
  {
    forall x ensures CursorOf(d[k := v], x) == if x == k then v else CursorOf(d, x) {
      SetCursor(d, k, v, x);
    }
  }

  lemma TidyOnLink(dist: Distances, links: Links, c: Cursors, n: nat, k: Key)
    requires n > 0 && AtLink(links, c, k) && Alone(dist, c, n, k)
    requires Tidy(dist, links, c, n - 1, Current(links, c, k).from)
    ensures Tidy(dist, links, c, n, k)
  {
  }

  /** What one step of the iterator of `k` does: it refines a plain list, taking the first of
      the runs not produced yet, and once there is none it is back where it started. */
  ghost predicate Stepped(dist: Distances, links: Links, c: Cursors, n: nat, k: Key, more: bool, d: Cursors) {
    && more == (Rest(links, c, n, k) != [])
    && (n == 0 ==> Chain(links, d, n, k) == [])
    && (more ==> Rest(links, c, n, k) == [Chain(links, d, n, k)] + Rest(links, d, n, k))
    && (!more ==> NullBelow(dist, d, n + 1))
    && Tidy(dist, links, d, n, k)
    && MovedWithin(dist, c, d, n, k)
  }

  lemma SteppedInside(dist: Distances, links: Links, c: Cursors, n: nat, k: Key, d: Cursors)
    requires Layered(dist, links) && k in dist && dist[k] == n && n > 0
    requires AtLink(links, c, k) && Alone(dist, c, n, k)
    requires var p := Current(links, c, k).from; p in dist && dist[p] == n - 1 && Stepped(dist, links, c, n - 1, p, true, d)
    ensures Stepped(dist, links, c, n, k, true, d)
  {
    var e := Current(links, c, k);
    MovedInside(dist, links, c, d, n, k);
    TidyOnLink(dist, links, d, n, k);
    ExtendCons(Chain(links, d, n - 1, e.from), Rest(links, d, n - 1, e.from), e);
  }

  lemma SteppedToEnd(dist: Distances, links: Links, c: Cursors, n: nat, k: Key, d: Cursors)
    requires Layered(dist, links) && k in dist && dist[k] == n && n > 0
    requires AtLink(links, c, k) && Alone(dist, c, n, k) && CursorOf(c, k) + 1 == |links[k]|
    requires var p := Current(links, c, k).from; p in dist && dist[p] == n - 1 && Stepped(dist, links, c, n - 1, p, false, d)
    ensures Stepped(dist, links, c, n, k, false, d[k := -1])
  {
    MovedInside(dist, links, c, d, n, k);
    SetCursorMoves(dist, c, d, n, k, -1);
    SetCursor(d, k, -1, k);
  }

  /** The source of link `j` started, so its first run is extended by the link. */
  lemma LinkStarted(dist: Distances, links: Links, c: Cursors, d: Cursors, n: nat, k: Key, j: nat)
    requires Layered(dist, links) && k in dist && dist[k] == n && n > 0 && j < |links[k]|
    requires Alone(dist, c, n, k) && CursorOf(c, k) == j
    requires var p := links[k][j].from;
      && p in dist && dist[p] == n - 1 && Tidy(dist, links, d, n - 1, p) && MovedWithin(dist, c, d, n - 1, p)
      && Paths(links, n - 1, p) == [Chain(links, d, n - 1, p)] + Rest(links, d, n - 1, p)
    ensures PathsVia(links, n, links[k][j..]) == [Chain(links, d, n, k)] + Rest(links, d, n, k)
    ensures Tidy(dist, links, d, n, k) && MovedWithin(dist, c, d, n, k)
  {
    MovedInside(dist, links, c, d, n, k);
    FirstThroughLink(dist, links, d, n, k, j);
    TidyOnLink(dist, links, d, n, k);
  }

  lemma {:induction false} SteppedToLink(dist: Distances, links: Links, c: Cursors, n: nat, k: Key, j: nat)
    requires Layered(dist, links) && k in dist && dist[k] == n && n > 0 && j < |links[k]|
    requires NullBelow(dist, c, n) && Alone(dist, c, n, k)
    ensures var d := StartLink(links, c, n, k, j);
      && PathsVia(links, n, links[k][j..]) == [Chain(links, d, n, k)] + Rest(links, d, n, k)
      && Tidy(dist, links, d, n, k)
      && MovedWithin(dist, c, d, n, k)
    decreases n, 0
  {
    hide Tidy, Chain, Rest, PathsVia, Paths;
    var p, c1 := links[k][j].from, c[k := j];
    var d := Advance(links, c1, n - 1, p).1;
    LinkBelow(dist, links, k, j);
    SetCursorMoves(dist, c, c, n, k, j);
    StartedBelow(dist, links, c1, n - 1, p);
    assert CursorOf(c1, k) == j by { SetCursor(c, k, j, k); }
    LinkStarted(dist, links, c1, d, n, k, j);
  }

  /** Started with nothing set below it, an iterator takes the first of all its runs. */
  lemma {:induction false} StartedBelow(dist: Distances, links: Links, c: Cursors, n: nat, p: Key)
    requires Layered(dist, links) && p in dist && dist[p] == n && NullBelow(dist, c, n + 1)
    ensures var d := Advance(links, c, n, p).1;
      && Paths(links, n, p) == [Chain(links, d, n, p)] + Rest(links, d, n, p)
      && Tidy(dist, links, d, n, p) && MovedWithin(dist, c, d, n, p)
    decreases n, 4
  {
    TidyBelow(dist, links, c, n, p);
    PathsNonEmpty(dist, links, n, p);
    AdvanceSteps(dist, links, c, n, p);
  }

  lemma {:induction false} SteppedPast(dist: Distances, links: Links, c: Cursors, n: nat, k: Key, d: Cursors)
    requires Layered(dist, links) && k in dist && dist[k] == n && n > 0
    requires AtLink(links, c, k) && Alone(dist, c, n, k) && CursorOf(c, k) + 1 < |links[k]|
    requires var p := Current(links, c, k).from; p in dist && dist[p] == n - 1 && Stepped(dist, links, c, n - 1, p, false, d)
    ensures var j := CursorOf(c, k) + 1;
      Stepped(dist, links, c, n, k, true, StartLink(links, d, n, k, j))
    decreases n, 1
  {
    var j := CursorOf(c, k) + 1;
    MovedInside(dist, links, c, d, n, k);
    SteppedToLink(dist, links, d, n, k, j);
    var d2 := StartLink(links, d, n, k, j);
    assert Rest(links, c, n, k) == PathsVia(links, n, links[k][j..]);
    assert Rest(links, c, n, k) == [Chain(links, d2, n, k)] + Rest(links, d2, n, k);
    assert MovedWithin(dist, c, d2, n, k);
  }

  lemma {:induction false} SteppedOut(dist: Distances, links: Links, c: Cursors, n: nat, k: Key, d: Cursors)
    requires Layered(dist, links) && k in dist && dist[k] == n && n > 0
    requires AtLink(links, c, k) && AtLink(links, d, k) && Alone(dist, c, n, k) && CursorOf(d, k) == CursorOf(c, k)
    requires var p := Current(links, c, k).from; p in dist && dist[p] == n - 1 && Stepped(dist, links, c, n - 1, p, false, d)
    ensures Stepped(dist, links, c, n, k, NextLink(links, d, n, k).0, NextLink(links, d, n, k).1)
    decreases n, 2
  {
    if CursorOf(c, k) + 1 == |links[k]| {
      SteppedToEnd(dist, links, c, n, k, d);
    } else {
      SteppedPast(dist, links, c, n, k, d);
    }
  }

  lemma {:induction false} AdvanceSteps(dist: Distances, links: Links, c: Cursors, n: nat, k: Key)
    requires Layered(dist, links) && k in dist && dist[k] == n
    requires Tidy(dist, links, c, n, k)
    ensures Stepped(dist, links, c, n, k, Advance(links, c, n, k).0, Advance(links, c, n, k).1)
    decreases n, 3
  {
    var es := links[k];
    if n > 0 && !AtLink(links, c, k) {
      SteppedToLink(dist, links, c, n, k, 0);
      assert es[0..] == es;
    } else if n > 0 {
      var j := CursorOf(c, k);
      var p := es[j].from;
      LinkBelow(dist, links, k, j);
      AdvanceSteps(dist, links, c, n - 1, p);
      var (inner, d) := Advance(links, c, n - 1, p);
      MovedInside(dist, links, c, d, n, k);
      if inner {
        SteppedInside(dist, links, c, n, k, d);
      } else {
        SteppedOut(dist, links, c, n, k, d);
      }
    }
  }

  ghost predicate NullAbove(dist: Distances, c: Cursors, n: nat) {
    forall x {:trigger CursorOf(c, x)} :: x in dist && dist[x] > n ==> CursorOf(c, x) == -1
  }

  ghost predicate AllNull(dist: Distances, c: Cursors) {
    forall x {:trigger CursorOf(c, x)} :: x in dist ==> CursorOf(c, x) == -1
  }

  lemma NewCursorIsNull(dist: Distances, c: Cursors, k: Key, d: nat)
    requires AllNull(dist, c)
    ensures AllNull(dist[k := d], c[k := -1])
  {
    var more, nulls := dist[k := d], c[k := -1];
    forall x | x in more ensures CursorOf(nulls, x) == -1 {
      SetCursor(c, k, -1, x);
      assert x != k ==> CursorOf(c, x) == -1;
    }
  }

  /** A whole enumeration at `k`: every step produces the next run of the list, and after the
      last one every cursor, shared or not, is null again. */
  lemma AdvanceEnumerates(dist: Distances, links: Links, c: Cursors, n: nat, k: Key)
    requires Layered(dist, links) && k in dist && dist[k] == n
    requires Tidy(dist, links, c, n, k) && NullAbove(dist, c, n)
    ensures var (more, d) := Advance(links, c, n, k);
      && more == (Rest(links, c, n, k) != [])
      && (if more
          then Rest(links, c, n, k) == [Chain(links, d, n, k)] + Rest(links, d, n, k)
               && Tidy(dist, links, d, n, k) && NullAbove(dist, d, n)
          else AllNull(dist, d))
  {
    var (more, d) := Advance(links, c, n, k);
    AdvanceSteps(dist, links, c, n, k);
    NullAboveKept(dist, c, d, n, k);
    if !more {
      forall x | x in dist ensures CursorOf(d, x) == -1 {}
    }
  }

  lemma NullAboveKept(dist: Distances, c: Cursors, d: Cursors, n: nat, k: Key)
    requires NullAbove(dist, c, n) && MovedWithin(dist, c, d, n, k) && k in dist && dist[k] == n
    ensures NullAbove(dist, d, n)
  {
  }

  /** With only the cursor of `k` set to its newest link, the runs through that link are left. */
  lemma StartAtNewest(dist: Distances, links: Links, c: Cursors, n: nat, k: Key)
    requires Layered(dist, links) && k in dist && dist[k] == n && n > 1 && AllNull(dist, c)
    ensures links[k] != []
    ensures var e := links[k][|links[k]| - 1]; var d := c[k := |links[k]| - 1];
      && Rest(links, d, n, k) == Extend(Paths(links, n - 1, e.from), e)
      && Tidy(dist, links, d, n, k) && NullAbove(dist, d, n)
  {
    var j := |links[k]| - 1;
    var e, d := links[k][j], c[k := j];
    LinkBelow(dist, links, k, j);
    forall x ensures CursorOf(d, x) == if x == k then j else CursorOf(c, x) {
      SetCursor(c, k, j, x);
    }
    TidyBelow(dist, links, d, n - 1, e.from);
    TidyOnLink(dist, links, d, n, k);
  }

  // ----- the runs of a layered graph, counted ----------------------------------------------

  /** A run made of recorded links only. */
  predicate LinkRun(pb: Problem, links: Links, r: Run) {
    r != [] ==>
      var front, last := r[..|r| - 1], r[|r| - 1];
      last in LinksOf(links, last.to) && last.from == pb.End(front) && LinkRun(pb, links, front)
  }

  predicate NoDup<T(==)>(s: seq<T>) {
    forall i, j :: 0 <= i < j < |s| ==> s[i] != s[j]
  }

  lemma {:induction false} ExtendCount(runs: seq<Run>, e: Edge, r: Run)
    ensures multiset(Extend(runs, e))[r] == if r != [] && r[|r| - 1] == e then multiset(runs)[r[..|r| - 1]] else 0
  {
    if runs == [] {
      assert Extend(runs, e) == [];
    } else {
      var m := |runs| - 1;
      ExtendCount(runs[..m], e, r);
      assert runs == runs[..m] + [runs[m]];
      assert Extend(runs, e) == Extend(runs[..m], e) + [runs[m] + [e]];
      assert r != [] ==> r == r[..|r| - 1] + [r[|r| - 1]];
      assert (runs[m] + [e])[..|runs[m]|] == runs[m];
    }
  }

  /** Every link run to `k` is enumerated exactly once, and nothing else is. */
  lemma {:induction false} PathsCount(pb: Problem, dist: Distances, links: Links, n: nat, k: Key, r: Run)
    requires Layered(dist, links) && k in dist && dist[k] == n
    requires forall x :: x in dist ==> (dist[x] == 0 <==> x == pb.Start())
    requires forall x :: x in links ==> NoDup(links[x])
    ensures multiset(Paths(links, n, k))[r] == if LinkRun(pb, links, r) && pb.End(r) == k then 1 else 0
    decreases n, 0
  {
    if n > 0 {
      forall j | 0 <= j < |links[k]| ensures links[k][j].from in dist && dist[links[k][j].from] + 1 == n {
        LinkBelow(dist, links, k, j);
      }
      PathsViaCount(pb, dist, links, n, k, links[k], r);
    } else if r != [] {
      assert multiset([[]])[r] == 0;
    }
  }

  /** How often a run with a last edge in `es` occurs among the runs through `es`. */
  ghost function ViaCount(pb: Problem, links: Links, es: seq<Edge>, r: Run): nat {
    if r != [] && r[|r| - 1] in es && LinkRun(pb, links, r[..|r| - 1]) && pb.End(r[..|r| - 1]) == r[|r| - 1].from
    then 1 else 0
  }

  lemma ViaCountSplit(pb: Problem, links: Links, es: seq<Edge>, r: Run)
    requires es != [] && NoDup(es)
    ensures ViaCount(pb, links, es, r) == ViaCount(pb, links, [es[0]], r) + ViaCount(pb, links, es[1..], r)
  {
    assert es == [es[0]] + es[1..];
    assert es[0] !in es[1..];
  }

  lemma OneLinkCount(pb: Problem, links: Links, runs: seq<Run>, e: Edge, r: Run)
    requires r != [] ==>
      var front := r[..|r| - 1];
      multiset(runs)[front] == if LinkRun(pb, links, front) && pb.End(front) == e.from then 1 else 0
    ensures multiset(Extend(runs, e))[r] == ViaCount(pb, links, [e], r)
  {
    ExtendCount(runs, e, r);
  }

  lemma {:induction false} PathsViaCount(pb: Problem, dist: Distances, links: Links, n: nat, k: Key, es: seq<Edge>, r: Run)
    requires Layered(dist, links) && n > 0 && NoDup(es)
    requires forall x :: x in dist ==> (dist[x] == 0 <==> x == pb.Start())
    requires forall x :: x in links ==> NoDup(links[x])
    requires forall e :: e in es ==> e.to == k && e.from in dist && dist[e.from] + 1 == n
    ensures multiset(PathsVia(links, n, es))[r] == ViaCount(pb, links, es, r)
    decreases n - 1, |es| + 1
  {
    if es != [] {
      var runs := Paths(links, n - 1, es[0].from);
      var first, tail := Extend(runs, es[0]), PathsVia(links, n, es[1..]);
      PathsViaCount(pb, dist, links, n, k, es[1..], r);
      if r != [] {
        PathsCount(pb, dist, links, n - 1, es[0].from, r[..|r| - 1]);
      }
      OneLinkCount(pb, links, runs, es[0], r);
      ViaCountSplit(pb, links, es, r);
      assert multiset(first + tail)[r] == multiset(first)[r] + multiset(tail)[r];
    }
  }
}
