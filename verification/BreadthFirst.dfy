/** What the breadth-first search knows at any moment, and what every step of it keeps. */
module BreadthFirst {
  import opened ProductGraph
  import opened PathEnumeration

  /** The three searches: any end with one final state of the automaton, any end with several, and one
      given end. */
  datatype Mode = OneFinal | ManyFinals | Target(node: nat)

  /** Whether paths that end at the node are asked for. */
  predicate Wanted(mode: Mode, node: nat) {
    mode.Target? ==> node == mode.node
  }

  /** Visited states with their distances and optimal incoming edges, the queue, and the edge
      occurrences looked at so far. */
  datatype Bfs = Bfs(dist: Distances, links: Links, open: seq<Key>, scanned: set<Edge>)

  function Initial(pb: Problem): Bfs {
    Bfs(map[pb.Start() := 0], map[pb.Start() := []], [pb.Start()], {})
  }

  /** Looking at edge `e`, which leaves the state at the front of the queue. */
  function Scan(b: Bfs, e: Edge): Bfs
    requires e.from in b.dist && b.links.Keys == b.dist.Keys
  {
    var d := b.dist[e.from] + 1;
    var s := b.scanned + {e};
    if e.to !in b.dist then Bfs(b.dist[e.to := d], b.links[e.to := [e]], b.open + [e.to], s)
    else if b.dist[e.to] == d then Bfs(b.dist, b.links[e.to := b.links[e.to] + [e]], b.open, s)
    else Bfs(b.dist, b.links, b.open, s)
  }

  function Pop(b: Bfs): Bfs
    requires b.open != []
  {
    b.(open := b.open[1..])
  }

  predicate Scanned(b: Bfs, e: Edge) {
    e in b.scanned
  }

  /** The links are layered from the start state, and list no edge twice. */
  ghost predicate Layers(pb: Problem, b: Bfs) {
    && pb.dfa.Valid()
    && Layered(b.dist, b.links)
    && pb.Start() in b.dist
    && (forall k {:trigger b.dist[k]} :: k in b.dist ==> (b.dist[k] == 0 <==> k == pb.Start()))
    && (forall k {:trigger b.links[k]} :: k in b.links ==> NoDup(b.links[k]))
    && (forall k {:trigger b.dist[k]} :: k in b.dist ==> k.node in pb.Nodes() && k.state < |pb.dfa.connections|)
  }

  /** Distances in the queue never decrease, and span at most one layer. */
  ghost predicate Queue(b: Bfs) {
    && NoDup(b.open)
    && (forall i {:trigger b.open[i]} :: 0 <= i < |b.open| ==> b.open[i] in b.dist)
    && (forall i, j {:trigger b.open[i], b.open[j]} :: 0 <= i < j < |b.open| ==> b.dist[b.open[i]] <= b.dist[b.open[j]])
    && (b.open != [] ==> forall k {:trigger b.dist[k]} :: k in b.dist ==>
          b.dist[k] <= b.dist[b.open[0]] + (if k in b.open then 1 else 0))
  }

  /** The scanned edges are all the edges of the states that left the queue and some of the
      edges of the front; among them the links are those that go one layer up. */
  ghost predicate Coverage(pb: Problem, b: Bfs) {
    && (forall e {:trigger IsLink(b.links, e)} :: IsLink(b.links, e) ==> Scanned(b, e))
    && (forall e {:trigger Scanned(b, e)} :: Scanned(b, e) ==>
          && pb.IsEdge(e) && e.from in b.dist && e.to in b.dist
          && (e.from in b.open ==> e.from == b.open[0])
          && b.dist[e.to] <= b.dist[e.from] + 1
          && (b.dist[e.to] == b.dist[e.from] + 1 ==> IsLink(b.links, e)))
    && (forall e {:trigger Scanned(b, e)} :: pb.IsEdge(e) && e.from in b.dist && e.from !in b.open ==> Scanned(b, e))
  }

  ghost predicate Inv(pb: Problem, b: Bfs) {
    Layers(pb, b) && Queue(b) && Coverage(pb, b)
  }

  lemma InitialInv(pb: Problem)
    requires pb.dfa.Valid()
    ensures Inv(pb, Initial(pb))
  {
  }

  lemma PopInv(pb: Problem, b: Bfs)
    requires Inv(pb, b) && b.open != []
    requires forall e :: pb.IsEdge(e) && e.from == b.open[0] ==> Scanned(b, e)
    ensures Inv(pb, Pop(b))
  {
    var c := Pop(b);
    assert forall k :: k in b.open <==> k == b.open[0] || k in c.open;
    assert forall e :: Scanned(c, e) <==> Scanned(b, e);
  }

  ghost predicate CanScan(pb: Problem, b: Bfs, e: Edge) {
    Inv(pb, b) && b.open != [] && pb.IsEdge(e) && e.from == b.open[0] && !Scanned(b, e)
  }

  lemma ScanLinks(pb: Problem, b: Bfs, e: Edge, x: Edge)
    requires CanScan(pb, b, e)
    ensures IsLink(Scan(b, e).links, x) <==>
              IsLink(b.links, x) || (x == e && (e.to in b.dist ==> b.dist[e.to] == b.dist[e.from] + 1))
  {
  }

  lemma ScanIsNew(pb: Problem, b: Bfs, e: Edge)
    requires CanScan(pb, b, e)
    ensures b.links.Keys == b.dist.Keys && e.from in b.dist && !IsLink(b.links, e)
    ensures e.to.node in pb.Nodes() && e.to.state < |pb.dfa.connections|
  {
    pb.EdgeIsKnown(e);
    assert IsLink(b.links, e) ==> Scanned(b, e);
  }

  lemma ScanLayers(pb: Problem, b: Bfs, e: Edge)
    requires CanScan(pb, b, e)
    ensures Layers(pb, Scan(b, e))
  {
    hide Queue, Coverage, Problem.Nodes, Problem.IsEdge;
    ScanIsNew(pb, b, e);
    forall x ensures IsLink(Scan(b, e).links, x) ==> IsLink(b.links, x) || x == e {
      ScanLinks(pb, b, e, x);
    }
  }

  lemma ScanQueue(pb: Problem, b: Bfs, e: Edge)
    requires CanScan(pb, b, e)
    ensures Queue(Scan(b, e))
  {
    hide Layers, Coverage;
    ScanIsNew(pb, b, e);
    var c := Scan(b, e);
    assert forall k :: k in c.open <==> k in b.open || (k == e.to && e.to !in b.dist);
  }

  lemma ScanCoverage(pb: Problem, b: Bfs, e: Edge)
    requires CanScan(pb, b, e)
    ensures Coverage(pb, Scan(b, e))
  {
    var c := Scan(b, e);
    forall x ensures Scanned(c, x) <==> Scanned(b, x) || x == e {}
    forall x ensures IsLink(c.links, x) <==> IsLink(b.links, x) || (x == e && (e.to in b.dist ==> b.dist[e.to] == b.dist[e.from] + 1)) {
      ScanLinks(pb, b, e, x);
    }
    assert b.dist[e.from] == b.dist[b.open[0]];
  }

  lemma ScanInv(pb: Problem, b: Bfs, e: Edge)
    requires CanScan(pb, b, e)
    ensures Inv(pb, Scan(b, e))
  {
    ScanLayers(pb, b, e);
    ScanQueue(pb, b, e);
    ScanCoverage(pb, b, e);
  }

  // ----- which runs have been found -------------------------------------------------------

  /** A final state that is reached no later than any other final state at the same node. */
  ghost predicate Answer(pb: Problem, b: Bfs, k: Key) {
    && k in b.dist && pb.dfa.Final(k.state)
    && forall x {:trigger b.dist[x]} :: x in b.dist && pb.dfa.Final(x.state) && x.node == k.node ==> b.dist[k] <= b.dist[x]
  }

  ghost function IndexOf(es: seq<Edge>, e: Edge): (i: nat)
    requires e in es
    ensures i < |es| && es[i] == e
  {
    var i: nat :| i < |es| && es[i] == e; i
  }

  /** How often a search in state `b` has produced run `r`, or is about to.  The runs of one
      edge are produced again whenever a later parallel edge reaches their end. */
  ghost function Expected(pb: Problem, b: Bfs, r: Run): nat {
    var k := pb.End(r);
    if !LinkRun(pb, b.links, r) || !Answer(pb, b, k) then 0
    else if |r| == 1 then |b.links[k]| - IndexOf(b.links[k], r[0])
    else 1
  }

  /** How often a search that is asked for certain ends has produced run `r`, or is about to. */
  ghost function Due(pb: Problem, mode: Mode, b: Bfs, r: Run): nat {
    if Wanted(mode, pb.End(r).node) then Expected(pb, b, r) else 0
  }

  /** The runs that come out after `e` was added as the newest link of its target. */
  ghost function NewRuns(b: Bfs, e: Edge): seq<Run>
    requires e.from in b.dist
  {
    var d := b.dist[e.from];
    if d == 0 then Paths(b.links, 1, e.to) else Extend(Paths(b.links, d, e.from), e)
  }

  predicate Linked(b: Bfs, e: Edge) {
    e.from in b.dist && (e.to in b.dist ==> b.dist[e.to] == b.dist[e.from] + 1)
  }

  lemma {:induction false} LinkRunLength(pb: Problem, b: Bfs, r: Run)
    requires Layers(pb, b) && LinkRun(pb, b.links, r)
    ensures pb.End(r) in b.dist && b.dist[pb.End(r)] == |r|
  {
    if r != [] {
      LinkRunLength(pb, b, r[..|r| - 1]);
      assert IsLink(b.links, r[|r| - 1]);
    }
  }

  lemma NothingBeyond(pb: Problem, b: Bfs, e: Edge, x: Edge)
    requires CanScan(pb, b, e) && Linked(b, e) && x.from == e.to
    ensures !IsLink(b.links, x)
  {
  }

  /** Runs that do not end in the target of a new link do not see it. */
  lemma {:induction false} LinkRunFrame(pb: Problem, b: Bfs, e: Edge, r: Run)
    requires CanScan(pb, b, e) && Linked(b, e) && pb.End(r) != e.to
    ensures LinkRun(pb, Scan(b, e).links, r) <==> LinkRun(pb, b.links, r)
  {
    if r != [] {
      var front, last := r[..|r| - 1], r[|r| - 1];
      assert LinksOf(Scan(b, e).links, last.to) == LinksOf(b.links, last.to);
      if last.from == e.to {
        NothingBeyond(pb, b, e, last);
      } else if last.from == pb.End(front) {
        LinkRunFrame(pb, b, e, front);
      }
    }
  }

  /** The scan leaves the answers alone, except that it may add the target of `e`. */
  lemma AnswerFrame(pb: Problem, b: Bfs, e: Edge, k: Key)
    requires CanScan(pb, b, e) && (k != e.to || k in b.dist)
    ensures Answer(pb, Scan(b, e), k) <==> Answer(pb, b, k)
  {
    var c := Scan(b, e);
    assert forall x :: x in b.dist ==> x in c.dist && c.dist[x] == b.dist[x];
    if e.to !in b.dist {
      assert c.dist[e.to] == b.dist[e.from] + 1;
      assert k in b.dist ==> b.dist[k] <= b.dist[e.from] + 1;
    }
  }

  lemma ExpectedElsewhere(pb: Problem, b: Bfs, e: Edge, r: Run)
    requires CanScan(pb, b, e) && (!Linked(b, e) || pb.End(r) != e.to)
    ensures Expected(pb, Scan(b, e), r) == Expected(pb, b, r)
  {
    var c, k := Scan(b, e), pb.End(r);
    if Linked(b, e) {
      LinkRunFrame(pb, b, e, r);
    } else {
      assert c.links == b.links && c.dist == b.dist;
    }
    AnswerFrame(pb, b, e, k);
  }

  /** A run into the target of a new link either took an older link or is a run through `e`. */
  lemma LinkRunAtTarget(pb: Problem, b: Bfs, e: Edge, r: Run)
    requires CanScan(pb, b, e) && Linked(b, e) && pb.End(r) == e.to
    ensures LinkRun(pb, Scan(b, e).links, r) <==>
              LinkRun(pb, b.links, r) || (r != [] && r[|r| - 1] == e && LinkRun(pb, b.links, r[..|r| - 1]) && pb.End(r[..|r| - 1]) == e.from)
    ensures LinkRun(pb, b.links, r) ==> r != [] && r[|r| - 1] != e
    ensures e.from != e.to
  {
    var c := Scan(b, e);
    assert e.to != pb.Start();
    if r != [] {
      var front, last := r[..|r| - 1], r[|r| - 1];
      assert LinksOf(c.links, e.to) == LinksOf(b.links, e.to) + [e];
      if last.from == pb.End(front) {
        if last.from == e.to {
          NothingBeyond(pb, b, e, last);
        } else {
          LinkRunFrame(pb, b, e, front);
        }
      }
      assert IsLink(b.links, e) ==> Scanned(b, e);
    }
  }

  lemma NewRunsCount(pb: Problem, b: Bfs, e: Edge, r: Run)
    requires CanScan(pb, b, e) && Linked(b, e)
    ensures var c := Scan(b, e);
      multiset(NewRuns(c, e))[r] ==
        if pb.End(r) == e.to && LinkRun(pb, c.links, r) && (b.dist[e.from] == 0 || r[|r| - 1] == e) then 1 else 0
  {
    var c := Scan(b, e);
    ScanInv(pb, b, e);
    var d := c.dist[e.from];
    assert IsLink(c.links, e) by { ScanLinks(pb, b, e, e); }
    assert e.to != pb.Start() by { LinkRunAtTarget(pb, b, e, [e]); assert c.dist[e.to] == d + 1; }
    if d == 0 {
      PathsCount(pb, c.dist, c.links, 1, e.to, r);
    } else {
      ExtendCount(Paths(c.links, d, e.from), e, r);
      if r != [] && r[|r| - 1] == e {
        PathsCount(pb, c.dist, c.links, d, e.from, r[..|r| - 1]);
      }
    }
  }

  lemma IndexAppend(es: seq<Edge>, e: Edge, x: Edge)
    requires NoDup(es + [e]) && x in es + [e]
    ensures IndexOf(es + [e], x) == if x in es then IndexOf(es, x) else |es|
  {
    var all := es + [e];
    var i := IndexOf(all, x);
    if x in es {
      assert all[IndexOf(es, x)] == x;
    } else {
      assert all[|es|] == e;
    }
  }

  lemma ExpectedAtTarget(pb: Problem, b: Bfs, e: Edge, r: Run)
    requires CanScan(pb, b, e) && Linked(b, e) && pb.End(r) == e.to
    ensures var c := Scan(b, e);
      Expected(pb, c, r) == Expected(pb, b, r) + if Answer(pb, c, e.to) then multiset(NewRuns(c, e))[r] else 0
  {
    var c := Scan(b, e);
    ScanInv(pb, b, e);
    NewRunsCount(pb, b, e, r);
    LinkRunAtTarget(pb, b, e, r);
    if e.to in b.dist {
      AnswerFrame(pb, b, e, e.to);
    }
    if LinkRun(pb, c.links, r) {
      LinkRunLength(pb, c, r);
      if |r| == 1 {
        assert c.links[e.to] == LinksOf(b.links, e.to) + [e];
        IndexAppend(LinksOf(b.links, e.to), e, r[0]);
      }
    }
  }

  /** Looking at an edge makes due exactly the runs that its iteration then produces. */
  lemma ScanExpected(pb: Problem, b: Bfs, e: Edge, r: Run)
    requires CanScan(pb, b, e)
    ensures var c := Scan(b, e);
      Expected(pb, c, r) == Expected(pb, b, r)
        + if Linked(b, e) && Answer(pb, c, e.to) then multiset(NewRuns(c, e))[r] else 0
  {
    if Linked(b, e) && pb.End(r) == e.to {
      ExpectedAtTarget(pb, b, e, r);
    } else {
      ExpectedElsewhere(pb, b, e, r);
      if Linked(b, e) {
        NewRunsCount(pb, b, e, r);
      }
    }
  }

  // ----- what holds at any moment of the search ------------------------------------------------

  /** A run that the search has not matched yet is longer than the front is far. */
  lemma {:induction false} RunsAreCovered(pb: Problem, b: Bfs, r: Run)
    requires Inv(pb, b) && pb.IsRun(r)
    ensures (pb.End(r) in b.dist && b.dist[pb.End(r)] <= |r|) || (b.open != [] && b.dist[b.open[0]] < |r|)
  {
    if r != [] {
      var front := pb.End(r[..|r| - 1]);
      RunsAreCovered(pb, b, r[..|r| - 1]);
      if front in b.dist && front !in b.open {
        assert Scanned(b, r[|r| - 1]);
      }
    }
  }

  /** No run to a visited state is shorter than the distance recorded for it. */
  lemma DistanceIsLeast(pb: Problem, b: Bfs, r: Run)
    requires Inv(pb, b) && pb.IsRun(r) && pb.End(r) in b.dist
    ensures b.dist[pb.End(r)] <= |r|
  {
    RunsAreCovered(pb, b, r);
  }

  /** All runs into `k` that matter have been looked at: nothing before it is in the queue. */
  ghost predicate Settled(b: Bfs, k: Key) {
    k in b.dist && (b.open != [] && b.open[0] in b.dist ==> b.dist[k] <= b.dist[b.open[0]])
  }

  /** A settled state, and so the front of the queue, holds exactly its optimal incoming edges. */
  lemma SettledLinks(pb: Problem, b: Bfs, e: Edge)
    requires Inv(pb, b) && Settled(b, e.to)
    ensures IsLink(b.links, e) <==> pb.IsEdge(e) && e.from in b.dist && b.dist[e.from] + 1 == b.dist[e.to]
  {
    if IsLink(b.links, e) {
      assert Scanned(b, e);
    }
    if pb.IsEdge(e) && e.from in b.dist && b.dist[e.from] + 1 == b.dist[e.to] {
      assert e.from !in b.open;
      assert Scanned(b, e);
    }
  }

  /** The runs along the links are runs of the product, whatever has been looked at. */
  lemma {:induction false} LinkRunsAreRuns(pb: Problem, b: Bfs, r: Run)
    requires Inv(pb, b) && LinkRun(pb, b.links, r)
    ensures pb.IsRun(r)
  {
    if r != [] {
      LinkRunsAreRuns(pb, b, r[..|r| - 1]);
      assert IsLink(b.links, r[|r| - 1]);
      assert Scanned(b, r[|r| - 1]);
    }
  }

  /** Into a settled state the links give exactly the shortest runs. */
  lemma {:induction false} LinkRunsAreShortest(pb: Problem, b: Bfs, r: Run)
    requires Inv(pb, b) && Settled(b, pb.End(r))
    ensures LinkRun(pb, b.links, r) <==> pb.IsRun(r) && |r| == b.dist[pb.End(r)]
  {
    if LinkRun(pb, b.links, r) {
      LinkRunLength(pb, b, r);
      LinkRunsAreRuns(pb, b, r);
    }
    if r != [] && pb.IsRun(r) && |r| == b.dist[pb.End(r)] {
      var front, last := r[..|r| - 1], r[|r| - 1];
      RunsAreCovered(pb, b, front);
      assert last.from !in b.open;
      assert Scanned(b, last);
      DistanceIsLeast(pb, b, front);
      SettledLinks(pb, b, last);
      LinkRunsAreShortest(pb, b, front);
    }
  }

  /** `d` is the length of the shortest runs to `k`. */
  ghost predicate TrueDistance(pb: Problem, k: Key, d: nat) {
    && (exists r :: pb.IsRun(r) && pb.End(r) == k && |r| == d)
    && (forall r :: pb.IsRun(r) && pb.End(r) == k ==> d <= |r|)
  }

  /** At any moment, every recorded distance is the true distance. */
  lemma DistancesAreTrue(pb: Problem, b: Bfs, k: Key)
    requires Inv(pb, b) && k in b.dist
    ensures TrueDistance(pb, k, b.dist[k])
  {
    var s := StateHasRun(pb, b, k);
    forall r | pb.IsRun(r) && pb.End(r) == k ensures b.dist[k] <= |r| {
      DistanceIsLeast(pb, b, r);
    }
  }

  lemma StateHasRun(pb: Problem, b: Bfs, k: Key) returns (r: Run)
    requires Inv(pb, b) && k in b.dist
    ensures pb.IsRun(r) && pb.End(r) == k && |r| == b.dist[k]
  {
    var runs := Paths(b.links, b.dist[k], k);
    PathsNonEmpty(b.dist, b.links, b.dist[k], k);
    r := runs[0];
    assert r in multiset(runs);
    PathsCount(pb, b.dist, b.links, b.dist[k], k, r);
    LinkRunLength(pb, b, r);
    LinkRunsAreRuns(pb, b, r);
  }

  /** Every recorded distance is true, the queue is ordered and spans at most one layer, and the
      front of the queue already holds exactly its optimal incoming edges. */
  ghost predicate TrueLayers(pb: Problem, b: Bfs) {
    && (forall k {:trigger TrueDistance(pb, k, b.dist[k])} :: k in b.dist ==> TrueDistance(pb, k, b.dist[k]))
    && (forall k :: k in b.open ==> k in b.dist)
    && (forall i, j {:trigger b.open[i], b.open[j]} :: 0 <= i < j < |b.open| ==>
          b.dist[b.open[i]] <= b.dist[b.open[j]] <= b.dist[b.open[0]] + 1)
    && (b.open != [] ==> forall e: Edge {:trigger IsLink(b.links, e)} :: e.to == b.open[0] ==>
          (IsLink(b.links, e) <==> pb.IsEdge(e) && e.from in b.dist && b.dist[e.from] + 1 == b.dist[e.to]))
  }

  lemma QueueSpans(b: Bfs)
    requires Queue(b)
    ensures forall k :: k in b.open ==> k in b.dist
    ensures forall i, j {:trigger b.open[i], b.open[j]} :: 0 <= i < j < |b.open| ==>
              b.dist[b.open[i]] <= b.dist[b.open[j]] <= b.dist[b.open[0]] + 1
    ensures b.open != [] ==> Settled(b, b.open[0])
  {
  }

  lemma LayersAreTrue(pb: Problem, b: Bfs)
    requires Inv(pb, b)
    ensures TrueLayers(pb, b)
  {
    hide Queue, Layers, Coverage, TrueDistance;
    QueueSpans(b);
    forall k | k in b.dist ensures TrueDistance(pb, k, b.dist[k]) {
      DistancesAreTrue(pb, b, k);
    }
    forall e: Edge | b.open != [] && e.to == b.open[0]
      ensures IsLink(b.links, e) <==> pb.IsEdge(e) && e.from in b.dist && b.dist[e.from] + 1 == b.dist[e.to]
    {
      SettledLinks(pb, b, e);
    }
  }

  // ----- the end of the search --------------------------------------------------------------

  /** Once the queue is empty, the runs that are due are the shortest accepted runs. */
  lemma ExpectedAtEnd(pb: Problem, b: Bfs, r: Run)
    requires Inv(pb, b) && b.open == []
    ensures Expected(pb, b, r) > 0 <==> pb.ShortestAccepted(r)
  {
    var k := pb.End(r);
    if k in b.dist {
      LinkRunsAreShortest(pb, b, r);
    }
    if LinkRun(pb, b.links, r) {
      LinkRunLength(pb, b, r);
    }
    if Expected(pb, b, r) > 0 {
      forall s | pb.Accepted(s) && pb.End(s).node == k.node ensures |r| <= |s| {
        RunsAreCovered(pb, b, s);
      }
    }
    if pb.ShortestAccepted(r) {
      RunsAreCovered(pb, b, r);
      forall x | x in b.dist && pb.dfa.Final(x.state) && x.node == k.node ensures |r| <= b.dist[x] {
        var s := StateHasRun(pb, b, x);
        assert pb.Accepted(s);
      }
    }
  }

  // ----- how far the front of the queue has been expanded -----------------------------------

  /** The scanned edges of `u` are those before position `pos` of transition `t`. */
  ghost predicate ScannedUpTo(pb: Problem, b: Bfs, u: Key, t: nat, pos: nat) {
    forall e {:trigger Scanned(b, e)} :: pb.IsEdge(e) && e.from == u ==>
      (Scanned(b, e) <==> e.t < t || (e.t == t && e.i < pos))
  }

  function EdgeAt(pb: Problem, u: Key, t: nat, pos: nat): (e: Edge)
    requires u.state < |pb.dfa.connections| && t < |pb.dfa.connections[u.state]|
    requires var l := pb.dfa.connections[u.state][t]; pos < |pb.graph.Neighbors(l.typeId, l.inverse, u.node)|
    ensures pb.IsEdge(e) && e.from == u
  {
    var l := pb.dfa.connections[u.state][t];
    Edge(u, t, pos, Key(pb.graph.Neighbors(l.typeId, l.inverse, u.node)[pos], l.to))
  }

  lemma ScanAdvances(pb: Problem, b: Bfs, u: Key, t: nat, pos: nat)
    requires u in b.dist && b.links.Keys == b.dist.Keys && ScannedUpTo(pb, b, u, t, pos)
    requires u.state < |pb.dfa.connections| && t < |pb.dfa.connections[u.state]|
    requires var l := pb.dfa.connections[u.state][t]; pos < |pb.graph.Neighbors(l.typeId, l.inverse, u.node)|
    ensures var e := EdgeAt(pb, u, t, pos); !Scanned(b, e) && ScannedUpTo(pb, Scan(b, e), u, t, pos + 1)
  {
    var e := EdgeAt(pb, u, t, pos);
    forall x ensures Scanned(Scan(b, e), x) <==> Scanned(b, x) || x == e {}
  }

  lemma TransitionDone(pb: Problem, b: Bfs, u: Key, t: nat)
    requires u.state < |pb.dfa.connections| && t < |pb.dfa.connections[u.state]|
    requires var l := pb.dfa.connections[u.state][t];
      ScannedUpTo(pb, b, u, t, |pb.graph.Neighbors(l.typeId, l.inverse, u.node)|)
    ensures ScannedUpTo(pb, b, u, t + 1, 0)
  {
  }

  // ----- the least distance of an answer at every node --------------------------------------

  ghost predicate FinalAt(pb: Problem, b: Bfs, k: Key, n: nat, d: nat) {
    k in b.dist && pb.dfa.Final(k.state) && k.node == n && b.dist[k] == d
  }

  /** `best` holds the least distance of a final state at each node that has one and is asked for. */
  ghost predicate OptimalFor(pb: Problem, mode: Mode, b: Bfs, best: map<nat, nat>) {
    && (forall k {:trigger b.dist[k]} :: k in b.dist && pb.dfa.Final(k.state) && Wanted(mode, k.node) ==>
          k.node in best && best[k.node] <= b.dist[k])
    && (forall n {:trigger best[n]} :: n in best ==> exists k :: FinalAt(pb, b, k, n, best[n]))
  }

  lemma AnswerByOptimal(pb: Problem, mode: Mode, b: Bfs, best: map<nat, nat>, k: Key)
    requires OptimalFor(pb, mode, b, best) && k in b.dist && pb.dfa.Final(k.state) && Wanted(mode, k.node)
    ensures k.node in best && (Answer(pb, b, k) <==> best[k.node] == b.dist[k])
  {
    assert best[k.node] <= b.dist[k];
    var x :| FinalAt(pb, b, x, k.node, best[k.node]);
    assert Answer(pb, b, k) ==> b.dist[k] <= b.dist[x];
  }

  lemma AnswerByOnlyFinal(pb: Problem, b: Bfs, k: Key)
    requires pb.dfa.AtMostOneFinal() && k in b.dist
    ensures Answer(pb, b, k) <==> pb.dfa.Final(k.state)
  {
    forall x | x in b.dist && pb.dfa.Final(x.state) && pb.dfa.Final(k.state) && x.node == k.node ensures x == k {
    }
  }

  /** `best` after edge `e` was looked at; a search for one final state keeps no table. */
  function BestAfter(pb: Problem, mode: Mode, b: Bfs, e: Edge, best: map<nat, nat>): map<nat, nat>
    requires e.from in b.dist
  {
    if !mode.OneFinal? && e.to !in b.dist && pb.dfa.Final(e.to.state) && Wanted(mode, e.to.node) && e.to.node !in best
    then best[e.to.node := b.dist[e.from] + 1] else best
  }

  /** No visited state is farther than one layer beyond the front. */
  lemma ScanReaches(pb: Problem, b: Bfs, e: Edge)
    requires CanScan(pb, b, e)
    ensures e.from in b.dist && forall k :: k in b.dist ==> b.dist[k] <= b.dist[e.from] + 1
  {
  }

  lemma OptimalScanBounds(pb: Problem, mode: Mode, b: Bfs, e: Edge, best: map<nat, nat>, k: Key)
    requires CanScan(pb, b, e) && OptimalFor(pb, mode, b, best) && !mode.OneFinal?
    requires k in Scan(b, e).dist && pb.dfa.Final(k.state) && Wanted(mode, k.node)
    ensures var more := BestAfter(pb, mode, b, e, best); k.node in more && more[k.node] <= Scan(b, e).dist[k]
  {
    hide Inv;
    ScanIsNew(pb, b, e);
    ScanReaches(pb, b, e);
    if k in b.dist {
      assert best[k.node] <= b.dist[k];
    } else if k.node in best {
      var x :| FinalAt(pb, b, x, k.node, best[k.node]);
      assert b.dist[x] <= b.dist[e.from] + 1;
    }
  }

  lemma OptimalScan(pb: Problem, mode: Mode, b: Bfs, e: Edge, best: map<nat, nat>)
    requires CanScan(pb, b, e) && OptimalFor(pb, mode, b, best) && !mode.OneFinal?
    ensures OptimalFor(pb, mode, Scan(b, e), BestAfter(pb, mode, b, e, best))
  {
    hide Inv;
    ScanIsNew(pb, b, e);
    var c, more := Scan(b, e), BestAfter(pb, mode, b, e, best);
    forall k | k in c.dist && pb.dfa.Final(k.state) && Wanted(mode, k.node) ensures k.node in more && more[k.node] <= c.dist[k] {
      OptimalScanBounds(pb, mode, b, e, best, k);
    }
    forall n | n in more ensures exists k :: FinalAt(pb, c, k, n, more[n]) {
      if n in best {
        var x :| FinalAt(pb, b, x, n, best[n]);
        assert FinalAt(pb, c, x, n, more[n]);
      } else {
        assert FinalAt(pb, c, e.to, n, more[n]);
      }
    }
  }

  /** How the search tells whether the target of `e` is a solution: by the table of least
      distances, or by finality alone when there is one final state. */
  predicate Solution(pb: Problem, mode: Mode, b: Bfs, e: Edge, best: map<nat, nat>)
    requires e.from in b.dist
  {
    var more := BestAfter(pb, mode, b, e, best);
    && Linked(b, e) && pb.dfa.Final(e.to.state) && Wanted(mode, e.to.node)
    && (!mode.OneFinal? ==> e.to.node in more && more[e.to.node] == b.dist[e.from] + 1)
  }

  /** The searches that a problem allows: without a table only if there is one final state. */
  predicate Fits(pb: Problem, mode: Mode) {
    mode.OneFinal? ==> pb.dfa.AtMostOneFinal()
  }

  lemma Verdict(pb: Problem, mode: Mode, b: Bfs, e: Edge, best: map<nat, nat>)
    requires CanScan(pb, b, e) && Fits(pb, mode) && (!mode.OneFinal? ==> OptimalFor(pb, mode, b, best))
    ensures var c, more := Scan(b, e), BestAfter(pb, mode, b, e, best);
      && (!mode.OneFinal? ==> OptimalFor(pb, mode, c, more))
      && (Linked(b, e) && Answer(pb, c, e.to) && Wanted(mode, e.to.node) <==> Solution(pb, mode, b, e, best))
  {
    var c, more := Scan(b, e), BestAfter(pb, mode, b, e, best);
    ScanInv(pb, b, e);
    if !mode.OneFinal? {
      OptimalScan(pb, mode, b, e, best);
      if pb.dfa.Final(e.to.state) && Wanted(mode, e.to.node) {
        AnswerByOptimal(pb, mode, c, more, e.to);
      }
    } else {
      AnswerByOnlyFinal(pb, c, e.to);
    }
  }

  // ----- a stretch of edges looked at without a pause ---------------------------------------

  /** The search with its table of least distances. */
  datatype Search = Search(b: Bfs, best: map<nat, nat>)

  /** `e` leaves the front of the queue and was not looked at before. */
  predicate Unseen(pb: Problem, b: Bfs, e: Edge) {
    && b.links.Keys == b.dist.Keys && b.open != [] && e.from == b.open[0] && e.from in b.dist
    && pb.IsEdge(e) && !Scanned(b, e)
  }

  function LookAt(pb: Problem, mode: Mode, s: Search, e: Edge): Search {
    if !Unseen(pb, s.b, e) then s
    else Search(Scan(s.b, e), BestAfter(pb, mode, s.b, e, s.best))
  }

  lemma LookAtNew(pb: Problem, mode: Mode, s: Search, e: Edge)
    requires Unseen(pb, s.b, e) && e.to !in s.b.dist
    ensures var d, final := s.b.dist[e.from] + 1, pb.dfa.Final(e.to.state) && Wanted(mode, e.to.node);
      var more := if !mode.OneFinal? && final && e.to.node !in s.best then s.best[e.to.node := d] else s.best;
      && LookAt(pb, mode, s, e) == Search(Scan(s.b, e), more)
      && Solution(pb, mode, s.b, e, s.best) == (final && (!mode.OneFinal? ==> more[e.to.node] == d))
  {
  }

  /** Every final state that was visited has an entry. */
  ghost predicate Tabled(pb: Problem, mode: Mode, s: Search) {
    !mode.OneFinal? ==> forall k {:trigger k in s.b.dist} ::
      k in s.b.dist && pb.dfa.Final(k.state) && Wanted(mode, k.node) ==> k.node in s.best
  }

  lemma LookKeepsTable(pb: Problem, mode: Mode, s: Search, e: Edge)
    requires Tabled(pb, mode, s)
    ensures Tabled(pb, mode, LookAt(pb, mode, s, e))
  {
  }

  lemma SoundIsTabled(pb: Problem, mode: Mode, s: Search)
    requires Sound(pb, mode, s)
    ensures Tabled(pb, mode, s)
  {
    forall k | !mode.OneFinal? && k in s.b.dist && pb.dfa.Final(k.state) && Wanted(mode, k.node) ensures k.node in s.best {
      assert s.b.dist[k] >= 0;
    }
  }

  function After(pb: Problem, mode: Mode, s: Search, es: seq<Edge>): Search {
    if es == [] then s else LookAt(pb, mode, After(pb, mode, s, es[..|es| - 1]), es[|es| - 1])
  }

  /** Looking at the edges one after the other completes no solution. */
  predicate Silent(pb: Problem, mode: Mode, s: Search, es: seq<Edge>) {
    es != [] ==>
      var m, e := After(pb, mode, s, es[..|es| - 1]), es[|es| - 1];
      && Silent(pb, mode, s, es[..|es| - 1])
      && Unseen(pb, m.b, e) && !Solution(pb, mode, m.b, e, m.best)
  }

  ghost predicate Sound(pb: Problem, mode: Mode, s: Search) {
    && Inv(pb, s.b)
    && Fits(pb, mode)
    && (!mode.OneFinal? ==> OptimalFor(pb, mode, s.b, s.best))
  }

  lemma SoundIsLayered(pb: Problem, mode: Mode, s: Search)
    requires Sound(pb, mode, s)
    ensures Layers(pb, s.b) && Layered(s.b.dist, s.b.links) && Tabled(pb, mode, s)
  {
    SoundIsTabled(pb, mode, s);
  }

  lemma LookKeeps(pb: Problem, mode: Mode, s: Search, e: Edge)
    requires Sound(pb, mode, s) && Unseen(pb, s.b, e)
    ensures Sound(pb, mode, LookAt(pb, mode, s, e)) && CanScan(pb, s.b, e)
  {
    ScanInv(pb, s.b, e);
    Verdict(pb, mode, s.b, e, s.best);
  }

  lemma LookMakesDue(pb: Problem, mode: Mode, s: Search, e: Edge, r: Run)
    requires Sound(pb, mode, s) && Unseen(pb, s.b, e)
    ensures var t := LookAt(pb, mode, s, e);
      Due(pb, mode, t.b, r) == Due(pb, mode, s.b, r) +
        if Solution(pb, mode, s.b, e, s.best) then multiset(NewRuns(t.b, e))[r] else 0
  {
    Verdict(pb, mode, s.b, e, s.best);
    ScanExpected(pb, s.b, e, r);
    if Linked(s.b, e) {
      NewRunsCount(pb, s.b, e, r);
    }
  }

  /** A silent stretch keeps the invariant, and nothing becomes due. */
  lemma {:induction false} SilentKeeps(pb: Problem, mode: Mode, s: Search, es: seq<Edge>)
    requires Sound(pb, mode, s) && Silent(pb, mode, s, es)
    ensures Sound(pb, mode, After(pb, mode, s, es))
    ensures forall r {:trigger Due(pb, mode, s.b, r)} {:trigger Due(pb, mode, After(pb, mode, s, es).b, r)} ::
              Due(pb, mode, After(pb, mode, s, es).b, r) == Due(pb, mode, s.b, r)
  {
    if es != [] {
      var m, e := After(pb, mode, s, es[..|es| - 1]), es[|es| - 1];
      SilentKeeps(pb, mode, s, es[..|es| - 1]);
      LookKeeps(pb, mode, m, e);
      forall r ensures Due(pb, mode, After(pb, mode, s, es).b, r) == Due(pb, mode, s.b, r) {
        LookMakesDue(pb, mode, m, e, r);
        assert Due(pb, mode, m.b, r) == Due(pb, mode, s.b, r);
      }
    }
  }

  /** The produced and the pending runs are, with multiplicities, the runs that are due. */
  ghost predicate Balanced(pb: Problem, mode: Mode, b: Bfs, produced: seq<Run>, pending: seq<Run>) {
    forall r {:trigger Due(pb, mode, b, r)} :: multiset(produced)[r] + multiset(pending)[r] == Due(pb, mode, b, r)
  }

  /** Edge `e` completed a solution at the end of a silent stretch. */
  ghost predicate Completes(pb: Problem, mode: Mode, s: Search, es: seq<Edge>, e: Edge, t: Search) {
    var m := After(pb, mode, s, es);
    Silent(pb, mode, s, es) && Unseen(pb, m.b, e) && Solution(pb, mode, m.b, e, m.best) && t == LookAt(pb, mode, m, e)
  }

  ghost predicate NewestLink(b: Bfs, e: Edge) {
    && e.to in b.dist && e.from in b.dist && e.to in b.links && b.dist[e.to] == b.dist[e.from] + 1
    && b.links[e.to] != [] && b.links[e.to][|b.links[e.to]| - 1] == e
  }

  lemma CompletedKeeps(pb: Problem, mode: Mode, s: Search, es: seq<Edge>, e: Edge, t: Search, produced: seq<Run>)
    requires Sound(pb, mode, s) && Completes(pb, mode, s, es, e, t) && Balanced(pb, mode, s.b, produced, [])
    ensures Sound(pb, mode, t) && NewestLink(t.b, e) && Balanced(pb, mode, t.b, produced, NewRuns(t.b, e))
  {
    hide Sound, Due, NewRuns, Solution;
    var m := After(pb, mode, s, es);
    SilentKeeps(pb, mode, s, es);
    LookKeeps(pb, mode, m, e);
    CompletedIsNewest(pb, mode, m, e);
    forall r ensures multiset(produced)[r] + multiset(NewRuns(t.b, e))[r] == Due(pb, mode, t.b, r) {
      LookMakesDue(pb, mode, m, e, r);
      assert Due(pb, mode, m.b, r) == Due(pb, mode, s.b, r);
    }
  }

  lemma CompletedIsNewest(pb: Problem, mode: Mode, m: Search, e: Edge)
    requires Sound(pb, mode, m) && Unseen(pb, m.b, e) && Solution(pb, mode, m.b, e, m.best)
    ensures NewestLink(LookAt(pb, mode, m, e).b, e)
  {
  }

  lemma SilenceKeeps(pb: Problem, mode: Mode, s: Search, es: seq<Edge>, produced: seq<Run>)
    requires Sound(pb, mode, s) && Silent(pb, mode, s, es) && Balanced(pb, mode, s.b, produced, [])
    ensures var t := After(pb, mode, s, es); Sound(pb, mode, t) && Balanced(pb, mode, t.b, produced, [])
  {
    SilentKeeps(pb, mode, s, es);
    forall r ensures multiset(produced)[r] == Due(pb, mode, After(pb, mode, s, es).b, r) {
      assert Due(pb, mode, s.b, r) == multiset(produced)[r];
    }
  }

  lemma PopKeeps(pb: Problem, mode: Mode, s: Search, produced: seq<Run>)
    requires Sound(pb, mode, s) && s.b.open != [] && Balanced(pb, mode, s.b, produced, [])
    requires forall e :: pb.IsEdge(e) && e.from == s.b.open[0] ==> Scanned(s.b, e)
    ensures var t := Search(Pop(s.b), s.best); Sound(pb, mode, t) && Balanced(pb, mode, t.b, produced, [])
  {
    var c := Pop(s.b);
    PopInv(pb, s.b);
    assert c.dist == s.b.dist && c.links == s.b.links;
    forall k ensures Answer(pb, c, k) <==> Answer(pb, s.b, k) {}
    forall r ensures Due(pb, mode, c, r) == Due(pb, mode, s.b, r) {}
    if !mode.OneFinal? {
      forall n | n in s.best ensures exists k :: FinalAt(pb, c, k, n, s.best[n]) {
        var k :| FinalAt(pb, s.b, k, n, s.best[n]);
        assert FinalAt(pb, c, k, n, s.best[n]);
      }
    }
  }

  /** No edge of the next front was looked at yet. */
  lemma PopLeavesFresh(pb: Problem, mode: Mode, s: Search)
    requires Sound(pb, mode, s) && |s.b.open| > 1
    ensures ScannedUpTo(pb, Pop(s.b), Pop(s.b).open[0], 0, 0)
  {
    var b := s.b;
    var u := b.open[1];
    assert Pop(b).open[0] == u && u != b.open[0];
    forall e | pb.IsEdge(e) && e.from == u ensures !Scanned(Pop(b), e) {
      assert u in b.open;
      assert Scanned(Pop(b), e) ==> Scanned(b, e);
    }
  }

  lemma AllScanned(pb: Problem, b: Bfs, u: Key)
    requires u.state < |pb.dfa.connections| && ScannedUpTo(pb, b, u, |pb.dfa.connections[u.state]|, 0)
    ensures forall e :: pb.IsEdge(e) && e.from == u ==> Scanned(b, e)
  {
  }

  lemma TakeKeeps(pb: Problem, mode: Mode, b: Bfs, produced: seq<Run>, r: Run, rest: seq<Run>)
    requires Balanced(pb, mode, b, produced, [r] + rest)
    ensures Balanced(pb, mode, b, produced + [r], rest)
  {
    forall x ensures multiset(produced + [r])[x] + multiset(rest)[x] == Due(pb, mode, b, x) {
      assert multiset([r] + rest)[x] == multiset([r])[x] + multiset(rest)[x];
      assert multiset(produced + [r])[x] == multiset(produced)[x] + multiset([r])[x];
    }
  }

  /** How the iteration starts: at the newest link, or at the first one below the start state. */
  lemma StartedRuns(b: Bfs, c: Cursors, e: Edge)
    requires Layered(b.dist, b.links) && NewestLink(b, e) && AllNull(b.dist, c)
    ensures var n, k := b.dist[e.to], e.to; var d := if n > 1 then c[k := |b.links[k]| - 1] else c;
      && Rest(b.links, d, n, k) == NewRuns(b, e)
      && Tidy(b.dist, b.links, d, n, k) && NullAbove(b.dist, d, n)
  {
    if b.dist[e.to] > 1 {
      StartAtNewest(b.dist, b.links, c, b.dist[e.to], e.to);
    } else {
      TidyBelow(b.dist, b.links, c, 1, e.to);
    }
  }

  lemma NewRunsExist(pb: Problem, b: Bfs, e: Edge)
    requires Layers(pb, b) && NewestLink(b, e)
    ensures NewRuns(b, e) != []
  {
    PathsNonEmpty(b.dist, b.links, b.dist[e.from], e.from);
    PathsNonEmpty(b.dist, b.links, b.dist[e.to], e.to);
  }

  lemma ScannedAreKnown(pb: Problem, mode: Mode, s: Search)
    requires Sound(pb, mode, s)
    ensures s.b.scanned <= pb.AllEdges()
  {
    var b := s.b;
    forall e | e in b.scanned ensures e in pb.AllEdges() {
      assert Scanned(b, e);
      pb.EdgeIsKnown(e);
    }
  }

  /** A stretch that scans nothing new is empty. */
  lemma {:induction false} SilentGrows(pb: Problem, mode: Mode, s: Search, es: seq<Edge>)
    requires Silent(pb, mode, s, es)
    ensures var t := After(pb, mode, s, es);
      s.b.scanned <= t.b.scanned && (t.b.scanned == s.b.scanned ==> t == s)
  {
    if es != [] {
      SilentGrows(pb, mode, s, es[..|es| - 1]);
    }
  }

  lemma CompletesGrows(pb: Problem, mode: Mode, s: Search, es: seq<Edge>, e: Edge, t: Search)
    requires Completes(pb, mode, s, es, e, t)
    ensures s.b.scanned < t.b.scanned
  {
    SilentGrows(pb, mode, s, es);
    var m := After(pb, mode, s, es);
    assert !Scanned(m.b, e) && Scanned(t.b, e);
  }

  // ----- the first call ------------------------------------------------------------------------

  function FirstBest(pb: Problem, mode: Mode): map<nat, nat> {
    if !mode.OneFinal? && pb.dfa.Final(pb.dfa.start) && Wanted(mode, pb.startNode) then map[pb.startNode := 0] else map[]
  }

  /** The empty run, when it is accepted and asked for. */
  function FirstRuns(pb: Problem, mode: Mode): seq<Run> {
    if pb.dfa.Final(pb.dfa.start) && Wanted(mode, pb.startNode) then [[]] else []
  }

  /** When the start state is final, the empty run is produced before the search goes on. */
  lemma InitialSound(pb: Problem, mode: Mode)
    requires pb.dfa.Valid() && Fits(pb, mode)
    ensures Sound(pb, mode, Search(Initial(pb), FirstBest(pb, mode)))
    ensures Balanced(pb, mode, Initial(pb), FirstRuns(pb, mode), [])
    ensures ScannedUpTo(pb, Initial(pb), pb.Start(), 0, 0)
  {
    var b, best, k := Initial(pb), FirstBest(pb, mode), pb.Start();
    InitialInv(pb);
    forall n | n in best ensures exists x :: FinalAt(pb, b, x, n, best[n]) {
      assert FinalAt(pb, b, k, n, best[n]);
    }
    forall r ensures multiset(FirstRuns(pb, mode))[r] == Due(pb, mode, b, r) {
      assert Answer(pb, b, k) <==> pb.dfa.Final(pb.dfa.start);
      if r != [] {
        assert LinkRun(pb, b.links, r) ==> IsLink(b.links, r[|r| - 1]);
      }
    }
  }

  // ----- what a finished search has produced -----------------------------------------------------

  /** Two different edges lead from the start state into one answer. */
  ghost predicate ParallelFirst(pb: Problem, e: Edge, f: Edge) {
    && e != f && pb.IsEdge(e) && pb.IsEdge(f)
    && e.from == pb.Start() && f.from == pb.Start() && e.to == f.to
    && pb.dfa.Final(e.to.state)
    && !(pb.dfa.Final(pb.dfa.start) && e.to.node == pb.startNode)
  }

  ghost predicate Complete(pb: Problem, mode: Mode, b: Bfs, produced: seq<Run>) {
    Inv(pb, b) && b.open == [] && Balanced(pb, mode, b, produced, [])
  }

  /** Exactly the shortest accepted runs are produced. */
  lemma ProducedRuns(pb: Problem, mode: Mode, b: Bfs, produced: seq<Run>, r: Run)
    requires Complete(pb, mode, b, produced)
    ensures r in produced <==> pb.ShortestAccepted(r) && Wanted(mode, pb.End(r).node)
    ensures |r| != 1 ==> multiset(produced)[r] <= 1
  {
    ExpectedAtEnd(pb, b, r);
    assert multiset(produced)[r] == Due(pb, mode, b, r);
    assert r in produced <==> multiset(produced)[r] > 0;
  }

  lemma {:induction false} NoDupByCount(s: seq<Run>)
    ensures NoDup(s) <==> forall r :: multiset(s)[r] <= 1
  {
    if s != [] {
      var front, last := s[..|s| - 1], s[|s| - 1];
      assert s == front + [last];
      NoDupByCount(front);
      assert NoDup(s) <==> NoDup(front) && last !in front;
      assert last in front <==> multiset(front)[last] > 0;
      forall r ensures multiset(s)[r] == multiset(front)[r] + if r == last then 1 else 0 {}
      assert multiset(s)[last] == multiset(front)[last] + 1;
    }
  }

  lemma SeveralLinks(pb: Problem, b: Bfs, k: Key)
    requires Inv(pb, b) && b.open == [] && k in b.dist && b.dist[k] == 1 && |b.links[k]| > 1 && Answer(pb, b, k)
    ensures exists e, f :: ParallelFirst(pb, e, f) && e.to == k
  {
    var e, f := b.links[k][0], b.links[k][1];
    LinkBelow(b.dist, b.links, k, 0);
    LinkBelow(b.dist, b.links, k, 1);
    assert IsLink(b.links, e) && IsLink(b.links, f);
    assert Scanned(b, e) && Scanned(b, f);
    assert b.dist[pb.Start()] == 0;
    assert ParallelFirst(pb, e, f);
  }

  lemma ParallelIsRepeated(pb: Problem, mode: Mode, b: Bfs, produced: seq<Run>, e: Edge, f: Edge)
    requires Complete(pb, mode, b, produced) && ParallelFirst(pb, e, f) && Wanted(mode, e.to.node)
    ensures exists r :: multiset(produced)[r] > 1
  {
    var k := e.to;
    assert Scanned(b, e) && Scanned(b, f);
    assert b.dist[k] == 1;
    assert IsLink(b.links, e) && IsLink(b.links, f);
    assert |b.links[k]| > 1;
    assert Answer(pb, b, k) by {
      forall x | x in b.dist && pb.dfa.Final(x.state) && x.node == k.node ensures 1 <= b.dist[x] {}
    }
    var g := b.links[k][0];
    LinkBelow(b.dist, b.links, k, 0);
    assert IsLink(b.links, g);
    var r := [g];
    assert r[..0] == [] && LinkRun(pb, b.links, r) && pb.End(r) == k;
    assert IndexOf(b.links[k], g) == 0;
    assert Due(pb, mode, b, r) == |b.links[k]|;
  }

  /** No run is produced twice exactly when no two edges lead from the start state into one
      answer. */
  lemma ProducedOnce(pb: Problem, mode: Mode, b: Bfs, produced: seq<Run>)
    requires Complete(pb, mode, b, produced)
    ensures NoDup(produced) <==> !exists e, f :: ParallelFirst(pb, e, f) && Wanted(mode, e.to.node)
  {
    NoDupByCount(produced);
    if e, f :| ParallelFirst(pb, e, f) && Wanted(mode, e.to.node) {
      ParallelIsRepeated(pb, mode, b, produced, e, f);
    } else {
      forall r ensures multiset(produced)[r] <= 1 {
        var k := pb.End(r);
        assert multiset(produced)[r] == Due(pb, mode, b, r);
        if Due(pb, mode, b, r) > 1 {
          LinkRunLength(pb, b, r);
          SeveralLinks(pb, b, k);
        }
      }
    }
  }

  /** Two edges of one type from the start node to another one, and an automaton that takes one of
      them: two edges lead from the start state into one answer. */
  lemma ParallelEdgesExist()
    ensures var pb := TwoRoads();
      pb.dfa.Valid() && pb.dfa.AtMostOneFinal() &&
      exists e, f :: ParallelFirst(pb, e, f)
  {
    var e, f := Edge(Key(0, 0), 0, 0, Key(1, 1)), Edge(Key(0, 0), 0, 1, Key(1, 1));
    assert ParallelFirst(TwoRoads(), e, f);
  }

  function TwoRoads(): Problem {
    Problem(Graph({0, 1}, [StoredEdge(0, 7, 1), StoredEdge(0, 7, 1)]),
            Dfa(0, [false, true], [[Transition(1, 7, false)], []]), 0)
  }
}
