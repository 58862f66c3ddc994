/** The search of the product said again over the stored edges alone: a walk follows stored edges, each
    in the direction its transition asks for.  Runs are the walks with every edge picked out of the
    neighbours of a lookup. */
module StoredWalks {
  import opened ProductGraph
  import opened BreadthFirst

  /** A step through the `t`-th transition of a state. */
  datatype Hop = Hop(from: Key, t: nat, to: Key)

  ghost predicate Steps(pb: Problem, h: Hop) {
    && h.from.state < |pb.dfa.connections| && h.t < |pb.dfa.connections[h.from.state]|
    && var via := pb.dfa.connections[h.from.state][h.t];
    && h.to.state == via.to
    && (if via.inverse then StoredEdge(h.to.node, via.typeId, h.from.node)
        else StoredEdge(h.from.node, via.typeId, h.to.node)) in pb.graph.edges
  }

  function Ends(pb: Problem, w: seq<Hop>): Key {
    if |w| == 0 then Key(pb.startNode, pb.dfa.start) else w[|w| - 1].to
  }

  ghost predicate Walk(pb: Problem, w: seq<Hop>) {
    forall k :: 0 <= k < |w| ==> Steps(pb, w[k]) && w[k].from == Ends(pb, w[..k])
  }

  ghost predicate Arrives(pb: Problem, w: seq<Hop>) {
    Walk(pb, w) && Ends(pb, w).state < |pb.dfa.isFinal| && pb.dfa.isFinal[Ends(pb, w).state]
  }

  /** No walk that ends in a final state at the same node is shorter. */
  ghost predicate ShortestWalk(pb: Problem, w: seq<Hop>) {
    Arrives(pb, w) && forall v :: Arrives(pb, v) && Ends(pb, v).node == Ends(pb, w).node ==> |w| <= |v|
  }

  function HopOf(e: Edge): Hop {
    Hop(e.from, e.t, e.to)
  }

  function Hops(r: Run): seq<Hop> {
    seq(|r|, k requires 0 <= k < |r| => HopOf(r[k]))
  }

  /** One of the runs takes these steps. */
  ghost predicate Followed(produced: seq<Run>, w: seq<Hop>) {
    exists r :: r in produced && Hops(r) == w
  }

  /** An edge occurrence steps along a stored edge in the direction of its transition. */
  lemma EdgeSteps(pb: Problem, e: Edge)
    requires pb.IsEdge(e)
    ensures Steps(pb, HopOf(e))
  {
    var l := pb.Label(e);
    NeighborsAreStored(pb.graph, l.typeId, l.inverse, e.from.node, e.to.node);
  }

  lemma StepHasEdge(pb: Problem, h: Hop) returns (e: Edge)
    requires Steps(pb, h)
    ensures pb.IsEdge(e) && HopOf(e) == h
  {
    var via := pb.dfa.connections[h.from.state][h.t];
    NeighborsAreStored(pb.graph, via.typeId, via.inverse, h.from.node, h.to.node);
    var ns := pb.graph.Neighbors(via.typeId, via.inverse, h.from.node);
    var i :| 0 <= i < |ns| && ns[i] == h.to.node;
    e := Edge(h.from, h.t, i, h.to);
  }

  lemma {:induction false} RunWalks(pb: Problem, r: Run)
    requires pb.IsRun(r)
    ensures Walk(pb, Hops(r)) && Ends(pb, Hops(r)) == pb.End(r)
  {
    hide Steps, Problem.IsEdge;
    if r == [] {
    } else {
      var front, last := r[..|r| - 1], r[|r| - 1];
      RunWalks(pb, front);
      EdgeSteps(pb, last);
      assert Hops(r) == Hops(front) + [HopOf(last)];
      WalkOn(pb, Hops(front), HopOf(last));
    }
  }

  lemma WalkOn(pb: Problem, w: seq<Hop>, h: Hop)
    ensures Walk(pb, w + [h]) <==> Walk(pb, w) && Steps(pb, h) && h.from == Ends(pb, w)
  {
    hide Steps, Ends;
    var more := w + [h];
    assert more[..|w|] == w && more[|w|] == h;
    assert forall k :: 0 <= k < |w| ==> more[k] == w[k] && more[..k] == w[..k];
    if Walk(pb, more) {
      assert Steps(pb, more[|w|]);
      forall k | 0 <= k < |w| ensures Steps(pb, w[k]) && w[k].from == Ends(pb, w[..k]) {
        assert Steps(pb, more[k]);
      }
    }
  }

  lemma {:induction false} WalkHasRun(pb: Problem, w: seq<Hop>) returns (r: Run)
    requires Walk(pb, w)
    ensures pb.IsRun(r) && Hops(r) == w && pb.End(r) == Ends(pb, w)
  {
    hide Steps, Problem.IsEdge;
    if w == [] {
      r := [];
    } else {
      var front, last := w[..|w| - 1], w[|w| - 1];
      assert w == front + [last];
      WalkOn(pb, front, last);
      var s := WalkHasRun(pb, front);
      var e := StepHasEdge(pb, last);
      r := s + [e];
      assert r[..|r| - 1] == s;
      assert Hops(r) == Hops(s) + [HopOf(e)];
    }
  }

  /** A run is a shortest accepted one exactly when its steps are a shortest walk. */
  lemma ShortestIsShortest(pb: Problem, r: Run)
    requires pb.IsRun(r)
    ensures pb.ShortestAccepted(r) <==> ShortestWalk(pb, Hops(r))
  {
    hide Walk, Problem.IsRun;
    RunWalks(pb, r);
    if pb.ShortestAccepted(r) {
      forall v | Arrives(pb, v) && Ends(pb, v).node == pb.End(r).node ensures |r| <= |v| {
        var s := WalkHasRun(pb, v);
      }
    }
    if ShortestWalk(pb, Hops(r)) {
      forall s | pb.Accepted(s) && pb.End(s).node == pb.End(r).node ensures |r| <= |s| {
        RunWalks(pb, s);
        assert Arrives(pb, Hops(s));
      }
    }
  }

  /** What is produced, walk by walk. */
  lemma ProducedWalks(pb: Problem, mode: Mode, produced: seq<Run>)
    requires forall r :: r in produced <==> pb.ShortestAccepted(r) && Wanted(mode, pb.End(r).node)
    ensures forall w :: Followed(produced, w) <==>
              ShortestWalk(pb, w) && (mode.Target? ==> Ends(pb, w).node == mode.node)
  {
    hide Walk, Problem.IsRun, ShortestWalk, Hops, Problem.ShortestAccepted, Ends, Problem.End;
    forall w ensures Followed(produced, w) <==>
                       ShortestWalk(pb, w) && (mode.Target? ==> Ends(pb, w).node == mode.node) {
      if r :| r in produced && Hops(r) == w {
        ShortestRuns(pb, r);
      }
      if ShortestWalk(pb, w) && (mode.Target? ==> Ends(pb, w).node == mode.node) {
        var r := ShortestRun(pb, w);
        assert r in produced;
      }
    }
  }

  lemma ShortestRuns(pb: Problem, r: Run)
    requires pb.ShortestAccepted(r)
    ensures ShortestWalk(pb, Hops(r)) && Ends(pb, Hops(r)) == pb.End(r)
  {
    RunWalks(pb, r);
    ShortestIsShortest(pb, r);
  }

  lemma ShortestRun(pb: Problem, w: seq<Hop>) returns (r: Run)
    requires ShortestWalk(pb, w)
    ensures pb.ShortestAccepted(r) && Hops(r) == w && pb.End(r) == Ends(pb, w)
  {
    r := WalkHasRun(pb, w);
    ShortestIsShortest(pb, r);
  }

  /** Each step of a run, spelled out. */
  lemma StepsAreStored(pb: Problem, r: Run, k: nat)
    requires pb.IsRun(r) && k < |r|
    ensures var e := r[k];
      && e.from == (if k == 0 then Key(pb.startNode, pb.dfa.start) else r[k - 1].to)
      && e.from.state < |pb.dfa.connections| && e.t < |pb.dfa.connections[e.from.state]|
      && var via := pb.dfa.connections[e.from.state][e.t];
      && e.to.state == via.to
      && (if via.inverse then StoredEdge(e.to.node, via.typeId, e.from.node)
          else StoredEdge(e.from.node, via.typeId, e.to.node)) in pb.graph.edges
  {
    RunWalks(pb, r);
    assert Steps(pb, Hops(r)[k]);
    assert Hops(r)[k].from == Ends(pb, Hops(r)[..k]);
  }

  /** All of a finished search, in terms of the stored edges. */
  lemma ProducedIsStored(pb: Problem, mode: Mode, produced: seq<Run>)
    requires forall r :: r in produced <==>
               pb.startNode in pb.graph.nodes && pb.ShortestAccepted(r) && Wanted(mode, pb.End(r).node)
    ensures forall r: Run, k {:trigger r in produced, r[k]} :: r in produced && 0 <= k < |r| ==>
              var e := r[k];
              && e.from == (if k == 0 then Key(pb.startNode, pb.dfa.start) else r[k - 1].to)
              && e.from.state < |pb.dfa.connections| && e.t < |pb.dfa.connections[e.from.state]|
              && var via := pb.dfa.connections[e.from.state][e.t];
              && e.to.state == via.to
              && (if via.inverse then StoredEdge(e.to.node, via.typeId, e.from.node)
                  else StoredEdge(e.from.node, via.typeId, e.to.node)) in pb.graph.edges
    ensures forall w :: Followed(produced, w) <==>
              && pb.startNode in pb.graph.nodes && ShortestWalk(pb, w)
              && (mode.Target? ==> Ends(pb, w).node == mode.node)
  {
    hide Problem.IsRun, ShortestWalk, Hops, Ends, Problem.End;
    forall r: Run, k {:trigger r in produced, r[k]} | r in produced && 0 <= k < |r|
      ensures var e := r[k];
        && e.from == (if k == 0 then Key(pb.startNode, pb.dfa.start) else r[k - 1].to)
        && e.from.state < |pb.dfa.connections| && e.t < |pb.dfa.connections[e.from.state]|
        && var via := pb.dfa.connections[e.from.state][e.t];
        && e.to.state == via.to
        && (if via.inverse then StoredEdge(e.to.node, via.typeId, e.from.node)
            else StoredEdge(e.from.node, via.typeId, e.to.node)) in pb.graph.edges
    {
      StepsAreStored(pb, r, k);
    }
    if pb.startNode in pb.graph.nodes {
      ProducedWalks(pb, mode, produced);
    } else {
      assert forall r :: r !in produced;
    }
  }
}
