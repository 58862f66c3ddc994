/** The search space of a regular path query: the product of an edge-labelled graph and a
    deterministic automaton.  A run is a sequence of edge occurrences, so two parallel edges
    give two different runs. */
module ProductGraph {

  datatype Transition = Transition(to: nat, typeId: nat, inverse: bool)

  /** The query automaton: `connections[q]` lists the transitions that leave state `q`. */
  datatype Dfa = Dfa(start: nat, isFinal: seq<bool>, connections: seq<seq<Transition>>) {

    predicate Valid() {
      && |isFinal| == |connections|
      && start < |connections|
      && forall q, t :: 0 <= q < |connections| && 0 <= t < |connections[q]| ==> connections[q][t].to < |connections|
    }

    predicate Final(q: nat) {
      q < |isFinal| && isFinal[q]
    }

    predicate AtMostOneFinal() {
      forall p, q :: 0 <= p < |isFinal| && 0 <= q < |isFinal| && isFinal[p] && isFinal[q] ==> p == q
    }
  }

  /** An edge of the graph as it is stored. */
  datatype StoredEdge = StoredEdge(from: nat, typeId: nat, to: nat)

  /** The stored graph, and what the index provider answers about it: which nodes exist, and the
      neighbours of a node through one edge type in one direction, in ascending order, with one entry
      for every edge. */
  datatype Graph = Graph(nodes: set<nat>, edges: seq<StoredEdge>) {

    function Neighbors(typeId: nat, inverse: bool, node: nat): seq<nat> {
      if inverse then Sources(edges, typeId, node) else Targets(edges, typeId, node)
    }
  }

  function Placed(x: nat, s: seq<nat>): seq<nat> {
    if s == [] || x <= s[0] then [x] + s else [s[0]] + Placed(x, s[1..])
  }

  /** Where the edges of a type lead from a node. */
  function Targets(edges: seq<StoredEdge>, typeId: nat, node: nat): seq<nat> {
    if edges == [] then []
    else if edges[0].typeId == typeId && edges[0].from == node then Placed(edges[0].to, Targets(edges[1..], typeId, node))
    else Targets(edges[1..], typeId, node)
  }

  /** Where the edges of a type come from that lead to a node. */
  function Sources(edges: seq<StoredEdge>, typeId: nat, node: nat): seq<nat> {
    if edges == [] then []
    else if edges[0].typeId == typeId && edges[0].to == node then Placed(edges[0].from, Sources(edges[1..], typeId, node))
    else Sources(edges[1..], typeId, node)
  }

  ghost predicate Climbing(s: seq<nat>) {
    forall i, j :: 0 <= i < j < |s| ==> s[i] <= s[j]
  }

  lemma {:induction false} PlacedHas(x: nat, s: seq<nat>)
    ensures multiset(Placed(x, s)) == multiset(s) + multiset{x}
  {
    if s == [] || x <= s[0] {
    } else {
      PlacedHas(x, s[1..]);
      assert s == [s[0]] + s[1..];
    }
  }

  lemma {:induction false} PlacedClimbs(x: nat, s: seq<nat>)
    requires Climbing(s)
    ensures Climbing(Placed(x, s))
  {
    if s == [] || x <= s[0] {
    } else {
      var rest := Placed(x, s[1..]);
      PlacedClimbs(x, s[1..]);
      PlacedHas(x, s[1..]);
      forall i | 0 <= i < |rest| ensures s[0] <= rest[i] {
        assert rest[i] in multiset(rest);
      }
    }
  }

  lemma Counted<T>(s: seq<T>, x: T)
    requires s != []
    ensures multiset(s)[x] == (if s[0] == x then 1 else 0) + multiset(s[1..])[x]
  {
    assert s == [s[0]] + s[1..];
  }

  /** A node occurs among the neighbours as often as there is a stored edge to it. */
  lemma {:induction false} TargetsAreStored(edges: seq<StoredEdge>, typeId: nat, node: nat, other: nat)
    ensures multiset(Targets(edges, typeId, node))[other] == multiset(edges)[StoredEdge(node, typeId, other)]
  {
    hide Placed;
    if edges == [] {
    } else {
      TargetsAreStored(edges[1..], typeId, node, other);
      Counted(edges, StoredEdge(node, typeId, other));
      PlacedHas(edges[0].to, Targets(edges[1..], typeId, node));
    }
  }

  /** In the inverse direction, as often as there is a stored edge from it. */
  lemma {:induction false} SourcesAreStored(edges: seq<StoredEdge>, typeId: nat, node: nat, other: nat)
    ensures multiset(Sources(edges, typeId, node))[other] == multiset(edges)[StoredEdge(other, typeId, node)]
  {
    hide Placed;
    if edges == [] {
    } else {
      SourcesAreStored(edges[1..], typeId, node, other);
      Counted(edges, StoredEdge(other, typeId, node));
      PlacedHas(edges[0].from, Sources(edges[1..], typeId, node));
    }
  }

  /** They come in the order in which the two indexes keep them. */
  lemma {:induction false} NeighborsClimb(edges: seq<StoredEdge>, typeId: nat, node: nat)
    ensures Climbing(Targets(edges, typeId, node)) && Climbing(Sources(edges, typeId, node))
  {
    hide Placed;
    if edges == [] {
    } else {
      NeighborsClimb(edges[1..], typeId, node);
      PlacedClimbs(edges[0].to, Targets(edges[1..], typeId, node));
      PlacedClimbs(edges[0].from, Sources(edges[1..], typeId, node));
    }
  }

  /** The neighbours through a transition: a node is one of them as often as its edge is stored in the
      direction of the transition, and they come in ascending order. */
  lemma NeighborsAreStored(graph: Graph, typeId: nat, inverse: bool, node: nat, other: nat)
    ensures multiset(graph.Neighbors(typeId, inverse, node))[other] ==
              multiset(graph.edges)[if inverse then StoredEdge(other, typeId, node) else StoredEdge(node, typeId, other)]
    ensures other in graph.Neighbors(typeId, inverse, node) <==>
              (if inverse then StoredEdge(other, typeId, node) else StoredEdge(node, typeId, other)) in graph.edges
    ensures var ns := graph.Neighbors(typeId, inverse, node);
            forall i, j :: 0 <= i < j < |ns| ==> ns[i] <= ns[j]
  {
    hide Targets, Sources;
    TargetsAreStored(graph.edges, typeId, node, other);
    SourcesAreStored(graph.edges, typeId, node, other);
    NeighborsClimb(graph.edges, typeId, node);
    var ns, e := graph.Neighbors(typeId, inverse, node), if inverse then StoredEdge(other, typeId, node) else StoredEdge(node, typeId, other);
    assert other in ns <==> other in multiset(ns);
    assert e in graph.edges <==> e in multiset(graph.edges);
  }

  /** A state of the product: a graph node paired with an automaton state. */
  datatype Key = Key(node: nat, state: nat)

  /** One occurrence of an edge: the `i`-th neighbour through the `t`-th transition of `from`. */
  datatype Edge = Edge(from: Key, t: nat, i: nat, to: Key)

  type Run = seq<Edge>

  datatype Problem = Problem(graph: Graph, dfa: Dfa, startNode: nat) {

    function Start(): Key {
      Key(startNode, dfa.start)
    }

    function Label(e: Edge): Transition
      requires e.from.state < |dfa.connections| && e.t < |dfa.connections[e.from.state]|
    {
      dfa.connections[e.from.state][e.t]
    }

    predicate IsEdge(e: Edge) {
      && e.from.state < |dfa.connections|
      && e.t < |dfa.connections[e.from.state]|
      && var l := Label(e);
      && var ns := graph.Neighbors(l.typeId, l.inverse, e.from.node);
      && e.i < |ns|
      && e.to == Key(ns[e.i], l.to)
    }

    function End(r: Run): Key {
      if r == [] then Start() else r[|r| - 1].to
    }

    predicate IsRun(r: Run) {
      r != [] ==>
        var front, last := r[..|r| - 1], r[|r| - 1];
        IsEdge(last) && last.from == End(front) && IsRun(front)
    }

    predicate Accepted(r: Run) {
      IsRun(r) && dfa.Final(End(r).state)
    }

    /** No accepted run ends in the same node and is shorter. */
    ghost predicate ShortestAccepted(r: Run) {
      && Accepted(r)
      && forall s :: Accepted(s) && End(s).node == End(r).node ==> |r| <= |s|
    }

    /** Every node a search can meet. */
    ghost function Nodes(): set<nat> {
      {startNode} + (set e | e in graph.edges :: e.from) + (set e | e in graph.edges :: e.to)
    }

    /** Every edge occurrence a search can meet. */
    ghost function AllEdges(): set<Edge> {
      set n, q: nat, t: nat, i: nat |
        n in Nodes() && 0 <= q < |dfa.connections| && 0 <= t < |dfa.connections[q]|
        && 0 <= i < |graph.Neighbors(dfa.connections[q][t].typeId, dfa.connections[q][t].inverse, n)|
        :: Edge(Key(n, q), t, i,
                Key(graph.Neighbors(dfa.connections[q][t].typeId, dfa.connections[q][t].inverse, n)[i],
                    dfa.connections[q][t].to))
    }

    lemma EdgeIsKnown(e: Edge)
      requires IsEdge(e) && e.from.node in Nodes()
      ensures e in AllEdges() && e.to.node in Nodes()
    {
      var l := Label(e);
      NeighborsAreStored(graph, l.typeId, l.inverse, e.from.node, e.to.node);
    }
  }
}
