/** The visited states of an all-shortest search.  Each state owns the list of its optimal
    incoming transitions and one cursor into that list; the cursors are shared by every state
    that is reached through it. */
module SearchStates {
  import opened ProductGraph
  import opened PathEnumeration

  datatype IterTransition = IterTransition(previous: SearchState, inverse: bool, typeId: nat)

  type Visited = map<Key, SearchState>

  /** The objects stand for these distances, edge occurrences and cursors. */
  ghost predicate Represents(pb: Problem, g: Visited, dist: Distances, links: Links, c: Cursors)
    reads g.Values
  {
    && g.Keys == dist.Keys == links.Keys == c.Keys
    && forall k {:trigger g[k].Is(pb, g, k, dist[k], links[k], c[k])} :: k in g ==> g[k].Is(pb, g, k, dist[k], links[k], c[k])
  }

  ghost predicate Labelled(pb: Problem, e: Edge, typeId: nat, inverse: bool) {
    pb.IsEdge(e) && typeId == pb.Label(e).typeId && inverse == pb.Label(e).inverse
  }

  ghost function KeysOf(states: seq<SearchState>): (keys: seq<Key>)
    ensures |keys| == |states| && forall i :: 0 <= i < |states| ==> keys[i] == states[i].Key()
  {
    seq(|states|, i requires 0 <= i < |states| => states[i].Key())
  }

  /** A new state does not disturb the others. */
  lemma RepresentsMore(pb: Problem, g: Visited, dist: Distances, links: Links, c: Cursors, s: SearchState, edges: seq<Edge>)
    requires Represents(pb, g, dist, links, c) && s.Key() !in g
    requires s.Is(pb, g, s.Key(), s.distance, edges, s.current)
    ensures var k := s.Key();
      Represents(pb, g[k := s], dist[k := s.distance], links[k := edges], c[k := s.current])
  {
    var h := g[s.Key() := s];
    forall k | k in g ensures g[k].Is(pb, h, k, dist[k], links[k], c[k]) {
      assert g[k].Is(pb, g, k, dist[k], links[k], c[k]);
    }
    assert s.Is(pb, h, s.Key(), s.distance, edges, s.current);
  }

  class SearchState {
    const node: nat
    const automatonState: nat
    const distance: nat

    // the list from `begin` to `end`, and `current` as an index into it (-1 for null)
    var transitions: seq<IterTransition>
    var current: int

    function Key(): Key {
      ProductGraph.Key.Key(node, automatonState)
    }

    /** Each transition is the record of one edge occurrence. */
    ghost predicate Records(pb: Problem, g: Visited, e: Edge, t: IterTransition) {
      && e.from in g && pb.IsEdge(e)
      && t == IterTransition(g[e.from], pb.Label(e).inverse, pb.Label(e).typeId)
    }

    ghost predicate Is(pb: Problem, g: Visited, k: Key, d: nat, edges: seq<Edge>, cursor: int)
      reads this
    {
      && Key() == k && distance == d
      && |transitions| == |edges| && current == cursor && -1 <= cursor < |edges|
      && forall j {:trigger edges[j]} {:trigger transitions[j]} :: 0 <= j < |edges| ==> Records(pb, g, edges[j], transitions[j])
    }

    constructor (node: nat, automatonState: nat, distance: nat)
      ensures this.node == node && this.automatonState == automatonState && this.distance == distance
      ensures transitions == [] && current == -1
    {
      this.node, this.automatonState, this.distance := node, automatonState, distance;
      transitions, current := [], -1;
    }

    constructor Reached(node: nat, automatonState: nat, distance: nat, previous: SearchState, via: Transition)
      ensures this.node == node && this.automatonState == automatonState && this.distance == distance
      ensures transitions == [IterTransition(previous, via.inverse, via.typeId)] && current == -1
    {
      this.node, this.automatonState, this.distance := node, automatonState, distance;
      transitions, current := [IterTransition(previous, via.inverse, via.typeId)], -1;
    }

    ghost predicate In(pb: Problem, g: Visited, dist: Distances, links: Links, c: Cursors)
      reads g.Values
    {
      && Represents(pb, g, dist, links, c) && Key() in g && g[Key()] == this
      && Key() in dist && Key() in links && Key() in c
      && Is(pb, g, Key(), dist[Key()], links[Key()], c[Key()])
    }

    /** Appends the record of edge `e` to the list. */
    method Add(previous: SearchState, via: Transition, ghost pb: Problem, ghost g: Visited, ghost dist: Distances, ghost links: Links, ghost c: Cursors, ghost e: Edge)
      requires In(pb, g, dist, links, c) && pb.IsEdge(e) && e.from in g && g[e.from] == previous && via == pb.Label(e)
      modifies this`transitions
      ensures In(pb, g, dist, links[Key() := links[Key()] + [e]], c)
    {
      transitions := transitions + [IterTransition(previous, via.inverse, via.typeId)];
      forall k | k in g && k != Key() ensures g[k].Is(pb, g, k, dist[k], links[k], c[k]) {
        assert old(g[k].Is(pb, g, k, dist[k], links[k], c[k]));
      }
    }

    lemma PreviousIsBelow(pb: Problem, g: Visited, dist: Distances, links: Links, c: Cursors, j: nat)
      requires In(pb, g, dist, links, c) && Layered(dist, links) && j < |transitions|
      ensures |links[Key()]| == |transitions| && distance == dist[Key()] > 0
      ensures var p := transitions[j].previous;
        && p.Key() == links[Key()][j].from && p.In(pb, g, dist, links, c) && p.distance + 1 == distance
    {
      LinkBelow(dist, links, Key(), j);
      var from := links[Key()][j].from;
      assert g[from].Is(pb, g, from, dist[from], links[from], c[from]);
    }

    lemma CurrentLink(pb: Problem, g: Visited, dist: Distances, links: Links, c: Cursors)
      requires In(pb, g, dist, links, c) && current != -1
      ensures 0 <= current < |transitions| == |links[Key()]| && current == c[Key()]
      ensures var t := transitions[current]; Labelled(pb, links[Key()][current], t.typeId, t.inverse)
    {
      assert Records(pb, g, links[Key()][current], transitions[current]);
    }

    lemma NoMore(pb: Problem, g: Visited, dist: Distances, links: Links, c: Cursors)
      requires In(pb, g, dist, links, c) && current == -1
      ensures Chain(links, c, distance, Key()) == []
    {
      assert c[Key()] == -1;
    }

    /** Points `current` at link `j`, or at nothing. */
    method SetCurrent(ghost pb: Problem, ghost g: Visited, ghost dist: Distances, ghost links: Links, ghost c: Cursors, j: int)
      requires In(pb, g, dist, links, c) && -1 <= j < |transitions|
      modifies this`current
      ensures In(pb, g, dist, links, c[Key() := j])
    {
      current := j;
      forall k | k in g && k != Key() ensures g[k].Is(pb, g, k, dist[k], links[k], c[k]) {
        assert old(g[k].Is(pb, g, k, dist[k], links[k], c[k]));
      }
    }

    /** Points at link `j` and takes the first run of the state it comes from. */
    method StartAt(ghost pb: Problem, ghost g: Visited, ghost dist: Distances, ghost links: Links, ghost c: Cursors, j: nat)
      requires In(pb, g, dist, links, c) && Layered(dist, links) && distance > 0 && j < |transitions| == |links[Key()]|
      modifies g.Values`current
      ensures Represents(pb, g, dist, links, StartLink(links, c, distance, Key(), j))
      decreases distance, 0
    {
      var p := transitions[j].previous;
      PreviousIsBelow(pb, g, dist, links, c, j);
      SetCurrent(pb, g, dist, links, c, j);
      var _ := p.Next(pb, g, dist, links, c[Key() := j]);
    }

    /** The runs through the current link are used up: go to the next link, if there is one. */
    method LeaveLink(ghost pb: Problem, ghost g: Visited, ghost dist: Distances, ghost links: Links, ghost c: Cursors)
      returns (more: bool)
      requires In(pb, g, dist, links, c) && Layered(dist, links) && distance > 0 && current >= 0
      modifies g.Values`current
      ensures var (m, d) := NextLink(links, c, distance, Key());
        more == m && Represents(pb, g, dist, links, d)
      decreases distance, 1
    {
      more := current + 1 < |transitions|;
      if more {
        StartAt(pb, g, dist, links, c, current + 1);
      } else {
        SetCurrent(pb, g, dist, links, c, -1);
      }
    }

    /** Moves on inside the state the current link comes from, or else leaves the link. */
    method Continue(ghost pb: Problem, ghost g: Visited, ghost dist: Distances, ghost links: Links, ghost c: Cursors)
      returns (more: bool)
      requires In(pb, g, dist, links, c) && Layered(dist, links) && distance > 0 && current >= 0
      modifies g.Values`current
      ensures var (m, d) := MoveOn(links, c, distance, Key());
        more == m && Represents(pb, g, dist, links, d)
      decreases distance, 2
    {
      hide Layered, Advance, NextLink;
      var p := transitions[current].previous;
      PreviousIsBelow(pb, g, dist, links, c, current);
      AdvanceKeepsAbove(dist, links, c, p.distance, p.Key(), Key());
      ghost var d := Advance(links, c, p.distance, p.Key()).1;
      more := p.Next(pb, g, dist, links, c);
      if !more {
        assert g[Key()].Is(pb, g, Key(), dist[Key()], links[Key()], d[Key()]);
        more := LeaveLink(pb, g, dist, links, d);
      }
    }

    /** Steps to the next run that ends here, and says whether there is one. */
    method Next(ghost pb: Problem, ghost g: Visited, ghost dist: Distances, ghost links: Links, ghost c: Cursors) returns (more: bool)
      requires In(pb, g, dist, links, c) && Layered(dist, links)
      modifies g.Values`current
      ensures var (m, d) := Advance(links, c, distance, Key());
        more == m && Represents(pb, g, dist, links, d)
      decreases distance, 3
    {
      hide MoveOn, NextLink, StartLink, Represents;
      if |transitions| == 0 {
        return false;
      }
      PreviousIsBelow(pb, g, dist, links, c, 0);
      if current == -1 {
        StartAt(pb, g, dist, links, c, 0);
        return true;
      }
      more := Continue(pb, g, dist, links, c);
    }

    /** `Next`, called on the state whose runs are being enumerated, refines taking the first
        element off a list; after the last one every cursor is null again. */
    method TakeRun(ghost pb: Problem, ghost g: Visited, ghost dist: Distances, ghost links: Links, ghost c: Cursors)
      returns (more: bool, ghost d: Cursors)
      requires In(pb, g, dist, links, c) && Layered(dist, links)
      requires Tidy(dist, links, c, distance, Key()) && NullAbove(dist, c, distance)
      modifies g.Values`current
      ensures Represents(pb, g, dist, links, d)
      ensures more == (Rest(links, c, distance, Key()) != [])
      ensures if more then
          && Rest(links, c, distance, Key()) == [Chain(links, d, distance, Key())] + Rest(links, d, distance, Key())
          && Tidy(dist, links, d, distance, Key()) && NullAbove(dist, d, distance)
        else AllNull(dist, d)
    {
      AdvanceEnumerates(dist, links, c, distance, Key());
      d := Advance(links, c, distance, Key()).1;
      more := Next(pb, g, dist, links, c);
    }

    /** Prepares to enumerate only the runs through the newest link.  When the links come from
        the start state the cursor stays where it is, so that all links are enumerated. */
    method StartEnumeration(ghost pb: Problem, ghost g: Visited, ghost dist: Distances, ghost links: Links, ghost c: Cursors)
      requires In(pb, g, dist, links, c) && Layered(dist, links) && |transitions| > 0
      modifies this`current
      ensures distance > 0
      ensures Represents(pb, g, dist, links, if distance > 1 then c[Key() := |links[Key()]| - 1] else c)
    {
      PreviousIsBelow(pb, g, dist, links, c, 0);
      var p := transitions[0].previous;
      assert |p.transitions| == 0 <==> p.distance == 0;
      if |p.transitions| != 0 {
        SetCurrent(pb, g, dist, links, c, |transitions| - 1);
      }
    }

    /** Reads the current path back from this state: the nodes, edge types and directions, last
        one first, as they are pushed before the path is printed from the start. */
    method GetPath(ghost pb: Problem, ghost g: Visited, ghost dist: Distances, ghost links: Links, ghost c: Cursors)
      returns (nodes: seq<nat>, types: seq<nat>, directions: seq<bool>)
      requires In(pb, g, dist, links, c) && Layered(dist, links)
      ensures var r := Chain(links, c, distance, Key());
        && |nodes| == |r| + 1 && |types| == |directions| == |r|
        && (forall i {:trigger nodes[i]} :: 0 <= i < |r| ==> nodes[i] == r[|r| - 1 - i].to.node)
        && nodes[|r|] == (if r == [] then node else r[0].from.node)
        && (forall i {:trigger types[i]} :: 0 <= i < |r| ==> Labelled(pb, r[|r| - 1 - i], types[i], directions[i]))
    {
      hide Represents, Layered, Labelled, SearchState.Is;
      ghost var r, tail := Chain(links, c, distance, Key()), [];
      nodes, types, directions := [], [], [];
      var s: SearchState := this;
      while s.current != -1
        invariant s.In(pb, g, dist, links, c)
        invariant r == Chain(links, c, s.distance, s.Key()) + tail
        invariant |nodes| == |types| == |directions| == |tail|
        invariant s.node == if tail == [] then node else tail[0].from.node
        invariant forall i {:trigger nodes[i]} :: 0 <= i < |tail| ==> nodes[i] == tail[|tail| - 1 - i].to.node
        invariant forall i {:trigger types[i]} :: 0 <= i < |tail| ==> Labelled(pb, tail[|tail| - 1 - i], types[i], directions[i])
        decreases s.distance
      {
        s.CurrentLink(pb, g, dist, links, c);
        ghost var e := links[s.Key()][s.current];
        var t := s.transitions[s.current];
        s.PreviousIsBelow(pb, g, dist, links, c, s.current);
        LinkBelow(dist, links, s.Key(), s.current);
        nodes := nodes + [s.node];
        types := types + [t.typeId];
        directions := directions + [t.inverse];
        tail := [e] + tail;
        s := t.previous;
      }
      s.NoMore(pb, g, dist, links, c);
      nodes := nodes + [s.node];
    }
  }
}
