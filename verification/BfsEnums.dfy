/** The pipelined search for all shortest paths from a fixed node. */
module BfsEnums {
  import opened ProductGraph
  import opened PathEnumeration
  import opened BreadthFirst
  import opened SearchOrders
  import opened SearchStates
  import opened StoredWalks

  /** The neighbours found by one index lookup, and how many of them were returned. */
  datatype IndexIterator = IndexIterator(results: seq<nat>, pos: nat, finished: bool) {

    predicate HasNext() {
      pos < |results|
    }

    function Next(): IndexIterator {
      if HasNext() then this.(pos := pos + 1) else this.(finished := true)
    }

    function GetNode(): nat
      requires 0 < pos <= |results|
    {
      results[pos - 1]
    }
  }

  const NULL_ITERATOR := IndexIterator([], 0, true)

  /** The search classes: `OneFinal` and `ManyFinals` are the two versions of the enumeration of ends, `Target`
      is the check of one given end, whose only distance is the entry of that end in the table. */
  class BfsEnum {
    const graph: Graph
    const dfa: Dfa
    const mode: Mode

    var startNode: nat
    var visited: Visited
    var open: seq<SearchState>
    var iter: IndexIterator
    var currentTransition: nat
    var firstNext: bool
    var solutionFound: SearchState?
    var optimalDistances: map<nat, nat>

    // the search as a value, the positions of all cursors, and the runs produced so far
    ghost var state: Bfs
    ghost var cursors: Cursors
    ghost var produced: seq<Run>

    function Pb(): Problem
      reads this`startNode
    {
      Problem(graph, dfa, startNode)
    }

    ghost function Now(): Search
      reads this`state, this`optimalDistances
    {
      Search(state, optimalDistances)
    }

    ghost predicate Stored(s: SearchState)
      reads this`visited
    {
      s.Key() in visited && visited[s.Key()] == s
    }

    ghost predicate Sane()
      reads this`startNode, this`visited, this`open, this`state, this`cursors, visited.Values
    {
      && dfa.Valid() && Represents(Pb(), visited, state.dist, state.links, cursors)
      && KeysOf(open) == state.open
      && forall i {:trigger open[i]} :: 0 <= i < |open| ==> Stored(open[i])
    }

    constructor (graph: Graph, dfa: Dfa, mode: Mode, startNode: nat)
      requires dfa.Valid()
      ensures Begun()
      ensures this.graph == graph && this.dfa == dfa && this.mode == mode && this.startNode == startNode
      ensures fresh(visited.Values)
    {
      this.graph, this.dfa, this.mode, this.startNode := graph, dfa, mode, startNode;
      firstNext, solutionFound, optimalDistances, produced := true, null, map[], [];
      visited, open, currentTransition := map[], [], 0;
      iter := NULL_ITERATOR;
      new;
      AddStart();
    }

    /** Just the start state is known. */
    ghost predicate Begun()
      reads this, visited.Values
    {
      && Sane() && state == Initial(Pb()) && AllNull(state.dist, cursors) && iter.finished
      && firstNext && solutionFound == null && optimalDistances == map[] && produced == []
    }

    /** Empties the search and begins it again, possibly from another node. */
    method Reset(start: nat)
      requires dfa.Valid()
      modifies this
      ensures Begun() && startNode == start && fresh(visited.Values)
    {
      startNode := start;
      firstNext, solutionFound, optimalDistances, produced := true, null, map[], [];
      visited, open := map[], [];
      AddStart();
    }

    /** Adds the starting state to `open` and `visited`. */
    method AddStart()
      requires dfa.Valid() && open == [] && visited == map[]
      modifies this`visited, this`open, this`iter, this`state, this`cursors
      ensures Sane() && state == Initial(Pb()) && AllNull(state.dist, cursors) && iter.finished
      ensures fresh(visited.Values)
    {
      var start := new SearchState(startNode, dfa.start, 0);
      visited := map[Key(startNode, dfa.start) := start];
      open := [start];
      iter := NULL_ITERATOR;
      state, cursors := Initial(Pb()), map[Pb().Start() := -1];
      assert start.Is(Pb(), visited, start.Key(), 0, [], -1);
    }

    ghost predicate Follows(current: SearchState, via: Transition, node: nat, e: Edge)
      reads this`startNode, this`visited
    {
      && Stored(current) && Pb().IsEdge(e) && e.from == current.Key()
      && via == Pb().Label(e) && e.to == Key(node, via.to)
    }

    lemma DistanceOf(s: SearchState)
      requires Sane() && Stored(s)
      ensures s.Key() in state.dist && s.distance == state.dist[s.Key()]
      ensures visited.Keys == state.dist.Keys == state.links.Keys
    {
      ghost var k := s.Key();
      assert visited[k].Is(Pb(), visited, k, state.dist[k], state.links[k], cursors[k]);
    }

    /** The target of `e` was visited before: keep the edge if it is on a shortest run. */
    method KeepEdge(current: SearchState, via: Transition, found: SearchState, ghost e: Edge) returns (kept: bool)
      requires Sane() && Stored(found) && Follows(current, via, found.node, e) && found.automatonState == via.to
      modifies this`state, found`transitions
      ensures Sane() && state == Scan(old(state), e)
      ensures kept == (found.distance == current.distance + 1)
    {
      ghost var dist, links := state.dist, state.links;
      DistanceOf(current);
      DistanceOf(found);
      assert visited[e.to].Is(Pb(), visited, e.to, dist[e.to], links[e.to], cursors[e.to]);
      kept := found.distance == current.distance + 1;
      if kept {
        found.Add(current, via, Pb(), visited, dist, links, cursors, e);
      }
      state := Scan(state, e);
    }

    /** The target of `e` is new: it is visited and queued, and may be a solution. */
    method Discover(current: SearchState, via: Transition, node: nat, solution: bool, ghost e: Edge)
      requires Sane() && AllNull(state.dist, cursors) && Follows(current, via, node, e) && e.to !in visited
      modifies this`state, this`cursors, this`visited, this`open, this`solutionFound
      ensures Sane() && AllNull(state.dist, cursors) && state == Scan(old(state), e)
      ensures e.to in visited && fresh(visited[e.to]) && visited == old(visited)[e.to := visited[e.to]]
      ensures open == old(open) + [visited[e.to]]
      ensures solutionFound == if solution then visited[e.to] else old(solutionFound)
    {
      hide Represents, AllNull;
      DistanceOf(current);
      NewCursorIsNull(state.dist, cursors, e.to, current.distance + 1);
      var reached := new SearchState.Reached(node, via.to, current.distance + 1, current, via);
      RepresentsMore(Pb(), visited, state.dist, state.links, cursors, reached, [e]);
      visited := visited[Key(node, via.to) := reached];
      open := open + [reached];
      state, cursors := Scan(state, e), cursors[e.to := -1];
      assert KeysOf(open) == state.open;
      if solution {
        solutionFound := reached;
      }
    }

    // ----- expansion -----------------------------------------------------------------------

    /** What the expansion of a state needs and keeps. */
    ghost predicate Ready()
      reads this`startNode, this`visited, this`open, this`state, this`cursors, this`optimalDistances, visited.Values
    {
      Sane() && AllNull(state.dist, cursors) && Tabled(Pb(), mode, Now())
    }

    /** Looks at one neighbour of the state at the front of the queue, and says whether the
        edge to it completes shortest paths to a node. */
    method Look(current: SearchState, via: Transition, node: nat, ghost e: Edge) returns (reached: bool)
      requires Ready() && solutionFound == null && Front(current)
      requires Unseen(Pb(), state, e) && Follows(current, via, node, e)
      modifies this`solutionFound, this`optimalDistances, this`visited, this`open, this`state, this`cursors
      modifies visited.Values`transitions
      ensures Ready() && Front(current) && Now() == LookAt(Pb(), mode, old(Now()), e)
      ensures reached == Solution(Pb(), mode, old(state), e, old(optimalDistances))
      ensures e.to in visited && solutionFound == if reached then visited[e.to] else null
      ensures fresh(visited.Values - old(visited.Values))
    {
      if Key(node, via.to) in visited {
        reached := LookAgain(current, via, node, e);
      } else {
        reached := LookFirst(current, via, node, e);
      }
    }

    method LookAgain(current: SearchState, via: Transition, node: nat, ghost e: Edge) returns (reached: bool)
      requires Ready() && solutionFound == null
      requires Unseen(Pb(), state, e) && Follows(current, via, node, e) && e.to in visited
      modifies this`solutionFound, this`state, visited.Values`transitions
      ensures Ready() && Now() == LookAt(Pb(), mode, old(Now()), e)
      ensures reached == Solution(Pb(), mode, old(state), e, old(optimalDistances))
      ensures solutionFound == if reached then visited[e.to] else null
    {
      LookKeepsTable(Pb(), mode, Now(), e);
      var found := visited[Key(node, via.to)];
      assert found.Key() == e.to by {
        assert visited[e.to].Is(Pb(), visited, e.to, state.dist[e.to], state.links[e.to], cursors[e.to]);
      }
      DistanceOf(current);
      DistanceOf(found);
      var kept := KeepEdge(current, via, found, e);
      reached := false;
      if kept && dfa.isFinal[via.to] && Wanted(mode, node) {
        reached := mode.OneFinal? || optimalDistances[node] == current.distance + 1;
      }
      if reached {
        solutionFound := found;
      }
    }

    method LookFirst(current: SearchState, via: Transition, node: nat, ghost e: Edge) returns (reached: bool)
      requires Ready() && solutionFound == null && Front(current)
      requires Unseen(Pb(), state, e) && Follows(current, via, node, e) && e.to !in visited
      modifies this`solutionFound, this`optimalDistances, this`visited, this`open, this`state, this`cursors
      ensures Ready() && Front(current) && Now() == LookAt(Pb(), mode, old(Now()), e)
      ensures reached == Solution(Pb(), mode, old(state), e, old(optimalDistances))
      ensures e.to in visited && solutionFound == if reached then visited[e.to] else null
      ensures fresh(visited.Values - old(visited.Values))
    {
      hide Represents, AllNull, Tabled;
      ghost var was := Now();
      DistanceOf(current);
      LookKeepsTable(Pb(), mode, was, e);
      LookAtNew(Pb(), mode, was, e);
      reached := RecordFinal(current, via.to, node);
      Discover(current, via, node, reached, e);
      assert Now() == LookAt(Pb(), mode, was, e);
    }

    /** Whether a new state is a solution; the distance of a new answer is recorded. */
    method RecordFinal(current: SearchState, automatonState: nat, node: nat) returns (reached: bool)
      requires automatonState < |dfa.isFinal|
      modifies this`optimalDistances
      ensures var d, final := current.distance + 1, dfa.isFinal[automatonState] && Wanted(mode, node);
        && optimalDistances == (if !mode.OneFinal? && final && node !in old(optimalDistances)
                                then old(optimalDistances)[node := d] else old(optimalDistances))
        && reached == (final && (!mode.OneFinal? ==> optimalDistances[node] == d))
    {
      reached := false;
      if dfa.isFinal[automatonState] && Wanted(mode, node) {
        if mode.OneFinal? {
          reached := true;
        } else if node in optimalDistances {
          reached := optimalDistances[node] == current.distance + 1;
        } else {
          optimalDistances := optimalDistances[node := current.distance + 1];
          reached := true;
        }
      }
    }

    ghost predicate Front(current: SearchState)
      reads this`open
    {
      open != [] && open[0] == current
    }

    function Moves(s: SearchState): seq<Transition>
      requires s.automatonState < |dfa.connections|
    {
      dfa.connections[s.automatonState]
    }

    /** The iterator runs over the neighbours of `s` through the current transition, and the
        first `pos` of them were looked at. */
    ghost predicate IterAt(s: SearchState, pos: nat)
      reads this`startNode, this`iter, this`currentTransition, this`state
    {
      && s.automatonState < |dfa.connections| && currentTransition < |Moves(s)|
      && iter.results == graph.Neighbors(Moves(s)[currentTransition].typeId, Moves(s)[currentTransition].inverse, s.node)
      && pos <= |iter.results|
      && ScannedUpTo(Pb(), state, s.Key(), currentTransition, pos)
    }

    /** The edges looked at since `was` completed nothing. */
    ghost predicate SilentSince(was: Search, es: seq<Edge>)
      reads this`startNode, this`state, this`optimalDistances
    {
      Silent(Pb(), mode, was, es) && Now() == After(Pb(), mode, was, es)
    }

    /** After the edges `es`, which completed nothing, `e` completed shortest paths. */
    ghost predicate ReachedBy(was: Search, es: seq<Edge>, e: Edge)
      reads this`startNode, this`state, this`optimalDistances, this`visited, this`solutionFound
    {
      && Completes(Pb(), mode, was, es, e, Now())
      && e.to in visited && solutionFound == visited[e.to]
    }

    /** The edges of the front that are still to be looked at. */
    ghost function Left(current: SearchState): seq<Edge>
      requires current.automatonState < |dfa.connections|
      reads this`startNode, this`iter, this`currentTransition
    {
      Remaining(Pb(), current.Key(), currentTransition, iter.pos)
    }

    /** Takes the next neighbour from the iterator, if there is one, and looks at it. */
    method LookNext(current: SearchState, transition: Transition, ghost was: Search, ghost before: seq<Edge>)
      returns (more: bool, reached: bool, ghost es: seq<Edge>, ghost e: Edge)
      requires Ready() && solutionFound == null && Front(current) && SilentSince(was, before)
      requires !iter.finished && IterAt(current, iter.pos) && transition == Moves(current)[currentTransition]
      modifies this`solutionFound, this`optimalDistances, this`visited, this`open, this`state, this`cursors, this`iter
      modifies visited.Values`transitions
      ensures Ready() && Front(current) && IterAt(current, iter.pos)
      ensures iter == old(iter).Next() && more == !iter.finished && (reached ==> more)
      ensures if reached then ReachedBy(was, es, e) else SilentSince(was, es) && solutionFound == null
      ensures before + old(Left(current)) == (if reached then es + [e] else es) + Left(current)
      ensures fresh(visited.Values - old(visited.Values))
    {
      hide Represents, AllNull, Tabled, Solution, Remaining;
      ghost var pb, m, pos := Pb(), Now(), iter.pos;
      es, e, reached := before, Edge(current.Key(), 0, 0, current.Key()), false;
      DistanceOf(current);
      more := iter.HasNext();
      iter := iter.Next();
      if more {
        e := EdgeAt(pb, current.Key(), currentTransition, pos);
        ScanAdvances(pb, m.b, current.Key(), currentTransition, pos);
        TakesNext(pb, current.Key(), currentTransition, pos, before);
        reached := Look(current, transition, iter.GetNode(), e);
        assert state == Scan(m.b, e);
        assert before + old(Left(current)) == (before + [e]) + Left(current);
        if !reached {
          es := es + [e];
          assert es[..|before|] == before;
        }
      }
    }

    /** Goes on with the neighbours the iterator has not returned yet. */
    method ExpandTransition(current: SearchState, transition: Transition, ghost was: Search, ghost before: seq<Edge>)
      returns (reached: bool, ghost es: seq<Edge>, ghost e: Edge)
      requires Ready() && solutionFound == null && Front(current) && SilentSince(was, before)
      requires !iter.finished && IterAt(current, iter.pos) && transition == Moves(current)[currentTransition]
      modifies this`solutionFound, this`optimalDistances, this`visited, this`open, this`state, this`cursors, this`iter
      modifies visited.Values`transitions
      ensures Ready() && Front(current) && IterAt(current, iter.pos)
      ensures if reached then ReachedBy(was, es, e) && !iter.finished
        else SilentSince(was, es) && solutionFound == null && iter.finished && iter.pos == |iter.results|
      ensures before + old(Left(current)) == (if reached then es + [e] else es) + Left(current)
      ensures fresh(visited.Values - old(visited.Values))
    {
      hide Represents, AllNull, Tabled, ScannedUpTo, Completes, Silent, After;
      var more := true;
      reached, es, e := false, before, Edge(current.Key(), 0, 0, current.Key());
      while more && !reached
        invariant Ready() && Front(current) && IterAt(current, iter.pos)
        invariant more == !iter.finished && (more || iter.pos == |iter.results|)
        invariant if reached then more && ReachedBy(was, es, e) else SilentSince(was, es) && solutionFound == null
        invariant before + old(Left(current)) == (if reached then es + [e] else es) + Left(current)
        invariant fresh(visited.Values - old(visited.Values))
        decreases |iter.results| - iter.pos, more
      {
        more, reached, es, e := LookNext(current, transition, was, es);
      }
    }

    method SetIter(current: SearchState)
      requires current.automatonState < |dfa.connections| && currentTransition < |Moves(current)|
      requires ScannedUpTo(Pb(), state, current.Key(), currentTransition, 0)
      modifies this`iter
      ensures !iter.finished && iter.pos == 0 && IterAt(current, 0)
    {
      var transition := dfa.connections[current.automatonState][currentTransition];
      iter := IndexIterator(graph.Neighbors(transition.typeId, transition.inverse, current.node), 0, false);
    }

    /** The iterator is at the end of its transition: set it for the next one, if there is one. */
    method NextTransition(current: SearchState)
      requires iter.finished && iter.pos == |iter.results| && IterAt(current, iter.pos)
      modifies this`iter, this`currentTransition
      ensures currentTransition == old(currentTransition) + 1 <= |Moves(current)|
      ensures if currentTransition < |Moves(current)| then !iter.finished && IterAt(current, iter.pos)
        else iter.finished && ScannedUpTo(Pb(), state, current.Key(), |Moves(current)|, 0)
      ensures Left(current) == old(Left(current))
    {
      TransitionDone(Pb(), state, current.Key(), currentTransition);
      NextRemaining(Pb(), current.Key(), currentTransition, iter.pos);
      currentTransition := currentTransition + 1;
      if currentTransition < |dfa.connections[current.automatonState]| {
        SetIter(current);
      }
    }

    /** If this is the first time that the front is explored, the iterator is set for its first
        transition, if it has one. */
    method StartExpansion(current: SearchState)
      requires current.automatonState < |dfa.connections|
      requires if iter.finished then ScannedUpTo(Pb(), state, current.Key(), 0, 0) else IterAt(current, iter.pos)
      modifies this`iter, this`currentTransition
      ensures Positioned(current)
      ensures Left(current) == if old(iter.finished) then AllFrom(Pb(), current.Key()) else old(Left(current))
    {
      if iter.finished {
        currentTransition := 0;
        if |dfa.connections[current.automatonState]| > 0 {
          SetIter(current);
        }
      }
    }

    /** Expands through the current transition, and sets the iterator for the next one unless
        shortest paths were completed. */
    method ExpandStep(current: SearchState, ghost was: Search, ghost before: seq<Edge>)
      returns (reached: bool, ghost es: seq<Edge>, ghost e: Edge)
      requires Ready() && solutionFound == null && Front(current) && SilentSince(was, before)
      requires !iter.finished && IterAt(current, iter.pos)
      modifies this`solutionFound, this`optimalDistances, this`visited, this`open, this`state, this`cursors
      modifies this`iter, this`currentTransition, visited.Values`transitions
      ensures Ready() && Front(current)
      ensures reached ==> ReachedBy(was, es, e) && !iter.finished && IterAt(current, iter.pos)
      ensures !reached ==> SilentSince(was, es) && solutionFound == null && Positioned(current)
      ensures !reached ==> currentTransition == old(currentTransition) + 1
      ensures before + old(Left(current)) == (if reached then es + [e] else es) + Left(current)
      ensures fresh(visited.Values - old(visited.Values))
    {
      hide Represents, AllNull, Tabled, ScannedUpTo, Completes, Silent, After;
      reached, es, e := ExpandTransition(current, dfa.connections[current.automatonState][currentTransition], was, before);
      if !reached {
        NextTransition(current);
      }
    }

    /** The iterator is set for the current transition, or all transitions are done. */
    ghost predicate Positioned(current: SearchState)
      reads this`startNode, this`iter, this`currentTransition, this`state
    {
      && current.automatonState < |dfa.connections|
      && if currentTransition < |Moves(current)| then !iter.finished && IterAt(current, iter.pos)
         else iter.finished && ScannedUpTo(Pb(), state, current.Key(), |Moves(current)|, 0)
    }

    /** Before the front is expanded: the edges that are still to be looked at. */
    ghost function ToLook(current: SearchState): seq<Edge>
      requires current.automatonState < |dfa.connections|
      reads this`startNode, this`iter, this`currentTransition
    {
      if iter.finished then AllFrom(Pb(), current.Key()) else Left(current)
    }

    lemma NothingLooked(was: Search, current: SearchState)
      requires was == Now() && current.automatonState < |dfa.connections|
      ensures SilentSince(was, []) && [] + Left(current) == Left(current)
    {
    }

    /** Goes on with the neighbours of the state at the front of the queue until shortest paths
        are completed (`reached`, by edge `e`) or there is no neighbour left. */
    method ExpandNeighbors(current: SearchState) returns (reached: bool, ghost es: seq<Edge>, ghost e: Edge)
      requires Ready() && solutionFound == null && Front(current) && current.automatonState < |dfa.connections|
      requires if iter.finished then ScannedUpTo(Pb(), state, current.Key(), 0, 0) else IterAt(current, iter.pos)
      modifies this`solutionFound, this`optimalDistances, this`visited, this`open, this`state, this`cursors
      modifies this`iter, this`currentTransition, visited.Values`transitions
      ensures Ready() && Front(current)
      ensures if reached then
          ReachedBy(old(Now()), es, e) && !iter.finished && IterAt(current, iter.pos)
        else
          SilentSince(old(Now()), es) && solutionFound == null && Positioned(current) && iter.finished
      ensures old(ToLook(current)) == if reached then es + [e] + Left(current) else es
      ensures fresh(visited.Values - old(visited.Values))
    {
      hide Represents, AllNull, Tabled, ScannedUpTo, Completes, Remaining, Silent, After;
      ghost var was, all := Now(), ToLook(current);
      reached, es, e := false, [], Edge(current.Key(), 0, 0, current.Key());
      StartExpansion(current);
      NothingLooked(was, current);
      while currentTransition < |dfa.connections[current.automatonState]|
        invariant Ready() && solutionFound == null && Front(current)
        invariant SilentSince(was, es) && Positioned(current) && es + Left(current) == all
        invariant fresh(visited.Values - old(visited.Values))
        decreases |Moves(current)| - currentTransition
      {
        reached, es, e := ExpandStep(current, was, es);
        if reached {
          return;
        }
      }
      NoneRemaining(Pb(), current.Key(), currentTransition, iter.pos);
    }

    // ----- enumeration -----------------------------------------------------------------------

    ghost predicate OnlyChain(s: SearchState)
      reads this`state, this`cursors
    {
      Tidy(state.dist, state.links, cursors, s.distance, s.Key()) && NullAbove(state.dist, cursors, s.distance)
    }

    /** The runs that end in `s` and were not produced by the current enumeration. */
    ghost function RunsLeft(s: SearchState): seq<Run>
      reads this`state, this`cursors
    {
      Rest(state.links, cursors, s.distance, s.Key())
    }

    /** The run spelled out by the cursors back from `s`. */
    ghost function CurrentRun(s: SearchState): Run
      reads this`state, this`cursors
    {
      Chain(state.links, cursors, s.distance, s.Key())
    }

    lemma InVisited(s: SearchState)
      requires Sane() && Stored(s)
      ensures s.In(Pb(), visited, state.dist, state.links, cursors)
    {
      ghost var k := s.Key();
      assert visited[k].Is(Pb(), visited, k, state.dist[k], state.links[k], cursors[k]);
    }

    /** Takes the next run of the current enumeration, if there is one. */
    method EnumerateNext() returns (found: bool)
      requires Sane() && Layered(state.dist, state.links)
      requires solutionFound != null && Stored(solutionFound) && OnlyChain(solutionFound)
      modifies this`solutionFound, this`cursors, visited.Values`current
      ensures Sane() && found == (old(RunsLeft(solutionFound)) != [])
      ensures found ==> solutionFound == old(solutionFound) && OnlyChain(solutionFound)
      ensures found ==> old(RunsLeft(solutionFound)) == [CurrentRun(solutionFound)] + RunsLeft(solutionFound)
      ensures !found ==> solutionFound == null && AllNull(state.dist, cursors)
    {
      hide Represents, AllNull, Layered, Tidy, NullAbove, Rest, Chain;
      InVisited(solutionFound);
      found, cursors := solutionFound.TakeRun(Pb(), visited, state.dist, state.links, cursors);
      if !found {
        solutionFound := null;
      }
    }

    /** Prepares the enumeration of what edge `e` completed. */
    method StartFound(ghost e: Edge)
      requires Sane() && Layered(state.dist, state.links) && AllNull(state.dist, cursors)
      requires solutionFound != null && e.to in visited && solutionFound == visited[e.to] && NewestLink(state, e)
      modifies this`cursors, visited.Values`current
      ensures Sane() && Stored(solutionFound) && OnlyChain(solutionFound) && RunsLeft(solutionFound) == NewRuns(state, e)
    {
      hide Tidy, AllNull, NullAbove, Layered, Rest, NewRuns;
      assert visited[e.to].Is(Pb(), visited, e.to, state.dist[e.to], state.links[e.to], cursors[e.to]);
      InVisited(solutionFound);
      StartedRuns(state, cursors, e);
      solutionFound.StartEnumeration(Pb(), visited, state.dist, state.links, cursors);
      cursors := if solutionFound.distance > 1 then cursors[e.to := |state.links[e.to]| - 1] else cursors;
    }

    // ----- the whole search --------------------------------------------------------------------

    /** Everything that holds of the search itself, whatever is being enumerated. */
    ghost predicate Known()
      reads this`startNode, this`visited, this`open, this`state, this`cursors, this`optimalDistances
      reads this`iter, this`currentTransition, visited.Values
    {
      && Sane() && Sound(Pb(), mode, Now())
      && (open != [] ==>
            if iter.finished then ScannedUpTo(Pb(), state, open[0].Key(), 0, 0) else IterAt(open[0], iter.pos))
    }

    lemma FrontIsReady(current: SearchState)
      requires Known() && AllNull(state.dist, cursors) && Front(current)
      ensures Ready() && current.automatonState < |dfa.connections|
    {
      DistanceOf(current);
      SoundIsTabled(Pb(), mode, Now());
    }

    /** Edge `e` completed shortest paths: they become pending. */
    method Reach(current: SearchState, ghost was: Search, ghost es: seq<Edge>, ghost e: Edge)
      requires Ready() && Front(current) && ReachedBy(was, es, e) && !iter.finished && IterAt(current, iter.pos)
      requires Sound(Pb(), mode, was) && Balanced(Pb(), mode, was.b, produced, [])
      modifies this`cursors, visited.Values`current
      ensures Known() && solutionFound != null && Stored(solutionFound) && OnlyChain(solutionFound)
      ensures RunsLeft(solutionFound) != [] && Balanced(Pb(), mode, state, produced, RunsLeft(solutionFound))
      ensures Front(current) && e.from in state.dist && RunsLeft(solutionFound) == NewRuns(state, e)
    {
      hide Sound, Balanced, Completes, Layers, Layered, Tidy, AllNull, NullAbove, Tabled, ScannedUpTo, Rest, NewRuns;
      CompletedKeeps(Pb(), mode, was, es, e, Now(), produced);
      SoundIsLayered(Pb(), mode, Now());
      NewRunsExist(Pb(), state, e);
      assert solutionFound.Key() == e.to by {
        assert visited[e.to].Is(Pb(), visited, e.to, state.dist[e.to], state.links[e.to], cursors[e.to]);
      }
      StartFound(e);
    }

    /** The front has no neighbour left: it leaves the queue. */
    method PopFront(current: SearchState, ghost was: Search, ghost es: seq<Edge>)
      requires Ready() && Front(current) && SilentSince(was, es) && solutionFound == null
      requires Positioned(current) && iter.finished
      requires Sound(Pb(), mode, was) && Balanced(Pb(), mode, was.b, produced, [])
      modifies this`open, this`state
      ensures Known() && AllNull(state.dist, cursors) && Balanced(Pb(), mode, state, produced, [])
      ensures state == Pop(old(state)) && |open| == |state.open|
    {
      hide Sound, Balanced, Silent, After, AllNull, Tabled;
      SilenceKeeps(Pb(), mode, was, es, produced);
      AllScanned(Pb(), state, current.Key());
      PopKeeps(Pb(), mode, Now(), produced);
      if |open| > 1 {
        PopLeavesFresh(Pb(), mode, Now());
      }
      DropFront();
    }

    /** Expands the front of the queue.  Either shortest paths were completed and their
        enumeration is prepared, or the front is done and leaves the queue. */
    method ExpandFront() returns (reached: bool)
      requires Known() && AllNull(state.dist, cursors) && solutionFound == null && open != []
      requires Balanced(Pb(), mode, state, produced, [])
      modifies this`solutionFound, this`optimalDistances, this`visited, this`open, this`state, this`cursors
      modifies this`iter, this`currentTransition, visited.Values`transitions, visited.Values`current
      ensures Known() && fresh(visited.Values - old(visited.Values))
      ensures reached ==> solutionFound != null && Stored(solutionFound) && OnlyChain(solutionFound)
      ensures reached ==> RunsLeft(solutionFound) != [] && Balanced(Pb(), mode, state, produced, RunsLeft(solutionFound))
      ensures old(Future()) == (if reached then RunsLeft(solutionFound) else []) + Future()
      ensures !reached ==> solutionFound == null && AllNull(state.dist, cursors) && Balanced(Pb(), mode, state, produced, [])
      ensures old(state.scanned) <= state.scanned
      ensures old(state.scanned) == state.scanned ==> !reached && |open| == |old(open)| - 1
    {
      hide Represents, Sound, Balanced, AllNull, Tidy, Tabled, ScannedUpTo, Silent, After, Completes, Outcome, Remaining, NewRuns;
      ghost var was := Now();
      var current := open[0];
      FrontIsReady(current);
      ghost var es, e;
      reached, es, e := ExpandNeighbors(current);
      if reached {
        CompletesGrows(Pb(), mode, was, es, e, Now());
        OutcomeOfCompleted(Pb(), mode, was, es, e, Now(), Left(current));
        assert es + [e] + Left(current) == es + ([e] + Left(current));
        Reach(current, was, es, e);
      } else {
        SilentGrows(Pb(), mode, was, es);
        OutcomeOfSilent(Pb(), mode, was, es, []);
        assert es + [] == es;
        OutcomeOfPop(Pb(), mode, Now());
        PopFront(current, was, es);
      }
    }

    method DropFront()
      requires Sane() && open != []
      modifies this`open, this`state
      ensures Sane() && state == Pop(old(state)) && |open| == |old(open)| - 1
    {
      open := open[1..];
      state := Pop(state);
    }

    /** What the search still produces after what is pending, in order. */
    ghost function Future(): seq<Run>
      reads this`startNode, this`open, this`iter, this`currentTransition, this`state, this`optimalDistances
    {
      if open == [] then []
      else Outcome(Pb(), mode, Now(), if open[0].automatonState < |dfa.connections| then ToLook(open[0]) else [])
    }

    ghost predicate Suited() {
      dfa.Valid() && (mode.OneFinal? ==> dfa.AtMostOneFinal())
    }

    /** The runs that the current enumeration still has to produce. */
    ghost function Pending(): seq<Run>
      reads this`solutionFound, this`state, this`cursors
    {
      if solutionFound == null then [] else RunsLeft(solutionFound)
    }

    /** The start node is not in the database. */
    ghost predicate Closed()
      reads this
    {
      startNode !in graph.nodes && !firstNext && open == [] && solutionFound == null && produced == []
    }

    /** The empty run is the shortest possible between the given ends: nothing else is searched for. */
    ghost predicate Stopped()
      reads this
    {
      && startNode in graph.nodes && StopsAtStart(Pb(), mode)
      && !firstNext && open == [] && solutionFound == null && produced == [[]]
    }

    ghost predicate Running()
      reads this, visited.Values
    {
      && startNode in graph.nodes && !firstNext && Known() && Balanced(Pb(), mode, state, produced, Pending())
      && !StopsAtStart(Pb(), mode) && Whole(Pb(), mode) == produced + Pending() + Future()
      && if solutionFound == null then AllNull(state.dist, cursors)
         else Stored(solutionFound) && OnlyChain(solutionFound)
    }

    ghost predicate Valid()
      reads this, visited.Values
    {
      Suited() && (if firstNext then Begun() else Closed() || Stopped() || Running())
    }

    ghost predicate Finished()
      reads this
    {
      !firstNext && open == [] && solutionFound == null
    }

    /** When the search does not end with the first call, everything is still to come. */
    lemma BeginsRunning()
      requires Suited() && Sane() && state == Initial(Pb()) && AllNull(state.dist, cursors) && iter.finished
      requires startNode in graph.nodes && !StopsAtStart(Pb(), mode) && !firstNext && solutionFound == null
      requires optimalDistances == FirstBest(Pb(), mode) && produced == FirstRuns(Pb(), mode)
      ensures Running()
    {
      hide Sound, Balanced, AllNull, Represents, Outcome, Remaining, FirstBest, FirstRuns;
      InitialSound(Pb(), mode);
      assert Now() == Search(Initial(Pb()), FirstBest(Pb(), mode));
    }

    /** What the first call does: nothing is found from a missing node, and the empty run is
        found when the start state is final and its node is asked for. */
    method FirstStep() returns (stop: bool, found: bool)
      requires Suited() && Begun()
      modifies this`firstNext, this`open, this`state, this`optimalDistances, this`produced
      ensures Valid() && !firstNext && solutionFound == null && (found ==> stop)
      ensures stop == (startNode !in graph.nodes || (dfa.Final(dfa.start) && Wanted(mode, startNode)))
      ensures found == (startNode in graph.nodes && dfa.Final(dfa.start) && Wanted(mode, startNode))
      ensures produced == if found then [[]] else []
      ensures startNode !in graph.nodes ==> open == []
    {
      hide Sound, Balanced, AllNull, Represents, Outcome, Remaining, Whole, BfsEnum.Running;
      assert optimalDistances == map[];
      firstNext := false;
      var current := open[0];
      assert current.Key() == Pb().Start();
      if current.node !in graph.nodes {
        DropFront();
        return true, false;
      }
      if dfa.isFinal[dfa.start] && Wanted(mode, current.node) {
        if mode.ManyFinals? {
          optimalDistances := optimalDistances[current.node := 0];
        }
        produced := produced + [[]];
        assert produced == [[]] == FirstRuns(Pb(), mode);
        if mode.Target? {
          DropFront();
        } else {
          BeginsRunning();
        }
        return true, true;
      }
      BeginsRunning();
      return false, false;
    }

    /** What is left to do: edges to look at, states in the queue, runs to enumerate. */
    ghost function EdgesLeft(): set<Edge>
      reads this`startNode, this`state
    {
      Pb().AllEdges() - state.scanned
    }

    /** Takes the next run of the current enumeration; the search itself is not affected. */
    method TakePending() returns (found: bool)
      requires Known() && solutionFound != null && Stored(solutionFound) && OnlyChain(solutionFound)
      modifies this`solutionFound, this`cursors, visited.Values`current
      ensures Known() && found == (old(RunsLeft(solutionFound)) != [])
      ensures found ==> solutionFound == old(solutionFound) && OnlyChain(solutionFound)
      ensures found ==> old(RunsLeft(solutionFound)) == [CurrentRun(solutionFound)] + RunsLeft(solutionFound)
      ensures !found ==> solutionFound == null && AllNull(state.dist, cursors)
      ensures Future() == old(Future())
    {
      hide Sound, AllNull, Represents, Tidy, NullAbove, Rest, Chain, Outcome, Remaining;
      SoundIsLayered(Pb(), mode, Now());
      found := EnumerateNext();
    }

    /** Produces the next run of the current enumeration, if there is one. */
    method Produce() returns (found: bool)
      requires Suited() && Running() && solutionFound != null
      modifies this`solutionFound, this`cursors, this`produced, visited.Values`current
      ensures Running()
      ensures found ==> solutionFound != null && produced == old(produced) + [CurrentRun(solutionFound)]
      ensures found ==> |Pending()| < |old(Pending())|
      ensures !found ==> produced == old(produced) && solutionFound == null
    {
      hide Balanced, Sound, AllNull, Represents, Tidy, NullAbove, Rest, Chain, BfsEnum.Sane, BfsEnum.Known, Whole, BfsEnum.Future, BfsEnum.Suited;
      found := TakePending();
      if found {
        produced := produced + [CurrentRun(solutionFound)];
        ProducedOne(old(produced), CurrentRun(solutionFound));
      }
    }

    /** A run that was pending is produced. */
    lemma ProducedOne(before: seq<Run>, r: Run)
      requires startNode in graph.nodes && !firstNext && Known() && !StopsAtStart(Pb(), mode)
      requires solutionFound != null && Stored(solutionFound) && OnlyChain(solutionFound)
      requires Balanced(Pb(), mode, state, before, [r] + Pending()) && produced == before + [r]
      requires Whole(Pb(), mode) == before + ([r] + Pending()) + Future()
      ensures Running()
    {
      hide Balanced, Whole, BfsEnum.Known, BfsEnum.Future, BfsEnum.Pending, BfsEnum.OnlyChain, BfsEnum.Stored, StopsAtStart;
      TakeKeeps(Pb(), mode, state, before, r, Pending());
      assert before + ([r] + Pending()) == (before + [r]) + Pending();
    }

    /** Expands the front while nothing is being enumerated. */
    method Expand()
      requires Suited() && Running() && solutionFound == null && open != []
      modifies this`solutionFound, this`optimalDistances, this`visited, this`open, this`state, this`cursors
      modifies this`iter, this`currentTransition, visited.Values`transitions, visited.Values`current
      ensures Running() && fresh(visited.Values - old(visited.Values))
      ensures EdgesLeft() < old(EdgesLeft()) || (EdgesLeft() == old(EdgesLeft()) && solutionFound == null && |open| < |old(open)|)
    {
      hide Balanced, Sound, AllNull, Represents, Tidy, NullAbove, Rest, Chain, ScannedUpTo, Whole, BfsEnum.Future;
      var _ := ExpandFront();
      ScannedAreKnown(Pb(), mode, Now());
    }

    /** Goes on after the first call: enumerates what is pending and expands the queue. */
    method Resume() returns (found: bool)
      requires Suited() && !firstNext && (Closed() || Stopped() || Running())
      modifies this`solutionFound, this`optimalDistances, this`visited, this`open, this`state, this`cursors
      modifies this`iter, this`currentTransition, this`produced, visited.Values`transitions, visited.Values`current
      ensures (Closed() || Stopped() || Running()) && fresh(visited.Values - old(visited.Values))
      ensures found ==> solutionFound != null && Running() && produced == old(produced) + [CurrentRun(solutionFound)]
      ensures EdgesLeft() < old(EdgesLeft())
        || (EdgesLeft() == old(EdgesLeft()) && (|Pending()| < |old(Pending())| || !found))
      ensures !found ==> produced == old(produced) && Finished()
    {
      hide Balanced, Sound, AllNull, Represents, Tidy, NullAbove, Rest, Chain, ScannedUpTo, Whole, BfsEnum.Future, BfsEnum.Running;
      while true
        invariant Closed() || Stopped() || Running()
        invariant fresh(visited.Values - old(visited.Values)) && produced == old(produced)
        invariant EdgesLeft() < old(EdgesLeft())
          || (EdgesLeft() == old(EdgesLeft()) && (solutionFound != null ==> Pending() == old(Pending())))
        decreases EdgesLeft(), |open|
      {
        if solutionFound != null {
          found := Produce();
          if found {
            return;
          }
        }
        if |open| == 0 {
          return false;
        }
        Expand();
      }
    }

    /** Finds the next shortest path, if there is one: `path` holds it in the cursors. */
    method Next() returns (found: bool, path: SearchState?)
      requires Valid()
      modifies this, visited.Values
      ensures Valid() && startNode == old(startNode) && fresh(visited.Values - old(visited.Values))
      ensures found ==> path != null && Stored(path) && produced == old(produced) + [CurrentRun(path)]
      ensures !found ==> produced == old(produced) && Finished()
      ensures old(firstNext) || EdgesLeft() < old(EdgesLeft())
        || (EdgesLeft() == old(EdgesLeft()) && (|Pending()| < |old(Pending())| || !found))
      ensures !firstNext
    {
      hide Balanced, Sound, AllNull, Represents, Tidy, NullAbove, Rest, ScannedUpTo, Whole, BfsEnum.Future;
      if firstNext {
        var start := open[0];
        InVisited(start);
        assert start.distance == 0;
        var stop;
        stop, found := FirstStep();
        if stop {
          return found, if found then start else null;
        }
      }
      found := Resume();
      path := if found then solutionFound else null;
    }

    /** Asks for paths until there are no more, as a query does.  The shortest accepted runs with an
        end that is asked for are produced, all of them and nothing else, and each once unless two
        edges lead from the start state into one answer; and they come out in the order of `Whole`.
        Every step of a run follows a stored edge in the direction its transition asks for, and the
        runs follow just the shortest walks along stored edges. */
    method Drain()
      requires Valid() && firstNext
      modifies this, visited.Values
      ensures Finished() && startNode == old(startNode)
      ensures forall r :: r in produced <==>
                && startNode in graph.nodes && Pb().ShortestAccepted(r)
                && (mode.Target? ==> Pb().End(r).node == mode.node)
      ensures forall r: Run, k {:trigger r in produced, r[k]} :: r in produced && 0 <= k < |r| ==>
                var e := r[k];
                && e.from == (if k == 0 then Key(startNode, dfa.start) else r[k - 1].to)
                && e.from.state < |dfa.connections| && e.t < |dfa.connections[e.from.state]|
                && var via := dfa.connections[e.from.state][e.t];
                && e.to.state == via.to
                && (if via.inverse then StoredEdge(e.to.node, via.typeId, e.from.node)
                    else StoredEdge(e.from.node, via.typeId, e.to.node)) in graph.edges
      ensures forall w :: Followed(produced, w) <==>
                && startNode in graph.nodes && ShortestWalk(Pb(), w)
                && (mode.Target? ==> Ends(Pb(), w).node == mode.node)
      ensures forall r :: |r| != 1 ==> multiset(produced)[r] <= 1
      ensures NoDup(produced) <==>
                !(startNode in graph.nodes && exists e, f ::
                  ParallelFirst(Pb(), e, f) && (mode.Target? ==> e.to.node == mode.node))
      ensures produced == Whole(Pb(), mode)
    {
      hide Balanced, Sound, AllNull, Represents, Tidy, NullAbove, Rest, Chain, ScannedUpTo, Whole, BfsEnum.Future;
      hide ShortestWalk, Followed, Ends, ParallelFirst, NoDup, Problem.ShortestAccepted;
      var found, path := Next();
      while found
        invariant Valid() && !firstNext && startNode == old(startNode) && fresh(visited.Values - old(visited.Values))
        invariant !found ==> Finished()
        decreases EdgesLeft(), |Pending()|, found
      {
        found, path := Next();
      }
      FinishedResult();
    }

    /** Whenever the search is suspended its layers are true, and the fields show just them. */
    lemma LayeredAtAnyMoment()
      requires Valid() && !Closed() && !Stopped()
      ensures TrueLayers(Pb(), state)
      ensures visited.Keys == state.dist.Keys && forall k | k in visited :: visited[k].distance == state.dist[k]
      ensures KeysOf(open) == state.open
    {
      hide TrueLayers, Tidy, Balanced, ScannedUpTo;
      if firstNext {
        InitialInv(Pb());
      }
      LayersAreTrue(Pb(), state);
      forall k | k in visited ensures visited[k].distance == state.dist[k] {
        assert visited[k].Is(Pb(), visited, k, state.dist[k], state.links[k], cursors[k]);
      }
    }

    lemma FinishedRuns()
      requires Valid() && Finished()
      ensures forall r :: r in produced <==>
                startNode in graph.nodes && Pb().ShortestAccepted(r) && Wanted(mode, Pb().End(r).node)
      ensures forall r :: |r| != 1 ==> multiset(produced)[r] <= 1
      ensures NoDup(produced) <==>
                !(startNode in graph.nodes && exists e, f :: ParallelFirst(Pb(), e, f) && Wanted(mode, e.to.node))
      ensures produced == Whole(Pb(), mode)
    {
      if Running() {
        RunningResult();
      } else if Stopped() {
        StoppedResult(Pb(), mode, produced);
      }
    }

    lemma FinishedResult()
      requires Valid() && Finished()
      ensures forall r :: r in produced <==>
                && startNode in graph.nodes && Pb().ShortestAccepted(r)
                && (mode.Target? ==> Pb().End(r).node == mode.node)
      ensures forall r :: |r| != 1 ==> multiset(produced)[r] <= 1
      ensures NoDup(produced) <==>
                !(startNode in graph.nodes && exists e, f ::
                  ParallelFirst(Pb(), e, f) && (mode.Target? ==> e.to.node == mode.node))
      ensures forall r: Run, k {:trigger r in produced, r[k]} :: r in produced && 0 <= k < |r| ==>
                var e := r[k];
                && e.from == (if k == 0 then Key(startNode, dfa.start) else r[k - 1].to)
                && e.from.state < |dfa.connections| && e.t < |dfa.connections[e.from.state]|
                && var via := dfa.connections[e.from.state][e.t];
                && e.to.state == via.to
                && (if via.inverse then StoredEdge(e.to.node, via.typeId, e.from.node)
                    else StoredEdge(e.from.node, via.typeId, e.to.node)) in graph.edges
      ensures forall w :: Followed(produced, w) <==>
                && startNode in graph.nodes && ShortestWalk(Pb(), w)
                && (mode.Target? ==> Ends(Pb(), w).node == mode.node)
      ensures produced == Whole(Pb(), mode)
    {
      hide Whole, BfsEnum.Valid, BfsEnum.Finished, ShortestWalk, Ends, Followed, Problem.ShortestAccepted, NoDup, ParallelFirst;
      FinishedRuns();
      ProducedIsStored(Pb(), mode, produced);
    }

    lemma RunningResult()
      requires Running() && Finished()
      ensures forall r :: r in produced <==> Pb().ShortestAccepted(r) && Wanted(mode, Pb().End(r).node)
      ensures forall r :: |r| != 1 ==> multiset(produced)[r] <= 1
      ensures NoDup(produced) <==> !exists e, f :: ParallelFirst(Pb(), e, f) && Wanted(mode, e.to.node)
      ensures produced == Whole(Pb(), mode)
    {
      hide Whole;
      assert state.open == [];
      forall r ensures r in produced <==> Pb().ShortestAccepted(r) && Wanted(mode, Pb().End(r).node) {
        ProducedRuns(Pb(), mode, state, produced, r);
      }
      forall r | |r| != 1 ensures multiset(produced)[r] <= 1 {
        ProducedRuns(Pb(), mode, state, produced, r);
      }
      ProducedOnce(Pb(), mode, state, produced);
    }
  }
}
