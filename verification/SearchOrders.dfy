/** In which order a search produces its runs, and how the three searches compare. */
module SearchOrders {
  import opened ProductGraph
  import opened PathEnumeration
  import opened BreadthFirst

  // ----- the order of looking ---------------------------------------------------------------

  function NeighborsBy(pb: Problem, u: Key, t: nat): seq<nat>
    requires u.state < |pb.dfa.connections| && t < |pb.dfa.connections[u.state]|
  {
    var l := pb.dfa.connections[u.state][t];
    pb.graph.Neighbors(l.typeId, l.inverse, u.node)
  }

  /** The edges that leave `u`, from neighbour `pos` of transition `t` on, one transition after the
      other. */
  function Remaining(pb: Problem, u: Key, t: nat, pos: nat): seq<Edge>
    requires u.state < |pb.dfa.connections|
    decreases |pb.dfa.connections[u.state]| - t,
              if t < |pb.dfa.connections[u.state]| then |NeighborsBy(pb, u, t)| - pos else 0
  {
    if t >= |pb.dfa.connections[u.state]| then []
    else if pos < |NeighborsBy(pb, u, t)| then [EdgeAt(pb, u, t, pos)] + Remaining(pb, u, t, pos + 1)
    else Remaining(pb, u, t + 1, 0)
  }

  /** Taking the next edge moves it from what is left to what was looked at. */
  lemma TakesNext(pb: Problem, u: Key, t: nat, pos: nat, before: seq<Edge>)
    requires u.state < |pb.dfa.connections| && t < |pb.dfa.connections[u.state]| && pos < |NeighborsBy(pb, u, t)|
    ensures before + Remaining(pb, u, t, pos) == (before + [EdgeAt(pb, u, t, pos)]) + Remaining(pb, u, t, pos + 1)
  {
    hide NeighborsBy;
  }

  lemma NextRemaining(pb: Problem, u: Key, t: nat, pos: nat)
    requires u.state < |pb.dfa.connections| && t < |pb.dfa.connections[u.state]| && pos >= |NeighborsBy(pb, u, t)|
    ensures Remaining(pb, u, t, pos) == Remaining(pb, u, t + 1, 0)
    ensures t + 1 == |pb.dfa.connections[u.state]| ==> Remaining(pb, u, t, pos) == [] == Remaining(pb, u, t + 1, pos)
  {
  }

  lemma NoneRemaining(pb: Problem, u: Key, t: nat, pos: nat)
    requires u.state < |pb.dfa.connections| && t >= |pb.dfa.connections[u.state]|
    ensures Remaining(pb, u, t, pos) == []
  {
  }

  /** What a search still produces, run after run: `todo` are the edges of the front it has not looked
      at; then the next state of the queue is the front. */
  ghost function Outcome(pb: Problem, mode: Mode, s: Search, todo: seq<Edge>): seq<Run>
    decreases pb.AllEdges() - s.b.scanned, |s.b.open|, |todo|
  {
    if todo != [] then
      var e := todo[0];
      if Unseen(pb, s.b, e) && e in pb.AllEdges() then
        LookScans(pb, mode, s, e);
        var t := LookAt(pb, mode, s, e);
        (if Solution(pb, mode, s.b, e, s.best) then NewRuns(t.b, e) else []) + Outcome(pb, mode, t, todo[1..])
      else []
    else if |s.b.open| <= 1 then []
    else
      var t := Search(Pop(s.b), s.best);
      Outcome(pb, mode, t, AllFrom(pb, t.b.open[0]))
  }

  function AllFrom(pb: Problem, u: Key): seq<Edge> {
    if u.state < |pb.dfa.connections| then Remaining(pb, u, 0, 0) else []
  }

  lemma LookScans(pb: Problem, mode: Mode, s: Search, e: Edge)
    requires Unseen(pb, s.b, e)
    ensures LookAt(pb, mode, s, e).b.scanned == s.b.scanned + {e} && e !in s.b.scanned
    ensures e.from in LookAt(pb, mode, s, e).b.dist
  {
    assert !Scanned(s.b, e);
  }

  lemma OutcomeOfLook(pb: Problem, mode: Mode, s: Search, e: Edge, rest: seq<Edge>)
    requires Sound(pb, mode, s) && Unseen(pb, s.b, e)
    ensures e.from in LookAt(pb, mode, s, e).b.dist
    ensures Outcome(pb, mode, s, [e] + rest) ==
            (if Solution(pb, mode, s.b, e, s.best) then NewRuns(LookAt(pb, mode, s, e).b, e) else [])
            + Outcome(pb, mode, LookAt(pb, mode, s, e), rest)
  {
    hide Solution, NewRuns, LookAt;
    LookScans(pb, mode, s, e);
    assert s.b.open[0] in s.b.dist;
    pb.EdgeIsKnown(e);
    assert ([e] + rest)[1..] == rest;
  }

  lemma {:induction false} OutcomeOfSilent(pb: Problem, mode: Mode, s: Search, es: seq<Edge>, rest: seq<Edge>)
    requires Sound(pb, mode, s) && Silent(pb, mode, s, es)
    ensures Outcome(pb, mode, s, es + rest) == Outcome(pb, mode, After(pb, mode, s, es), rest)
  {
    hide Sound, Solution, Outcome;
    if es == [] {
      assert es + rest == rest;
    } else {
      var front, e := es[..|es| - 1], es[|es| - 1];
      OutcomeOfSilent(pb, mode, s, front, [e] + rest);
      SilentKeeps(pb, mode, s, front);
      OutcomeOfLook(pb, mode, After(pb, mode, s, front), e, rest);
      assert es + rest == front + ([e] + rest);
    }
  }

  lemma OutcomeOfCompleted(pb: Problem, mode: Mode, s: Search, es: seq<Edge>, e: Edge, t: Search, rest: seq<Edge>)
    requires Sound(pb, mode, s) && Completes(pb, mode, s, es, e, t)
    ensures e.from in t.b.dist
    ensures Outcome(pb, mode, s, es + ([e] + rest)) == NewRuns(t.b, e) + Outcome(pb, mode, t, rest)
  {
    hide Sound, Outcome, NewRuns, LookAt;
    OutcomeOfSilent(pb, mode, s, es, [e] + rest);
    SilentKeeps(pb, mode, s, es);
    OutcomeOfLook(pb, mode, After(pb, mode, s, es), e, rest);
  }

  lemma OutcomeOfPop(pb: Problem, mode: Mode, s: Search)
    requires s.b.open != []
    ensures Outcome(pb, mode, s, []) ==
            if |s.b.open| == 1 then [] else Outcome(pb, mode, Search(Pop(s.b), s.best), AllFrom(pb, s.b.open[1]))
  {
  }

  /** When the empty run stops the search it is the only shortest run between the ends. */
  lemma StoppedResult(pb: Problem, mode: Mode, produced: seq<Run>)
    requires pb.dfa.Valid() && StopsAtStart(pb, mode) && produced == [[]]
    ensures forall r :: r in produced <==> pb.ShortestAccepted(r) && Wanted(mode, pb.End(r).node)
    ensures forall r :: multiset(produced)[r] <= 1
    ensures !exists e, f :: ParallelFirst(pb, e, f) && Wanted(mode, e.to.node)
    ensures NoDup(produced)
  {
    var empty: Run := [];
    assert pb.Accepted(empty);
    forall r | pb.ShortestAccepted(r) && Wanted(mode, pb.End(r).node) ensures r == empty {
      assert |r| <= |empty|;
    }
  }

  /** Everything a search produces from its first call on. */
  ghost function Whole(pb: Problem, mode: Mode): seq<Run> {
    if pb.startNode !in pb.graph.nodes then []
    else if StopsAtStart(pb, mode) then [[]]
    else FirstRuns(pb, mode) + Outcome(pb, mode, Search(Initial(pb), FirstBest(pb, mode)), AllFrom(pb, pb.Start()))
  }

  /** The search for paths to one end has found the shortest one possible. */
  predicate StopsAtStart(pb: Problem, mode: Mode) {
    mode.Target? && mode.node == pb.startNode && pb.dfa.Final(pb.dfa.start)
  }

  // ----- one final state: with and without the table ------------------------------------------

  /** The table holds the distance of the final state of each node where it was visited. */
  ghost predicate TableExact(pb: Problem, s: Search) {
    && (forall k {:trigger s.b.dist[k]} :: k in s.b.dist && pb.dfa.Final(k.state) ==>
          k.node in s.best && s.best[k.node] == s.b.dist[k])
    && (forall n {:trigger n in s.best} :: n in s.best ==> exists k :: k in s.b.dist && pb.dfa.Final(k.state) && k.node == n)
  }

  lemma OnlyFinal(pb: Problem, k: Key, x: Key)
    requires pb.dfa.AtMostOneFinal() && pb.dfa.Final(k.state) && pb.dfa.Final(x.state) && k.node == x.node
    ensures k == x
  {
  }

  lemma LookAlike(pb: Problem, s: Search, t: Search, e: Edge)
    requires pb.dfa.AtMostOneFinal() && TableExact(pb, s) && s.b == t.b && Unseen(pb, s.b, e)
    ensures Solution(pb, ManyFinals, s.b, e, s.best) == Solution(pb, OneFinal, t.b, e, t.best)
    ensures LookAt(pb, ManyFinals, s, e).b == LookAt(pb, OneFinal, t, e).b
    ensures TableExact(pb, LookAt(pb, ManyFinals, s, e))
  {
    var c := LookAt(pb, ManyFinals, s, e);
    if pb.dfa.Final(e.to.state) && e.to !in s.b.dist && e.to.node in s.best {
      var k :| k in s.b.dist && pb.dfa.Final(k.state) && k.node == e.to.node;
      OnlyFinal(pb, k, e.to);
      assert false;
    }
    assert c.b == Scan(s.b, e);
    forall k | k in c.b.dist && pb.dfa.Final(k.state) ensures k.node in c.best && c.best[k.node] == c.b.dist[k] {
      if k.node == e.to.node && pb.dfa.Final(e.to.state) {
        OnlyFinal(pb, k, e.to);
      }
      assert k in s.b.dist ==> s.b.dist[k] == c.b.dist[k];
    }
    forall n | n in c.best ensures exists k :: k in c.b.dist && pb.dfa.Final(k.state) && k.node == n {
      if n in s.best {
        var k :| k in s.b.dist && pb.dfa.Final(k.state) && k.node == n;
        assert k in c.b.dist;
      } else {
        assert e.to in c.b.dist;
      }
    }
  }

  lemma {:induction false} OutcomesAgree(pb: Problem, s: Search, t: Search, todo: seq<Edge>)
    requires pb.dfa.AtMostOneFinal() && TableExact(pb, s) && s.b == t.b
    ensures Outcome(pb, ManyFinals, s, todo) == Outcome(pb, OneFinal, t, todo)
    decreases pb.AllEdges() - s.b.scanned, |s.b.open|, |todo|
  {
    hide Solution, NewRuns, LookAt, TableExact, Remaining;
    if todo != [] {
      var e := todo[0];
      if Unseen(pb, s.b, e) && e in pb.AllEdges() {
        LookAlike(pb, s, t, e);
        LookScans(pb, ManyFinals, s, e);
        OutcomesAgree(pb, LookAt(pb, ManyFinals, s, e), LookAt(pb, OneFinal, t, e), todo[1..]);
      }
    } else if |s.b.open| > 1 {
      PopKeepsTable(pb, s);
      var u := Pop(s.b);
      OutcomesAgree(pb, Search(u, s.best), Search(u, t.best), AllFrom(pb, u.open[0]));
    }
  }

  lemma PopKeepsTable(pb: Problem, s: Search)
    requires TableExact(pb, s) && s.b.open != []
    ensures TableExact(pb, Search(Pop(s.b), s.best))
  {
    var t := Search(Pop(s.b), s.best);
    assert t.b.dist == s.b.dist;
  }

  /** With one final state, the search with the table and the one without produce the same runs in the
      same order. */
  lemma VersionsAgree(pb: Problem)
    requires pb.dfa.Valid() && pb.dfa.AtMostOneFinal()
    ensures Whole(pb, ManyFinals) == Whole(pb, OneFinal)
  {
    var s := Search(Initial(pb), FirstBest(pb, ManyFinals));
    assert TableExact(pb, s) by {
      forall n | n in s.best ensures exists k :: k in s.b.dist && pb.dfa.Final(k.state) && k.node == n {
        assert pb.Start() in s.b.dist;
      }
    }
    OutcomesAgree(pb, s, Search(Initial(pb), FirstBest(pb, OneFinal)), AllFrom(pb, pb.Start()));
  }

  // ----- one given end -------------------------------------------------------------------------

  /** The runs that end at the node, in their order. */
  function EndingAt(pb: Problem, runs: seq<Run>, node: nat): seq<Run> {
    if runs == [] then []
    else (if pb.End(runs[0]).node == node then [runs[0]] else []) + EndingAt(pb, runs[1..], node)
  }

  lemma {:induction false} EndingAtSum(pb: Problem, a: seq<Run>, b: seq<Run>, node: nat)
    ensures EndingAt(pb, a + b, node) == EndingAt(pb, a, node) + EndingAt(pb, b, node)
  {
    hide Problem.End;
    if a == [] {
      assert a + b == b;
    } else {
      EndingAtSum(pb, a[1..], b, node);
      assert (a + b)[1..] == a[1..] + b && (a + b)[0] == a[0];
      var x := if pb.End(a[0]).node == node then [a[0]] else [];
      assert EndingAt(pb, a + b, node) == x + (EndingAt(pb, a[1..], node) + EndingAt(pb, b, node));
      assert EndingAt(pb, a, node) == x + EndingAt(pb, a[1..], node);
    }
  }

  lemma {:induction false} EndingAtAll(pb: Problem, runs: seq<Run>, k: Key, node: nat)
    requires forall r :: r in runs ==> pb.End(r) == k
    ensures EndingAt(pb, runs, node) == if k.node == node then runs else []
  {
    if runs != [] {
      assert runs[0] in runs;
      EndingAtAll(pb, runs[1..], k, node);
    }
  }

  /** Every listed edge leads to the state that lists it. */
  ghost predicate Targeted(b: Bfs) {
    b.links.Keys == b.dist.Keys && forall k, x {:trigger x in b.links[k]} :: k in b.links && x in b.links[k] ==> x.to == k
  }

  lemma {:induction false} ViaEnds(pb: Problem, links: Links, es: seq<Edge>, k: Key, r: Run)
    requires forall x :: x in es ==> x.to == k
    requires r in PathsVia(links, 1, es)
    ensures pb.End(r) == k
    decreases |es|
  {
    if es != [] {
      assert es[0] in es;
      if r in Extend(Paths(links, 0, es[0].from), es[0]) {
      } else {
        ViaEnds(pb, links, es[1..], k, r);
      }
    }
  }

  /** What an edge completes ends where the edge ends. */
  lemma NewRunsEnd(pb: Problem, b: Bfs, e: Edge, r: Run)
    requires Targeted(b) && e.from in b.dist && r in NewRuns(b, e)
    ensures pb.End(r) == e.to
  {
    if b.dist[e.from] == 0 {
      ViaEnds(pb, b.links, LinksOf(b.links, e.to), e.to, r);
    }
  }

  /** The same search, with a table for one end only. */
  ghost predicate Narrowed(s: Search, t: Search, node: nat) {
    && t.b == s.b && Targeted(s.b)
    && (node in t.best <==> node in s.best) && (node in s.best ==> t.best[node] == s.best[node])
  }

  lemma LookNarrowed(pb: Problem, s: Search, t: Search, node: nat, e: Edge)
    requires Narrowed(s, t, node) && Unseen(pb, s.b, e)
    ensures Narrowed(LookAt(pb, ManyFinals, s, e), LookAt(pb, Target(node), t, e), node)
    ensures Solution(pb, Target(node), t.b, e, t.best) <==>
              Solution(pb, ManyFinals, s.b, e, s.best) && e.to.node == node
  {
  }

  /** The search for paths to one end produces what the search for paths to any end produces, restricted
      to that end, in the same order. */
  lemma {:induction false} OutcomeNarrowed(pb: Problem, s: Search, t: Search, node: nat, todo: seq<Edge>)
    requires Narrowed(s, t, node)
    ensures Outcome(pb, Target(node), t, todo) == EndingAt(pb, Outcome(pb, ManyFinals, s, todo), node)
    decreases pb.AllEdges() - s.b.scanned, |s.b.open|, |todo|
  {
    hide Solution, NewRuns, LookAt, Narrowed, Remaining, EndingAt;
    NothingEnds(pb, node);
    NarrowedIsSame(s, t, node);
    if todo != [] {
      var e := todo[0];
      if Unseen(pb, s.b, e) && e in pb.AllEdges() {
        LookNarrowed(pb, s, t, node, e);
        LookScans(pb, ManyFinals, s, e);
        LookScans(pb, Target(node), t, e);
        var u, v := LookAt(pb, ManyFinals, s, e), LookAt(pb, Target(node), t, e);
        OutcomeNarrowed(pb, u, v, node, todo[1..]);
        NarrowedIsSame(u, v, node);
        var runs := if Solution(pb, ManyFinals, s.b, e, s.best) then NewRuns(u.b, e) else [];
        forall r | r in runs ensures pb.End(r) == e.to {
          NewRunsEnd(pb, u.b, e, r);
        }
        EndingAtAll(pb, runs, e.to, node);
        EndingAtSum(pb, runs, Outcome(pb, ManyFinals, u, todo[1..]), node);
      }
    } else if |s.b.open| > 1 {
      var u := Pop(s.b);
      PopNarrowed(s, t, node);
      OutcomeNarrowed(pb, Search(u, s.best), Search(u, t.best), node, AllFrom(pb, u.open[0]));
    }
  }

  lemma NothingEnds(pb: Problem, node: nat)
    ensures EndingAt(pb, [], node) == []
  {
  }

  lemma NarrowedIsSame(s: Search, t: Search, node: nat)
    requires Narrowed(s, t, node)
    ensures t.b == s.b && Targeted(s.b)
  {
  }

  lemma PopNarrowed(s: Search, t: Search, node: nat)
    requires Narrowed(s, t, node) && s.b.open != []
    ensures Narrowed(Search(Pop(s.b), s.best), Search(Pop(s.b), t.best), node)
  {
  }

  /** Once the empty run has been found nothing else ends at the start node. */
  lemma {:induction false} NothingBeatsEmpty(pb: Problem, s: Search, node: nat, todo: seq<Edge>)
    requires Targeted(s.b) && node in s.best && s.best[node] == 0
    ensures EndingAt(pb, Outcome(pb, ManyFinals, s, todo), node) == []
    decreases pb.AllEdges() - s.b.scanned, |s.b.open|, |todo|
  {
    hide NewRuns, Remaining, EndingAt;
    NothingEnds(pb, node);
    if todo != [] {
      var e := todo[0];
      if Unseen(pb, s.b, e) && e in pb.AllEdges() {
        LookScans(pb, ManyFinals, s, e);
        var u := LookAt(pb, ManyFinals, s, e);
        NothingBeatsEmpty(pb, u, node, todo[1..]);
        var runs := if Solution(pb, ManyFinals, s.b, e, s.best) then NewRuns(u.b, e) else [];
        forall r | r in runs ensures pb.End(r) == e.to {
          NewRunsEnd(pb, u.b, e, r);
        }
        EndingAtAll(pb, runs, e.to, node);
        EndingAtSum(pb, runs, Outcome(pb, ManyFinals, u, todo[1..]), node);
      }
    } else if |s.b.open| > 1 {
      var u := Pop(s.b);
      NothingBeatsEmpty(pb, Search(u, s.best), node, AllFrom(pb, u.open[0]));
    }
  }

  /** The check between two fixed ends is the enumeration restricted to that end, run for run. */
  lemma CheckIsEnumeration(pb: Problem, node: nat)
    requires pb.dfa.Valid()
    ensures Whole(pb, Target(node)) == EndingAt(pb, Whole(pb, ManyFinals), node)
  {
    hide Outcome, Remaining;
    var todo := AllFrom(pb, pb.Start());
    var s := Search(Initial(pb), FirstBest(pb, ManyFinals));
    var t := Search(Initial(pb), FirstBest(pb, Target(node)));
    var first := FirstRuns(pb, ManyFinals);
    if pb.startNode in pb.graph.nodes {
      EndingAtSum(pb, first, Outcome(pb, ManyFinals, s, todo), node);
      EndingAtAll(pb, first, pb.Start(), node);
      if StopsAtStart(pb, Target(node)) {
        NothingBeatsEmpty(pb, s, node, todo);
      } else {
        OutcomeNarrowed(pb, s, t, node, todo);
      }
    }
  }
}
