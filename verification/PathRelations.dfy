/** Paths read as relations on the nodes of a graph: a path relates two nodes when one of its words leads
    from the first to the second along stored edges. */
module PathRelations {
  import opened Paths

  /** An edge of the graph as it is stored. */
  datatype NamedEdge = NamedEdge(source: nat, name: string, target: nat)

  datatype Passing = Passing(check: string, node: nat)

  datatype NamedGraph = NamedGraph(edges: set<NamedEdge>, passing: set<Passing>) {

    /** One letter takes an edge along or against its direction, or stays at a node that passes a check. */
    ghost predicate Takes(l: Letter, x: nat, y: nat) {
      match l
      case Edge(n, false) => NamedEdge(x, n, y) in edges
      case Edge(n, true) => NamedEdge(y, n, x) in edges
      case Test(c) => x == y && Passing(c, x) in passing
    }

    ghost predicate Leads(w: Word, x: nat, y: nat)
      decreases |w|
    {
      if w == [] then x == y else exists z :: Takes(w[0], x, z) && Leads(w[1..], z, y)
    }

    ghost predicate Relates(p: Path, x: nat, y: nat) {
      exists w :: Matches(p, w) && Leads(w, x, y)
    }

    lemma {:induction false} LeadsConcat(u: Word, v: Word, x: nat, y: nat)
      ensures Leads(u + v, x, y) <==> exists z :: Leads(u, x, z) && Leads(v, z, y)
    {
      hide NamedGraph.Takes;
      if u == [] {
        assert u + v == v && Leads(u, x, x);
      } else {
        assert (u + v)[0] == u[0] && (u + v)[1..] == u[1..] + v;
        if Leads(u + v, x, y) {
          var m :| Takes(u[0], x, m) && Leads(u[1..] + v, m, y);
          LeadsConcat(u[1..], v, m, y);
          var z :| Leads(u[1..], m, z) && Leads(v, z, y);
          assert Leads(u, x, z);
        }
        if z :| Leads(u, x, z) && Leads(v, z, y) {
          var m :| Takes(u[0], x, m) && Leads(u[1..], m, z);
          LeadsConcat(u[1..], v, m, y);
          assert Leads(u[1..], m, z) && Leads(v, z, y);
          assert Leads(u[1..] + v, m, y);
          assert Takes((u + v)[0], x, m) && Leads((u + v)[1..], m, y);
        }
      }
    }

    lemma LeadsOne(l: Letter, x: nat, y: nat)
      ensures Leads([l], x, y) <==> Takes(l, x, y)
    {
      assert [l][1..] == [];
      assert Leads([], y, y);
      if Takes(l, x, y) {
        assert Takes([l][0], x, y) && Leads([l][1..], y, y);
      }
    }

    /** A word walked backwards leads back. */
    lemma {:induction false} LeadsBack(w: Word, x: nat, y: nat)
      ensures Leads(Backwards(w), y, x) <==> Leads(w, x, y)
    {
      if w == [] {
      } else {
        var back, first := Backwards(w[1..]), [Flip(w[0])];
        assert Backwards(w) == back + first;
        LeadsConcat(back, first, y, x);
        forall z ensures Leads(back, y, z) && Leads(first, z, x) <==> Takes(w[0], x, z) && Leads(w[1..], z, y) {
          LeadsBack(w[1..], z, y);
          LeadsOne(Flip(w[0]), z, x);
          assert Takes(Flip(w[0]), z, x) <==> Takes(w[0], x, z);
        }
        if z :| Leads(back, y, z) && Leads(first, z, x) {
          assert Takes(w[0], x, z) && Leads(w[1..], z, y);
        }
        if z :| Takes(w[0], x, z) && Leads(w[1..], z, y) {
          assert Leads(back, y, z) && Leads(first, z, x);
        }
      }
    }

    /** The inverted path relates just the pairs of the path the other way round. */
    lemma InvertRelates(p: Path, x: nat, y: nat)
      ensures Relates(p.Invert(), y, x) <==> Relates(p, x, y)
    {
      hide Matches, NamedGraph.Leads;
      if w :| Matches(p, w) && Leads(w, x, y) {
        InvertMatches(p, w);
        LeadsBack(w, x, y);
      }
      if w :| Matches(p.Invert(), w) && Leads(w, y, x) {
        InvertReverses(p, w);
        LeadsBack(Backwards(w), x, y);
        BackwardsTwice(w);
      }
    }

    /** What single steps relate. */
    lemma AtomRelates(n: string, x: nat, y: nat)
      ensures Relates(Atom(n, false), x, y) <==> NamedEdge(x, n, y) in edges
      ensures Relates(Atom(n, true), x, y) <==> NamedEdge(y, n, x) in edges
    {
      LeadsOne(Edge(n, false), x, y);
      LeadsOne(Edge(n, true), x, y);
      assert Matches(Atom(n, false), [Edge(n, false)]) && Matches(Atom(n, true), [Edge(n, true)]);
    }
  }
}
