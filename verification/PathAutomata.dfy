/** Automata with epsilon transitions, as values: how they are built, and which words they accept. */
module PathAutomata {
  import opened Paths

  datatype Label = Epsilon | On(letter: Letter)

  datatype Transition = Transition(from: nat, to: nat, kind: Label) {
    function Shifted(k: nat): Transition {
      Transition(from + k, to + k, kind)
    }
  }

  /** `outer[i]` lists the transitions that start at state `i`; a new automaton has one state and no list. */
  datatype Nfa = Nfa(start: nat, total: nat, ends: set<nat>, outer: seq<seq<Transition>>)

  const NEW_NFA := Nfa(0, 1, {}, [])

  ghost function Edges(a: Nfa): set<Transition> {
    set i, e | 0 <= i < |a.outer| && e in a.outer[i] :: e
  }

  function Padded(outer: seq<seq<Transition>>, n: nat): (r: seq<seq<Transition>>)
    ensures |r| == if |outer| < n then n else |outer|
    ensures forall i :: 0 <= i < |r| ==> r[i] == if i < |outer| then outer[i] else []
  {
    outer + seq(if |outer| < n then n - |outer| else 0, _ => [])
  }

  function Max(x: nat, y: nat): nat {
    if x < y then y else x
  }

  /** Adds a transition unless it is there, and the states it needs. */
  function Added(a: Nfa, e: Transition): Nfa {
    var outer := Padded(a.outer, Max(e.from, e.to) + 1);
    var row := if e in outer[e.from] then outer[e.from] else outer[e.from] + [e];
    a.(outer := outer[e.from := row], total := |outer|)
  }

  function AddedRow(a: Nfa, k: nat, row: seq<Transition>): Nfa
    decreases row
  {
    if row == [] then a else AddedRow(Added(a, row[0].Shifted(k)), k, row[1..])
  }

  function AddedRows(a: Nfa, k: nat, rows: seq<seq<Transition>>): Nfa
    decreases rows
  {
    if rows == [] then a else AddedRows(AddedRow(a, k, rows[0]), k, rows[1..])
  }

  /** The transitions of `a`, and those of `b` with its states renamed to come after the states of `a`. */
  function Merged(a: Nfa, b: Nfa): Nfa {
    AddedRows(a, a.total, b.outer)
  }

  function Renamed(s: set<nat>, k: nat): set<nat> {
    set x | x in s :: x + k
  }

  // ----- well-formed automata --------------------------------------------------------------------------------

  /** Every transition is listed at the state it starts from and leads to an existing state. */
  ghost predicate Listed(a: Nfa) {
    && (|a.outer| == a.total || (a.outer == [] && a.total == 1))
    && forall i, e :: 0 <= i < |a.outer| && e in a.outer[i] ==> e.from == i && e.to < |a.outer|
  }

  /** The last state is at an end of some transition. */
  ghost predicate Tight(a: Nfa) {
    exists e :: e in Edges(a) && Max(e.from, e.to) == a.total - 1
  }

  ghost predicate Proper(a: Nfa) {
    && Listed(a) && Tight(a) && a.start == 0 && |a.outer| == a.total > 0 && a.outer[0] != []
    && forall s :: s in a.ends ==> s < a.total
  }

  lemma EdgesListed(a: Nfa, e: Transition)
    requires Listed(a)
    ensures e in Edges(a) <==> e.from < |a.outer| && e in a.outer[e.from]
    ensures e in Edges(a) ==> e.from < a.total && e.to < a.total
  {
  }

  lemma AddedHas(a: Nfa, e: Transition)
    requires Listed(a)
    ensures Listed(Added(a, e)) && Edges(Added(a, e)) == Edges(a) + {e}
    ensures Added(a, e).total == Max(a.total, Max(e.from, e.to) + 1) == |Added(a, e).outer|
    ensures Added(a, e).start == a.start && Added(a, e).ends == a.ends
    ensures |a.outer| > 0 && a.outer[0] != [] ==> Added(a, e).outer[0] != [] && Added(a, e).outer[0][0] == a.outer[0][0]
    ensures (a.outer == [] || a.outer[0] == []) && e.from == 0 ==> Added(a, e).outer[0] == [e]
  {
    var b := Added(a, e);
    forall x ensures x in Edges(b) <==> x in Edges(a) || x == e {
      if x in Edges(b) {
        var i :| 0 <= i < |b.outer| && x in b.outer[i];
        if x != e {
          assert i < |a.outer| && x in a.outer[i];
        }
      }
      if x in Edges(a) {
        var i :| 0 <= i < |a.outer| && x in a.outer[i];
        assert x in b.outer[i];
      }
      if x == e {
        assert x in b.outer[e.from];
      }
    }
  }

  ghost function Row(row: seq<Transition>, k: nat): set<Transition> {
    set e | e in row :: e.Shifted(k)
  }

  ghost function Rows(rows: seq<seq<Transition>>, k: nat): set<Transition> {
    set i, e | 0 <= i < |rows| && e in rows[i] :: e.Shifted(k)
  }

  /** What adding transitions never changes. */
  ghost predicate Extends(a: Nfa, b: Nfa) {
    && b.total >= a.total && b.start == a.start && b.ends == a.ends && (|a.outer| == a.total ==> |b.outer| == b.total)
    && (|a.outer| > 0 && a.outer[0] != [] ==> |b.outer| > 0 && b.outer[0] != [] && b.outer[0][0] == a.outer[0][0])
  }

  lemma {:induction false} AddedRowHas(a: Nfa, k: nat, row: seq<Transition>)
    requires Listed(a)
    ensures var b := AddedRow(a, k, row); Listed(b) && Edges(b) == Edges(a) + Row(row, k) && Extends(a, b)
    ensures row != [] ==> |AddedRow(a, k, row).outer| == AddedRow(a, k, row).total
    decreases |row|
  {
    hide Added, Listed, Edges;
    if row != [] {
      AddedHas(a, row[0].Shifted(k));
      AddedRowHas(Added(a, row[0].Shifted(k)), k, row[1..]);
      RowSplit(row, k);
    } else {
      assert Row(row, k) == {};
    }
  }

  lemma RowSplit(row: seq<Transition>, k: nat)
    requires row != []
    ensures Row(row, k) == {row[0].Shifted(k)} + Row(row[1..], k)
  {
    assert row == [row[0]] + row[1..];
  }

  /** The number of states afterwards: as many as the transitions need. */
  lemma {:induction false} AddedRowTotal(a: Nfa, k: nat, row: seq<Transition>, n: nat)
    requires Listed(a) && a.total <= n && forall e :: e in row ==> Max(e.from, e.to) + k < n
    ensures AddedRow(a, k, row).total <= n
    ensures forall e :: e in row ==> Max(e.from, e.to) + k < AddedRow(a, k, row).total
    decreases |row|
  {
    hide Added, Listed, Edges;
    if row != [] {
      var c := Added(a, row[0].Shifted(k));
      AddedHas(a, row[0].Shifted(k));
      AddedRowTotal(c, k, row[1..], n);
      AddedRowHas(c, k, row[1..]);
      assert row == [row[0]] + row[1..];
    }
  }

  lemma {:induction false} AddedRowsHas(a: Nfa, k: nat, rows: seq<seq<Transition>>)
    requires Listed(a)
    ensures var b := AddedRows(a, k, rows); Listed(b) && Edges(b) == Edges(a) + Rows(rows, k) && Extends(a, b)
    decreases |rows|
  {
    hide Added, Listed, Edges, AddedRow;
    if rows != [] {
      AddedRowHas(a, k, rows[0]);
      AddedRowsHas(AddedRow(a, k, rows[0]), k, rows[1..]);
      RowsSplit(rows, k);
    } else {
      assert Rows(rows, k) == {};
    }
  }

  lemma {:induction false} AddedRowsTotal(a: Nfa, k: nat, rows: seq<seq<Transition>>, n: nat)
    requires Listed(a) && a.total <= n && forall i, e :: 0 <= i < |rows| && e in rows[i] ==> Max(e.from, e.to) + k < n
    ensures AddedRows(a, k, rows).total <= n
    ensures forall i, e :: 0 <= i < |rows| && e in rows[i] ==> Max(e.from, e.to) + k < AddedRows(a, k, rows).total
    decreases |rows|
  {
    hide Added, Listed, Edges, AddedRow;
    if rows != [] {
      var c := AddedRow(a, k, rows[0]);
      AddedRowHas(a, k, rows[0]);
      AddedRowTotal(a, k, rows[0], n);
      assert forall i, e :: 0 <= i < |rows[1..]| && e in rows[1..][i] ==> e in rows[i + 1];
      AddedRowsTotal(c, k, rows[1..], n);
      AddedRowsHas(c, k, rows[1..]);
      forall i, e | 0 <= i < |rows| && e in rows[i] ensures Max(e.from, e.to) + k < AddedRows(a, k, rows).total {
        assert i > 0 ==> rows[i] == rows[1..][i - 1];
      }
    }
  }

  lemma RowsSplit(rows: seq<seq<Transition>>, k: nat)
    requires rows != []
    ensures Rows(rows, k) == Row(rows[0], k) + Rows(rows[1..], k)
  {
    forall x ensures x in Rows(rows, k) <==> x in Row(rows[0], k) || x in Rows(rows[1..], k) {
      if x in Rows(rows, k) {
        var i, e :| 0 <= i < |rows| && e in rows[i] && e.Shifted(k) == x;
        assert i > 0 ==> e in rows[1..][i - 1];
      }
      if x in Rows(rows[1..], k) {
        var i, e :| 0 <= i < |rows[1..]| && e in rows[1..][i] && e.Shifted(k) == x;
        assert e in rows[i + 1];
      }
    }
  }

  ghost function ShiftedEdges(es: set<Transition>, k: nat): set<Transition> {
    set e | e in es :: e.Shifted(k)
  }

  /** Merging adds the renamed transitions and states of the other automaton. */
  lemma MergedHas(a: Nfa, b: Nfa)
    requires Listed(a) && Proper(b)
    ensures var c := Merged(a, b);
      && Listed(c) && Edges(c) == Edges(a) + ShiftedEdges(Edges(b), a.total) && c.total == a.total + b.total
      && c.start == a.start && c.ends == a.ends && |c.outer| == c.total
      && (|a.outer| > 0 && a.outer[0] != [] ==> c.outer[0] != [] && c.outer[0][0] == a.outer[0][0])
  {
    var k := a.total;
    AddedRowsHas(a, k, b.outer);
    RowsAreShifted(b, k);
    AddedRowsTotal(a, k, b.outer, k + b.total);
    var e :| e in Edges(b) && Max(e.from, e.to) == b.total - 1;
    var i :| 0 <= i < |b.outer| && e in b.outer[i];
    var c := Merged(a, b);
    assert c.total == k + b.total;
    assert e.Shifted(k) in Edges(c);
    EdgesListed(c, e.Shifted(k));
  }

  lemma RowsAreShifted(b: Nfa, k: nat)
    ensures Rows(b.outer, k) == ShiftedEdges(Edges(b), k)
  {
    forall x ensures x in Rows(b.outer, k) <==> x in ShiftedEdges(Edges(b), k) {
      if x in Rows(b.outer, k) {
        var i, e :| 0 <= i < |b.outer| && e in b.outer[i] && e.Shifted(k) == x;
        assert e in Edges(b);
      }
    }
  }

  // ----- the constructions -----------------------------------------------------------------------------------

  lemma {:induction false} FindLeast(s: set<nat>) returns (m: nat)
    requires s != {}
    ensures m in s && forall x :: x in s ==> m <= x
    decreases |s|
  {
    m :| m in s;
    if s != {m} {
      var rest := s - {m};
      assert s == rest + {m};
      var least := FindLeast(rest);
      m := if least <= m then least else m;
    }
  }

  lemma LeastExists(s: set<nat>)
    requires s != {}
    ensures exists m :: m in s && forall x :: x in s ==> m <= x
  {
    var m := FindLeast(s);
  }

  ghost function Least(s: set<nat>): (m: nat)
    requires s != {}
    ensures m in s && forall x :: x in s ==> m <= x
  {
    LeastExists(s);
    var m :| m in s && forall x :: x in s ==> m <= x;
    m
  }

  /** Adds an epsilon transition to `to` from every state of `s`, in ascending order. */
  ghost function WithEpsilons(a: Nfa, s: set<nat>, to: nat): Nfa
    decreases |s|
  {
    if s == {} then a else WithEpsilons(Added(a, Transition(Least(s), to, Epsilon)), s - {Least(s)}, to)
  }

  ghost function Epsilons(s: set<nat>, to: nat): set<Transition> {
    set x | x in s :: Transition(x, to, Epsilon)
  }

  lemma {:induction false} WithEpsilonsHas(a: Nfa, s: set<nat>, to: nat)
    requires Listed(a) && |a.outer| == a.total && to < a.total && forall x :: x in s ==> x < a.total
    ensures var b := WithEpsilons(a, s, to);
      && Listed(b) && Edges(b) == Edges(a) + Epsilons(s, to) && Extends(a, b) && b.total == a.total
    decreases |s|
  {
    hide Added, Listed, Edges;
    if s != {} {
      var e := Transition(Least(s), to, Epsilon);
      AddedHas(a, e);
      WithEpsilonsHas(Added(a, e), s - {Least(s)}, to);
      assert Epsilons(s, to) == {e} + Epsilons(s - {Least(s)}, to);
    } else {
      assert Epsilons(s, to) == {};
    }
  }

  ghost function AtomNfa(l: Letter): Nfa {
    Added(NEW_NFA.(ends := {1}), Transition(0, 1, On(l)))
  }

  /** `a` and then `b`: the ends of `a` lead to the start of `b`. */
  ghost function Linked(a: Nfa, b: Nfa): Nfa {
    WithEpsilons(Merged(a, b), a.ends, a.total).(ends := Renamed(b.ends, a.total))
  }

  /** `a` or `b`: the start of `a` leads to the start of `b`. */
  ghost function Joined(a: Nfa, b: Nfa): Nfa {
    Added(Merged(a, b), Transition(a.start, a.total, Epsilon)).(ends := a.ends + Renamed(b.ends, a.total))
  }

  /** `a` any number of times: its ends lead to its start, which becomes an end. */
  ghost function Looped(a: Nfa): Nfa {
    WithEpsilons(a, a.ends, a.start).(ends := a.ends + {a.start})
  }

  /** The star of an automaton with two states: one state and one loop. */
  ghost function Shortcut(a: Nfa): Nfa
    requires Proper(a)
  {
    Added(NEW_NFA, Transition(0, 0, a.outer[0][0].kind)).(ends := {0})
  }

  ghost function StarNfa(a: Nfa): Nfa
    requires Proper(a)
  {
    if a.total == 2 then Shortcut(a) else Looped(a)
  }

  ghost predicate ProperOrNew(a: Nfa) {
    a == NEW_NFA || Proper(a)
  }

  lemma NewIsListed()
    ensures Listed(NEW_NFA) && Edges(NEW_NFA) == {}
  {
  }

  lemma TightBy(a: Nfa, e: Transition)
    requires e in Edges(a) && Max(e.from, e.to) == a.total - 1
    ensures Tight(a)
  {
  }

  /** One step labelled `l`, from state 0 to state 1. */
  ghost predicate AtomLike(a: Nfa, l: Letter) {
    && a.total == 2 && a.ends == {1} && a.start == 0 && Edges(a) == {Transition(0, 1, On(l))}
    && |a.outer| > 0 && |a.outer[0]| > 0 && a.outer[0][0] == Transition(0, 1, On(l))
  }

  lemma AtomFacts(l: Letter)
    ensures Proper(AtomNfa(l)) && AtomLike(AtomNfa(l), l)
  {
    hide Added;
    NewIsListed();
    var n, e := NEW_NFA.(ends := {1}), Transition(0, 1, On(l));
    assert Listed(n) && Edges(n) == {};
    AddedHas(n, e);
    TightBy(AtomNfa(l), e);
  }

  /** A list of transitions with new ends is a proper automaton. */
  lemma Reended(a: Nfa, ends: set<nat>, e: Transition)
    requires Listed(a) && |a.outer| == a.total > 0 && a.start == 0 && a.outer[0] != [] && forall s :: s in ends ==> s < a.total
    requires e in Edges(a) && Max(e.from, e.to) == a.total - 1
    ensures Proper(a.(ends := ends)) && Edges(a.(ends := ends)) == Edges(a)
  {
    SameEdges(a, a.(ends := ends));
    TightBy(a.(ends := ends), e);
  }

  lemma ProperIsListed(a: Nfa)
    requires Proper(a)
    ensures Listed(a)
  {
  }

  lemma LastEdge(a: Nfa) returns (e: Transition)
    requires Proper(a)
    ensures e in Edges(a) && Max(e.from, e.to) == a.total - 1
  {
    e :| e in Edges(a) && Max(e.from, e.to) == a.total - 1;
  }

  lemma ShiftedIn(es: set<Transition>, k: nat, e: Transition)
    requires e in es
    ensures e.Shifted(k) in ShiftedEdges(es, k) && Max(e.Shifted(k).from, e.Shifted(k).to) == Max(e.from, e.to) + k
  {
  }

  lemma LinkedFacts(a: Nfa, b: Nfa)
    requires Proper(a) && Proper(b)
    ensures var c := Linked(a, b);
      && Proper(c) && c.total == a.total + b.total && c.start == 0 && c.ends == Renamed(b.ends, a.total)
      && Edges(c) == Edges(a) + ShiftedEdges(Edges(b), a.total) + Epsilons(a.ends, a.total)
      && c.outer[0][0] == a.outer[0][0]
  {
    hide Proper, Listed, Edges, Merged, WithEpsilons, Epsilons, ShiftedEdges, Max;
    ProperStart(a);
    ProperStart(b);
    ProperIsListed(a);
    MergedHas(a, b);
    WithEpsilonsHas(Merged(a, b), a.ends, a.total);
    var e := LastEdge(b);
    ShiftedIn(Edges(b), a.total, e);
    Reended(WithEpsilons(Merged(a, b), a.ends, a.total), Renamed(b.ends, a.total), e.Shifted(a.total));
  }

  lemma SameEdges(a: Nfa, b: Nfa)
    requires a.outer == b.outer
    ensures Edges(a) == Edges(b)
  {
  }

  lemma JoinedFacts(a: Nfa, b: Nfa)
    requires ProperOrNew(a) && Proper(b)
    ensures var c := Joined(a, b);
      && Proper(c) && c.total == a.total + b.total && c.start == 0 && c.ends == a.ends + Renamed(b.ends, a.total)
      && Edges(c) == Edges(a) + ShiftedEdges(Edges(b), a.total) + {Transition(0, a.total, Epsilon)}
  {
    hide Proper, ProperOrNew, Listed, Edges, Merged, Added, ShiftedEdges, Max;
    JoinReady(a);
    ProperStart(b);
    MergedHas(a, b);
    var m := Merged(a, b);
    var e := Transition(0, a.total, Epsilon);
    AddedHas(m, e);
    StartHasList(m, e);
    JoinedTotal(m, a.total, b.total);
    var last := LastEdge(b);
    ShiftedIn(Edges(b), a.total, last);
    Reended(Added(m, e), a.ends + Renamed(b.ends, a.total), last.Shifted(a.total));
  }

  lemma JoinReady(a: Nfa)
    requires ProperOrNew(a)
    ensures Listed(a) && a.start == 0 < a.total && forall t :: t in a.ends ==> t < a.total
  {
    NewIsListed();
  }

  lemma JoinedTotal(m: Nfa, k: nat, n: nat)
    requires m.total == k + n && n > 0
    ensures Max(m.total, Max(0, k) + 1) == m.total
  {
  }

  lemma StartHasList(m: Nfa, e: Transition)
    requires Listed(m) && |m.outer| == m.total && e.from == 0
    ensures |Added(m, e).outer| > 0 && Added(m, e).outer[0] != []
  {
    AddedHas(m, e);
    EdgesListed(Added(m, e), e);
  }

  lemma LoopedFacts(a: Nfa)
    requires Proper(a)
    ensures var c := Looped(a);
      && Proper(c) && c.total == a.total && c.start == 0 && c.ends == a.ends + {0}
      && Edges(c) == Edges(a) + Epsilons(a.ends, 0)
  {
    hide Added, Edges;
    WithEpsilonsHas(a, a.ends, 0);
    var c := Looped(a);
    SameEdges(WithEpsilons(a, a.ends, 0), c);
    var x :| x in Edges(a) && Max(x.from, x.to) == a.total - 1;
    TightBy(c, x);
  }

  lemma ShortcutFacts(a: Nfa)
    requires Proper(a)
    ensures var c, e := Shortcut(a), Transition(0, 0, a.outer[0][0].kind);
      && Proper(c) && c.total == 1 && c.start == 0 && c.ends == {0} && Edges(c) == {e} && c.outer[0][0] == e
  {
    hide Added;
    NewIsListed();
    var e := Transition(0, 0, a.outer[0][0].kind);
    AddedHas(NEW_NFA, e);
    SameEdges(Added(NEW_NFA, e), Shortcut(a));
    TightBy(Shortcut(a), e);
  }

  lemma OptionalFacts(a: Nfa)
    requires Proper(a)
    ensures Proper(a.(ends := a.ends + {a.start})) && Edges(a.(ends := a.ends + {a.start})) == Edges(a)
  {
    ProperStart(a);
    var e := LastEdge(a);
    Reended(a, a.ends + {a.start}, e);
  }

  // ----- the automaton of a path -----------------------------------------------------------------------------

  /** Paths that an automaton is built for: no node checks, no empty lists. */
  predicate Plain(p: Path)
    decreases p, 1
  {
    match p
    case Atom(_, _) => true
    case Check(_) => false
    case Sequence(ps) => ps != [] && PlainAll(ps)
    case Alternatives(ps) => ps != [] && PlainAll(ps)
    case KleeneStar(q) => Plain(q)
    case Optional(q) => Plain(q)
  }

  predicate PlainAll(ps: seq<Path>)
    decreases ps, 0
  {
    ps == [] || (Plain(ps[0]) && PlainAll(ps[1..]))
  }

  lemma PlainParts(ps: seq<Path>)
    requires PlainAll(ps) && ps != []
    ensures Plain(ps[0]) && PlainAll(ps[1..])
  {
  }

  ghost function BaseNfa(p: Path): (a: Nfa)
    requires Plain(p)
    ensures Proper(a)
    decreases p, 1
  {
    match p
    case Atom(n, i) => AtomFacts(Edge(n, i)); AtomNfa(Edge(n, i))
    case Sequence(ps) => PlainParts(ps); LinkAll(BaseNfa(ps[0]), ps[1..])
    case Alternatives(ps) => JoinAll(NEW_NFA, ps)
    case KleeneStar(q) => LoopedFacts(BaseNfa(q)); ShortcutFacts(BaseNfa(q)); StarNfa(BaseNfa(q))
    case Optional(q) => OptionalFacts(BaseNfa(q)); BaseNfa(q).(ends := BaseNfa(q).ends + {BaseNfa(q).start})
  }

  ghost function LinkAll(a: Nfa, ps: seq<Path>): (b: Nfa)
    requires Proper(a) && PlainAll(ps)
    ensures Proper(b)
    decreases ps, 0
  {
    if ps == [] then a else LinkedFacts(a, BaseNfa(ps[0])); LinkAll(Linked(a, BaseNfa(ps[0])), ps[1..])
  }

  ghost function JoinAll(a: Nfa, ps: seq<Path>): (b: Nfa)
    requires ProperOrNew(a) && PlainAll(ps)
    ensures ps != [] || Proper(a) ==> Proper(b)
    ensures ps == [] ==> b == a
    decreases ps, 0
  {
    if ps == [] then a else JoinedFacts(a, BaseNfa(ps[0])); JoinAll(Joined(a, BaseNfa(ps[0])), ps[1..])
  }

  // ----- runs --------------------------------------------------------------------------------------------------

  type Run = seq<Transition>

  ghost predicate Runs(es: set<Transition>, s: nat, r: Run, t: nat)
    decreases r
  {
    if r == [] then s == t else r[0] in es && r[0].from == s && Runs(es, r[0].to, r[1..], t)
  }

  ghost function Spelled(r: Run): Word {
    if r == [] then [] else (if r[0].kind == Epsilon then [] else [r[0].kind.letter]) + Spelled(r[1..])
  }

  ghost predicate AcceptsBy(a: Nfa, w: Word, r: Run, t: nat) {
    t in a.ends && Runs(Edges(a), a.start, r, t) && Spelled(r) == w
  }

  /** Some run from the start to an end spells `w`. */
  ghost predicate Accepts(a: Nfa, w: Word) {
    exists r, t :: AcceptsBy(a, w, r, t)
  }

  lemma {:induction false} SpelledConcat(r: Run, q: Run)
    ensures Spelled(r + q) == Spelled(r) + Spelled(q)
  {
    if r == [] {
      assert r + q == q;
    } else {
      assert (r + q)[0] == r[0] && (r + q)[1..] == r[1..] + q;
      SpelledConcat(r[1..], q);
    }
  }

  lemma SpelledAround(r: Run, i: nat)
    requires i < |r| && r[i].kind == Epsilon
    ensures Spelled(r) == Spelled(r[..i]) + Spelled(r[i + 1..])
  {
    assert r == r[..i] + r[i..] && r[i..][0] == r[i] && r[i..][1..] == r[i + 1..];
    SpelledConcat(r[..i], r[i..]);
  }

  lemma {:induction false} RunsConcat(es: set<Transition>, s: nat, r: Run, m: nat, q: Run, t: nat)
    requires Runs(es, s, r, m) && Runs(es, m, q, t)
    ensures Runs(es, s, r + q, t)
    decreases |r|
  {
    if r == [] {
      assert r + q == q;
    } else {
      assert (r + q)[0] == r[0] && (r + q)[1..] == r[1..] + q;
      RunsConcat(es, r[0].to, r[1..], m, q, t);
    }
  }

  lemma {:induction false} RunsMore(es: set<Transition>, fs: set<Transition>, s: nat, r: Run, t: nat)
    requires Runs(es, s, r, t) && es <= fs
    ensures Runs(fs, s, r, t)
    decreases |r|
  {
    if r != [] {
      RunsMore(es, fs, r[0].to, r[1..], t);
    }
  }

  lemma RunsOne(es: set<Transition>, e: Transition)
    requires e in es
    ensures Runs(es, e.from, [e], e.to) && Spelled([e]) == if e.kind == Epsilon then [] else [e.kind.letter]
  {
    assert [e][1..] == [];
  }

  ghost function ShiftedRun(r: Run, k: nat): Run {
    if r == [] then [] else [r[0].Shifted(k)] + ShiftedRun(r[1..], k)
  }

  lemma {:induction false} RunsShift(es: set<Transition>, k: nat, s: nat, r: Run, t: nat)
    requires Runs(es, s, r, t)
    ensures Runs(ShiftedEdges(es, k), s + k, ShiftedRun(r, k), t + k) && Spelled(ShiftedRun(r, k)) == Spelled(r)
    decreases |r|
  {
    if r != [] {
      RunsShift(es, k, r[0].to, r[1..], t);
    }
  }

  /** A run of renamed transitions is a renamed run. */
  lemma {:induction false} RunsUnshift(es: set<Transition>, k: nat, s: nat, r: Run, t: nat) returns (q: Run)
    requires Runs(ShiftedEdges(es, k), s + k, r, t + k)
    ensures Runs(es, s, q, t) && Spelled(q) == Spelled(r)
    decreases |r|
  {
    if r == [] {
      q := [];
    } else {
      var e :| e in es && e.Shifted(k) == r[0];
      var rest := RunsUnshift(es, k, e.to, r[1..], t);
      q := [e] + rest;
      assert q[1..] == rest;
    }
  }

  // ----- what the constructions accept ------------------------------------------------------------------------

  ghost predicate Both(a: Nfa, b: Nfa, w: Word) {
    exists j :: 0 <= j <= |w| && Accepts(a, w[..j]) && Accepts(b, w[j..])
  }

  lemma LinkedAccepts(a: Nfa, b: Nfa, u: Word, v: Word)
    requires Proper(a) && Proper(b) && Accepts(a, u) && Accepts(b, v)
    ensures Accepts(Linked(a, b), u + v)
  {
    hide Edges, Linked, Proper, Runs, Spelled, ShiftedRun;
    var k := a.total;
    var c := Linked(a, b);
    LinkedFacts(a, b);
    ProperStart(a);
    ProperStart(b);
    var r, t :| AcceptsBy(a, u, r, t);
    var q, x :| AcceptsBy(b, v, q, x);
    var e := Transition(t, k, Epsilon);
    assert e in Epsilons(a.ends, k);
    RunsShift(Edges(b), k, 0, q, x);
    RunsMore(Edges(a), Edges(c), 0, r, t);
    RunsMore(ShiftedEdges(Edges(b), k), Edges(c), k, ShiftedRun(q, k), x + k);
    RunsOne(Edges(c), e);
    RunsConcat(Edges(c), t, [e], k, ShiftedRun(q, k), x + k);
    RunsConcat(Edges(c), 0, r, t, [e] + ShiftedRun(q, k), x + k);
    SpelledConcat([e], ShiftedRun(q, k));
    SpelledConcat(r, [e] + ShiftedRun(q, k));
    assert x + k in c.ends;
    assert AcceptsBy(c, u + v, r + ([e] + ShiftedRun(q, k)), x + k);
  }

  lemma ProperStart(a: Nfa)
    requires Proper(a)
    ensures a.start == 0 < a.total && |a.outer| == a.total && a.outer[0] != []
    ensures forall e :: e in Edges(a) ==> e.from < a.total && e.to < a.total
    ensures forall t :: t in a.ends ==> t < a.total
  {
  }

  /** A run that leaves the states below `k` does so by one epsilon transition from an end of `a`. */
  lemma {:induction false} LinkedSplit(ea: set<Transition>, eb: set<Transition>, ends: set<nat>, k: nat, s: nat, r: Run, t: nat) returns (i: nat)
    requires Runs(ea + eb + Epsilons(ends, k), s, r, t) && s < k <= t
    requires (forall e :: e in ea ==> e.from < k && e.to < k) && (forall e :: e in eb ==> e.from >= k && e.to >= k)
    requires forall x :: x in ends ==> x < k
    ensures i < |r| && r[i].kind == Epsilon && r[i].from in ends
    ensures Runs(ea, s, r[..i], r[i].from) && Runs(eb, k, r[i + 1..], t)
    decreases |r|
  {
    if r[0] in ea {
      var j := LinkedSplit(ea, eb, ends, k, r[0].to, r[1..], t);
      i := j + 1;
      assert r[..i][1..] == r[1..][..j] && r[1..][j + 1..] == r[i + 1..] && r[1..][j] == r[i];
      assert r[..i][0] == r[0];
    } else {
      i := 0;
      StayAbove(ea, eb, ends, k, k, r[1..], t);
      assert r[..0] == [];
    }
  }

  lemma {:induction false} StayAbove(ea: set<Transition>, eb: set<Transition>, ends: set<nat>, k: nat, s: nat, r: Run, t: nat)
    requires Runs(ea + eb + Epsilons(ends, k), s, r, t) && s >= k
    requires (forall e :: e in ea ==> e.from < k && e.to < k) && (forall e :: e in eb ==> e.from >= k && e.to >= k)
    requires forall x :: x in ends ==> x < k
    ensures Runs(eb, s, r, t)
    decreases |r|
  {
    if r != [] {
      StayAbove(ea, eb, ends, k, r[0].to, r[1..], t);
    }
  }

  lemma LinkedAcceptsOnly(a: Nfa, b: Nfa, w: Word)
    requires Proper(a) && Proper(b) && Accepts(Linked(a, b), w)
    ensures Both(a, b, w)
  {
    hide Edges, Linked, Proper, Runs, Spelled;
    var k := a.total;
    var c := Linked(a, b);
    LinkedFacts(a, b);
    ProperStart(a);
    ProperStart(b);
    var r: Run, t :| AcceptsBy(c, w, r, t);
    var x :| x in b.ends && x + k == t;
    var i := LinkedSplit(Edges(a), ShiftedEdges(Edges(b), k), a.ends, k, 0, r, t);
    var q := RunsUnshift(Edges(b), k, 0, r[i + 1..], x);
    SpelledAround(r, i);
    var u, v := Spelled(r[..i]), Spelled(q);
    assert AcceptsBy(a, u, r[..i], r[i].from) && AcceptsBy(b, v, q, x);
    assert w[..|u|] == u && w[|u|..] == v;
  }

  /** No transition leads back to the start. */
  ghost predicate NoReturn(a: Nfa) {
    forall e :: e in Edges(a) ==> e.to != a.start
  }

  lemma JoinedAccepts(a: Nfa, b: Nfa, w: Word)
    requires ProperOrNew(a) && Proper(b) && (Accepts(a, w) || Accepts(b, w))
    ensures Accepts(Joined(a, b), w)
  {
    hide Edges, Joined, Proper, Runs, Spelled, ShiftedRun;
    var k, c := a.total, Joined(a, b);
    JoinedFacts(a, b);
    ProperStart(b);
    StartsAtZero(a);
    if Accepts(a, w) {
      var r, t :| AcceptsBy(a, w, r, t);
      RunsMore(Edges(a), Edges(c), 0, r, t);
      assert AcceptsBy(c, w, r, t);
    } else {
      var q, x :| AcceptsBy(b, w, q, x);
      var e := Transition(0, k, Epsilon);
      RunsShift(Edges(b), k, 0, q, x);
      RunsMore(ShiftedEdges(Edges(b), k), Edges(c), k, ShiftedRun(q, k), x + k);
      RunsOne(Edges(c), e);
      RunsConcat(Edges(c), 0, [e], k, ShiftedRun(q, k), x + k);
      SpelledConcat([e], ShiftedRun(q, k));
      assert x + k in c.ends;
      assert AcceptsBy(c, w, [e] + ShiftedRun(q, k), x + k);
    }
  }

  lemma StartsAtZero(a: Nfa)
    requires ProperOrNew(a)
    ensures a.start == 0 < a.total && (forall t :: t in a.ends ==> t < a.total)
    ensures forall e :: e in Edges(a) ==> e.from < a.total && e.to < a.total
  {
  }

  /** Away from the start a run stays on its side. */
  lemma {:induction false} JoinedStays(ea: set<Transition>, eb: set<Transition>, k: nat, s: nat, r: Run, t: nat)
    requires Runs(ea + eb + {Transition(0, k, Epsilon)}, s, r, t) && 0 < s && 0 < k
    requires (forall e :: e in ea ==> e.from < k && 0 < e.to < k) && (forall e :: e in eb ==> e.from >= k && e.to >= k)
    ensures s < k ==> Runs(ea, s, r, t) && t < k
    ensures s >= k ==> Runs(eb, s, r, t) && t >= k
    decreases |r|
  {
    if r != [] {
      JoinedStays(ea, eb, k, r[0].to, r[1..], t);
    }
  }

  lemma JoinedAcceptsOnly(a: Nfa, b: Nfa, w: Word)
    requires ProperOrNew(a) && Proper(b) && NoReturn(a) && Accepts(Joined(a, b), w)
    ensures Accepts(a, w) || Accepts(b, w)
  {
    hide Edges, Joined, Proper;
    var k, c := a.total, Joined(a, b);
    JoinedFacts(a, b);
    ProperStart(b);
    StartsAtZero(a);
    var ea, eb := Edges(a), ShiftedEdges(Edges(b), k);
    var r: Run, t :| AcceptsBy(c, w, r, t);
    if r == [] {
      assert t in a.ends;
      assert AcceptsBy(a, w, r, t);
    } else if r[0] in ea {
      assert r[0].to != a.start;
      JoinedStays(ea, eb, k, r[0].to, r[1..], t);
      assert AcceptsBy(a, w, r, t);
    } else {
      JoinedStays(ea, eb, k, k, r[1..], t);
      var x :| x in b.ends && x + k == t;
      var q := RunsUnshift(Edges(b), k, 0, r[1..], x);
      assert AcceptsBy(b, w, q, x);
    }
  }

  ghost predicate LoopsBy(a: Nfa, w: Word, r: Run) {
    Runs(Edges(a), a.start, r, a.start) && Spelled(r) == w
  }

  /** Some run from the start back to it spells `w`. */
  ghost predicate StartLoop(a: Nfa, w: Word) {
    exists r :: LoopsBy(a, w, r)
  }

  lemma EmptyLoop(a: Nfa)
    ensures StartLoop(a, [])
  {
    assert LoopsBy(a, [], []);
  }

  lemma NoReturnLoop(a: Nfa, w: Word)
    requires NoReturn(a)
    ensures StartLoop(a, w) <==> w == []
  {
    hide Edges;
    EmptyLoop(a);
    if StartLoop(a, w) {
      var r :| LoopsBy(a, w, r);
      NoReturnEnd(Edges(a), a.start, r, a.start);
    }
  }

  /** From the states of `a` that come first, a run to a state of `a` stays there. */
  lemma {:induction false} LinkedStaysBelow(ea: set<Transition>, eb: set<Transition>, ends: set<nat>, k: nat, s: nat, r: Run, t: nat)
    requires Runs(ea + eb + Epsilons(ends, k), s, r, t) && s < k && t < k
    requires (forall e :: e in ea ==> e.from < k && e.to < k) && (forall e :: e in eb ==> e.from >= k && e.to >= k)
    ensures Runs(ea, s, r, t)
    decreases |r|
  {
    if r != [] {
      if r[0].to >= k {
        NeverBelow(ea, eb, ends, k, r[0].to, r[1..], t);
      } else {
        LinkedStaysBelow(ea, eb, ends, k, r[0].to, r[1..], t);
      }
    }
  }

  lemma {:induction false} NeverBelow(ea: set<Transition>, eb: set<Transition>, ends: set<nat>, k: nat, s: nat, r: Run, t: nat)
    requires Runs(ea + eb + Epsilons(ends, k), s, r, t) && s >= k
    requires (forall e :: e in ea ==> e.from < k && e.to < k) && (forall e :: e in eb ==> e.from >= k && e.to >= k)
    ensures t >= k
    decreases |r|
  {
    if r != [] {
      NeverBelow(ea, eb, ends, k, r[0].to, r[1..], t);
    }
  }

  /** What follows in a sequence adds no return to the start. */
  lemma LinkedLoops(a: Nfa, b: Nfa, w: Word)
    requires Proper(a) && Proper(b)
    ensures StartLoop(Linked(a, b), w) <==> StartLoop(a, w)
  {
    hide Edges, Linked, Proper, Runs, Spelled;
    var k, c := a.total, Linked(a, b);
    LinkedFacts(a, b);
    ProperStart(a);
    ProperStart(b);
    if StartLoop(a, w) {
      var r :| LoopsBy(a, w, r);
      RunsMore(Edges(a), Edges(c), 0, r, 0);
      assert LoopsBy(c, w, r);
    }
    if StartLoop(c, w) {
      var r :| LoopsBy(c, w, r);
      LinkedStaysBelow(Edges(a), ShiftedEdges(Edges(b), k), a.ends, k, 0, r, 0);
      assert LoopsBy(a, w, r);
    }
  }

  /** A word that `a` accepts, or reads on a way back to its start. */
  ghost predicate Piece(a: Nfa, w: Word) {
    Accepts(a, w) || StartLoop(a, w)
  }

  /** `w` is a row of such words. */
  ghost predicate RowOf(a: Nfa, w: Word)
    decreases |w|
  {
    w == [] || exists j :: 0 < j <= |w| && Piece(a, w[..j]) && RowOf(a, w[j..])
  }

  lemma RowsStep(a: Nfa, u: Word, v: Word)
    requires Piece(a, u) && RowOf(a, v)
    ensures RowOf(a, u + v)
  {
    hide Piece;
    if u == [] {
      assert u + v == v;
    } else {
      assert (u + v)[..|u|] == u && (u + v)[|u|..] == v;
    }
  }

  lemma {:induction false} LoopedAccepts(a: Nfa, w: Word)
    requires Proper(a) && RowOf(a, w)
    ensures StartLoop(Looped(a), w)
    decreases |w|
  {
    hide Edges, Looped, Proper, Piece;
    if w == [] {
      EmptyLoop(Looped(a));
    } else {
      var j :| 0 < j <= |w| && Piece(a, w[..j]) && RowOf(a, w[j..]);
      LoopedAccepts(a, w[j..]);
      LoopedStep(a, w[..j], w[j..]);
      assert w[..j] + w[j..] == w;
    }
  }

  /** In the loop every word of `a` is a way back to the start. */
  lemma PieceLoops(a: Nfa, u: Word)
    requires Proper(a) && Piece(a, u)
    ensures StartLoop(Looped(a), u)
  {
    hide Edges, Looped, Proper;
    var c := Looped(a);
    LoopedFacts(a);
    ProperStart(a);
    if Accepts(a, u) {
      var r, t :| AcceptsBy(a, u, r, t);
      var e := Transition(t, 0, Epsilon);
      assert e in Epsilons(a.ends, 0);
      RunsMore(Edges(a), Edges(c), 0, r, t);
      RunsOne(Edges(c), e);
      RunsConcat(Edges(c), 0, r, t, [e], 0);
      SpelledConcat(r, [e]);
      assert LoopsBy(c, u, r + [e]);
    } else {
      var r :| LoopsBy(a, u, r);
      RunsMore(Edges(a), Edges(c), 0, r, 0);
      assert LoopsBy(c, u, r);
    }
  }

  lemma LoopedStep(a: Nfa, u: Word, v: Word)
    requires Proper(a) && Piece(a, u) && StartLoop(Looped(a), v)
    ensures StartLoop(Looped(a), u + v)
  {
    hide Edges, Looped, Proper, Piece;
    var c := Looped(a);
    PieceLoops(a, u);
    var r :| LoopsBy(c, u, r);
    var q :| LoopsBy(c, v, q);
    RunsConcat(Edges(c), c.start, r, c.start, q, c.start);
    SpelledConcat(r, q);
    assert LoopsBy(c, u + v, r + q);
  }

  /** Up to its first return to the start a run uses transitions of the operand. */
  lemma {:induction false} LoopedSplit(ea: set<Transition>, ends: set<nat>, s: nat, r: Run, t: nat) returns (i: nat)
    requires Runs(ea + Epsilons(ends, 0), s, r, t)
    ensures i <= |r| && (i == |r| ==> Runs(ea, s, r, t))
    ensures i < |r| ==> r[i].kind == Epsilon && r[i].from in ends && r[i].to == 0
    ensures i < |r| ==> Runs(ea, s, r[..i], r[i].from) && Runs(ea + Epsilons(ends, 0), 0, r[i + 1..], t)
    decreases |r|
  {
    if r == [] {
      i := 0;
    } else if r[0] in ea {
      var j := LoopedSplit(ea, ends, r[0].to, r[1..], t);
      i := j + 1;
      if i < |r| {
        assert r[..i][1..] == r[1..][..j] && r[1..][j + 1..] == r[i + 1..] && r[1..][j] == r[i];
        assert r[..i][0] == r[0];
      }
    } else {
      i := 0;
      assert r[..0] == [];
    }
  }

  lemma {:induction false} LoopedRun(a: Nfa, r: Run, t: nat)
    requires Proper(a) && (t in a.ends || t == 0) && Runs(Edges(a) + Epsilons(a.ends, 0), 0, r, t)
    ensures RowOf(a, Spelled(r))
    decreases |r|
  {
    hide Edges, Proper, Spelled;
    ProperStart(a);
    var i := LoopedSplit(Edges(a), a.ends, 0, r, t);
    if i == |r| {
      assert t in a.ends ==> AcceptsBy(a, Spelled(r), r, t);
      assert t == 0 ==> LoopsBy(a, Spelled(r), r);
      RowsStep(a, Spelled(r), []);
      assert Spelled(r) + [] == Spelled(r);
    } else {
      LoopedRun(a, r[i + 1..], t);
      SpelledAround(r, i);
      assert AcceptsBy(a, Spelled(r[..i]), r[..i], r[i].from);
      RowsStep(a, Spelled(r[..i]), Spelled(r[i + 1..]));
    }
  }

  lemma {:induction false} NoReturnEnd(es: set<Transition>, s: nat, r: Run, t: nat)
    requires Runs(es, s, r, t) && forall e :: e in es ==> e.to != t
    ensures r == [] && s == t
    decreases |r|
  {
    if r != [] {
      NoReturnEnd(es, r[0].to, r[1..], t);
    }
  }

  /** The loop accepts, and reads on ways back to its start, just the rows of pieces of `a`. */
  lemma LoopedIs(a: Nfa, w: Word)
    requires Proper(a)
    ensures Accepts(Looped(a), w) <==> RowOf(a, w)
    ensures StartLoop(Looped(a), w) <==> RowOf(a, w)
  {
    hide Edges, Proper, Looped, RowOf;
    LoopedFacts(a);
    if RowOf(a, w) {
      LoopedAccepts(a, w);
      var r :| LoopsBy(Looped(a), w, r);
      assert AcceptsBy(Looped(a), w, r, 0);
    }
    if Accepts(Looped(a), w) {
      var r, t :| AcceptsBy(Looped(a), w, r, t);
      LoopedRun(a, r, t);
    }
    if StartLoop(Looped(a), w) {
      var r :| LoopsBy(Looped(a), w, r);
      LoopedRun(a, r, 0);
    }
  }

  // ----- the short star: one state with one loop

  /** `w` repeats the label: nothing when it is epsilon. */
  ghost predicate Repeats(kind: Label, w: Word) {
    forall i :: 0 <= i < |w| ==> kind == On(w[i])
  }

  lemma {:induction false} LoopSpells(e: Transition, r: Run)
    requires e.from == 0 == e.to && Runs({e}, 0, r, 0)
    ensures Repeats(e.kind, Spelled(r))
    decreases |r|
  {
    if r != [] {
      LoopSpells(e, r[1..]);
    }
  }

  lemma {:induction false} LoopReads(e: Transition, w: Word) returns (r: Run)
    requires e.from == 0 == e.to && Repeats(e.kind, w)
    ensures Runs({e}, 0, r, 0) && Spelled(r) == w
    decreases |w|
  {
    if w == [] {
      r := [];
    } else {
      var rest := LoopReads(e, w[1..]);
      r := [e] + rest;
      assert r[1..] == rest;
      assert w == [w[0]] + w[1..];
    }
  }

  lemma ShortcutIs(a: Nfa, w: Word)
    requires Proper(a)
    ensures Accepts(Shortcut(a), w) <==> Repeats(a.outer[0][0].kind, w)
    ensures StartLoop(Shortcut(a), w) <==> Repeats(a.outer[0][0].kind, w)
  {
    ProperStart(a);
    hide Edges, Proper, Shortcut, Runs, Spelled, Repeats;
    ShortcutFacts(a);
    var c, e := Shortcut(a), Transition(0, 0, a.outer[0][0].kind);
    if Repeats(e.kind, w) {
      var r := LoopReads(e, w);
      assert LoopsBy(c, w, r) && AcceptsBy(c, w, r, 0);
    }
    if Accepts(c, w) {
      var r, t :| AcceptsBy(c, w, r, t);
      LoopSpells(e, r);
    }
    if StartLoop(c, w) {
      var r :| LoopsBy(c, w, r);
      LoopSpells(e, r);
    }
  }

  // ----- one step, and optional -------------------------------------------------------------------------------

  lemma StuckAtEnd(a: Nfa, l: Letter, q: Run)
    requires AtomLike(a, l) && Runs(Edges(a), 1, q, 1)
    ensures q == []
  {
    hide Edges;
  }

  /** The automaton of one step accepts one word of one letter, and has no way back to its start. */
  lemma AtomLikeAccepts(a: Nfa, l: Letter, w: Word)
    requires AtomLike(a, l)
    ensures Accepts(a, w) <==> w == [l]
    ensures NoReturn(a)
  {
    hide Edges;
    var e := Transition(0, 1, On(l));
    if w == [l] {
      RunsOne(Edges(a), e);
      assert AcceptsBy(a, w, [e], 1);
    }
    if Accepts(a, w) {
      var r: Run, t :| AcceptsBy(a, w, r, t);
      assert r != [] && r[0] == e;
      var q := r[1..];
      assert Runs(Edges(a), 1, q, 1);
      StuckAtEnd(a, l, q);
      assert r == [e] + q == [e];
      RunsOne(Edges(a), e);
    }
  }

  lemma AtomLikeFacts(a: Nfa, l: Letter)
    requires AtomLike(a, l)
    ensures |a.outer| > 0 && |a.outer[0]| > 0 && a.outer[0][0].kind == On(l)
  {
  }

  /** With its start for an end the automaton also accepts what it reads on ways back to it. */
  lemma OptionalIs(a: Nfa, w: Word)
    requires Proper(a)
    ensures Accepts(a.(ends := a.ends + {a.start}), w) <==> Piece(a, w)
    ensures StartLoop(a.(ends := a.ends + {a.start}), w) <==> StartLoop(a, w)
  {
    hide Edges, Proper;
    var c := a.(ends := a.ends + {a.start});
    OptionalFacts(a);
    if Accepts(a, w) {
      var r, t :| AcceptsBy(a, w, r, t);
      assert AcceptsBy(c, w, r, t);
    }
    if StartLoop(a, w) {
      var r :| LoopsBy(a, w, r);
      assert AcceptsBy(c, w, r, a.start) && LoopsBy(c, w, r);
    }
    if StartLoop(c, w) {
      var r :| LoopsBy(c, w, r);
      assert LoopsBy(a, w, r);
    }
    if Accepts(c, w) {
      var r, t :| AcceptsBy(c, w, r, t);
      assert if t in a.ends then AcceptsBy(a, w, r, t) else LoopsBy(a, w, r);
    }
  }
}
