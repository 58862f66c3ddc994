/** The short form of a star over an automaton with two states: when it loses words. */
module ShortStars {
  import opened Paths
  import opened PathAutomata
  import opened PathLanguages

  // ----- every state of a built automaton is on the way from the start to an end ----------------------------

  ghost predicate Reaches(es: set<Transition>, s: nat, t: nat) {
    exists r :: Runs(es, s, r, t)
  }

  ghost predicate CanEnd(a: Nfa, s: nat) {
    exists t :: t in a.ends && Reaches(Edges(a), s, t)
  }

  ghost predicate Trim(a: Nfa) {
    forall s: nat :: s < a.total ==> Reaches(Edges(a), a.start, s) && CanEnd(a, s)
  }

  lemma ReachHere(es: set<Transition>, s: nat)
    ensures Reaches(es, s, s)
  {
    assert Runs(es, s, [], s);
  }

  lemma ReachBy(es: set<Transition>, e: Transition)
    requires e in es
    ensures Reaches(es, e.from, e.to)
  {
    RunsOne(es, e);
  }

  lemma ReachOn(es: set<Transition>, s: nat, m: nat, t: nat)
    requires Reaches(es, s, m) && Reaches(es, m, t)
    ensures Reaches(es, s, t)
  {
    var r :| Runs(es, s, r, m);
    var q :| Runs(es, m, q, t);
    RunsConcat(es, s, r, m, q, t);
  }

  lemma ReachMore(es: set<Transition>, fs: set<Transition>, s: nat, t: nat)
    requires Reaches(es, s, t) && es <= fs
    ensures Reaches(fs, s, t)
  {
    var r :| Runs(es, s, r, t);
    RunsMore(es, fs, s, r, t);
  }

  lemma ReachShifted(es: set<Transition>, k: nat, fs: set<Transition>, s: nat, t: nat)
    requires Reaches(es, s, t) && ShiftedEdges(es, k) <= fs
    ensures Reaches(fs, s + k, t + k)
  {
    var r :| Runs(es, s, r, t);
    RunsShift(es, k, s, r, t);
    ReachMore(ShiftedEdges(es, k), fs, s + k, t + k);
  }

  lemma AtomIsTrim(l: Letter)
    ensures Trim(AtomNfa(l))
  {
    hide Edges, Proper, AtomNfa, Reaches;
    AtomFacts(l);
    var a := AtomNfa(l);
    ReachHere(Edges(a), 0);
    ReachHere(Edges(a), 1);
    ReachBy(Edges(a), Transition(0, 1, On(l)));
  }

  lemma MoreIsTrim(a: Nfa, c: Nfa)
    requires Trim(a) && c.total == a.total && c.start == a.start && a.ends <= c.ends && Edges(a) <= Edges(c)
    ensures Trim(c)
  {
    hide Edges, Reaches;
    forall s: nat | s < c.total ensures Reaches(Edges(c), c.start, s) && CanEnd(c, s) {
      ReachMore(Edges(a), Edges(c), a.start, s);
      var t :| t in a.ends && Reaches(Edges(a), s, t);
      ReachMore(Edges(a), Edges(c), s, t);
    }
  }

  /** The second part of a linked or joined automaton ends where it ended. */
  lemma ShiftedEnds(b: Nfa, c: Nfa, k: nat, s: nat)
    requires CanEnd(b, s) && ShiftedEdges(Edges(b), k) <= Edges(c) && Renamed(b.ends, k) <= c.ends
    ensures CanEnd(c, s + k)
  {
    hide Edges, Reaches;
    var t :| t in b.ends && Reaches(Edges(b), s, t);
    ReachShifted(Edges(b), k, Edges(c), s, t);
    assert t + k in Renamed(b.ends, k);
  }

  lemma LinkedIsTrim(a: Nfa, b: Nfa)
    requires Proper(a) && Proper(b) && Trim(a) && Trim(b)
    ensures Proper(Linked(a, b)) && Trim(Linked(a, b))
  {
    hide Edges, Proper, Linked, Reaches;
    var c, k := Linked(a, b), a.total;
    LinkedFacts(a, b);
    ProperStart(a);
    ProperStart(b);
    assert CanEnd(a, 0);
    var t :| t in a.ends && Reaches(Edges(a), 0, t);
    var e := Transition(t, k, Epsilon);
    assert e in Epsilons(a.ends, k);
    ReachMore(Edges(a), Edges(c), 0, t);
    ReachBy(Edges(c), e);
    ReachOn(Edges(c), 0, t, k);
    ShiftedEnds(b, c, k, 0);
    forall s: nat | s < c.total ensures Reaches(Edges(c), 0, s) && CanEnd(c, s) {
      if s < k {
        ReachMore(Edges(a), Edges(c), 0, s);
        var u :| u in a.ends && Reaches(Edges(a), s, u);
        assert Transition(u, k, Epsilon) in Epsilons(a.ends, k);
        ReachMore(Edges(a), Edges(c), s, u);
        ReachBy(Edges(c), Transition(u, k, Epsilon));
        ReachOn(Edges(c), s, u, k);
        EndsBeyond(c, s, k);
      } else {
        ReachShifted(Edges(b), k, Edges(c), 0, s - k);
        ReachOn(Edges(c), 0, k, s);
        ShiftedEnds(b, c, k, s - k);
      }
    }
  }

  lemma EndsBeyond(c: Nfa, s: nat, m: nat)
    requires Reaches(Edges(c), s, m) && CanEnd(c, m)
    ensures CanEnd(c, s)
  {
    hide Edges, Reaches;
    var t :| t in c.ends && Reaches(Edges(c), m, t);
    ReachOn(Edges(c), s, m, t);
  }

  lemma JoinedIsTrim(a: Nfa, b: Nfa)
    requires (a == NEW_NFA || (Proper(a) && Trim(a))) && Proper(b) && Trim(b)
    ensures Proper(Joined(a, b)) && Trim(Joined(a, b))
  {
    hide Edges, Proper, Joined, Reaches;
    var c, k := Joined(a, b), a.total;
    JoinedFacts(a, b);
    StartsAtZero(a);
    ProperStart(b);
    var e := Transition(0, k, Epsilon);
    ReachBy(Edges(c), e);
    ReachHere(Edges(c), 0);
    ShiftedEnds(b, c, k, 0);
    forall s: nat | s < c.total ensures Reaches(Edges(c), 0, s) && CanEnd(c, s) {
      if s >= k {
        ReachShifted(Edges(b), k, Edges(c), 0, s - k);
        ReachOn(Edges(c), 0, k, s);
        ShiftedEnds(b, c, k, s - k);
      } else if a == NEW_NFA {
        EndsBeyond(c, 0, k);
      } else {
        ReachMore(Edges(a), Edges(c), 0, s);
        var t :| t in a.ends && Reaches(Edges(a), s, t);
        ReachMore(Edges(a), Edges(c), s, t);
      }
    }
  }

  lemma {:induction false} BaseIsTrim(p: Path)
    requires Plain(p)
    ensures Trim(BaseNfa(p))
    decreases p, 1
  {
    hide Trim, Proper, Edges, Looped, Shortcut, AtomNfa;
    match p
    case Atom(n, i) => AtomIsTrim(Edge(n, i));
    case Sequence(ps) =>
      PlainParts(ps);
      BaseIsTrim(ps[0]);
      LinkAllIsTrim(BaseNfa(ps[0]), ps[1..]);
    case Alternatives(ps) => JoinAllIsTrim(NEW_NFA, ps);
    case KleeneStar(q) =>
      BaseIsTrim(q);
      StarIsTrim(BaseNfa(q));
    case Optional(q) =>
      BaseIsTrim(q);
      OptionalFacts(BaseNfa(q));
      MoreIsTrim(BaseNfa(q), BaseNfa(p));
  }

  lemma StarIsTrim(a: Nfa)
    requires Proper(a) && Trim(a)
    ensures Trim(StarNfa(a))
  {
    ProperStart(a);
    hide Edges, Proper, Looped, Shortcut, Reaches;
    if a.total == 2 {
      ShortcutFacts(a);
      ReachHere(Edges(Shortcut(a)), 0);
    } else {
      LoopedFacts(a);
      MoreIsTrim(a, Looped(a));
    }
  }

  lemma {:induction false} LinkAllIsTrim(a: Nfa, ps: seq<Path>)
    requires Proper(a) && Trim(a) && PlainAll(ps)
    ensures Trim(LinkAll(a, ps))
    decreases ps, 0
  {
    hide Trim, Proper, Edges, Linked;
    if ps != [] {
      PlainParts(ps);
      BaseIsTrim(ps[0]);
      LinkedIsTrim(a, BaseNfa(ps[0]));
      LinkAllIsTrim(Linked(a, BaseNfa(ps[0])), ps[1..]);
    }
  }

  lemma {:induction false} JoinAllIsTrim(a: Nfa, ps: seq<Path>)
    requires PlainAll(ps) && (if a == NEW_NFA then ps != [] else Proper(a) && Trim(a))
    ensures Trim(JoinAll(a, ps))
    decreases ps, 0
  {
    hide Trim, Proper, Edges, Joined;
    if ps != [] {
      PlainParts(ps);
      var b := BaseNfa(ps[0]);
      BaseIsTrim(ps[0]);
      JoinedFacts(a, b);
      JoinedIsTrim(a, b);
      ProperStart(Joined(a, b));
      JoinAllIsTrim(Joined(a, b), ps[1..]);
    }
  }

  // ----- the condition ---------------------------------------------------------------------------------------

  /** Every transition is an epsilon or carries the label of the first one listed at the start. */
  ghost predicate OneLabel(a: Nfa)
    requires Proper(a)
  {
    forall e :: e in Edges(a) ==> e.kind == Epsilon || e.kind == FirstKind(a)
  }

  lemma {:induction false} OneLabelSpells(es: set<Transition>, kind: Label, s: nat, r: Run, t: nat)
    requires Runs(es, s, r, t) && forall e :: e in es ==> e.kind == Epsilon || e.kind == kind
    ensures Repeats(kind, Spelled(r))
    decreases |r|
  {
    if r != [] {
      OneLabelSpells(es, kind, r[0].to, r[1..], t);
    }
  }

  lemma {:induction false} RowRepeats(a: Nfa, w: Word)
    requires Proper(a) && OneLabel(a) && RowOf(a, w)
    ensures Repeats(FirstKind(a), w)
    decreases |w|
  {
    hide Edges, Proper;
    if w != [] {
      var j :| 0 < j <= |w| && Piece(a, w[..j]) && RowOf(a, w[j..]);
      RowRepeats(a, w[j..]);
      if Accepts(a, w[..j]) {
        var r, t :| AcceptsBy(a, w[..j], r, t);
        OneLabelSpells(Edges(a), FirstKind(a), a.start, r, t);
      } else {
        var r :| LoopsBy(a, w[..j], r);
        OneLabelSpells(Edges(a), FirstKind(a), a.start, r, a.start);
      }
      assert w == w[..j] + w[j..];
    }
  }

  /** A transition with another label is on the way of a word that the short star does not accept. */
  lemma LostWord(a: Nfa, e: Transition) returns (w: Word)
    requires Proper(a) && Trim(a) && e in Edges(a) && e.kind != Epsilon && e.kind != FirstKind(a)
    ensures Accepts(a, w) && !Accepts(Shortcut(a), w)
  {
    ProperStart(a);
    hide Edges, Proper, Runs, Spelled, Shortcut;
    assert Reaches(Edges(a), a.start, e.from) && CanEnd(a, e.to);
    var r :| Runs(Edges(a), a.start, r, e.from);
    var t :| t in a.ends && Reaches(Edges(a), e.to, t);
    var q :| Runs(Edges(a), e.to, q, t);
    RunsOne(Edges(a), e);
    RunsConcat(Edges(a), e.from, [e], e.to, q, t);
    RunsConcat(Edges(a), a.start, r, e.from, [e] + q, t);
    SpelledConcat([e], q);
    SpelledConcat(r, [e] + q);
    w := Spelled(r + ([e] + q));
    assert AcceptsBy(a, w, r + ([e] + q), t);
    ShortcutIs(a, w);
    assert w[|Spelled(r)|] == e.kind.letter;
  }

  /** The short star accepts every word that the ordinary one would, if and only if the operand has
      one label. */
  lemma ShortStarIsEnoughIff(q: Path)
    requires Plain(q) && BaseNfa(q).total == 2
    ensures var a := BaseNfa(q);
            (forall w :: Accepts(Looped(a), w) ==> Accepts(Shortcut(a), w)) <==> OneLabel(a)
  {
    hide Edges, Proper, Accepts, Looped, Shortcut;
    var a := BaseNfa(q);
    if OneLabel(a) {
      forall w | Accepts(Looped(a), w) ensures Accepts(Shortcut(a), w) {
        LoopedIs(a, w);
        RowRepeats(a, w);
        ShortcutIs(a, w);
      }
    } else {
      var e :| e in Edges(a) && e.kind != Epsilon && e.kind != FirstKind(a);
      BaseIsTrim(q);
      var w := LostWord(a, e);
      LoopedIs(a, w);
      RowsStep(a, w, []);
      assert w + [] == w;
    }
  }

  /** Over an exact operand with two states the star loses no word of the path if and only if the
      operand has one label. */
  lemma ShortStarLosesNothingIff(q: Path)
    requires Plain(q) && BaseNfa(q).total == 2 && Exact(q)
    ensures (forall w :: Matches(KleeneStar(q), w) ==> Accepts(BaseNfa(KleeneStar(q)), w)) <==> OneLabel(BaseNfa(q))
  {
    hide Edges, Proper, Accepts, Looped, Shortcut, Matches;
    var a := BaseNfa(q);
    ShortStarIsEnoughIff(q);
    if OneLabel(a) {
      forall w | Matches(KleeneStar(q), w) ensures Accepts(Shortcut(a), w) {
        StarIs(q, w);
        WordsAreRows(q, w);
        LoopedIs(a, w);
      }
    } else {
      var e :| e in Edges(a) && e.kind != Epsilon && e.kind != FirstKind(a);
      BaseIsTrim(q);
      var w := LostWord(a, e);
      assert Matches(q, w);
      PlainWords(q, w);
      StarIs(q, w);
    }
  }

  lemma {:induction false} WordsAreRows(q: Path, w: Word)
    requires Plain(q) && Exact(q) && MatchesStar(q, w)
    ensures RowOf(BaseNfa(q), w)
    decreases |w|
  {
    hide Matches, Accepts, BaseNfa;
    if w != [] {
      var k :| 0 < k <= |w| && Matches(q, w[..k]) && MatchesStar(q, w[k..]);
      WordsAreRows(q, w[k..]);
      assert Piece(BaseNfa(q), w[..k]);
    }
  }

  /** Over an exact operand with two states the star is exact if and only if the operand has one label
      and, when that is a letter, the letter alone is a row of words of the operand. */
  lemma ShortStarIsExactIff(q: Path)
    requires Plain(q) && BaseNfa(q).total == 2 && Exact(q)
    ensures Exact(KleeneStar(q)) <==>
              var kind := FirstKind(BaseNfa(q));
              OneLabel(BaseNfa(q)) && (kind.On? ==> MatchesStar(q, [kind.letter]))
  {
    hide Edges, Proper, Accepts, Looped, Shortcut, Matches;
    var p, a, kind := KleeneStar(q), BaseNfa(q), FirstKind(BaseNfa(q));
    ShortStarLosesNothingIff(q);
    if Exact(p) && kind.On? {
      ShortcutIs(a, [kind.letter]);
      StarIs(q, [kind.letter]);
    }
    if OneLabel(a) && (kind.On? ==> MatchesStar(q, [kind.letter])) {
      forall w ensures Accepts(BaseNfa(p), w) <==> Matches(p, w) {
        ShortcutIs(a, w);
        StarIs(q, w);
        if Repeats(kind, w) {
          RepeatsAreRows(q, kind, w);
        }
      }
    }
  }

  lemma RepeatsAreRows(q: Path, kind: Label, w: Word)
    requires Repeats(kind, w) && (kind.On? ==> MatchesStar(q, [kind.letter]))
    ensures MatchesStar(q, w)
  {
    hide Matches;
    if w != [] {
      assert kind == On(w[0]);
      var l := [kind.letter];
      var k :| 0 < k <= |l| && Matches(q, l[..k]) && MatchesStar(q, l[k..]);
      assert l[..k] == l;
      RepeatsIsRow(q, kind.letter, w);
    }
  }

  // ----- how it happens ----------------------------------------------------------------------------------------

  /** The operand begins with an epsilon and has a letter further on: the short star accepts nothing
      but the empty word. */
  lemma ShortStarLosesWords()
    ensures var p := MakeStar(Optional(Alternatives([KleeneStar(Atom("a", false))])));
      Plain(p) && !PlainStars(p) && Matches(p, [Edge("a", false)]) && !Accepts(BaseNfa(p), [Edge("a", false)])
  {
    hide Edges, Joined, Shortcut, AtomNfa, Proper, Runs, Spelled;
    var a := Edge("a", false);
    var star := KleeneStar(Atom("a", false));
    var ps := [star];
    var q := Alternatives(ps);
    assert MakeStar(Optional(q)) == KleeneStar(q);
    assert ps[1..] == [] && PlainAll(ps);
    ShortStarLoop(ps);
    var c := BaseNfa(KleeneStar(q));
    forall r, t ensures !AcceptsBy(c, [a], r, t) {
      if Runs(Edges(c), 0, r, t) {
        OnlyEpsilons(Transition(0, 0, Epsilon), r, t);
      }
    }
    assert [a][..1] == [a] && [a][1..] == [];
    StarOfOne(Atom("a", false), [a]);
    assert MatchesSome(ps, [a]);
    StarOfOne(q, [a]);
  }

  lemma ShortStarLoop(ps: seq<Path>)
    requires ps == [KleeneStar(Atom("a", false))] && Plain(KleeneStar(Alternatives(ps)))
    ensures var c := BaseNfa(KleeneStar(Alternatives(ps))); Edges(c) == {Transition(0, 0, Epsilon)} && c.start == 0
  {
    hide Edges, Joined, Shortcut, AtomNfa, Proper;
    var a := Edge("a", false);
    assert ps[1..] == [];
    AtomFacts(a);
    AtomLikeFacts(AtomNfa(a), a);
    ShortcutFacts(AtomNfa(a));
    var sc := BaseNfa(ps[0]);
    assert sc == Shortcut(AtomNfa(a));
    JoinedFacts(NEW_NFA, sc);
    var q := BaseNfa(Alternatives(ps));
    assert JoinAll(NEW_NFA, ps) == JoinAll(Joined(NEW_NFA, sc), ps[1..]);
    assert q == Joined(NEW_NFA, sc);
    FirstIsEpsilon(sc);
    ShortcutFacts(q);
  }

  lemma FirstIsEpsilon(b: Nfa)
    requires Proper(b)
    ensures var c := Joined(NEW_NFA, b); |c.outer| > 0 && c.outer[0] != [] && c.outer[0][0] == Transition(0, 1, Epsilon)
  {
    hide Edges, Merged;
    NewIsListed();
    MergedHas(NEW_NFA, b);
    var m := Merged(NEW_NFA, b);
    assert m.outer[0] == [] by {
      if m.outer[0] != [] {
        var e := m.outer[0][0];
        EdgesListed(m, e);
      }
    }
    AddedHas(m, Transition(0, 1, Epsilon));
  }

  lemma {:induction false} OnlyEpsilons(e: Transition, r: Run, t: nat)
    requires e == Transition(0, 0, Epsilon) && Runs({e}, 0, r, t)
    ensures Spelled(r) == []
    decreases |r|
  {
    if r != [] {
      OnlyEpsilons(e, r[1..], t);
    }
  }

  /** The operand begins with one letter and has another one further on: the short star repeats the
      first and rejects the second. */
  lemma ShortStarLosesSecondLetter()
    ensures var p := MakeStar(Optional(Sequence([KleeneStar(Atom("a", false)), KleeneStar(Atom("b", false))])));
      Plain(p) && !PlainStars(p) && Matches(p, [Edge("b", false)]) && !Accepts(BaseNfa(p), [Edge("b", false)])
  {
    hide BaseNfa, Proper, Accepts, MatchesAll, Repeats;
    var b := Edge("b", false);
    var ps := [KleeneStar(Atom("a", false)), KleeneStar(Atom("b", false))];
    var q := Sequence(ps);
    assert MakeStar(Optional(q)) == KleeneStar(q);
    TwoStars(ps);
    ShortcutIs(BaseNfa(q), [b]);
    NotRepeated(Edge("a", false), b);
    StarOfTwoStates(q);
    SecondAlone(ps, b);
    StarOfOne(q, [b]);
    StarIs(q, [b]);
  }

  lemma NotRepeated(a: Letter, b: Letter)
    requires a != b
    ensures !Repeats(On(a), [b])
  {
    assert [b][0] == b;
  }

  lemma StarOfTwoStates(q: Path)
    requires Plain(q) && BaseNfa(q).total == 2
    ensures BaseNfa(KleeneStar(q)) == Shortcut(BaseNfa(q))
  {
    hide Shortcut, Looped;
  }

  lemma TwoStars(ps: seq<Path>)
    requires ps == [KleeneStar(Atom("a", false)), KleeneStar(Atom("b", false))]
    ensures Plain(Sequence(ps)) && !PlainStars(KleeneStar(Sequence(ps)))
    ensures var c := BaseNfa(Sequence(ps)); c.total == 2 && FirstKind(c) == On(Edge("a", false))
  {
    hide BaseNfa, LinkAll, Linked, Proper, Edges;
    var rest := ps[1..];
    assert rest == [ps[1]] && rest[1..] == [];
    assert PlainAll(rest[1..]) && PlainAll(rest) && PlainAll(ps);
    assert AllNullable(rest[1..]) && rest[0].Nullable() && AllNullable(rest) && ps[0].Nullable();
    assert AllNullable(ps);
    StarOfAtom("a");
    StarOfAtom("b");
    TwoLinked(ps, rest);
    LinkedFacts(BaseNfa(ps[0]), BaseNfa(ps[1]));
  }

  lemma StarOfAtom(n: string)
    ensures var p := KleeneStar(Atom(n, false));
            Plain(p) && BaseNfa(p).total == 1 && FirstKind(BaseNfa(p)) == On(Edge(n, false))
  {
    hide Edges, Shortcut, AtomNfa, Proper;
    var l := Edge(n, false);
    AtomFacts(l);
    AtomLikeFacts(AtomNfa(l), l);
    ShortcutFacts(AtomNfa(l));
    assert BaseNfa(Atom(n, false)) == AtomNfa(l);
  }

  lemma TwoLinked(ps: seq<Path>, rest: seq<Path>)
    requires Plain(Sequence(ps)) && |ps| == 2 && rest == ps[1..] && Plain(ps[0]) && Plain(ps[1])
    ensures BaseNfa(Sequence(ps)) == Linked(BaseNfa(ps[0]), BaseNfa(ps[1]))
  {
    hide Linked, Proper, Edges;
    PlainParts(ps);
    var a, b := BaseNfa(ps[0]), BaseNfa(ps[1]);
    assert rest[0] == ps[1] && rest[1..] == [];
    LinkedFacts(a, b);
    assert LinkAll(Linked(a, b), rest[1..]) == Linked(a, b);
    assert LinkAll(a, rest) == LinkAll(Linked(a, b), rest[1..]);
  }

  lemma SecondAlone(ps: seq<Path>, b: Letter)
    requires |ps| == 2 && ps[0].KleeneStar? && ps[1] == KleeneStar(Atom("b", false)) && b == Edge("b", false)
    ensures MatchesAll(ps, [b])
  {
    var rest := ps[1..];
    assert [b][..0] == [] && [b][0..] == [b] && [b][..1] == [b] && [b][1..] == [];
    assert rest[0] == ps[1] && rest[1..] == [];
    StarOfOne(Atom("b", false), [b]);
    assert Matches(rest[0], [b][..1]) && MatchesAll(rest[1..], [b][1..]);
    assert MatchesAll(rest, [b][0..]);
    assert Matches(ps[0], [b][..0]);
  }
}
