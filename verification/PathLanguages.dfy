/** Which words the automaton of a path accepts, and when they are the words of the path. */
module PathLanguages {
  import opened Paths
  import opened PathAutomata

  // ----- the path that an automaton reads -------------------------------------------------------------------

  /** The empty word and nothing else. */
  const NOTHING := Sequence([])

  /** What a state with one loop reads. */
  function Repeating(kind: Label): Path {
    match kind
    case Epsilon => NOTHING
    case On(Edge(n, i)) => KleeneStar(Atom(n, i))
    case On(Test(c)) => KleeneStar(Check(c))
  }

  ghost function FirstKind(a: Nfa): Label
    requires Proper(a)
  {
    a.outer[0][0].kind
  }

  /** The path whose words the automaton of `p` accepts: a star and an optional also take in whatever
      their operand reads on ways back to its start, and a star over two states repeats one label. */
  ghost function Reads(p: Path): Path
    requires Plain(p)
    decreases p, 1
  {
    match p
    case Atom(_, _) => p
    case Sequence(ps) => Sequence(ReadsAll(ps))
    case Alternatives(ps) => Alternatives(ReadsAll(ps))
    case KleeneStar(q) =>
      if BaseNfa(q).total == 2 then Repeating(FirstKind(BaseNfa(q)))
      else KleeneStar(Alternatives([Reads(q), Loop(q)]))
    case Optional(q) => Alternatives([Reads(q), Loop(q)])
  }

  ghost function ReadsAll(ps: seq<Path>): seq<Path>
    requires PlainAll(ps)
    decreases ps, 0
  {
    if ps == [] then [] else [Reads(ps[0])] + ReadsAll(ps[1..])
  }

  /** The path that is read on ways back to the start: the star that `p` begins with, if it does. */
  ghost function Loop(p: Path): Path
    requires Plain(p)
    decreases p, 2
  {
    match p
    case Atom(_, _) => NOTHING
    case Sequence(ps) => PlainParts(ps); Loop(ps[0])
    case Alternatives(ps) => NOTHING
    case KleeneStar(_) => Reads(p)
    case Optional(q) => Loop(q)
  }

  ghost predicate SameWords(a: Nfa, p: Path) {
    forall w :: Accepts(a, w) <==> Matches(p, w)
  }

  ghost predicate SameLoops(a: Nfa, p: Path) {
    forall w :: StartLoop(a, w) <==> Matches(p, w)
  }

  lemma TwoAlternatives(p: Path, q: Path, w: Word)
    ensures Matches(Alternatives([p, q]), w) <==> Matches(p, w) || Matches(q, w)
  {
    var ps := [p, q];
    assert ps[1..] == [q] && ps[1..][1..] == [];
    assert MatchesSome(ps[1..], w) <==> Matches(q, w);
  }

  lemma OnlyNothing(w: Word)
    ensures Matches(NOTHING, w) <==> w == []
  {
  }

  lemma {:induction false} RowsAreStar(a: Nfa, p: Path, w: Word)
    requires forall v :: Piece(a, v) <==> Matches(p, v)
    ensures RowOf(a, w) <==> MatchesStar(p, w)
    decreases |w|
  {
    hide Piece, Matches;
    forall j | 0 < j <= |w| ensures RowOf(a, w[j..]) <==> MatchesStar(p, w[j..]) {
      RowsAreStar(a, p, w[j..]);
    }
  }

  lemma {:induction false} StarOfLetter(p: Path, l: Letter, w: Word)
    requires forall v :: Matches(p, v) <==> v == [l]
    ensures MatchesStar(p, w) <==> Repeats(On(l), w)
    decreases |w|
  {
    hide Matches;
    if w != [] {
      StarOfLetter(p, l, w[1..]);
      assert w == [w[0]] + w[1..] && w[..1] == [w[0]];
      forall k | 0 < k <= |w| && Matches(p, w[..k]) ensures k == 1 {
        assert |w[..k]| == k;
      }
      assert Repeats(On(l), w) <==> w[0] == l && Repeats(On(l), w[1..]);
    }
  }

  lemma RepeatingIs(kind: Label, w: Word)
    ensures Matches(Repeating(kind), w) <==> Repeats(kind, w)
  {
    match kind
    case Epsilon =>
      OnlyNothing(w);
      assert w != [] ==> kind != On(w[0]);
    case On(Edge(n, i)) => StarOfLetter(Atom(n, i), Edge(n, i), w);
    case On(Test(c)) => StarOfLetter(Check(c), Test(c), w);
  }

  /** For every path: the automaton accepts exactly the words of the path it reads, and the words on
      ways back to its start are exactly those of its loop. */
  lemma {:induction false} AutomatonReads(p: Path)
    requires Plain(p)
    ensures SameWords(BaseNfa(p), Reads(p)) && SameLoops(BaseNfa(p), Loop(p))
    decreases p, 1
  {
    hide Accepts, StartLoop, Proper, Edges, Linked, Joined, Looped, Shortcut, AtomNfa, AtomLike, NoReturn, RowOf;
    match p
    case Atom(n, i) => AtomReads(n, i);
    case Sequence(ps) =>
      PlainParts(ps);
      AutomatonReads(ps[0]);
      LinkAllReads(BaseNfa(ps[0]), ps[1..]);
      SequenceReads(p, ps);
    case Alternatives(ps) =>
      NewHasNoReturn();
      JoinAllReads(NEW_NFA, ps);
      AlternativesRead(p, ps);
    case KleeneStar(q) =>
      AutomatonReads(q);
      StarReads(q);
    case Optional(q) =>
      AutomatonReads(q);
      OptionalReads(q);
  }

  lemma AtomReads(n: string, i: bool)
    ensures var p := Atom(n, i); SameWords(BaseNfa(p), Reads(p)) && SameLoops(BaseNfa(p), Loop(p))
  {
    hide Accepts, StartLoop, AtomLike, NoReturn, AtomNfa, Proper;
    var p := Atom(n, i);
    AtomFacts(Edge(n, i));
    forall w ensures Accepts(BaseNfa(p), w) <==> Matches(p, w) {
      AtomLikeAccepts(BaseNfa(p), Edge(n, i), w);
    }
    forall w ensures StartLoop(BaseNfa(p), w) <==> Matches(NOTHING, w) {
      AtomLikeAccepts(BaseNfa(p), Edge(n, i), w);
      NoReturnLoop(BaseNfa(p), w);
    }
  }

  lemma NewHasNoReturn()
    ensures NoReturn(NEW_NFA) && forall w :: !Accepts(NEW_NFA, w)
  {
    NewIsListed();
  }

  lemma SequenceReads(p: Path, ps: seq<Path>)
    requires p == Sequence(ps) && Plain(p) && Plain(ps[0]) && PlainAll(ps[1..])
    requires SameWords(BaseNfa(ps[0]), Reads(ps[0])) && SameLoops(BaseNfa(ps[0]), Loop(ps[0]))
    requires LinksRead(BaseNfa(ps[0]), ps[1..])
    ensures SameWords(BaseNfa(p), Reads(p)) && SameLoops(BaseNfa(p), Loop(p))
  {
    hide Accepts, StartLoop, Proper;
    PlainParts(ps);
    var a := BaseNfa(ps[0]);
    assert BaseNfa(p) == LinkAll(a, ps[1..]);
    var rs := ReadsAll(ps);
    assert rs[0] == Reads(ps[0]) && rs[1..] == ReadsAll(ps[1..]);
    forall w ensures Accepts(BaseNfa(p), w) <==> Matches(Reads(p), w) {
      assert Accepts(LinkAll(a, ps[1..]), w) <==> LinkedWord(a, rs[1..], w);
      assert MatchesAll(rs, w) <==> exists k :: 0 <= k <= |w| && Matches(rs[0], w[..k]) && MatchesAll(rs[1..], w[k..]);
    }
  }

  lemma AlternativesRead(p: Path, ps: seq<Path>)
    requires p == Alternatives(ps) && Plain(p) && JoinsRead(NEW_NFA, ps)
    ensures SameWords(BaseNfa(p), Reads(p)) && SameLoops(BaseNfa(p), Loop(p))
  {
    hide Accepts, StartLoop, Proper, NoReturn;
    NewHasNoReturn();
    forall w ensures Accepts(BaseNfa(p), w) <==> Matches(Reads(p), w) {
      assert Accepts(JoinAll(NEW_NFA, ps), w) <==> Accepts(NEW_NFA, w) || MatchesSome(ReadsAll(ps), w);
    }
    forall w ensures StartLoop(BaseNfa(p), w) <==> Matches(NOTHING, w) {
      NoReturnLoop(BaseNfa(p), w);
    }
  }

  lemma StarReads(q: Path)
    requires Plain(q) && SameWords(BaseNfa(q), Reads(q)) && SameLoops(BaseNfa(q), Loop(q))
    ensures var p := KleeneStar(q); SameWords(BaseNfa(p), Reads(p)) && SameLoops(BaseNfa(p), Loop(p))
  {
    hide Accepts, StartLoop, Proper, Looped, Shortcut, RowOf, Matches, Repeats;
    var a, p := BaseNfa(q), KleeneStar(q);
    var words := Alternatives([Reads(q), Loop(q)]);
    forall w
      ensures Accepts(BaseNfa(p), w) <==> Matches(Reads(p), w)
      ensures StartLoop(BaseNfa(p), w) <==> Matches(Reads(p), w)
    {
      if a.total == 2 {
        ShortcutIs(a, w);
        RepeatingIs(FirstKind(a), w);
      } else {
        LoopedIs(a, w);
        forall v ensures Piece(a, v) <==> Matches(words, v) {
          TwoAlternatives(Reads(q), Loop(q), v);
        }
        RowsAreStar(a, words, w);
        StarIs(words, w);
      }
    }
  }

  lemma StarIs(p: Path, w: Word)
    ensures Matches(KleeneStar(p), w) <==> MatchesStar(p, w)
  {
  }

  lemma OptionalReads(q: Path)
    requires Plain(q) && SameWords(BaseNfa(q), Reads(q)) && SameLoops(BaseNfa(q), Loop(q))
    ensures var p := Optional(q); SameWords(BaseNfa(p), Reads(p)) && SameLoops(BaseNfa(p), Loop(p))
  {
    hide Accepts, StartLoop, Proper, Matches;
    var a, p := BaseNfa(q), Optional(q);
    forall w
      ensures Accepts(BaseNfa(p), w) <==> Matches(Reads(p), w)
      ensures StartLoop(BaseNfa(p), w) <==> Matches(Loop(p), w)
    {
      OptionalIs(a, w);
      TwoAlternatives(Reads(q), Loop(q), w);
    }
  }

  // ----- sequences and alternatives, part by part

  ghost predicate LinkedWord(a: Nfa, rs: seq<Path>, w: Word) {
    exists k :: 0 <= k <= |w| && Accepts(a, w[..k]) && MatchesAll(rs, w[k..])
  }

  ghost predicate LinksRead(a: Nfa, ps: seq<Path>)
    requires Proper(a) && PlainAll(ps)
  {
    && (forall w :: Accepts(LinkAll(a, ps), w) <==> LinkedWord(a, ReadsAll(ps), w))
    && (forall w :: StartLoop(LinkAll(a, ps), w) <==> StartLoop(a, w))
  }

  lemma {:induction false} LinkAllReads(a: Nfa, ps: seq<Path>)
    requires Proper(a) && PlainAll(ps)
    ensures LinksRead(a, ps)
    decreases ps, 0
  {
    hide Accepts, StartLoop, Proper, Edges, Linked, Matches;
    if ps == [] {
      forall w ensures Accepts(a, w) <==> LinkedWord(a, [], w) {
        assert w[..|w|] == w;
      }
    } else {
      PlainParts(ps);
      var b := BaseNfa(ps[0]);
      AutomatonReads(ps[0]);
      LinkedFacts(a, b);
      LinkAllReads(Linked(a, b), ps[1..]);
      forall w ensures Accepts(LinkAll(a, ps), w) <==> LinkedWord(a, ReadsAll(ps), w) {
        OneMoreLink(a, b, Reads(ps[0]), ReadsAll(ps[1..]), w);
      }
      forall w ensures StartLoop(LinkAll(a, ps), w) <==> StartLoop(a, w) {
        LinkedLoops(a, b, w);
      }
    }
  }

  lemma OneMoreLink(a: Nfa, b: Nfa, r: Path, rs: seq<Path>, w: Word)
    requires Proper(a) && Proper(b) && SameWords(b, r)
    ensures LinkedWord(Linked(a, b), rs, w) <==> LinkedWord(a, [r] + rs, w)
  {
    hide Accepts, Proper, Linked, Matches;
    var all := [r] + rs;
    assert all[0] == r && all[1..] == rs;
    if LinkedWord(Linked(a, b), rs, w) {
      var j :| 0 <= j <= |w| && Accepts(Linked(a, b), w[..j]) && MatchesAll(rs, w[j..]);
      LinkedAcceptsOnly(a, b, w[..j]);
      var k :| 0 <= k <= |w[..j]| && Accepts(a, w[..j][..k]) && Accepts(b, w[..j][k..]);
      var v := w[k..];
      assert w[..j][..k] == w[..k] && v[..j - k] == w[..j][k..] && v[j - k..] == w[j..];
      assert MatchesAll(all, v);
    }
    if LinkedWord(a, all, w) {
      var k :| 0 <= k <= |w| && Accepts(a, w[..k]) && MatchesAll(all, w[k..]);
      var v := w[k..];
      var i :| 0 <= i <= |v| && Matches(r, v[..i]) && MatchesAll(rs, v[i..]);
      LinkedAccepts(a, b, w[..k], v[..i]);
      assert w[..k] + v[..i] == w[..k + i] && v[i..] == w[k + i..];
    }
  }

  ghost predicate JoinsRead(a: Nfa, ps: seq<Path>)
    requires ProperOrNew(a) && PlainAll(ps)
  {
    && (forall w :: Accepts(JoinAll(a, ps), w) <==> Accepts(a, w) || MatchesSome(ReadsAll(ps), w))
    && NoReturn(JoinAll(a, ps))
  }

  lemma {:induction false} JoinAllReads(a: Nfa, ps: seq<Path>)
    requires ProperOrNew(a) && PlainAll(ps) && NoReturn(a)
    ensures JoinsRead(a, ps)
    decreases ps, 0
  {
    hide Accepts, StartLoop, Proper, Edges, Joined, Matches, NoReturn;
    if ps != [] {
      PlainParts(ps);
      var b := BaseNfa(ps[0]);
      AutomatonReads(ps[0]);
      JoinedFacts(a, b);
      JoinedNoReturn(a, b);
      JoinAllReads(Joined(a, b), ps[1..]);
      var rs := ReadsAll(ps);
      assert rs[0] == Reads(ps[0]) && rs[1..] == ReadsAll(ps[1..]);
      forall w ensures Accepts(JoinAll(a, ps), w) <==> Accepts(a, w) || MatchesSome(rs, w) {
        if Accepts(Joined(a, b), w) {
          JoinedAcceptsOnly(a, b, w);
        }
        if Accepts(a, w) || Accepts(b, w) {
          JoinedAccepts(a, b, w);
        }
      }
    }
  }

  lemma JoinedNoReturn(a: Nfa, b: Nfa)
    requires ProperOrNew(a) && Proper(b) && NoReturn(a)
    ensures NoReturn(Joined(a, b))
  {
    hide Edges, Joined, Proper;
    JoinedFacts(a, b);
    StartsAtZero(a);
    ProperStart(b);
  }

  // ----- no word is lost when stars have plain operands -------------------------------------------------------

  lemma {:induction false} LinkAllTotal(a: Nfa, ps: seq<Path>)
    requires Proper(a) && PlainAll(ps)
    ensures LinkAll(a, ps).total >= a.total + |ps|
    ensures !AllNullable(ps) && PlainStarsAll(ps) ==> LinkAll(a, ps).total >= a.total + |ps| + 1
    decreases ps, 0
  {
    if ps != [] {
      PlainParts(ps);
      var b := BaseNfa(ps[0]);
      LinkedFacts(a, b);
      ProperStart(b);
      LinkAllTotal(Linked(a, b), ps[1..]);
      if !ps[0].Nullable() && PlainStars(ps[0]) {
        var _ := TwoStates(ps[0]);
      }
    }
  }

  lemma {:induction false} JoinAllTotal(a: Nfa, ps: seq<Path>)
    requires ProperOrNew(a) && PlainAll(ps) && !SomeNullable(ps) && PlainStarsAll(ps)
    ensures JoinAll(a, ps).total >= a.total + 2 * |ps|
    decreases ps, 0
  {
    if ps != [] {
      PlainParts(ps);
      var _ := TwoStates(ps[0]);
      JoinedFacts(a, BaseNfa(ps[0]));
      JoinAllTotal(Joined(a, BaseNfa(ps[0])), ps[1..]);
    }
  }

  /** The automaton of a path that is not nullable has two states or more; with two it is one step. */
  lemma {:induction false} TwoStates(p: Path) returns (l: Letter)
    requires Plain(p) && PlainStars(p) && !p.Nullable()
    ensures BaseNfa(p).total >= 2 && (BaseNfa(p).total == 2 ==> AtomLike(BaseNfa(p), l))
    decreases p, 1
  {
    l := Test("");
    match p
    case Atom(n, i) =>
      AtomFacts(Edge(n, i));
      l := Edge(n, i);
    case Sequence(ps) =>
      PlainParts(ps);
      var a := BaseNfa(ps[0]);
      ProperStart(a);
      LinkAllTotal(a, ps[1..]);
      if !ps[0].Nullable() {
        l := TwoStates(ps[0]);
      }
      if ps[1..] == [] {
        assert LinkAll(a, ps[1..]) == a;
        assert AllNullable(ps[1..]);
      }
    case Alternatives(ps) =>
      JoinAllTotal(NEW_NFA, ps);
    case _ =>
  }

  /** Without optionals over nullable paths, the automaton reads every word of the path. */
  lemma {:induction false} WordIsRead(p: Path, w: Word)
    requires Plain(p) && PlainStars(p) && Matches(p, w)
    ensures Matches(Reads(p), w)
    decreases p, |w|, 0
  {
    hide BaseNfa, Loop;
    match p
    case Atom(_, _) =>
    case Sequence(ps) => WordIsReadAll(ps, w);
    case Alternatives(ps) => WordIsReadSome(ps, w);
    case KleeneStar(q) => WordIsReadStar(q, w);
    case Optional(q) =>
      TwoAlternatives(Reads(q), Loop(q), w);
      if w == [] {
        EmptyWordLoops(q);
      } else {
        WordIsRead(q, w);
      }
  }

  lemma EmptyWordLoops(q: Path)
    requires Plain(q)
    ensures Matches(Loop(q), [])
  {
    AutomatonReads(q);
    EmptyLoop(BaseNfa(q));
  }

  lemma {:induction false} WordIsReadAll(ps: seq<Path>, w: Word)
    requires PlainAll(ps) && PlainStarsAll(ps) && MatchesAll(ps, w)
    ensures MatchesAll(ReadsAll(ps), w)
    decreases ps, |w|, 0
  {
    hide Reads;
    if ps != [] {
      PlainParts(ps);
      var k :| 0 <= k <= |w| && Matches(ps[0], w[..k]) && MatchesAll(ps[1..], w[k..]);
      WordIsRead(ps[0], w[..k]);
      WordIsReadAll(ps[1..], w[k..]);
      assert ReadsAll(ps)[1..] == ReadsAll(ps[1..]);
    }
  }

  lemma {:induction false} WordIsReadSome(ps: seq<Path>, w: Word)
    requires PlainAll(ps) && PlainStarsAll(ps) && MatchesSome(ps, w)
    ensures MatchesSome(ReadsAll(ps), w)
    decreases ps, |w|, 0
  {
    hide Reads;
    PlainParts(ps);
    assert ReadsAll(ps)[1..] == ReadsAll(ps[1..]);
    if Matches(ps[0], w) {
      WordIsRead(ps[0], w);
    } else {
      WordIsReadSome(ps[1..], w);
    }
  }

  lemma {:induction false} WordIsReadStar(q: Path, w: Word)
    requires Plain(q) && PlainStars(q) && !q.Nullable() && MatchesStar(q, w)
    ensures Matches(Reads(KleeneStar(q)), w)
    decreases q, |w|, 2
  {
    hide Loop, BaseNfa, Matches;
    var a := BaseNfa(q);
    if a.total == 2 {
      var l := TwoStates(q);
      AtomLikeFacts(a, l);
      RepeatingIs(On(l), w);
      RowOfOneLetter(q, a, l, w);
    } else {
      var words := Alternatives([Reads(q), Loop(q)]);
      StarIs(words, w);
      StarIsRead(q, words, w);
    }
  }

  lemma {:induction false} RowOfOneLetter(q: Path, a: Nfa, l: Letter, w: Word)
    requires Plain(q) && PlainStars(q) && a == BaseNfa(q) && AtomLike(a, l) && MatchesStar(q, w)
    ensures Repeats(On(l), w)
    decreases q, |w|, 1
  {
    hide Reads, Loop, BaseNfa, AtomLike, NoReturn;
    if w != [] {
      var k :| 0 < k <= |w| && Matches(q, w[..k]) && MatchesStar(q, w[k..]);
      WordIsRead(q, w[..k]);
      AutomatonReads(q);
      AtomLikeAccepts(a, l, w[..k]);
      assert w == w[..k] + w[k..];
      RowOfOneLetter(q, a, l, w[k..]);
      assert k == 1 by { assert |w[..k]| == k; }
    }
  }

  lemma {:induction false} StarIsRead(q: Path, words: Path, w: Word)
    requires Plain(q) && PlainStars(q) && MatchesStar(q, w) && words == Alternatives([Reads(q), Loop(q)])
    ensures MatchesStar(words, w)
    decreases q, |w|, 1
  {
    hide Reads, Loop, BaseNfa;
    if w != [] {
      var k :| 0 < k <= |w| && Matches(q, w[..k]) && MatchesStar(q, w[k..]);
      WordIsRead(q, w[..k]);
      TwoAlternatives(Reads(q), Loop(q), w[..k]);
      StarIsRead(q, words, w[k..]);
    }
  }

  /** So the automaton accepts every word of such a path. */
  lemma AcceptsWord(p: Path, w: Word)
    requires Plain(p) && PlainStars(p) && Matches(p, w)
    ensures Accepts(BaseNfa(p), w)
  {
    AutomatonReads(p);
    WordIsRead(p, w);
  }

  // ----- when it accepts nothing else ---------------------------------------------------------------------------

  /** The first step of the path can always be told from a return to its start. */
  predicate FreshStart(p: Path)
    decreases p, 1
  {
    match p
    case Atom(_, _) => true
    case Check(_) => true
    case Sequence(ps) => ps == [] || FreshStart(ps[0])
    case Alternatives(ps) => true
    case KleeneStar(_) => false
    case Optional(q) => FreshStart(q)
  }

  lemma {:induction false} FreshStartDoesNotLoop(p: Path)
    requires Plain(p) && FreshStart(p)
    ensures Loop(p) == NOTHING
    decreases p
  {
    match p
    case Sequence(ps) =>
      PlainParts(ps);
      FreshStartDoesNotLoop(ps[0]);
    case Optional(q) => FreshStartDoesNotLoop(q);
    case _ =>
  }

  /** The start is an end already, so that what loops on it is accepted anyway. */
  predicate EndsAtStart(p: Path)
    decreases p, 1
  {
    match p
    case Sequence(ps) => |ps| == 1 && EndsAtStart(ps[0])
    case KleeneStar(_) => true
    case Optional(_) => true
    case _ => false
  }

  lemma {:induction false} EndsAtStartReadsLoops(p: Path, w: Word)
    requires Plain(p) && EndsAtStart(p) && Matches(Loop(p), w)
    ensures Matches(Reads(p), w)
    decreases p
  {
    hide BaseNfa;
    match p
    case Sequence(ps) =>
      PlainParts(ps);
      EndsAtStartReadsLoops(ps[0], w);
      assert ReadsAll(ps[1..]) == [] && ReadsAll(ps)[1..] == [];
      assert w[..|w|] == w && w[|w|..] == [];
      assert MatchesAll([], w[|w|..]);
    case Optional(q) => TwoAlternatives(Reads(q), Loop(q), w);
    case _ =>
  }

  /** No operand of a star begins with a star, and an operand of an optional that does is one itself. */
  predicate FreshOperands(p: Path)
    decreases p, 1
  {
    match p
    case KleeneStar(q) => FreshStart(q) && FreshOperands(q)
    case Optional(q) => (FreshStart(q) || EndsAtStart(q)) && FreshOperands(q)
    case Sequence(ps) => FreshOperandsAll(ps)
    case Alternatives(ps) => FreshOperandsAll(ps)
    case _ => true
  }

  predicate FreshOperandsAll(ps: seq<Path>)
    decreases ps, 0
  {
    ps == [] || (FreshOperands(ps[0]) && FreshOperandsAll(ps[1..]))
  }

  lemma {:induction false} ReadIsWord(p: Path, w: Word)
    requires Plain(p) && PlainStars(p) && FreshOperands(p) && Matches(Reads(p), w)
    ensures Matches(p, w)
    decreases p, |w|, 0
  {
    hide BaseNfa, Loop;
    match p
    case Atom(_, _) =>
    case Sequence(ps) => ReadIsWordAll(ps, w);
    case Alternatives(ps) => ReadIsWordSome(ps, w);
    case KleeneStar(q) => ReadIsWordStar(q, w);
    case Optional(q) =>
      TwoAlternatives(Reads(q), Loop(q), w);
      if !Matches(Reads(q), w) {
        LoopedIsRead(q, w);
      }
      if w != [] {
        ReadIsWord(q, w);
      }
  }

  lemma LoopedIsRead(q: Path, w: Word)
    requires Plain(q) && (FreshStart(q) || EndsAtStart(q)) && Matches(Loop(q), w)
    ensures w == [] || Matches(Reads(q), w)
  {
    if FreshStart(q) {
      FreshStartDoesNotLoop(q);
    } else {
      EndsAtStartReadsLoops(q, w);
    }
  }

  lemma {:induction false} ReadIsWordAll(ps: seq<Path>, w: Word)
    requires PlainAll(ps) && PlainStarsAll(ps) && FreshOperandsAll(ps) && MatchesAll(ReadsAll(ps), w)
    ensures MatchesAll(ps, w)
    decreases ps, |w|, 0
  {
    hide Reads;
    if ps != [] {
      PlainParts(ps);
      var rs := ReadsAll(ps);
      assert rs[0] == Reads(ps[0]) && rs[1..] == ReadsAll(ps[1..]);
      var k :| 0 <= k <= |w| && Matches(rs[0], w[..k]) && MatchesAll(rs[1..], w[k..]);
      ReadIsWord(ps[0], w[..k]);
      ReadIsWordAll(ps[1..], w[k..]);
    }
  }

  lemma {:induction false} ReadIsWordSome(ps: seq<Path>, w: Word)
    requires PlainAll(ps) && PlainStarsAll(ps) && FreshOperandsAll(ps) && MatchesSome(ReadsAll(ps), w)
    ensures MatchesSome(ps, w)
    decreases ps, |w|, 0
  {
    hide Reads;
    PlainParts(ps);
    var rs := ReadsAll(ps);
    assert rs[0] == Reads(ps[0]) && rs[1..] == ReadsAll(ps[1..]);
    if Matches(rs[0], w) {
      ReadIsWord(ps[0], w);
    } else {
      ReadIsWordSome(ps[1..], w);
    }
  }

  lemma {:induction false} ReadIsWordStar(q: Path, w: Word)
    requires Plain(q) && PlainStars(q) && !q.Nullable() && FreshStart(q) && FreshOperands(q)
    requires Matches(Reads(KleeneStar(q)), w)
    ensures MatchesStar(q, w)
    decreases q, |w|, 2
  {
    hide Loop, BaseNfa, Matches;
    var a := BaseNfa(q);
    if w == [] {
      return;
    }
    if a.total == 2 {
      var l := TwoStates(q);
      AtomLikeFacts(a, l);
      RepeatingIs(On(l), w);
      AutomatonReads(q);
      AtomLikeAccepts(a, l, [l]);
      ReadIsWord(q, [l]);
      RepeatsIsRow(q, l, w);
    } else {
      var words := Alternatives([Reads(q), Loop(q)]);
      StarIs(words, w);
      FreshStartDoesNotLoop(q);
      ReadIsRow(q, words, w);
    }
  }

  lemma {:induction false} RepeatsIsRow(q: Path, l: Letter, w: Word)
    requires Matches(q, [l]) && Repeats(On(l), w)
    ensures MatchesStar(q, w)
    decreases |w|
  {
    hide Matches;
    if w != [] {
      RepeatsIsRow(q, l, w[1..]);
      assert w[..1] == [l];
    }
  }

  lemma {:induction false} ReadIsRow(q: Path, words: Path, w: Word)
    requires Plain(q) && PlainStars(q) && FreshOperands(q) && Loop(q) == NOTHING
    requires words == Alternatives([Reads(q), NOTHING]) && MatchesStar(words, w)
    ensures MatchesStar(q, w)
    decreases q, |w|, 1
  {
    hide Reads, BaseNfa, Loop;
    if w != [] {
      var k :| 0 < k <= |w| && Matches(words, w[..k]) && MatchesStar(words, w[k..]);
      TwoAlternatives(Reads(q), NOTHING, w[..k]);
      OnlyNothing(w[..k]);
      ReadIsWord(q, w[..k]);
      ReadIsRow(q, words, w[k..]);
    }
  }

  /** The automaton accepts exactly the words of the path. */
  ghost predicate Exact(p: Path)
    requires Plain(p)
  {
    SameWords(BaseNfa(p), p)
  }

  /** Every word of the one path is a word of the other. */
  ghost predicate Included(p: Path, q: Path) {
    forall w :: Matches(p, w) ==> Matches(q, w)
  }

  /** For every path: the automaton is exact if and only if the path it reads has the same words. */
  lemma ExactIffReadsTheSame(p: Path)
    requires Plain(p)
    ensures Exact(p) <==> Included(Reads(p), p) && Included(p, Reads(p))
  {
    hide Accepts, Matches;
    AutomatonReads(p);
    if Exact(p) {
      forall w ensures Matches(Reads(p), w) <==> Matches(p, w) {
        assert Accepts(BaseNfa(p), w) <==> Matches(p, w);
      }
    }
    if Included(Reads(p), p) && Included(p, Reads(p)) {
      forall w ensures Accepts(BaseNfa(p), w) <==> Matches(p, w) {
        assert Accepts(BaseNfa(p), w) <==> Matches(Reads(p), w);
      }
    }
  }

  /** With plain stars that leaves one direction: nothing is read but words. */
  lemma ExactIffNothingElse(p: Path)
    requires Plain(p) && PlainStars(p)
    ensures Exact(p) <==> Included(Reads(p), p)
  {
    hide Accepts, Matches, PlainStars;
    ExactIffReadsTheSame(p);
    forall w | Matches(p, w) ensures Matches(Reads(p), w) {
      WordIsRead(p, w);
    }
  }

  /** The automaton of a path with fresh starts accepts exactly the words of the path. */
  lemma BaseNfaIsExact(p: Path)
    requires Plain(p) && PlainStars(p) && FreshOperands(p)
    ensures Exact(p)
  {
    hide Accepts, Matches, PlainStars, FreshOperands;
    ExactIffNothingElse(p);
    forall w | Matches(Reads(p), w) ensures Matches(p, w) {
      ReadIsWord(p, w);
    }
    assert Included(Reads(p), p);
  }

  /** Of an exact operand the optional is exact if and only if what its operand loops on at the start
      are words of it. */
  lemma OptionalIsExactIff(q: Path)
    requires Plain(q) && Exact(q)
    ensures Exact(Optional(q)) <==> Included(Loop(q), Optional(q))
  {
    hide Accepts, Matches, BaseNfa, Loop;
    var p := Optional(q);
    ExactIffReadsTheSame(p);
    ExactIffReadsTheSame(q);
    EmptyWordLoops(q);
    if Included(Loop(q), p) {
      forall w ensures Matches(Reads(p), w) <==> Matches(p, w) {
        TwoAlternatives(Reads(q), Loop(q), w);
        OptionalMeans(q, w);
      }
    }
    if Exact(p) {
      forall w | Matches(Loop(q), w) ensures Matches(p, w) {
        TwoAlternatives(Reads(q), Loop(q), w);
      }
    }
  }

  lemma OptionalMeans(q: Path, w: Word)
    ensures Matches(Optional(q), w) <==> w == [] || Matches(q, w)
  {
  }

  /** Of an exact operand the star is exact, when it does not take the short form, if and only if what
      its operand loops on at the start are rows of words of it. */
  lemma StarIsExactIff(q: Path)
    requires Plain(q) && Exact(q) && BaseNfa(q).total != 2
    ensures Exact(KleeneStar(q)) <==> Included(Loop(q), KleeneStar(q))
  {
    hide Accepts, Matches, BaseNfa, Loop;
    var p, words := KleeneStar(q), Alternatives([Reads(q), Loop(q)]);
    ExactIffReadsTheSame(p);
    ExactIffReadsTheSame(q);
    if Included(Loop(q), p) {
      forall w | Matches(Reads(p), w) ensures Matches(p, w) {
        forall v | Matches(words, v) ensures MatchesStar(q, v) {
          TwoAlternatives(Reads(q), Loop(q), v);
          StarIs(q, v);
          PlainWords(q, v);
        }
        StarIs(words, w);
        StarIs(q, w);
        StarInStar(words, q, w);
      }
      forall w | Matches(p, w) ensures Matches(Reads(p), w) {
        forall v | Matches(q, v) ensures MatchesStar(words, v) {
          TwoAlternatives(Reads(q), Loop(q), v);
          PlainWords(words, v);
        }
        StarIs(words, w);
        StarIs(q, w);
        StarInStar(q, words, w);
      }
    }
    if Exact(p) {
      forall w | Matches(Loop(q), w) ensures Matches(p, w) {
        TwoAlternatives(Reads(q), Loop(q), w);
        PlainWords(words, w);
        StarIs(words, w);
      }
    }
  }

  // ----- which paths the parser makes ---------------------------------------------------------------------------------

  /** No optional has a nullable operand. */
  predicate PlainOptionals(p: Path)
    decreases p, 1
  {
    match p
    case KleeneStar(q) => PlainOptionals(q)
    case Optional(q) => !q.Nullable() && PlainOptionals(q)
    case Alternatives(ps) => PlainOptionalsAll(ps)
    case Sequence(ps) => PlainOptionalsAll(ps)
    case _ => true
  }

  predicate PlainOptionalsAll(ps: seq<Path>)
    decreases ps, 0
  {
    ps == [] || (PlainOptionals(ps[0]) && PlainOptionalsAll(ps[1..]))
  }

  /** When no optional has a nullable operand, the stars that the constructor builds have none either. */
  lemma {:induction false} BuiltStarsArePlain(p: Path)
    requires PlainStars(p) && PlainOptionals(p)
    ensures Opens(p) && PlainStars(p.Denull()) && PlainOptionals(p.Denull())
    ensures PlainStars(MakeStar(p)) && PlainOptionals(MakeStar(p))
    decreases p, 1
  {
    match p {
      case Alternatives(ps) => BuiltAllArePlain(ps);
      case Sequence(ps) => BuiltAllArePlain(ps);
      case _ =>
    }
    DenullIsNotNullable(p);
  }

  lemma {:induction false} BuiltAllArePlain(ps: seq<Path>)
    requires PlainStarsAll(ps) && PlainOptionalsAll(ps)
    ensures OpensAll(ps) && PlainStarsAll(DenullAll(ps)) && PlainOptionalsAll(DenullAll(ps))
    decreases ps, 0
  {
    if ps != [] {
      BuiltStarsArePlain(ps[0]);
      BuiltAllArePlain(ps[1..]);
      assert DenullAll(ps)[0] == ps[0].Denull() && DenullAll(ps)[1..] == DenullAll(ps[1..]);
    }
  }

  // ----- where the automata go wrong -----------------------------------------------------------------------------------

  /** An optional over a star of "a" and then "b": the loop of the star lies on the start, which the optional
      makes an end, and so "a" alone is accepted. */
  lemma LeadingStarAcceptsMore()
    ensures var p := Optional(Sequence([KleeneStar(Atom("a", false)), Atom("b", false)]));
      Plain(p) && PlainStars(p) && !FreshOperands(p) && Accepts(BaseNfa(p), [Edge("a", false)]) && !Matches(p, [Edge("a", false)])
  {
    hide Edges, Proper, Runs, Spelled, LinkAll, MatchesAll;
    var a := Edge("a", false);
    var ps := [KleeneStar(Atom("a", false)), Atom("b", false)];
    assert ps[1..] == [Atom("b", false)] && ps[1..][1..] == [];
    assert PlainAll(ps[1..][1..]) && PlainStarsAll(ps[1..][1..]);
    assert ps[1..][0] == ps[1] && Plain(ps[1]) && PlainStars(ps[1]);
    assert PlainAll(ps[1..]) && PlainStarsAll(ps[1..]);
    assert Plain(ps[0]) && PlainStars(ps[0]);
    assert PlainAll(ps) && PlainStarsAll(ps);
    var q := Sequence(ps);
    LeadingLoop(ps);
    OptionalFacts(BaseNfa(q));
    RunsOne(Edges(BaseNfa(q)), Transition(0, 0, On(a)));
    assert AcceptsBy(BaseNfa(Optional(q)), [a], [Transition(0, 0, On(a))], 0);
    NotWithoutLast(ps, a);
  }

  lemma LeadingLoop(ps: seq<Path>)
    requires ps == [KleeneStar(Atom("a", false)), Atom("b", false)] && Plain(Sequence(ps))
    ensures Transition(0, 0, On(Edge("a", false))) in Edges(BaseNfa(Sequence(ps))) && BaseNfa(Sequence(ps)).start == 0
  {
    hide Edges, Linked, Shortcut, AtomNfa, Proper;
    var a, b := Edge("a", false), Edge("b", false);
    assert ps[1..] == [ps[1]] && [ps[1]][1..] == [];
    AtomFacts(a);
    AtomFacts(b);
    AtomLikeFacts(AtomNfa(a), a);
    ShortcutFacts(AtomNfa(a));
    assert BaseNfa(ps[0]) == Shortcut(AtomNfa(a));
    LinkedFacts(BaseNfa(ps[0]), BaseNfa(ps[1]));
    assert LinkAll(BaseNfa(ps[0]), [ps[1]]) == LinkAll(Linked(BaseNfa(ps[0]), BaseNfa(ps[1])), []);
  }

  lemma NotWithoutLast(ps: seq<Path>, a: Letter)
    requires ps == [KleeneStar(Atom("a", false)), Atom("b", false)] && a == Edge("a", false)
    ensures !MatchesAll(ps, [a])
  {
    var last := ps[1..];
    assert last == [Atom("b", false)] && last[1..] == [];
    forall v ensures MatchesAll(last, v) ==> v == [Edge("b", false)] {
      if MatchesAll(last, v) {
        var j :| 0 <= j <= |v| && Matches(last[0], v[..j]) && MatchesAll(last[1..], v[j..]);
        assert v == v[..j] + v[j..];
      }
    }
    forall k | 0 <= k <= 1 ensures [a][k..] != [Edge("b", false)] {
      assert [a][0..] == [a] && [a][1..] == [];
    }
  }
}
