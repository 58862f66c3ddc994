/** Path expressions, the words they describe, and the rewriting done inside every Kleene star. */
module Paths {
  /** One step of a path: an edge type, forwards or backwards, or a check of a node. */
  datatype Letter = Edge(name: string, inverse: bool) | Test(check: string)

  type Word = seq<Letter>

  datatype Path = Atom(name: string, inverse: bool)
                | Check(check: string)
                | Sequence(paths: seq<Path>)
                | Alternatives(paths: seq<Path>)
                | KleeneStar(path: Path)
                | Optional(path: Path)
  {
    predicate Nullable()
      decreases this, 1
    {
      match this
      case Atom(_, _) => false
      case Check(_) => false
      case Sequence(ps) => AllNullable(ps)
      case Alternatives(ps) => SomeNullable(ps)
      case KleeneStar(_) => true
      case Optional(_) => true
    }

    /** Removes from the operand of a star what the star makes superfluous. */
    function Denull(): Path
      decreases this, 1
    {
      match this
      case KleeneStar(p) => p
      case Optional(p) => p
      case Alternatives(ps) => if Nullable() then Alternatives(DenullAll(ps)) else this
      case Sequence(ps) => if Nullable() then Alternatives(DenullAll(ps)) else this
      case Atom(_, _) => this
      case Check(_) => this
    }

    /** The path read from its end to its start. */
    function Invert(): Path
      decreases this, 1
    {
      match this
      case Atom(n, i) => Atom(n, !i)
      case Check(_) => this
      case Sequence(ps) => Sequence(InvertBackwards(ps))
      case Alternatives(ps) => Alternatives(InvertAll(ps))
      case KleeneStar(p) => MakeStar(p.Invert())
      case Optional(p) => Optional(p.Invert())
    }
  }

  /** The constructor of stars: the operand is always rewritten. */
  function MakeStar(p: Path): Path {
    KleeneStar(p.Denull())
  }

  predicate AllNullable(ps: seq<Path>)
    decreases ps, 0
  {
    ps == [] || (ps[0].Nullable() && AllNullable(ps[1..]))
  }

  predicate SomeNullable(ps: seq<Path>)
    decreases ps, 0
  {
    ps != [] && (ps[0].Nullable() || SomeNullable(ps[1..]))
  }

  function DenullAll(ps: seq<Path>): seq<Path>
    decreases ps, 0
  {
    if ps == [] then [] else [ps[0].Denull()] + DenullAll(ps[1..])
  }

  function InvertAll(ps: seq<Path>): seq<Path>
    decreases ps, 0
  {
    if ps == [] then [] else [ps[0].Invert()] + InvertAll(ps[1..])
  }

  function InvertBackwards(ps: seq<Path>): seq<Path>
    decreases ps, 0
  {
    if ps == [] then [] else InvertBackwards(ps[1..]) + [ps[0].Invert()]
  }

  // ----- the language of a path ----------------------------------------------------------------------------

  ghost predicate Matches(p: Path, w: Word)
    decreases p, |w|, 0
  {
    match p
    case Atom(n, i) => w == [Edge(n, i)]
    case Check(c) => w == [Test(c)]
    case Sequence(ps) => MatchesAll(ps, w)
    case Alternatives(ps) => MatchesSome(ps, w)
    case KleeneStar(q) => MatchesStar(q, w)
    case Optional(q) => w == [] || Matches(q, w)
  }

  /** `w` is a word of the first path, then one of the second, and so on. */
  ghost predicate MatchesAll(ps: seq<Path>, w: Word)
    decreases ps, |w|, 0
  {
    if ps == [] then w == []
    else exists k :: 0 <= k <= |w| && Matches(ps[0], w[..k]) && MatchesAll(ps[1..], w[k..])
  }

  ghost predicate MatchesSome(ps: seq<Path>, w: Word)
    decreases ps, |w|, 0
  {
    ps != [] && (Matches(ps[0], w) || MatchesSome(ps[1..], w))
  }

  /** `w` is a row of words of `p`. */
  ghost predicate MatchesStar(p: Path, w: Word)
    decreases p, |w|, 1
  {
    w == [] || exists k :: 0 < k <= |w| && Matches(p, w[..k]) && MatchesStar(p, w[k..])
  }

  // ----- nullable --------------------------------------------------------------------------------------------

  /** Nullable paths are exactly those that the empty word matches. */
  lemma {:induction false} NullableIsEmptyWord(p: Path)
    ensures p.Nullable() <==> Matches(p, [])
    decreases p, 1
  {
    match p
    case Sequence(ps) => AllNullableIsEmptyWord(ps);
    case Alternatives(ps) => SomeNullableIsEmptyWord(ps);
    case _ =>
  }

  lemma {:induction false} AllNullableIsEmptyWord(ps: seq<Path>)
    ensures AllNullable(ps) <==> MatchesAll(ps, [])
    decreases ps, 0
  {
    if ps != [] {
      NullableIsEmptyWord(ps[0]);
      AllNullableIsEmptyWord(ps[1..]);
      var w: Word := [];
      assert w[..0] == w && w[0..] == w;
    }
  }

  lemma {:induction false} SomeNullableIsEmptyWord(ps: seq<Path>)
    ensures SomeNullable(ps) <==> MatchesSome(ps, [])
    decreases ps, 0
  {
    if ps != [] {
      NullableIsEmptyWord(ps[0]);
      SomeNullableIsEmptyWord(ps[1..]);
    }
  }

  // ----- stars ---------------------------------------------------------------------------------------------

  /** One word of `p` is a row of words of `p`. */
  lemma StarOfOne(p: Path, w: Word)
    requires Matches(p, w)
    ensures MatchesStar(p, w)
  {
    if w != [] {
      assert w[..|w|] == w && w[|w|..] == [];
    }
  }

  lemma {:induction false} StarConcat(p: Path, u: Word, v: Word)
    requires MatchesStar(p, u) && MatchesStar(p, v)
    ensures MatchesStar(p, u + v)
    decreases |u|
  {
    if u == [] {
      assert u + v == v;
    } else {
      var k :| 0 < k <= |u| && Matches(p, u[..k]) && MatchesStar(p, u[k..]);
      StarConcat(p, u[k..], v);
      assert (u + v)[..k] == u[..k] && (u + v)[k..] == u[k..] + v;
    }
  }

  /** When every word of `p` is a row of words of `q`, so is every row of words of `p`. */
  lemma {:induction false} StarInStar(p: Path, q: Path, w: Word)
    requires MatchesStar(p, w)
    requires forall v :: Matches(p, v) ==> MatchesStar(q, v)
    ensures MatchesStar(q, w)
    decreases |w|
  {
    if w != [] {
      var k :| 0 < k <= |w| && Matches(p, w[..k]) && MatchesStar(p, w[k..]);
      StarInStar(p, q, w[k..]);
      StarConcat(q, w[..k], w[k..]);
      assert w[..k] + w[k..] == w;
    }
  }

  /** Alternatives inside a star: a row of words of one of them is a row of words of all. */
  lemma {:induction false} AlternativeInStar(ps: seq<Path>, i: nat, w: Word)
    requires i < |ps| && MatchesStar(ps[i], w)
    ensures MatchesStar(Alternatives(ps), w)
  {
    forall v | Matches(ps[i], v) ensures MatchesStar(Alternatives(ps), v) {
      SomeAt(ps, i, v);
      StarOfOne(Alternatives(ps), v);
    }
    StarInStar(ps[i], Alternatives(ps), w);
  }

  lemma {:induction false} SomeAt(ps: seq<Path>, i: nat, w: Word)
    requires i < |ps| && Matches(ps[i], w)
    ensures MatchesSome(ps, w)
    decreases i
  {
    if i > 0 {
      SomeAt(ps[1..], i - 1, w);
    }
  }

  lemma {:induction false} SomeIs(ps: seq<Path>, w: Word) returns (i: nat)
    requires MatchesSome(ps, w)
    ensures i < |ps| && Matches(ps[i], w)
  {
    if Matches(ps[0], w) {
      i := 0;
    } else {
      i := SomeIs(ps[1..], w);
      i := i + 1;
    }
  }

  // ----- denull ----------------------------------------------------------------------------------------------

  lemma {:induction false} DenullAllAt(ps: seq<Path>)
    ensures |DenullAll(ps)| == |ps| && forall i :: 0 <= i < |ps| ==> DenullAll(ps)[i] == ps[i].Denull()
  {
    if ps != [] {
      DenullAllAt(ps[1..]);
    }
  }

  /** Every word of the rewritten path is a row of words of the path, and the other way round. */
  lemma {:induction false} DenullWords(p: Path, w: Word)
    ensures Matches(p.Denull(), w) ==> MatchesStar(p, w)
    ensures Matches(p, w) ==> MatchesStar(p.Denull(), w)
    decreases p, 1
  {
    match p
    case KleeneStar(q) =>
      if Matches(q, w) {
        StarOfOne(q, w);
        StarOfOne(p, w);
      }
    case Optional(q) =>
      if Matches(q, w) {
        StarOfOne(q, w);
        StarOfOne(p, w);
      }
    case Alternatives(ps) =>
      if p.Nullable() {
        AlternativesDenullWords(ps, w);
      } else {
        PlainWords(p, w);
      }
    case Sequence(ps) =>
      if p.Nullable() {
        SequenceDenullWords(ps, w);
      } else {
        PlainWords(p, w);
      }
    case _ => PlainWords(p, w);
  }

  lemma PlainWords(p: Path, w: Word)
    ensures Matches(p, w) ==> MatchesStar(p, w)
  {
    if Matches(p, w) {
      StarOfOne(p, w);
    }
  }

  lemma {:induction false} AlternativesDenullWords(ps: seq<Path>, w: Word)
    ensures Matches(Alternatives(DenullAll(ps)), w) ==> MatchesStar(Alternatives(ps), w)
    ensures Matches(Alternatives(ps), w) ==> MatchesStar(Alternatives(DenullAll(ps)), w)
    decreases ps, 0
  {
    var ds := DenullAll(ps);
    DenullAllAt(ps);
    if MatchesSome(ds, w) {
      var i := SomeIs(ds, w);
      DenullWords(ps[i], w);
      AlternativeInStar(ps, i, w);
    }
    if MatchesSome(ps, w) {
      var i := SomeIs(ps, w);
      DenullWords(ps[i], w);
      AlternativeInStar(ds, i, w);
    }
  }

  /** When all parts of a sequence are nullable, the star of the sequence is the star of the alternatives. */
  lemma {:induction false} SequenceDenullWords(ps: seq<Path>, w: Word)
    requires AllNullable(ps)
    ensures Matches(Alternatives(DenullAll(ps)), w) ==> MatchesStar(Sequence(ps), w)
    ensures Matches(Sequence(ps), w) ==> MatchesStar(Alternatives(DenullAll(ps)), w)
    decreases ps, 1
  {
    var ds := DenullAll(ps);
    DenullAllAt(ps);
    if MatchesSome(ds, w) {
      var i := SomeIs(ds, w);
      DenullWords(ps[i], w);
      forall v | Matches(ps[i], v) ensures MatchesStar(Sequence(ps), v) {
        PartOfSequence(ps, i, v);
        StarOfOne(Sequence(ps), v);
      }
      StarInStar(ps[i], Sequence(ps), w);
    }
    if MatchesAll(ps, w) {
      SequenceInStar(ps, ds, 0, w);
    }
  }

  /** In a sequence of nullable paths any one of them can provide the whole word. */
  lemma {:induction false} PartOfSequence(ps: seq<Path>, i: nat, w: Word)
    requires AllNullable(ps) && i < |ps| && Matches(ps[i], w)
    ensures MatchesAll(ps, w)
    decreases i
  {
    if i == 0 {
      AllNullableIsEmptyWord(ps[1..]);
      assert w[..|w|] == w && w[|w|..] == [];
    } else {
      NullableIsEmptyWord(ps[0]);
      PartOfSequence(ps[1..], i - 1, w);
      assert w[..0] == [] && w[0..] == w;
    }
  }

  lemma {:induction false} SequenceInStar(ps: seq<Path>, ds: seq<Path>, k: nat, w: Word)
    requires |ds| == |ps| && k <= |ps| && (forall i :: 0 <= i < |ps| ==> ds[i] == ps[i].Denull())
    requires MatchesAll(ps[k..], w)
    ensures MatchesStar(Alternatives(ds), w)
    decreases ps, 0, |ps| - k
  {
    if k < |ps| {
      var rest := ps[k..];
      assert rest[0] == ps[k] && rest[1..] == ps[k + 1..];
      var j :| 0 <= j <= |w| && Matches(rest[0], w[..j]) && MatchesAll(rest[1..], w[j..]);
      DenullWords(ps[k], w[..j]);
      AlternativeInStar(ds, k, w[..j]);
      SequenceInStar(ps, ds, k + 1, w[j..]);
      StarConcat(Alternatives(ds), w[..j], w[j..]);
      assert w[..j] + w[j..] == w;
    }
  }

  /** The rewriting keeps the meaning of the star. */
  lemma DenullKeepsStar(p: Path, w: Word)
    ensures MatchesStar(p.Denull(), w) <==> MatchesStar(p, w)
    ensures Matches(MakeStar(p), w) <==> Matches(KleeneStar(p), w)
  {
    forall v ensures Matches(p.Denull(), v) ==> MatchesStar(p, v) {
      DenullWords(p, v);
    }
    forall v ensures Matches(p, v) ==> MatchesStar(p.Denull(), v) {
      DenullWords(p, v);
    }
    if MatchesStar(p, w) {
      StarInStar(p, p.Denull(), w);
    }
    if MatchesStar(p.Denull(), w) {
      StarInStar(p.Denull(), p, w);
    }
  }

  // ----- when the rewritten operand is never nullable ---------------------------------------------------------

  /** No star or optional that the rewriting opens has a nullable operand. */
  predicate Opens(p: Path)
    decreases p, 1
  {
    match p
    case KleeneStar(q) => !q.Nullable()
    case Optional(q) => !q.Nullable()
    case Alternatives(ps) => p.Nullable() ==> OpensAll(ps)
    case Sequence(ps) => p.Nullable() ==> OpensAll(ps)
    case _ => true
  }

  predicate OpensAll(ps: seq<Path>)
    decreases ps, 0
  {
    ps == [] || (Opens(ps[0]) && OpensAll(ps[1..]))
  }

  /** The rewritten path is not nullable just when that is so. */
  lemma {:induction false} DenullIsNotNullable(p: Path)
    ensures !p.Denull().Nullable() <==> Opens(p)
    decreases p, 1
  {
    match p
    case Alternatives(ps) => DenullAllNotNullable(ps);
    case Sequence(ps) => DenullAllNotNullable(ps);
    case _ =>
  }

  lemma {:induction false} DenullAllNotNullable(ps: seq<Path>)
    ensures !SomeNullable(DenullAll(ps)) <==> OpensAll(ps)
    decreases ps, 0
  {
    if ps != [] {
      DenullIsNotNullable(ps[0]);
      DenullAllNotNullable(ps[1..]);
      assert DenullAll(ps)[0] == ps[0].Denull() && DenullAll(ps)[1..] == DenullAll(ps[1..]);
    }
  }

  /** An optional over an optional is opened only once: the operand of the star stays nullable. */
  lemma OptionalOfOptional()
    ensures var p := Optional(Optional(Atom("a", false))); p.Denull().Nullable()
  {
  }

  // ----- inversion ---------------------------------------------------------------------------------------------

  function Flip(l: Letter): Letter {
    match l
    case Edge(n, i) => Edge(n, !i)
    case Test(_) => l
  }

  /** The word walked from its end to its start. */
  function Backwards(w: Word): (r: Word)
    ensures |r| == |w|
  {
    if w == [] then [] else Backwards(w[1..]) + [Flip(w[0])]
  }

  lemma {:induction false} BackwardsConcat(u: Word, v: Word)
    ensures Backwards(u + v) == Backwards(v) + Backwards(u)
  {
    if u == [] {
      assert u + v == v;
    } else {
      assert (u + v)[0] == u[0] && (u + v)[1..] == u[1..] + v;
      BackwardsConcat(u[1..], v);
    }
  }

  lemma {:induction false} BackwardsTwice(w: Word)
    ensures Backwards(Backwards(w)) == w
  {
    if w != [] {
      BackwardsTwice(w[1..]);
      BackwardsConcat(Backwards(w[1..]), [Flip(w[0])]);
      OneBackwards(Flip(w[0]));
      assert w == [w[0]] + w[1..];
    }
  }

  lemma OneBackwards(l: Letter)
    ensures Backwards([l]) == [Flip(l)]
  {
    assert Backwards([l]) == Backwards([]) + [Flip(l)];
  }

  lemma {:induction false} MatchesAllConcat(ps: seq<Path>, qs: seq<Path>, u: Word, v: Word)
    requires MatchesAll(ps, u) && MatchesAll(qs, v)
    ensures MatchesAll(ps + qs, u + v)
    decreases |ps|
  {
    if ps == [] {
      assert ps + qs == qs && u + v == v;
    } else {
      var k :| 0 <= k <= |u| && Matches(ps[0], u[..k]) && MatchesAll(ps[1..], u[k..]);
      MatchesAllConcat(ps[1..], qs, u[k..], v);
      assert (ps + qs)[0] == ps[0] && (ps + qs)[1..] == ps[1..] + qs;
      assert (u + v)[..k] == u[..k] && (u + v)[k..] == u[k..] + v;
    }
  }

  /** The inverted path matches every word of the path, walked backwards. */
  lemma {:induction false} InvertMatches(p: Path, w: Word)
    requires Matches(p, w)
    ensures Matches(p.Invert(), Backwards(w))
    decreases p, |w|, 0
  {
    match p
    case Atom(n, i) => OneBackwards(w[0]);
    case Check(c) => OneBackwards(w[0]);
    case Sequence(ps) => InvertMatchesAll(ps, w);
    case Alternatives(ps) => InvertMatchesSome(ps, w);
    case KleeneStar(q) =>
      InvertMatchesStar(q, w);
      DenullKeepsStar(q.Invert(), Backwards(w));
    case Optional(q) =>
      if w != [] {
        InvertMatches(q, w);
      }
  }

  lemma {:induction false} InvertMatchesAll(ps: seq<Path>, w: Word)
    requires MatchesAll(ps, w)
    ensures MatchesAll(InvertBackwards(ps), Backwards(w))
    decreases ps, |w|, 0
  {
    if ps != [] {
      var k :| 0 <= k <= |w| && Matches(ps[0], w[..k]) && MatchesAll(ps[1..], w[k..]);
      InvertMatches(ps[0], w[..k]);
      InvertMatchesAll(ps[1..], w[k..]);
      OneMatchesAll(ps[0].Invert(), Backwards(w[..k]));
      MatchesAllConcat(InvertBackwards(ps[1..]), [ps[0].Invert()], Backwards(w[k..]), Backwards(w[..k]));
      BackwardsConcat(w[..k], w[k..]);
      assert w == w[..k] + w[k..];
    }
  }

  lemma OneMatchesAll(p: Path, w: Word)
    requires Matches(p, w)
    ensures MatchesAll([p], w)
  {
    assert w[..|w|] == w && w[|w|..] == [];
    assert MatchesAll([p][1..], w[|w|..]);
  }

  lemma {:induction false} InvertMatchesSome(ps: seq<Path>, w: Word)
    requires MatchesSome(ps, w)
    ensures MatchesSome(InvertAll(ps), Backwards(w))
    decreases ps, |w|, 0
  {
    if Matches(ps[0], w) {
      InvertMatches(ps[0], w);
    } else {
      InvertMatchesSome(ps[1..], w);
    }
    assert InvertAll(ps)[0] == ps[0].Invert() && InvertAll(ps)[1..] == InvertAll(ps[1..]);
  }

  lemma {:induction false} InvertMatchesStar(p: Path, w: Word)
    requires MatchesStar(p, w)
    ensures MatchesStar(p.Invert(), Backwards(w))
    decreases p, |w|, 1
  {
    if w != [] {
      var k :| 0 < k <= |w| && Matches(p, w[..k]) && MatchesStar(p, w[k..]);
      InvertMatches(p, w[..k]);
      InvertMatchesStar(p, w[k..]);
      StarOfOne(p.Invert(), Backwards(w[..k]));
      StarConcat(p.Invert(), Backwards(w[k..]), Backwards(w[..k]));
      BackwardsConcat(w[..k], w[k..]);
      assert w == w[..k] + w[k..];
    }
  }

  lemma {:induction false} MatchesAllSplit(ps: seq<Path>, q: Path, w: Word) returns (k: nat)
    requires MatchesAll(ps + [q], w)
    ensures k <= |w| && MatchesAll(ps, w[..k]) && Matches(q, w[k..])
    decreases |ps|
  {
    hide Matches;
    var all := ps + [q];
    var j :| 0 <= j <= |w| && Matches(all[0], w[..j]) && MatchesAll(all[1..], w[j..]);
    if ps == [] {
      assert all[1..] == [];
      assert w[..j] == w;
      return 0;
    }
    assert all[0] == ps[0] && all[1..] == ps[1..] + [q];
    var i := MatchesAllSplit(ps[1..], q, w[j..]);
    k := j + i;
    MatchesAllGlue(ps, w, j, i);
  }

  lemma MatchesAllGlue(ps: seq<Path>, w: Word, j: nat, i: nat)
    requires ps != [] && j + i <= |w| && Matches(ps[0], w[..j]) && MatchesAll(ps[1..], w[j..][..i])
    ensures MatchesAll(ps, w[..j + i]) && w[j..][i..] == w[j + i..]
  {
    hide Matches;
    var u := w[..j + i];
    assert u[..j] == w[..j] && u[j..] == w[j..][..i];
  }

  /** The inverted path matches nothing else. */
  lemma {:induction false} InvertMatchesOnly(p: Path, w: Word)
    requires Matches(p.Invert(), w)
    ensures Matches(p, Backwards(w))
    decreases p, |w|, 0
  {
    match p
    case Atom(n, i) => OneBackwards(w[0]);
    case Check(c) => OneBackwards(w[0]);
    case Sequence(ps) => InvertMatchesOnlyAll(ps, w);
    case Alternatives(ps) => InvertMatchesOnlySome(ps, w);
    case KleeneStar(q) =>
      DenullKeepsStar(q.Invert(), w);
      InvertMatchesOnlyStar(q, w);
    case Optional(q) =>
      if w != [] {
        InvertMatchesOnly(q, w);
      }
  }

  lemma {:induction false} InvertMatchesOnlyAll(ps: seq<Path>, w: Word)
    requires MatchesAll(InvertBackwards(ps), w)
    ensures MatchesAll(ps, Backwards(w))
    decreases ps, |w|, 0
  {
    if ps != [] {
      var k := MatchesAllSplit(InvertBackwards(ps[1..]), ps[0].Invert(), w);
      InvertMatchesOnlyAll(ps[1..], w[..k]);
      InvertMatchesOnly(ps[0], w[k..]);
      BackwardsConcat(w[..k], w[k..]);
      assert w == w[..k] + w[k..];
      var u, v := Backwards(w[k..]), Backwards(w[..k]);
      assert (u + v)[..|u|] == u && (u + v)[|u|..] == v;
    }
  }

  lemma {:induction false} InvertMatchesOnlySome(ps: seq<Path>, w: Word)
    requires MatchesSome(InvertAll(ps), w)
    ensures MatchesSome(ps, Backwards(w))
    decreases ps, |w|, 0
  {
    assert InvertAll(ps)[0] == ps[0].Invert() && InvertAll(ps)[1..] == InvertAll(ps[1..]);
    if Matches(ps[0].Invert(), w) {
      InvertMatchesOnly(ps[0], w);
    } else {
      InvertMatchesOnlySome(ps[1..], w);
    }
  }

  lemma {:induction false} InvertMatchesOnlyStar(p: Path, w: Word)
    requires MatchesStar(p.Invert(), w)
    ensures MatchesStar(p, Backwards(w))
    decreases p, |w|, 1
  {
    if w != [] {
      var k :| 0 < k <= |w| && Matches(p.Invert(), w[..k]) && MatchesStar(p.Invert(), w[k..]);
      InvertMatchesOnly(p, w[..k]);
      InvertMatchesOnlyStar(p, w[k..]);
      StarOfOne(p, Backwards(w[..k]));
      StarConcat(p, Backwards(w[k..]), Backwards(w[..k]));
      BackwardsConcat(w[..k], w[k..]);
      assert w == w[..k] + w[k..];
    }
  }

  /** Inversion reverses the language of every path. */
  lemma InvertReverses(p: Path, w: Word)
    ensures Matches(p.Invert(), w) <==> Matches(p, Backwards(w))
  {
    if Matches(p.Invert(), w) {
      InvertMatchesOnly(p, w);
    }
    if Matches(p, Backwards(w)) {
      InvertMatches(p, Backwards(w));
      BackwardsTwice(w);
    }
  }

  // ----- when inverting twice gives the path back ---------------------------------------------------------------

  /** No star has a nullable operand. */
  predicate PlainStars(p: Path)
    decreases p, 1
  {
    match p
    case KleeneStar(q) => !q.Nullable() && PlainStars(q)
    case Optional(q) => PlainStars(q)
    case Alternatives(ps) => PlainStarsAll(ps)
    case Sequence(ps) => PlainStarsAll(ps)
    case _ => true
  }

  predicate PlainStarsAll(ps: seq<Path>)
    decreases ps, 0
  {
    ps == [] || (PlainStars(ps[0]) && PlainStarsAll(ps[1..]))
  }

  /** Sequences and alternatives have parts, as the parser builds them. */
  predicate NonEmpty(p: Path)
    decreases p, 1
  {
    match p
    case KleeneStar(q) => NonEmpty(q)
    case Optional(q) => NonEmpty(q)
    case Alternatives(ps) => ps != [] && NonEmptyAll(ps)
    case Sequence(ps) => ps != [] && NonEmptyAll(ps)
    case _ => true
  }

  predicate NonEmptyAll(ps: seq<Path>)
    decreases ps, 0
  {
    ps == [] || (NonEmpty(ps[0]) && NonEmptyAll(ps[1..]))
  }

  ghost function Size(p: Path): nat
    decreases p, 1
  {
    match p
    case KleeneStar(q) => 1 + Size(q)
    case Optional(q) => 1 + Size(q)
    case Alternatives(ps) => 1 + SizeAll(ps)
    case Sequence(ps) => 1 + SizeAll(ps)
    case _ => 1
  }

  ghost function SizeAll(ps: seq<Path>): nat
    decreases ps, 0
  {
    if ps == [] then 0 else Size(ps[0]) + SizeAll(ps[1..])
  }

  /** Inversion does not change whether a path is nullable. */
  lemma InvertNullable(p: Path)
    ensures p.Invert().Nullable() <==> p.Nullable()
  {
    NullableIsEmptyWord(p);
    NullableIsEmptyWord(p.Invert());
    InvertReverses(p, []);
  }

  /** The rewriting leaves alone what is not nullable, and makes smaller what is. */
  lemma {:induction false} DenullSize(p: Path)
    requires NonEmpty(p)
    ensures NonEmpty(p.Denull())
    ensures !p.Nullable() ==> p.Denull() == p
    ensures p.Nullable() ==> Size(p.Denull()) < Size(p)
    decreases p, 1
  {
    match p
    case Alternatives(ps) => DenullAllSize(ps);
    case Sequence(ps) => DenullAllSize(ps);
    case _ =>
  }

  lemma {:induction false} DenullAllSize(ps: seq<Path>)
    requires NonEmptyAll(ps)
    ensures NonEmptyAll(DenullAll(ps)) && SizeAll(DenullAll(ps)) <= SizeAll(ps) && |DenullAll(ps)| == |ps|
    ensures SomeNullable(ps) || (AllNullable(ps) && ps != []) ==> SizeAll(DenullAll(ps)) < SizeAll(ps)
    decreases ps, 0
  {
    if ps != [] {
      DenullSize(ps[0]);
      DenullAllSize(ps[1..]);
      assert DenullAll(ps)[0] == ps[0].Denull() && DenullAll(ps)[1..] == DenullAll(ps[1..]);
    }
  }

  lemma {:induction false} SizeAllConcat(ps: seq<Path>, qs: seq<Path>)
    ensures SizeAll(ps + qs) == SizeAll(ps) + SizeAll(qs)
    ensures NonEmptyAll(ps + qs) <==> NonEmptyAll(ps) && NonEmptyAll(qs)
    ensures PlainStarsAll(ps + qs) <==> PlainStarsAll(ps) && PlainStarsAll(qs)
  {
    if ps == [] {
      assert ps + qs == qs;
    } else {
      assert (ps + qs)[0] == ps[0] && (ps + qs)[1..] == ps[1..] + qs;
      SizeAllConcat(ps[1..], qs);
    }
  }

  /** Inversion makes no path larger, and keeps the size just when no star has a nullable operand. */
  lemma {:induction false} InvertSize(p: Path)
    requires NonEmpty(p)
    ensures NonEmpty(p.Invert()) && Size(p.Invert()) <= Size(p)
    ensures PlainStars(p) ==> PlainStars(p.Invert())
    ensures !PlainStars(p) ==> Size(p.Invert()) < Size(p)
    decreases p, 1
  {
    match p
    case KleeneStar(q) =>
      InvertSize(q);
      InvertNullable(q);
      DenullSize(q.Invert());
    case Optional(q) => InvertSize(q);
    case Alternatives(ps) => InvertAllSize(ps);
    case Sequence(ps) => InvertAllSize(ps);
    case _ =>
  }

  lemma {:induction false} InvertAllSize(ps: seq<Path>)
    requires NonEmptyAll(ps)
    ensures |InvertAll(ps)| == |InvertBackwards(ps)| == |ps| && NonEmptyAll(InvertAll(ps)) && NonEmptyAll(InvertBackwards(ps))
    ensures SizeAll(InvertAll(ps)) == SizeAll(InvertBackwards(ps)) <= SizeAll(ps)
    ensures PlainStarsAll(ps) ==> PlainStarsAll(InvertAll(ps)) && PlainStarsAll(InvertBackwards(ps))
    ensures !PlainStarsAll(ps) ==> SizeAll(InvertAll(ps)) < SizeAll(ps)
    decreases ps, 0
  {
    if ps != [] {
      var q := ps[0].Invert();
      InvertSize(ps[0]);
      InvertAllSize(ps[1..]);
      assert InvertAll(ps)[0] == q && InvertAll(ps)[1..] == InvertAll(ps[1..]);
      SizeAllConcat(InvertBackwards(ps[1..]), [q]);
      assert [q][1..] == [];
      assert SizeAll([q]) == Size(q) && NonEmptyAll([q]) == NonEmpty(q) && PlainStarsAll([q]) == PlainStars(q);
    }
  }

  /** Inverting a path twice gives it back just when no star in it has a nullable operand. */
  lemma {:induction false} InvertTwice(p: Path)
    requires NonEmpty(p)
    ensures p.Invert().Invert() == p <==> PlainStars(p)
  {
    if PlainStars(p) {
      InvertIsInvolution(p);
    } else {
      InvertSize(p);
      InvertSize(p.Invert());
    }
  }

  lemma {:induction false} InvertIsInvolution(p: Path)
    requires NonEmpty(p) && PlainStars(p)
    ensures p.Invert().Invert() == p
    decreases p, 1
  {
    match p
    case KleeneStar(q) =>
      InvertSize(q);
      InvertNullable(q);
      DenullSize(q.Invert());
      InvertIsInvolution(q);
      DenullSize(q);
    case Optional(q) => InvertIsInvolution(q);
    case Alternatives(ps) => InvertAllTwice(ps);
    case Sequence(ps) => InvertBackwardsTwice(ps);
    case _ =>
  }

  lemma {:induction false} InvertAllTwice(ps: seq<Path>)
    requires NonEmptyAll(ps) && PlainStarsAll(ps)
    ensures InvertAll(InvertAll(ps)) == ps
    decreases ps, 0
  {
    if ps != [] {
      InvertIsInvolution(ps[0]);
      InvertAllTwice(ps[1..]);
      assert InvertAll(ps)[0] == ps[0].Invert() && InvertAll(ps)[1..] == InvertAll(ps[1..]);
    }
  }

  lemma {:induction false} InvertBackwardsTwice(ps: seq<Path>)
    requires NonEmptyAll(ps) && PlainStarsAll(ps)
    ensures InvertBackwards(InvertBackwards(ps)) == ps
    decreases ps, 0
  {
    if ps != [] {
      InvertIsInvolution(ps[0]);
      InvertBackwardsTwice(ps[1..]);
      InvertBackwardsConcat(InvertBackwards(ps[1..]), [ps[0].Invert()]);
      assert InvertBackwards([ps[0].Invert()]) == InvertBackwards([]) + [ps[0].Invert().Invert()];
      assert ps == [ps[0]] + ps[1..];
    }
  }

  lemma {:induction false} InvertBackwardsConcat(ps: seq<Path>, qs: seq<Path>)
    ensures InvertBackwards(ps + qs) == InvertBackwards(qs) + InvertBackwards(ps)
  {
    if ps == [] {
      assert ps + qs == qs;
    } else {
      assert (ps + qs)[0] == ps[0] && (ps + qs)[1..] == ps[1..] + qs;
      InvertBackwardsConcat(ps[1..], qs);
    }
  }
}
