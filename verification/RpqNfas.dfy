/** The automaton object and its construction from a path. */
module RpqNfas {
  import opened Paths
  import opened PathAutomata

  datatype Result<T> = Ok(value: T) | LogicException(message: string)

  class RpqNfa {
    var start: nat
    var totalStates: nat
    var endStates: set<nat>
    var outerTransitions: seq<seq<Transition>>

    ghost function Value(): Nfa
      reads this
    {
      Nfa(start, totalStates, endStates, outerTransitions)
    }

    constructor ()
      ensures Value() == NEW_NFA
    {
      start, totalStates, endStates, outerTransitions := 0, 1, {}, [];
    }

    method AddTransition(e: Transition)
      modifies this`outerTransitions, this`totalStates
      ensures Value() == Added(old(Value()), e)
    {
      while |outerTransitions| <= e.from || |outerTransitions| <= e.to
        invariant |old(outerTransitions)| <= |outerTransitions|
        invariant outerTransitions == old(outerTransitions) + seq(|outerTransitions| - |old(outerTransitions)|, _ => [])
        invariant |outerTransitions| > |old(outerTransitions)| ==> |outerTransitions| <= Max(e.from, e.to) + 1
        decreases Max(e.from, e.to) + 1 - |outerTransitions|
      {
        outerTransitions := outerTransitions + [[]];
      }
      assert outerTransitions == Padded(old(outerTransitions), Max(e.from, e.to) + 1);
      var exists_ := false;
      var row := outerTransitions[e.from];
      for i := 0 to |row|
        invariant exists_ == (e in row[..i])
      {
        if row[i] == e {
          exists_ := true;
          assert e in row[..i + 1];
          break;
        }
      }
      assert exists_ ==> e in row;
      assert !exists_ ==> row[..|row|] == row;
      if !exists_ {
        outerTransitions := outerTransitions[e.from := outerTransitions[e.from] + [e]];
      }
      totalStates := |outerTransitions|;
    }

    method AddEpsilonTransition(from: nat, to: nat)
      modifies this`outerTransitions, this`totalStates
      ensures Value() == Added(old(Value()), Transition(from, to, Epsilon))
    {
      AddTransition(Transition(from, to, Epsilon));
    }

    /** Adds the states and transitions of `other`, renamed to come after this automaton's own; the start
        and the ends of `other` are renamed too, its transitions are not. */
    method RenameAndMerge(other: RpqNfa)
      requires other != this
      modifies this`outerTransitions, this`totalStates, other`start, other`endStates
      ensures Value() == Merged(old(Value()), old(other.Value()))
      ensures other.start == old(totalStates) && other.endStates == Renamed(old(other.endStates), old(totalStates))
    {
      var initialStates := totalStates;
      ghost var rows := other.outerTransitions;
      for i := 0 to |other.outerTransitions|
        invariant other.Value() == old(other.Value())
        invariant AddedRows(Value(), initialStates, rows[i..]) == Merged(old(Value()), old(other.Value()))
      {
        var row := other.outerTransitions[i];
        assert rows[i..][0] == row && rows[i..][1..] == rows[i + 1..];
        ghost var before := Value();
        for j := 0 to |row|
          invariant other.Value() == old(other.Value())
          invariant AddedRow(Value(), initialStates, row[j..]) == AddedRow(before, initialStates, row)
        {
          assert row[j..][0] == row[j] && row[j..][1..] == row[j + 1..];
          AddTransition(row[j].Shifted(initialStates));
        }
      }
      other.endStates := set x | x in other.endStates :: x + initialStates;
      other.start := initialStates;
    }

    /** Epsilon transitions from the states of `s`, in ascending order. */
    method ConnectAll(s: set<nat>, to: nat)
      modifies this`outerTransitions, this`totalStates
      ensures Value() == WithEpsilons(old(Value()), s, to)
    {
      var todo := s;
      while todo != {}
        invariant WithEpsilons(Value(), todo, to) == WithEpsilons(old(Value()), s, to)
        decreases |todo|
      {
        LeastExists(todo);
        var e :| e in todo && forall x :: x in todo ==> e <= x;
        assert e == Least(todo);
        AddEpsilonTransition(e, to);
        todo := todo - {e};
      }
    }
  }

  predicate HasCheck(p: Path)
    decreases p, 1
  {
    match p
    case Atom(_, _) => false
    case Check(_) => true
    case Sequence(ps) => AnyHasCheck(ps)
    case Alternatives(ps) => AnyHasCheck(ps)
    case KleeneStar(q) => HasCheck(q)
    case Optional(q) => HasCheck(q)
  }

  predicate AnyHasCheck(ps: seq<Path>)
    decreases ps, 0
  {
    ps != [] && (HasCheck(ps[0]) || AnyHasCheck(ps[1..]))
  }

  lemma {:induction false} PlainHasNoCheck(p: Path)
    requires NonEmpty(p)
    ensures Plain(p) <==> !HasCheck(p)
    decreases p, 1
  {
    match p
    case Sequence(ps) => PlainAllHaveNoCheck(ps);
    case Alternatives(ps) => PlainAllHaveNoCheck(ps);
    case KleeneStar(q) => PlainHasNoCheck(q);
    case Optional(q) => PlainHasNoCheck(q);
    case _ =>
  }

  lemma {:induction false} PlainAllHaveNoCheck(ps: seq<Path>)
    requires NonEmptyAll(ps)
    ensures PlainAll(ps) <==> !AnyHasCheck(ps)
    decreases ps, 0
  {
    if ps != [] {
      PlainHasNoCheck(ps[0]);
      PlainAllHaveNoCheck(ps[1..]);
    }
  }

  /** The automaton of a path, unless the path checks nodes. */
  method GetRpqBaseAutomaton(p: Path) returns (r: Result<RpqNfa>)
    requires NonEmpty(p)
    ensures r.Ok? <==> !HasCheck(p)
    ensures r.Ok? ==> fresh(r.value) && Plain(p) && r.value.Value() == BaseNfa(p)
    decreases p, 2
  {
    PlainHasNoCheck(p);
    match p
    case Atom(name, inverse) =>
      var automaton := new RpqNfa();
      automaton.endStates := automaton.endStates + {1};
      automaton.AddTransition(Transition(0, 1, On(Edge(name, inverse))));
      return Ok(automaton);
    case Check(_) => return LogicException("Data checks not supported in RPQ");
    case Sequence(ps) => r := SequenceAutomaton(ps);
    case Alternatives(ps) => r := AlternativesAutomaton(ps);
    case KleeneStar(q) => r := StarAutomaton(q);
    case Optional(q) =>
      r := GetRpqBaseAutomaton(q);
      if r.Ok? {
        r.value.endStates := r.value.endStates + {r.value.start};
      }
  }

  method StarAutomaton(q: Path) returns (r: Result<RpqNfa>)
    requires NonEmpty(q)
    ensures r.Ok? <==> !HasCheck(q)
    ensures r.Ok? ==> fresh(r.value) && Plain(q) && r.value.Value() == StarNfa(BaseNfa(q))
    decreases q, 3
  {
    var operand := GetRpqBaseAutomaton(q);
    if operand.LogicException? {
      return operand;
    }
    var a := operand.value;
    if a.totalStates == 2 {
      var automaton := new RpqNfa();
      var transition := a.outerTransitions[0][0];
      automaton.AddTransition(Transition(0, 0, transition.kind));
      automaton.endStates := automaton.endStates + {automaton.start};
      assert automaton.endStates == {0};
      r := Ok(automaton);
    } else {
      a.ConnectAll(a.endStates, a.start);
      a.endStates := a.endStates + {a.start};
      r := operand;
    }
  }

  method SequenceAutomaton(ps: seq<Path>) returns (r: Result<RpqNfa>)
    requires ps != [] && NonEmptyAll(ps)
    ensures r.Ok? <==> !AnyHasCheck(ps)
    ensures r.Ok? ==> fresh(r.value) && Plain(Sequence(ps)) && r.value.Value() == BaseNfa(Sequence(ps))
    decreases ps, 1
  {
    hide Proper, Merged, WithEpsilons, Added, Edges;
    PlainAllHaveNoCheck(ps);
    r := GetRpqBaseAutomaton(ps[0]);
    if r.LogicException? {
      return;
    }
    var automaton := r.value;
    var i := 1;
    while i < |ps|
      invariant 1 <= i <= |ps| && fresh(automaton) && NonEmptyAll(ps[i..]) && !HasCheck(ps[0])
      invariant AnyHasCheck(ps) == AnyHasCheck(ps[i..])
      invariant Proper(automaton.Value())
      invariant !AnyHasCheck(ps) ==> PlainAll(ps[i..]) && LinkAll(automaton.Value(), ps[i..]) == BaseNfa(Sequence(ps))
    {
      assert ps[i..][0] == ps[i] && ps[i..][1..] == ps[i + 1..];
      var child := GetRpqBaseAutomaton(ps[i]);
      if child.LogicException? {
        return child;
      }
      ghost var a, b := automaton.Value(), child.value.Value();
      LinkedFacts(a, b);
      automaton.RenameAndMerge(child.value);
      automaton.ConnectAll(automaton.endStates, child.value.start);
      automaton.endStates := child.value.endStates;
      assert automaton.Value() == Linked(a, b);
      i := i + 1;
    }
    r := Ok(automaton);
  }

  method AlternativesAutomaton(ps: seq<Path>) returns (r: Result<RpqNfa>)
    requires ps != [] && NonEmptyAll(ps)
    ensures r.Ok? <==> !AnyHasCheck(ps)
    ensures r.Ok? ==> fresh(r.value) && Plain(Alternatives(ps)) && r.value.Value() == BaseNfa(Alternatives(ps))
    decreases ps, 1
  {
    hide Proper, Merged, Edges;
    PlainAllHaveNoCheck(ps);
    var automaton := new RpqNfa();
    var i := 0;
    assert ps[0..] == ps;
    while i < |ps|
      invariant 0 <= i <= |ps| && fresh(automaton) && NonEmptyAll(ps[i..])
      invariant AnyHasCheck(ps) == AnyHasCheck(ps[i..])
      invariant ProperOrNew(automaton.Value())
      invariant !AnyHasCheck(ps) ==> PlainAll(ps[i..]) && JoinAll(automaton.Value(), ps[i..]) == BaseNfa(Alternatives(ps))
    {
      assert ps[i..][0] == ps[i] && ps[i..][1..] == ps[i + 1..];
      var child := GetRpqBaseAutomaton(ps[i]);
      if child.LogicException? {
        return child;
      }
      ghost var a, b := automaton.Value(), child.value.Value();
      JoinedFacts(a, b);
      automaton.RenameAndMerge(child.value);
      automaton.AddEpsilonTransition(automaton.start, child.value.start);
      automaton.endStates := automaton.endStates + child.value.endStates;
      assert automaton.Value() == Joined(a, b);
      i := i + 1;
    }
    r := Ok(automaton);
  }
}
