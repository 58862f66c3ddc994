/** The worst-case optimal join over leapfrog iterators. */
module LeapfrogJoins {
  import opened Options
  import opened Records
  import opened Prefixes
  import opened NaturalJoin
  import opened LeapfrogSearch
  import opened RangeScan
  import opened BPlusTrees
  import opened LeapfrogIters

  /** `order` is `list` read from position `p` on, around the end. */
  ghost function Rotated(list: seq<nat>, p: nat): seq<nat>
    requires p < |list|
  {
    list[p..] + list[..p]
  }

  lemma RotateOnce(list: seq<nat>, p: nat)
    requires p < |list|
    ensures var q := (p + 1) % |list|; Rotated(list, q) == Rotated(list, p)[1..] + [list[p]]
  {
    if p + 1 < |list| {
      assert (p + 1) % |list| == p + 1;
      RotateInside(list, p);
    } else {
      assert (p + 1) % |list| == 0;
      assert list == list[..p] + [list[p]];
    }
  }

  lemma RotateInside(list: seq<nat>, p: nat)
    requires p + 1 < |list|
    ensures Rotated(list, p + 1) == Rotated(list, p)[1..] + [list[p]]
  {
    assert list[p..][1..] == list[p + 1..];
    assert list[..p + 1] == list[..p] + [list[p]];
  }

  lemma RotatedFromStart(list: seq<nat>)
    requires list != []
    ensures Rotated(list, 0) == list
  {
  }

  lemma RotatedEnds(list: seq<nat>, p: nat)
    requires p < |list|
    ensures var order := Rotated(list, p); |order| == |list| && order[0] == list[p] && order[|order| - 1] in list
  {
  }

  /** Ascending, and from position `k` on all as large as the last one. */
  ghost predicate Climbs(keys: seq<nat>, k: nat) {
    && k < |keys| && (forall a, c :: 0 <= a < c < |keys| ==> keys[a] <= keys[c])
    && (forall a :: 0 <= a < k ==> keys[a] < keys[|keys| - 1])
    && (forall a :: k <= a < |keys| ==> keys[a] == keys[|keys| - 1])
  }

  /** Replacing the smallest key by one that is at least the largest. */
  lemma LeapClimbs(keys: seq<nat>, k: nat, x: nat)
    requires Climbs(keys, k) && k > 0 && x >= keys[|keys| - 1]
    ensures Climbs(keys[1..] + [x], if x == keys[|keys| - 1] then k - 1 else |keys| - 1)
  {
  }

  ghost function KeyIn(rels: seq<Rel>, b: seq<nat>, views: seq<View>, i: nat): nat {
    if i < |rels| && i < |views| then Key(rels[i], b, views[i]) else 0
  }

  ghost predicate FirstIn(rels: seq<Rel>, views: seq<View>, i: nat) {
    i < |rels| && i < |views| ==> IsFirstHere(rels[i], views[i])
  }

  ghost function KeysIn(rels: seq<Rel>, b: seq<nat>, views: seq<View>, order: seq<nat>): (ks: seq<nat>)
    ensures |ks| == |order| && forall a :: 0 <= a < |order| ==> ks[a] == KeyIn(rels, b, views, order[a])
  {
    seq(|order|, a requires 0 <= a < |order| => KeyIn(rels, b, views, order[a]))
  }

  /** In this order the iterators stand at ascending values; from position `k` on at the largest one.
      Those stand at their first record with it. */
  ghost predicate AscendsIn(rels: seq<Rel>, b: seq<nat>, views: seq<View>, order: seq<nat>, k: nat) {
    Climbs(KeysIn(rels, b, views, order), k) && forall a :: k <= a < |order| ==> FirstIn(rels, views, order[a])
  }

  lemma LeapAscends(rels: seq<Rel>, b: seq<nat>, views: seq<View>, w: View, order: seq<nat>, k: nat)
    requires AscendsIn(rels, b, views, order, k) && k > 0 && order[0] < |views| == |rels|
    requires forall a, c :: 0 <= a < c < |order| ==> order[a] != order[c]
    requires Key(rels[order[0]], b, w) >= KeyIn(rels, b, views, order[|order| - 1]) && IsFirstHere(rels[order[0]], w)
    ensures AscendsIn(rels, b, views[order[0] := w], order[1..] + [order[0]],
                      if Key(rels[order[0]], b, w) == KeyIn(rels, b, views, order[|order| - 1]) then k - 1 else |order| - 1)
  {
    hide Key, IsFirstHere, Climbs;
    ClimbsSize(KeysIn(rels, b, views, order), k);
    var i, next, after := order[0], order[1..] + [order[0]], views[order[0] := w];
    var keys, x := KeysIn(rels, b, views, order), Key(rels[order[0]], b, w);
    LeapClimbs(keys, k, x);
    forall a | 0 <= a < |order| ensures KeysIn(rels, b, after, next)[a] == (keys[1..] + [x])[a] {
      assert a + 1 < |order| ==> next[a] == order[a + 1] != i;
    }
    assert KeysIn(rels, b, after, next) == keys[1..] + [x];
    forall a | k - 1 <= a < |order| ensures FirstIn(rels, after, next[a]) {
      assert a + 1 < |order| ==> next[a] == order[a + 1] != i && FirstIn(rels, views, order[a + 1]);
    }
  }

  lemma ClimbsSize(keys: seq<nat>, k: nat)
    requires Climbs(keys, k)
    ensures k < |keys|
  {
  }

  /** What a relation can add to the values `b`. */
  ghost function ListFor(r: Rel, b: seq<nat>): seq<Record> {
    if |Pref(r, b)| <= r.n then Tails(r.n, r.s, Pref(r, b)) else []
  }

  ghost function ListsFor(rels: seq<Rel>, b: seq<nat>): (ls: seq<seq<Record>>)
    ensures |ls| == |rels| && forall i :: 0 <= i < |rels| ==> ls[i] == ListFor(rels[i], b)
  {
    seq(|rels|, i requires 0 <= i < |rels| => ListFor(rels[i], b))
  }

  /** Where the wheels of the odometer are when the iterators have passed that many records. */
  ghost function Wheel(ps: seq<nat>): (at: seq<int>)
    ensures |at| == |ps| && forall i :: 0 <= i < |at| ==> at[i] == (ps[i] as int) - 1
  {
    seq(|ps|, i requires 0 <= i < |ps| => (ps[i] as int) - 1)
  }

  /** The odometer shows what was produced last; what is to come was not produced. */
  ghost predicate Turned(ls: seq<seq<Record>>, ps: seq<nat>, values: seq<Record>, done: seq<seq<Record>>) {
    && |ls| == |ps| == |values| && Wheels(ls, Wheel(ps)) && (forall i :: 0 < i < |ps| ==> values[i] == ls[i][ps[i] - 1])
    && Product(ls) == done + ToCome(ls, Wheel(ps))
  }

  /** Wheel `i` advances and the ones before it go back to their first elements: the next row is shown. */
  lemma TurnStep(ls: seq<seq<Record>>, ps: seq<nat>, qs: seq<nat>, i: nat, values: seq<Record>, shown: seq<Record>, done: seq<seq<Record>>)
    requires Turned(ls, ps, values, done) && i < |ps| == |qs| == |shown| && ps[i] < |ls[i]|
    requires forall k :: 0 <= k < i ==> ps[k] == |ls[k]|
    requires forall k :: 0 <= k < |qs| ==> |ls[k]| > 0 && qs[k] == if k < i then 1 else if k == i then ps[i] + 1 else ps[k]
    requires forall k :: 0 <= k < |qs| ==> shown[k] == if k < i then ls[k][0] else if k == i then ls[i][ps[i]] else values[k]
    ensures Turned(ls, qs, shown, done + [shown])
  {
    hide Product, ToCome;
    var at := Wheel(ps);
    assert forall k :: 0 <= k < |at| ==> at[k] == ps[k] as int - 1;
    StepShowsNext(ls, at, i);
    assert Wheel(qs) == Stepped(at, i);
    assert shown == Combination(ls, Stepped(at, i));
    assert done + ([shown] + ToCome(ls, Wheel(qs))) == (done + [shown]) + ToCome(ls, Wheel(qs));
  }

  /** Ascending by value. */
  ghost predicate SortedIn(rels: seq<Rel>, b: seq<nat>, views: seq<View>, order: seq<nat>) {
    forall a, c :: 0 <= a < c < |order| ==> KeyIn(rels, b, views, order[a]) <= KeyIn(rels, b, views, order[c])
  }

  /** In an ascending order the largest value starts somewhere. */
  lemma SortedAscends(rels: seq<Rel>, b: seq<nat>, views: seq<View>, order: seq<nat>) returns (k: nat)
    requires order != [] && SortedIn(rels, b, views, order) && forall i :: i in order ==> FirstIn(rels, views, i)
    ensures AscendsIn(rels, b, views, order, k)
  {
    hide IsFirstHere, Key;
    var keys := KeysIn(rels, b, views, order);
    var max := keys[|keys| - 1];
    k := |order| - 1;
    while k > 0 && keys[k - 1] == max
      invariant k < |order| && forall a :: k <= a < |order| ==> keys[a] == max
    {
      k := k - 1;
    }
  }

  /** Only the last iterator stands at a larger value. */
  lemma LastAscends(rels: seq<Rel>, b: seq<nat>, views: seq<View>, order: seq<nat>, v: nat)
    requires order != [] && order[|order| - 1] < |views| == |rels| && KeyIn(rels, b, views, order[|order| - 1]) > v
    requires IsFirstHere(rels[order[|order| - 1]], views[order[|order| - 1]])
    requires forall a :: 0 <= a < |order| - 1 ==> KeyIn(rels, b, views, order[a]) == v
    ensures AscendsIn(rels, b, views, order, |order| - 1)
  {
    hide IsFirstHere, Key;
  }

  /** A list and its permutations name the same iterators. */
  lemma ListsPermuted(rels: seq<Rel>, l: nat, list: seq<nat>, other: seq<nat>)
    requires Lists(rels, l, list) && multiset(other) == multiset(list)
    ensures Lists(rels, l, other) && forall i :: i in other <==> i in list
  {
    assert forall i :: i in other <==> i in multiset(other);
    assert forall i :: i in list <==> i in multiset(list);
    assert |other| == |multiset(other)| == |multiset(list)| == |list|;
    DistinctCounts(list);
    CountsDistinct(other);
  }

  lemma {:induction false} DistinctCounts(s: seq<nat>)
    requires forall j, k :: 0 <= j < k < |s| ==> s[j] != s[k]
    ensures forall x :: multiset(s)[x] <= 1
  {
    if s != [] {
      var n := |s| - 1;
      DistinctCounts(s[..n]);
      assert s == s[..n] + [s[n]];
      assert s[n] !in s[..n];
    }
  }

  lemma {:induction false} CountsDistinct(s: seq<nat>)
    requires forall x :: multiset(s)[x] <= 1
    ensures forall j, k :: 0 <= j < k < |s| ==> s[j] != s[k]
  {
    if s != [] {
      var n := |s| - 1;
      assert s == s[..n] + [s[n]];
      assert multiset(s) == multiset(s[..n]) + multiset{s[n]};
      assert forall x :: multiset(s[..n])[x] <= multiset(s)[x];
      CountsDistinct(s[..n]);
      assert multiset(s)[s[n]] == multiset(s[..n])[s[n]] + 1;
      assert s[n] !in s[..n];
    }
  }

  /** `s` with element `i` moved down to position `p`. */
  ghost function Moved(s: seq<nat>, i: nat, p: nat): (r: seq<nat>)
    requires p <= i < |s|
    ensures |r| == |s|
    ensures forall a :: 0 <= a < |r| ==> r[a] == if a == p then s[i] else if p < a <= i then s[a - 1] else s[a]
  {
    s[..p] + [s[i]] + s[p..i] + s[i + 1..]
  }

  ghost predicate IsMoved(s: seq<nat>, i: nat, p: nat, r: seq<nat>)
    requires p <= i < |s|
  {
    && |r| == |s| && r[p] == s[i] && (forall a :: 0 <= a < p || i < a < |r| ==> r[a] == s[a])
    && forall a {:trigger r[a]} :: p < a <= i ==> r[a] == s[a - 1]
  }

  lemma MovedUnique(s: seq<nat>, i: nat, p: nat, r: seq<nat>)
    requires p <= i < |s| && IsMoved(s, i, p, r)
    ensures r == Moved(s, i, p)
  {
  }

  lemma MovedPermutes(s: seq<nat>, i: nat, p: nat)
    requires p <= i < |s|
    ensures multiset(Moved(s, i, p)) == multiset(s)
  {
    assert s == s[..p] + s[p..i] + [s[i]] + s[i + 1..];
  }

  class LeapfrogJoin {
    const leapfrogIters: seq<LeapfrogBptIter>
    const terms: seq<Record>
    const vars: seq<seq<nat>>
    const variableCount: nat
    const enumerationLevel: nat
    var parentBinding: seq<nat>
    var values: seq<Record>
    var level: int
    var itersForVar: seq<seq<nat>>

    // the relations, where the iterators stand, the values bound so far and the rows produced so far
    ghost const rels: seq<Rel>
    ghost var views: seq<View>
    ghost var bound: seq<nat>
    ghost var log: seq<Tuple>

    // values from here on are wanted next; every row before the front was produced
    ghost var low: nat
    ghost var front: nat

    // the enumeration: its iterators, the groups they run through and how far they are
    ghost var enums: set<BptIter>
    ghost var groups: seq<seq<Record>>
    ghost var passed: seq<nat>
    ghost var lists: seq<seq<Record>>
    ghost var before: seq<Tuple>
    ghost var done: seq<seq<Record>>

    ghost function Trees(): set<BPlusTree> {
      set i | 0 <= i < |leapfrogIters| :: leapfrogIters[i].tree
    }

    /** The iterators and the trees below them, with all their pages. */
    ghost function Stores(): set<object>
      reads Trees()
    {
      set i, o | 0 <= i < |leapfrogIters| && o in leapfrogIters[i].Parts() :: o
    }

    ghost predicate Shows(i: nat)
      requires i < |leapfrogIters| && i < |rels| && i < |views|
      reads this`views, leapfrogIters, Trees(), Stores()
    {
      leapfrogIters[i].StandsAt(rels[i].n, rels[i].s, views[i].level, views[i].tuple)
    }

    /** The iterators stand where `views` says. */
    ghost predicate Shown()
      reads this`views, leapfrogIters, Trees(), Stores()
    {
      && |leapfrogIters| == |rels| == |views| > 0
      && (forall i, j :: 0 <= i < j < |leapfrogIters| ==> leapfrogIters[i] != leapfrogIters[j])
      && forall i :: 0 <= i < |leapfrogIters| ==> Shows(i)
    }

    lemma Outside()
      ensures this !in Stores() && (forall t :: t in Trees() ==> t as object != this)
      ensures forall it :: it in leapfrogIters ==> it as object != this
    {
      forall i | 0 <= i < |leapfrogIters| ensures this !in leapfrogIters[i].Parts() {
        if this in leapfrogIters[i].Parts() {
          leapfrogIters[i].PartsAre(this);
        }
      }
    }

    // ----- moving one iterator -------------------------------------------------------------------------

    method SeekIter(i: nat, key: nat) returns (found: bool)
      requires Shown() && i < |leapfrogIters| && 0 <= views[i].level < rels[i].n && key <= MAX_ID
      modifies leapfrogIters[i], this`views
      ensures Shown() && found == HasAny(rels[i].s, old(views[i]).tuple, old(views[i]).level, key)
      ensures found ==> views == old(views)[i := View(old(views[i]).level, views[i].tuple)]
      ensures found ==> IsFirst(rels[i].s, old(views[i]).tuple, old(views[i]).level, key, views[i].tuple)
      ensures !found ==> views == old(views)
    {
      hide LeapfrogBptIter.Valid, IsFirst, HasAny;
      assert Shows(i);
      found := leapfrogIters[i].Seek(key);
      views := views[i := View(views[i].level, leapfrogIters[i].currentTuple)];
      forall j | 0 <= j < |leapfrogIters| && j != i ensures Shows(j) {
        assert old(Shows(j));
      }
    }

    method NextIter(i: nat) returns (found: bool)
      requires Shown() && i < |leapfrogIters| && 0 <= views[i].level < rels[i].n == |views[i].tuple|
      requires views[i].tuple[views[i].level] < MAX_ID
      modifies leapfrogIters[i], this`views
      ensures Shown()
      ensures var w := old(views[i]);
        && found == HasAny(rels[i].s, w.tuple, w.level, w.tuple[w.level] + 1)
        && (found ==> views == old(views)[i := View(w.level, views[i].tuple)])
        && (found ==> IsFirst(rels[i].s, w.tuple, w.level, w.tuple[w.level] + 1, views[i].tuple))
      ensures !found ==> views == old(views)
    {
      hide LeapfrogBptIter.Valid, IsFirst, HasAny;
      assert Shows(i);
      found := leapfrogIters[i].Next();
      views := views[i := View(views[i].level, leapfrogIters[i].currentTuple)];
      forall j | 0 <= j < |leapfrogIters| && j != i ensures Shows(j) {
        assert old(Shows(j));
      }
    }

    method DownIter(i: nat)
      requires Shown() && i < |leapfrogIters| && 0 <= views[i].level + 1 < rels[i].n && rels[i].s != []
      modifies leapfrogIters[i], this`views
      ensures Shown() && |views| == |old(views)|
      ensures views == old(views)[i := View(old(views[i]).level + 1, views[i].tuple)]
      ensures IsFirst(rels[i].s, old(views[i]).tuple, old(views[i]).level + 1, 0, views[i].tuple)
    {
      hide LeapfrogBptIter.Valid, IsFirst;
      assert Shows(i);
      leapfrogIters[i].Down();
      views := views[i := View(views[i].level + 1, leapfrogIters[i].currentTuple)];
      forall j | 0 <= j < |leapfrogIters| && j != i ensures Shows(j) {
        assert old(Shows(j));
      }
    }

    method UpIter(i: nat)
      requires Shown() && i < |leapfrogIters|
      modifies leapfrogIters[i], this`views
      ensures Shown() && views == old(views)[i := View(old(views[i]).level - 1, old(views[i]).tuple)]
    {
      hide LeapfrogBptIter.Valid;
      assert Shows(i);
      leapfrogIters[i].Up();
      views := views[i := View(views[i].level - 1, views[i].tuple)];
      forall j | 0 <= j < |leapfrogIters| && j != i ensures Shows(j) {
        assert old(Shows(j));
      }
    }

    method OpenIter(i: nat) returns (found: bool)
      requires Shown() && i < |leapfrogIters| && |terms| == |rels| && terms[i] == rels[i].terms && |terms[i]| <= rels[i].n && IsRecord(|rels[i].terms|, rels[i].terms)
      modifies leapfrogIters[i], this`views
      ensures Shown() && |views| == |old(views)| && views == old(views)[i := views[i]]
      ensures views[i].level == |rels[i].terms| - 1
      ensures found == exists r :: r in rels[i].s && Starts(rels[i].terms, r)
      ensures found ==> Starts(rels[i].terms, views[i].tuple) && views[i].tuple in rels[i].s
      ensures found ==> forall r :: r in rels[i].s && Starts(rels[i].terms, r) ==> Rank(views[i].tuple) <= Rank(r)
    {
      hide LeapfrogBptIter.Valid, Starts, Rank;
      assert Shows(i);
      found := leapfrogIters[i].OpenTerms(terms[i]);
      views := views[i := View(|rels[i].terms| - 1, leapfrogIters[i].currentTuple)];
      forall j | 0 <= j < |leapfrogIters| && j != i ensures Shows(j) {
        assert old(Shows(j));
      }
    }

    /** The value at its level of an iterator. */
    function GetKey(i: nat): nat
      requires i < |leapfrogIters|
      reads leapfrogIters[i]
    {
      var it := leapfrogIters[i];
      if 0 <= it.level < |it.currentTuple| then it.currentTuple[it.level] else 0
    }

    // ----- finding the next common value ---------------------------------------------------------------

    ghost predicate Configured() {
      && |leapfrogIters| == |rels| == |terms| == |vars| > 0
      && forall i :: 0 <= i < |rels| ==> rels[i].Valid(enumerationLevel) && rels[i].terms == terms[i] && rels[i].vars == vars[i]
    }

    ghost function KeyAt(i: nat): nat
      reads this`views, this`bound
    {
      KeyIn(rels, bound, views, i)
    }

    ghost predicate Ascends(order: seq<nat>, k: nat)
      reads this`views, this`bound
    {
      AscendsIn(rels, bound, views, order, k)
    }

    ghost predicate Seeks(low: nat)
      reads this`views, this`bound, this`level, this`itersForVar
    {
      && level == |bound| < enumerationLevel == |itersForVar|
      && Searching(rels, enumerationLevel, bound, low, views, itersForVar[level])
    }

    lemma KeysShown(i: nat, low: nat)
      requires Configured() && Shown() && Seeks(low) && i in itersForVar[level]
      ensures i < |rels| && GetKey(i) == KeyAt(i) < MAX_ID && 0 <= views[i].level < rels[i].n == |views[i].tuple|
      ensures views[i].level == |Pref(rels[i], bound)|
    {
      hide Rank, Pref, Opened, LeapfrogBptIter.Valid;
      ListKey(rels, enumerationLevel, bound, low, views, itersForVar[level], i);
      assert Shows(i);
    }

    /** One seek: the iterator with the smallest value goes to the largest value or beyond it. */
    method Leap(p: nat, max: nat, ghost low: nat, ghost k: nat) returns (found: bool, ghost k': nat)
      requires Configured() && Shown() && Seeks(low) && p < |itersForVar[level]|
      requires Ascends(Rotated(itersForVar[level], p), k) && k > 0
      requires var order := Rotated(itersForVar[level], p); max == KeyAt(order[|order| - 1])
      modifies leapfrogIters, this`views
      ensures Shown() && Seeks(low)
      ensures !found ==> Exhausted(rels, enumerationLevel, bound, low) && views == old(views)
      ensures found ==> Ascends(Rotated(itersForVar[level], (p + 1) % |itersForVar[level]|), k')
      ensures found ==> KeyAt(itersForVar[level][p]) > max || (KeyAt(itersForVar[level][p]) == max && k' == k - 1)
      ensures found ==> KeyAt(itersForVar[level][p]) >= max && KeyAt(itersForVar[level][p]) < MAX_ID
    {
      hide Rank, Pref, Opened, LeapfrogBptIter.Valid, Searching, Key, IsFirstHere, IsFirst, HasAny, Exhausted, AscendsIn, Rotated, LeapfrogJoin.Shown;
      ShownSizes();
      Outside();
      var list := itersForVar[level];
      ghost var order := Rotated(list, p);
      RotatedEnds(list, p);
      ghost var i, j := list[p], order[|order| - 1];
      KeysShown(i, low);
      KeysShown(j, low);
      ghost var before := views;
      k' := k;
      DistinctOrder(list, p, low);
      found := SeekIter(list[p], max);
      if found {
        SeekKeeps(rels, enumerationLevel, bound, low, before, list, i, j, views[i].tuple);
        LeapAscends(rels, bound, before, views[i], order, k);
        RotateOnce(list, p);
        k' := if KeyAt(i) == max then k - 1 else |order| - 1;
        KeysShown(i, low);
      } else {
        SeekFails(rels, enumerationLevel, bound, low, before, list, i, j);
      }
    }

    lemma DistinctOrder(list: seq<nat>, p: nat, low: nat)
      requires Seeks(low) && list == itersForVar[level] && p < |list|
      ensures var order := Rotated(list, p); forall a, c :: 0 <= a < c < |order| ==> order[a] != order[c]
      ensures |views| == |rels|
    {
      hide NonePassed, Settled, Stands;
    }

    /** Leaps until all iterators of this level stand at the same value, or one has run out. */
    method Intersect(ghost low: nat, ghost k: nat) returns (found: bool, x: nat)
      requires Configured() && Shown() && Seeks(low) && Ascends(itersForVar[level], k)
      requires KeyAt(itersForVar[level][|itersForVar[level]| - 1]) >= low
      modifies leapfrogIters, this`views
      ensures Shown() && Seeks(low)
      ensures !found ==> Exhausted(rels, enumerationLevel, bound, low)
      ensures found ==> low <= x && forall i :: i in itersForVar[level] ==> KeyAt(i) == x && FirstIn(rels, views, i)
    {
      hide Rank, Pref, Opened, LeapfrogBptIter.Valid, Searching, Key, IsFirstHere, Exhausted, AscendsIn, Rotated, LeapfrogJoin.Shown;
      var list := itersForVar[level];
      var p := 0;
      SomeInList(low);
      RotatedEnds(list, 0);
      RotatedFromStart(list);
      ghost var below := k;
      KeysShown(list[0], low);
      KeysShown(list[|list| - 1], low);
      var min, max := GetKey(list[0]), GetKey(list[|list| - 1]);
      while min != max
        invariant Shown() && Seeks(low) && itersForVar[level] == list && p < |list| && Ascends(Rotated(list, p), below)
        invariant |Rotated(list, p)| == |list| && min == KeyAt(list[p]) && max == KeyAt(Rotated(list, p)[|list| - 1])
        invariant low <= max < MAX_ID
        decreases MAX_ID - max, below
      {
        RotatedEnds(list, p);
        NotAllEqual(list, p, below);
        var leapt;
        leapt, below := Leap(p, max, low, below);
        if !leapt {
          return false, 0;
        }
        RotateOnce(list, p);
        KeysShown(list[p], low);
        max := GetKey(list[p]);
        p := (p + 1) % |list|;
        RotatedEnds(list, p);
        KeysShown(list[p], low);
        min := GetKey(list[p]);
      }
      RotatedEnds(list, p);
      AllEqual(list, p, below);
      return true, min;
    }

    /** Finds the least value from `low` on that all iterators of this level have, and binds it. */
    method FindIntersectionForCurrentLevel(ghost low: nat, ghost k: nat) returns (found: bool)
      requires Configured() && Shown() && Seeks(low) && Ascends(itersForVar[level], k) && |parentBinding| == enumerationLevel
      requires ProducedBelow(rels, enumerationLevel, log, Front(enumerationLevel, bound, low))
      requires KeyAt(itersForVar[level][|itersForVar[level]| - 1]) >= low
      modifies leapfrogIters, this`views, this`parentBinding
      ensures Shown() && Seeks(low)
      ensures !found ==> parentBinding == old(parentBinding) && Exhausted(rels, enumerationLevel, bound, low)
      ensures found ==> |parentBinding| == enumerationLevel && low <= parentBinding[level] < MAX_ID
      ensures found ==> parentBinding == old(parentBinding)[level := parentBinding[level]]
      ensures found ==> Standing(rels, enumerationLevel, bound + [parentBinding[level]], level + 1, views)
      ensures found ==> ProducedBelow(rels, enumerationLevel, log, Front(enumerationLevel, bound, parentBinding[level]))
      ensures found ==> forall i :: 0 <= i < |rels| ==> Settled(rels[i], level + 1, views[i])
    {
      hide Rank, Pref, Opened, Searching, Key, IsFirstHere, Exhausted, Settled, Stands, Standing, ProducedBelow, Front, LeapfrogJoin.Shown;
      ShownSizes();
      var min;
      found, min := Intersect(low, k);
      if found {
        ShownSizes();
        Outside();
        SomeInList(low);
        FoundBinds(rels, enumerationLevel, bound, low, views, itersForVar[level], min, log);
        parentBinding := parentBinding[level := min];
      }
    }

    lemma NotAllEqual(list: seq<nat>, p: nat, k: nat)
      requires p < |list| && Ascends(Rotated(list, p), k) && |Rotated(list, p)| == |list|
      requires Rotated(list, p)[0] == list[p] && KeyAt(list[p]) != KeyAt(Rotated(list, p)[|list| - 1])
      ensures k > 0
    {
    }

    lemma SomeInList(low: nat)
      requires Seeks(low)
      ensures |itersForVar[level]| > 0
    {
    }

    lemma AllEqual(list: seq<nat>, p: nat, k: nat)
      requires p < |list| && Ascends(Rotated(list, p), k) && |Rotated(list, p)| == |list|
      requires Rotated(list, p)[0] == list[p] && KeyAt(list[p]) == KeyAt(Rotated(list, p)[|list| - 1])
      ensures forall i :: i in list ==> KeyAt(i) == KeyAt(list[p]) && FirstIn(rels, views, i)
    {
      hide Key, IsFirstHere;
      var order := Rotated(list, p);
      forall i | i in list ensures i in order {
        var a :| 0 <= a < |list| && list[a] == i;
        assert if a >= p then order[a - p] == i else order[|list| - p + a] == i;
      }
      assert k == 0;
    }

    // ----- the states of the search ----------------------------------------------------------------------

    /** What every state has in common. */
    ghost predicate Common()
      reads this`views, this`parentBinding, this`values, this`itersForVar, this`bound, leapfrogIters, Trees(), Stores()
    {
      && Configured() && Shown() && |itersForVar| == |parentBinding| == enumerationLevel && |values| == |rels|
      && (forall l :: 0 <= l < enumerationLevel ==> Lists(rels, l, itersForVar[l]))
      && |bound| <= enumerationLevel && bound == parentBinding[..|bound|] && IsRecord(|bound|, bound)
      && (forall i :: 0 <= i < |bound| ==> bound[i] < MAX_ID)
    }

    /** A value for the next variable is looked for, from `low` on. */
    ghost predicate Finding()
      reads this, leapfrogIters, Trees(), Stores()
    {
      && Common() && Seeks(low) && (exists k :: Ascends(itersForVar[level], k))
      && KeyAt(itersForVar[level][|itersForVar[level]| - 1]) >= low
      && front == Front(enumerationLevel, bound, low) && ProducedBelow(rels, enumerationLevel, log, front)
    }

    /** There is no such value. */
    ghost predicate Stuck()
      reads this, leapfrogIters, Trees(), Stores()
    {
      && Common() && level == |bound| < enumerationLevel && low <= MAX_ID
      && Standing(rels, enumerationLevel, bound, |bound| + 1, views)
      && (forall i :: 0 <= i < |rels| ==> Settled(rels[i], |bound|, views[i]))
      && Exhausted(rels, enumerationLevel, bound, low)
      && front == Front(enumerationLevel, bound, low) && ProducedBelow(rels, enumerationLevel, log, front)
    }

    /** The last iterator has to move on. */
    ghost predicate Returning()
      reads this, leapfrogIters, Trees(), Stores()
    {
      && Common() && |bound| > 0 && level == |bound| - 1 && Backing(rels, enumerationLevel, bound, views)
      && front == Front(enumerationLevel, bound[..|bound| - 1], bound[|bound| - 1] + 1)
      && ProducedBelow(rels, enumerationLevel, log, front)
    }

    /** A value was found, or nothing was bound yet: the search goes down. */
    ghost predicate Entering()
      reads this, leapfrogIters, Trees(), Stores()
    {
      && Common() && level == |bound| - 1 && Standing(rels, enumerationLevel, bound, |bound|, views)
      && (forall i :: 0 <= i < |rels| ==> Settled(rels[i], |bound|, views[i]))
      && front == FrontOf(enumerationLevel, bound) && ProducedBelow(rels, enumerationLevel, log, front)
    }

    /** Every row was produced. */
    ghost predicate Over()
      reads this, leapfrogIters, Trees(), Stores()
    {
      && Common() && bound == [] && level == -1
      && front == Limit(enumerationLevel) && ProducedBelow(rels, enumerationLevel, log, front)
    }

    /** Nothing but the views changed since `Common` held, and the iterators show them. */
    twostate lemma StillCommon()
      requires old(Common()) && Shown() && |views| == |old(views)|
      requires unchanged(`parentBinding, `values, `itersForVar, `bound)
      ensures Common()
    {
    }

    // ----- going up ----------------------------------------------------------------------------------------

    /** Lets the iterators of this level go up. */
    method LowerAll(list: seq<nat>)
      requires Shown() && (forall i :: i in list ==> i < |leapfrogIters|)
      requires forall j, k :: 0 <= j < k < |list| ==> list[j] != list[k]
      modifies leapfrogIters, this`views
      ensures Shown() && Lowered(old(views), list, views)
    {
      hide LeapfrogJoin.Shown;
      ghost var start := views;
      ShownSizes();
      for k := 0 to |list|
        invariant Shown() && Lowered(start, list[..k], views)
      {
        ShownSizes();
        assert list[k] in list && list[k] !in list[..k];
        UpIter(list[k]);
        assert list[..k + 1] == list[..k] + [list[k]];
      }
      assert list[..|list|] == list;
    }

    lemma ShownSizes()
      requires Shown()
      ensures |leapfrogIters| == |rels| == |views| > 0
    {
    }

    /** Leaves a level on which nothing is left. */
    method Up()
      requires Stuck()
      modifies leapfrogIters, this`views, this`level, this`front
      ensures if |bound| > 0 then Returning() && front > old(front) else Over() && front > old(front)
      ensures level == old(level) - 1 && Common()
    {
      hide Rank, Pref, Opened, Exhausted, Settled, Stands, ProducedBelow, Front, Limit, Lists, Backing, LeapfrogJoin.Shown;
      ShownSizes();
      Outside();
      ghost var start, m := views, enumerationLevel;
      ListSound(level);
      LowerAll(itersForVar[level]);
      StillCommon();
      Outside();
      ghost var list := itersForVar[level];
      if |bound| > 0 {
        UpBacks(rels, m, bound, start, list, views);
        LevelDone(rels, m, bound, low, log);
        front := Front(m, bound[..|bound| - 1], bound[|bound| - 1] + 1);
      } else {
        assert bound == [];
        AllDone(rels, m, low, log);
        front := Limit(m);
      }
      level := level - 1;
    }

    lemma ListSound(l: nat)
      requires Common() && l < enumerationLevel
      ensures Lists(rels, l, itersForVar[l])
      ensures forall i :: i in itersForVar[l] ==> i < |leapfrogIters|
      ensures forall j, k :: 0 <= j < k < |itersForVar[l]| ==> itersForVar[l][j] != itersForVar[l][k]
      ensures itersForVar[l] != []
    {
    }

    // ----- going down ------------------------------------------------------------------------------------

    method DeepenAll(list: seq<nat>)
      requires Shown() && (forall i :: i in list ==> i < |leapfrogIters|)
      requires forall j, k :: 0 <= j < k < |list| ==> list[j] != list[k]
      requires forall i :: i in list ==> 0 <= views[i].level + 1 < rels[i].n && rels[i].s != []
      modifies leapfrogIters, this`views
      ensures Shown() && Deepened(rels, old(views), list, views)
    {
      hide LeapfrogJoin.Shown, IsFirst;
      ghost var start := views;
      ShownSizes();
      for k := 0 to |list|
        invariant Shown() && Deepened(rels, start, list[..k], views)
      {
        ShownSizes();
        assert list[k] in list && list[k] !in list[..k];
        DownIter(list[k]);
        assert list[..k + 1] == list[..k] + [list[k]];
      }
      assert list[..|list|] == list;
    }

    /** Insertion sort of a list of iterators by the values they stand at. */
    method SortByKey(start: seq<nat>) returns (list: seq<nat>)
      requires forall i :: i in start ==> i < |leapfrogIters|
      requires forall i :: i in start ==> GetKey(i) == KeyAt(i)
      ensures multiset(list) == multiset(start) && SortedIn(rels, bound, views, list)
    {
      hide Key, KeyIn;
      list := start;
      var i := 1;
      while i < |list|
        invariant multiset(list) == multiset(start) && |list| == |start| && 1 <= i
        invariant i <= |list| ==> SortedUpTo(list, i)
        invariant i > |list| ==> |list| == 0
      {
        InStart(start, list);
        ghost var whole, p := list, 0;
        list, p := InsertByKey(list, i);
        MovedUnique(whole, i, p, list);
        MovedPermutes(whole, i, p);
        MovedSorts(whole, i, p);
        i := i + 1;
      }
    }

    ghost predicate SortedUpTo(list: seq<nat>, i: nat)
      reads this`views, this`bound
    {
      i <= |list| && forall a, c :: 0 <= a < c < i ==> KeyAt(list[a]) <= KeyAt(list[c])
    }

    /** Moves element `i` down to its place among the ones before it. */
    method InsertByKey(start: seq<nat>, i: nat) returns (list: seq<nat>, ghost p: nat)
      requires forall a :: 0 <= a < |start| ==> start[a] < |leapfrogIters| && GetKey(start[a]) == KeyAt(start[a])
      requires 0 < i < |start|
      ensures p <= i && IsMoved(start, i, p, list)
      ensures (forall a :: p <= a < i ==> KeyAt(start[a]) > KeyAt(start[i])) && (p > 0 ==> KeyAt(start[p - 1]) <= KeyAt(start[i]))
    {
      hide LeapfrogJoin.KeyAt, LeapfrogJoin.GetKey;
      list := start;
      var aux := list[i];
      var j := i - 1;
      while j >= 0 && GetKey(list[j]) > GetKey(aux)
        invariant -1 <= j < i && |list| == |start|
        invariant forall a :: 0 <= a <= j || i < a < |list| ==> list[a] == start[a]
        invariant forall a {:trigger list[a]} :: j + 1 < a <= i ==> list[a] == start[a - 1]
        invariant forall a :: j + 1 <= a < i ==> KeyAt(start[a]) > KeyAt(aux)
      {
        list := list[j + 1 := list[j]];
        j := j - 1;
      }
      list := list[j + 1 := aux];
      p := j + 1;
    }

    lemma MovedSorts(s: seq<nat>, i: nat, p: nat)
      requires p <= i < |s| && SortedUpTo(s, i)
      requires forall a :: p <= a < i ==> KeyAt(s[a]) > KeyAt(s[i])
      requires p > 0 ==> KeyAt(s[p - 1]) <= KeyAt(s[i])
      ensures SortedUpTo(Moved(s, i, p), i + 1)
    {
      hide Key, KeyIn;
      var r := Moved(s, i, p);
      forall a, c | 0 <= a < c <= i ensures KeyAt(r[a]) <= KeyAt(r[c]) {
        assert c == p && a < p - 1 ==> KeyAt(s[a]) <= KeyAt(s[p - 1]);
        var x, y := if a < p then a else a - 1, if c < p then c else c - 1;
        assert a != p && c != p ==> r[a] == s[x] && r[c] == s[y] && x < y;
      }
    }

    lemma InStart(start: seq<nat>, list: seq<nat>)
      requires multiset(list) == multiset(start)
      ensures forall a :: 0 <= a < |list| ==> list[a] in start
    {
      forall a | 0 <= a < |list| ensures list[a] in start {
        assert list[a] in multiset(list);
      }
    }

    /** The iterators of the next variable go down. */
    method OpenVariable()
      requires Entering() && |bound| < enumerationLevel
      modifies leapfrogIters, this`views, this`level
      ensures Common() && level == old(level) + 1 == |bound|
      ensures Searching(rels, enumerationLevel, bound, 0, views, itersForVar[level])
      ensures forall i :: i in itersForVar[level] ==> i < |rels| && i < |views| && IsFirstHere(rels[i], views[i])
    {
      hide Rank, Pref, Opened, Settled, Stands, ProducedBelow, Front, Limit, LeapfrogJoin.Shown, Deepened, FrontOf, Searching, IsFirstHere;
      ShownSizes();
      ghost var start, m := views, enumerationLevel;
      ListSound(level + 1);
      ListRoom(itersForVar[level + 1]);
      DeepenAll(itersForVar[level + 1]);
      ShownSizes();
      StillCommon();
      Outside();
      level := level + 1;
      DownSearches(rels, m, bound, start, itersForVar[level], views);
    }

    /** Sorts the iterators of this level by the values they stand at. */
    method SortLevel()
      requires Common() && level == |bound| < enumerationLevel
      requires Searching(rels, enumerationLevel, bound, 0, views, itersForVar[level])
      requires forall i :: i in itersForVar[level] ==> i < |rels| && i < |views| && IsFirstHere(rels[i], views[i])
      modifies this`itersForVar
      ensures Common() && Seeks(0) && exists k :: Ascends(itersForVar[level], k)
    {
      hide Rank, Pref, Opened, LeapfrogJoin.Shown, Searching, IsFirstHere, AscendsIn, SortedIn;
      ShownSizes();
      Outside();
      ListSound(level);
      var list := itersForVar[level];
      KeysOfList(list);
      var sorted := SortByKey(list);
      ListsPermuted(rels, level, list, sorted);
      SearchingPermuted(rels, enumerationLevel, bound, 0, views, list, sorted);
      itersForVar := itersForVar[level := sorted];
      ghost var k := SortedAscends(rels, bound, views, sorted);
      assert Ascends(itersForVar[level], k);
    }

    lemma ListRoom(list: seq<nat>)
      requires Common() && |bound| < enumerationLevel && list == itersForVar[|bound|]
      requires Standing(rels, enumerationLevel, bound, |bound|, views)
      ensures forall i :: i in list ==> i < |rels| && 0 <= views[i].level + 1 < rels[i].n && rels[i].s != []
    {
      hide Rank, Pref, Opened, LeapfrogJoin.Shown;
      forall i | i in list ensures i < |rels| && 0 <= views[i].level + 1 < rels[i].n && rels[i].s != [] {
        RoomBelow(enumerationLevel, rels[i], bound, views[i]);
      }
    }

    lemma KeysOfList(list: seq<nat>)
      requires Configured() && Shown() && level == |bound| && Searching(rels, enumerationLevel, bound, 0, views, list)
      ensures forall i :: i in list ==> i < |leapfrogIters| && GetKey(i) == KeyAt(i)
    {
      hide Rank, Pref, Opened, LeapfrogBptIter.Valid, NonePassed;
      forall i | i in list ensures i < |leapfrogIters| && GetKey(i) == KeyAt(i) {
        ListKey(rels, enumerationLevel, bound, 0, views, list, i);
        assert Shows(i);
      }
    }

    // ----- enumeration -----------------------------------------------------------------------------------

    /** The first iterators run through the given groups and have passed that many records. */
    ghost predicate Spinning(gs: seq<seq<Record>>, ps: seq<nat>)
      reads this`enums, leapfrogIters, Trees(), Stores(), enums
    {
      && |gs| == |ps| <= |leapfrogIters|
      && (forall i :: 0 <= i < |gs| ==> leapfrogIters[i].enumBptIter in enums && leapfrogIters[i].Enumerating(gs[i], ps[i]))
      && forall i, j :: 0 <= i < j < |gs| ==> leapfrogIters[i].enumBptIter != leapfrogIters[j].enumBptIter
    }

    /** The group that iterator `i` is at the start of. */
    ghost function GroupAt(i: nat): seq<Record>
      requires i < |views| == |rels| && -1 <= views[i].level < |views[i].tuple| == rels[i].n
      reads this`views
    {
      Group(rels[i].n, rels[i].s, views[i].tuple[..views[i].level + 1])
    }

    /** Starts the enumeration of iterator `i`; the others are not affected. */
    method Launch(i: nat, ghost gs: seq<seq<Record>>, ghost ps: seq<nat>)
      requires Shown() && i < |leapfrogIters| && rels[i].s != [] && |views[i].tuple| == rels[i].n && IsFirstHere(rels[i], views[i])
      requires Spinning(gs, ps)
      modifies leapfrogIters[i], this`enums
      ensures Shown() && enums == old(enums) + {leapfrogIters[i].enumBptIter} && fresh(leapfrogIters[i].enumBptIter)
      ensures leapfrogIters[i].Enumerating(GroupAt(i), 0)
      ensures forall j :: 0 <= j < |gs| && j != i ==>
                leapfrogIters[j].Enumerating(gs[j], ps[j]) && leapfrogIters[j].enumBptIter == old(leapfrogIters[j].enumBptIter)
    {
      hide Rank, LeapfrogBptIter.Valid, Group, BptIter.Valid, AreRecords, GroupIs;
      assert Shows(i);
      leapfrogIters[i].BeginEnumeration();
      enums := enums + {leapfrogIters[i].enumBptIter};
      assert Shows(i);
      forall j | 0 <= j < |leapfrogIters| && j != i ensures Shows(j) {
        assert old(Shows(j));
      }
      forall j | 0 <= j < |gs| && j != i ensures leapfrogIters[j].Enumerating(gs[j], ps[j]) {
        assert old(leapfrogIters[j].Enumerating(gs[j], ps[j]));
      }
    }

    method BeginAt(i: nat, ghost gs: seq<seq<Record>>, ghost ps: seq<nat>)
      requires Shown() && i < |leapfrogIters| && rels[i].s != [] && |views[i].tuple| == rels[i].n && IsFirstHere(rels[i], views[i])
      requires Spinning(gs, ps) && i <= |gs|
      modifies leapfrogIters[i], this`enums
      ensures Shown() && fresh(enums - old(enums)) && old(enums) <= enums
      ensures i < |gs| ==> Spinning(gs[i := GroupAt(i)], ps[i := 0])
      ensures i == |gs| ==> Spinning(gs + [GroupAt(i)], ps + [0])
    {
      hide Rank, LeapfrogBptIter.Valid, Group, BptIter.Valid, LeapfrogBptIter.Enumerating, LeapfrogJoin.Shown;
      ShownSizes();
      Launch(i, gs, ps);
    }

    method NextAt(i: nat, ghost gs: seq<seq<Record>>, ghost ps: seq<nat>) returns (v: Option<Record>)
      requires Shown() && Spinning(gs, ps) && i < |gs|
      modifies enums
      ensures Shown() && 0 <= views[i].level + 1
      ensures ps[i] < |gs[i]| ==> views[i].level + 1 <= |gs[i][ps[i]]| && v == Some(gs[i][ps[i]][views[i].level + 1..])
      ensures ps[i] < |gs[i]| ==> Spinning(gs, ps[i := ps[i] + 1])
      ensures ps[i] >= |gs[i]| ==> v == None && Spinning(gs, ps)
    {
      hide Rank, LeapfrogBptIter.Valid, Group, BptIter.Valid;
      assert Shows(i);
      v := leapfrogIters[i].NextEnumeration(gs[i], ps[i]);
      forall j | 0 <= j < |leapfrogIters| ensures Shows(j) {
        assert old(Shows(j));
      }
      forall j | 0 <= j < |gs| && j != i ensures leapfrogIters[j].Enumerating(gs[j], ps[j]) {
        assert old(leapfrogIters[j].Enumerating(gs[j], ps[j]));
      }
    }

    /** All join variables are bound, and every iterator stands at the first record for them. */
    ghost predicate Full()
      reads this, leapfrogIters, Trees(), Stores()
    {
      && Common() && level == enumerationLevel == |bound| && Standing(rels, enumerationLevel, bound, enumerationLevel, views)
      && (forall i :: 0 <= i < |rels| ==> IsFirstHere(rels[i], views[i])) && front == Rank(bound)
    }

    /** What iterator `i` can add to the bound values. */
    ghost function ListAt(i: nat): seq<Record>
      requires i < |rels|
      reads this`bound
    {
      ListFor(rels[i], bound)
    }

    /** The group of an iterator and what it can add, record by record. */
    lemma GroupFacts(i: nat)
      requires Full() && i < |rels|
      ensures |views| == |rels| && -1 <= views[i].level < |views[i].tuple| == rels[i].n && rels[i].s != []
      ensures |Pref(rels[i], bound)| == views[i].level + 1 && |GroupAt(i)| == |ListAt(i)| > 0
      ensures forall k :: 0 <= k < |ListAt(i)| ==>
                |GroupAt(i)[k]| >= views[i].level + 1 && ListAt(i)[k] == GroupAt(i)[k][views[i].level + 1..]
    {
      hide Rank, Group, LeapfrogJoin.Shown;
      var r, w, m := rels[i], views[i], enumerationLevel;
      assert Stands(r, m, bound, m, w);
      PrefIsRecord(m, r, bound);
      var k :| 0 <= k < |r.s| && r.s[k] == w.tuple;
      assert w.tuple[..w.level + 1] == Pref(r, bound);
      GroupHas(r.n, r.s, Pref(r, bound));
      assert w.tuple in GroupAt(i);
      forall c | 0 <= c < |GroupAt(i)| ensures |GroupAt(i)[c]| >= w.level + 1 {
        assert GroupAt(i)[c] in GroupAt(i);
      }
    }

    /** The enumeration of the rows with the bound values. */
    ghost predicate Turning()
      reads this, leapfrogIters, Trees(), Stores(), enums
    {
      && Full() && Spinning(groups, passed) && |groups| == |rels| && IsEnumeration(groups)
      && lists == ListsAt() && Turned(lists, passed, values, done)
      && log == before + Rows(bound, done) && ProducedBelow(rels, enumerationLevel, before, front)
    }

    ghost predicate IsEnumeration(gs: seq<seq<Record>>)
      reads this`views
    {
      && |gs| <= |rels| == |views|
      && forall i :: 0 <= i < |gs| ==> -1 <= views[i].level < |views[i].tuple| == rels[i].n && gs[i] == GroupAt(i)
    }

    twostate lemma StillFull()
      requires old(Full()) && Shown() && |values| == |old(values)|
      requires unchanged(`views, `parentBinding, `itersForVar, `bound, `level, `front)
      ensures Full()
    {
      hide Standing, IsFirstHere, Rank, LeapfrogJoin.Shown;
    }

    /** Iterator `i` starts its enumeration again, or for the first time, and takes its first record. */
    method TakeFirst(i: nat, ghost gs: seq<seq<Record>>, ghost ps: seq<nat>)
      requires Full() && i < |leapfrogIters| && Spinning(gs, ps) && IsEnumeration(gs) && i <= |gs|
      modifies leapfrogIters[i], enums, this`enums, this`values
      ensures Full() && fresh(enums - old(enums)) && old(enums) <= enums
      ensures |ListAt(i)| > 0 && values == old(values)[i := ListAt(i)[0]]
      ensures i < |views| == |rels| && -1 <= views[i].level < |views[i].tuple| == rels[i].n
      ensures i < |gs| ==> Spinning(gs, ps[i := 1])
      ensures i == |gs| ==> Spinning(gs + [GroupAt(i)], ps + [1])
    {
      hide Rank, LeapfrogJoin.Full, LeapfrogJoin.Shown, Group, LeapfrogJoin.ListAt, IsFirstHere, LeapfrogJoin.Spinning;
      FullSizes();
      GroupFacts(i);
      SpinningSizes(gs, ps);
      BeginAt(i, gs, ps);
      ghost var g := if i < |gs| then gs[i := GroupAt(i)] else gs + [GroupAt(i)];
      ghost var p := if i < |gs| then ps[i := 0] else ps + [0];
      SpinningSizes(g, p);
      var v := NextAt(i, g, p);
      assert i < |gs| ==> g == gs;
      assert i < |gs| ==> p[i := 1] == ps[i := 1];
      assert i == |gs| ==> p[i := 1] == ps + [1];
      Outside();
      values := values[i := v.value];
      StillFull();
    }

    lemma SpinningSizes(gs: seq<seq<Record>>, ps: seq<nat>)
      requires Spinning(gs, ps)
      ensures |gs| == |ps| <= |leapfrogIters|
    {
    }

    /** Iterator 0 starts its enumeration before its first record. */
    method BeginFirst()
      requires Full()
      modifies leapfrogIters[0], this`enums
      ensures Full() && fresh(enums - old(enums)) && old(enums) <= enums
      ensures |leapfrogIters| == |rels| == |views| > 0 && -1 <= views[0].level < |views[0].tuple| == rels[0].n
      ensures Spinning([GroupAt(0)], [0]) && IsEnumeration([GroupAt(0)])
    {
      hide Rank, Pref, Opened, LeapfrogJoin.Shown, Group, Standing, IsFirstHere, LeapfrogJoin.Spinning, LeapfrogJoin.Full, LeapfrogJoin.ListAt;
      FullSizes();
      GroupFacts(0);
      EmptySpinning();
      BeginAt(0, [], []);
      StillFull();
      assert [] + [GroupAt(0)] == [GroupAt(0)] && [] + [0] == [0];
    }

    lemma EnumerationGrows(gs: seq<seq<Record>>)
      requires IsEnumeration(gs) && |gs| < |rels| == |views| && -1 <= views[|gs|].level < |views[|gs|].tuple| == rels[|gs|].n
      ensures IsEnumeration(gs + [GroupAt(|gs|)])
    {
      hide Group;
    }

    /** The enumeration begins: the others show their first records already. */
    method StartEnumeration()
      requires Full() && ProducedBelow(rels, enumerationLevel, log, front)
      modifies leapfrogIters, enums, this`enums, this`values, this`groups, this`passed, this`lists, this`before, this`done
      ensures Turning() && fresh(enums - old(enums)) && old(enums) <= enums && done == [] && log == old(log)
    {
      hide Rank, Pref, Opened, LeapfrogJoin.Shown, Group, Tails, Standing, Product, ProducedBelow, IsFirstHere, LeapfrogJoin.Spinning;
      hide LeapfrogJoin.Full, ToCome, Wheels, LeapfrogJoin.ListAt, LeapfrogJoin.ListsAt;
      hide LeapfrogJoin.IsEnumeration;
      FullSizes();
      BeginFirst();
      ghost var gs, ps := [GroupAt(0)], [0];
      FullSizes();
      var i := 1;
      while i < |leapfrogIters|
        invariant Full() && i == |gs| == |ps| <= |rels| == |views| == |leapfrogIters| && Spinning(gs, ps) && IsEnumeration(gs)
        invariant fresh(enums - old(enums)) && old(enums) <= enums && |values| == |rels|
        invariant ps[0] == 0 && forall k :: 0 < k < i ==> ps[k] == 1 && |ListAt(k)| > 0 && values[k] == ListAt(k)[0]
      {
        TakeFirst(i, gs, ps);
        FullSizes();
        EnumerationGrows(gs);
        gs, ps := gs + [GroupAt(i)], ps + [1];
        i := i + 1;
      }
      SetOdometer(gs, ps);
    }

    ghost method SetOdometer(gs: seq<seq<Record>>, ps: seq<nat>)
      requires Full() && |gs| == |ps| == |rels| && Spinning(gs, ps) && IsEnumeration(gs)
      requires ProducedBelow(rels, enumerationLevel, log, front)
      requires ps[0] == 0 && forall k :: 0 < k < |ps| ==> ps[k] == 1 && |ListAt(k)| > 0 && values[k] == ListAt(k)[0]
      modifies this`groups, this`passed, this`lists, this`before, this`done
      ensures Turning() && done == []
    {
      hide Rank, Pref, Opened, LeapfrogJoin.Shown, Group, Tails, Standing, Product, ProducedBelow, IsFirstHere, LeapfrogJoin.Spinning;
      hide ToCome, Wheels, LeapfrogJoin.ListAt;
      Outside();
      FullSizes();
      groups, passed, before, done := gs, ps, log, [];
      lists := ListsAt();
      assert log == before + Rows(bound, done);
      Begins();
    }

    lemma FullSizes()
      requires Full()
      ensures |leapfrogIters| == |rels| == |views| == |values| > 0 && Shown()
      ensures forall i :: 0 <= i < |rels| ==> IsFirstHere(rels[i], views[i])
    {
    }

    lemma EmptySpinning()
      ensures Spinning([], [])
    {
    }

    ghost function ListsAt(): (ls: seq<seq<Record>>)
      reads this`bound
      ensures |ls| == |rels| && forall i :: 0 <= i < |rels| ==> ls[i] == ListAt(i)
    {
      ListsFor(rels, bound)
    }

    lemma Begins()
      requires Full() && lists == ListsAt() && |passed| == |rels| > 0
      requires passed[0] == 0 && forall k :: 0 < k < |passed| ==> passed[k] == 1
      ensures Wheels(lists, Wheel(passed)) && Product(lists) == ToCome(lists, Wheel(passed))
    {
      hide Rank, Group, Tails, Product, ToCome, LeapfrogJoin.Full, Pref;
      forall i | 0 <= i < |rels| ensures |lists[i]| > 0 {
        GroupFacts(i);
      }
      StartOfOdometer(lists);
      assert Wheel(passed) == Zeros(|lists|)[0 := -1];
    }

    /** Iterators before `i` start again at their first records. */
    method Restart(i: nat, ghost ps: seq<nat>) returns (ghost qs: seq<nat>)
      requires Full() && i <= |rels| && |groups| == |rels| == |ps| && Spinning(groups, ps) && IsEnumeration(groups)
      modifies leapfrogIters, enums, this`enums, this`values
      ensures Full() && fresh(enums - old(enums)) && old(enums) <= enums && Spinning(groups, qs) && |qs| == |ps|
      ensures |values| == |old(values)| == |rels|
      ensures forall k :: 0 <= k < |ps| ==> qs[k] == if k < i then 1 else ps[k]
      ensures forall k :: 0 <= k < |rels| ==> |ListAt(k)| > 0 && values[k] == if k < i then ListAt(k)[0] else old(values)[k]
    {
      hide Rank, LeapfrogJoin.Shown, LeapfrogJoin.Spinning, LeapfrogJoin.Full, LeapfrogJoin.ListAt;
      hide LeapfrogJoin.IsEnumeration, LeapfrogJoin.GroupAt;
      FullSizes();
      AllListsFull();
      qs := ps;
      var j := i;
      while j > 0
        invariant j <= i && Full() && |qs| == |ps| && Spinning(groups, qs) && IsEnumeration(groups) && |values| == |rels| == |views|
        invariant fresh(enums - old(enums)) && old(enums) <= enums
        invariant forall k :: 0 <= k < |ps| ==> qs[k] == if j <= k < i then 1 else ps[k]
        invariant forall k :: 0 <= k < |rels| ==> |ListAt(k)| > 0 && values[k] == if j <= k < i then ListAt(k)[0] else old(values)[k]
      {
        j := j - 1;
        TakeFirst(j, groups, qs);
        FullSizes();
        qs := qs[j := 1];
      }
    }

    lemma AllListsFull()
      requires Full()
      ensures forall k :: 0 <= k < |rels| ==> |ListAt(k)| > 0
    {
      hide Rank, LeapfrogJoin.Shown, LeapfrogJoin.Full, LeapfrogJoin.ListAt;
      forall k | 0 <= k < |rels| ensures |ListAt(k)| > 0 {
        GroupFacts(k);
      }
    }

    /** Records the row that the odometer shows. */
    ghost method Produce(qs: seq<nat>)
      requires Full() && |groups| == |rels| && Spinning(groups, qs) && IsEnumeration(groups) && lists == ListsAt()
      requires Turned(lists, qs, values, done + [values])
      requires log == before + Rows(bound, done) && ProducedBelow(rels, enumerationLevel, before, front)
      modifies this`passed, this`done, this`log
      ensures Turning() && log == old(log) + [Tuple(bound, values)] && done == old(done) + [values]
    {
      hide Rank, LeapfrogJoin.Shown, LeapfrogJoin.Spinning, LeapfrogJoin.ListAt, ProducedBelow, Standing, Turned, IsFirstHere, ListsFor;
      Outside();
      FullSizes();
      passed, done := qs, done + [values];
      log := log + [Tuple(bound, values)];
      assert log == before + Rows(bound, done);
    }

    lemma TurningFacts(i: nat)
      requires Turning() && i < |rels|
      ensures Full() && |groups| == |rels| == |passed| == |lists| == |views| == |values| && Spinning(groups, passed)
      ensures |groups[i]| == |lists[i]| && passed[i] <= |lists[i]| && (i > 0 ==> 0 < passed[i] && values[i] == lists[i][passed[i] - 1])
      ensures -1 <= views[i].level
      ensures forall k :: 0 <= k < |lists[i]| ==>
                |groups[i][k]| >= views[i].level + 1 && lists[i][k] == groups[i][k][views[i].level + 1..]
    {
      hide Rank, LeapfrogJoin.Shown, LeapfrogJoin.ListAt, ProducedBelow, Standing, Product, ToCome, IsFirstHere, Group, LeapfrogJoin.Full;
      GroupFacts(i);
      FullSizes();
      SpinningSizes(groups, passed);
      assert Wheel(passed)[i] == passed[i] as int - 1;
    }

    lemma TurnedSizes()
      requires Turned(lists, passed, values, done)
      ensures |lists| == |passed| == |values|
    {
    }

    lemma AllTurningFacts()
      requires Turning()
      ensures Full() && |groups| == |rels| == |passed| == |lists| == |views| == |values| == |leapfrogIters| && Spinning(groups, passed)
      ensures forall i :: 0 <= i < |rels| ==> |groups[i]| == |lists[i]| && passed[i] <= |lists[i]|
      ensures forall i :: 0 < i < |rels| ==> 0 < passed[i] && values[i] == lists[i][passed[i] - 1]
    {
      hide Rank, LeapfrogJoin.Turning, Group, LeapfrogJoin.Full;
      forall i | 0 <= i < |rels|
        ensures |groups| == |rels| == |passed| == |lists| == |values| && |groups[i]| == |lists[i]| && passed[i] <= |lists[i]|
        ensures i > 0 ==> 0 < passed[i] && values[i] == lists[i][passed[i] - 1]
      {
        TurningFacts(i);
      }
      TurningSizes();
    }

    lemma TurningSizes()
      requires Turning()
      ensures Full() && |groups| == |rels| == |passed| == |lists| == |views| == |values| == |leapfrogIters| && Spinning(groups, passed)
    {
      hide Rank, Group, Standing, Product, ToCome, ProducedBelow;
    }

    /** Produces the next row with the bound values: the first iterator that has another record takes it,
        and the ones before it start again. */
    method NextRow() returns (found: bool)
      requires Turning()
      modifies leapfrogIters, enums, this`enums, this`values, this`passed, this`done, this`log
      ensures fresh(enums - old(enums)) && old(enums) <= enums
      ensures found ==> Turning() && log == old(log) + [Tuple(bound, values)] && done == old(done) + [values]
      ensures !found ==> Full() && log == old(log) && ProducedBelow(rels, enumerationLevel, log, front + 1)
    {
      hide Rank, LeapfrogJoin.Turning, LeapfrogJoin.Full, LeapfrogJoin.Shown, LeapfrogJoin.Spinning, Product, ToCome, ProducedBelow;
      AllTurningFacts();
      var i := 0;
      while i < |leapfrogIters|
        invariant i <= |leapfrogIters| && Turning() && unchanged(`passed, `values, `log, `enums, `done)
        invariant |passed| == |lists| == |leapfrogIters| && forall k :: 0 <= k < i ==> passed[k] == |lists[k]|
      {
        found := TryWheel(i);
        if found {
          return;
        }
        i := i + 1;
      }
      RowsDone();
      found := false;
    }

    lemma RowsDone()
      requires Turning() && |passed| == |lists| && forall k :: 0 <= k < |passed| ==> passed[k] == |lists[k]|
      ensures Full() && ProducedBelow(rels, enumerationLevel, log, front + 1)
    {
      hide Rank, Product, ToCome, ProducedBelow, Tails, Pref, LeapfrogJoin.Shown;
      NothingToCome(lists, Wheel(passed));
      assert done == Product(lists);
      forall i | 0 <= i < |rels| ensures |Pref(rels[i], bound)| <= rels[i].n && lists[i] == Tails(rels[i].n, rels[i].s, Pref(rels[i], bound)) {
        PrefIsRecord(enumerationLevel, rels[i], bound);
        assert lists[i] == ListAt(i);
      }
      BindingDone(rels, enumerationLevel, bound, lists, before);
    }

    /** Tries to advance wheel `i`, the ones before it being at their ends. */
    method TryWheel(i: nat) returns (found: bool)
      requires Turning() && i < |passed| == |lists| && forall k :: 0 <= k < i ==> passed[k] == |lists[k]|
      modifies leapfrogIters, enums, this`enums, this`values, this`passed, this`done, this`log
      ensures fresh(enums - old(enums)) && old(enums) <= enums && Turning()
      ensures found ==> log == old(log) + [Tuple(bound, values)] && done == old(done) + [values]
      ensures !found ==> unchanged(`passed, `values, `log, `enums, `done) && passed[i] == |lists[i]|
    {
      hide Rank, LeapfrogJoin.Full, LeapfrogJoin.Shown, LeapfrogJoin.Spinning, Product, ToCome, ProducedBelow, LeapfrogJoin.ListAt, Group;
      AllTurningFacts();
      TurningFacts(i);
      FullSizes();
      var v := NextAt(i, groups, passed);
      StillFull();
      if v == None {
        return false;
      }
      TakeRecord(i, v.value);
      found := true;
    }

    /** Wheel `i` has another record. */
    method TakeRecord(i: nat, x: Record)
      requires i < |passed| == |lists| == |groups| == |rels| && passed[i] < |lists[i]| && x == lists[i][passed[i]]
      requires forall k :: 0 <= k < i ==> passed[k] == |lists[k]|
      requires IsEnumeration(groups) && lists == ListsAt() && Turned(lists, passed, values, done)
      requires Full() && Spinning(groups, passed[i := passed[i] + 1])
      requires log == before + Rows(bound, done) && ProducedBelow(rels, enumerationLevel, before, front)
      modifies leapfrogIters, enums, this`enums, this`values, this`passed, this`done, this`log
      ensures fresh(enums - old(enums)) && old(enums) <= enums && Turning()
      ensures log == old(log) + [Tuple(bound, values)] && done == old(done) + [values]
    {
      hide Rank, LeapfrogJoin.Full, LeapfrogJoin.Shown, LeapfrogJoin.Spinning, ProducedBelow, LeapfrogJoin.ListAt, ListsFor, Group, Turned, LeapfrogJoin.IsEnumeration;
      FullSizes();
      TurnedSizes();
      Outside();
      ghost var ps, was := passed[i := passed[i] + 1], values;
      values := values[i := x];
      StillFull();
      ghost var qs := Restart(i, ps);
      assert forall k :: 0 <= k < |passed| ==> lists[k] == ListAt(k);
      TurnStep(lists, passed, qs, i, was, values, done);
      Produce(qs);
    }

    // ----- the search ------------------------------------------------------------------------------------

    /** Lets the last iterator of this level move on to its next value. */
    method MoveLast() returns (moved: bool)
      requires Returning()
      modifies leapfrogIters, this`views, this`bound, this`low
      ensures moved ==> Finding()
      ensures !moved ==> Stuck()
    {
      hide Rank, Pref, Opened, Settled, Stands, ProducedBelow, Front, LeapfrogJoin.Shown, Searching, IsFirstHere, Lists, IsFirst, HasAny, Exhausted, AscendsIn;
      ShownSizes();
      ListSound(level);
      ghost var start, m := views, enumerationLevel;
      var list := itersForVar[level];
      var last := list[|list| - 1];
      assert last in list;
      BackKey(rels, m, bound, views, list, last);
      moved := NextIter(last);
      ShownSizes();
      StillCommon();
      ghost var a, v := bound[..|bound| - 1], bound[|bound| - 1];
      assert a == parentBinding[..|a|];
      if moved {
        NextSearches(rels, m, bound, start, list, last, views[last].tuple);
        assert views == start[last := View(start[last].level, views[last].tuple)];
        KeysBut(list, a, start, v);
        LastAscends(rels, a, views, list, v);
      } else {
        NextFails(rels, m, bound, start, list, last);
        BackStands(rels, m, bound, start);
      }
      Outside();
      bound, low := a, v + 1;
      assert moved ==> Ascends(itersForVar[level], |list| - 1);
    }

    lemma KeysBut(list: seq<nat>, a: seq<nat>, start: seq<View>, v: nat)
      requires |list| > 0 && |views| == |start| == |rels| && list[|list| - 1] < |views|
      requires forall i :: i in list ==> i < |rels|
      requires forall j, k :: 0 <= j < k < |list| ==> list[j] != list[k]
      requires views == start[list[|list| - 1] := views[list[|list| - 1]]]
      requires forall j :: j in list && j < |rels| && j != list[|list| - 1] ==> Key(rels[j], a, start[j]) == v
      ensures forall c :: 0 <= c < |list| - 1 ==> KeyIn(rels, a, views, list[c]) == v
    {
      hide Key;
      forall c | 0 <= c < |list| - 1 ensures KeyIn(rels, a, views, list[c]) == v {
        assert list[c] in list && list[c] != list[|list| - 1];
      }
    }

    /** Goes one level down: to the next variable, or to the enumeration when all are bound. */
    method Down()
      requires Entering()
      modifies leapfrogIters, enums, this`views, this`level, this`itersForVar, this`low
      modifies this`enums, this`values, this`groups, this`passed, this`lists, this`before, this`done
      ensures fresh(enums - old(enums)) && old(enums) <= enums && level == old(level) + 1
      ensures |bound| < enumerationLevel ==> Finding()
      ensures |bound| == enumerationLevel ==> Turning() && done == []
    {
      hide Rank, Settled, ProducedBelow, LeapfrogJoin.Common, LeapfrogJoin.Finding, LeapfrogJoin.Turning, Searching, IsFirstHere, AscendsIn, FrontOf, Standing;
      EnteringLevel();
      if level + 1 < enumerationLevel {
        OpenVariable();
        SortLevel();
        StartFinding();
      } else {
        EnterEnumeration();
        StartEnumeration();
      }
    }

    lemma EnteringLevel()
      requires Entering()
      ensures level == |bound| - 1 < enumerationLevel && |bound| <= enumerationLevel
    {
      hide LeapfrogJoin.Shown, Rank;
    }

    ghost method StartFinding()
      requires Common() && Seeks(0) && (exists k :: Ascends(itersForVar[level], k))
      requires front == FrontOf(enumerationLevel, bound) && ProducedBelow(rels, enumerationLevel, log, front)
      modifies this`low
      ensures Finding()
    {
      hide Rank, Pref, Opened, ProducedBelow, Front, LeapfrogJoin.Shown, Searching, AscendsIn, FrontOf, Lists;
      ghost var k :| Ascends(itersForVar[level], k);
      FrontOfIs(enumerationLevel, bound);
      Outside();
      low := 0;
      assert Ascends(itersForVar[level], k);
    }

    method EnterEnumeration()
      requires Entering() && |bound| == enumerationLevel
      modifies this`level
      ensures Full() && ProducedBelow(rels, enumerationLevel, log, front) && level == old(level) + 1
    {
      hide Rank, Settled, ProducedBelow, LeapfrogJoin.Shown, IsFirstHere, Front, Standing, Lists;
      AllSettled();
      FrontOfIs(enumerationLevel, bound);
      Outside();
      level := level + 1;
    }

    lemma AllSettled()
      requires Entering() && |bound| == enumerationLevel
      ensures forall i :: 0 <= i < |rels| ==> IsFirstHere(rels[i], views[i])
    {
      hide Rank, Pref, Opened, ProducedBelow, Front, LeapfrogJoin.Shown, IsFirstHere, FrontOf;
      forall i | 0 <= i < |rels| ensures IsFirstHere(rels[i], views[i]) {
        assert Settled(rels[i], |bound|, views[i]) && rels[i].Valid(enumerationLevel);
      }
    }

    /** Goes up until some iterator can move on. */
    method Backtrack() returns (found: bool)
      requires Stuck()
      modifies leapfrogIters, this`views, this`level, this`front, this`bound, this`low
      ensures found ==> Finding()
      ensures !found ==> Over()
      ensures front > old(front)
    {
      hide LeapfrogJoin.Stuck, LeapfrogJoin.Finding, LeapfrogJoin.Returning, LeapfrogJoin.Over, LeapfrogJoin.Common;
      while true
        invariant Stuck() && front >= old(front)
        decreases level
      {
        StuckLevel();
        if level == 0 {
          GiveUp();
          return false;
        }
        Up();
        ReturningLevel();
        var moved := MoveLast();
        FrontKept(moved);
        if moved {
          return true;
        }
      }
    }

    lemma StuckLevel()
      requires Stuck()
      ensures level == |bound| < enumerationLevel
    {
    }

    lemma ReturningLevel()
      requires Returning()
      ensures level == |bound| - 1 >= 0
    {
    }

    lemma FrontKept(moved: bool)
      requires if moved then Finding() else Stuck()
      ensures level == |bound| < enumerationLevel
    {
    }

    /** At the first level there is nowhere to go back to. */
    method GiveUp()
      requires Stuck() && level == 0
      modifies this`level, this`front
      ensures Over() && front > old(front)
    {
      hide Rank, ProducedBelow, Front, LeapfrogJoin.Shown, Standing, Exhausted, Limit, Lists;
      assert bound == [];
      AllDone(rels, enumerationLevel, low, log);
      Outside();
      level, front := -1, Limit(enumerationLevel);
    }

    /** After the rows of a binding: moves on at the last level where that is possible. */
    method Return() returns (found: bool)
      requires Returning()
      modifies leapfrogIters, this`views, this`level, this`front, this`bound, this`low
      ensures if found then Finding() else Over()
      ensures front >= old(front)
    {
      hide LeapfrogJoin.Stuck, LeapfrogJoin.Finding, LeapfrogJoin.Returning, LeapfrogJoin.Over, LeapfrogJoin.Common;
      while true
        invariant Returning() && front >= old(front)
        decreases level
      {
        ReturningLevel();
        var moved := MoveLast();
        FrontKept(moved);
        if moved {
          return true;
        }
        Up();
        if level < 0 {
          UpEnds();
          return false;
        }
        UpStays();
      }
    }

    lemma UpEnds()
      requires level < 0 && if |bound| > 0 then Returning() else Over()
      ensures Over()
    {
    }

    lemma UpStays()
      requires level >= 0 && if |bound| > 0 then Returning() else Over()
      ensures Returning()
    {
    }

    /** Looks for the next common value of the current variable and binds it. */
    method Intersection() returns (found: bool)
      requires Finding()
      modifies leapfrogIters, this`views, this`parentBinding, this`bound, this`front
      ensures found ==> Entering() && level == |bound| - 1 < enumerationLevel && front >= old(front)
      ensures !found ==> Stuck() && front == old(front)
      ensures old(front) < Limit(enumerationLevel) && level == old(level)
    {
      hide Rank, Pref, Opened, Settled, Stands, ProducedBelow, Front, LeapfrogJoin.Shown, Searching, Exhausted, AscendsIn, Standing, Limit, Lists;
      ghost var k :| Ascends(itersForVar[level], k);
      ghost var m := enumerationLevel;
      SearchStands(rels, m, bound, low, views, itersForVar[level]);
      FrontBelowLimit(m, bound, low);
      found := FindIntersectionForCurrentLevel(low, k);
      SearchStands(rels, m, bound, low, views, itersForVar[level]);
      StillCommonBut(found);
      Outside();
      if found {
        BetweenFronts(m, bound, low, parentBinding[level], bound + Fill(m - |bound|, 0));
        bound, front := bound + [parentBinding[level]], Front(m, bound, parentBinding[level]);
        Entered();
      }
    }

    /** The value just bound ends the binding. */
    lemma Entered()
      requires Configured() && Shown() && |itersForVar| == |parentBinding| == enumerationLevel && |values| == |rels|
      requires forall l :: 0 <= l < enumerationLevel ==> Lists(rels, l, itersForVar[l])
      requires 0 < |bound| == level + 1 <= enumerationLevel && bound == parentBinding[..|bound|] && IsRecord(|bound| - 1, bound[..|bound| - 1])
      requires forall i :: 0 <= i < |bound| ==> bound[i] < MAX_ID
      requires Standing(rels, enumerationLevel, bound, |bound|, views) && forall i :: 0 <= i < |rels| ==> Settled(rels[i], |bound|, views[i])
      requires front == Front(enumerationLevel, bound[..|bound| - 1], bound[|bound| - 1])
      requires ProducedBelow(rels, enumerationLevel, log, front)
      ensures Entering()
    {
      hide Rank, Pref, Opened, Settled, Stands, ProducedBelow, Front, LeapfrogJoin.Shown, Standing, Lists;
      assert front == FrontOf(enumerationLevel, bound);
    }

    /** Only the value of the current variable may have changed. */
    twostate lemma StillCommonBut(found: bool)
      requires old(Common()) && Shown() && |views| == |old(views)| && level == |bound| < enumerationLevel
      requires unchanged(`values, `itersForVar, `bound) && level < |parentBinding| == |old(parentBinding)|
      requires if found then parentBinding == old(parentBinding)[level := parentBinding[level]] else parentBinding == old(parentBinding)
      ensures Common()
    {
      hide LeapfrogJoin.Shown, Lists;
    }

    /** Binds values until all join variables are bound; there may be no further binding. */
    method Search() returns (found: bool)
      requires Finding() || Turning()
      modifies leapfrogIters, enums, this`views, this`level, this`front, this`bound, this`low, this`itersForVar, this`parentBinding
      modifies this`enums, this`values, this`groups, this`passed, this`lists, this`before, this`done
      ensures if found then Turning() else Over()
      ensures fresh(enums - old(enums)) && old(enums) <= enums && front >= old(front)
      ensures old(level) >= enumerationLevel ==> found && unchanged(`front, `lists, `done, `level)
    {
      hide LeapfrogJoin.Stuck, LeapfrogJoin.Over, LeapfrogJoin.Common, LeapfrogJoin.Finding, LeapfrogJoin.Turning, LeapfrogJoin.Entering, Limit;
      LevelTells();
      while level < enumerationLevel
        invariant if level < enumerationLevel then Finding() else Turning()
        invariant fresh(enums - old(enums)) && old(enums) <= enums && front >= old(front)
        invariant old(level) >= enumerationLevel ==> unchanged(`front, `lists, `done, `level)
        decreases Limit(enumerationLevel) - front, enumerationLevel - level
      {
        var intersects := Intersection();
        if intersects {
          Down();
          LevelTellsBelow();
        } else {
          var moved := Backtrack();
          if !moved {
            return false;
          }
          FindingLevel();
        }
      }
      return true;
    }

    lemma FindingLevel()
      requires Finding()
      ensures level == |bound| < enumerationLevel && front < Limit(enumerationLevel)
    {
      hide Rank, LeapfrogJoin.Shown, Front, Limit;
      FrontBelowLimit(enumerationLevel, bound, low);
    }

    /** The level tells whether values are looked for or rows are enumerated. */
    lemma LevelTells()
      requires Finding() || Turning()
      ensures if level < enumerationLevel then Finding() else Turning()
    {
      hide Rank, LeapfrogJoin.Shown, Front, Limit, ProducedBelow, LeapfrogJoin.Common;
      assert Turning() ==> Full();
      assert Full() ==> level == enumerationLevel;
      assert Finding() ==> level < enumerationLevel;
    }

    lemma LevelTellsBelow()
      requires |bound| <= enumerationLevel
      requires (|bound| < enumerationLevel ==> Finding()) && (|bound| == enumerationLevel ==> Turning())
      ensures if level < enumerationLevel then Finding() else Turning()
    {
      hide Rank, LeapfrogJoin.Shown, Front, Limit, ProducedBelow, LeapfrogJoin.Common;
      assert Turning() ==> Full();
      assert Full() ==> level == enumerationLevel;
      assert Finding() ==> level < enumerationLevel;
    }

    /** All rows with the bound values were produced. */
    method LeaveBinding()
      requires Full() && ProducedBelow(rels, enumerationLevel, log, front + 1)
      modifies this`level, this`front, this`bound
      ensures if enumerationLevel > 0 then Returning() else Over()
      ensures old(front) < front && old(front) < Limit(enumerationLevel)
    {
      hide Rank, Pref, Opened, Stands, ProducedBelow, Front, LeapfrogJoin.Shown, Limit, IsFirstHere;
      ghost var m := enumerationLevel;
      RankBelowLimit(m, bound);
      AfterBinding(rels, m, bound, log);
      Outside();
      level := level - 1;
      if enumerationLevel == 0 {
        level, bound := -1, [];
        front := Limit(m);
      } else {
        front := Front(m, bound[..m - 1], bound[m - 1] + 1);
      }
    }

    ghost predicate Valid()
      reads this, leapfrogIters, Trees(), Stores(), enums
    {
      Finding() || Turning() || Over()
    }

    /** Produces the next row of the join. */
    method Next() returns (found: bool)
      requires Valid()
      modifies leapfrogIters, enums, this
      ensures Valid() && fresh(enums - old(enums)) && old(enums) <= enums
      ensures found ==> Turning() && log == old(log) + [Tuple(parentBinding, values)]
      ensures !found ==> Over() && log == old(log)
      ensures found ==> old(front) <= front < Limit(enumerationLevel) && 0 < |done| <= |Product(lists)|
      ensures found && front == old(front) && old(level) == enumerationLevel ==> lists == old(lists) && |done| == |old(done)| + 1
    {
      hide LeapfrogJoin.Over, LeapfrogJoin.Common, LeapfrogJoin.Finding, LeapfrogJoin.Turning, LeapfrogJoin.Full, LeapfrogJoin.Returning, Limit, ProducedBelow, Product;
      Levels();
      while level >= 0
        invariant if level >= 0 then Finding() || Turning() else Over()
        invariant log == old(log) && fresh(enums - old(enums)) && old(enums) <= enums && front >= old(front)
        invariant front == old(front) && old(level) == enumerationLevel ==> unchanged(`lists, `done, `level)
        decreases Limit(enumerationLevel) - front, level >= 0
      {
        found := Search();
        if !found {
          return;
        }
        found := NextRow();
        if found {
          Progress();
          return;
        }
        LeaveBinding();
        if enumerationLevel == 0 {
          Levels();
          return false;
        }
        var more := Return();
        Levels();
      }
      return false;
    }

    lemma Levels()
      requires Finding() || Turning() || Over()
      ensures if level >= 0 then Finding() || Turning() else Over()
    {
      hide Rank, LeapfrogJoin.Shown, Front, Limit, ProducedBelow, LeapfrogJoin.Common;
      assert Turning() ==> Full();
      assert Full() ==> level == enumerationLevel;
    }

    lemma Progress()
      requires Turning() && |done| > 0
      ensures front < Limit(enumerationLevel) && 0 < |done| <= |Product(lists)| && bound == parentBinding
    {
      hide Rank, LeapfrogJoin.Shown, ProducedBelow, Product, ToCome, Limit;
      RankBelowLimit(enumerationLevel, bound);
    }

    /** Asks for rows until there are no more: every row of the join is produced, once, and nothing else.
        A row has, of every relation, a record with the terms, the values bound and the values shown.
        The values of the join variables come in lexicographic order. */
    method Drain()
      requires Valid() && log == []
      modifies leapfrogIters, enums, this
      ensures Distinct(log) && Ordered(log) && forall t :: t in log <==> InJoin(rels, enumerationLevel, t)
      ensures forall t :: t in log <==> IsRow(rels, enumerationLevel, t)
    {
      hide LeapfrogJoin.Over, LeapfrogJoin.Common, LeapfrogJoin.Finding, LeapfrogJoin.Turning, LeapfrogJoin.Full, Limit, Product, InJoin, IsRow;
      var found := Next();
      while found
        invariant Valid() && fresh(enums - old(enums)) && if found then Turning() && front < Limit(enumerationLevel) && 0 < |done| <= |Product(lists)| else Over()
        decreases found, Limit(enumerationLevel) - front, |Product(lists)| - |done|
      {
        TurningLevel();
        found := Next();
      }
      AllProduced();
    }

    lemma TurningLevel()
      requires Turning()
      ensures level == enumerationLevel
    {
      hide Rank, LeapfrogJoin.Shown, ProducedBelow, Product, ToCome, LeapfrogJoin.Common;
    }

    lemma RowsMean()
      requires Over()
      ensures forall t :: InJoin(rels, enumerationLevel, t) <==> IsRow(rels, enumerationLevel, t)
    {
      hide LeapfrogJoin.Shown, InJoin, IsRow, ProducedBelow, Rel.Valid;
      forall t ensures InJoin(rels, enumerationLevel, t) <==> IsRow(rels, enumerationLevel, t) {
        JoinMeans(rels, enumerationLevel, t);
      }
    }

    lemma AllProduced()
      requires Over()
      ensures Distinct(log) && Ordered(log) && forall t :: t in log <==> InJoin(rels, enumerationLevel, t)
      ensures forall t :: t in log <==> IsRow(rels, enumerationLevel, t)
    {
      hide Rank, LeapfrogJoin.Shown, Limit, LeapfrogJoin.Common, IsRow;
      RowsMean();
      forall t ensures t in log <==> InJoin(rels, enumerationLevel, t) {
        if InJoin(rels, enumerationLevel, t) {
          RankBelowLimit(enumerationLevel, t.b);
        }
      }
    }

    // ----- beginning -------------------------------------------------------------------------------------

    /** What the planner guarantees: different iterators over the given relations, and for each join
        variable at least one relation that has it. */
    ghost predicate Planned()
      reads leapfrogIters, Trees(), Stores()
    {
      && Configured() && enumerationLevel <= variableCount
      && (forall i, j :: 0 <= i < j < |leapfrogIters| ==> leapfrogIters[i] != leapfrogIters[j])
      && (forall i :: 0 <= i < |leapfrogIters| ==>
            leapfrogIters[i].StandsAt(rels[i].n, rels[i].s, leapfrogIters[i].level, leapfrogIters[i].currentTuple))
      && (forall l :: 0 <= l < enumerationLevel ==> SomeHas(l))
    }

    predicate HasVar(i: nat, l: nat) {
      i < |vars| && l in vars[i]
    }

    ghost predicate SomeHas(l: nat) {
      exists i: nat :: HasVar(i, l)
    }

    constructor (iters: seq<LeapfrogBptIter>, terms: seq<Record>, vars: seq<seq<nat>>, variableCount: nat, enumerationLevel: nat,
                 ghost rels: seq<Rel>)
      ensures leapfrogIters == iters && this.terms == terms && this.vars == vars && this.rels == rels && log == []
      ensures this.variableCount == variableCount && this.enumerationLevel == enumerationLevel && level == -1 && enums == {}
    {
      leapfrogIters, this.terms, this.vars, this.rels := iters, terms, vars, rels;
      this.variableCount, this.enumerationLevel := variableCount, enumerationLevel;
      parentBinding, values, level, itersForVar := [], [], -1, [];
      views, bound, log, low, front := [], [], [], 0, 0;
      enums, groups, passed, lists, before, done := {}, [], [], [], [], [];
    }

    /** The iterators that have variable `l`, in the order in which they were given. */
    method ItersFor(l: nat) returns (list: seq<nat>)
      ensures forall j, k :: 0 <= j < k < |list| ==> list[j] < list[k]
      ensures forall i: nat :: i in list <==> HasVar(i, l)
    {
      list := [];
      for i := 0 to |vars|
        invariant forall j, k :: 0 <= j < k < |list| ==> list[j] < list[k]
        invariant forall c: nat :: c in list <==> c < i && HasVar(c, l)
      {
        if HasVar(i, l) {
          assert forall j :: 0 <= j < |list| ==> list[j] in list;
          list := list + [i];
        }
      }
    }

    /** Which iterators take part in which variable, up to the first variable that no iterator has. */
    method FillItersForVar()
      requires Planned()
      modifies this`itersForVar
      ensures |itersForVar| == enumerationLevel && forall l :: 0 <= l < enumerationLevel ==> Lists(rels, l, itersForVar[l])
      ensures Planned()
    {
      hide Lists, LeapfrogJoin.Planned;
      PlannedHas();
      var table := ListAll();
      Outside();
      itersForVar := table;
    }

    method ListAll() returns (table: seq<seq<nat>>)
      requires Configured() && enumerationLevel <= variableCount && forall l :: 0 <= l < enumerationLevel ==> SomeHas(l)
      ensures |table| == enumerationLevel && forall l :: 0 <= l < enumerationLevel ==> Lists(rels, l, table[l])
    {
      hide Lists, LeapfrogJoin.Configured, LeapfrogJoin.HasVar;
      table := [];
      var l := 0;
      while l < variableCount
        invariant l == |table| <= enumerationLevel && forall k :: 0 <= k < l ==> Lists(rels, k, table[k])
      {
        var list := ItersFor(l);
        if |list| > 0 {
          VariableIsJoined(l, list);
          table := table + [list];
        } else {
          break;
        }
        l := l + 1;
      }
      assert l < enumerationLevel ==> SomeHas(l);
    }

    lemma PlannedHas()
      requires Planned()
      ensures Configured() && enumerationLevel <= variableCount && forall l :: 0 <= l < enumerationLevel ==> SomeHas(l)
    {
      hide Rank, LeapfrogBptIter.StandsAt;
    }

    lemma VariableIsJoined(l: nat, list: seq<nat>)
      requires Configured() && |list| > 0 && forall j, k :: 0 <= j < k < |list| ==> list[j] < list[k]
      requires forall i: nat :: i in list <==> HasVar(i, l)
      ensures l < enumerationLevel && Lists(rels, l, list)
    {
      assert list[0] in list;
      var j :| 0 <= j < |vars[list[0]]| && vars[list[0]][j] == l;
      assert rels[list[0]].Valid(enumerationLevel);
      forall i | 0 <= i < |rels| ensures i in list <==> l in rels[i].vars {
        assert HasVar(i, l) <==> l in vars[i];
      }
      forall i | i in list ensures i < |rels| {
        assert HasVar(i, l);
      }
    }

    /** Opens the terms of all iterators; when one has no record for its terms the join is empty. */
    method OpenAll() returns (ok: bool)
      requires Configured() && Shown()
      modifies leapfrogIters, this`views
      ensures Configured() && Shown()
      ensures ok ==> Standing(rels, enumerationLevel, [], 0, views)
      ensures ok ==> forall i :: 0 <= i < |rels| ==> Settled(rels[i], 0, views[i])
      ensures !ok ==> ProducedBelow(rels, enumerationLevel, [], Limit(enumerationLevel))
    {
      hide Rank, LeapfrogJoin.Shown, Starts, Stands, Settled, ProducedBelow, Limit;
      ShownSizes();
      var i := 0;
      while i < |leapfrogIters|
        invariant i <= |leapfrogIters| == |rels| == |views| && Shown()
        invariant forall k :: 0 <= k < i ==> Stands(rels[k], enumerationLevel, [], 0, views[k]) && Settled(rels[k], 0, views[k])
      {
        var found := OpenIter(i);
        ShownSizes();
        if !found {
          NoRows(rels, enumerationLevel, i);
          return false;
        }
        OpenedStands(enumerationLevel, rels[i], views[i]);
        i := i + 1;
      }
      return true;
    }

    /** Starts the join. */
    method Begin()
      requires Planned() && log == []
      modifies leapfrogIters, enums, this
      ensures Valid() && log == [] && fresh(enums - old(enums)) && old(enums) <= enums
    {
      hide Rank, LeapfrogBptIter.StandsAt, Lists;
      FillItersForVar();
      StartOver();
    }

    /** Begins again, as the first time. */
    method Reset()
      requires Planned() && |itersForVar| == enumerationLevel
      requires forall l :: 0 <= l < enumerationLevel ==> Lists(rels, l, itersForVar[l])
      modifies leapfrogIters, enums, this
      ensures Valid() && log == [] && fresh(enums - old(enums)) && old(enums) <= enums
    {
      hide Rank, LeapfrogBptIter.StandsAt, Lists;
      StartOver();
    }

    method StartOver()
      requires Planned() && |itersForVar| == enumerationLevel
      requires forall l :: 0 <= l < enumerationLevel ==> Lists(rels, l, itersForVar[l])
      modifies leapfrogIters, enums, this`views, this`level, this`front, this`bound, this`low, this`itersForVar, this`parentBinding
      modifies this`enums, this`values, this`groups, this`passed, this`lists, this`before, this`done, this`log
      ensures Valid() && log == [] && fresh(enums - old(enums)) && old(enums) <= enums
    {
      hide Rank, Lists, ProducedBelow, Limit, Standing, Settled, LeapfrogJoin.Finding, LeapfrogJoin.Turning, LeapfrogJoin.Planned;
      hide LeapfrogJoin.Shown, LeapfrogJoin.Entering, LeapfrogJoin.Over, LeapfrogJoin.Common;
      SetUp();
      var ok := OpenAll();
      CommonAtStart();
      level := -1;
      Outside();
      if ok {
        EnterFirst();
        Down();
      } else {
        NoneAtAll();
      }
    }

    lemma CommonAtStart()
      requires Configured() && Shown() && |itersForVar| == |parentBinding| == enumerationLevel && |values| == |rels| && bound == []
      requires forall l :: 0 <= l < enumerationLevel ==> Lists(rels, l, itersForVar[l])
      ensures Common()
    {
      hide Rank, Lists, LeapfrogJoin.Shown;
      assert bound == parentBinding[..0];
    }

    ghost method EnterFirst()
      requires Common() && level == -1 && bound == [] && log == []
      requires Standing(rels, enumerationLevel, [], 0, views) && forall i :: 0 <= i < |rels| ==> Settled(rels[i], 0, views[i])
      modifies this`front
      ensures Entering()
    {
      hide Rank, Lists, LeapfrogJoin.Shown, ProducedBelow, Standing, Settled;
      Outside();
      front := 0;
      NothingBefore();
    }

    ghost method NoneAtAll()
      requires Common() && level == -1 && bound == [] && log == []
      requires ProducedBelow(rels, enumerationLevel, [], Limit(enumerationLevel))
      modifies this`front
      ensures Over()
    {
      hide Rank, Lists, LeapfrogJoin.Shown, ProducedBelow, Limit;
      Outside();
      front := Limit(enumerationLevel);
    }

    lemma NothingBefore()
      ensures ProducedBelow(rels, enumerationLevel, [], 0)
    {
      hide Rank;
    }

    /** Nothing is bound and nothing was produced. */
    method SetUp()
      requires Planned() && |itersForVar| == enumerationLevel
      modifies this`views, this`bound, this`parentBinding, this`values, this`log
      ensures Configured() && Shown() && |parentBinding| == enumerationLevel && |values| == |rels| && bound == [] && log == []
    {
      hide Rank, LeapfrogBptIter.StandsAt;
      Outside();
      parentBinding, values := seq(enumerationLevel, _ => 0), seq(|leapfrogIters|, _ => []);
      bound, log := [], [];
      views := [];
      ghost var i := 0;
      while i < |leapfrogIters|
        invariant i == |views| <= |leapfrogIters| && Planned() && bound == [] && log == []
        invariant |parentBinding| == enumerationLevel && |values| == |leapfrogIters|
        invariant forall k :: 0 <= k < i ==> views[k] == View(leapfrogIters[k].level, leapfrogIters[k].currentTuple)
      {
        views := views + [View(leapfrogIters[i].level, leapfrogIters[i].currentTuple)];
        i := i + 1;
      }
    }
  }
}
