/** The states of a leapfrog join as values: where its iterators stand, and which rows were produced. */
module LeapfrogSearch {
  import opened Records
  import opened Prefixes
  import opened NaturalJoin

  /** Where an iterator stands. */
  datatype View = View(level: int, tuple: Record)

  /** The level of an iterator when its variables before `l` are opened. */
  ghost function LevelOf(r: Rel, l: nat): int {
    |r.terms| - 1 + Opened(r.vars, l)
  }

  /** The iterator stands at a record that has the bound values. */
  ghost predicate Agrees(r: Rel, b: seq<nat>, w: View) {
    w.tuple in r.s && Starts(Pref(r, b), w.tuple)
  }

  /** No record that agrees with the current one up to the current level comes before it. */
  ghost predicate IsFirstHere(r: Rel, w: View) {
    && -1 <= w.level < |w.tuple|
    && forall x :: x in r.s && Starts(w.tuple[..w.level + 1], x) ==> Rank(w.tuple) <= Rank(x)
  }

  /** An iterator without variables from `l` on stands where its enumeration has to begin. */
  ghost predicate Settled(r: Rel, l: nat, w: View) {
    (forall j :: 0 <= j < |r.vars| ==> r.vars[j] < l) ==> IsFirstHere(r, w)
  }

  /** The values `b` are bound and the variables before `l` are opened. */
  ghost predicate Standing(rels: seq<Rel>, m: nat, b: seq<nat>, l: nat, views: seq<View>) {
    && |views| == |rels| && IsRecord(|b|, b) && |b| <= m
    && forall i :: 0 <= i < |rels| ==> Stands(rels[i], m, b, l, views[i])
  }

  ghost predicate Stands(r: Rel, m: nat, b: seq<nat>, l: nat, w: View) {
    r.Valid(m) && Agrees(r, b, w) && w.level == LevelOf(r, l)
  }

  /** `list` names the iterators that have variable `l`. */
  ghost predicate Lists(rels: seq<Rel>, l: nat, list: seq<nat>) {
    && list != [] && (forall j, k :: 0 <= j < k < |list| ==> list[j] != list[k])
    && (forall i :: i in list ==> i < |rels|)
    && (forall i :: 0 <= i < |rels| ==> (i in list <==> l in rels[i].vars))
  }

  /** The value of the variable after `b` in the current record. */
  ghost function Key(r: Rel, b: seq<nat>, w: View): nat {
    if |Pref(r, b)| < |w.tuple| then w.tuple[|Pref(r, b)|] else 0
  }

  /** All iterators of the list have records with `y` as the next value. */
  ghost predicate Common(rels: seq<Rel>, b: seq<nat>, list: seq<nat>, y: nat) {
    forall i :: i in list && i < |rels| ==> Has(rels[i], b + [y])
  }

  /** No iterator of the list is past a common value that is at least `low`. */
  ghost predicate NonePassed(rels: seq<Rel>, b: seq<nat>, low: nat, views: seq<View>, list: seq<nat>) {
    forall y, i :: y >= low && Common(rels, b, list, y) && i in list && i < |rels| && i < |views| ==> Key(rels[i], b, views[i]) <= y
  }

  /** The state before an intersection is looked for: values from `low` on are wanted. */
  ghost predicate Searching(rels: seq<Rel>, m: nat, b: seq<nat>, low: nat, views: seq<View>, list: seq<nat>) {
    && |b| < m && low <= MAX_ID && Standing(rels, m, b, |b| + 1, views) && Lists(rels, |b|, list)
    && (forall i :: 0 <= i < |rels| ==> Settled(rels[i], |b|, views[i]))
    && NonePassed(rels, b, low, views, list)
  }

  // ----- keys --------------------------------------------------------------------------------------------

  /** A record for `b` has a value for the variable after it, and it is below the largest identifier. */
  lemma KeyIsValue(m: nat, r: Rel, b: seq<nat>, x: Record)
    requires r.Valid(m) && |b| in r.vars && x in r.s && Starts(Pref(r, b), x)
    ensures |Pref(r, b)| < |x| == r.n && x[|Pref(r, b)|] < MAX_ID && Starts(Pref(r, b + [x[|Pref(r, b)|]]), x)
    ensures |Pref(r, b)| == LevelOf(r, |b| + 1)
  {
    OpenedIs(r.vars, |b|);
    var p := Pref(r, b);
    var i :| 0 <= i < |r.s| && r.s[i] == x;
    PrefGrows(m, r, b, x[|p|]);
  }

  lemma KeyOf(m: nat, r: Rel, b: seq<nat>, x: Record, y: nat)
    requires r.Valid(m) && |b| in r.vars && x in r.s && Starts(Pref(r, b + [y]), x)
    ensures Starts(Pref(r, b), x) && |Pref(r, b)| < |x| && x[|Pref(r, b)|] == y
  {
    PrefGrows(m, r, b, y);
    var p := Pref(r, b);
    assert (p + [y])[..|p|] == p;
    assert x[..|p|] == x[..|p| + 1][..|p|];
  }

  /** Full bindings of rows that agree with `b` give common values. */
  lemma RowsGiveCommon(rels: seq<Rel>, m: nat, b: seq<nat>, list: seq<nat>, t: Tuple)
    requires forall i :: 0 <= i < |rels| ==> rels[i].Valid(m)
    requires |b| < m == |t.b| && InJoin(rels, m, t) && t.b[..|b|] == b
    ensures Common(rels, b, list, t.b[|b|])
  {
    hide Pref, Has, InJoin;
    forall i | i in list && i < |rels| ensures Has(rels[i], b + [t.b[|b|]]) {
      JoinHas(rels, m, t, i);
      HasBefore(m, rels[i], t.b, |b| + 1);
      assert t.b[..|b| + 1] == b + [t.b[|b|]] by { InJoinLength(rels, m, t); }
    }
  }

  lemma InJoinLength(rels: seq<Rel>, m: nat, t: Tuple)
    requires InJoin(rels, m, t)
    ensures IsRecord(m, t.b)
  {
  }

  lemma HasBefore(m: nat, r: Rel, b: seq<nat>, k: nat)
    requires r.Valid(m) && k <= |b| && Has(r, b)
    ensures Has(r, b[..k])
  {
    hide Pref, Starts;
    var x :| x in r.s && Starts(Pref(r, b), x);
    PrefStarts(m, r, b, k);
    StartsTrans(Pref(r, b[..k]), Pref(r, b), x);
  }

  // ----- the front: rows are produced in the order of their bindings ----------------------------------------

  /** The first full binding that has the values `b` and then at least `low`. */
  ghost function Front(m: nat, b: seq<nat>, low: nat): nat
    requires |b| < m
  {
    Rank(Low(m, b + Fill(m - |b|, 0), |b|, low))
  }

  /** The bindings of the rows come in ascending order. */
  ghost predicate Ordered(log: seq<Tuple>) {
    forall i, j :: 0 <= i < j < |log| ==> Rank(log[i].b) <= Rank(log[j].b)
  }

  /** Exactly the rows whose bindings come before the front were produced, each of them once and in order. */
  ghost predicate ProducedBelow(rels: seq<Rel>, m: nat, log: seq<Tuple>, front: nat) {
    Distinct(log) && Ordered(log) && forall t :: t in log <==> InJoin(rels, m, t) && Rank(t.b) < front
  }

  lemma FrontMoves(rels: seq<Rel>, m: nat, log: seq<Tuple>, f: nat, g: nat)
    requires ProducedBelow(rels, m, log, f) && f <= g
    requires forall t :: InJoin(rels, m, t) ==> !(f <= Rank(t.b) < g)
    ensures ProducedBelow(rels, m, log, g)
  {
  }

  lemma Padded(m: nat, b: seq<nat>)
    requires |b| <= m && IsRecord(|b|, b)
    ensures IsRecord(m, b + Fill(m - |b|, 0)) && (b + Fill(m - |b|, 0))[..|b|] == b
  {
  }

  /** Bindings between two fronts with the same `b` have the values `b` and then one in between. */
  lemma BetweenFronts(m: nat, b: seq<nat>, low: nat, x: nat, c: seq<nat>)
    requires |b| < m && IsRecord(|b|, b) && low <= MAX_ID && x <= MAX_ID && IsRecord(m, c)
    ensures Front(m, b, low) <= Rank(c) < Front(m, b, x) ==> c[..|b|] == b && low <= c[|b|] < x
    ensures low <= x ==> Front(m, b, low) <= Front(m, b, x)
    ensures low < x ==> Front(m, b, low) < Front(m, b, x)
  {
    hide Rank, Low, High;
    var t := b + Fill(m - |b|, 0);
    Padded(m, b);
    RangeMeaning(m, t, |b|, low, c);
    RangeMeaning(m, t, |b|, x, c);
    var high := Low(m, t, |b|, x);
    BoundsAreRecords(m, t, |b|, x);
    LowIs(m, t, |b|, x);
    RangeMeaning(m, t, |b|, x, high);
    if low <= x {
      RangeMeaning(m, t, |b|, low, high);
    }
    if low < x {
      BoundsAreRecords(m, t, |b|, low);
      LowIs(m, t, |b|, low);
      SmallerAt(m, Low(m, t, |b|, low), high, |b|);
    }
  }

  lemma LowIs(m: nat, t: Record, l: nat, x: nat)
    requires |t| == m && l < m
    ensures Low(m, t, l, x)[..l] == t[..l] && Low(m, t, l, x)[l] == x
  {
  }

  /** Bindings from the front on, up to the next value of the last bound variable, have the values `b`. */
  lemma BetweenLevels(m: nat, b: seq<nat>, low: nat, c: seq<nat>)
    requires 0 < |b| < m && IsRecord(|b|, b) && b[|b| - 1] < MAX_ID && low <= MAX_ID && IsRecord(m, c)
    ensures var a := b[..|b| - 1]; Front(m, b, low) <= Rank(c) < Front(m, a, b[|b| - 1] + 1) ==> c[..|b|] == b && c[|b|] >= low
    ensures Front(m, b, low) < Front(m, b[..|b| - 1], b[|b| - 1] + 1)
  {
    hide Rank, Low, High, Front;
    var k := |b| - 1;
    var a := b[..k];
    assert IsRecord(|a|, a);
    BetweenFronts(m, a, b[k], b[k] + 1, c);
    FrontInside(m, b, low);
    if Front(m, b, low) <= Rank(c) < Front(m, a, b[k] + 1) {
      assert c[..|b|] == c[..k] + [c[k]];
      assert b == a + [b[k]];
      FrontMeans(m, b, low, c);
    }
  }

  lemma FrontMeans(m: nat, b: seq<nat>, low: nat, c: seq<nat>)
    requires |b| < m && IsRecord(|b|, b) && low <= MAX_ID && IsRecord(m, c) && c[..|b|] == b && Front(m, b, low) <= Rank(c)
    ensures c[|b|] >= low
  {
    hide Rank, Low, High;
    var t := b + Fill(m - |b|, 0);
    Padded(m, b);
    RangeMeaning(m, t, |b|, low, c);
    BelowHigh(m, t, |b|, c);
  }

  /** Binding one more value does not move the front back, and not beyond the next value. */
  lemma FrontInside(m: nat, b: seq<nat>, low: nat)
    requires 0 < |b| < m && IsRecord(|b|, b) && b[|b| - 1] < MAX_ID && low <= MAX_ID
    ensures Front(m, b[..|b| - 1], b[|b| - 1]) <= Front(m, b, low) < Front(m, b[..|b| - 1], b[|b| - 1] + 1)
    ensures low == 0 ==> Front(m, b, low) == Front(m, b[..|b| - 1], b[|b| - 1])
  {
    hide Rank, High;
    var k := |b| - 1;
    var a := b[..k];
    Padded(m, a);
    Padded(m, b);
    var t, s := a + Fill(m - k, 0), b + Fill(m - |b|, 0);
    var c := Low(m, s, |b|, low);
    BoundsAreRecords(m, s, |b|, low);
    assert c[..k] == a == t[..k] && c[k] == b[k];
    AboveLow(m, t, k, b[k], c);
    var d := Low(m, t, k, b[k] + 1);
    BoundsAreRecords(m, t, k, b[k] + 1);
    assert d[..k] == a && d[k] == b[k] + 1;
    SmallerAt(m, c, d, k);
    if low == 0 {
      assert c == Low(m, t, k, b[k]);
    }
  }

  // ----- what the steps of the search keep -------------------------------------------------------------------

  /** The first record from a key on is the first one here, keeps the bound values and has that key or a larger one. */
  lemma FirstStands(m: nat, r: Rel, b: seq<nat>, l: nat, w: View, key: nat, x: Record)
    requires Stands(r, m, b, l, w) && l <= |b| + 1 && |Pref(r, b)| <= w.level
    requires 0 <= w.level < r.n && IsFirst(r.s, w.tuple, w.level, key, x)
    ensures Stands(r, m, b, l, View(w.level, x)) && IsFirstHere(r, View(w.level, x)) && x[w.level] >= key
  {
    hide Rank, Pref, Opened;
    var p := Pref(r, b);
    assert x[..|p|] == x[..w.level][..|p|] == w.tuple[..|p|];
    var i :| 0 <= i < |r.s| && r.s[i] == x;
    forall y | y in r.s && Starts(x[..w.level + 1], y) ensures Rank(x) <= Rank(y) {
      assert y[..w.level] == y[..w.level + 1][..w.level] == x[..w.level];
      assert y[w.level] == y[..w.level + 1][w.level] == x[w.level];
    }
  }

  /** Key of an iterator of the list. */
  lemma ListKey(rels: seq<Rel>, m: nat, b: seq<nat>, low: nat, views: seq<View>, list: seq<nat>, i: nat)
    requires Searching(rels, m, b, low, views, list) && i in list
    ensures i < |rels| && i < |views| && Stands(rels[i], m, b, |b| + 1, views[i]) && |b| in rels[i].vars
    ensures 0 <= views[i].level == |Pref(rels[i], b)| < |views[i].tuple| == rels[i].n
    ensures Key(rels[i], b, views[i]) == views[i].tuple[views[i].level] < MAX_ID
  {
    hide Rank, Pref, Opened;
    KeyIsValue(m, rels[i], b, views[i].tuple);
  }

  lemma SeekKeeps(rels: seq<Rel>, m: nat, b: seq<nat>, low: nat, views: seq<View>, list: seq<nat>, i: nat, j: nat, x: Record)
    requires Searching(rels, m, b, low, views, list) && i in list && j in list && |views| == |rels| && i < |rels| && j < |rels|
    requires 0 <= views[i].level < rels[i].n && IsFirst(rels[i].s, views[i].tuple, views[i].level, Key(rels[j], b, views[j]), x)
    ensures var w := View(views[i].level, x);
      && Searching(rels, m, b, low, views[i := w], list) && IsFirstHere(rels[i], w)
      && Key(rels[i], b, w) >= Key(rels[j], b, views[j])
  {
    hide Rank, Pref, Opened, Common, Has, IsFirst, From, Starts, IsFirstHere, Lists, Key;
    var max := Key(rels[j], b, views[j]);
    var w := View(views[i].level, x);
    ListKey(rels, m, b, low, views, list, i);
    FirstStands(m, rels[i], b, |b| + 1, views[i], max, x);
    KeyIs(rels[i], b, w);
    forall y | y >= low && Common(rels, b, list, y) ensures Key(rels[i], b, w) <= y {
      assert Key(rels[j], b, views[j]) <= y;
      CommonAfter(rels, m, b, list, i, views[i], max, y, x);
    }
  }

  lemma KeyIs(r: Rel, b: seq<nat>, w: View)
    requires 0 <= w.level == |Pref(r, b)| < |w.tuple|
    ensures Key(r, b, w) == w.tuple[w.level]
  {
  }

  /** A common value from `key` on is not below the first value from `key` on. */
  lemma CommonAfter(rels: seq<Rel>, m: nat, b: seq<nat>, list: seq<nat>, i: nat, w: View, key: nat, y: nat, x: Record)
    requires i in list && i < |rels| && Stands(rels[i], m, b, |b| + 1, w) && |b| in rels[i].vars
    requires Common(rels, b, list, y) && y >= key && w.level == |Pref(rels[i], b)| < |w.tuple|
    requires IsFirst(rels[i].s, w.tuple, w.level, key, x)
    ensures w.level < |x| && x[w.level] <= y
  {
    hide Pref, Opened, Rank;
    var r := rels[i];
    assert Has(r, b + [y]);
    var z :| z in r.s && Starts(Pref(r, b + [y]), z);
    KeyOf(m, r, b, z, y);
    assert From(w.tuple, w.level, key, z);
    var a, c :| 0 <= a < |r.s| && r.s[a] == x && 0 <= c < |r.s| && r.s[c] == z;
    if x[w.level] > y {
      assert z[..w.level] == x[..w.level];
      SmallerAt(r.n, z, x, w.level);
    }
  }

  /** No row has the values `b` and then at least `low`. */
  ghost predicate Exhausted(rels: seq<Rel>, m: nat, b: seq<nat>, low: nat) {
    forall t :: InJoin(rels, m, t) && |b| < |t.b| && t.b[..|b|] == b ==> t.b[|b|] < low
  }

  lemma NothingFrom(rels: seq<Rel>, m: nat, b: seq<nat>, list: seq<nat>, i: nat, w: View, key: nat, y: nat)
    requires i in list && i < |rels| && Stands(rels[i], m, b, |b| + 1, w) && |b| in rels[i].vars
    requires Common(rels, b, list, y) && y >= key && w.level == |Pref(rels[i], b)| < |w.tuple|
    ensures HasAny(rels[i].s, w.tuple, w.level, key)
  {
    hide Pref, Opened, Rank;
    var r := rels[i];
    assert Has(r, b + [y]);
    var z :| z in r.s && Starts(Pref(r, b + [y]), z);
    KeyOf(m, r, b, z, y);
    assert From(w.tuple, w.level, key, z);
  }

  /** When some iterator has nothing from the largest key on, there is no further intersection. */
  lemma SeekFails(rels: seq<Rel>, m: nat, b: seq<nat>, low: nat, views: seq<View>, list: seq<nat>, i: nat, j: nat)
    requires Searching(rels, m, b, low, views, list) && i in list && j in list && |views| == |rels| && i < |rels| && j < |rels|
    requires 0 <= views[i].level && !HasAny(rels[i].s, views[i].tuple, views[i].level, Key(rels[j], b, views[j]))
    ensures Exhausted(rels, m, b, low)
  {
    hide Rank, Pref, Opened, Common, Has, HasAny, Starts, Lists, Key, Settled, InJoin;
    ListKey(rels, m, b, low, views, list, i);
    forall t | InJoin(rels, m, t) && |b| < |t.b| && t.b[..|b|] == b ensures t.b[|b|] < low {
      InJoinLength(rels, m, t);
      RowsGiveCommon(rels, m, b, list, t);
      if t.b[|b|] >= low {
        assert Key(rels[j], b, views[j]) <= t.b[|b|];
        NothingFrom(rels, m, b, list, i, views[i], Key(rels[j], b, views[j]), t.b[|b|]);
      }
    }
  }

  /** All iterators of the list stand at the same value: it is the least common one, and it is bound. */
  lemma FoundBinds(rels: seq<Rel>, m: nat, b: seq<nat>, low: nat, views: seq<View>, list: seq<nat>, x: nat, log: seq<Tuple>)
    requires Searching(rels, m, b, low, views, list)
    requires forall i :: i in list && i < |rels| ==> Key(rels[i], b, views[i]) == x && IsFirstHere(rels[i], views[i])
    requires ProducedBelow(rels, m, log, Front(m, b, low)) && x >= low
    ensures x < MAX_ID && Standing(rels, m, b + [x], |b| + 1, views) && ProducedBelow(rels, m, log, Front(m, b, x))
    ensures forall i :: 0 <= i < |rels| ==> Settled(rels[i], |b| + 1, views[i])
  {
    hide Rank, Pref, Opened, Common, Has, IsFirstHere, Key, InJoin, Front, Starts;
    assert list[0] in list;
    ListKey(rels, m, b, low, views, list, list[0]);
    forall i | 0 <= i < |rels| ensures Stands(rels[i], m, b + [x], |b| + 1, views[i]) && Settled(rels[i], |b| + 1, views[i]) {
      BoundStands(rels, m, b, low, views, list, x, i);
    }
    forall t | InJoin(rels, m, t) ensures !(Front(m, b, low) <= Rank(t.b) < Front(m, b, x)) {
      InJoinLength(rels, m, t);
      BetweenFronts(m, b, low, x, t.b);
      if t.b[..|b|] == b && low <= t.b[|b|] < x {
        RowsGiveCommon(rels, m, b, list, t);
      }
    }
    BetweenFronts(m, b, low, x, b + Fill(m - |b|, 0));
    FrontMoves(rels, m, log, Front(m, b, low), Front(m, b, x));
  }

  lemma BoundStands(rels: seq<Rel>, m: nat, b: seq<nat>, low: nat, views: seq<View>, list: seq<nat>, x: nat, i: nat)
    requires Searching(rels, m, b, low, views, list) && i < |rels|
    requires i in list ==> Key(rels[i], b, views[i]) == x && IsFirstHere(rels[i], views[i])
    ensures Stands(rels[i], m, b + [x], |b| + 1, views[i]) && Settled(rels[i], |b| + 1, views[i])
  {
    hide Rank, Pref, Opened, Common, Has, IsFirstHere, InJoin, Starts;
    PrefGrows(m, rels[i], b, x);
    if i in list {
      KeyIsValue(m, rels[i], b, views[i].tuple);
    }
  }

  /** The state between levels: everything before the front of `b` was produced, and what lies below it is
      to be searched next. */
  ghost function FrontOf(m: nat, b: seq<nat>): nat
    requires |b| <= m
  {
    if |b| == 0 then 0 else Front(m, b[..|b| - 1], b[|b| - 1])
  }

  lemma FrontOfIs(m: nat, b: seq<nat>)
    requires |b| <= m && IsRecord(|b|, b) && forall i :: 0 <= i < |b| ==> b[i] < MAX_ID
    ensures |b| < m ==> Front(m, b, 0) == FrontOf(m, b)
    ensures |b| == m ==> Rank(b) == FrontOf(m, b)
  {
    hide Rank, Low, Front;
    if |b| == 0 {
      assert b == [];
      FrontOfNothing(m);
    } else if |b| < m {
      FrontInside(m, b, 0);
    } else {
      FrontOfAll(m, b);
    }
  }

  lemma FrontOfNothing(m: nat)
    ensures m > 0 ==> Front(m, [], 0) == 0
    ensures Rank([]) == 0
  {
    if m > 0 {
      ZerosComeFirst(m);
      assert Low(m, [] + Fill(m, 0), 0, 0) == Fill(m, 0);
    }
  }

  lemma FrontOfAll(m: nat, b: seq<nat>)
    requires 0 < m == |b|
    ensures Front(m, b[..m - 1], b[m - 1]) == Rank(b)
  {
    hide Rank;
    LastLow(m, b);
  }

  lemma LastLow(m: nat, b: seq<nat>)
    requires 0 < m == |b|
    ensures Low(m, b[..m - 1] + Fill(m - |b[..m - 1]|, 0), |b[..m - 1]|, b[m - 1]) == b
  {
    var a := b[..m - 1];
    var t := a + Fill(m - |a|, 0);
    assert t[..m - 1] == a && Fill(0, 0) == [];
    assert a + [b[m - 1]] == b;
    assert Low(m, t, m - 1, b[m - 1]) == t[..m - 1] + [b[m - 1]] + Fill(0, 0);
  }

  /** The iterators of the list go down: the search for the next variable can begin. */
  lemma DownStands(m: nat, r: Rel, b: seq<nat>, w: View, x: Record)
    requires Stands(r, m, b, |b|, w) && |b| in r.vars && w.level + 1 < r.n && IsFirst(r.s, w.tuple, w.level + 1, 0, x)
    ensures Stands(r, m, b, |b| + 1, View(w.level + 1, x)) && IsFirstHere(r, View(w.level + 1, x))
    ensures forall y :: Has(r, b + [y]) ==> Key(r, b, View(w.level + 1, x)) <= y
  {
    hide Rank, Pref, Opened;
    OpenedIs(r.vars, |b|);
    KeyIsValue(m, r, b, w.tuple);
    var v := View(w.level + 1, w.tuple);
    FirstStands(m, r, b, |b| + 1, v, 0, x);
    KeyIs(r, b, View(w.level + 1, x));
    forall y | Has(r, b + [y]) ensures Key(r, b, View(w.level + 1, x)) <= y {
      assert Common([r], b, [0], y);
      CommonAfter([r], m, b, [0], 0, v, 0, y, x);
    }
  }

  lemma RoomBelow(m: nat, r: Rel, b: seq<nat>, w: View)
    requires Stands(r, m, b, |b|, w) && |b| in r.vars
    ensures -1 <= w.level && w.level + 1 < r.n && |w.tuple| == r.n
  {
    OpenedIs(r.vars, |b|);
    KeyIsValue(m, r, b, w.tuple);
  }

  /** The state before the search moves on at the level of the last bound variable. */
  ghost predicate Backing(rels: seq<Rel>, m: nat, b: seq<nat>, views: seq<View>) {
    && 0 < |b| && Standing(rels, m, b, |b|, views)
    && (forall i :: 0 <= i < |b| ==> b[i] < MAX_ID)
    && (forall i :: 0 <= i < |rels| ==> Settled(rels[i], |b| - 1, views[i]))
  }

  lemma BackKey(rels: seq<Rel>, m: nat, b: seq<nat>, views: seq<View>, list: seq<nat>, i: nat)
    requires Backing(rels, m, b, views) && Lists(rels, |b| - 1, list) && i in list
    ensures i < |rels| && |views| == |rels| && Stands(rels[i], m, b[..|b| - 1], |b|, views[i]) && |b| - 1 in rels[i].vars
    ensures 0 <= views[i].level == |Pref(rels[i], b[..|b| - 1])| < |views[i].tuple| == rels[i].n
    ensures views[i].tuple[views[i].level] == b[|b| - 1]
  {
    hide Rank, Pref, Opened;
    var k := |b| - 1;
    assert b[..k] + [b[k]] == b;
    KeyOf(m, rels[i], b[..k], views[i].tuple, b[k]);
    KeyIsValue(m, rels[i], b[..k], views[i].tuple);
  }

  lemma BackStands(rels: seq<Rel>, m: nat, b: seq<nat>, views: seq<View>)
    requires Backing(rels, m, b, views)
    ensures Standing(rels, m, b[..|b| - 1], |b|, views)
  {
    hide Rank, Pref, Opened;
    forall i | 0 <= i < |rels| ensures Stands(rels[i], m, b[..|b| - 1], |b|, views[i]) {
      PrefStarts(m, rels[i], b, |b| - 1);
      StartsTrans(Pref(rels[i], b[..|b| - 1]), Pref(rels[i], b), views[i].tuple);
    }
  }

  /** The last iterator moved on: the search continues at its level. */
  lemma NextSearches(rels: seq<Rel>, m: nat, b: seq<nat>, views: seq<View>, list: seq<nat>, i: nat, x: Record)
    requires Backing(rels, m, b, views) && Lists(rels, |b| - 1, list) && i in list && i < |rels| == |views|
    requires 0 <= views[i].level < rels[i].n && IsFirst(rels[i].s, views[i].tuple, views[i].level, b[|b| - 1] + 1, x)
    ensures var w := View(views[i].level, x);
      && Searching(rels, m, b[..|b| - 1], b[|b| - 1] + 1, views[i := w], list) && IsFirstHere(rels[i], w)
      && Key(rels[i], b[..|b| - 1], w) > b[|b| - 1]
    ensures forall j :: j in list && j < |rels| && j != i ==> Key(rels[j], b[..|b| - 1], views[j]) == b[|b| - 1]
  {
    hide Rank, Pref, Opened, Common, Has, IsFirst, From, Starts, IsFirstHere, Key;
    var k := |b| - 1;
    var a, low, w := b[..k], b[k] + 1, View(views[i].level, x);
    BackStands(rels, m, b, views);
    BackKey(rels, m, b, views, list, i);
    FirstStands(m, rels[i], a, |b|, views[i], low, x);
    KeyIs(rels[i], a, w);
    forall j | j in list && j < |rels| ensures Key(rels[j], a, views[j]) == b[k] {
      BackKey(rels, m, b, views, list, j);
      KeyIs(rels[j], a, views[j]);
    }
    forall y | y >= low && Common(rels, a, list, y) ensures Key(rels[i], a, w) <= y {
      CommonAfter(rels, m, a, list, i, views[i], low, y, x);
    }
  }

  /** The last iterator has no further value: nothing is left at its level. */
  lemma NextFails(rels: seq<Rel>, m: nat, b: seq<nat>, views: seq<View>, list: seq<nat>, i: nat)
    requires Backing(rels, m, b, views) && Lists(rels, |b| - 1, list) && i in list && i < |rels| == |views|
    requires 0 <= views[i].level && !HasAny(rels[i].s, views[i].tuple, views[i].level, b[|b| - 1] + 1)
    ensures Exhausted(rels, m, b[..|b| - 1], b[|b| - 1] + 1)
  {
    hide Rank, Pref, Opened, Common, Has, HasAny, Starts, InJoin;
    var k := |b| - 1;
    var a := b[..k];
    BackKey(rels, m, b, views, list, i);
    forall t | InJoin(rels, m, t) && k < |t.b| && t.b[..k] == a ensures t.b[k] < b[k] + 1 {
      InJoinLength(rels, m, t);
      RowsGiveCommon(rels, m, a, list, t);
      if t.b[k] >= b[k] + 1 {
        NothingFrom(rels, m, a, list, i, views[i], b[k] + 1, t.b[k]);
      }
    }
  }

  /** Nothing is left below `b`: every row up to the next value of its last variable was produced. */
  lemma LevelDone(rels: seq<Rel>, m: nat, b: seq<nat>, low: nat, log: seq<Tuple>)
    requires 0 < |b| < m && IsRecord(|b|, b) && b[|b| - 1] < MAX_ID && low <= MAX_ID
    requires ProducedBelow(rels, m, log, Front(m, b, low)) && Exhausted(rels, m, b, low)
    ensures ProducedBelow(rels, m, log, Front(m, b[..|b| - 1], b[|b| - 1] + 1))
    ensures Front(m, b, low) < Front(m, b[..|b| - 1], b[|b| - 1] + 1)
  {
    hide Rank, Front, InJoin;
    var g := Front(m, b[..|b| - 1], b[|b| - 1] + 1);
    forall t | InJoin(rels, m, t) ensures !(Front(m, b, low) <= Rank(t.b) < g) {
      InJoinLength(rels, m, t);
      BetweenLevels(m, b, low, t.b);
    }
    Padded(m, b);
    BetweenLevels(m, b, low, b + Fill(m - |b|, 0));
    FrontMoves(rels, m, log, Front(m, b, low), g);
  }

  /** Nothing is left at the first level: every row of the join was produced. */
  lemma AllDone(rels: seq<Rel>, m: nat, low: nat, log: seq<Tuple>)
    requires 0 < m && low <= MAX_ID
    requires ProducedBelow(rels, m, log, Front(m, [], low)) && Exhausted(rels, m, [], low)
    ensures ProducedBelow(rels, m, log, Limit(m)) && Front(m, [], low) < Limit(m)
  {
    hide Rank, Front, InJoin, Limit;
    forall t | InJoin(rels, m, t) ensures !(Front(m, [], low) <= Rank(t.b) < Limit(m)) {
      InJoinLength(rels, m, t);
      if Front(m, [], low) <= Rank(t.b) {
        assert t.b[..0] == [];
        FrontMeans(m, [], low, t.b);
      }
    }
    FrontBelowLimit(m, [], low);
    FrontMoves(rels, m, log, Front(m, [], low), Limit(m));
  }

  lemma FrontBelowLimit(m: nat, b: seq<nat>, low: nat)
    requires |b| < m && IsRecord(|b|, b) && low <= MAX_ID
    ensures Front(m, b, low) < Limit(m)
  {
    hide Rank, Limit;
    Padded(m, b);
    BoundsAreRecords(m, b + Fill(m - |b|, 0), |b|, low);
    RankBelowLimit(m, Low(m, b + Fill(m - |b|, 0), |b|, low));
  }

  lemma SearchStands(rels: seq<Rel>, m: nat, b: seq<nat>, low: nat, views: seq<View>, list: seq<nat>)
    requires Searching(rels, m, b, low, views, list)
    ensures |b| < m && low <= MAX_ID && IsRecord(|b|, b) && |views| == |rels| && Standing(rels, m, b, |b| + 1, views)
    ensures forall i :: 0 <= i < |rels| ==> Settled(rels[i], |b|, views[i])
  {
  }

  /** The order of the list does not matter. */
  lemma SearchingPermuted(rels: seq<Rel>, m: nat, b: seq<nat>, low: nat, views: seq<View>, list: seq<nat>, other: seq<nat>)
    requires Searching(rels, m, b, low, views, list) && Lists(rels, |b|, other) && forall i :: i in other <==> i in list
    ensures Searching(rels, m, b, low, views, other)
  {
    hide Has, Key, Settled, Stands;
    forall y | Common(rels, b, other, y) ensures Common(rels, b, list, y) {
    }
  }

  // ----- changing levels -----------------------------------------------------------------------------------

  /** The iterators of the list went up one level. */
  ghost predicate Lowered(before: seq<View>, list: seq<nat>, views: seq<View>) {
    && |views| == |before|
    && forall i :: 0 <= i < |views| ==>
         views[i] == if i in list then View(before[i].level - 1, before[i].tuple) else before[i]
  }

  lemma UpBacks(rels: seq<Rel>, m: nat, b: seq<nat>, before: seq<View>, list: seq<nat>, views: seq<View>)
    requires 0 < |b| < m && Standing(rels, m, b, |b| + 1, before) && Lists(rels, |b|, list) && Lowered(before, list, views)
    requires (forall i :: 0 <= i < |b| ==> b[i] < MAX_ID) && forall i :: 0 <= i < |rels| ==> Settled(rels[i], |b|, before[i])
    ensures Backing(rels, m, b, views)
  {
    hide Rank, Pref, Opened, IsFirstHere, Starts;
    forall i | 0 <= i < |rels| ensures Stands(rels[i], m, b, |b|, views[i]) && Settled(rels[i], |b| - 1, views[i]) {
      assert Stands(rels[i], m, b, |b| + 1, before[i]) && Settled(rels[i], |b|, before[i]);
      OpenedIs(rels[i].vars, |b|);
      if |b| in rels[i].vars {
        var j :| 0 <= j < |rels[i].vars| && rels[i].vars[j] == |b|;
      }
    }
  }

  /** The iterators of the list went down one level, to the first record there. */
  ghost predicate Deepened(rels: seq<Rel>, before: seq<View>, list: seq<nat>, views: seq<View>) {
    && |views| == |before| == |rels|
    && forall i :: 0 <= i < |views| ==>
         if i in list then
           && before[i].level >= -1 && views[i].level == before[i].level + 1
           && IsFirst(rels[i].s, before[i].tuple, before[i].level + 1, 0, views[i].tuple)
         else views[i] == before[i]
  }

  lemma DownSearches(rels: seq<Rel>, m: nat, b: seq<nat>, before: seq<View>, list: seq<nat>, views: seq<View>)
    requires |b| < m && Standing(rels, m, b, |b|, before) && Lists(rels, |b|, list) && Deepened(rels, before, list, views)
    requires forall i :: 0 <= i < |rels| ==> Settled(rels[i], |b|, before[i])
    ensures Searching(rels, m, b, 0, views, list)
    ensures forall i :: i in list ==> i < |rels| && IsFirstHere(rels[i], views[i])
  {
    hide Rank, Pref, Opened, IsFirstHere, Starts, IsFirst, Key, Has;
    forall i | 0 <= i < |rels|
      ensures Stands(rels[i], m, b, |b| + 1, views[i]) && Settled(rels[i], |b|, views[i])
      ensures i in list ==> IsFirstHere(rels[i], views[i]) && forall y :: Has(rels[i], b + [y]) ==> Key(rels[i], b, views[i]) <= y
    {
      assert Stands(rels[i], m, b, |b|, before[i]);
      if i in list {
        RoomBelow(m, rels[i], b, before[i]);
        DownStands(m, rels[i], b, before[i], views[i].tuple);
        assert views[i] == View(before[i].level + 1, views[i].tuple);
      } else {
        OpenedIs(rels[i].vars, |b|);
      }
    }
  }

  /** After the terms were opened nothing is bound yet. */
  lemma OpenedStands(m: nat, r: Rel, w: View)
    requires r.Valid(m) && w.tuple in r.s && Starts(r.terms, w.tuple) && w.level == |r.terms| - 1
    requires forall x :: x in r.s && Starts(r.terms, x) ==> Rank(w.tuple) <= Rank(x)
    ensures Stands(r, m, [], 0, w) && Settled(r, 0, w)
  {
    hide Rank;
    assert Pref(r, []) == r.terms;
  }

  /** A relation without records for its terms makes the join empty. */
  lemma NoRows(rels: seq<Rel>, m: nat, i: nat)
    requires i < |rels| && rels[i].Valid(m) && !exists x :: x in rels[i].s && Starts(rels[i].terms, x)
    ensures ProducedBelow(rels, m, [], Limit(m))
  {
    hide Rank, Limit;
    forall t ensures !InJoin(rels, m, t) {
      if InJoin(rels, m, t) {
        JoinHas(rels, m, t, i);
        HasTerms(rels[i], t.b);
      }
    }
  }

  lemma HasTerms(r: Rel, b: seq<nat>)
    requires Has(r, b)
    ensures exists x :: x in r.s && Starts(r.terms, x)
  {
    var x :| x in r.s && Starts(Pref(r, b), x);
    assert Starts(r.terms, Pref(r, b));
    StartsTrans(r.terms, Pref(r, b), x);
  }

  // ----- rows with the same binding ------------------------------------------------------------------------

  ghost function Rows(b: seq<nat>, vs: seq<seq<Record>>): (ts: seq<Tuple>)
    ensures |ts| == |vs| && forall i :: 0 <= i < |ts| ==> ts[i] == Tuple(b, vs[i])
  {
    seq(|vs|, i requires 0 <= i < |vs| => Tuple(b, vs[i]))
  }

  /** For each relation, what its records for `b` have beyond the bound values. */
  ghost predicate AreTails(rels: seq<Rel>, b: seq<nat>, lists: seq<seq<Record>>) {
    && |lists| == |rels|
    && forall i :: 0 <= i < |rels| ==> |Pref(rels[i], b)| <= rels[i].n && lists[i] == Tails(rels[i].n, rels[i].s, Pref(rels[i], b))
  }

  /** The combinations of the rest values are exactly the rows with binding `b`. */
  lemma RowsOfBinding(rels: seq<Rel>, m: nat, b: seq<nat>, lists: seq<seq<Record>>, t: Tuple)
    requires IsRecord(m, b) && AreTails(rels, b, lists) && t.b == b && forall i :: 0 <= i < |rels| ==> rels[i].Valid(m)
    ensures InJoin(rels, m, t) <==> t.values in Product(lists)
  {
    hide Product, Tails, Pref;
    ProductHas(lists, t.values);
    forall i | 0 <= i < |rels| && i < |t.values| ensures t.values[i] in lists[i] <==> Pref(rels[i], b) + t.values[i] in rels[i].s {
      PrefIsRecord(m, rels[i], b);
      TailsAre(rels[i].n, rels[i].s, Pref(rels[i], b));
    }
  }

  /** Once every combination was produced, every row with binding `b` was. */
  lemma BindingDone(rels: seq<Rel>, m: nat, b: seq<nat>, lists: seq<seq<Record>>, log: seq<Tuple>)
    requires IsRecord(m, b) && AreTails(rels, b, lists) && forall i :: 0 <= i < |rels| ==> rels[i].Valid(m)
    requires ProducedBelow(rels, m, log, Rank(b))
    ensures ProducedBelow(rels, m, log + Rows(b, Product(lists)), Rank(b) + 1)
  {
    hide Rank, Product, Tails, Pref, InJoin;
    var rows := Rows(b, Product(lists));
    var all := log + rows;
    forall i | 0 <= i < |lists| ensures Distinct(lists[i]) {
      PrefIsRecord(m, rels[i], b);
      TailsAre(rels[i].n, rels[i].s, Pref(rels[i], b));
    }
    ProductDistinct(lists);
    forall t ensures t in all <==> InJoin(rels, m, t) && Rank(t.b) < Rank(b) + 1 {
      RowIn(rels, m, b, lists, t);
      if t.b == b {
        RowsOfBinding(rels, m, b, lists, t);
      } else if InJoin(rels, m, t) {
        InJoinLength(rels, m, t);
        RankIsInjective(m, t.b, b);
      }
    }
    forall i, j | 0 <= i < |log| && 0 <= j < |rows| ensures log[i] != rows[j] {
      assert log[i] in log;
    }
    DistinctConcat(log, rows);
    forall i, j | 0 <= i < j < |all| ensures Rank(all[i].b) <= Rank(all[j].b) {
      assert i < |log| ==> all[i] == log[i] && log[i] in log;
      assert i >= |log| ==> all[i] == rows[i - |log|];
      assert if j < |log| then all[j] == log[j] else all[j] == rows[j - |log|];
    }
  }

  lemma RowIn(rels: seq<Rel>, m: nat, b: seq<nat>, lists: seq<seq<Record>>, t: Tuple)
    ensures t in Rows(b, Product(lists)) <==> t.b == b && t.values in Product(lists)
  {
    hide Product;
    var vs := Product(lists);
    if t.b == b && t.values in vs {
      var i :| 0 <= i < |vs| && vs[i] == t.values;
      assert Rows(b, vs)[i] == t;
    }
  }

  lemma DistinctConcat<T>(a: seq<T>, b: seq<T>)
    requires Distinct(a) && Distinct(b) && forall i, j :: 0 <= i < |a| && 0 <= j < |b| ==> a[i] != b[j]
    ensures Distinct(a + b)
  {
  }

  /** After the rows of `b` the front is the next value of the last variable, or the end. */
  lemma AfterBinding(rels: seq<Rel>, m: nat, b: seq<nat>, log: seq<Tuple>)
    requires |b| == m && IsRecord(m, b) && (forall i :: 0 <= i < m ==> b[i] < MAX_ID)
    requires ProducedBelow(rels, m, log, Rank(b) + 1)
    ensures m == 0 ==> ProducedBelow(rels, m, log, Limit(m))
    ensures m > 0 ==> ProducedBelow(rels, m, log, Front(m, b[..m - 1], b[m - 1] + 1))
    ensures m > 0 ==> Rank(b) < Front(m, b[..m - 1], b[m - 1] + 1)
  {
    hide Rank, Front, InJoin;
    FrontOfIs(m, b);
    if m == 0 {
      FrontOfNothing(0);
      assert b == [];
    } else {
      var k := m - 1;
      var a := b[..k];
      var g := Front(m, a, b[k] + 1);
      BetweenFronts(m, a, b[k], b[k] + 1, b);
      forall t | InJoin(rels, m, t) ensures !(Rank(b) + 1 <= Rank(t.b) < g) {
        InJoinLength(rels, m, t);
        BetweenFronts(m, a, b[k], b[k] + 1, t.b);
        if t.b[..k] == a && t.b[k] == b[k] {
          assert t.b == t.b[..k] + [t.b[k]] == b;
        }
      }
      FrontMoves(rels, m, log, Rank(b) + 1, g);
    }
  }
}
