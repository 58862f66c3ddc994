/** The natural join of sorted relations, and how much of it lies below a point of the search. */
module NaturalJoin {
  import opened Records
  import opened Prefixes

  /** A relation as the join sees it: its records, of width `n`, have the given terms first, then the
      values of the join variables in `vars`, then those of variables that only it has.  Join variables
      are named by their place in the order in which they are bound. */
  datatype Rel = Rel(n: nat, s: seq<Record>, terms: Record, vars: seq<nat>) {
    ghost predicate Valid(m: nat) {
      && |terms| + |vars| <= n && IsRecord(|terms|, terms) && AreRecords(n, s) && Ascending(s)
      && (forall j, k :: 0 <= j < k < |vars| ==> vars[j] < vars[k])
      && (forall j :: 0 <= j < |vars| ==> vars[j] < m)
      && (forall i :: 0 <= i < |s| ==> forall j :: 0 <= j < n ==> s[i][j] < MAX_ID)
    }
  }

  /** How many of the variables come before variable `l`. */
  ghost function Opened(vars: seq<nat>, l: nat): (k: nat)
    ensures k <= |vars|
  {
    if vars == [] || vars[0] >= l then 0 else 1 + Opened(vars[1..], l)
  }

  lemma {:induction false} OpenedIs(vars: seq<nat>, l: nat)
    requires forall j, k :: 0 <= j < k < |vars| ==> vars[j] < vars[k]
    ensures forall j :: 0 <= j < |vars| ==> (vars[j] < l <==> j < Opened(vars, l))
    ensures Opened(vars, l + 1) == Opened(vars, l) + if l in vars then 1 else 0
    ensures l in vars ==> Opened(vars, l) < |vars| && vars[Opened(vars, l)] == l
  {
    if vars != [] {
      OpenedIs(vars[1..], l);
      assert vars == [vars[0]] + vars[1..];
    }
  }

  /** How the records of `r` start once the variables before `|b|` have the values `b`. */
  ghost function Pref(r: Rel, b: seq<nat>): (p: Record)
    ensures |p| == |r.terms| + Opened(r.vars, |b|)
  {
    r.terms + seq(Opened(r.vars, |b|), j requires 0 <= j < Opened(r.vars, |b|) => if r.vars[j] < |b| then b[r.vars[j]] else 0)
  }

  /** Binding one more variable makes the start longer just in the relations that have it. */
  lemma PrefGrows(m: nat, r: Rel, b: seq<nat>, x: nat)
    requires r.Valid(m)
    ensures Pref(r, b + [x]) == if |b| in r.vars then Pref(r, b) + [x] else Pref(r, b)
  {
    OpenedIs(r.vars, |b|);
    var k := Opened(r.vars, |b|);
    assert forall j :: 0 <= j < k ==> (b + [x])[r.vars[j]] == b[r.vars[j]];
  }

  lemma PrefIsRecord(m: nat, r: Rel, b: seq<nat>)
    requires r.Valid(m) && IsRecord(|b|, b)
    ensures IsRecord(|Pref(r, b)|, Pref(r, b)) && |Pref(r, b)| <= r.n
  {
    OpenedIs(r.vars, |b|);
  }

  /** `r` has a record for the values `b`. */
  ghost predicate Has(r: Rel, b: seq<nat>) {
    exists x :: x in r.s && Starts(Pref(r, b), x)
  }

  /** With more values bound the start is longer. */
  lemma {:induction false} PrefStarts(m: nat, r: Rel, b: seq<nat>, k: nat)
    requires r.Valid(m) && k <= |b|
    ensures Starts(Pref(r, b[..k]), Pref(r, b))
    decreases |b| - k
  {
    if k == |b| {
      assert b[..k] == b;
    } else {
      PrefStarts(m, r, b, k + 1);
      assert b[..k + 1] == b[..k] + [b[k]];
      PrefGrows(m, r, b[..k], b[k]);
      StartsTrans(Pref(r, b[..k]), Pref(r, b[..k + 1]), Pref(r, b));
    }
  }

  lemma StartsTrans(p: Record, q: Record, r: Record)
    requires Starts(p, q) && Starts(q, r)
    ensures Starts(p, r)
  {
    assert r[..|p|] == r[..|q|][..|p|];
  }

  /** A row of the join: values for the join variables, and for each relation the rest of its record. */
  datatype Tuple = Tuple(b: seq<nat>, values: seq<Record>)

  /** The natural join of the relations: every relation has the record that the row says it has. */
  ghost predicate InJoin(rels: seq<Rel>, m: nat, t: Tuple) {
    && IsRecord(m, t.b) && |t.values| == |rels|
    && forall i :: 0 <= i < |rels| ==> Pref(rels[i], t.b) + t.values[i] in rels[i].s
  }

  /** The same with every place of every record spelled out: relation `i` has a record with its terms first,
      the row's values of its join variables next, and what the row says for it last. */
  ghost predicate IsRow(rels: seq<Rel>, m: nat, t: Tuple) {
    && IsRecord(m, t.b) && |t.values| == |rels|
    && forall i :: 0 <= i < |rels| ==> Gives(rels[i], t.b, t.values[i])
  }

  ghost predicate Gives(r: Rel, b: seq<nat>, rest: Record) {
    exists x :: x in r.s && Fits(r, b, rest, x)
  }

  ghost predicate Fits(r: Rel, b: seq<nat>, rest: Record, x: Record) {
    var c, n := |r.terms|, |r.vars|;
    && |x| == c + n + |rest|
    && (forall k :: 0 <= k < c ==> x[k] == r.terms[k])
    && (forall j :: 0 <= j < n ==> r.vars[j] < |b| && x[c + j] == b[r.vars[j]])
    && (forall k :: 0 <= k < |rest| ==> x[c + n + k] == rest[k])
  }

  lemma {:induction false} PrefIs(m: nat, r: Rel, b: seq<nat>)
    requires r.Valid(m) && |b| == m
    ensures var c, n := |r.terms|, |r.vars|;
      && |Pref(r, b)| == c + n && Pref(r, b)[..c] == r.terms
      && forall j :: 0 <= j < n ==> r.vars[j] < m && Pref(r, b)[c..][j] == b[r.vars[j]]
  {
    OpenedIs(r.vars, m);
    var n := |r.vars|;
    assert 0 < n ==> r.vars[n - 1] < m;
    var vs := seq(n, j requires 0 <= j < n => b[r.vars[j]]);
    assert Pref(r, b) == r.terms + vs;
    assert (r.terms + vs)[|r.terms|..] == vs;
  }

  lemma FitsMeans(m: nat, r: Rel, b: seq<nat>, rest: Record, x: Record)
    requires r.Valid(m) && |b| == m
    ensures x == Pref(r, b) + rest <==> Fits(r, b, rest, x)
  {
    hide Rel.Valid, Pref;
    PrefIs(m, r, b);
    var p, c, n := Pref(r, b), |r.terms|, |r.vars|;
    assert p == p[..c] + p[c..];
    if x == p + rest {
      assert forall j :: 0 <= j < n ==> x[c + j] == p[c..][j];
    }
    if Fits(r, b, rest, x) {
      assert x[..c] == r.terms && x[c + n..] == rest;
      forall j | 0 <= j < n ensures x[c..c + n][j] == p[c..][j] {
        assert x[c + j] == b[r.vars[j]];
      }
      assert x[c..c + n] == p[c..];
      assert x == x[..c] + x[c..c + n] + x[c + n..];
    }
  }

  /** The rows of the join, place by place. */
  lemma JoinMeans(rels: seq<Rel>, m: nat, t: Tuple)
    requires forall i :: 0 <= i < |rels| ==> rels[i].Valid(m)
    ensures InJoin(rels, m, t) <==> IsRow(rels, m, t)
  {
    hide Rel.Valid, Pref, Fits;
    if |t.b| == m && |t.values| == |rels| {
      forall i | 0 <= i < |rels|
        ensures Pref(rels[i], t.b) + t.values[i] in rels[i].s <==> Gives(rels[i], t.b, t.values[i])
      {
        var y := Pref(rels[i], t.b) + t.values[i];
        FitsMeans(m, rels[i], t.b, t.values[i], y);
        if x :| x in rels[i].s && Fits(rels[i], t.b, t.values[i], x) {
          FitsMeans(m, rels[i], t.b, t.values[i], x);
        }
      }
    }
  }

  lemma JoinHas(rels: seq<Rel>, m: nat, t: Tuple, i: nat)
    requires InJoin(rels, m, t) && i < |rels|
    ensures Has(rels[i], t.b)
  {
    var p := Pref(rels[i], t.b);
    assert Starts(p, p + t.values[i]);
  }

  // ----- all combinations of the rest values --------------------------------------------------------------

  /** What the records that start with `p` have beyond it. */
  ghost function Tails(n: nat, s: seq<Record>, p: Record): (ts: seq<Record>)
    requires |p| <= n
    ensures |ts| == |Group(n, s, p)|
  {
    var g := Group(n, s, p);
    seq(|g|, k requires 0 <= k < |g| => if |p| <= |g[k]| then g[k][|p|..] else [])
  }

  ghost predicate Distinct<T>(s: seq<T>) {
    forall i, j :: 0 <= i < j < |s| ==> s[i] != s[j]
  }

  lemma TailsAre(n: nat, s: seq<Record>, p: Record)
    requires |p| <= n && IsRecord(|p|, p) && AreRecords(n, s) && Ascending(s)
    ensures forall v :: v in Tails(n, s, p) <==> p + v in s
    ensures Distinct(Tails(n, s, p))
  {
    hide Rank, Group, Ascending;
    GroupHas(n, s, p);
    var g, ts := Group(n, s, p), Tails(n, s, p);
    forall k | 0 <= k < |g| ensures g[k] in s && ts[k] == g[k][|p|..] && g[k] == p + ts[k] {
      assert g[k] in g;
    }
    forall v | p + v in s ensures v in ts {
      assert Starts(p, p + v);
      var k :| 0 <= k < |g| && g[k] == p + v;
      assert ts[k] == v;
    }
    AscendingIsDistinct(g);
  }

  lemma AscendingIsDistinct(s: seq<Record>)
    requires Ascending(s)
    ensures Distinct(s)
  {
    hide Rank;
    forall i, j | 0 <= i < j < |s| ensures s[i] != s[j] {
      assert Rank(s[i]) < Rank(s[j]);
    }
  }

  /** All ways to pick one element of each list, the first list varying fastest. */
  ghost function Product(lists: seq<seq<Record>>): seq<seq<Record>> {
    if lists == [] then [[]] else Spread(lists[0], Product(lists[1..]))
  }

  ghost function Spread(list: seq<Record>, rest: seq<seq<Record>>): seq<seq<Record>> {
    if rest == [] then [] else Heads(list, rest[0]) + Spread(list, rest[1..])
  }

  ghost function Heads(list: seq<Record>, t: seq<Record>): (r: seq<seq<Record>>)
    ensures |r| == |list| && forall k :: 0 <= k < |r| ==> r[k] == [list[k]] + t
  {
    seq(|list|, k requires 0 <= k < |list| => [list[k]] + t)
  }

  lemma {:induction false} SpreadHas(list: seq<Record>, rest: seq<seq<Record>>)
    ensures forall t :: t in Spread(list, rest) <==> |t| > 0 && t[0] in list && t[1..] in rest
  {
    if rest != [] {
      SpreadHas(list, rest[1..]);
      forall t ensures t in Heads(list, rest[0]) <==> |t| > 0 && t[0] in list && t[1..] == rest[0] {
        if |t| > 0 && t[0] in list && t[1..] == rest[0] {
          var k :| 0 <= k < |list| && list[k] == t[0];
          assert t == [t[0]] + t[1..] == Heads(list, rest[0])[k];
        }
      }
    }
  }

  lemma {:induction false} SpreadDistinct(list: seq<Record>, rest: seq<seq<Record>>)
    requires Distinct(list) && Distinct(rest)
    ensures Distinct(Spread(list, rest))
  {
    if rest != [] {
      assert Distinct(rest[1..]);
      SpreadDistinct(list, rest[1..]);
      SpreadHas(list, rest[1..]);
      var a, b := Heads(list, rest[0]), Spread(list, rest[1..]);
      forall i, j | 0 <= i < |a| && 0 <= j < |b| ensures a[i] != b[j] {
        assert b[j] in b && a[i][1..] == rest[0];
      }
      forall i, j | 0 <= i < j < |a| ensures a[i] != a[j] {
        assert a[i][0] == list[i] && a[j][0] == list[j];
      }
    }
  }

  lemma {:induction false} ProductHas(lists: seq<seq<Record>>, t: seq<Record>)
    ensures t in Product(lists) <==> |t| == |lists| && forall i :: 0 <= i < |lists| ==> t[i] in lists[i]
    decreases |lists|
  {
    if lists != [] {
      SpreadHas(lists[0], Product(lists[1..]));
      if |t| > 0 {
        ProductHas(lists[1..], t[1..]);
        assert |t| == |lists| ==> forall i :: 0 < i < |t| ==> t[i] == t[1..][i - 1] && lists[i] == lists[1..][i - 1];
      }
    }
  }

  lemma {:induction false} ProductDistinct(lists: seq<seq<Record>>)
    requires forall i :: 0 <= i < |lists| ==> Distinct(lists[i])
    ensures Distinct(Product(lists))
    decreases |lists|
  {
    if lists != [] {
      ProductDistinct(lists[1..]);
      SpreadDistinct(lists[0], Product(lists[1..]));
    }
  }

  // ----- the odometer ------------------------------------------------------------------------------------

  /** The wheels of the odometer stand at elements of their lists; the first one may still be before its
      first element. */
  ghost predicate Wheels(lists: seq<seq<Record>>, at: seq<int>) {
    && |at| == |lists|
    && forall i :: 0 <= i < |at| ==> (if i == 0 then -1 else 0) <= at[i] < |lists[i]| && lists[i] != []
  }

  ghost predicate AllOn(lists: seq<seq<Record>>, at: seq<int>) {
    |at| == |lists| && forall i :: 0 <= i < |at| ==> 0 <= at[i] < |lists[i]|
  }

  /** The combination that the wheels show. */
  ghost function Combination(lists: seq<seq<Record>>, at: seq<int>): (t: seq<Record>)
    requires AllOn(lists, at)
    ensures |t| == |lists| && forall i :: 0 <= i < |t| ==> t[i] == lists[i][at[i]]
  {
    seq(|lists|, i requires 0 <= i < |lists| => lists[i][at[i]])
  }

  /** The combinations that are still to come. */
  ghost function ToCome(lists: seq<seq<Record>>, at: seq<int>): seq<seq<Record>>
    requires Wheels(lists, at)
    decreases |lists|
  {
    if lists == [] then []
    else Heads(lists[0][at[0] + 1..], Combination(lists[1..], at[1..])) + Spread(lists[0], ToCome(lists[1..], at[1..]))
  }

  ghost function Zeros(n: nat): seq<int> {
    seq(n, _ => 0)
  }

  /** After a step at wheel `i` the wheels before it stand at their first elements. */
  ghost function Stepped(at: seq<int>, i: nat): (r: seq<int>)
    requires i < |at|
    ensures |r| == |at| && forall k :: 0 <= k < |at| ==> r[k] == if k < i then 0 else if k == i then at[i] + 1 else at[k]
  {
    Zeros(i) + [at[i] + 1] + at[i + 1..]
  }

  /** Wheel `i` is the first one that is not at its last element. */
  ghost predicate StepsAt(lists: seq<seq<Record>>, at: seq<int>, i: nat) {
    && |at| == |lists| && i < |at| && at[i] + 1 < |lists[i]|
    && forall k :: 0 <= k < i ==> at[k] + 1 == |lists[k]|
  }

  lemma HeadsSplit(list: seq<Record>, t: seq<Record>)
    requires list != []
    ensures Heads(list, t) == [[list[0]] + t] + Heads(list[1..], t)
  {
  }

  lemma SpreadOne(list: seq<Record>, t: seq<Record>, rest: seq<seq<Record>>)
    requires list != []
    ensures Spread(list, [t] + rest) == [[list[0]] + t] + (Heads(list[1..], t) + Spread(list, rest))
  {
    hide Heads;
    HeadsSplit(list, t);
    assert ([t] + rest)[1..] == rest && ([t] + rest)[0] == t;
    assert Spread(list, [t] + rest) == Heads(list, t) + Spread(list, rest);
    Regrouped([[list[0]] + t], Heads(list[1..], t), Spread(list, rest));
  }

  lemma Regrouped<T>(a: seq<T>, b: seq<T>, c: seq<T>)
    ensures (a + b) + c == a + (b + c)
  {
  }

  lemma ToComeUnfolds(lists: seq<seq<Record>>, at: seq<int>)
    requires Wheels(lists, at) && lists != []
    ensures Wheels(lists[1..], at[1..]) && AllOn(lists[1..], at[1..])
    ensures ToCome(lists, at)
      == Heads(lists[0][at[0] + 1..], Combination(lists[1..], at[1..])) + Spread(lists[0], ToCome(lists[1..], at[1..]))
  {
    hide Heads, Spread, Combination;
  }

  lemma CombinationUnfolds(lists: seq<seq<Record>>, at: seq<int>)
    requires AllOn(lists, at) && lists != []
    ensures Combination(lists, at) == [lists[0][at[0]]] + Combination(lists[1..], at[1..])
  {
  }

  lemma SteppedUnfolds(lists: seq<seq<Record>>, at: seq<int>, i: nat)
    requires Wheels(lists, at) && StepsAt(lists, at, i)
    ensures AllOn(lists, Stepped(at, i)) && Wheels(lists, Stepped(at, i))
    ensures i == 0 ==> Stepped(at, i)[1..] == at[1..] && Stepped(at, i)[0] == at[0] + 1
    ensures i > 0 ==> Stepped(at, i)[1..] == Stepped(at[1..], i - 1) && Stepped(at, i)[0] == 0 && StepsAt(lists[1..], at[1..], i - 1)
    ensures Wheels(lists[1..], at[1..])
  {
  }

  /** A step shows the next combination. */
  lemma {:induction false} StepShowsNext(lists: seq<seq<Record>>, at: seq<int>, i: nat)
    requires Wheels(lists, at) && StepsAt(lists, at, i)
    ensures AllOn(lists, Stepped(at, i)) && Wheels(lists, Stepped(at, i))
    ensures ToCome(lists, at) == [Combination(lists, Stepped(at, i))] + ToCome(lists, Stepped(at, i))
    decreases |lists|
  {
    hide Heads, Spread, ToCome, Combination, Stepped;
    var next := Stepped(at, i);
    SteppedUnfolds(lists, at, i);
    ToComeUnfolds(lists, at);
    ToComeUnfolds(lists, next);
    CombinationUnfolds(lists, next);
    if i == 0 {
      HeadsSplit(lists[0][at[0] + 1..], Combination(lists[1..], at[1..]));
      assert lists[0][at[0] + 1..][1..] == lists[0][next[0] + 1..];
    } else {
      StepShowsNext(lists[1..], at[1..], i - 1);
      HeadsOfNothing(lists[0][at[0] + 1..], Combination(lists[1..], at[1..]));
      SpreadOne(lists[0], Combination(lists[1..], next[1..]), ToCome(lists[1..], next[1..]));
    }
  }

  lemma HeadsOfNothing(list: seq<Record>, t: seq<Record>)
    requires list == []
    ensures Heads(list, t) == []
  {
  }

  /** When every wheel is at its last element nothing is to come. */
  lemma {:induction false} NothingToCome(lists: seq<seq<Record>>, at: seq<int>)
    requires Wheels(lists, at) && forall k :: 0 <= k < |at| ==> at[k] + 1 == |lists[k]|
    ensures ToCome(lists, at) == []
    decreases |lists|
  {
    if lists != [] {
      NothingToCome(lists[1..], at[1..]);
    }
  }

  lemma ProductUnfolds(lists: seq<seq<Record>>, t: seq<Record>, rest: seq<seq<Record>>)
    requires lists != [] && lists[0] != [] && Product(lists[1..]) == [t] + rest
    ensures Product(lists) == [[lists[0][0]] + t] + (Heads(lists[0][1..], t) + Spread(lists[0], rest))
  {
    hide Spread;
    SpreadOne(lists[0], t, rest);
  }

  /** From the first elements on, everything but the first combination is to come. */
  lemma {:induction false} AllToCome(lists: seq<seq<Record>>)
    requires forall i :: 0 <= i < |lists| ==> lists[i] != []
    ensures AllOn(lists, Zeros(|lists|)) && Wheels(lists, Zeros(|lists|))
    ensures Product(lists) == [Combination(lists, Zeros(|lists|))] + ToCome(lists, Zeros(|lists|))
    decreases |lists|
  {
    if lists == [] {
      assert Combination(lists, Zeros(0)) == [];
    } else {
      hide Heads, Spread, ToCome, Combination, Product;
      var z, y := Zeros(|lists|), Zeros(|lists| - 1);
      assert z[1..] == y;
      AllToCome(lists[1..]);
      ProductUnfolds(lists, Combination(lists[1..], y), ToCome(lists[1..], y));
      CombinationUnfolds(lists, z);
      ToComeUnfolds(lists, z);
    }
  }

  /** Before the first step everything is to come. */
  lemma StartOfOdometer(lists: seq<seq<Record>>)
    requires lists != [] && forall i :: 0 <= i < |lists| ==> lists[i] != []
    ensures var at := Zeros(|lists|)[0 := -1]; Wheels(lists, at) && ToCome(lists, at) == Product(lists)
  {
    hide ToCome, Product, Combination, Wheels, StepsAt, Stepped;
    var at := Zeros(|lists|)[0 := -1];
    AllToCome(lists);
    FirstStep(lists);
    StepShowsNext(lists, at, 0);
  }

  lemma FirstStep(lists: seq<seq<Record>>)
    requires lists != [] && forall i :: 0 <= i < |lists| ==> lists[i] != []
    ensures var at := Zeros(|lists|)[0 := -1]; Wheels(lists, at) && StepsAt(lists, at, 0) && Stepped(at, 0) == Zeros(|lists|)
  {
    var at := Zeros(|lists|)[0 := -1];
    assert Stepped(at, 0) == Zeros(|lists|);
  }
}
