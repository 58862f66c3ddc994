/** Ranges of records that agree up to some identifier. */
module Prefixes {
  import opened Records

  function Fill(n: nat, v: nat): (r: Record)
    ensures |r| == n && forall i :: 0 <= i < n ==> r[i] == v
  {
    seq(n, _ => v)
  }

  /** The record of zeros comes first. */
  lemma {:induction false} ZerosComeFirst(n: nat)
    ensures IsRecord(n, Fill(n, 0)) && Rank(Fill(n, 0)) == 0
  {
    if n > 0 {
      ZerosComeFirst(n - 1);
      assert Fill(n, 0)[..n - 1] == Fill(n - 1, 0);
    }
  }

  /** The smallest record that starts like `t` up to `l` and goes on with `key`. */
  function Low(n: nat, t: Record, l: nat, key: nat): Record
    requires l < n && |t| == n
  {
    t[..l] + [key] + Fill(n - l - 1, 0)
  }

  /** The greatest record that starts like `t` up to `l`. */
  function High(n: nat, t: Record, l: nat): Record
    requires l <= n && |t| == n
  {
    t[..l] + Fill(n - l, MAX_ID)
  }

  lemma BoundsAreRecords(n: nat, t: Record, l: nat, key: nat)
    requires IsRecord(n, t) && l <= n && key <= MAX_ID
    ensures l < n ==> IsRecord(n, Low(n, t, l, key))
    ensures IsRecord(n, High(n, t, l))
  {
  }

  lemma SmallerAt(n: nat, a: Record, b: Record, i: nat)
    requires IsRecord(n, a) && IsRecord(n, b) && i < n && a[..i] == b[..i] && a[i] < b[i]
    ensures Rank(a) < Rank(b)
  {
    FirstDifferenceDecides(n, a, b, i);
  }

  lemma AgreeBelow(a: Record, b: Record, i: nat, l: nat)
    requires i <= l <= |a| && l <= |b| && a[..l] == b[..l]
    ensures a[..i] == b[..i]
  {
    assert a[..i] == a[..l][..i];
  }

  /** `r` starts like `t` up to `l` and goes on with at least `key`. */
  predicate From(t: Record, l: nat, key: nat, r: Record) {
    l < |t| && l < |r| && r[..l] == t[..l] && r[l] >= key
  }

  /** Between the bounds lie just the records that start like `t` and go on with at least `key`. */
  lemma RangeMeaning(n: nat, t: Record, l: nat, key: nat, r: Record)
    requires IsRecord(n, t) && l < n && key <= MAX_ID && IsRecord(n, r)
    ensures Rank(Low(n, t, l, key)) <= Rank(r) <= Rank(High(n, t, l)) <==> From(t, l, key, r)
  {
    hide Rank;
    var low, high := Low(n, t, l, key), High(n, t, l);
    BoundsAreRecords(n, t, l, key);
    assert low[..l] == t[..l] == high[..l];
    if r[..l] == t[..l] {
      BelowHigh(n, t, l, r);
      if r[l] >= key {
        AboveLow(n, t, l, key, r);
      } else {
        SmallerAt(n, r, low, l);
      }
    } else {
      Outside(n, t, l, key, r);
    }
  }

  lemma BelowHigh(n: nat, t: Record, l: nat, r: Record)
    requires IsRecord(n, t) && l <= n && IsRecord(n, r) && r[..l] == t[..l]
    ensures Rank(r) <= Rank(High(n, t, l))
  {
    hide Rank;
    var high := High(n, t, l);
    BoundsAreRecords(n, t, l, 0);
    assert high[..l] == t[..l];
    assert forall j :: 0 <= j < l ==> r[j] == r[..l][j] && high[j] == high[..l][j];
    var i := Agreement(n, r, high);
    if i < n {
      SmallerAt(n, r, high, i);
    }
  }

  lemma AboveLow(n: nat, t: Record, l: nat, key: nat, r: Record)
    requires IsRecord(n, t) && l < n && key <= MAX_ID && IsRecord(n, r) && r[..l] == t[..l] && r[l] >= key
    ensures Rank(Low(n, t, l, key)) <= Rank(r)
  {
    hide Rank;
    var low := Low(n, t, l, key);
    BoundsAreRecords(n, t, l, key);
    assert low[..l] == t[..l];
    assert forall j :: 0 <= j < l ==> r[j] == r[..l][j] && low[j] == low[..l][j];
    var i := Agreement(n, low, r);
    if i < n {
      SmallerAt(n, low, r, i);
    }
  }

  lemma Outside(n: nat, t: Record, l: nat, key: nat, r: Record)
    requires IsRecord(n, t) && l < n && key <= MAX_ID && IsRecord(n, r) && r[..l] != t[..l]
    ensures !(Rank(Low(n, t, l, key)) <= Rank(r) <= Rank(High(n, t, l)))
  {
    hide Rank;
    var low, high := Low(n, t, l, key), High(n, t, l);
    BoundsAreRecords(n, t, l, key);
    assert low[..l] == t[..l] == high[..l];
    var i := Agreement(n, r, t);
    assert i < l by {
      if i >= l {
        AgreeBelow(r, t, l, i);
      }
    }
    AgreeBelow(low, t, i, l);
    AgreeBelow(high, t, i, l);
    assert low[i] == low[..l][i] == t[..l][i] && high[i] == high[..l][i] == t[..l][i];
    if r[i] < t[i] {
      SmallerAt(n, r, low, i);
    } else {
      SmallerAt(n, high, r, i);
    }
  }

  // ----- what a search in such a range finds -----------------------------------------------------------

  /** `r` is the first record of `s` of that kind. */
  ghost predicate IsFirst(s: seq<Record>, t: Record, l: nat, key: nat, r: Record) {
    r in s && From(t, l, key, r) && forall x :: x in s && From(t, l, key, x) ==> Rank(r) <= Rank(x)
  }

  ghost predicate HasAny(s: seq<Record>, t: Record, l: nat, key: nat) {
    exists x :: x in s && From(t, l, key, x)
  }

  lemma FoundIsFirst(n: nat, s: seq<Record>, t: Record, l: nat, key: nat)
    requires AreRecords(n, s) && Ascending(s) && IsRecord(n, t) && l < n && key <= MAX_ID
    ensures var g := Place(s, Rank(Low(n, t, l, key)));
      if g < |s| && Rank(s[g]) <= Rank(High(n, t, l)) then IsFirst(s, t, l, key, s[g]) && HasAny(s, t, l, key) else !HasAny(s, t, l, key)
  {
    hide Rank, Low, High, Place, From;
    var g := Place(s, Rank(Low(n, t, l, key)));
    if g < |s| && Rank(s[g]) <= Rank(High(n, t, l)) {
      RangeMeaning(n, t, l, key, s[g]);
    }
    forall x | x in s && From(t, l, key, x) ensures g < |s| && Rank(s[g]) <= Rank(x) <= Rank(High(n, t, l)) {
      RangeMeaning(n, t, l, key, x);
      var k :| 0 <= k < |s| && s[k] == x;
    }
  }

  // ----- records with a given start ----------------------------------------------------------------------

  function Lowest(n: nat, p: Record): Record
    requires |p| <= n
  {
    p + Fill(n - |p|, 0)
  }

  function Highest(n: nat, p: Record): Record
    requires |p| <= n
  {
    p + Fill(n - |p|, MAX_ID)
  }

  predicate Starts(p: Record, r: Record) {
    |p| <= |r| && r[..|p|] == p
  }

  lemma PrefixMeaning(n: nat, p: Record, r: Record)
    requires |p| <= n && IsRecord(|p|, p) && IsRecord(n, r)
    ensures IsRecord(n, Lowest(n, p)) && IsRecord(n, Highest(n, p))
    ensures Rank(Lowest(n, p)) <= Rank(r) <= Rank(Highest(n, p)) <==> Starts(p, r)
  {
    hide Rank;
    var low, high := Lowest(n, p), Highest(n, p);
    if |p| == n {
      assert low == p == high;
      RankIsInjective(n, p, r);
      assert r[..n] == r;
    } else {
      RangeMeaning(n, low, |p|, 0, r);
      assert Low(n, low, |p|, 0) == low && High(n, low, |p|) == high && low[..|p|] == p;
    }
  }

  /** The records of `s` that start with `p`. */
  ghost function Group(n: nat, s: seq<Record>, p: Record): seq<Record>
    requires |p| <= n
  {
    InRange(s, Rank(Lowest(n, p)), Rank(Highest(n, p)))
  }

  lemma GroupHas(n: nat, s: seq<Record>, p: Record)
    requires |p| <= n && IsRecord(|p|, p) && AreRecords(n, s) && Ascending(s)
    ensures Ascending(Group(n, s, p))
    ensures forall r :: r in Group(n, s, p) <==> r in s && Starts(p, r)
  {
    hide Rank, InRange, Lowest, Highest, Place;
    RangeHas(s, Rank(Lowest(n, p)), Rank(Highest(n, p)));
    forall r | r in s ensures Rank(Lowest(n, p)) <= Rank(r) <= Rank(Highest(n, p)) <==> Starts(p, r) {
      PrefixMeaning(n, p, r);
    }
  }

  /** `group` is what lies in `s` between position `g` and the first record ranked above `high`. */
  ghost predicate GroupIs(s: seq<Record>, high: nat, g: nat, group: seq<Record>) {
    && 0 < |group| && g + |group| <= |s| && group == s[g..g + |group|]
    && (forall i :: g <= i < g + |group| ==> Rank(s[i]) <= high)
    && (g + |group| < |s| ==> Rank(s[g + |group|]) > high)
  }

  /** The first record of a group is where the group begins. */
  lemma GroupBegins(n: nat, s: seq<Record>, p: Record, g: nat)
    requires |p| <= n && IsRecord(|p|, p) && AreRecords(n, s) && Ascending(s) && g < |s| && Starts(p, s[g])
    requires forall i :: 0 <= i < g ==> !Starts(p, s[i])
    ensures Place(s, Rank(Lowest(n, p))) == g
    ensures GroupIs(s, Rank(Highest(n, p)), g, Group(n, s, p))
  {
    hide Rank, Lowest, Highest, Place, Starts, GroupIs, InRange;
    var low, high := Rank(Lowest(n, p)), Rank(Highest(n, p));
    PrefixMeaning(n, p, s[g]);
    forall i | 0 <= i < g ensures Rank(s[i]) < low {
      PrefixMeaning(n, p, s[i]);
      assert Rank(s[i]) < Rank(s[g]);
    }
    RangeBegins(s, low, high, g);
  }

  lemma RangeBegins(s: seq<Record>, low: nat, high: nat, g: nat)
    requires Ascending(s) && g < |s| && low <= Rank(s[g]) <= high && forall i :: 0 <= i < g ==> Rank(s[i]) < low
    ensures Place(s, low) == g && GroupIs(s, high, g, InRange(s, low, high))
  {
    hide Rank, Place;
    PlaceIs(s, low, g);
    PlaceBeyond(s, g, high + 1);
  }

  lemma PlaceBeyond(s: seq<Record>, g: nat, x: nat)
    requires Ascending(s) && g < |s| && Rank(s[g]) < x
    ensures Place(s, x) > g
  {
    hide Rank, Place;
    var e := Place(s, x);
    assert e < |s| ==> Rank(s[e]) >= x;
  }
}
