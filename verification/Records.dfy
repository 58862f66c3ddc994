/** Records of object identifiers and the order in which indexes keep them. */
module Records {
  type Record = seq<nat>

  const MAX_ID: nat := 0xFFFF_FFFF_FFFF_FFFF
  const BASE: nat := MAX_ID + 1

  predicate IsRecord(n: nat, r: Record) {
    |r| == n && forall i :: 0 <= i < n ==> r[i] <= MAX_ID
  }

  /** The place of `r` in the order of all records of its width: its identifiers read as digits. */
  ghost function Rank(r: Record): nat {
    if r == [] then 0 else Rank(r[..|r| - 1]) * BASE + r[|r| - 1]
  }

  /** How many records of width `n` there are. */
  ghost function Limit(n: nat): nat {
    if n == 0 then 1 else Limit(n - 1) * BASE
  }

  lemma {:induction false} RankBelowLimit(n: nat, r: Record)
    requires IsRecord(n, r)
    ensures Rank(r) < Limit(n)
  {
    if n > 0 {
      RankBelowLimit(n - 1, r[..n - 1]);
      assert Rank(r[..n - 1]) * BASE + BASE <= Limit(n - 1) * BASE;
    }
  }

  /** The first identifier in which two records differ decides. */
  lemma {:induction false} FirstDifferenceDecides(n: nat, a: Record, b: Record, i: nat)
    requires IsRecord(n, a) && IsRecord(n, b) && i < n && a[..i] == b[..i] && a[i] < b[i]
    ensures Rank(a) < Rank(b)
  {
    var x, y := a[..n - 1], b[..n - 1];
    if i == n - 1 {
      assert x == a[..i] && y == b[..i];
    } else {
      assert x[..i] == a[..i] && y[..i] == b[..i];
      FirstDifferenceDecides(n - 1, x, y, i);
      assert Rank(x) * BASE + BASE <= Rank(y) * BASE;
    }
  }

  /** The first place where `a` and `b` differ, or their width. */
  ghost function Agreement(n: nat, a: Record, b: Record): (i: nat)
    requires IsRecord(n, a) && IsRecord(n, b)
    ensures i <= n && a[..i] == b[..i]
    ensures i < n ==> a[i] != b[i]
    ensures i == n ==> a == b
  {
    AgreementFrom(n, a, b, 0)
  }

  ghost function AgreementFrom(n: nat, a: Record, b: Record, k: nat): (i: nat)
    requires IsRecord(n, a) && IsRecord(n, b) && k <= n && a[..k] == b[..k]
    ensures k <= i <= n && a[..i] == b[..i]
    ensures i < n ==> a[i] != b[i]
    ensures i == n ==> a == b
    decreases n - k
  {
    if k == n then assert a == a[..n] && b == b[..n]; n
    else if a[k] != b[k] then k
    else assert a[..k + 1] == a[..k] + [a[k]] && b[..k + 1] == b[..k] + [b[k]]; AgreementFrom(n, a, b, k + 1)
  }

  /** Different records have different ranks, so ranks order the records totally. */
  lemma RankIsInjective(n: nat, a: Record, b: Record)
    requires IsRecord(n, a) && IsRecord(n, b)
    ensures Rank(a) == Rank(b) <==> a == b
  {
    var i := Agreement(n, a, b);
    if i < n {
      if a[i] < b[i] {
        FirstDifferenceDecides(n, a, b, i);
      } else {
        FirstDifferenceDecides(n, b, a, i);
      }
    }
  }

  datatype Order = Smaller | Equal | Greater

  /** Compares identifier by identifier. */
  method Compare(n: nat, a: Record, b: Record) returns (c: Order)
    requires IsRecord(n, a) && IsRecord(n, b)
    ensures c == if Rank(a) < Rank(b) then Smaller else if Rank(a) > Rank(b) then Greater else Equal
    ensures c == Equal <==> a == b
    ensures c == Smaller <==> exists i :: 0 <= i < n && a[..i] == b[..i] && a[i] < b[i]
    ensures c == Greater <==> exists i :: 0 <= i < n && a[..i] == b[..i] && a[i] > b[i]
  {
    RankIsInjective(n, a, b);
    for i := 0 to n
      invariant a[..i] == b[..i]
    {
      if a[i] < b[i] {
        FirstDifferenceDecides(n, a, b, i);
        return Smaller;
      } else if a[i] > b[i] {
        FirstDifferenceDecides(n, b, a, i);
        return Greater;
      }
      assert a[..i + 1] == a[..i] + [a[i]] && b[..i + 1] == b[..i] + [b[i]];
    }
    assert a == a[..n] && b == b[..n];
    return Equal;
  }

  // ----- sorted lists of records -----------------------------------------------------------------

  ghost predicate AreRecords(n: nat, s: seq<Record>) {
    forall i :: 0 <= i < |s| ==> IsRecord(n, s[i])
  }

  /** Strictly ascending. */
  ghost predicate Ascending(s: seq<Record>) {
    forall i, j :: 0 <= i < j < |s| ==> Rank(s[i]) < Rank(s[j])
  }

  ghost predicate Within(s: seq<Record>, lo: nat, hi: nat) {
    forall i :: 0 <= i < |s| ==> lo <= Rank(s[i]) < hi
  }

  ghost predicate AllBelow(s: seq<Record>, x: nat) {
    forall i :: 0 <= i < |s| ==> Rank(s[i]) < x
  }

  ghost predicate NoneBelow(s: seq<Record>, x: nat) {
    forall i :: 0 <= i < |s| ==> Rank(s[i]) >= x
  }

  /** How many records at the front of an ascending list have a rank below `x`. */
  ghost function Place(s: seq<Record>, x: nat): (k: nat)
    ensures k <= |s|
    ensures k < |s| ==> Rank(s[k]) >= x
    ensures forall i :: 0 <= i < k ==> Rank(s[i]) < x
  {
    if s == [] || Rank(s[0]) >= x then 0 else 1 + Place(s[1..], x)
  }

  lemma PlaceIs(s: seq<Record>, x: nat, k: nat)
    requires k <= |s| && (k < |s| ==> Rank(s[k]) >= x)
    requires forall i :: 0 <= i < k ==> Rank(s[i]) < x
    ensures Place(s, x) == k
  {
  }

  ghost function InsertAt<T>(s: seq<T>, i: nat, x: T): (r: seq<T>)
    requires i <= |s|
    ensures |r| == |s| + 1
    ensures forall j :: 0 <= j < |r| ==> r[j] == if j < i then s[j] else if j == i then x else s[j - 1]
  {
    s[..i] + [x] + s[i..]
  }

  /** An ascending list with `r` put in its place. */
  ghost function Inserted(s: seq<Record>, r: Record): seq<Record> {
    InsertAt(s, Place(s, Rank(r)), r)
  }

  /** Putting a new record in its place adds just that record, and the list is still ascending. */
  lemma InsertedAdds(n: nat, s: seq<Record>, r: Record)
    requires AreRecords(n, s) && Ascending(s) && IsRecord(n, r) && r !in s
    ensures AreRecords(n, Inserted(s, r)) && Ascending(Inserted(s, r))
    ensures forall x :: x in Inserted(s, r) <==> x == r || x in s
    ensures |Inserted(s, r)| == |s| + 1
  {
    var k := Place(s, Rank(r));
    assert s == s[..k] + s[k..];
    if k < |s| {
      RankIsInjective(n, s[k], r);
    }
    assert forall x :: x in s <==> x in s[..k] || x in s[k..];
  }

  /** A record between two lists goes into the list in the middle. */
  lemma InsertedInside(a: seq<Record>, b: seq<Record>, c: seq<Record>, r: Record)
    requires AllBelow(a, Rank(r)) && NoneBelow(c, Rank(r))
    ensures Inserted(a + b + c, r) == a + Inserted(b, r) + c
  {
    hide Place, InsertAt, Rank;
    PlaceInside(a, b, c, Rank(r));
    InsertAtInside(a, b, c, Place(b, Rank(r)), r);
  }

  lemma InsertAtInside<T>(a: seq<T>, b: seq<T>, c: seq<T>, k: nat, x: T)
    requires k <= |b|
    ensures InsertAt(a + b + c, |a| + k, x) == a + InsertAt(b, k, x) + c
  {
    var s := a + b + c;
    assert s[..|a| + k] == a + b[..k];
    assert s[|a| + k..] == b[k..] + c;
  }

  lemma PlaceInside(a: seq<Record>, b: seq<Record>, c: seq<Record>, x: nat)
    requires AllBelow(a, x) && NoneBelow(c, x)
    ensures Place(a + b + c, x) == |a| + Place(b, x)
  {
    PlaceIs(a + b + c, x, |a| + Place(b, x));
  }

  // ----- ranges -------------------------------------------------------------------------------------

  /** The records of an ascending list with ranks in [low, high]. */
  ghost function InRange(s: seq<Record>, low: nat, high: nat): seq<Record> {
    if Place(s, low) <= Place(s, high + 1) then s[Place(s, low)..Place(s, high + 1)] else []
  }

  lemma RangeHas(s: seq<Record>, low: nat, high: nat)
    requires Ascending(s)
    ensures forall r :: r in InRange(s, low, high) <==> r in s && low <= Rank(r) <= high
    ensures Ascending(InRange(s, low, high))
  {
    hide Rank, Place;
    var from, end := Place(s, low), Place(s, high + 1);
    if from <= end {
      RangeIs(s, low, high, end);
    } else {
      assert forall i :: 0 <= i < |s| ==> !(low <= Rank(s[i]) <= high);
    }
  }

  lemma RangeIs(s: seq<Record>, low: nat, high: nat, end: nat)
    requires Ascending(s) && Place(s, low) <= end <= |s|
    requires forall i :: Place(s, low) <= i < end ==> Rank(s[i]) <= high
    requires end < |s| ==> Rank(s[end]) > high
    ensures InRange(s, low, high) == s[Place(s, low)..end]
    ensures forall r :: r in InRange(s, low, high) <==> r in s && low <= Rank(r) <= high
    ensures Ascending(InRange(s, low, high))
  {
    hide Rank, Place;
    PlaceIs(s, high + 1, if low <= high then end else Place(s, high + 1));
    var from := Place(s, low);
    assert low > high ==> end == from;
    SliceHas(s, low, high, from, end);
  }

  lemma SliceHas(s: seq<Record>, low: nat, high: nat, from: nat, end: nat)
    requires Ascending(s) && from <= end <= |s|
    requires forall i :: 0 <= i < from ==> Rank(s[i]) < low
    requires forall i :: from <= i < end ==> low <= Rank(s[i]) <= high
    requires forall i :: end <= i < |s| ==> Rank(s[i]) > high
    ensures forall r :: r in s[from..end] <==> r in s && low <= Rank(r) <= high
    ensures Ascending(s[from..end])
  {
    hide Rank;
    var out := s[from..end];
    forall r ensures r in out <==> r in s && low <= Rank(r) <= high {
      if r in s && low <= Rank(r) <= high {
        var k :| 0 <= k < |s| && s[k] == r;
        assert out[k - from] == r;
      }
    }
  }
}
