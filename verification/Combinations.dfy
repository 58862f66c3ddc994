/** Combinations in the order of a binary counter, and their numbers in the combinatorial number
    system. */
module Combinations {
  // ----- Binomial coefficients

  /** How many ways there are to choose r of n, by Pascal's triangle. */
  function Choose(n: nat, r: nat): nat {
    if r == 0 then 1 else if n == 0 then 0 else Choose(n - 1, r - 1) + Choose(n - 1, r)
  }

  lemma {:induction false} TooFew(n: nat, r: nat)
    requires n < r
    ensures Choose(n, r) == 0
  {
    if n != 0 {
      TooFew(n - 1, r - 1);
      TooFew(n - 1, r);
    }
  }

  /** Why every division in `nCr` is exact. */
  lemma {:induction false} Absorption(n: nat, r: nat)
    requires r < n
    ensures Choose(n, r) * (n - r) == Choose(n, r + 1) * (r + 1)
  {
    if r == n - 1 {
      AllOfThem(n);
      AllButOne(n);
    } else if r == 0 {
      Absorption(n - 1, 0);
    } else {
      Absorption(n - 1, r - 1);
      Absorption(n - 1, r);
      AbsorptionStep(Choose(n - 1, r - 1), Choose(n - 1, r), Choose(n - 1, r + 1), n - r, r);
    }
  }

  lemma AbsorptionStep(a: nat, b: nat, c: nat, m: nat, r: nat)
    requires 0 < m && a * m == b * r && b * (m - 1) == c * (r + 1)
    ensures (a + b) * m == (b + c) * (r + 1)
  {
    assert (a + b) * m == a * m + b * m;
    assert (b + c) * (r + 1) == b * (r + 1) + c * (r + 1);
    assert b * (r + 1) == b * r + b;
    assert b * (m - 1) == b * m - b;
  }

  lemma {:induction false} AllOfThem(n: nat)
    ensures Choose(n, n) == 1
  {
    if n != 0 {
      AllOfThem(n - 1);
      TooFew(n - 1, n);
    }
  }

  lemma {:induction false} AllButOne(n: nat)
    requires 0 < n
    ensures Choose(n, n - 1) == n
  {
    if 1 < n {
      AllButOne(n - 1);
      AllOfThem(n - 1);
    }
  }

  lemma ExactDivision(a: nat, b: nat, d: nat)
    requires 0 < d && a == b * d
    ensures a / d == b && a % d == 0
  {
    if a / d < b {
      Ordered(a / d + 1, b, d);
    } else if b < a / d {
      Ordered(b + 1, a / d, d);
    }
  }

  lemma Ordered(a: nat, b: nat, d: nat)
    requires a <= b
    ensures a * d <= b * d
  {
  }

  /** Multiplying and dividing in turn, as the loop does, never leaves a remainder. */
  method NCr(n: nat, r: nat) returns (res: nat)
    ensures res == Choose(n, r)
  {
    if n < r {
      TooFew(n, r);
      return 0;
    }
    res := 1;
    for i := 0 to r
      invariant res == Choose(n, i)
    {
      Absorption(n, i);
      res := res * (n - i);
      ExactDivision(res, Choose(n, i + 1), i + 1);
      assert res % (i + 1) == 0;
      res := res / (i + 1);
    }
  }

  // ----- Subsets as bits, the first bit the least significant

  type Bits = seq<bool>

  function Ones(bits: Bits): (n: nat)
    ensures n <= |bits|
  {
    if bits == [] then 0 else Ones(bits[..|bits| - 1]) + if bits[|bits| - 1] then 1 else 0
  }

  /** The counter after one more. */
  function Plus(bits: Bits): (next: Bits)
    ensures |next| == |bits|
  {
    if bits == [] then [] else if bits[0] then [false] + Plus(bits[1..]) else [true] + bits[1..]
  }

  /** How many counter values before this one have exactly r ones. */
  function Before(bits: Bits, r: nat): nat {
    if bits == [] then 0 else
      var low := bits[..|bits| - 1];
      if !bits[|bits| - 1] then Before(low, r)
      else Choose(|low|, r) + if r == 0 then 0 else Before(low, r - 1)
  }

  /** The number that `get_index` computes: for the k-th one at position i, i choose k. */
  function Index(bits: Bits): nat {
    if bits == [] then 0 else
      var low := bits[..|bits| - 1];
      Index(low) + if bits[|bits| - 1] then Choose(|low|, Ones(bits)) else 0
  }

  /** The index of a subset is its place among the subsets of its size, in counter order. */
  lemma {:induction false} IndexIsRank(bits: Bits)
    ensures Index(bits) == Before(bits, Ones(bits))
  {
    if bits != [] {
      IndexIsRank(bits[..|bits| - 1]);
    }
  }

  predicate AllOnes(bits: Bits) {
    forall i | 0 <= i < |bits| :: bits[i]
  }

  // ----- The counter reaches every subset of the wanted size, in the order of their indices

  lemma {:induction false} PlusFromAbove(bits: Bits)
    requires bits != []
    ensures var low, top := bits[..|bits| - 1], bits[|bits| - 1];
            Plus(bits) == if !AllOnes(low) then Plus(low) + [top] else Plus(low) + [!top]
  {
    var low := bits[..|bits| - 1];
    if 1 < |bits| && bits[0] {
      PlusFromAbove(bits[1..]);
      assert bits[1..][..|bits| - 2] == low[1..];
      assert AllOnes(low) <==> AllOnes(low[1..]);
    } else if 1 < |bits| {
      assert !low[0];
      assert [true] + bits[1..] == ([true] + low[1..]) + [bits[|bits| - 1]];
    } else {
      assert low == [] && bits[1..] == [];
    }
  }

  lemma {:induction false} PlusOfAllOnes(bits: Bits)
    requires AllOnes(bits)
    ensures forall i | 0 <= i < |bits| :: !Plus(bits)[i]
  {
    if bits != [] {
      PlusOfAllOnes(bits[1..]);
    }
  }

  lemma {:induction false} NoneBeforeZero(bits: Bits, r: nat)
    requires forall i | 0 <= i < |bits| :: !bits[i]
    ensures Before(bits, r) == 0 && Ones(bits) == 0
  {
    if bits != [] {
      NoneBeforeZero(bits[..|bits| - 1], r);
    }
  }

  lemma {:induction false} AllBeforeAllOnes(bits: Bits, r: nat)
    requires AllOnes(bits)
    ensures Before(bits, r) + (if r == |bits| then 1 else 0) == Choose(|bits|, r) && Ones(bits) == |bits|
  {
    if bits != [] {
      var low := bits[..|bits| - 1];
      AllBeforeAllOnes(low, r);
      if r != 0 { AllBeforeAllOnes(low, r - 1); }
    }
  }

  /** One tick of the counter leaves behind one more subset of size r exactly when the counter
      stood at one. */
  lemma {:induction false} PlusCounts(bits: Bits, r: nat)
    requires !AllOnes(bits)
    ensures Before(Plus(bits), r) == Before(bits, r) + if Ones(bits) == r then 1 else 0
  {
    var low, top := bits[..|bits| - 1], bits[|bits| - 1];
    PlusFromAbove(bits);
    if AllOnes(low) {
      PlusOfAllOnes(low);
      assert Plus(bits)[..|low|] == Plus(low);
      NoneBeforeZero(Plus(low), r);
      if r != 0 { NoneBeforeZero(Plus(low), r - 1); }
      AllBeforeAllOnes(low, r);
    } else {
      assert Plus(bits)[..|low|] == Plus(low);
      PlusCounts(low, r);
      if r != 0 { PlusCounts(low, r - 1); }
    }
  }

  lemma {:induction false} BeforeIsBounded(bits: Bits, r: nat)
    ensures Before(bits, r) + (if Ones(bits) == r then 1 else 0) <= Choose(|bits|, r)
  {
    if bits != [] {
      var low := bits[..|bits| - 1];
      BeforeIsBounded(low, r);
      if r != 0 { BeforeIsBounded(low, r - 1); }
    }
  }

  /** The subset with a given index. */
  function Nth(n: nat, r: nat, c: nat): Bits
    requires c < Choose(n, r)
  {
    if n == 0 then []
    else if c < Choose(n - 1, r) then Nth(n - 1, r, c) + [false]
    else Nth(n - 1, r - 1, c - Choose(n - 1, r)) + [true]
  }

  lemma OnTop(low: Bits, top: bool)
    ensures var bits := low + [top];
            && Ones(bits) == Ones(low) + (if top then 1 else 0)
            && Index(bits) == Index(low) + if top then Choose(|low|, Ones(low) + 1) else 0
  {
    assert (low + [top])[..|low|] == low;
  }

  lemma {:induction false} NthIs(n: nat, r: nat, c: nat)
    requires c < Choose(n, r)
    ensures var bits := Nth(n, r, c); |bits| == n && Ones(bits) == r && Index(bits) == c
  {
    hide Ones, Index;
    if n == 0 {
      NoneBeforeZero([], 0);
      IndexIsRank([]);
    } else if c < Choose(n - 1, r) {
      NthIs(n - 1, r, c);
      OnTop(Nth(n - 1, r, c), false);
    } else {
      NthIs(n - 1, r - 1, c - Choose(n - 1, r));
      OnTop(Nth(n - 1, r - 1, c - Choose(n - 1, r)), true);
    }
  }

  /** Two subsets of one size never share an index, and every index has its subset: `get_index`
      is one to one onto the row of the table. */
  lemma {:induction false} IndexIsOneToOne(one: Bits, two: Bits)
    requires |one| == |two| && Ones(one) == Ones(two)
    ensures Index(one) < Choose(|one|, Ones(one))
    ensures Index(one) == Index(two) <==> one == two
  {
    IndexIsRank(one);
    IndexIsRank(two);
    BeforeIsBounded(one, Ones(one));
    if one != [] {
      var m := |one| - 1;
      IndexIsRank(one[..m]);
      IndexIsRank(two[..m]);
      BeforeIsBounded(one[..m], Ones(one[..m]));
      BeforeIsBounded(two[..m], Ones(two[..m]));
      if one[m] == two[m] {
        IndexIsOneToOne(one[..m], two[..m]);
        assert one == one[..m] + [one[m]] && two == two[..m] + [two[m]];
      }
    }
  }

  // ----- The enumerator

  class CombinationEnumerator {
    const arr: array<bool>
    const wanted: nat
    var count: int
    ghost var made: nat

    ghost predicate Valid()
      reads this, arr
    {
      && count == Ones(arr[..]) - wanted
      && made == Before(arr[..], wanted) + (if Ones(arr[..]) == wanted then 1 else 0)
    }

    constructor (size: nat, onesNeeded: nat)
      requires 0 < onesNeeded <= size
      ensures Valid() && made == 0 && fresh(arr) && arr.Length == size && wanted == onesNeeded
    {
      arr := new bool[size](_ => false);
      wanted := onesNeeded;
      count := 0 - onesNeeded;
      made := 0;
      new;
      NoneBeforeZero(arr[..], wanted);
    }

    /** One more in binary, counting the ones on the way. */
    method SumOne()
      requires !AllOnes(arr[..])
      modifies arr, this`count
      ensures arr[..] == Plus(old(arr[..]))
      ensures count - Ones(arr[..]) == old(count) - Ones(old(arr[..]))
    {
      ghost var was := arr[..];
      var i := 0;
      while i < arr.Length
        invariant i <= arr.Length && count == old(count) - i
        invariant forall k | 0 <= k < i :: was[k] && !arr[k]
        invariant forall k | i <= k < arr.Length :: arr[k] == was[k]
      {
        if arr[i] {
          count := count - 1;
          arr[i] := false;
        } else {
          count := count + 1;
          arr[i] := true;
          PlusFlips(was, i);
          return;
        }
        i := i + 1;
      }
      assert false;
    }

    /** The c-th call produces the subset whose index is c, counting from zero. */
    method GetNextCombination()
      requires Valid() && 0 < wanted && made < Choose(arr.Length, wanted)
      modifies arr, this`count, this`made
      ensures Valid() && made == old(made) + 1
      ensures Ones(arr[..]) == wanted && Index(arr[..]) == old(made)
      ensures arr[..] == Nth(arr.Length, wanted, old(made))
    {
      var first := true;
      while first || count != 0
        invariant Valid() && (first ==> made == old(made))
        invariant !first ==> made == old(made) + if count == 0 then 1 else 0
        decreases first, Room(arr[..])
      {
        if AllOnes(arr[..]) {
          AllBeforeAllOnes(arr[..], wanted);
        }
        PlusCounts(arr[..], wanted);
        PlusClimbs(arr[..]);
        SumOne();
        made := Before(arr[..], wanted) + if Ones(arr[..]) == wanted then 1 else 0;
        first := false;
      }
      IndexIsRank(arr[..]);
      NthIs(arr.Length, wanted, old(made));
      IndexIsOneToOne(arr[..], Nth(arr.Length, wanted, old(made)));
    }
  }

  function Zeros(n: nat): (z: Bits)
    ensures |z| == n && forall i | 0 <= i < n :: !z[i]
  {
    seq(n, _ => false)
  }

  /** How far the counter is from its end. */
  function Room(bits: Bits): nat {
    if bits == [] then 0 else (if bits[0] then 0 else 1) + 2 * Room(bits[1..])
  }

  lemma {:induction false} PlusClimbs(bits: Bits)
    requires !AllOnes(bits)
    ensures Room(Plus(bits)) + 1 == Room(bits)
  {
    if bits[0] {
      PlusClimbs(bits[1..]);
    }
  }

  lemma {:induction false} OnesOfSum(low: Bits, high: Bits)
    ensures Ones(low + high) == Ones(low) + Ones(high)
  {
    if high == [] {
      assert low + high == low;
    } else {
      assert (low + high)[..|low + high| - 1] == low + high[..|high| - 1];
      OnesOfSum(low, high[..|high| - 1]);
    }
  }

  lemma {:induction false} PlusFlipsValue(bits: Bits, i: nat)
    requires i < |bits| && !bits[i] && forall k | 0 <= k < i :: bits[k]
    ensures Plus(bits) == Zeros(i) + [true] + bits[i + 1..]
  {
    if i != 0 {
      PlusFlipsValue(bits[1..], i - 1);
      assert [false] + (Zeros(i - 1) + [true] + bits[1..][i..]) == Zeros(i) + [true] + bits[i + 1..];
    }
  }

  /** One more clears the ones below the first zero and sets that. */
  lemma PlusFlips(bits: Bits, i: nat)
    requires i < |bits| && !bits[i] && forall k | 0 <= k < i :: bits[k]
    ensures Plus(bits) == Zeros(i) + [true] + bits[i + 1..]
    ensures Ones(Plus(bits)) == Ones(bits) - i + 1
  {
    hide Plus, Choose, Before, Ones;
    PlusFlipsValue(bits, i);
    OnesAround(bits[..i], false, bits[i + 1..]);
    OnesAround(Zeros(i), true, bits[i + 1..]);
    assert bits == bits[..i] + [false] + bits[i + 1..];
    assert Ones(bits[..i]) == i by { AllBeforeAllOnes(bits[..i], 0); }
    assert Ones(Zeros(i)) == 0 by { NoneBeforeZero(Zeros(i), 0); }
  }

  lemma OnesAround(low: Bits, b: bool, high: Bits)
    ensures Ones(low + [b] + high) == Ones(low) + (if b then 1 else 0) + Ones(high)
  {
    OnesOfSum(low + [b], high);
    assert (low + [b])[..|low|] == low;
  }

  /** The index of a subset, as the table is addressed. */
  method GetIndex(arr: array<bool>) returns (res: nat)
    ensures res == Index(arr[..])
  {
    res := 0;
    var k := 0;
    for i := 0 to arr.Length
      invariant k == Ones(arr[..i]) && res == Index(arr[..i])
    {
      assert arr[..i + 1][..i] == arr[..i];
      if arr[i] {
        k := k + 1;
        var ways := NCr(i, k);
        res := res + ways;
      }
    }
    assert arr[..arr.Length] == arr[..];
  }
}
