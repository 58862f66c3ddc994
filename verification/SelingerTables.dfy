/** The join order optimizer: a table with the best plan for every subset of the base plans, filled
    one size after the other. */
module SelingerTables {
  import opened Options
  import opened Combinations

  /** A left-deep plan: a base plan, or a plan joined with one more base plan. */
  datatype Plan = Base(relation: nat) | Join(left: Plan, right: nat)

  /** What a plan is estimated to cost; the estimates themselves are not part of this model. */
  type Cost = Plan -> real

  // ----- What it means to be a plan for a subset

  function Single(n: nat, i: nat): Bits {
    seq(n, k => k == i)
  }

  /** The plan joins exactly the base plans of the subset, each once. */
  predicate IsFor(plan: Plan, bits: Bits) {
    match plan
    case Base(i) => i < |bits| && bits == Single(|bits|, i)
    case Join(left, i) => i < |bits| && bits[i] && IsFor(left, bits[i := false])
  }

  function Relations(plan: Plan): seq<nat> {
    match plan
    case Base(i) => [i]
    case Join(left, i) => Relations(left) + [i]
  }

  predicate Distinct(s: seq<nat>) {
    forall i, j | 0 <= i < j < |s| :: s[i] != s[j]
  }

  /** Said of the plan's relations in their order: no repetition, and just those of the subset. */
  ghost predicate Lists(s: seq<nat>, bits: Bits) {
    && Distinct(s)
    && (forall k | 0 <= k < |s| :: s[k] < |bits| && bits[s[k]])
    && (forall i | 0 <= i < |bits| && bits[i] :: i in s)
  }

  lemma {:induction false} IsForMeans(plan: Plan, bits: Bits)
    ensures IsFor(plan, bits) <==> Lists(Relations(plan), bits)
  {
    match plan
    case Base(i) =>
      if Lists([i], bits) {
        assert [i][0] == i;
        assert forall k | 0 <= k < |bits| :: bits[k] == (k == i);
      } else if IsFor(plan, bits) {
        assert [i][0] == i;
        assert Lists([i], bits);
      }
    case Join(left, i) =>
      var s := Relations(left);
      if i < |bits| {
        IsForMeans(left, bits[i := false]);
      }
      if IsFor(plan, bits) {
        assert Lists(s, bits[i := false]);
        forall k | 0 <= k < |bits| && bits[k] ensures k in s + [i] {
          if k != i { assert bits[i := false][k]; }
        }
        assert Lists(s + [i], bits);
      }
      if Lists(s + [i], bits) {
        assert (s + [i])[|s|] == i;
        forall k | 0 <= k < |s| ensures s[k] < |bits| && s[k] != i && bits[i := false][s[k]] {
          assert (s + [i])[k] == s[k];
        }
        forall k | 0 <= k < |bits| && bits[i := false][k] ensures k in s {
          assert k in s + [i];
        }
        forall j, k | 0 <= j < k < |s| ensures s[j] != s[k] {
          assert (s + [i])[j] != (s + [i])[k];
        }
        assert Lists(s, bits[i := false]);
      }
  }

  // ----- What it means to be the best

  /** The principle of optimality: a cheaper left side never makes the join dearer. */
  ghost predicate Monotone(cost: Cost) {
    forall p, q, bits: Bits, i: nat | IsFor(p, bits) && IsFor(q, bits) && i < |bits| && !bits[i] && cost(p) <= cost(q) ::
      cost(Join(p, i)) <= cost(Join(q, i))
  }

  ghost predicate Cheapest(plan: Plan, bits: Bits, cost: Cost) {
    forall other | IsFor(other, bits) :: cost(plan) <= cost(other)
  }

  lemma OneLess(bits: Bits, i: nat)
    requires i < |bits| && bits[i]
    ensures Ones(bits[i := false]) + 1 == Ones(bits)
    ensures Index(bits[i := false]) < Choose(|bits|, Ones(bits) - 1)
  {
    assert bits == bits[..i] + [true] + bits[i + 1..];
    assert bits[i := false] == bits[..i] + [false] + bits[i + 1..];
    OnesAround(bits[..i], true, bits[i + 1..]);
    OnesAround(bits[..i], false, bits[i + 1..]);
    IndexIsOneToOne(bits[i := false], bits[i := false]);
  }

  /** The plan joins a kept plan for all relations but one with that one, and no kept plan for all but
      another one joined with that is cheaper. */
  ghost predicate Kept(plan: Plan, bits: Bits, cost: Cost)
    decreases Ones(bits)
  {
    && IsFor(plan, bits)
    && (plan.Join? ==>
          && (OneLess(bits, plan.right); Kept(plan.left, bits[plan.right := false], cost))
          && forall j | 0 <= j < |bits| && bits[j] ::
               exists left :: (OneLess(bits, j); Kept(left, bits[j := false], cost)) && cost(plan) <= cost(Join(left, j)))
  }

  ghost predicate Right(cell: Option<Plan>, bits: Bits, cost: Cost) {
    cell.Some? && Kept(cell.value, bits, cost)
  }

  /** The row for subsets of one size, filled below `done`. */
  ghost predicate RowRight(row: seq<Option<Plan>>, n: nat, size: nat, done: nat, cost: Cost) {
    && |row| == Choose(n, size)
    && (forall bits: Bits | |bits| == n && Ones(bits) == size && Index(bits) < done ::
          Index(bits) < |row| && Right(row[Index(bits)], bits, cost))
  }

  /** The best of the joins that end with one of the first `upTo` relations of the subset. */
  ghost predicate BestSoFar(best: Option<Plan>, bits: Bits, upTo: nat, row: seq<Option<Plan>>, cost: Cost)
    requires upTo <= |bits|
  {
    && (best.None? <==> forall i | 0 <= i < upTo :: !bits[i])
    && (best.Some? ==>
          && best.value.Join? && best.value.right < |bits| && bits[best.value.right]
          && var c := Index(bits[best.value.right := false]);
             c < |row| && row[c] == Some(best.value.left))
    && (forall i | 0 <= i < upTo && bits[i] ::
          var c := Index(bits[i := false]);
          c < |row| && row[c].Some? && best.Some? && cost(best.value) <= cost(Join(row[c].value, i)))
  }

  lemma {:induction false} SizeOfPlan(plan: Plan, bits: Bits)
    requires IsFor(plan, bits)
    ensures 0 < Ones(bits) && (plan.Join? <==> 1 < Ones(bits))
  {
    match plan
    case Base(i) => IndexOfSingle(|bits|, i);
    case Join(left, i) =>
      OneLess(bits, i);
      SizeOfPlan(left, bits[i := false]);
  }

  lemma {:induction false} IndexOfSingle(n: nat, i: nat)
    requires i < n
    ensures Ones(Single(n, i)) == 1 && Index(Single(n, i)) == i
  {
    var bits := Single(n, i);
    if i == n - 1 {
      assert bits[..n - 1] == Zeros(n - 1);
      NoneBeforeZero(Zeros(n - 1), 0);
      IndexIsRank(Zeros(n - 1));
      ChooseOne(n - 1);
    } else {
      assert bits[..n - 1] == Single(n - 1, i);
      IndexOfSingle(n - 1, i);
    }
  }

  lemma {:induction false} ChooseOne(n: nat)
    ensures Choose(n, 1) == n
  {
    if n != 0 { ChooseOne(n - 1); }
  }

  /** The only subset of size one at an index is the single one. */
  lemma SizeOne(bits: Bits)
    requires Ones(bits) == 1
    ensures Index(bits) < |bits| && bits == Single(|bits|, Index(bits))
  {
    IndexIsOneToOne(bits, bits);
    ChooseOne(|bits|);
    IndexOfSingle(|bits|, Index(bits));
    IndexIsOneToOne(bits, Single(|bits|, Index(bits)));
  }

  /** A full row holds the right plan for the subset without relation i. */
  lemma CellRight(row: seq<Option<Plan>>, bits: Bits, i: nat, size: nat, cost: Cost)
    requires i < |bits| && bits[i] && Ones(bits) == size + 1
    requires RowRight(row, |bits|, size, |row|, cost)
    ensures var less := bits[i := false];
            |less| == |bits| && Index(less) < |row| && Right(row[Index(less)], less, cost)
  {
    OneLess(bits, i);
  }

  /** One more relation tried. */
  lemma Tried(best: Option<Plan>, bits: Bits, i: nat, row: seq<Option<Plan>>, size: nat, cost: Cost)
    requires i < |bits| && bits[i] && Ones(bits) == size + 1
    requires BestSoFar(best, bits, i, row, cost) && RowRight(row, |bits|, size, |row|, cost)
    ensures var c := Index(bits[i := false]);
            && c < |row| && row[c].Some?
            && var joined := Join(row[c].value, i);
            BestSoFar(if best.None? || cost(joined) < cost(best.value) then Some(joined) else best, bits, i + 1, row, cost)
  {
    hide RowRight, Index, Ones, IsFor, Cheapest, Monotone;
    CellRight(row, bits, i, size, cost);
  }

  lemma NoneTried(bits: Bits, row: seq<Option<Plan>>, cost: Cost)
    ensures BestSoFar(None, bits, 0, row, cost)
  {
  }

  lemma NotTried(best: Option<Plan>, bits: Bits, i: nat, row: seq<Option<Plan>>, cost: Cost)
    requires i < |bits| && !bits[i] && BestSoFar(best, bits, i, row, cost)
    ensures BestSoFar(best, bits, i + 1, row, cost)
  {
  }

  lemma LeftIsEnough(p: Plan, q: Plan, bits: Bits, i: nat, cost: Cost)
    requires Monotone(cost) && i < |bits| && bits[i]
    requires IsFor(p, bits[i := false]) && Cheapest(p, bits[i := false], cost) && IsFor(q, bits[i := false])
    ensures cost(Join(p, i)) <= cost(Join(q, i))
  {
  }

  /** After all of them the best is kept. */
  lemma AllTried(best: Option<Plan>, bits: Bits, row: seq<Option<Plan>>, size: nat, cost: Cost)
    requires 0 < size && Ones(bits) == size + 1
    requires BestSoFar(best, bits, |bits|, row, cost) && RowRight(row, |bits|, size, |row|, cost)
    ensures Right(best, bits, cost)
  {
    hide RowRight, Index, Ones;
    if forall i | 0 <= i < |bits| :: !bits[i] {
      NoneBeforeZero(bits, 0);
      assert false;
    }
    var plan := best.value;
    OneLess(bits, plan.right);
    CellRight(row, bits, plan.right, size, cost);
    forall j | 0 <= j < |bits| && bits[j]
      ensures exists left :: Kept(left, bits[j := false], cost) && cost(plan) <= cost(Join(left, j))
    {
      OneLess(bits, j);
      CellRight(row, bits, j, size, cost);
      var left := row[Index(bits[j := false])].value;
      assert Kept(left, bits[j := false], cost) && cost(plan) <= cost(Join(left, j));
    }
  }

  /** By the principle of optimality a kept plan is the cheapest of all for its relations. */
  lemma {:induction false} KeptIsCheapest(plan: Plan, bits: Bits, cost: Cost)
    requires Monotone(cost) && Kept(plan, bits, cost)
    ensures Cheapest(plan, bits, cost)
    decreases Ones(bits)
  {
    hide Monotone;
    forall other | IsFor(other, bits) ensures cost(plan) <= cost(other) {
      SizeOfPlan(plan, bits);
      SizeOfPlan(other, bits);
      if other.Join? {
        OneLess(bits, other.right);
        var left :| Kept(left, bits[other.right := false], cost) && cost(plan) <= cost(Join(left, other.right));
        KeptIsCheapest(left, bits[other.right := false], cost);
        LeftIsEnough(left, other.left, bits, other.right, cost);
      } else {
        assert Single(|bits|, other.relation)[plan.relation];
      }
    }
  }

  /** Storing the best plan of the next subset keeps what was stored for the others. */
  lemma Stored(row: seq<Option<Plan>>, bits: Bits, best: Option<Plan>, cost: Cost)
    requires RowRight(row, |bits|, Ones(bits), Index(bits), cost) && Right(best, bits, cost)
    ensures Index(bits) < |row|
    ensures RowRight(row[Index(bits) := best], |bits|, Ones(bits), Index(bits) + 1, cost)
  {
    IndexIsOneToOne(bits, bits);
    forall other: Bits | |other| == |bits| && Ones(other) == Ones(bits) && Index(other) < Index(bits) + 1
      ensures Right(row[Index(bits) := best][Index(other)], other, cost)
    {
      IndexIsOneToOne(other, bits);
    }
  }

  lemma RowStarts(row: seq<Option<Plan>>, n: nat, size: nat, cost: Cost)
    requires |row| == Choose(n, size)
    ensures RowRight(row, n, size, 0, cost)
  {
  }

  lemma BaseRowRight(row: seq<Option<Plan>>, n: nat, cost: Cost)
    requires |row| == n && forall i | 0 <= i < n :: row[i] == Some(Base(i))
    ensures RowRight(row, n, 1, n, cost)
  {
    ChooseOne(n);
    forall bits: Bits | |bits| == n && Ones(bits) == 1 && Index(bits) < n
      ensures Right(row[Index(bits)], bits, cost)
    {
      SizeOne(bits);
    }
  }

  lemma WholeIsLast(bits: Bits)
    requires AllOnes(bits)
    ensures Ones(bits) == |bits| && Index(bits) == 0 && Choose(|bits|, |bits|) == 1
  {
    AllBeforeAllOnes(bits, |bits|);
    AllOfThem(|bits|);
    IndexIsRank(bits);
  }

  /** The last row has one cell, with the plan for all relations. */
  lemma LastCell(row: seq<Option<Plan>>, n: nat, cost: Cost)
    requires RowRight(row, n, n, |row|, cost)
    ensures |row| == 1 && row[0].Some?
    ensures forall all: Bits | |all| == n && AllOnes(all) ::
              && IsFor(row[0].value, all) && Kept(row[0].value, all, cost)
              && (Monotone(cost) ==> Cheapest(row[0].value, all, cost))
  {
    hide Cheapest, Monotone;
    AllOfThem(n);
    WholeIsLast(seq(n, _ => true));
    forall all: Bits | |all| == n && AllOnes(all)
      ensures row[0].Some? && IsFor(row[0].value, all) && Kept(row[0].value, all, cost)
      ensures Monotone(cost) ==> Cheapest(row[0].value, all, cost)
    {
      WholeIsLast(all);
      assert Right(row[0], all, cost);
      if Monotone(cost) {
        KeptIsCheapest(row[0].value, all, cost);
      }
    }
    assert AllOnes(seq(n, _ => true));
  }

  // ----- The optimizer

  class SelingerOptimizer {
    const size: nat
    const cost: Cost
    var optimalPlans: seq<seq<Option<Plan>>>

    ghost predicate Valid()
      reads this
    {
      && 0 < size == |optimalPlans|
      && (forall r | 0 <= r < size :: |optimalPlans[r]| == Choose(size, r + 1))
      && RowRight(optimalPlans[0], size, 1, size, cost)
    }

    constructor (basePlans: nat, estimate: Cost)
      requires 0 < basePlans
      ensures Valid() && size == basePlans && cost == estimate
    {
      size, cost := basePlans, estimate;
      var rows: seq<seq<Option<Plan>>> := [];
      for i := 0 to basePlans
        invariant |rows| == i
        invariant forall r | 0 <= r < i :: |rows[r]| == Choose(basePlans, r + 1)
        invariant forall k | 0 <= k < i :: i != 0 && k < |rows[0]| && rows[0][k] == Some(Base(k))
      {
        var width := NCr(basePlans, i + 1);
        ChooseOne(basePlans);
        rows := rows + [seq(width, _ => None)];
        rows := rows[0 := rows[0][i := Some(Base(i))]];
      }
      optimalPlans := rows;
      new;
      ChooseOne(size);
      BaseRowRight(optimalPlans[0], size, cost);
    }

    /** The best plan for the subset the bits show, from the best plans of the subsets that have
        one relation less. */
    method BestFor(arr: array<bool>, r: nat) returns (best: Option<Plan>)
      requires arr.Length == size && 2 <= r <= size && r <= |optimalPlans| && Ones(arr[..]) == r
      requires RowRight(optimalPlans[r - 2], size, r - 1, |optimalPlans[r - 2]|, cost)
      modifies arr
      ensures arr[..] == old(arr[..]) && Right(best, arr[..], cost)
    {
      hide RowRight, BestSoFar, Right, Index, Ones;
      ghost var bits := arr[..];
      best := None;
      NoneTried(bits, optimalPlans[r - 2], cost);
      for bitPos := 0 to size
        invariant arr[..] == bits
        invariant BestSoFar(best, bits, bitPos, optimalPlans[r - 2], cost)
      {
        if arr[bitPos] {
          Tried(best, bits, bitPos, optimalPlans[r - 2], r - 1, cost);
          arr[bitPos] := false;
          assert arr[..] == bits[bitPos := false];
          var index := GetIndex(arr);
          var current := Join(optimalPlans[r - 2][index].value, bitPos);
          if best.None? || cost(current) < cost(best.value) {
            best := Some(current);
          }
          arr[bitPos] := true;
          assert arr[..] == bits;
        } else {
          NotTried(best, bits, bitPos, optimalPlans[r - 2], cost);
        }
      }
      AllTried(best, bits, optimalPlans[r - 2], r - 1, cost);
    }

    /** Fill the row of subsets of size r. */
    method FillRow(r: nat)
      requires Valid() && 2 <= r <= size
      requires RowRight(optimalPlans[r - 2], size, r - 1, |optimalPlans[r - 2]|, cost)
      modifies this
      ensures Valid() && RowRight(optimalPlans[r - 1], size, r, |optimalPlans[r - 1]|, cost)
      ensures forall k | 0 <= k < size && k != r - 1 :: optimalPlans[k] == old(optimalPlans[k])
    {
      hide RowRight, Right, Index, Ones, Choose, Nth;
      RowStarts(optimalPlans[r - 1], size, r, cost);
      var enumerator := new CombinationEnumerator(size, r);
      var total := NCr(size, r);
      for c := 0 to total
        invariant Valid() && enumerator.Valid() && enumerator.made == c
        invariant RowRight(optimalPlans[r - 1], size, r, c, cost)
        invariant forall k | 0 <= k < size && k != r - 1 :: optimalPlans[k] == old(optimalPlans[k])
      {
        enumerator.GetNextCombination();
        var best := BestFor(enumerator.arr, r);
        var index := GetIndex(enumerator.arr);
        Stored(optimalPlans[r - 1], enumerator.arr[..], best, cost);
        optimalPlans := optimalPlans[r - 1 := optimalPlans[r - 1][index := best]];
      }
    }

    /** The plan joins every base plan once and is kept; it is cheapest among all left-deep orders when
        costs are monotone. */
    method GetPlan() returns (plan: Plan)
      requires Valid()
      modifies this
      ensures forall all: Bits | |all| == size && AllOnes(all) ::
                && IsFor(plan, all) && Kept(plan, all, cost)
                && (Monotone(cost) ==> Cheapest(plan, all, cost))
    {
      hide RowRight, Index, Ones, Choose, Kept, Cheapest, Monotone, IsFor;
      ChooseOne(size);
      for i := 2 to size + 1
        invariant Valid()
        invariant RowRight(optimalPlans[i - 2], size, i - 1, |optimalPlans[i - 2]|, cost)
      {
        FillRow(i);
      }
      LastCell(optimalPlans[size - 1], size, cost);
      plan := optimalPlans[size - 1][0].value;
    }
  }

  // ----- The estimates of a nested loop join

  /** Estimates for a base plan once the relations to its left have bound their variables. */
  datatype Estimates = Estimates(output: (nat, set<nat>) -> real, work: (nat, set<nat>) -> real)

  function Bound(plan: Plan): set<nat> {
    match plan
    case Base(i) => {i}
    case Join(left, i) => Bound(left) + {i}
  }

  function OutputOf(e: Estimates, plan: Plan): real {
    match plan
    case Base(i) => e.output(i, {})
    case Join(left, i) => OutputOf(e, left) * e.output(i, Bound(left))
  }

  function CostOf(e: Estimates, plan: Plan): real {
    match plan
    case Base(i) => e.work(i, {})
    case Join(left, i) =>
      var work := e.work(i, Bound(left));
      CostOf(e, left) + if OutputOf(e, left) > 1.0 then OutputOf(e, left) * work else work
  }

  // ----- the same, said of the relations in their order

  function Elements(s: seq<nat>): set<nat> {
    set x | x in s
  }

  /** The rows that the first k relations leave: the product of their outputs, each with the ones before
      it bound. */
  function Rows(e: Estimates, s: seq<nat>, k: nat): real
    requires k <= |s|
  {
    if k == 0 then 1.0 else Rows(e, s, k - 1) * e.output(s[k - 1], Elements(s[..k - 1]))
  }

  /** The work for the first k relations: each with the ones before it bound, once for every row that those
      leave, and at least once. */
  function TotalWork(e: Estimates, s: seq<nat>, k: nat): real
    requires k <= |s|
  {
    if k == 0 then 0.0 else
      var rows := Rows(e, s, k - 1);
      TotalWork(e, s, k - 1) + e.work(s[k - 1], Elements(s[..k - 1])) * if rows < 1.0 then 1.0 else rows
  }

  lemma {:induction false} FrontUnaffected(e: Estimates, s: seq<nat>, i: nat, k: nat)
    requires k <= |s|
    ensures Rows(e, s + [i], k) == Rows(e, s, k) && TotalWork(e, s + [i], k) == TotalWork(e, s, k)
  {
    if k > 0 {
      FrontUnaffected(e, s, i, k - 1);
      assert (s + [i])[..k - 1] == s[..k - 1];
    }
  }

  lemma OncePerRow(rows: real, work: real)
    ensures (if rows > 1.0 then rows * work else work) == work * if rows < 1.0 then 1.0 else rows
  {
  }

  lemma OneRelation(e: Estimates, i: nat)
    ensures Rows(e, [i], 1) == e.output(i, {}) && TotalWork(e, [i], 1) == e.work(i, {})
  {
    var s := [i];
    assert s[..0] == [] && Elements(s[..0]) == {};
    assert Rows(e, s, 0) == 1.0 && TotalWork(e, s, 0) == 0.0;
  }

  lemma OneRelationMore(e: Estimates, front: seq<nat>, i: nat)
    ensures var s, k, rows := front + [i], |front|, Rows(e, front, |front|);
            && Elements(s) == Elements(front) + {i}
            && Rows(e, s, k + 1) == rows * e.output(i, Elements(front))
            && TotalWork(e, s, k + 1) ==
                 TotalWork(e, front, k) + e.work(i, Elements(front)) * if rows < 1.0 then 1.0 else rows
  {
    FrontUnaffected(e, front, i, |front|);
    assert (front + [i])[..|front|] == front;
  }

  /** What a plan costs and leaves is what its relations in their order cost and leave. */
  lemma {:induction false} CostIsTotalWork(e: Estimates, plan: Plan)
    ensures var s := Relations(plan);
            && Bound(plan) == Elements(s)
            && OutputOf(e, plan) == Rows(e, s, |s|) && CostOf(e, plan) == TotalWork(e, s, |s|)
  {
    hide Rows, TotalWork, Elements;
    match plan
    case Base(i) =>
      OneRelation(e, i);
      OneElement(i);
    case Join(left, i) =>
      CostIsTotalWork(e, left);
      OneRelationMore(e, Relations(left), i);
      OncePerRow(OutputOf(e, left), e.work(i, Bound(left)));
  }

  lemma OneElement(i: nat)
    ensures Elements([i]) == {i}
  {
  }

  function Estimated(e: Estimates): Cost {
    plan => CostOf(e, plan)
  }

  /** The estimated size of a result does not depend on the order of its joins. */
  ghost predicate SizesAgree(e: Estimates) {
    forall p, q, bits: Bits | IsFor(p, bits) && IsFor(q, bits) :: OutputOf(e, p) == OutputOf(e, q)
  }

  lemma {:induction false} BoundIs(plan: Plan, bits: Bits)
    requires IsFor(plan, bits)
    ensures forall i: nat :: i in Bound(plan) <==> i < |bits| && bits[i]
  {
    match plan
    case Base(i) =>
    case Join(left, i) => BoundIs(left, bits[i := false]);
  }

  /** Then the costs of nested loop joins satisfy the principle of optimality. */
  lemma NestedLoopIsMonotone(e: Estimates)
    requires SizesAgree(e)
    ensures Monotone(Estimated(e))
  {
    forall p, q, bits: Bits, i: nat
      | IsFor(p, bits) && IsFor(q, bits) && i < |bits| && !bits[i] && CostOf(e, p) <= CostOf(e, q)
      ensures CostOf(e, Join(p, i)) <= CostOf(e, Join(q, i))
    {
      BoundIs(p, bits);
      BoundIs(q, bits);
      assert Bound(p) == Bound(q);
      assert OutputOf(e, p) == OutputOf(e, q);
    }
  }

  // ----- the order that is chosen

  /** All of the first n relations, each once. */
  ghost predicate OrderOf(s: seq<nat>, n: nat) {
    && |s| == n
    && (forall i, j | 0 <= i < j < n :: s[i] != s[j])
    && (forall x | 0 <= x < n :: x in s) && (forall k | 0 <= k < n :: s[k] < n)
  }

  /** How many rows some relations leave does not depend on their order. */
  ghost predicate OrdersAgree(e: Estimates) {
    forall s, t | Distinct(s) && Distinct(t) && Elements(s) == Elements(t) :: Rows(e, s, |s|) == Rows(e, t, |t|)
  }

  lemma OrdersAgreeIsEnough(e: Estimates)
    requires OrdersAgree(e)
    ensures SizesAgree(e)
  {
    forall p, q, bits: Bits | IsFor(p, bits) && IsFor(q, bits) ensures OutputOf(e, p) == OutputOf(e, q) {
      IsForMeans(p, bits);
      IsForMeans(q, bits);
      CostIsTotalWork(e, p);
      CostIsTotalWork(e, q);
      SameElements(Relations(p), Relations(q), bits);
    }
  }

  lemma SameElements(s: seq<nat>, t: seq<nat>, bits: Bits)
    requires Lists(s, bits) && Lists(t, bits)
    ensures Elements(s) == Elements(t)
  {
  }

  function PlanOf(s: seq<nat>): Plan
    requires s != []
  {
    if |s| == 1 then Base(s[0]) else Join(PlanOf(s[..|s| - 1]), s[|s| - 1])
  }

  lemma {:induction false} RelationsOfPlan(s: seq<nat>)
    requires s != []
    ensures Relations(PlanOf(s)) == s
  {
    if |s| > 1 {
      RelationsOfPlan(s[..|s| - 1]);
    }
  }

  lemma ListsAll(s: seq<nat>, all: Bits)
    requires AllOnes(all)
    ensures Lists(s, all) ==> Distinct(s) && (forall x | 0 <= x < |all| :: x in s) && (forall k | 0 <= k < |s| :: s[k] < |all|)
    ensures OrderOf(s, |all|) ==> Lists(s, all)
  {
  }

  lemma {:induction false} AsMany(s: seq<nat>, n: nat)
    requires Distinct(s) && (forall x | 0 <= x < n :: x in s) && (forall k | 0 <= k < |s| :: s[k] < n)
    ensures |s| == n
  {
    ElementsCount(s);
    FirstsAre(n);
    assert Elements(s) == Firsts(n);
  }

  lemma {:induction false} ElementsCount(s: seq<nat>)
    requires Distinct(s)
    ensures |Elements(s)| == |s|
  {
    if s != [] {
      var front := s[..|s| - 1];
      ElementsCount(front);
      assert s == front + [s[|s| - 1]];
      assert Elements(s) == Elements(front) + {s[|s| - 1]};
    }
  }

  function Firsts(n: nat): set<nat> {
    if n == 0 then {} else Firsts(n - 1) + {n - 1}
  }

  lemma {:induction false} FirstsAre(n: nat)
    ensures |Firsts(n)| == n && forall x: nat :: x in Firsts(n) <==> x < n
  {
    if n > 0 {
      FirstsAre(n - 1);
    }
  }

  /** Optimize, and read off the order: when sizes do not depend on the order, no order of the relations
      takes less work. */
  method BestOrder(e: Estimates, n: nat) returns (order: seq<nat>)
    requires 0 < n
    ensures OrderOf(order, n)
    ensures OrdersAgree(e) ==> forall s | OrderOf(s, n) :: TotalWork(e, order, n) <= TotalWork(e, s, n)
  {
    hide OrdersAgree, SizesAgree, Monotone, Cheapest, Kept, IsFor, Lists, TotalWork, CostOf;
    var optimizer := new SelingerOptimizer(n, Estimated(e));
    var plan := optimizer.GetPlan();
    order := Relations(plan);
    ghost var all := seq(n, _ => true);
    assert AllOnes(all) && IsFor(plan, all);
    IsForMeans(plan, all);
    IsOrder(order, all);
    if OrdersAgree(e) {
      OrdersAgreeIsEnough(e);
      NestedLoopIsMonotone(e);
      forall s | OrderOf(s, n) ensures |s| == n && TotalWork(e, order, n) <= TotalWork(e, s, n) {
        NoOrderIsCheaper(e, plan, s, all);
      }
    }
  }

  lemma IsOrder(s: seq<nat>, all: Bits)
    requires AllOnes(all) && Lists(s, all)
    ensures OrderOf(s, |all|)
  {
    ListsAll(s, all);
    AsMany(s, |all|);
  }

  lemma NoOrderIsCheaper(e: Estimates, plan: Plan, s: seq<nat>, all: Bits)
    requires AllOnes(all) && IsFor(plan, all) && Cheapest(plan, all, Estimated(e)) && OrderOf(s, |all|) && all != []
    ensures |Relations(plan)| == |all| == |s|
    ensures TotalWork(e, Relations(plan), |all|) <= TotalWork(e, s, |all|)
  {
    IsForMeans(plan, all);
    IsOrder(Relations(plan), all);
    ListsAll(s, all);
    RelationsOfPlan(s);
    IsForMeans(PlanOf(s), all);
    CostIsTotalWork(e, plan);
    CostIsTotalWork(e, PlanOf(s));
    assert Estimated(e)(plan) <= Estimated(e)(PlanOf(s));
  }

  /** Relation 0 alone leaves four rows and every other step doubles them; relation 0 is cheaper to begin
      with; relation 2 is dear unless the other two have bound its variables. */
  function Skewed(): Estimates {
    Estimates((i: nat, bound: set<nat>) => if i == 0 && bound == {} then 4.0 else 2.0,
              (i: nat, bound: set<nat>) =>
                if i == 2 && bound != {0, 1} then 100.0
                else if bound != {} then 2.0 else if i == 0 then 1.0 else 6.0)
  }

  lemma SkewedJoins(a: nat, b: nat)
    requires a != b && a < 2 && b < 2
    ensures var start := if a == 0 then 4.0 else 2.0;
            var p := Join(Base(a), b);
            && OutputOf(Skewed(), p) == start * 2.0
            && CostOf(Skewed(), p) == (if a == 0 then 1.0 else 6.0) + start * 2.0
            && CostOf(Skewed(), Join(p, 2)) == CostOf(Skewed(), p) + start * 4.0
  {
    var p := Join(Base(a), b);
    assert Bound(Base(a)) == {a} != {};
    assert Bound(p) == {0, 1};
  }

  /** A pair with relation 2 is dear, and so is what is joined to it. */
  lemma PairsWithTwoAreDear(a: nat, b: nat, c: nat)
    requires a != b && (a == 2 || b == 2) && c != 2
    ensures CostOf(Skewed(), Join(Join(Base(a), b), c)) >= 100.0
  {
    var p := Join(Base(a), b);
    assert Bound(Base(a)) == {a};
    assert {a} != {0, 1} by { assert !(0 in {a} && 1 in {a}); }
    assert OutputOf(Skewed(), Base(a)) >= 2.0;
    assert OutputOf(Skewed(), p) >= 0.0;
    assert CostOf(Skewed(), p) >= 100.0;
  }

  /** Without agreement the optimizer can miss the best plan: of two orders of relations 0 and 1 it keeps
      the cheaper one, and that one leaves more rows for the last join. */
  lemma OptimizerMissesBest(plan: Plan)
    requires Kept(plan, [true, true, true], Estimated(Skewed()))
    ensures CostOf(Skewed(), plan) == 25.0
    ensures IsFor(Join(Join(Base(1), 0), 2), [true, true, true])
    ensures CostOf(Skewed(), Join(Join(Base(1), 0), 2)) == 18.0
    ensures !Cheapest(plan, [true, true, true], Estimated(Skewed()))
    ensures !SizesAgree(Skewed()) && !Monotone(Estimated(Skewed()))
  {
    hide CostOf, OutputOf, Skewed, Monotone, SizesAgree, Kept, Cheapest;
    var all: Bits := [true, true, true];
    var p, q := Join(Base(0), 1), Join(Base(1), 0);
    SkewedJoins(0, 1);
    SkewedJoins(1, 0);
    OrdersOf(all);
    AtMost25(plan, all);
    OrderOfThree(plan, all);
    NotCheapest(plan, Join(q, 2), all);
    NotMonotone(p, q, [true, true, false], 2, Skewed());
  }

  lemma NotCheapest(plan: Plan, other: Plan, bits: Bits)
    requires IsFor(other, bits) && CostOf(Skewed(), other) < CostOf(Skewed(), plan)
    ensures !Cheapest(plan, bits, Estimated(Skewed()))
  {
    hide CostOf, Skewed;
    assert Estimated(Skewed())(other) < Estimated(Skewed())(plan);
  }

  lemma OrdersOf(all: Bits)
    requires all == [true, true, true]
    ensures IsFor(Join(Base(0), 1), [true, true, false]) && IsFor(Join(Base(1), 0), [true, true, false])
    ensures IsFor(Join(Join(Base(1), 0), 2), all) && all[2 := false] == [true, true, false]
  {
    assert [true, true, false][1 := false] == Single(3, 0);
    assert [true, true, false][0 := false] == Single(3, 1);
  }

  /** The kept plan for relations 0 and 1 begins with relation 0. */
  lemma KeptPair(left: Plan)
    requires Kept(left, [true, true, false], Estimated(Skewed()))
    ensures left == Join(Base(0), 1)
  {
    hide CostOf, OutputOf, Skewed;
    var bits := [true, true, false];
    SkewedJoins(0, 1);
    SkewedJoins(1, 0);
    PairOf(left, bits, 0, 1, 2);
    assert bits[1];
    var other :| Kept(other, bits[1 := false], Estimated(Skewed())) && Estimated(Skewed())(left) <= Estimated(Skewed())(Join(other, 1));
    assert bits[1 := false] == Single(3, 0);
    OneOf(other, 3, 0);
  }

  lemma OneOf(plan: Plan, n: nat, i: nat)
    requires i < n && IsFor(plan, Single(n, i))
    ensures plan == Base(i)
  {
    IndexOfSingle(n, i);
    SizeOfPlan(plan, Single(n, i));
    assert Single(n, plan.relation)[i];
  }

  lemma NotBase(plan: Plan, bits: Bits, a: nat, b: nat)
    requires IsFor(plan, bits) && a < |bits| && b < |bits| && a != b && bits[a] && bits[b]
    ensures plan.Join?
  {
  }

  lemma PairOf(plan: Plan, bits: Bits, a: nat, b: nat, c: nat)
    requires |bits| == 3 && a < 3 && b < 3 && c < 3 && a != b && b != c && a != c
    requires bits[a] && bits[b] && !bits[c] && IsFor(plan, bits)
    ensures plan == Join(Base(a), b) || plan == Join(Base(b), a)
  {
    assert bits[b := false] == Single(3, a) && bits[a := false] == Single(3, b);
    NotBase(plan, bits, a, b);
    OneOf(plan.left, 3, if plan.right == a then b else a);
  }

  lemma AtMost25(plan: Plan, all: Bits)
    requires all == [true, true, true] && Kept(plan, all, Estimated(Skewed()))
    ensures IsFor(plan, all) && CostOf(Skewed(), plan) <= 25.0
    ensures plan.Join? && plan.right == 2 ==> plan.left == Join(Base(0), 1)
  {
    hide CostOf, OutputOf, Skewed;
    SkewedJoins(0, 1);
    assert all[2 := false] == [true, true, false];
    NotBase(plan, all, 0, 1);
    assert all[2];
    var left :| Kept(left, all[2 := false], Estimated(Skewed())) && Estimated(Skewed())(plan) <= Estimated(Skewed())(Join(left, 2));
    KeptPair(left);
    if plan.right == 2 {
      KeptPair(plan.left);
    }
  }

  /** A plan for all three that costs no more than that ends with relation 2. */
  lemma OrderOfThree(plan: Plan, all: Bits)
    requires all == [true, true, true] && IsFor(plan, all) && CostOf(Skewed(), plan) <= 25.0
    requires plan.Join? && plan.right == 2 ==> plan.left == Join(Base(0), 1)
    ensures plan == Join(Join(Base(0), 1), 2)
  {
    hide CostOf, OutputOf, Skewed;
    NotBase(plan, all, 0, 1);
    if plan.right != 2 {
      var other := 1 - plan.right;
      PairOf(plan.left, all[plan.right := false], other, 2, plan.right);
      PairsWithTwoAreDear(other, 2, plan.right);
      PairsWithTwoAreDear(2, other, plan.right);
      assert false;
    }
  }

  lemma {:induction false} NotMonotone(p: Plan, q: Plan, bits: Bits, i: nat, e: Estimates)
    requires IsFor(p, bits) && IsFor(q, bits) && i < |bits| && !bits[i]
    requires CostOf(e, p) <= CostOf(e, q) && CostOf(e, Join(p, i)) > CostOf(e, Join(q, i))
    requires OutputOf(e, p) != OutputOf(e, q)
    ensures !Monotone(Estimated(e)) && !SizesAgree(e)
  {
    hide CostOf, OutputOf;
    assert Estimated(e)(p) <= Estimated(e)(q) && Estimated(e)(Join(p, i)) > Estimated(e)(Join(q, i));
  }
}
