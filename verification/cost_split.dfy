/** Weight-proportional allocation of one truck's cost (apps/app1.py per
    waybill by chargeable weight, apps/app2.py per pallet by pallet weight).
    Money is counted in integer cents and weights in one fixed integer unit,
    so that each row's exact share `w_i / W * cost` is a rational number of
    cents; `round(2)` becomes rounding that share to the nearest cent, ties
    to even, and the residual correction on the last row is exact. */
module CostSplit {
  import opened Base

  function Sum(xs: seq<int>): int {
    if xs == [] then 0 else Sum(xs[..|xs| - 1]) + xs[|xs| - 1]
  }

  function Abs(x: int): nat {
    if x < 0 then -x else x
  }

  // ---- rounding ----

  /** `num / den` rounded to the nearest integer, halves to the even
      neighbour (the rounding `round(2)` applies to a share in cents). */
  function RoundHalfEven(num: int, den: int): (r: int)
    requires den > 0
    ensures 2 * Abs(r * den - num) <= den
    ensures 2 * Abs(r * den - num) == den ==> r % 2 == 0
  {
    var q := num / den;
    var m := num % den;
    assert num == q * den + m;
    if 2 * m > den then
      assert (q + 1) * den - num == den - m;
      q + 1
    else if 2 * m < den then
      assert q * den - num == -m;
      q
    else if q % 2 == 0 then
      assert q * den - num == -m;
      q
    else
      assert (q + 1) * den - num == den - m;
      q + 1
  }

  /** Nearest with halves to even determines the result: any integer that is
      within half of `num / den`, and even on a tie, is the rounded value. */
  lemma RoundHalfEvenUnique(num: int, den: int, r: int)
    requires den > 0
    requires 2 * Abs(r * den - num) <= den
    requires 2 * Abs(r * den - num) == den ==> r % 2 == 0
    ensures r == RoundHalfEven(num, den)
  {
    var q := num / den;
    var m := num % den;
    var k := r - q;
    assert r * den - num == k * den - m by {
      assert num == q * den + m;
      MulSub(r, q, den);
    }
    MulCases(k, den);
  }

  lemma MulSub(a: int, b: int, c: int)
    ensures a * c - b * c == (a - b) * c
  {
  }

  /** The multiples of a positive `d` that matter for rounding. */
  lemma MulCases(k: int, d: int)
    requires d > 0
    ensures k >= 2 ==> k * d >= 2 * d
    ensures k <= -1 ==> k * d <= -d
    ensures k == 0 ==> k * d == 0
    ensures k == 1 ==> k * d == d
  {
  }

  // ---- the allocation ----

  /** `round(w_i / W * cost, 2)` for every row, in cents. */
  function Rounded(weights: seq<int>, cost: int, total: int): (r: seq<int>)
    requires total > 0
    ensures |r| == |weights|
    ensures forall i :: 0 <= i < |weights| ==> r[i] == RoundHalfEven(weights[i] * cost, total)
  {
    seq(|weights|, i requires 0 <= i < |weights| => RoundHalfEven(weights[i] * cost, total))
  }

  /** The rounded shares with `diff = cost - sum(shares)` added to the last
      row when it is not zero. */
  function Allocate(weights: seq<int>, cost: int): (a: seq<int>)
    requires weights != [] && Sum(weights) > 0
    ensures |a| == |weights|
  {
    var r := Rounded(weights, cost, Sum(weights));
    var diff := cost - Sum(r);
    if diff != 0 then r[|r| - 1 := r[|r| - 1] + diff] else r
  }

  /** The allocated fees add up to the truck's cost, to the cent. */
  lemma Conservation(weights: seq<int>, cost: int)
    requires weights != [] && Sum(weights) > 0
    ensures Sum(Allocate(weights, cost)) == cost
  {
    var r := Rounded(weights, cost, Sum(weights));
    SumUpdateLast(r, cost - Sum(r));
  }

  lemma SumUpdateLast(xs: seq<int>, d: int)
    requires xs != []
    ensures Sum(xs[|xs| - 1 := xs[|xs| - 1] + d]) == Sum(xs) + d
  {
    var ys := xs[|xs| - 1 := xs[|xs| - 1] + d];
    assert ys[..|ys| - 1] == xs[..|xs| - 1];
  }

  /** Every row but the last is its exact share rounded to the cent, so
      within half a cent of it; the last row is its own rounded share plus
      the whole residual. */
  lemma AllocationRows(weights: seq<int>, cost: int)
    requires weights != [] && Sum(weights) > 0
    ensures var a := Allocate(weights, cost);
      && (forall i :: 0 <= i < |weights| - 1 ==>
            a[i] == RoundHalfEven(weights[i] * cost, Sum(weights))
            && 2 * Abs(a[i] * Sum(weights) - weights[i] * cost) <= Sum(weights))
      && a[|a| - 1] == RoundHalfEven(weights[|weights| - 1] * cost, Sum(weights))
                       + (cost - Sum(Rounded(weights, cost, Sum(weights))))
  {
  }

  /** The rounding error of each row, in cents times the total weight. */
  function Errors(weights: seq<int>, cost: int, total: int): (e: seq<int>)
    requires total > 0
    ensures |e| == |weights|
    ensures forall i :: 0 <= i < |weights| ==> 2 * Abs(e[i]) <= total
    ensures forall i :: 0 <= i < |weights| ==>
              e[i] == Rounded(weights, cost, total)[i] * total - weights[i] * cost
  {
    var r := Rounded(weights, cost, total);
    seq(|weights|, i requires 0 <= i < |weights| => r[i] * total - weights[i] * cost)
  }

  /** Summing `a[i] * t - b[i] * c` row by row is summing each column first. */
  lemma {:induction false} SumLinear(a: seq<int>, b: seq<int>, e: seq<int>, t: int, c: int)
    requires |a| == |b| == |e|
    requires forall i :: 0 <= i < |e| ==> e[i] == a[i] * t - b[i] * c
    ensures Sum(e) == Sum(a) * t - Sum(b) * c
    decreases |e|
  {
    if e != [] {
      var n := |e| - 1;
      SumLinear(a[..n], b[..n], e[..n], t, c);
      MulAdd(Sum(a[..n]), a[n], t);
      MulAdd(Sum(b[..n]), b[n], c);
    }
  }

  lemma MulAdd(x: int, y: int, t: int)
    ensures (x + y) * t == x * t + y * t
  {
  }

  lemma {:induction false} SumBound(e: seq<int>, bound: int)
    requires forall i :: 0 <= i < |e| ==> 2 * Abs(e[i]) <= bound
    ensures 2 * Abs(Sum(e)) <= |e| * bound
    decreases |e|
  {
    if e != [] {
      var n := |e| - 1;
      SumBound(e[..n], bound);
      assert |e| * bound == n * bound + bound;
    }
  }

  /** The last row differs from its exact share by at most half a cent per
      other row: it absorbs the other rows' rounding errors and nothing else. */
  lemma LastRowResidual(weights: seq<int>, cost: int)
    requires weights != [] && Sum(weights) > 0
    ensures var a := Allocate(weights, cost);
      var w := Sum(weights);
      2 * Abs(a[|a| - 1] * w - weights[|weights| - 1] * cost) <= (|weights| - 1) * w
  {
    var w := Sum(weights);
    var n := |weights| - 1;
    var a := Allocate(weights, cost);
    var r := Rounded(weights, cost, w);
    var e := Errors(weights, cost, w);
    SumLinear(r, weights, e, w, cost);
    SumBound(e[..n], w);
    assert Sum(e) == Sum(e[..n]) + e[n];
    assert a[n] == r[n] + (cost - Sum(r));
    MulAdd(r[n], cost - Sum(r), w);
    MulSub(cost, Sum(r), w);
    assert w * cost == cost * w;
    assert a[n] * w - weights[n] * cost == -Sum(e[..n]);
  }

  /** With weights 2, 2, 2, 1 and a cost of 2 cents every exact share but the
      last (4/7 of a cent) rounds up to a cent, so the last row is charged -1
      cent: the residual correction can make a fee negative. */
  lemma LastRowCanBeNegative(weights: seq<int>, cost: int)
    requires weights == [2, 2, 2, 1] && cost == 2
    ensures Sum(weights) > 0 && Allocate(weights, cost) == [1, 1, 1, -1]
  {
    SumOfFour(weights);
    RoundSevenths(4, 7);
    RoundSevenths(2, 7);
    var r := Rounded(weights, cost, 7);
    assert r == [1, 1, 1, 0];
    SumOfFour(r);
  }

  lemma SumOfFour(xs: seq<int>)
    requires |xs| == 4
    ensures Sum(xs) == xs[0] + xs[1] + xs[2] + xs[3]
  {
    var a, b, c := xs[..3], xs[..2], xs[..1];
    assert a[..2] == b && b[..1] == c && c[..0] == [];
    assert Sum(c) == xs[0];
    assert Sum(b) == Sum(c) + xs[1];
    assert Sum(a) == Sum(b) + xs[2];
  }

  lemma RoundSevenths(num: int, den: int)
    requires den == 7 && (num == 4 || num == 2)
    ensures RoundHalfEven(num, den) == (if num == 4 then 1 else 0)
  {
    assert num / den == 0 && num % den == num;
  }

  // ---- the ratios ----

  function SumReal(xs: seq<real>): real {
    if xs == [] then 0.0 else SumReal(xs[..|xs| - 1]) + xs[|xs| - 1]
  }

  /** `分摊比例`: each weight over the total weight. */
  function Ratios(weights: seq<int>): (q: seq<real>)
    requires Sum(weights) > 0
    ensures |q| == |weights|
    ensures forall i :: 0 <= i < |weights| ==> q[i] * (Sum(weights) as real) == weights[i] as real
  {
    seq(|weights|, i requires 0 <= i < |weights| => (weights[i] as real) / (Sum(weights) as real))
  }

  /** The ratios add up to exactly one. */
  lemma RatiosSumToOne(weights: seq<int>)
    requires Sum(weights) > 0
    ensures SumReal(Ratios(weights)) == 1.0
  {
    var w := Sum(weights) as real;
    var q := Ratios(weights);
    ScaledSum(q, weights, w);
    UnitFactor(SumReal(q), w);
  }

  lemma UnitFactor(x: real, w: real)
    requires w > 0.0 && x * w == w
    ensures x == 1.0
  {
    assert (x - 1.0) * w == 0.0;
  }

  lemma {:induction false} ScaledSum(q: seq<real>, weights: seq<int>, w: real)
    requires |q| == |weights|
    requires forall i :: 0 <= i < |q| ==> q[i] * w == weights[i] as real
    ensures SumReal(q) * w == Sum(weights) as real
    decreases |q|
  {
    if q != [] {
      var n := |q| - 1;
      ScaledSum(q[..n], weights[..n], w);
      assert SumReal(q) * w == SumReal(q[..n]) * w + q[n] * w;
    }
  }

  // ---- the gate ----

  /** Why the page stops before allocating. */
  datatype Refusal =
    | NoSelection    // nothing is selected
    | NoTruck        // the truck number is empty
    | NoCost         // the total cost is not positive
    | BadWeight      // some weight is missing or not positive
    | NoWeight       // the weights add up to zero

  /** A weight cell that is present and positive. */
  predicate GoodWeight(w: Option<int>) {
    w.Some? && w.value > 0
  }

  function Values(weights: seq<Option<int>>): (ws: seq<int>)
    requires forall i :: 0 <= i < |weights| ==> weights[i].Some? && weights[i].value > 0
    ensures |ws| == |weights|
    ensures forall i :: 0 <= i < |weights| ==> ws[i] == weights[i].value && ws[i] > 0
  {
    seq(|weights|, i requires 0 <= i < |weights| => weights[i].value)
  }

  lemma {:induction false} PositiveSum(ws: seq<int>)
    requires forall i :: 0 <= i < |ws| ==> ws[i] > 0
    ensures Sum(ws) >= |ws|
    decreases |ws|
  {
    if ws != [] {
      PositiveSum(ws[..|ws| - 1]);
    }
  }

  /** The checks before the allocation, in page order, then the allocation:
      an empty selection, an empty truck number, a non-positive cost and a
      missing or non-positive weight each stop the page. The zero-total
      check that follows can never fire once every weight is positive. */
  function SplitCost(truck: string, cost: int, weights: seq<Option<int>>): (r: Result<seq<int>, Refusal>)
    ensures r == Err(NoSelection) <==> weights == []
    ensures r == Err(NoTruck) <==> weights != [] && truck == ""
    ensures r == Err(NoCost) <==> weights != [] && truck != "" && cost <= 0
    ensures r == Err(BadWeight) <==>
              weights != [] && truck != "" && cost > 0 && exists i :: 0 <= i < |weights| && !GoodWeight(weights[i])
    ensures r != Err(NoWeight)
    ensures r.Ok? ==> |r.value| == |weights| && Sum(r.value) == cost
  {
    if weights == [] then Err(NoSelection)
    else if truck == "" then Err(NoTruck)
    else if cost <= 0 then Err(NoCost)
    else if exists i :: 0 <= i < |weights| && !GoodWeight(weights[i]) then Err(BadWeight)
    else
      var ws := Values(weights);
      PositiveSum(ws);
      if Sum(ws) <= 0 then Err(NoWeight)
      else
        Conservation(ws, cost);
        Ok(Allocate(ws, cost))
  }

  /** An accepted split charges every row but the last its share rounded to
      the cent: `SplitCost` is `Allocate` on the weights. */
  lemma SplitCostAllocates(truck: string, cost: int, weights: seq<Option<int>>)
    requires SplitCost(truck, cost, weights).Ok?
    ensures forall i :: 0 <= i < |weights| ==> weights[i].Some? && weights[i].value > 0
    ensures var ws := seq(|weights|, i requires 0 <= i < |weights| && weights[i].Some? => weights[i].value);
      Sum(ws) > 0 && SplitCost(truck, cost, weights).value == Allocate(ws, cost)
  {
    var ws := seq(|weights|, i requires 0 <= i < |weights| && weights[i].Some? => weights[i].value);
    assert ws == Values(weights);
    PositiveSum(ws);
  }
}
