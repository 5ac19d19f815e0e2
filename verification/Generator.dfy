/** The workload generator: how much memory a utilisation budget buys, the overhead a memory amount
    costs, and the random tasks. */
module Generator {

  // ---------- the two piecewise-linear functions ----------

  /** Slow-down a memory type adds when all of its share is used. */
  function Overhead(scale: real): real
    requires scale > 0.0
  {
    1.0 / scale - 1.0
  }

  /** Overhead of a type of which only a part is used. */
  function Partly(overhead: real, used: real, perType: real): real
    requires perType > 0.0
  {
    overhead * used / perType
  }

  /** The part of one type's share that the rest of a budget buys. */
  function LastShare(share: real, budget: real, overhead: real): real
    requires overhead > 0.0
  {
    share * budget / overhead
  }

  ghost predicate Scales(scales: seq<real>) {
    |scales| > 0 && forall i :: 0 <= i < |scales| ==> 0.0 < scales[i] <= 1.0
  }

  /** Overhead of all memory types from i on. */
  ghost function TotalOverhead(scales: seq<real>, i: nat): real
    requires Scales(scales) && i <= |scales|
    decreases |scales| - i
  {
    if i == |scales| then 0.0 else Overhead(scales[i]) + TotalOverhead(scales, i + 1)
  }

  /** The share of all memory, beyond type 0, that a budget buys from type i on. */
  ghost function Bought(scales: seq<real>, i: nat, budget: real): real
    requires Scales(scales) && i <= |scales|
    decreases |scales| - i
  {
    if i == |scales| || budget <= 0.0 then 0.0
    else
      var share := 1.0 / |scales| as real;
      if Overhead(scales[i]) < budget then share + Bought(scales, i + 1, budget - Overhead(scales[i]))
      else LastShare(share, budget, Overhead(scales[i]))
  }

  /** What an amount of memory costs when it is taken from the types in order, perType of each. */
  ghost function Cost(scales: seq<real>, perType: real, i: nat, used: real): real
    requires Scales(scales) && i <= |scales| && 0.0 <= perType && 0.0 <= used
    decreases |scales| - i
  {
    if i == |scales| then 0.0
    else if used < perType then Partly(Overhead(scales[i]), used, perType)
    else Overhead(scales[i]) + Cost(scales, perType, i + 1, used - perType)
  }

  method GetMemUtil(scales: seq<real>, utilTarget: real, utilCpu: real) returns (utilMem: real)
    requires Scales(scales)
    ensures utilMem == 1.0 / |scales| as real + Bought(scales, 1, utilTarget - utilCpu)
  {
    var utilBymem := utilTarget - utilCpu;
    var share := 1.0 / |scales| as real;
    utilMem := share;
    var i := 1;
    while i < |scales| && utilBymem > 0.0
      invariant 1 <= i <= |scales|
      invariant utilMem + Bought(scales, i, utilBymem) == share + Bought(scales, 1, utilTarget - utilCpu)
    {
      var utilOverhead := Overhead(scales[i]);
      if utilOverhead < utilBymem {
        utilBymem := utilBymem - utilOverhead;
        utilMem := utilMem + share;
      } else {
        utilMem := utilMem + LastShare(share, utilBymem, utilOverhead);
        return;
      }
      i := i + 1;
    }
  }

  method GetUtilOverheadBymem(scales: seq<real>, memTotal: nat, memUsed: nat) returns (utilOverhead: real)
    requires Scales(scales)
    ensures utilOverhead == Cost(scales, (memTotal / |scales|) as real, 0, memUsed as real)
  {
    utilOverhead := 0.0;
    var perType := memTotal / |scales|;
    var left: nat := memUsed;
    var i := 0;
    while i < |scales|
      invariant i <= |scales|
      invariant utilOverhead + Cost(scales, perType as real, i, left as real)
             == Cost(scales, perType as real, 0, memUsed as real)
    {
      var overhead := Overhead(scales[i]);
      if left < perType {
        utilOverhead := utilOverhead + Partly(overhead, left as real, perType as real);
        return;
      } else {
        utilOverhead := utilOverhead + overhead;
        left := left - perType;
      }
      i := i + 1;
    }
  }

  // ---------- they undo each other ----------

  lemma OverheadNonNegative(scale: real)
    requires 0.0 < scale <= 1.0
    ensures Overhead(scale) >= 0.0
  {}

  /** A type of scale 1/2 doubles the execution time: the overhead is what comes on top of it. */
  lemma OverheadLaw(scale: real)
    requires scale > 0.0
    ensures scale * (1.0 + Overhead(scale)) == 1.0
  {}

  /** What the types from i on make of one unit of work. */
  ghost function Reciprocals(scales: seq<real>, i: nat): real
    requires Scales(scales) && i <= |scales|
    decreases |scales| - i
  {
    if i == |scales| then 0.0 else 1.0 / scales[i] + Reciprocals(scales, i + 1)
  }

  lemma {:induction false} TotalOverheadLaw(scales: seq<real>, i: nat)
    requires Scales(scales) && i <= |scales|
    ensures TotalOverhead(scales, i) == Reciprocals(scales, i) - (|scales| - i) as real
    decreases |scales| - i
  {
    if i < |scales| {
      TotalOverheadLaw(scales, i + 1);
    }
  }

  lemma CostOfPart(scales: seq<real>, perType: real, i: nat, rest: real)
    requires Scales(scales) && i <= |scales| && 0.0 <= rest < perType
    ensures Cost(scales, perType, i, rest)
         == if i == |scales| then 0.0 else (1.0 / scales[i] - 1.0) * (rest / perType)
  {
    if i < |scales| {
      assert Partly(Overhead(scales[i]), rest, perType) == Overhead(scales[i]) * (rest / perType);
    }
  }

  lemma OneLess(whole: nat, perType: real, rest: real, used: real)
    requires whole > 0 && 0.0 <= rest < perType && used == whole as real * perType + rest
    ensures used - perType == (whole - 1) as real * perType + rest && used >= perType
  {
    var less := (whole - 1) as real;
    assert less * perType >= 0.0;
    assert whole as real * perType == less * perType + perType;
  }

  /** Using some types in full and a part of the next costs their overheads and that part of one more. */
  lemma {:induction false} CostLaw(scales: seq<real>, perType: real, i: nat, whole: nat, rest: real, used: real)
    requires Scales(scales) && i + whole <= |scales| && 0.0 <= rest < perType
    requires used == whole as real * perType + rest
    ensures used >= 0.0
    ensures Cost(scales, perType, i, used)
         == Reciprocals(scales, i) - Reciprocals(scales, i + whole) - whole as real
            + if i + whole == |scales| then 0.0 else (1.0 / scales[i + whole] - 1.0) * (rest / perType)
    decreases whole
  {
    hide Cost;
    if whole == 0 {
      CostOfPart(scales, perType, i, rest);
    } else {
      OneLess(whole, perType, rest, used);
      CostLaw(scales, perType, i + 1, whole - 1, rest, used - perType);
      CostWhole(scales, perType, i, used);
    }
  }

  lemma CostWhole(scales: seq<real>, perType: real, i: nat, used: real)
    requires Scales(scales) && i < |scales| && 0.0 <= perType <= used
    ensures Cost(scales, perType, i, used) == 1.0 / scales[i] - 1.0 + Cost(scales, perType, i + 1, used - perType)
  {}

  lemma {:induction false} BoughtNonNegative(scales: seq<real>, i: nat, budget: real)
    requires Scales(scales) && i <= |scales|
    ensures Bought(scales, i, budget) >= 0.0
    decreases |scales| - i
  {
    if i < |scales| && budget > 0.0 {
      OverheadNonNegative(scales[i]);
      if Overhead(scales[i]) < budget {
        BoughtNonNegative(scales, i + 1, budget - Overhead(scales[i]));
      }
    }
  }

  lemma {:induction false} TotalNonNegative(scales: seq<real>, i: nat)
    requires Scales(scales) && i <= |scales|
    ensures TotalOverhead(scales, i) >= 0.0
    decreases |scales| - i
  {
    if i < |scales| {
      OverheadNonNegative(scales[i]);
      TotalNonNegative(scales, i + 1);
    }
  }

  function Min(x: real, y: real): real {
    if x <= y then x else y
  }

  lemma {:induction false} CostOfNothing(scales: seq<real>, perType: real, i: nat)
    requires Scales(scales) && i <= |scales| && 0.0 < perType
    ensures Cost(scales, perType, i, 0.0) == 0.0
  {}

  lemma EqualShares(memTotal: real, perType: real, n: nat, rest: real)
    requires n > 0 && memTotal == perType * n as real
    ensures memTotal * (1.0 / n as real) == perType
    ensures memTotal * (1.0 / n as real + rest) == perType + memTotal * rest
  {}

  /** One step of Cost, by the amount that is left after the step. */
  lemma CostStep(scales: seq<real>, perType: real, i: nat, used: real, rest: real)
    requires Scales(scales) && i < |scales| && 0.0 <= perType && 0.0 <= rest && used == perType + rest
    ensures Cost(scales, perType, i, used) == Overhead(scales[i]) + Cost(scales, perType, i + 1, rest)
  {}

  /** The amount of memory behind a bought share. */
  ghost function Amount(scales: seq<real>, memTotal: real, i: nat, budget: real): real
    requires Scales(scales) && i <= |scales|
  {
    memTotal * Bought(scales, i, budget)
  }

  lemma NoPurchase(scales: seq<real>, memTotal: real, i: nat, budget: real)
    requires Scales(scales) && i <= |scales| && (i == |scales| || budget <= 0.0)
    ensures Amount(scales, memTotal, i, budget) == 0.0
  {}

  lemma FullPurchase(scales: seq<real>, memTotal: real, perType: real, i: nat, budget: real)
    requires Scales(scales) && i < |scales| && memTotal == perType * |scales| as real
    requires 0.0 <= Overhead(scales[i]) < budget
    ensures Amount(scales, memTotal, i, budget)
         == perType + Amount(scales, memTotal, i + 1, budget - Overhead(scales[i]))
  {}

  lemma LastPurchase(scales: seq<real>, memTotal: real, perType: real, i: nat, budget: real)
    requires Scales(scales) && i < |scales| && 0.0 < perType && memTotal == perType * |scales| as real
    requires 0.0 < budget <= Overhead(scales[i])
    ensures var used := Amount(scales, memTotal, i, budget);
            && 0.0 < used <= perType && (used == perType <==> budget == Overhead(scales[i]))
            && Partly(Overhead(scales[i]), used, perType) == budget
  {}

  /** Spending a budget from type i on costs the budget, or everything there is to buy. */
  lemma {:induction false} CostOfBought(scales: seq<real>, memTotal: real, perType: real, i: nat, budget: real)
    requires Scales(scales) && i <= |scales| && 0.0 <= budget
    requires 0.0 < perType && memTotal == perType * |scales| as real
    ensures Amount(scales, memTotal, i, budget) >= 0.0
    ensures Cost(scales, perType, i, Amount(scales, memTotal, i, budget)) == Min(budget, TotalOverhead(scales, i))
    decreases |scales| - i
  {
    hide Amount, Bought, Partly, Overhead;
    TotalNonNegative(scales, i);
    if i < |scales| && budget > 0.0 {
      var overhead, used := Overhead(scales[i]), Amount(scales, memTotal, i, budget);
      OverheadNonNegative(scales[i]);
      TotalNonNegative(scales, i + 1);
      if overhead < budget {
        var rest := Amount(scales, memTotal, i + 1, budget - overhead);
        CostOfBought(scales, memTotal, perType, i + 1, budget - overhead);
        FullPurchase(scales, memTotal, perType, i, budget);
        CostStep(scales, perType, i, used, rest);
      } else {
        LastPurchase(scales, memTotal, perType, i, budget);
        CostOfNothing(scales, perType, i + 1);
        if used == perType {
          CostStep(scales, perType, i, used, 0.0);
        }
      }
    } else {
      NoPurchase(scales, memTotal, i, budget);
      CostOfNothing(scales, perType, i);
    }
  }

  lemma WholeShares(memTotal: nat, n: nat)
    requires n > 0 && memTotal > 0 && memTotal % n == 0
    ensures memTotal / n > 0 && memTotal as real == (memTotal / n) as real * n as real
  {}

  /** The memory amount that a budget buys in all. */
  ghost function BudgetMemory(scales: seq<real>, memTotal: nat, budget: real): real
    requires Scales(scales)
  {
    memTotal as real * (1.0 / |scales| as real + Bought(scales, 1, budget))
  }

  /** Round trip: when every type gets the same whole share of the memory, the memory that a
      utilisation budget buys costs exactly that budget, capped by what the types can cost, on top of
      the overhead of type 0 (zero when its scale is 1). */
  lemma GeneratorRoundTrip(scales: seq<real>, memTotal: nat, budget: real, used: real)
    requires Scales(scales) && 0.0 <= budget && memTotal > 0 && memTotal % |scales| == 0
    requires used == BudgetMemory(scales, memTotal, budget)
    ensures used >= 0.0
    ensures Cost(scales, (memTotal / |scales|) as real, 0, used)
         == Overhead(scales[0]) + Min(budget, TotalOverhead(scales, 1))
  {
    hide Overhead, Bought, Min, TotalOverhead;
    var perType := memTotal / |scales|;
    WholeShares(memTotal, |scales|);
    CostOfBought(scales, memTotal as real, perType as real, 1, budget);
    EqualShares(memTotal as real, perType as real, |scales|, Bought(scales, 1, budget));
    CostStep(scales, perType as real, 0, used, Amount(scales, memTotal as real, 1, budget));
  }

  // ---------- truncation ----------

  lemma PartlyMonotone(overhead: real, p: real, q: real, u: real, v: real)
    requires 0.0 <= overhead && 0.0 <= v <= u && 0.0 < p <= q
    ensures Partly(overhead, v, q) <= Partly(overhead, u, p)
  {}

  lemma PartlyAtMost(overhead: real, q: real, v: real)
    requires 0.0 <= overhead && 0.0 <= v <= q && 0.0 < q
    ensures 0.0 <= Partly(overhead, v, q) <= overhead
  {
    assert 0.0 <= v / q <= 1.0;
    assert Partly(overhead, v, q) == overhead * (v / q);
  }

  lemma {:induction false} CostNonNegative(scales: seq<real>, p: real, i: nat, u: real)
    requires Scales(scales) && i <= |scales| && 0.0 <= p && 0.0 <= u
    ensures 0.0 <= Cost(scales, p, i, u)
    decreases |scales| - i
  {
    hide Partly, Overhead;
    if i < |scales| {
      OverheadNonNegative(scales[i]);
      if u < p {
        PartlyAtMost(Overhead(scales[i]), p, u);
      } else {
        CostNonNegative(scales, p, i + 1, u - p);
      }
    }
  }

  /** More memory, taken in smaller shares, never costs less. */
  lemma {:induction false} CostMonotone(scales: seq<real>, p: real, q: real, i: nat, u: real, v: real)
    requires Scales(scales) && i <= |scales| && 0.0 <= p <= q && 0.0 <= v <= u
    ensures Cost(scales, q, i, v) <= Cost(scales, p, i, u)
    decreases |scales| - i
  {
    hide Partly, Overhead;
    if i < |scales| {
      OverheadNonNegative(scales[i]);
      if u < p {
        PartlyMonotone(Overhead(scales[i]), p, q, u, v);
      } else if v < q {
        PartlyAtMost(Overhead(scales[i]), q, v);
        CostNonNegative(scales, p, i + 1, u - p);
      } else {
        CostMonotone(scales, p, q, i + 1, u - p, v - q);
      }
    }
  }

  /** Without equal whole shares the bought memory costs at least as much. */
  lemma RoundTripAtLeast(scales: seq<real>, memTotal: nat, budget: real, used: real)
    requires Scales(scales) && 0.0 <= budget && memTotal > 0
    requires used == BudgetMemory(scales, memTotal, budget)
    ensures used >= 0.0
    ensures Cost(scales, (memTotal / |scales|) as real, 0, used)
         >= Overhead(scales[0]) + Min(budget, TotalOverhead(scales, 1))
  {
    hide Overhead, Bought, Min, TotalOverhead;
    var n, exact := |scales|, memTotal as real / |scales| as real;
    assert memTotal as real == exact * n as real;
    CostOfBought(scales, memTotal as real, exact, 1, budget);
    EqualShares(memTotal as real, exact, n, Bought(scales, 1, budget));
    CostStep(scales, exact, 0, used, Amount(scales, memTotal as real, 1, budget));
    FloorQuotient(memTotal, n);
    CostMonotone(scales, (memTotal / n) as real, exact, 0, used, used);
  }

  lemma FloorQuotient(a: nat, n: nat)
    requires n > 0
    ensures (a / n) as real <= a as real / n as real
  {}

  /** The cost per unit of memory never exceeds the largest overhead over one type's share. */
  lemma {:induction false} CostLipschitz(scales: seq<real>, p: real, i: nat, u: real, v: real, rate: real)
    requires Scales(scales) && i <= |scales| && 0.0 < p && 0.0 <= v <= u
    requires forall j :: 0 <= j < |scales| ==> Overhead(scales[j]) <= rate * p
    ensures 0.0 <= Cost(scales, p, i, u) - Cost(scales, p, i, v) <= rate * (u - v)
    decreases |scales| - i
  {
    hide Partly, Overhead;
    assert 0.0 <= rate by { OverheadNonNegative(scales[0]); RateNonNegative(Overhead(scales[0]), rate, p); }
    RateTimes(rate, u - v);
    if i < |scales| {
      var overhead := Overhead(scales[i]);
      OverheadNonNegative(scales[i]);
      CostMonotone(scales, p, p, i, u, v);
      if u < p {
        PartlySlope(overhead, p, u, v, rate);
      } else if v < p {
        PartlySlope(overhead, p, p, v, rate);
        PartlyWhole(overhead, p);
        CostLipschitz(scales, p, i + 1, u - p, 0.0, rate);
        CostOfNothing(scales, p, i + 1);
        SplitRate(rate, u, p, v);
      } else {
        CostLipschitz(scales, p, i + 1, u - p, v - p, rate);
      }
    }
  }

  lemma RateNonNegative(overhead: real, rate: real, p: real)
    requires 0.0 <= overhead <= rate * p && 0.0 < p
    ensures 0.0 <= rate
  {}

  lemma RateTimes(rate: real, d: real)
    requires 0.0 <= rate && 0.0 <= d
    ensures 0.0 <= rate * d
  {}

  lemma SplitRate(rate: real, u: real, p: real, v: real)
    ensures rate * (u - p - 0.0) + rate * (p - v) == rate * (u - v)
  {}

  lemma PartlyWhole(overhead: real, p: real)
    requires 0.0 < p
    ensures Partly(overhead, p, p) == overhead
  {}

  lemma PartlySlope(overhead: real, p: real, u: real, v: real, rate: real)
    requires 0.0 <= overhead <= rate * p && 0.0 < p && v <= u
    ensures Partly(overhead, u, p) - Partly(overhead, v, p) <= rate * (u - v)
  {}

  lemma RateOf(largest: real, p: real) returns (rate: real)
    requires 0.0 < p
    ensures rate == largest / p && rate * p == largest
  {
    rate := largest / p;
  }

  /** Whole units per task: rounding down for each of n tasks drops less than n units. */
  lemma PerTaskTruncation(used: real, n: nat)
    requires n > 0 && used >= 0.0
    ensures var perTask := (used / n as real).Floor;
            perTask >= 0 && 0.0 <= used - (n * perTask) as real < n as real
  {
    var x, m := used / n as real, n as real;
    var perTask := x.Floor;
    assert x * m == used;
    ProductCast(n, perTask);
    Scaled(x, perTask as real, m, (n * perTask) as real);
  }

  lemma ProductCast(n: nat, k: int)
    ensures (n * k) as real == k as real * n as real
  {}

  lemma Scaled(x: real, low: real, m: real, product: real)
    requires low <= x < low + 1.0 && m > 0.0 && product == low * m
    ensures product <= x * m < product + m
  {
    var gap := low + 1.0 - x;
    assert gap * m > 0.0;
    assert gap * m == low * m + m - x * m;
  }

  lemma LongStep(x: real, y: real, rate: real, d: real, n: nat, p: real, largest: real)
    requires 0.0 < p && 0.0 <= rate && rate * p == largest && 0.0 <= d <= n as real && x - y <= rate * d
    ensures x - y <= n as real * largest / p
  {
    RateTimes(rate, n as real - d);
    assert rate * d + rate * (n as real - d) == rate * n as real;
    assert n as real * largest / p == n as real * rate;
  }

  /** Truncating the memory of each of n tasks loses at most n times the largest overhead per unit. */
  lemma TruncationLoss(scales: seq<real>, perType: nat, used: real, n: nat, largest: real)
    requires Scales(scales) && perType > 0 && used >= 0.0 && n > 0
    requires forall j :: 0 <= j < |scales| ==> Overhead(scales[j]) <= largest
    ensures (used / n as real).Floor >= 0
    ensures var full := Cost(scales, perType as real, 0, used);
            var kept := (n * (used / n as real).Floor) as real;
            && 0.0 <= kept
            && full - n as real * largest / perType as real <= Cost(scales, perType as real, 0, kept) <= full
  {
    hide Overhead, Cost;
    var p := perType as real;
    var rate := RateOf(largest, p);
    PerTaskTruncation(used, n);
    var kept := (n * (used / n as real).Floor) as real;
    OverheadNonNegative(scales[0]);
    CostLipschitz(scales, p, 0, used, kept, rate);
    RateNonNegative(Overhead(scales[0]), rate, p);
    RateTimes(rate, used - kept);
    LongStep(Cost(scales, p, 0, used), Cost(scales, p, 0, kept), rate, used - kept, n, p, largest);
  }

  /** Round trip through whole units per task: with a first type that adds no overhead the nominal memory
      of all tasks costs at most the capped budget, and falls short by at most the number of tasks times
      the largest overhead per unit of a type's share. */
  lemma TruncatedRoundTrip(scales: seq<real>, memTotal: nat, budget: real, used: real, n: nat, largest: real)
    requires Scales(scales) && scales[0] == 1.0 && 0.0 <= budget && memTotal > 0 && memTotal % |scales| == 0
    requires used == BudgetMemory(scales, memTotal, budget) && n > 0
    requires forall j :: 0 <= j < |scales| ==> Overhead(scales[j]) <= largest
    ensures 0 < memTotal / |scales| && (used / n as real).Floor >= 0
    ensures var perType := (memTotal / |scales|) as real;
            var kept := (n * (used / n as real).Floor) as real;
            var target := Min(budget, TotalOverhead(scales, 1));
            && 0.0 <= kept
            && target - n as real * largest / perType <= Cost(scales, perType, 0, kept) <= target
  {
    hide Cost, Bought, TotalOverhead, Min;
    WholeShares(memTotal, |scales|);
    GeneratorRoundTrip(scales, memTotal, budget, used);
    TruncationLoss(scales, memTotal / |scales|, used, n, largest);
  }

  /** The overhead of two amounts differs by at most the rate times their distance. */
  lemma CostNear(scales: seq<real>, p: real, u: real, v: real, rate: real, d: real)
    requires Scales(scales) && 0.0 < p && 0.0 <= u <= v + d && 0.0 <= v <= u + d
    requires forall j :: 0 <= j < |scales| ==> Overhead(scales[j]) <= rate * p
    ensures Cost(scales, p, 0, u) <= Cost(scales, p, 0, v) + rate * d
    ensures Cost(scales, p, 0, v) <= Cost(scales, p, 0, u) + rate * d
  {
    hide Cost, Overhead;
    if v <= u {
      CostWithin(scales, p, u, v, rate, d);
    } else {
      CostWithin(scales, p, v, u, rate, d);
    }
  }

  lemma CostWithin(scales: seq<real>, p: real, u: real, v: real, rate: real, d: real)
    requires Scales(scales) && 0.0 < p && 0.0 <= v <= u <= v + d
    requires forall j :: 0 <= j < |scales| ==> Overhead(scales[j]) <= rate * p
    ensures Cost(scales, p, 0, v) <= Cost(scales, p, 0, u) <= Cost(scales, p, 0, v) + rate * d
    ensures rate * d >= 0.0
  {
    hide Cost, Overhead;
    OverheadNonNegative(scales[0]);
    RateNonNegative(Overhead(scales[0]), rate, p);
    CostLipschitz(scales, p, 0, u, v, rate);
    RateMonotone(rate, u - v, d);
  }

  lemma RateMonotone(rate: real, x: real, y: real)
    requires 0.0 <= rate && 0.0 <= x <= y
    ensures 0.0 <= rate * x <= rate * y
  {}

  /** Half the nominal memory of n tasks, up or down, around what a budget buys. */
  lemma PerturbedRoundTrip(scales: seq<real>, memTotal: nat, budget: real, n: nat, memreq: nat, total: nat,
                           largest: real)
    requires Scales(scales) && scales[0] == 1.0 && 0.0 <= budget && memTotal > 0 && memTotal % |scales| == 0 && n > 0
    requires memreq == (BudgetMemory(scales, memTotal, budget) / n as real).Floor
    requires n * memreq <= 2 * total <= 3 * (n * memreq)
    requires forall j :: 0 <= j < |scales| ==> Overhead(scales[j]) <= largest
    ensures 0 < memTotal / |scales|
    ensures var perType := (memTotal / |scales|) as real;
            var target := Min(budget, TotalOverhead(scales, 1));
            var half := (n * memreq) as real / 2.0;
            var cost := Cost(scales, perType, 0, total as real);
            && cost >= target - n as real * largest / perType - largest / perType * half
            && cost <= target + largest / perType * half
  {
    hide Cost, Bought, TotalOverhead, Min, Overhead, BudgetMemory;
    TruncatedRoundTrip(scales, memTotal, budget, BudgetMemory(scales, memTotal, budget), n, largest);
    var p := (memTotal / |scales|) as real;
    var rate := RateOf(largest, p);
    CostNear(scales, p, total as real, (n * memreq) as real, rate, (n * memreq) as real / 2.0);
  }

  /** The memory each task is generated around. */
  method MemreqPerTask(scales: seq<real>, memTotal: nat, utilTarget: real, utilCpu: real, n: nat) returns (memreq: nat)
    requires Scales(scales) && n > 0
    ensures memreq == (BudgetMemory(scales, memTotal, utilTarget - utilCpu) / n as real).Floor
  {
    ghost var all := BudgetMemory(scales, memTotal, utilTarget - utilCpu);
    var utilMem := GetMemUtil(scales, utilTarget, utilCpu);
    BoughtNonNegative(scales, 1, utilTarget - utilCpu);
    SharePerTask(memTotal as real, utilMem, n as real, all);
    var utilMem1task := utilMem / n as real;
    var exact := memTotal as real * utilMem1task;
    memreq := exact.Floor;
  }

  lemma SharePerTask(memTotal: real, utilMem: real, n: real, all: real)
    requires n > 0.0 && memTotal >= 0.0 && utilMem >= 0.0 && all == memTotal * utilMem
    ensures memTotal * (utilMem / n) == all / n >= 0.0
  {}
}
