/** Rank selection: the square-root expression that turns a uniform draw into a biased list position. */
module Rank {

  const M := 4
  const TWO_TO_THE_32 := 0x1_0000_0000

  /** The number of draws: M * (n_pops + 1) / 2. */
  function Draws(nPops: nat): nat {
    M * (nPops + 1) / 2
  }

  function Threshold(k: nat): nat {
    2 * k * (k + 1)
  }

  /** The integer k with 2k(k+1) <= x < 2(k+1)(k+2). */
  function KValue(x: nat): (k: nat)
    ensures Threshold(k) <= x < Threshold(k + 1)
  {
    if x == 0 then 0 else
      var k := KValue(x - 1);
      if Threshold(k + 1) <= x then ThresholdMonotone(k + 1, k + 2); k + 1 else k
  }

  function Position(nPops: nat, alpha: nat): int {
    nPops - KValue(alpha * nPops) - 1
  }

  // ---------- products and quotients ----------

  lemma ScaleMonotone(x: nat, y: nat, n: nat)
    requires x <= y
    ensures x * n <= y * n
  {}

  lemma ThresholdMonotone(k: nat, l: nat)
    requires k <= l
    ensures Threshold(k) <= Threshold(l)
    ensures k < l ==> Threshold(k) < Threshold(l)
  {
    ScaleMonotone(k, l, 2 * (k + 1));
    ScaleMonotone(k + 1, l + 1, 2 * l);
    if k < l {
      assert (k + 1) * (2 * l) < (l + 1) * (2 * l);
    }
  }

  lemma QuotientBounds(a: nat, n: nat)
    requires n >= 1
    ensures a / n * n <= a < (a / n + 1) * n
  {}

  /** Rounding a quotient up: the least multiplier that reaches y. */
  lemma CeilingQuotient(y: nat, n: nat, alpha: nat)
    requires n >= 1
    ensures (y + n - 1) / n <= alpha <==> y <= alpha * n
  {
    var q := (y + n - 1) / n;
    QuotientBounds(y + n - 1, n);
    assert (q + 1) * n == q * n + n;
    if q <= alpha {
      ScaleMonotone(q, alpha, n);
    } else {
      ScaleMonotone(alpha + 1, q, n);
      assert (alpha + 1) * n == alpha * n + n;
    }
  }

  // ---------- the square root ----------

  lemma RealSquareStrict(x: real, y: real)
    requires 0.0 <= x < y
    ensures x * x < y * y
  {
    PositiveProduct(y - x, y + x);
    assert (y - x) * (y + x) == y * y - x * x;
  }

  lemma PositiveProduct(a: real, b: real)
    requires 0.0 < a && 0.0 < b
    ensures 0.0 < a * b
  {}

  lemma OddSquare(k: nat)
    ensures (2 * k + 1) as real * (2 * k + 1) as real == (2 * Threshold(k) + 1) as real
  {}

  lemma RootBetween(root: real, low: real, high: real)
    requires 0.0 <= root && 0.0 <= low && 0.0 <= high
    requires low * low <= root * root < high * high
    ensures low <= root < high
  {
    if root < low {
      RealSquareStrict(root, low);
    }
    if high < root {
      RealSquareStrict(high, root);
    }
  }

  lemma HalfFloor(root: real, k: nat)
    requires (2 * k + 1) as real <= root < (2 * (k + 1) + 1) as real
    ensures ((root - 1.0) / 2.0).Floor == k
  {}

  lemma RootOfOperand(x: nat, root: real)
    requires root >= 0.0 && root * root == (1 + 2 * x) as real
    ensures ((root - 1.0) / 2.0).Floor == KValue(x)
  {
    hide Threshold;
    var k := KValue(x);
    OddSquare(k);
    OddSquare(k + 1);
    RootBetween(root, (2 * k + 1) as real, (2 * (k + 1) + 1) as real);
    HalfFloor(root, k);
  }

  /** With the exact square root of the program's operand, its expression truncates to KValue. */
  lemma SquareRootForm(nPops: nat, alpha: nat, root: real)
    requires root >= 0.0 && root * root == (1 + 8 * alpha * nPops / M) as real
    ensures ((root - 1.0) / 2.0).Floor == KValue(alpha * nPops)
  {
    hide KValue;
    QuotientByM(nPops, alpha);
    RootOfOperand(alpha * nPops, root);
  }

  /** `8 * alpha * n_pops / M` is 2 * alpha * n_pops, so the operand of the square root is 1 + 2x. */
  lemma QuotientByM(nPops: nat, alpha: nat)
    ensures 8 * alpha * nPops / M == 2 * (alpha * nPops)
  {}

  /** The 32-bit product never wraps, for any draw, exactly up to 16383 genes. */
  lemma ProductFitsIn32Bits(nPops: nat)
    ensures (forall alpha :: 0 <= alpha < Draws(nPops) ==> 8 * alpha * nPops < TWO_TO_THE_32) <==> nPops <= 16383
  {
    if nPops <= 16383 {
      forall alpha | 0 <= alpha < Draws(nPops)
        ensures 8 * alpha * nPops < TWO_TO_THE_32
      {
        ScaleMonotone(8 * alpha, 8 * (2 * 16383 + 1), nPops);
        ScaleMonotone(nPops, 16383, 8 * (2 * 16383 + 1));
      }
    } else {
      var alpha := 2 * nPops + 1;
      assert alpha < Draws(nPops);
      ScaleMonotone(8 * (2 * 16384 + 1), 8 * alpha, nPops);
      ScaleMonotone(16384, nPops, 8 * (2 * 16384 + 1));
    }
  }

  // ---------- ranks ----------

  /** The characterisation has one solution. */
  lemma KValueUnique(x: nat, k: nat)
    requires Threshold(k) <= x < Threshold(k + 1)
    ensures k == KValue(x)
  {
    hide Threshold;
    if k < KValue(x) {
      ThresholdMonotone(k + 1, KValue(x));
    } else if KValue(x) < k {
      ThresholdMonotone(KValue(x) + 1, k);
    }
  }

  lemma KValueAtLeast(x: nat, k: nat)
    ensures k <= KValue(x) <==> Threshold(k) <= x
  {
    hide Threshold;
    if k <= KValue(x) {
      ThresholdMonotone(k, KValue(x));
    } else {
      ThresholdMonotone(KValue(x) + 1, k);
    }
  }

  lemma TopThreshold(nPops: nat)
    ensures Threshold(nPops) == 2 * (nPops + 1) * nPops == Draws(nPops) * nPops
  {}

  /** Every draw gives a rank inside the pool: the program's assertion always holds. */
  lemma PositionInPool(nPops: nat, alpha: nat)
    requires nPops >= 1 && alpha < Draws(nPops)
    ensures 0 <= Position(nPops, alpha) < nPops
  {
    hide Threshold;
    TopThreshold(nPops);
    assert (alpha + 1) * nPops == alpha * nPops + nPops;
    ScaleMonotone(alpha + 1, Draws(nPops), nPops);
    KValueAtLeast(alpha * nPops, nPops);
  }

  /** A larger draw never gives a worse rank. */
  lemma LargerDrawNeverWorse(nPops: nat, alpha: nat, beta: nat)
    requires alpha <= beta
    ensures Position(nPops, beta) <= Position(nPops, alpha)
  {
    hide Threshold;
    ScaleMonotone(alpha, beta, nPops);
    KValueAtLeast(beta * nPops, KValue(alpha * nPops));
  }

  /** The smallest draw whose kvalue is at least k. */
  function FirstDraw(nPops: nat, k: nat): nat
    requires nPops >= 1
  {
    (Threshold(k) + nPops - 1) / nPops
  }

  /** The draws with a given kvalue form one (possibly empty) interval; the intervals of 0 .. n-1
      follow each other without gap or overlap and together are exactly the draws. */
  lemma DrawsPartitioned(nPops: nat, k: nat, alpha: nat)
    requires nPops >= 1
    ensures KValue(alpha * nPops) == k <==> FirstDraw(nPops, k) <= alpha < FirstDraw(nPops, k + 1)
    ensures FirstDraw(nPops, k) <= FirstDraw(nPops, k + 1)
    ensures FirstDraw(nPops, 0) == 0 && FirstDraw(nPops, nPops) == Draws(nPops)
  {
    FirstDrawEnds(nPops);
    hide Threshold;
    CeilingQuotient(Threshold(k), nPops, alpha);
    CeilingQuotient(Threshold(k + 1), nPops, alpha);
    KValueAtLeast(alpha * nPops, k);
    KValueAtLeast(alpha * nPops, k + 1);
    ThresholdMonotone(k, k + 1);
    CeilingQuotient(Threshold(k + 1), nPops, FirstDraw(nPops, k + 1));
    CeilingQuotient(Threshold(k), nPops, FirstDraw(nPops, k + 1));
  }

  lemma FirstDrawEnds(nPops: nat)
    requires nPops >= 1
    ensures FirstDraw(nPops, 0) == 0 && FirstDraw(nPops, nPops) == Draws(nPops)
  {
    CeilingQuotient(0, nPops, 0);
    TopThreshold(nPops);
    hide Threshold;
    var d := Draws(nPops);
    CeilingQuotient(Threshold(nPops), nPops, d);
    CeilingQuotient(Threshold(nPops), nPops, d - 1);
    assert (d - 1) * nPops == d * nPops - nPops;
  }

  /** Both ends of the list can be drawn, so with two or more listed genes a second, different
      parent always remains possible. */
  lemma EndsReachable(nPops: nat)
    requires nPops >= 1
    ensures Position(nPops, 0) == nPops - 1 && 0 < Draws(nPops)
    ensures Position(nPops, 2 * nPops + 1) == 0 && 2 * nPops + 1 < Draws(nPops)
  {
    KValueUnique(0, 0);
    PositionInPool(nPops, 2 * nPops + 1);
    assert Threshold(nPops - 1) == (2 * nPops - 2) * nPops;
    hide Threshold;
    ScaleMonotone(2 * nPops - 2, 2 * nPops + 1, nPops);
    KValueAtLeast((2 * nPops + 1) * nPops, nPops - 1);
  }

  /** A position is drawn by exactly the draws of one interval, and the intervals of all positions, from
      the last to the first, tile the draws. */
  lemma PositionsPartitioned(nPops: nat, p: nat, alpha: nat)
    requires p < nPops
    ensures Position(nPops, alpha) == p <==>
              (2 * (nPops - p - 1) * (nPops - p) + nPops - 1) / nPops <= alpha
                < (2 * (nPops - p) * (nPops - p + 1) + nPops - 1) / nPops
    ensures (2 * 0 * 1 + nPops - 1) / nPops == 0 && (2 * nPops * (nPops + 1) + nPops - 1) / nPops == Draws(nPops)
  {
    DrawsPartitioned(nPops, nPops - p - 1, alpha);
    assert Threshold(nPops) == 2 * nPops * (nPops + 1);
  }

  /** What a position says about its draw. */
  lemma PositionBounds(nPops: nat, alpha: nat)
    requires nPops >= 1 && alpha < Draws(nPops)
    ensures var p := Position(nPops, alpha);
            && 0 <= p < nPops
            && 2 * (nPops - p - 1) * (nPops - p) <= alpha * nPops < 2 * (nPops - p) * (nPops - p + 1)
  {
    PositionInPool(nPops, alpha);
  }

  /** The draw alpha is whatever the random source returns; the result is its list position: with k genes
      behind it, 2k(k+1) <= alpha * n_pops < 2(k+1)(k+2). */
  method SelectPosition(nPops: nat, alpha: nat) returns (position: nat)
    requires nPops >= 1 && alpha < Draws(nPops)
    ensures position == Position(nPops, alpha) && position < nPops
    ensures 2 * (nPops - position - 1) * (nPops - position) <= alpha * nPops
    ensures alpha * nPops < 2 * (nPops - position) * (nPops - position + 1)
    ensures (2 * (nPops - position - 1) * (nPops - position) + nPops - 1) / nPops <= alpha
    ensures alpha < (2 * (nPops - position) * (nPops - position + 1) + nPops - 1) / nPops
  {
    hide KValue;
    var kvalue := KValue(alpha * nPops);
    PositionBounds(nPops, alpha);
    assert nPops > kvalue;
    PositionsPartitioned(nPops, nPops - kvalue - 1, alpha);
    return nPops - kvalue - 1;
  }
}
