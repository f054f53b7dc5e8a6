/**
 * The exact-number meaning of the arithmetic that the catalogue functions
 * perform once their arguments have been evaluated: running totals,
 * running minimum and maximum, the factorial product, JavaScript's
 * truncated remainder and natural-number powers.
 */
module Arith {

  /** `total += v` over the values in order, starting from 0. */
  function SumOf(vals: seq<real>): real
  {
    if vals == [] then 0.0 else SumOf(vals[..|vals| - 1]) + vals[|vals| - 1]
  }

  /** The total of the first one or two values, written out. */
  lemma {:induction false} SumOfPrefix(vals: seq<real>, k: nat)
    requires 1 <= k <= 2 && |vals| == k
    ensures k == 1 ==> SumOf(vals) == vals[0]
    ensures k == 2 ==> SumOf(vals) == vals[0] + vals[1]
  {
    if k == 1 {
      assert vals[..0] == [];
    } else {
      var first := vals[..1];
      assert first[..0] == [];
      assert SumOf(first) == vals[0];
    }
  }

  /**
   * The running minimum: start from the first value and replace it by any
   * later value that is strictly smaller.
   */
  function MinOf(vals: seq<real>): real
    requires |vals| > 0
  {
    if |vals| == 1 then vals[0]
    else
      var m := MinOf(vals[..|vals| - 1]);
      if vals[|vals| - 1] < m then vals[|vals| - 1] else m
  }

  /** The running maximum, symmetric to `MinOf`. */
  function MaxOf(vals: seq<real>): real
    requires |vals| > 0
  {
    if |vals| == 1 then vals[0]
    else
      var m := MaxOf(vals[..|vals| - 1]);
      if vals[|vals| - 1] > m then vals[|vals| - 1] else m
  }

  /** One more value: the running minimum takes it exactly when it is strictly smaller. */
  lemma MinOfSnoc(vals: seq<real>, v: real)
    requires |vals| > 0
    ensures MinOf(vals + [v]) == if v < MinOf(vals) then v else MinOf(vals)
  {
    assert (vals + [v])[..|vals|] == vals;
  }

  /** One more value: the running maximum takes it exactly when it is strictly larger. */
  lemma MaxOfSnoc(vals: seq<real>, v: real)
    requires |vals| > 0
    ensures MaxOf(vals + [v]) == if v > MaxOf(vals) then v else MaxOf(vals)
  {
    assert (vals + [v])[..|vals|] == vals;
  }

  /** The running minimum is one of the values and no value is below it. */
  lemma {:induction false} MinOfIsLeast(vals: seq<real>)
    requires |vals| > 0
    ensures MinOf(vals) in vals
    ensures forall v :: v in vals ==> MinOf(vals) <= v
  {
    if |vals| > 1 {
      var init := vals[..|vals| - 1];
      MinOfIsLeast(init);
      assert vals == init + [vals[|vals| - 1]];
    }
  }

  /** The running maximum is one of the values and no value is above it. */
  lemma {:induction false} MaxOfIsGreatest(vals: seq<real>)
    requires |vals| > 0
    ensures MaxOf(vals) in vals
    ensures forall v :: v in vals ==> v <= MaxOf(vals)
  {
    if |vals| > 1 {
      var init := vals[..|vals| - 1];
      MaxOfIsGreatest(init);
      assert vals == init + [vals[|vals| - 1]];
    }
  }

  /** The total is at least `n` times the running minimum. */
  lemma {:induction false} SumOfAtLeast(vals: seq<real>)
    requires |vals| > 0
    ensures (|vals| as real) * MinOf(vals) <= SumOf(vals)
  {
    var k := |vals|;
    if k == 1 {
      SumOfPrefix(vals, 1);
      assert (k as real) * vals[0] == vals[0];
    } else {
      var init := vals[..k - 1];
      SumOfAtLeast(init);
      assert SumOf(vals) == SumOf(init) + vals[k - 1];
      LowerBoundGrows(k, SumOf(init), MinOf(init), vals[k - 1], MinOf(vals));
    }
  }

  /** The total is at most `n` times the running maximum. */
  lemma {:induction false} SumOfAtMost(vals: seq<real>)
    requires |vals| > 0
    ensures SumOf(vals) <= (|vals| as real) * MaxOf(vals)
  {
    var k := |vals|;
    if k == 1 {
      SumOfPrefix(vals, 1);
      assert (k as real) * vals[0] == vals[0];
    } else {
      var init := vals[..k - 1];
      SumOfAtMost(init);
      assert SumOf(vals) == SumOf(init) + vals[k - 1];
      LowerBoundGrows(k, -SumOf(init), -MaxOf(init), -vals[k - 1], -MaxOf(vals));
    }
  }

  /** From `(k-1)·min <= s` and one more value `last`, with `lo` below both `min` and `last`, to `k·lo <= s + last`. */
  lemma LowerBoundGrows(k: nat, s: real, min: real, last: real, lo: real)
    requires k >= 1 && ((k - 1) as real) * min <= s
    requires lo <= min && lo <= last
    ensures (k as real) * lo <= s + last
  {
    var n := (k - 1) as real;
    MultiplyMonotone(n, lo, min);
    assert (k as real) * lo == n * lo + lo;
  }

  /** Multiplying by a non-negative factor keeps the order. */
  lemma MultiplyMonotone(n: real, a: real, b: real)
    requires n >= 0.0 && a <= b
    ensures n * a <= n * b
  {
    assert n * b - n * a == n * (b - a);
  }

  /** The mean of the values lies between their minimum and their maximum. */
  lemma {:induction false} MeanBetween(vals: seq<real>)
    requires |vals| > 0
    ensures MinOf(vals) <= SumOf(vals) / (|vals| as real) <= MaxOf(vals)
  {
    var n := |vals| as real;
    SumOfAtLeast(vals);
    SumOfAtMost(vals);
    DivideBounds(n, SumOf(vals), MinOf(vals), MaxOf(vals));
  }

  /** Dividing `lo·n <= s <= hi·n` by a positive `n`. */
  lemma DivideBounds(n: real, s: real, lo: real, hi: real)
    requires n > 0.0 && n * lo <= s <= n * hi
    ensures lo <= s / n <= hi
  {
    var m := s / n;
    assert n * (m - lo) >= 0.0 && n * (hi - m) >= 0.0;
  }

  /** Dividing by a non-zero `n` and multiplying back gives the dividend. */
  lemma DivideTimes(s: real, n: real)
    requires n != 0.0
    ensures (s / n) * n == s
  {
  }

  /** `factorial *= i` for `i = 2, 3, ..., k`: the product 2·3·…·k, or 1 when k < 2. */
  function FactorialUpTo(k: int): nat
    decreases k
  {
    if k < 2 then 1 else k * FactorialUpTo(k - 1)
  }

  /** ECMAScript ToInteger truncation: round toward zero. */
  function Trunc(x: real): int
  {
    if x >= 0.0 then x.Floor else -((-x).Floor)
  }

  /**
   * JavaScript's `a % b` on finite numbers with `b != 0`: the remainder of
   * the quotient truncated toward zero, so it takes the sign of `a`.
   */
  function TruncRem(a: real, b: real): real
    requires b != 0.0
  {
    a - b * (Trunc(a / b) as real)
  }

  /**
   * On a negative dividend the truncated remainder keeps the sign of the
   * dividend, where Dafny's Euclidean `%` would not: -7 % 3 is -1 in
   * JavaScript and 2 in Dafny.
   */
  lemma TruncRemNegativeDividend()
    ensures TruncRem(-7.0, 3.0) == -1.0
    ensures (-7) % 3 == 2
  {
    assert Trunc(-7.0 / 3.0) == -2;
  }

  /**
   * For every dividend and non-zero divisor, the truncated remainder has
   * the sign of the dividend (or is zero) and is smaller than the divisor
   * in magnitude.
   */
  lemma TruncRemSign(a: real, b: real)
    requires b != 0.0
    ensures a >= 0.0 ==> TruncRem(a, b) >= 0.0
    ensures a <= 0.0 ==> TruncRem(a, b) <= 0.0
    ensures b > 0.0 ==> -b < TruncRem(a, b) < b
    ensures b < 0.0 ==> b < TruncRem(a, b) < -b
  {
    var m := if b > 0.0 then b else -b;
    var p := if a >= 0.0 then a else -a;
    TruncRemNegate(a, b);
    TruncRemNegate(-a, b);
    TruncRemNegate(a, -b);
    TruncRemNegate(-a, -b);
    TruncRemOfPositive(p, m);
  }

  /** Truncation commutes with negation. */
  lemma TruncNegate(x: real)
    ensures Trunc(-x) == -Trunc(x)
  {
  }

  /** Negating the dividend negates the remainder; negating the divisor leaves it. */
  lemma TruncRemNegate(a: real, b: real)
    requires b != 0.0
    ensures TruncRem(-a, b) == -TruncRem(a, b)
    ensures TruncRem(a, -b) == TruncRem(a, b)
  {
    var x := a / b;
    assert -a / b == -x && a / -b == -x;
    TruncNegate(x);
    var t := Trunc(x) as real;
    assert TruncRem(-a, b) == -a - b * -t;
    assert TruncRem(a, -b) == a - (-b) * -t;
  }

  /** On a non-negative dividend and a positive divisor the remainder lies in `[0, b)`. */
  lemma TruncRemOfPositive(a: real, b: real)
    requires a >= 0.0 && b > 0.0
    ensures 0.0 <= TruncRem(a, b) < b
  {
    var x := a / b;
    assert x >= 0.0 by {
      assert a == b * x;
    }
    var f := x - x.Floor as real;
    assert 0.0 <= f < 1.0;
    assert TruncRem(a, b) == b * f by {
      assert a == b * x;
      assert b * x - b * (x.Floor as real) == b * f;
    }
    ScaledFraction(b, f);
  }

  /** `b·f` for a fraction `0 <= f < 1` of a positive `b` lies in `[0, b)`. */
  lemma ScaledFraction(b: real, f: real)
    requires b > 0.0 && 0.0 <= f < 1.0
    ensures 0.0 <= b * f < b
  {
    assert b - b * f == b * (1.0 - f);
  }

  /** On non-negative integer operands the truncated remainder is Dafny's `%`. */
  lemma TruncRemNatural(a: nat, b: nat)
    requires b > 0
    ensures TruncRem(a as real, b as real) == (a % b) as real
  {
    var x := (a as real) / (b as real);
    var q := a / b;
    assert a == q * b + a % b;
    assert x == (q as real) + ((a % b) as real) / (b as real);
    assert 0.0 <= ((a % b) as real) / (b as real) < 1.0;
    assert Trunc(x) == q;
  }

  /** `x` has no fractional part. */
  predicate IsWhole(x: real)
  {
    x.Floor as real == x
  }

  /** `x` raised to a natural power. */
  function RealPow(x: real, n: nat): real
  {
    if n == 0 then 1.0 else x * RealPow(x, n - 1)
  }
}
