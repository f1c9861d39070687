/** Exact fixed-point arithmetic used by the pool helpers.

    Square-root prices are Q64.64 numbers: an integer `p` stands for `p / 2^64`.
    Scaling into that form multiplies by `Q64`; scaling out of it divides by `Q64`.
    Every division in the pool helpers is either a floor (BN division and right shifts on
    non-negative values, `Decimal.floor`) or a ceiling (`Decimal.ceil`) of a non-negative
    rational, and both are characterised here by the inequalities that define them. */
module FixedPoint {

  /** 2^64, the scale of a Q64.64 number. */
  const Q64: nat := 0x1_0000_0000_0000_0000

  function Min(a: nat, b: nat): (m: nat)
    ensures m <= a && m <= b && (m == a || m == b)
  {
    if a <= b then a else b
  }

  function Max(a: nat, b: nat): (m: nat)
    ensures a <= m && b <= m && (m == a || m == b)
  {
    if a <= b then b else a
  }

  /** The floor of `num / den`: the largest `q` with `q * den <= num`. */
  function FloorDiv(num: nat, den: nat): (q: nat)
    requires 0 < den
    ensures q * den <= num < (q + 1) * den
  {
    num / den
  }

  /** The ceiling of `num / den`: the least `q` with `num <= q * den`. */
  function CeilDiv(num: nat, den: nat): (q: nat)
    requires 0 < den
    ensures q * den - den < num <= q * den
  {
    var q := (num + den - 1) / den;
    assert q * den <= num + den - 1 < q * den + den;
    q
  }

  /** `Decimal.ceil()` when `roundUp`, `Decimal.floor()` otherwise, of `num / den`. */
  function Round(num: nat, den: nat, roundUp: bool): (q: nat)
    requires 0 < den
    ensures roundUp ==> q * den - den < num <= q * den
    ensures !roundUp ==> q * den <= num < (q + 1) * den
  {
    if roundUp then CeilDiv(num, den) else FloorDiv(num, den)
  }

  // ---------------------------------------------------------------------------
  // Cancellation and monotonicity of multiplication

  lemma MulLeCancel(a: int, b: int, k: int)
    requires 0 < k && a * k <= b * k
    ensures a <= b
  {
  }

  lemma MulLtCancel(a: int, b: int, k: int)
    requires 0 < k && a * k < b * k
    ensures a < b
  {
  }

  lemma MulLeMono(a: int, b: int, k: int)
    requires 0 <= k && a <= b
    ensures a * k <= b * k
  {
    assert b * k - a * k == (b - a) * k;
  }

  lemma MulLeMono2(a: nat, b: nat, c: nat, d: nat)
    requires a <= b && c <= d
    ensures a * c <= b * d
  {
    MulLeMono(a, b, c);
    MulLeMono(c, d, b);
  }

  // ---------------------------------------------------------------------------
  // Floor and ceiling

  /** The floor bounds pin the quotient down uniquely. */
  lemma FloorDivUnique(q: nat, num: nat, den: nat)
    requires 0 < den && q * den <= num < (q + 1) * den
    ensures FloorDiv(num, den) == q
  {
    var f := FloorDiv(num, den);
    MulLtCancel(f, q + 1, den);
    MulLtCancel(q, f + 1, den);
  }

  /** Any `k` with `k * den <= num` is at most the floor. */
  lemma FloorDivIsGreatest(k: nat, num: nat, den: nat)
    requires 0 < den && k * den <= num
    ensures k <= FloorDiv(num, den)
  {
    MulLtCancel(k, FloorDiv(num, den) + 1, den);
  }

  /** Any `k` with `num <= k * den` is at least the ceiling. */
  lemma CeilDivIsLeast(k: nat, num: nat, den: nat)
    requires 0 < den && num <= k * den
    ensures CeilDiv(num, den) <= k
  {
    var c := CeilDiv(num, den);
    assert (c - 1) * den == c * den - den;
    MulLtCancel(c - 1, k, den);
  }

  /** The ceiling is the floor or the floor plus one, and equal to it exactly when
      `den` divides `num`. */
  lemma RoundingGap(num: nat, den: nat)
    requires 0 < den
    ensures FloorDiv(num, den) <= CeilDiv(num, den) <= FloorDiv(num, den) + 1
    ensures CeilDiv(num, den) == FloorDiv(num, den) <==> num % den == 0
  {
    var f, c := FloorDiv(num, den), CeilDiv(num, den);
    FloorDivIsGreatest(f, num, den);
    CeilDivIsLeast(f + 1, num, den);
    MulLeCancel(f, c, den);
    if num % den == 0 {
      assert (num / den) * den == num;
      CeilDivIsLeast(num / den, num, den);
    }
    if c == f {
      assert f * den <= num <= c * den;
      assert num == f * den;
      assert num % den == 0 by { FloorDivMultiple(f, den); }
    }
  }

  lemma FloorDivMultiple(q: nat, den: nat)
    requires 0 < den
    ensures (q * den) % den == 0 && (q * den) / den == q
  {
    FloorDivUnique(q, q * den, den);
    var r := (q * den) % den;
    assert q * den == ((q * den) / den) * den + r;
  }

  /** Both roundings grow with the numerator. */
  lemma RoundMonoNum(n1: nat, n2: nat, den: nat, roundUp: bool)
    requires 0 < den && n1 <= n2
    ensures Round(n1, den, roundUp) <= Round(n2, den, roundUp)
  {
    if roundUp {
      CeilDivIsLeast(CeilDiv(n2, den), n1, den);
    } else {
      FloorDivIsGreatest(FloorDiv(n1, den), n2, den);
    }
  }

  /** Both roundings respect the order of two fractions: `n1/d1 <= n2/d2`. */
  lemma RoundMonoFraction(n1: nat, d1: nat, n2: nat, d2: nat, roundUp: bool)
    requires 0 < d1 && 0 < d2 && n1 * d2 <= n2 * d1
    ensures Round(n1, d1, roundUp) <= Round(n2, d2, roundUp)
  {
    if roundUp {
      var c := CeilDiv(n2, d2);
      assert n2 <= c * d2;
      MulLeMono(n2, c * d2, d1);
      assert (c * d2) * d1 == (c * d1) * d2;
      MulLeCancel(n1, c * d1, d2);
      CeilDivIsLeast(c, n1, d1);
    } else {
      var f := FloorDiv(n1, d1);
      assert f * d1 <= n1;
      MulLeMono(f * d1, n1, d2);
      assert (f * d1) * d2 == (f * d2) * d1;
      MulLeCancel(f * d2, n2, d1);
      FloorDivIsGreatest(f, n2, d2);
    }
  }

  /** A rounded fraction that is at most an integer `k` when `num <= k * den`. */
  lemma RoundAtMost(num: nat, den: nat, k: nat, roundUp: bool)
    requires 0 < den && num <= k * den
    ensures Round(num, den, roundUp) <= k
  {
    CeilDivIsLeast(k, num, den);
    RoundingGap(num, den);
  }

  /** Any `k` with `k * den < num` is below the ceiling. */
  lemma CeilDivExceeds(k: nat, num: nat, den: nat)
    requires 0 < den && k * den < num
    ensures k < CeilDiv(num, den)
  {
    MulLtCancel(k, CeilDiv(num, den), den);
  }

  /** Rounding up gives the floor or one more. */
  lemma RoundUpWithinOne(num: nat, den: nat)
    requires 0 < den
    ensures Round(num, den, false) <= Round(num, den, true) <= Round(num, den, false) + 1
  {
    RoundingGap(num, den);
  }

  /** Two successive floor divisions are one floor division by the product. */
  lemma FloorDivNested(num: nat, a: nat, b: nat)
    requires 0 < a && 0 < b
    ensures 0 < a * b && FloorDiv(FloorDiv(num, a), b) == FloorDiv(num, a * b)
  {
    var m := FloorDiv(num, a);
    var q := FloorDiv(m, b);
    MulLeMono(q * b, m, a);
    assert q * (a * b) == (q * b) * a;
    assert m + 1 <= (q + 1) * b;
    MulLeMono(m + 1, (q + 1) * b, a);
    assert (q + 1) * (a * b) == ((q + 1) * b) * a;
    FloorDivUnique(q, num, a * b);
  }
}
