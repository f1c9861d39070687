/** Properties of the `PoolUtil` helpers that relate several calls: the liquidity
    estimate against the token-amount conversion, rounding, price monotonicity, the
    branch structure of the estimate, mint ordering and swap tick-array offsets. */
module PoolUtilLemmas {
  import opened FixedPoint
  import opened PoolTypes
  import opened ByteOrder
  import opened PoolUtil

  // ---------------------------------------------------------------------------
  // The square-root price map

  /** What the estimate needs of `PriceMath.tickIndexToSqrtPriceX64` on the ticks the
      platform supports, `[minTick, maxTick]`: positive and strictly increasing. */
  ghost predicate IncreasingSqrtPrices(sqrtPriceAt: int -> nat, minTick: int, maxTick: int)
  {
    (forall t :: minTick <= t <= maxTick ==> 0 < sqrtPriceAt(t)) &&
    (forall s, t :: minTick <= s < t <= maxTick ==> sqrtPriceAt(s) < sqrtPriceAt(t))
  }

  ghost predicate ValidTicks(minTick: int, maxTick: int, currTick: int, lowerTick: int, upperTick: int)
  {
    minTick <= currTick <= maxTick && minTick <= lowerTick <= upperTick <= maxTick
  }

  /** Comparing ticks and comparing their square-root prices agree. */
  lemma SqrtPriceOrder(sqrtPriceAt: int -> nat, minTick: int, maxTick: int, s: int, t: int)
    requires IncreasingSqrtPrices(sqrtPriceAt, minTick, maxTick)
    requires minTick <= s <= maxTick && minTick <= t <= maxTick
    ensures 0 < sqrtPriceAt(s)
    ensures s < t <==> sqrtPriceAt(s) < sqrtPriceAt(t)
    ensures s == t <==> sqrtPriceAt(s) == sqrtPriceAt(t)
  {
  }

  // ---------------------------------------------------------------------------
  // Token amounts from liquidity

  /** Splitting a range at an inner price splits the exact token amounts: token B
      adds up directly, and token A, `AmountANumerator(L, lo, hi) / (lo * hi)`, adds up
      once the three fractions are brought to the common denominator `lo * mid * hi`. */
  lemma AmountsAdditiveOverAdjacentRanges(liquidity: nat, lo: nat, mid: nat, hi: nat)
    requires lo <= mid <= hi
    ensures AmountBNumerator(liquidity, lo, mid) + AmountBNumerator(liquidity, mid, hi)
         == AmountBNumerator(liquidity, lo, hi)
    ensures AmountANumerator(liquidity, lo, mid) * hi + AmountANumerator(liquidity, mid, hi) * lo
         == AmountANumerator(liquidity, lo, hi) * mid
  {
    var k := liquidity * Q64;
    assert AmountANumerator(liquidity, lo, mid) == k * (mid - lo);
    assert AmountANumerator(liquidity, mid, hi) == k * (hi - mid);
    assert AmountANumerator(liquidity, lo, hi) == k * (hi - lo);
    assert (mid - lo) * hi + (hi - mid) * lo == (hi - lo) * mid;
    calc {
      k * (mid - lo) * hi + k * (hi - mid) * lo;
      k * ((mid - lo) * hi + (hi - mid) * lo);
      k * ((hi - lo) * mid);
    }
  }

  /** Rounding up never gives less than rounding down, and at most one more, for each
      token. */
  lemma RoundUpWithinOneOfRoundDown(
    liquidity: nat, currentPrice: nat, lowerPrice: nat, upperPrice: nat)
    requires 0 < lowerPrice <= upperPrice
    ensures
      var up := GetTokenAmountsFromLiquidity(liquidity, currentPrice, lowerPrice, upperPrice, true);
      var down := GetTokenAmountsFromLiquidity(liquidity, currentPrice, lowerPrice, upperPrice, false);
      down.tokenA <= up.tokenA <= down.tokenA + 1 && down.tokenB <= up.tokenB <= down.tokenB + 1
  {
    if currentPrice < lowerPrice {
      RoundUpWithinOne(AmountANumerator(liquidity, lowerPrice, upperPrice), lowerPrice * upperPrice);
    } else if currentPrice < upperPrice {
      RoundUpWithinOne(AmountANumerator(liquidity, currentPrice, upperPrice), currentPrice * upperPrice);
      RoundUpWithinOne(AmountBNumerator(liquidity, lowerPrice, currentPrice), Q64);
    } else {
      RoundUpWithinOne(AmountBNumerator(liquidity, lowerPrice, upperPrice), Q64);
    }
  }

  /** At the lower edge of the range the in-range formula gives what the below-range
      branch gives: all token A and no token B. */
  lemma TokenAmountsContinuousAtLowerPrice(
    liquidity: nat, currentPrice: nat, lowerPrice: nat, upperPrice: nat, roundUp: bool)
    requires 0 < lowerPrice <= upperPrice && currentPrice < lowerPrice
    ensures GetTokenAmountsFromLiquidity(liquidity, lowerPrice, lowerPrice, upperPrice, roundUp)
         == GetTokenAmountsFromLiquidity(liquidity, currentPrice, lowerPrice, upperPrice, roundUp)
  {
  }

  /** The token-A formula shrinks as the price inside the range rises. */
  lemma TokenAShrinksWithPrice(liquidity: nat, p1: nat, p2: nat, upperPrice: nat, roundUp: bool)
    requires 0 < p1 <= p2 <= upperPrice
    ensures Round(AmountANumerator(liquidity, p2, upperPrice), p2 * upperPrice, roundUp)
         <= Round(AmountANumerator(liquidity, p1, upperPrice), p1 * upperPrice, roundUp)
  {
    var u := upperPrice;
    var k := liquidity * Q64;
    var n1, d1 := AmountANumerator(liquidity, p2, u), p2 * u;
    var n2, d2 := AmountANumerator(liquidity, p1, u), p1 * u;
    MulLeMono2(u - p2, u - p1, p1, p2);
    MulLeMono((u - p2) * p1, (u - p1) * p2, k * u);
    assert n1 == k * (u - p2) && n2 == k * (u - p1);
    assert n1 * d2 == ((u - p2) * p1) * (k * u);
    assert n2 * d1 == ((u - p1) * p2) * (k * u);
    RoundMonoFraction(n1, d1, n2, d2, roundUp);
  }

  /** The token-B formula grows as the price inside the range rises. */
  lemma TokenBGrowsWithPrice(liquidity: nat, lowerPrice: nat, p1: nat, p2: nat, roundUp: bool)
    requires lowerPrice <= p1 <= p2
    ensures Round(AmountBNumerator(liquidity, lowerPrice, p1), Q64, roundUp)
         <= Round(AmountBNumerator(liquidity, lowerPrice, p2), Q64, roundUp)
  {
    MulLeMono(p1 - lowerPrice, p2 - lowerPrice, liquidity);
    RoundMonoNum(AmountBNumerator(liquidity, lowerPrice, p1), AmountBNumerator(liquidity, lowerPrice, p2), Q64, roundUp);
  }

  /** As the current price rises a position holds no more token A and no less token B,
      across all three branches. */
  lemma TokenAmountsMonotoneInPrice(
    liquidity: nat, price1: nat, price2: nat, lowerPrice: nat, upperPrice: nat, roundUp: bool)
    requires 0 < lowerPrice <= upperPrice && price1 <= price2
    ensures
      var at1 := GetTokenAmountsFromLiquidity(liquidity, price1, lowerPrice, upperPrice, roundUp);
      var at2 := GetTokenAmountsFromLiquidity(liquidity, price2, lowerPrice, upperPrice, roundUp);
      at2.tokenA <= at1.tokenA && at1.tokenB <= at2.tokenB
  {
    var l, u := lowerPrice, upperPrice;
    if lowerPrice <= price2 < upperPrice {
      TokenAShrinksWithPrice(liquidity, if price1 < l then l else price1, price2, u, roundUp);
    }
    if lowerPrice <= price1 < upperPrice {
      TokenBGrowsWithPrice(liquidity, l, price1, if price2 < u then price2 else u, roundUp);
    }
  }

  /** More liquidity holds no less of either token. */
  lemma TokenAmountsMonotoneInLiquidity(
    liquidity1: nat, liquidity2: nat, currentPrice: nat, lowerPrice: nat, upperPrice: nat, roundUp: bool)
    requires 0 < lowerPrice <= upperPrice && liquidity1 <= liquidity2
    ensures
      var of1 := GetTokenAmountsFromLiquidity(liquidity1, currentPrice, lowerPrice, upperPrice, roundUp);
      var of2 := GetTokenAmountsFromLiquidity(liquidity2, currentPrice, lowerPrice, upperPrice, roundUp);
      of1.tokenA <= of2.tokenA && of1.tokenB <= of2.tokenB
  {
    var c, l, u := currentPrice, lowerPrice, upperPrice;
    if c < l {
      MulLeMono(liquidity1, liquidity2, Q64 * (u - l));
      RoundMonoNum(AmountANumerator(liquidity1, l, u), AmountANumerator(liquidity2, l, u), l * u, roundUp);
    } else if c < u {
      MulLeMono(liquidity1, liquidity2, Q64 * (u - c));
      RoundMonoNum(AmountANumerator(liquidity1, c, u), AmountANumerator(liquidity2, c, u), c * u, roundUp);
      MulLeMono(liquidity1, liquidity2, c - l);
      RoundMonoNum(AmountBNumerator(liquidity1, l, c), AmountBNumerator(liquidity2, l, c), Q64, roundUp);
    } else {
      MulLeMono(liquidity1, liquidity2, u - l);
      RoundMonoNum(AmountBNumerator(liquidity1, l, u), AmountBNumerator(liquidity2, l, u), Q64, roundUp);
    }
  }

  // ---------------------------------------------------------------------------
  // Liquidity estimates

  /** The single-token estimates do not depend on the order of their two prices. */
  lemma EstLiquidityArgumentOrder(sqrtPrice1: nat, sqrtPrice2: nat, tokenAmount: nat)
    ensures EstLiquidityForTokenA(sqrtPrice1, sqrtPrice2, tokenAmount)
         == EstLiquidityForTokenA(sqrtPrice2, sqrtPrice1, tokenAmount)
    ensures EstLiquidityForTokenB(sqrtPrice1, sqrtPrice2, tokenAmount)
         == EstLiquidityForTokenB(sqrtPrice2, sqrtPrice1, tokenAmount)
  {
  }

  /** At or above the range only token B matters. */
  lemma EstimateAboveRangeUsesOnlyTokenB(
    currTick: int, lowerTick: int, upperTick: int, amounts1: TokenAmounts, amounts2: TokenAmounts,
    sqrtPriceAt: int -> nat)
    requires upperTick <= currTick && amounts1.tokenB == amounts2.tokenB
    ensures EstimateLiquidityFromTokenAmounts(currTick, lowerTick, upperTick, amounts1, sqrtPriceAt)
         == EstimateLiquidityFromTokenAmounts(currTick, lowerTick, upperTick, amounts2, sqrtPriceAt)
  {
  }

  /** Below the range only token A matters. */
  lemma EstimateBelowRangeUsesOnlyTokenA(
    currTick: int, lowerTick: int, upperTick: int, amounts1: TokenAmounts, amounts2: TokenAmounts,
    sqrtPriceAt: int -> nat)
    requires currTick < lowerTick && amounts1.tokenA == amounts2.tokenA
    ensures EstimateLiquidityFromTokenAmounts(currTick, lowerTick, upperTick, amounts1, sqrtPriceAt)
         == EstimateLiquidityFromTokenAmounts(currTick, lowerTick, upperTick, amounts2, sqrtPriceAt)
  {
  }

  /** In range the estimate is the smaller of the two single-token estimates: at most
      each of them and equal to one of them. */
  lemma EstimateInRangeIsMinimum(
    currTick: int, lowerTick: int, upperTick: int, tokenAmount: TokenAmounts, sqrtPriceAt: int -> nat)
    requires lowerTick <= currTick < upperTick
    ensures
      var r := EstimateLiquidityFromTokenAmounts(currTick, lowerTick, upperTick, tokenAmount, sqrtPriceAt);
      var a := EstLiquidityForTokenA(sqrtPriceAt(currTick), sqrtPriceAt(upperTick), tokenAmount.tokenA);
      var b := EstLiquidityForTokenB(sqrtPriceAt(currTick), sqrtPriceAt(lowerTick), tokenAmount.tokenB);
      (r.Ok? <==> a.Ok? && b.Ok?) &&
      (r.Ok? ==> r.value <= a.value && r.value <= b.value && (r.value == a.value || r.value == b.value))
  {
  }

  /** Equal ticks pass the range check but then divide by a zero price difference. */
  lemma EstimateEqualTicksFails(
    currTick: int, tick: int, tokenAmount: TokenAmounts, sqrtPriceAt: int -> nat)
    ensures EstimateLiquidityFromTokenAmounts(currTick, tick, tick, tokenAmount, sqrtPriceAt)
         == Err(DivisionByZero)
  {
  }

  /** At exactly the lower tick of a non-empty range the token-B estimate divides by
      zero, so the whole estimate fails. */
  lemma EstimateAtLowerTickFails(
    lowerTick: int, upperTick: int, tokenAmount: TokenAmounts, sqrtPriceAt: int -> nat)
    requires lowerTick < upperTick
    ensures EstimateLiquidityFromTokenAmounts(lowerTick, lowerTick, upperTick, tokenAmount, sqrtPriceAt)
         == Err(DivisionByZero)
  {
  }

  // ---------------------------------------------------------------------------
  // Estimate against conversion

  /** When the estimate succeeds, for ticks the price map covers: exactly when the range
      is non-empty and the current tick is not its lower tick. Every other in-order range
      divides by zero. */
  lemma EstimateSucceedsExactly(
    currTick: int, lowerTick: int, upperTick: int, tokenAmount: TokenAmounts,
    sqrtPriceAt: int -> nat, minTick: int, maxTick: int)
    requires IncreasingSqrtPrices(sqrtPriceAt, minTick, maxTick)
    requires minTick <= currTick <= maxTick
    requires minTick <= lowerTick <= maxTick && minTick <= upperTick <= maxTick
    ensures EstimateLiquidityFromTokenAmounts(currTick, lowerTick, upperTick, tokenAmount, sqrtPriceAt).Ok?
        <==> lowerTick < upperTick && currTick != lowerTick
  {
    if lowerTick <= upperTick {
      SqrtPriceOrderFacts(sqrtPriceAt, minTick, maxTick, currTick, lowerTick, upperTick);
    }
  }

  /** Rounding up breaks the round trip: one unit of liquidity rounded up to one unit of
      token B re-estimates to 2^64 units. The prices are 1 and 2 (in Q64.64 units) at
      ticks 0 and 1, with the current tick at the upper one. */
  lemma RoundUpRoundTripCanExceedLiquidity()
    ensures
      var sqrtPriceAt := (t: int) => if t <= 0 then 1 else 2;
      var amounts := GetTokenAmountsFromLiquidity(1, sqrtPriceAt(1), sqrtPriceAt(0), sqrtPriceAt(1), true);
      IncreasingSqrtPrices(sqrtPriceAt, 0, 1) &&
      amounts == TokenAmounts(0, 1) &&
      EstimateLiquidityFromTokenAmounts(1, 0, 1, amounts, sqrtPriceAt) == Ok(Q64)
  {
    var sqrtPriceAt := (t: int) => if t <= 0 then 1 else 2;
    assert CeilDiv(1, Q64) == 1 by { CeilDivIsLeast(1, 1, Q64); }
    assert FloorDiv(Q64, 1) == Q64;
  }


  /** Converting liquidity to token amounts (rounded down) and estimating the liquidity
      of those amounts never manufactures liquidity. */
  lemma EstimateOfTokenAmountsAtMostLiquidity(
    liquidity: nat, currTick: int, lowerTick: int, upperTick: int,
    sqrtPriceAt: int -> nat, minTick: int, maxTick: int)
    requires IncreasingSqrtPrices(sqrtPriceAt, minTick, maxTick)
    requires ValidTicks(minTick, maxTick, currTick, lowerTick, upperTick)
    ensures
      var amounts := GetTokenAmountsFromLiquidity(
        liquidity, sqrtPriceAt(currTick), sqrtPriceAt(lowerTick), sqrtPriceAt(upperTick), false);
      var r := EstimateLiquidityFromTokenAmounts(currTick, lowerTick, upperTick, amounts, sqrtPriceAt);
      r.Ok? ==> r.value <= liquidity
  {
    SqrtPriceOrderFacts(sqrtPriceAt, minTick, maxTick, currTick, lowerTick, upperTick);
    var c, l, u := sqrtPriceAt(currTick), sqrtPriceAt(lowerTick), sqrtPriceAt(upperTick);
    var amounts := GetTokenAmountsFromLiquidity(liquidity, c, l, u, false);
    var r := EstimateLiquidityFromTokenAmounts(currTick, lowerTick, upperTick, amounts, sqrtPriceAt);
    if r.Ok? {
      if currTick >= upperTick {
        var b := AmountBNumerator(liquidity, l, u);
        assert amounts.tokenB * Q64 <= b;
        assert AmountBNumerator(r.value, l, u) <= b;
        MulLeCancel(r.value, liquidity, u - l);
      } else if currTick < lowerTick {
        var a := AmountANumerator(liquidity, l, u);
        assert amounts.tokenA * (l * u) <= a;
        MulLeCancel(r.value, liquidity, Q64 * (u - l));
      } else {
        var ra := EstLiquidityForTokenA(c, u, amounts.tokenA).value;
        assert amounts.tokenA * (c * u) <= AmountANumerator(liquidity, c, u);
        MulLeCancel(ra, liquidity, Q64 * (u - c));
      }
    }
  }

  /** The token amounts that an estimated liquidity holds, rounded either way, never
      exceed the amounts it was estimated from. */
  lemma EstimatedLiquidityFitsTokenAmounts(
    currTick: int, lowerTick: int, upperTick: int, tokenAmount: TokenAmounts, roundUp: bool,
    sqrtPriceAt: int -> nat, minTick: int, maxTick: int)
    requires IncreasingSqrtPrices(sqrtPriceAt, minTick, maxTick)
    requires ValidTicks(minTick, maxTick, currTick, lowerTick, upperTick)
    ensures
      var r := EstimateLiquidityFromTokenAmounts(currTick, lowerTick, upperTick, tokenAmount, sqrtPriceAt);
      r.Ok? ==>
        var held := GetTokenAmountsFromLiquidity(
          r.value, sqrtPriceAt(currTick), sqrtPriceAt(lowerTick), sqrtPriceAt(upperTick), roundUp);
        held.tokenA <= tokenAmount.tokenA && held.tokenB <= tokenAmount.tokenB
  {
    SqrtPriceOrderFacts(sqrtPriceAt, minTick, maxTick, currTick, lowerTick, upperTick);
    var c, l, u := sqrtPriceAt(currTick), sqrtPriceAt(lowerTick), sqrtPriceAt(upperTick);
    var r := EstimateLiquidityFromTokenAmounts(currTick, lowerTick, upperTick, tokenAmount, sqrtPriceAt);
    if r.Ok? {
      var x := r.value;
      if currTick >= upperTick {
        RoundAtMost(AmountBNumerator(x, l, u), Q64, tokenAmount.tokenB, roundUp);
      } else if currTick < lowerTick {
        RoundAtMost(AmountANumerator(x, l, u), l * u, tokenAmount.tokenA, roundUp);
      } else {
        var ra := EstLiquidityForTokenA(c, u, tokenAmount.tokenA).value;
        var rb := EstLiquidityForTokenB(c, l, tokenAmount.tokenB).value;
        MulLeMono(x, ra, Q64 * (u - c));
        RoundAtMost(AmountANumerator(x, c, u), c * u, tokenAmount.tokenA, roundUp);
        MulLeMono(x, rb, c - l);
        RoundAtMost(AmountBNumerator(x, l, c), Q64, tokenAmount.tokenB, roundUp);
      }
    }
  }

  /** The estimate is the largest liquidity that fits: one unit more, rounded up,
      needs more of some token than was supplied. */
  lemma EstimateIsLargestFit(
    currTick: int, lowerTick: int, upperTick: int, tokenAmount: TokenAmounts,
    sqrtPriceAt: int -> nat, minTick: int, maxTick: int)
    requires IncreasingSqrtPrices(sqrtPriceAt, minTick, maxTick)
    requires ValidTicks(minTick, maxTick, currTick, lowerTick, upperTick)
    ensures
      var r := EstimateLiquidityFromTokenAmounts(currTick, lowerTick, upperTick, tokenAmount, sqrtPriceAt);
      r.Ok? ==>
        var over := GetTokenAmountsFromLiquidity(
          r.value + 1, sqrtPriceAt(currTick), sqrtPriceAt(lowerTick), sqrtPriceAt(upperTick), true);
        tokenAmount.tokenA < over.tokenA || tokenAmount.tokenB < over.tokenB
  {
    SqrtPriceOrderFacts(sqrtPriceAt, minTick, maxTick, currTick, lowerTick, upperTick);
    var c, l, u := sqrtPriceAt(currTick), sqrtPriceAt(lowerTick), sqrtPriceAt(upperTick);
    var r := EstimateLiquidityFromTokenAmounts(currTick, lowerTick, upperTick, tokenAmount, sqrtPriceAt);
    if r.Ok? {
      var x := r.value;
      if currTick >= upperTick {
        CeilDivExceeds(tokenAmount.tokenB, AmountBNumerator(x + 1, l, u), Q64);
      } else if currTick < lowerTick {
        CeilDivExceeds(tokenAmount.tokenA, AmountANumerator(x + 1, l, u), l * u);
      } else {
        var ra := EstLiquidityForTokenA(c, u, tokenAmount.tokenA).value;
        if x == ra {
          CeilDivExceeds(tokenAmount.tokenA, AmountANumerator(x + 1, c, u), c * u);
        } else {
          CeilDivExceeds(tokenAmount.tokenB, AmountBNumerator(x + 1, l, c), Q64);
        }
      }
    }
  }

  /** The facts about the three square-root prices that the lemmas above use. */
  lemma SqrtPriceOrderFacts(
    sqrtPriceAt: int -> nat, minTick: int, maxTick: int, currTick: int, lowerTick: int, upperTick: int)
    requires IncreasingSqrtPrices(sqrtPriceAt, minTick, maxTick)
    requires ValidTicks(minTick, maxTick, currTick, lowerTick, upperTick)
    ensures 0 < sqrtPriceAt(lowerTick) <= sqrtPriceAt(upperTick)
    ensures lowerTick < upperTick ==> sqrtPriceAt(lowerTick) < sqrtPriceAt(upperTick)
    ensures currTick < lowerTick <==> sqrtPriceAt(currTick) < sqrtPriceAt(lowerTick)
    ensures currTick < upperTick <==> sqrtPriceAt(currTick) < sqrtPriceAt(upperTick)
    ensures currTick == lowerTick <==> sqrtPriceAt(currTick) == sqrtPriceAt(lowerTick)
  {
    SqrtPriceOrder(sqrtPriceAt, minTick, maxTick, lowerTick, upperTick);
    SqrtPriceOrder(sqrtPriceAt, minTick, maxTick, currTick, lowerTick);
    SqrtPriceOrder(sqrtPriceAt, minTick, maxTick, lowerTick, currTick);
    SqrtPriceOrder(sqrtPriceAt, minTick, maxTick, currTick, upperTick);
    SqrtPriceOrder(sqrtPriceAt, minTick, maxTick, upperTick, currTick);
  }

  // ---------------------------------------------------------------------------
  // Mint order

  /** The order of the arguments does not matter. */
  lemma OrderMintsSymmetric(mintX: PublicKey, mintY: PublicKey)
    ensures OrderMints(mintX, mintY) == OrderMints(mintY, mintX)
  {
    CompareAntisymmetric(mintX, mintY);
    CompareZeroIffEqual(mintX, mintY);
  }

  /** Ordering an ordered pair leaves it as it is. */
  lemma OrderMintsIdempotent(mintX: PublicKey, mintY: PublicKey)
    ensures var r := OrderMints(mintX, mintY); OrderMints(r.0, r.1) == r
  {
    OrderMintsSymmetric(mintX, mintY);
  }

  // ---------------------------------------------------------------------------
  // Swap tick arrays

  /** The offsets start at zero and move one tick array per step in the direction of
      the trade, so no two of them coincide. */
  lemma TickArrayOffsetsStepAndDistinct(aToB: bool, i: nat, j: nat)
    ensures TickArrayOffset(aToB, 0) == 0
    ensures TickArrayOffset(aToB, i + 1) == TickArrayOffset(aToB, i) + (if aToB then -1 else 1)
    ensures i != j ==> TickArrayOffset(aToB, i) != TickArrayOffset(aToB, j)
  {
  }

  /** Fee rates as the pool stores them: 1000 is 0.1%, a protocol fee rate of 300 is 3%. */
  lemma FeeRateExamples()
    ensures GetFeeRate(1000).Value() == 0.001
    ensures GetProtocolFeeRate(300).Value() == 0.03
  {
  }
}
