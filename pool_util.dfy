/** The `PoolUtil` helpers of the Whirlpools SDK: conversions between liquidity and
    token amounts over a square-root-price range, the tick-array sequence a swap may
    cross, and the pool's metadata helpers.

    The collaborators the helpers call are parameters here:
    - `sqrtPriceAt` stands for `PriceMath.tickIndexToSqrtPriceX64`;
    - `startTickIndex` stands for `TickUtil.getStartTickIndex`;
    - `tickArrayAddress` stands for `PDAUtil.getTickArray(...).publicKey`. */
module PoolUtil {
  import opened FixedPoint
  import opened PoolTypes
  import opened ByteOrder

  // ---------------------------------------------------------------------------
  // Metadata helpers

  /** A reward slot is initialised when neither its mint nor its vault is the all-zero
      default key, that is, when each of them has a non-zero byte. */
  function IsRewardInitialized(rewardInfo: WhirlpoolRewardInfo): (b: bool)
    ensures b <==>
      (exists i :: 0 <= i < 32 && rewardInfo.mint[i] != 0) &&
      (exists j :: 0 <= j < 32 && rewardInfo.vault[j] != 0)
  {
    NotDefaultIffNonZeroByte(rewardInfo.mint);
    NotDefaultIffNonZeroByte(rewardInfo.vault);
    rewardInfo.mint != DefaultPublicKey && rewardInfo.vault != DefaultPublicKey
  }

  lemma NotDefaultIffNonZeroByte(key: PublicKey)
    ensures key != DefaultPublicKey <==> exists i :: 0 <= i < 32 && key[i] != 0
  {
    if forall i :: 0 <= i < 32 ==> key[i] == 0 {
      assert key == DefaultPublicKey;
    }
  }

  /** The pool fee rate is stored in hundredths of a basis point. */
  function GetFeeRate(feeRate: u16): (p: Percentage)
    ensures p.denominator != 0
    ensures p.Value() == feeRate as real / 1_000_000.0
    ensures 0.0 <= p.Value() < 0.066
  {
    Percentage(feeRate, 1_000_000)
  }

  /** The protocol fee rate is stored in basis points. */
  function GetProtocolFeeRate(protocolFeeRate: u16): (p: Percentage)
    ensures p.denominator != 0
    ensures p.Value() == protocolFeeRate as real / 10_000.0
    ensures 0.0 <= p.Value() < 6.6
  {
    Percentage(protocolFeeRate, 10_000)
  }

  /** The two mints in canonical order: the byte-wise smaller key first. */
  function OrderMints(mintX: PublicKey, mintY: PublicKey): (r: (PublicKey, PublicKey))
    ensures multiset{r.0, r.1} == multiset{mintX, mintY}
    ensures r.0 == r.1 || LexLess(r.0, r.1)
  {
    CompareNegativeIffLexLess(mintX, mintY);
    CompareNegativeIffLexLess(mintY, mintX);
    CompareAntisymmetric(mintX, mintY);
    CompareZeroIffEqual(mintX, mintY);
    if Compare(mintX, mintY) < 0 then (mintX, mintY) else (mintY, mintX)
  }

  // ---------------------------------------------------------------------------
  // Liquidity and token amounts

  /** The exact token A that liquidity `L` holds over square-root prices `[lo, hi]`,
      `L * (hi - lo) / (lo * hi)` with prices de-scaled from Q64.64, is
      `AmountANumerator(L, lo, hi) / (lo * hi)`. */
  function AmountANumerator(liquidity: nat, lo: nat, hi: nat): (n: nat)
    requires lo <= hi
    ensures n == 0 <==> liquidity == 0 || lo == hi
  {
    liquidity * (Q64 * (hi - lo))
  }

  /** The exact token B that liquidity `L` holds over `[lo, hi]`, `L * (hi - lo)` with
      prices de-scaled from Q64.64, is `AmountBNumerator(L, lo, hi) / Q64`. */
  function AmountBNumerator(liquidity: nat, lo: nat, hi: nat): (n: nat)
    requires lo <= hi
    ensures n == 0 <==> liquidity == 0 || lo == hi
  {
    liquidity * (hi - lo)
  }

  /** The token amounts a liquidity holds at the current square-root price over the
      range `[lowerPrice, upperPrice)`, all prices in Q64.64, computed exactly and then
      rounded up or down as `roundUp` says. Below the range the position is all token A,
      at or above it all token B. */
  function GetTokenAmountsFromLiquidity(
    liquidity: nat, currentPrice: nat, lowerPrice: nat, upperPrice: nat, roundUp: bool
  ): (r: TokenAmounts)
    requires 0 < lowerPrice <= upperPrice
    ensures currentPrice < lowerPrice ==> r.tokenB == 0
    ensures upperPrice <= currentPrice ==> r.tokenA == 0
  {
    if currentPrice < lowerPrice then
      TokenAmounts(
        Round(AmountANumerator(liquidity, lowerPrice, upperPrice), lowerPrice * upperPrice, roundUp),
        0)
    else if currentPrice < upperPrice then
      TokenAmounts(
        Round(AmountANumerator(liquidity, currentPrice, upperPrice), currentPrice * upperPrice, roundUp),
        Round(AmountBNumerator(liquidity, lowerPrice, currentPrice), Q64, roundUp))
    else
      TokenAmounts(0, Round(AmountBNumerator(liquidity, lowerPrice, upperPrice), Q64, roundUp))
  }

  /** The liquidity that `tokenAmount` of token A supports between two square-root
      prices, in either order: the largest liquidity whose exact token-A amount over the
      range does not exceed `tokenAmount`. Equal prices divide by zero. */
  function EstLiquidityForTokenA(sqrtPrice1: nat, sqrtPrice2: nat, tokenAmount: nat): (r: Result<nat>)
    ensures r.Err? <==> sqrtPrice1 == sqrtPrice2
    ensures r.Err? ==> r.error == DivisionByZero
    ensures r.Ok? ==>
      var lo, hi := Min(sqrtPrice1, sqrtPrice2), Max(sqrtPrice1, sqrtPrice2);
      AmountANumerator(r.value, lo, hi) <= tokenAmount * (lo * hi) < AmountANumerator(r.value + 1, lo, hi)
  {
    var lower := Min(sqrtPrice1, sqrtPrice2);
    var upper := Max(sqrtPrice1, sqrtPrice2);
    // fromX64_BN: a right shift by 64 bits, the floor of a division by 2^64
    var num := FloorDiv(tokenAmount * upper * lower, Q64);
    var dem := upper - lower;
    if dem == 0 then Err(DivisionByZero)
    else
      FloorDivNested(tokenAmount * upper * lower, Q64, dem);
      EstLiquidityABounds(FloorDiv(num, dem), tokenAmount, lower, upper);
      Ok(FloorDiv(num, dem))
  }

  lemma EstLiquidityABounds(r: nat, tokenAmount: nat, lower: nat, upper: nat)
    requires lower < upper
    requires r == FloorDiv(tokenAmount * upper * lower, Q64 * (upper - lower))
    ensures AmountANumerator(r, lower, upper) <= tokenAmount * (lower * upper)
    ensures tokenAmount * (lower * upper) < AmountANumerator(r + 1, lower, upper)
  {
    assert tokenAmount * upper * lower == tokenAmount * (lower * upper);
  }

  /** The liquidity that `tokenAmount` of token B supports between two square-root
      prices, in either order: the largest liquidity whose exact token-B amount over the
      range does not exceed `tokenAmount`. Equal prices divide by zero. */
  function EstLiquidityForTokenB(sqrtPrice1: nat, sqrtPrice2: nat, tokenAmount: nat): (r: Result<nat>)
    ensures r.Err? <==> sqrtPrice1 == sqrtPrice2
    ensures r.Err? ==> r.error == DivisionByZero
    ensures r.Ok? ==>
      var lo, hi := Min(sqrtPrice1, sqrtPrice2), Max(sqrtPrice1, sqrtPrice2);
      AmountBNumerator(r.value, lo, hi) <= tokenAmount * Q64 < AmountBNumerator(r.value + 1, lo, hi)
  {
    var lower := Min(sqrtPrice1, sqrtPrice2);
    var upper := Max(sqrtPrice1, sqrtPrice2);
    var delta := upper - lower;
    // toX64_BN: a left shift by 64 bits
    if delta == 0 then Err(DivisionByZero) else Ok(FloorDiv(tokenAmount * Q64, delta))
  }

  /** An estimate of the liquidity that `tokenAmount` can back over the tick range
      `[lowerTick, upperTick)` at tick `currTick`. An inverted range is rejected; in range
      the smaller of the two single-token estimates is taken. */
  function EstimateLiquidityFromTokenAmounts(
    currTick: int, lowerTick: int, upperTick: int, tokenAmount: TokenAmounts,
    sqrtPriceAt: int -> nat
  ): (r: Result<nat>)
    ensures r == Err(InvalidRange) <==> upperTick < lowerTick
    ensures r.Err? && lowerTick <= upperTick ==> r.error == DivisionByZero
  {
    if upperTick < lowerTick then Err(InvalidRange)
    else
      var currSqrtPrice := sqrtPriceAt(currTick);
      var lowerSqrtPrice := sqrtPriceAt(lowerTick);
      var upperSqrtPrice := sqrtPriceAt(upperTick);
      if currTick >= upperTick then
        EstLiquidityForTokenB(upperSqrtPrice, lowerSqrtPrice, tokenAmount.tokenB)
      else if currTick < lowerTick then
        EstLiquidityForTokenA(lowerSqrtPrice, upperSqrtPrice, tokenAmount.tokenA)
      else
        match EstLiquidityForTokenA(currSqrtPrice, upperSqrtPrice, tokenAmount.tokenA)
        case Err(e) => Err(e)
        case Ok(estLiquidityAmountA) =>
          match EstLiquidityForTokenB(currSqrtPrice, lowerSqrtPrice, tokenAmount.tokenB)
          case Err(e) => Err(e)
          case Ok(estLiquidityAmountB) => Ok(Min(estLiquidityAmountA, estLiquidityAmountB))
  }

  // ---------------------------------------------------------------------------
  // Tick arrays a swap may cross

  /** `MAX_TICK_ARRAY_CROSSINGS`: the most tick-array boundaries one swap may cross. */
  const MaxTickArrayCrossings: nat := 2

  /** The tick-array offset of the `i`-th array a swap visits: downwards when trading
      A for B, upwards otherwise. */
  function TickArrayOffset(aToB: bool, i: nat): (offset: int)
    ensures offset == i || offset == -(i as int)
    ensures aToB ==> offset <= 0
    ensures !aToB ==> 0 <= offset
  {
    if aToB then -(i as int) else i
  }

  /** The addresses of the `MaxTickArrayCrossings + 1` tick arrays a swap starting at
      `tickCurrentIndex` may traverse, the `i`-th derived from tick-array offset `-i`
      (A to B) or `+i` (B to A). */
  method GetTickArrayPublicKeysForSwap(
    tickCurrentIndex: int, tickSpacing: int, aToB: bool,
    programId: PublicKey, whirlpoolAddress: PublicKey,
    startTickIndex: (int, int, int) -> int,
    tickArrayAddress: (PublicKey, PublicKey, int) -> PublicKey
  ) returns (tickArrayAddresses: seq<PublicKey>)
    ensures |tickArrayAddresses| == MaxTickArrayCrossings + 1
    ensures forall i :: 0 <= i < |tickArrayAddresses| ==>
      tickArrayAddresses[i] ==
        tickArrayAddress(programId, whirlpoolAddress,
          startTickIndex(tickCurrentIndex, tickSpacing, TickArrayOffset(aToB, i)))
  {
    var offset := 0;
    tickArrayAddresses := [];
    for i := 0 to MaxTickArrayCrossings + 1
      invariant |tickArrayAddresses| == i
      invariant offset == TickArrayOffset(aToB, i)
      invariant forall k :: 0 <= k < i ==>
        tickArrayAddresses[k] ==
          tickArrayAddress(programId, whirlpoolAddress,
            startTickIndex(tickCurrentIndex, tickSpacing, TickArrayOffset(aToB, k)))
    {
      var startIndex := startTickIndex(tickCurrentIndex, tickSpacing, offset);
      var pda := tickArrayAddress(programId, whirlpoolAddress, startIndex);
      tickArrayAddresses := tickArrayAddresses + [pda];
      offset := if aToB then offset - 1 else offset + 1;
    }
  }
}
