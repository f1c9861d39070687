# Whirlpools `PoolUtil` in Dafny

This is a model of the `PoolUtil` helpers of the Orca Whirlpools TypeScript SDK
(`sdk/src/utils/public/pool-utils.ts`). They are the client-side mirror of a
concentrated-liquidity AMM's fixed-point math:

- **Token amounts from liquidity.** `GetTokenAmountsFromLiquidity` gives the token A and
  token B amounts that a liquidity holds over a Q64.64 square-root-price range. The
  current price picks one of three branches: below the range, in it, or at/above it. One
  `roundUp` flag then picks ceiling or floor for both tokens.
- **Liquidity from token amounts.** `EstimateLiquidityFromTokenAmounts` rejects an
  inverted tick range. It maps ticks to square-root prices. Then it combines the
  single-token estimates `EstLiquidityForTokenA` and `EstLiquidityForTokenB`, taking
  their minimum when the current tick is inside the range.
- **Swap tick arrays.** `GetTickArrayPublicKeysForSwap` is a loop. It derives the
  addresses of the `MaxTickArrayCrossings + 1` tick arrays a swap may cross, walking the
  tick-array offset down (A to B) or up (B to A) one array per step.
- **Metadata.** `OrderMints` orders two mints by their raw bytes, as `Buffer.compare`
  does. `GetFeeRate` and `GetProtocolFeeRate` read the stored u16 rates as fractions over
  10^6 and 10^4. `IsRewardInitialized` tests a reward slot against the all-zero key.

The model makes the source's arithmetic exact (decimal.js rounds to 20 significant
digits; see "## Left out"):

- decimal.js values become exact rationals, written as a numerator and a denominator
  that are then floored or ceiled.
- BN values become `nat`.
- `toX64_Decimal` and `toX64_BN` are multiplication by `Q64` = 2^64.
- `fromX64_BN`, a 64-bit right shift, is floor division by `Q64`.
- `fromX64_Decimal` is exact division by `Q64`. Its quotient is rounded once, at the
  end, by the `roundUp` flag, so it is a ceiling when rounding up.

The source calls three collaborators whose bodies are not part of this model. Each one
is a function-typed parameter:

- `sqrtPriceAt` stands for `PriceMath.tickIndexToSqrtPriceX64`.
- `startTickIndex` stands for `TickUtil.getStartTickIndex`.
- `tickArrayAddress` stands for `PDAUtil.getTickArray(...).publicKey`.

The only assumption about the price map, and only in the lemmas that need it, is that it
is positive and strictly increasing on a tick interval `[minTick, maxTick]`
(`PoolUtilLemmas.IncreasingSqrtPrices`).

Files:

- `fixed_point.dfy` (module `FixedPoint`): floor and ceiling division, characterised by
  their defining inequalities, plus the arithmetic lemmas about them.
- `pool_types.dfy` (module `PoolTypes`): bytes, public keys, `TokenAmounts`, `Percentage`,
  the reward-info record and the error type.
- `byte_order.dfy` (module `ByteOrder`): `Buffer.compare`, and an independent definition
  of lexicographic order to check it against.
- `pool_util.dfy` (module `PoolUtil`): the operations.
- `pool_util_lemmas.dfy` (module `PoolUtilLemmas`): properties that relate several calls.

Two behaviours of the code are worth stating, because a reader might expect otherwise:

- **Division by zero.** `InvalidRange` is not the estimate's only failure. BN division
  throws on a zero divisor, and the estimate divides by a square-root-price difference.
  So it also fails when the two ticks are equal. It also fails when the current tick
  equals the lower tick of a non-empty range, because the token-B estimate then spans a
  zero-width interval. The model returns `Err(DivisionByZero)` in these cases
  (`EstimateEqualTicksFails`, `EstimateAtLowerTickFails`). The range check itself rejects
  exactly `upperTick < lowerTick`.
- **Equal mints.** `orderMints` does not exclude equal keys. On a tie it returns
  `(mintY, mintX)`, and the model does the same.

## Model

| member | source | states |
|---|---|---|
| `FixedPoint.FloorDiv` | sdk/src/utils/public/pool-utils.ts:107-110 | the result is the largest `q` with `q * den <= num` (`Decimal.floor`, BN division, right shift) |
| `FixedPoint.CeilDiv` | sdk/src/utils/public/pool-utils.ts:101-105 | the result is the least `q` with `num <= q * den` (`Decimal.ceil`) |
| `FixedPoint.RoundingGap` | sdk/src/utils/public/pool-utils.ts:101-111 | the ceiling is the floor or the floor plus one, and the two are equal exactly when `den` divides `num` |
| `FixedPoint.Round` | sdk/src/utils/public/pool-utils.ts:101-111 | `roundUp` gives the least `q` with `num <= q * den`, otherwise the largest `q` with `q * den <= num` |
| `FixedPoint.Min` | sdk/src/utils/public/pool-utils.ts:214 | `BN.min` (also at lines 155 and 225): at most both arguments and equal to one of them |
| `FixedPoint.Max` | sdk/src/utils/public/pool-utils.ts:215 | `BN.max` (also at line 226): at least both arguments and equal to one of them |
| `FixedPoint.FloorDivNested` | sdk/src/utils/public/pool-utils.ts:217-220 | shifting right by 64 bits and then dividing by the price difference equals one floor division by the product |
| `PoolUtil.IsRewardInitialized` | sdk/src/utils/public/pool-utils.ts:17-21 | true exactly when both the mint and the vault have a non-zero byte, that is, when neither is the default key |
| `PoolUtil.NotDefaultIffNonZeroByte` | sdk/src/utils/public/pool-utils.ts:19 | a 32-byte key differs from `PublicKey.default` exactly when one of its bytes is non-zero |
| `PoolUtil.GetFeeRate` | sdk/src/utils/public/pool-utils.ts:23-31 | the percentage's value is `feeRate / 1_000_000`, and a u16 rate stays below 6.6% |
| `PoolUtil.GetProtocolFeeRate` | sdk/src/utils/public/pool-utils.ts:33-40 | the percentage's value is `protocolFeeRate / 10_000`, below 6.6 for any u16 |
| `PoolUtilLemmas.FeeRateExamples` | sdk/src/utils/public/pool-utils.ts:23-40 | a fee rate of 1000 is 0.1% and a protocol fee rate of 300 is 3% |
| `ByteOrder.Compare` | sdk/src/utils/public/pool-utils.ts:45-48 | `Buffer.compare` always returns -1, 0 or 1 |
| `ByteOrder.CompareZeroIffEqual` | sdk/src/utils/public/pool-utils.ts:45-48 | the comparison is 0 exactly when the two byte sequences are equal |
| `ByteOrder.CompareAntisymmetric` | sdk/src/utils/public/pool-utils.ts:45-48 | swapping the arguments negates the comparison |
| `ByteOrder.CompareNegativeIffLexLess` | sdk/src/utils/public/pool-utils.ts:45-48 | the comparison is negative exactly when the first sequence is lexicographically smaller (a proper prefix, or a smaller byte at the first difference) |
| `PoolUtil.OrderMints` | sdk/src/utils/public/pool-utils.ts:42-58 | the result is a permutation of the two mints, and its first key is equal to or lexicographically below its second |
| `PoolUtilLemmas.OrderMintsSymmetric` | sdk/src/utils/public/pool-utils.ts:42-58 | `OrderMints(x, y) == OrderMints(y, x)` for all keys |
| `PoolUtilLemmas.OrderMintsIdempotent` | sdk/src/utils/public/pool-utils.ts:42-58 | ordering an already ordered pair returns it unchanged |
| `PoolTypes.Percentage.Value` | sdk/src/utils/public/pool-utils.ts:30 | the percentage's value is non-negative and times the denominator gives the numerator |
| `PoolUtil.AmountANumerator` | sdk/src/utils/public/pool-utils.ts:83-85 | the exact token-A amount over `[lo, hi]`, scaled by `lo * hi`, is zero exactly when the liquidity is zero or the range is empty |
| `PoolUtil.AmountBNumerator` | sdk/src/utils/public/pool-utils.ts:93 | the exact token-B amount over `[lo, hi]`, scaled by 2^64, is zero exactly when the liquidity is zero or the range is empty |
| `PoolUtilLemmas.AmountsAdditiveOverAdjacentRanges` | sdk/src/utils/public/pool-utils.ts:82-97 | splitting a range at an inner price splits both exact token amounts: the two parts add up to the whole |
| `PoolUtil.GetTokenAmountsFromLiquidity` | sdk/src/utils/public/pool-utils.ts:69-112 | token B is 0 when the current price is below the range, and token A is 0 when it is at or above the upper price |
| `PoolUtilLemmas.RoundUpWithinOneOfRoundDown` | sdk/src/utils/public/pool-utils.ts:100-111 | for identical inputs, each rounded-up token amount is the rounded-down amount or one more |
| `PoolUtilLemmas.TokenAmountsContinuousAtLowerPrice` | sdk/src/utils/public/pool-utils.ts:81-93 | at a current price equal to the lower price, the in-range branch gives exactly what the below-range branch gives |
| `PoolUtilLemmas.TokenAShrinksWithPrice` | sdk/src/utils/public/pool-utils.ts:90-92 | the in-range token-A amount does not grow as the current price rises |
| `PoolUtilLemmas.TokenBGrowsWithPrice` | sdk/src/utils/public/pool-utils.ts:93 | the in-range token-B amount does not shrink as the current price rises |
| `PoolUtilLemmas.TokenAmountsMonotoneInPrice` | sdk/src/utils/public/pool-utils.ts:81-98 | across all three branches, a higher current price gives no more token A and no less token B |
| `PoolUtilLemmas.TokenAmountsMonotoneInLiquidity` | sdk/src/utils/public/pool-utils.ts:81-98 | more liquidity gives no less of either token, in every branch and rounding mode |
| `PoolUtil.EstLiquidityForTokenA` | sdk/src/utils/public/pool-utils.ts:212-221 | fails with a division by zero exactly when the prices are equal; otherwise returns the largest liquidity whose exact token-A amount over the range is at most `tokenAmount` |
| `PoolUtil.EstLiquidityABounds` | sdk/src/utils/public/pool-utils.ts:217-220 | the nested floor quotient satisfies those two bounds on the liquidity's exact token-A amount |
| `PoolUtil.EstLiquidityForTokenB` | sdk/src/utils/public/pool-utils.ts:223-231 | fails with a division by zero exactly when the prices are equal; otherwise `r * (hi - lo) <= tokenAmount * 2^64 < (r + 1) * (hi - lo)` |
| `PoolUtilLemmas.EstLiquidityArgumentOrder` | sdk/src/utils/public/pool-utils.ts:213-231 | both single-token estimates give the same result with their two prices swapped |
| `PoolUtil.EstimateLiquidityFromTokenAmounts` | sdk/src/utils/public/pool-utils.ts:126-157 | fails with `InvalidRange` exactly when `upperTick < lowerTick`; any other failure is a division by zero |
| `PoolUtilLemmas.EstimateAboveRangeUsesOnlyTokenB` | sdk/src/utils/public/pool-utils.ts:140-141 | when the current tick is at or above the upper tick, the result depends only on the token-B amount |
| `PoolUtilLemmas.EstimateBelowRangeUsesOnlyTokenA` | sdk/src/utils/public/pool-utils.ts:142-143 | when the current tick is below the lower tick, the result depends only on the token-A amount |
| `PoolUtilLemmas.EstimateInRangeIsMinimum` | sdk/src/utils/public/pool-utils.ts:144-156 | in range, the estimate succeeds exactly when both single-token estimates do, is at most each of them, and equals one of them |
| `PoolUtilLemmas.EstimateEqualTicksFails` | sdk/src/utils/public/pool-utils.ts:132-143 | equal ticks pass the range check but fail with a division by zero |
| `PoolUtilLemmas.EstimateAtLowerTickFails` | sdk/src/utils/public/pool-utils.ts:144-155 | at the lower tick of a non-empty range, the estimate fails with a division by zero |
| `PoolUtilLemmas.SqrtPriceOrder` | sdk/src/utils/public/pool-utils.ts:136-138 | under a positive, strictly increasing price map, comparing ticks agrees with comparing their square-root prices |
| `PoolUtilLemmas.SqrtPriceOrderFacts` | sdk/src/utils/public/pool-utils.ts:136-143 | for valid ticks, the three prices meet the conversion's precondition, and the estimate's tick comparisons match the conversion's price comparisons |
| `PoolUtilLemmas.EstimateSucceedsExactly` | sdk/src/utils/public/pool-utils.ts:132-156 | for ticks the price map covers, the estimate succeeds exactly when `lowerTick < upperTick` and `currTick != lowerTick` |
| `PoolUtilLemmas.EstimateOfTokenAmountsAtMostLiquidity` | sdk/src/utils/public/pool-utils.ts:126-157 | converting a liquidity to rounded-down token amounts and estimating it back never yields more than the original liquidity |
| `PoolUtilLemmas.RoundUpRoundTripCanExceedLiquidity` | sdk/src/utils/public/pool-utils.ts:101-105 | with rounding up, the round trip can exceed the original liquidity: liquidity 1 over prices 1 and 2 gives one token B, which re-estimates to 2^64 |
| `PoolUtilLemmas.EstimatedLiquidityFitsTokenAmounts` | sdk/src/utils/public/pool-utils.ts:126-157 | an estimated liquidity never holds, rounded either way, more of either token than the amounts it was estimated from |
| `PoolUtilLemmas.EstimateIsLargestFit` | sdk/src/utils/public/pool-utils.ts:126-157 | one unit more than the estimate, rounded up, needs more of some token than was supplied |
| `PoolUtil.GetTickArrayPublicKeysForSwap` | sdk/src/utils/public/pool-utils.ts:174-191 | returns exactly `MaxTickArrayCrossings + 1` addresses; the i-th is derived from the start index at offset `-i` (A to B) or `+i` (B to A) |
| `PoolUtil.TickArrayOffset` | sdk/src/utils/public/pool-utils.ts:181-187 | the `i`-th offset is `i` array steps from the start: downwards (at most 0) from A to B, upwards (at least 0) from B to A |
| `PoolUtil.MaxTickArrayCrossings` | sdk/src/utils/public/pool-utils.ts:183 | the loop bound `MAX_TICK_ARRAY_CROSSINGS` |
| `PoolUtilLemmas.TickArrayOffsetsStepAndDistinct` | sdk/src/utils/public/pool-utils.ts:181-188 | the offsets start at 0, move by exactly one array per step in the trade's direction, and are pairwise distinct |

## Left out

- Finite precision of decimal.js: its default 20 significant digits and its rounding of
  intermediate products are not modelled. The model uses exact rationals, as if the
  precision were unbounded.
- `PoolUtil.GetTokenAmountsFromLiquidity` requires `0 < lowerPrice <= upperPrice`. The
  source does not check this. Outside it, decimal.js would produce `Infinity` or a
  negative amount, and those are not modelled.
- u64 and u128 ranges. BN values are unbounded `nat`s, and are never checked to fit in
  u64. Converting a decimal back to `u64` through its string form is not modelled either.
- The bodies of `PriceMath.tickIndexToSqrtPriceX64`, `TickUtil.getStartTickIndex` and
  `PDAUtil.getTickArray`. They are function parameters. PDA derivation is a hash, and
  its bump seed is dropped because only `.publicKey` is used.
- `AddressUtil.toPubKey`: an `Address` given as a base58 string is not decoded. Mints
  are taken as their 32 raw key bytes.
- `toTokenAmount`: it converts from a JavaScript floating-point `number`.
- `PoolUtil.GetFeeRate` and `PoolUtil.GetProtocolFeeRate` take a `u16`, where the source
  takes a JavaScript `number`. The pool stores both rates as u16 values, as the comment
  at `sdk/src/utils/public/pool-utils.ts:26-28` notes, and the 6.6% bound depends on it.
- `PoolUtilLemmas.EstimateOfTokenAmountsAtMostLiquidity` is stated for rounded-down
  amounts only. With rounding up the bound fails, as
  `RoundUpRoundTripCanExceedLiquidity` shows.
- The internals of `Percentage`. A percentage is the unreduced numerator and denominator
  that `Percentage.fromFraction` stores.
- The value of `MAX_TICK_ARRAY_CROSSINGS`. `sdk/src/types/public` is not part of this
  model, so the constant is set to 2 here. None of the proofs depend on its value.
- `sdk/tests/sdk/whirlpools/whirlpool-impl.test.ts`: an end-to-end test against a
  validator, made of transactions and account fetches.
