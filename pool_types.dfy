/** Value types shared by the pool helpers. */
module PoolTypes {

  newtype byte = x: int | 0 <= x < 256

  /** A Solana public key: its 32 raw bytes (`PublicKey.toBuffer()`). */
  type PublicKey = s: seq<byte> | |s| == 32 witness DefaultPublicKey

  /** `PublicKey.default`, the all-zero key. */
  const DefaultPublicKey: seq<byte> :=
    [0, 0, 0, 0, 0, 0, 0, 0, 0, 0, 0, 0, 0, 0, 0, 0,
     0, 0, 0, 0, 0, 0, 0, 0, 0, 0, 0, 0, 0, 0, 0, 0]

  /** An unsigned 16-bit integer, as the pool stores its fee rates. */
  type u16 = x: int | 0 <= x < 0x1_0000

  /** A pair of raw token amounts (u64 values, undecimaled). */
  datatype TokenAmounts = TokenAmounts(tokenA: nat, tokenB: nat)

  /** A fraction `numerator / denominator` as `Percentage.fromFraction` stores it
      (unreduced). */
  datatype Percentage = Percentage(numerator: nat, denominator: nat)
  {
    function Value(): (v: real)
      requires denominator != 0
      ensures 0.0 <= v
      ensures v * denominator as real == numerator as real
    {
      numerator as real / denominator as real
    }
  }

  /** The reward slot of a pool, `WhirlpoolRewardInfoData`. */
  datatype WhirlpoolRewardInfo = WhirlpoolRewardInfo(
    mint: PublicKey,
    vault: PublicKey,
    authority: PublicKey,
    emissionsPerSecondX64: nat,
    growthGlobalX64: nat)

  /** The ways the liquidity estimate can fail: the explicit range check, and a
      division by a zero square-root-price difference, on which BN division throws. */
  datatype PoolError = InvalidRange | DivisionByZero

  datatype Result<T> = Ok(value: T) | Err(error: PoolError)
}
