/** `GetStartingBlockNumber` (helper.go:199-213): the block a number of days
    back from the chain tip, estimated at a fixed number of blocks per day.
    The tip comes from `GetLatestBlockNumber`, an HTTP and JSON call that is
    not part of this model: its `(value, err)` outcome is an input here. */
module Blocks {
  import opened GoTypes

  /** Blocks per day assumed by the estimate (one block every 15 seconds). */
  const BLOCKS_PER_DAY: int := 5760

  /** The tips `GetLatestBlockNumber` can report: its value comes from
      `hextoDecimal`, which parses into the `int32` range. */
  predicate IsTip(tip: int) {
    -0x8000_0000 <= tip <= 0x7FFF_FFFF
  }

  /** A look-back, forward (`days > 0`) or backward (`days < 0`), for which
      `tip - BLOCKS_PER_DAY * days` needs no wrap-around in `int64`,
      whatever tip `GetLatestBlockNumber` reports. */
  predicate ModestLookback(days: int) {
    -((TWO_63 - 0x8000_0000) / BLOCKS_PER_DAY) <= days <= (TWO_63 - 0x8000_0000) / BLOCKS_PER_DAY
  }

  /** `GetStartingBlockNumber(days)` given the outcome of the tip lookup.
      A failed lookup yields `(0, err)`. The subtraction is `int64`
      arithmetic and is not clamped at zero. */
  function GetStartingBlockNumber<E>(latest: GoResult<int, E>, days: int): (r: GoResult<int, E>)
    requires IsInt64(days) && IsInt64(latest.value)
    ensures IsInt64(r.value)
    ensures r.Err? <==> latest.Err?
    ensures r.Err? ==> r.value == 0 && r.error == latest.error
  {
    match latest
    case Err(_, e) => Err(0, e)
    case Ok(tip) => Ok(Wrap64(tip - Wrap64(BLOCKS_PER_DAY * days)))
  }

  /** Without overflow the starting block is exactly `tip - 5760 * days`,
      which is negative when the look-back reaches past the genesis block. */
  lemma StartingBlockExact<E>(tip: int, days: int)
    requires IsTip(tip) && ModestLookback(days)
    ensures GetStartingBlockNumber<E>(Ok(tip), days) == Ok(tip - BLOCKS_PER_DAY * days)
  {
  }

  /** Whatever the look-back, the start is the exact `tip - 5760 * days`
      wrapped once into `int64`: the intermediate wrap of the product
      changes nothing. */
  lemma StartingBlockWraps<E>(tip: int, days: int)
    requires IsInt64(tip) && IsInt64(days)
    ensures GetStartingBlockNumber<E>(Ok(tip), days) == Ok(Wrap64(tip - BLOCKS_PER_DAY * days))
  {
    Wrap64InnerSub(tip, BLOCKS_PER_DAY * days);
  }

  /** A look-back of zero days starts at the tip. */
  lemma StartingBlockNoLookback<E>(tip: int)
    requires IsInt64(tip)
    ensures GetStartingBlockNumber<E>(Ok(tip), 0) == Ok(tip)
  {
  }

  /** Looking further back never moves the starting block forward. */
  lemma StartingBlockMonotone<E>(tip: int, days1: int, days2: int)
    requires IsTip(tip)
    requires ModestLookback(days1) && ModestLookback(days2) && days1 <= days2
    ensures GetStartingBlockNumber<E>(Ok(tip), days2).value
            <= GetStartingBlockNumber<E>(Ok(tip), days1).value
  {
  }

  /** The starting block is not clamped at zero: a tip below one day's worth
      of blocks gives a negative start. */
  lemma StartingBlockNotClamped<E>(tip: int)
    requires 0 <= tip < BLOCKS_PER_DAY
    ensures GetStartingBlockNumber<E>(Ok(tip), 1).value < 0
  {
  }
}
