/** Go's calling conventions and its 64-bit signed integer arithmetic,
    as used by helper.go. */
module GoTypes {

  /** A Go `(value, err)` pair. `value` is always the first result the Go
      function returns: on failure that is the placeholder it returns beside
      the error (-1, 0, or a nil slice, modelled as the empty sequence). */
  datatype GoResult<T, E> = Ok(value: T) | Err(value: T, error: E)

  const TWO_63: int := 0x8000_0000_0000_0000
  const TWO_64: int := 0x1_0000_0000_0000_0000

  /** The range of Go's `int64`. */
  predicate IsInt64(x: int) {
    -TWO_63 <= x < TWO_63
  }

  /** Two's-complement wrap-around of an exact result into `int64`: what Go's
      `+`, `-` and `*` on `int64` produce. */
  function Wrap64(x: int): (r: int)
    ensures IsInt64(r)
    ensures IsInt64(x) ==> r == x
  {
    (x + TWO_63) % TWO_64 - TWO_63
  }

  /** The wrapped value differs from the exact one by a multiple of `2^64`:
      two's-complement wrap-around, not saturation. */
  lemma Wrap64Congruent(x: int)
    ensures (Wrap64(x) - x) % TWO_64 == 0
  {
  }

  /** `Wrap64(x)` is the only `int64` congruent to `x` modulo `2^64`. */
  lemma Wrap64Unique(x: int, y: int)
    requires IsInt64(y) && (y - x) % TWO_64 == 0
    ensures y == Wrap64(x)
  {
    Wrap64Congruent(x);
    var d := y - Wrap64(x);
    assert d % TWO_64 == 0 by {
      assert d == (y - x) - (Wrap64(x) - x);
    }
    assert -TWO_64 < d < TWO_64;
  }

  /** Wrapping an inner sum or product first does not change the outer wrap,
      so `tip - Wrap64(5760 * days)` wraps like `tip - 5760 * days`. */
  lemma Wrap64Inner(a: int, b: int)
    ensures Wrap64(a + Wrap64(b)) == Wrap64(a + b)
  {
  }

  /** The same for an inner term that is subtracted. */
  lemma Wrap64InnerSub(a: int, b: int)
    ensures Wrap64(a - Wrap64(b)) == Wrap64(a - b)
  {
  }

  /** Go's integer division `a / b`, which truncates toward zero (Dafny's
      `/` is Euclidean); only positive divisors occur in helper.go. */
  function Quo(a: int, b: int): (q: int)
    requires b > 0
    ensures a >= 0 ==> 0 <= q * b <= a < (q + 1) * b
    ensures a < 0 ==> (q - 1) * b < a <= q * b <= 0
  {
    if a >= 0 then
      DivBounds(a, b);
      a / b
    else
      DivBounds(-a, b);
      -((-a) / b)
  }

  lemma DivBounds(a: int, b: int)
    requires a >= 0 && b > 0
    ensures 0 <= (a / b) * b <= a < (a / b + 1) * b
  {
  }
}
