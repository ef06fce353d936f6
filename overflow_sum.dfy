/**
 * `OverflowSum` adds two signed 64-bit integers and reports "Overflow!" instead
 * of a sum that does not fit. The function as written computes its test value
 * with 64-bit two's-complement arithmetic, which is modelled by `Wrap`.
 */
module OverflowSum {
  import opened Wrappers
  import Decimal

  const INT64_MIN: int := -0x8000_0000_0000_0000
  const INT64_MAX: int := 0x7FFF_FFFF_FFFF_FFFF
  const MODULUS: int := 0x1_0000_0000_0000_0000

  type Int64 = x: int | INT64_MIN <= x <= INT64_MAX

  const OVERFLOW: string := "Overflow!"

  /** Two's-complement wrap-around of an integer into the 64-bit range. */
  function Wrap(x: int): (r: Int64)
    ensures (r - x) % MODULUS == 0
  {
    (x - INT64_MIN) % MODULUS + INT64_MIN
  }

  lemma WrapInRange(x: int)
    requires INT64_MIN <= x <= INT64_MAX
    ensures Wrap(x) == x
  {
  }

  /** The overflow test exactly as the source computes it, with wrapping subtractions. */
  predicate OverflowedAsWritten(a: Int64, b: Int64)
  {
    if a > 0 && b > 0 then Wrap(Wrap(INT64_MAX - a) - b) < 0
    else if a < 0 && b < 0 then Wrap(Wrap(INT64_MIN - a) - b) > 0
    else false
  }

  /** The source's `OverflowSum`: the printed sum is the wrapped one. */
  function OverflowSumAsWritten(a: Int64, b: Int64): string
  {
    if OverflowedAsWritten(a, b) then OVERFLOW else Decimal.IntToString(Wrap(a + b))
  }

  /** At a = b = INT64_MIN the true sum does not fit, yet no overflow is reported and "0" is printed. */
  lemma AsWrittenMissesMinPlusMin()
    ensures INT64_MIN + INT64_MIN < INT64_MIN
    ensures OverflowSumAsWritten(INT64_MIN, INT64_MIN) == "0"
  {
    assert Wrap(INT64_MIN - INT64_MIN) == 0;
    assert Wrap(0 - INT64_MIN) == INT64_MIN;
    assert Wrap(INT64_MIN + INT64_MIN) == 0;
  }

  /** The intended `OverflowSum`: each test is written so that no intermediate leaves 64 bits. */
  function Sum(a: Int64, b: Int64): (r: string)
    ensures r == OVERFLOW <==> !(INT64_MIN <= a + b <= INT64_MAX)
    ensures INT64_MIN <= a + b <= INT64_MAX ==> Decimal.ParseInt(r) == Some(a + b)
    ensures (a <= 0 <= b || b <= 0 <= a) ==> r != OVERFLOW
  {
    var overflowed :=
      if a > 0 && b > 0 then a > INT64_MAX - b
      else if a < 0 && b < 0 then a < INT64_MIN - b
      else false;
    if overflowed then OVERFLOW
    else
      Decimal.IntToStringRoundTrip(a + b);
      assert Decimal.ParseInt(OVERFLOW) == None;
      Decimal.IntToString(a + b)
  }

  /** The source's overflow test is right on every input except a = b = INT64_MIN. */
  lemma OverflowTestElsewhere(a: Int64, b: Int64)
    requires !(a == INT64_MIN && b == INT64_MIN)
    ensures OverflowedAsWritten(a, b) <==> !(INT64_MIN <= a + b <= INT64_MAX)
  {
    if a > 0 && b > 0 {
      WrapInRange(INT64_MAX - a);
      WrapInRange(INT64_MAX - a - b);
    } else if a < 0 && b < 0 {
      WrapInRange(INT64_MIN - a);
      WrapInRange(INT64_MIN - a - b);
    }
  }

  /** The source agrees with the intended function on every input except a = b = INT64_MIN. */
  lemma AsWrittenAgreesElsewhere(a: Int64, b: Int64)
    requires !(a == INT64_MIN && b == INT64_MIN)
    ensures OverflowSumAsWritten(a, b) == Sum(a, b)
  {
    OverflowTestElsewhere(a, b);
    if INT64_MIN <= a + b <= INT64_MAX {
      WrapInRange(a + b);
      assert OverflowSumAsWritten(a, b) == Decimal.IntToString(a + b);
    }
  }
}
