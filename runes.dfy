/**
 * Go's conversion `string(n)` of an integer `n`: it yields the one code point `n`, not the
 * decimal digits of `n`.  Integers that are not Unicode scalar values (negative, a
 * surrogate, or above U+10FFFF) all become U+FFFD, the replacement character.
 */
module Runes {

  const ReplacementChar: char := '\U{FFFD}'

  /** The integers Go accepts as runes: 0..0x10FFFF without the surrogates. */
  predicate IsScalarValue(n: int) {
    0 <= n < 0xD800 || 0xE000 <= n < 0x11_0000
  }

  /** `string(n)` for an integer `n`, as a sequence of code points. */
  function RuneStr(n: int): (s: string)
    ensures |s| == 1
    ensures s[0] as int == n <==> IsScalarValue(n)
  {
    if IsScalarValue(n) then [n as char] else [ReplacementChar]
  }

  /** Distinct scalar values encode to distinct strings. */
  lemma RuneStrInjective(m: int, n: int)
    requires IsScalarValue(m) && IsScalarValue(n)
    requires RuneStr(m) == RuneStr(n)
    ensures m == n
  {
    assert RuneStr(m)[0] == RuneStr(n)[0];
  }

  /**
   * Every integer that is not a scalar value encodes like the first surrogate 0xD800.
   * In particular every Unix timestamp after 13 January 1970 encodes to U+FFFD.
   */
  lemma NonScalarsCollide(n: int)
    requires !IsScalarValue(n)
    ensures RuneStr(n) == RuneStr(0xD800) == [ReplacementChar]
  {
  }

  /** The genesis timestamp 0 encodes to the NUL character. */
  lemma ZeroIsNul()
    ensures RuneStr(0) == "\0"
  {
  }
}
