/** Base-36 identifiers: reddit's `to36` (lower-case digits, most significant first)
    and Python's `int(s, 36)`, which also accepts upper-case letters. */
module Base36 {
  import opened Wrappers

  /** The digit for a value below 36: `0`-`9`, then `a`-`z`. */
  function Digit(k: nat): (c: char)
    requires k < 36
    ensures '0' <= c <= '9' || 'a' <= c <= 'z'
  {
    if k < 10 then ('0' as int + k) as char else ('a' as int + k - 10) as char
  }

  /** The value of one base-36 digit, of either case; `None` for any other character. */
  function DigitValue(c: char): (v: Option<nat>)
    ensures v.Some? ==> v.value < 36
  {
    if '0' <= c <= '9' then Some(c as int - '0' as int)
    else if 'a' <= c <= 'z' then Some(c as int - 'a' as int + 10)
    else if 'A' <= c <= 'Z' then Some(c as int - 'A' as int + 10)
    else None
  }

  predicate AllDigits(s: string)
  {
    forall i :: 0 <= i < |s| ==> DigitValue(s[i]).Some?
  }

  /** `to36(n)`: the shortest lower-case base-36 spelling of `n` ("0" for zero). */
  function Encode(n: nat): (s: string)
    ensures |s| >= 1 && AllDigits(s)
    ensures forall i :: 0 <= i < |s| ==> '0' <= s[i] <= '9' || 'a' <= s[i] <= 'z'
    ensures '-' !in s && '_' !in s
  {
    if n < 36 then [Digit(n)] else Encode(n / 36) + [Digit(n % 36)]
  }

  function DigitsValue(s: string): nat
    requires AllDigits(s)
  {
    if |s| == 0 then 0
    else DigitsValue(s[..|s| - 1]) * 36 + DigitValue(s[|s| - 1]).value
  }

  /** `int(s, 36)`: `None` stands for the `ValueError` raised on an empty string
      or a character that is not a base-36 digit. */
  function Decode(s: string): (r: Option<nat>)
    ensures r.Some? <==> |s| > 0 && AllDigits(s)
  {
    if |s| > 0 && AllDigits(s) then Some(DigitsValue(s)) else None
  }

  lemma DigitValueOfDigit(k: nat)
    requires k < 36
    ensures DigitValue(Digit(k)) == Some(k)
  {
  }

  /** Decoding what `to36` produced gives the number back. */
  lemma {:induction false} DecodeEncode(n: nat)
    ensures Decode(Encode(n)) == Some(n)
  {
    var s := Encode(n);
    if n < 36 {
      DigitValueOfDigit(n);
      assert s == [Digit(n)] && s[..0] == [];
      assert DigitsValue(s) == DigitsValue([]) * 36 + n;
    } else {
      DigitValueOfDigit(n % 36);
      DecodeEncode(n / 36);
      assert s[..|s| - 1] == Encode(n / 36);
    }
  }
}
