/** Calendar dates and the `'%m/%d/%Y'` text form that both the Adzerk
    requests and the availability JSON use. */
module Dates {
  import opened Wrappers

  datatype Date = Date(year: int, month: int, day: int)

  /** The last decimal digit of `n`. */
  function DigitChar(n: int): char
  {
    ('0' as int + n % 10) as char
  }

  /** The last two decimal digits of `n` (`%m`, `%d`). */
  function Digits2(n: int): string
  {
    [DigitChar(n / 10), DigitChar(n)]
  }

  /** The last four decimal digits of `n` (`%Y`). */
  function Digits4(n: int): string
  {
    Digits2(n / 100) + Digits2(n)
  }

  /** `d.strftime('%m/%d/%Y')`. */
  function Format(d: Date): string
  {
    Digits2(d.month) + "/" + Digits2(d.day) + "/" + Digits4(d.year)
  }

  predicate IsDecimal(s: string)
  {
    forall i :: 0 <= i < |s| ==> '0' <= s[i] <= '9'
  }

  function DecimalValue(s: string): nat
    requires IsDecimal(s)
  {
    if |s| == 0 then 0 else DecimalValue(s[..|s| - 1]) * 10 + (s[|s| - 1] as int - '0' as int)
  }

  /** Reads back a `MM/DD/YYYY` string. */
  function Parse(s: string): (r: Option<Date>)
    ensures r.Some? ==> 0 <= r.value.month < 100 && 0 <= r.value.day < 100 && 0 <= r.value.year < 10000
  {
    if |s| == 10 && s[2] == '/' && s[5] == '/'
       && IsDecimal(s[..2]) && IsDecimal(s[3..5]) && IsDecimal(s[6..])
    then
      DecimalBound2(s[..2]);
      DecimalBound2(s[3..5]);
      DecimalBound4(s[6..]);
      Some(Date(DecimalValue(s[6..]), DecimalValue(s[..2]), DecimalValue(s[3..5])))
    else None
  }

  lemma DecimalBound2(s: string)
    requires |s| == 2 && IsDecimal(s)
    ensures DecimalValue(s) < 100
  {
    var t := s[..1];
    assert t[..0] == [] && t[0] == s[0];
    assert DecimalValue(t) == s[0] as int - '0' as int;
    assert s[..|s| - 1] == t;
  }

  lemma DecimalBound4(s: string)
    requires |s| == 4 && IsDecimal(s)
    ensures DecimalValue(s) < 10000
  {
    DecimalBound2(s[..2]);
    assert s[..3][..2] == s[..2];
    assert s[..4] == s;
  }

  lemma DigitsValue2(n: int)
    requires 0 <= n < 100
    ensures IsDecimal(Digits2(n)) && DecimalValue(Digits2(n)) == n
  {
    var s := Digits2(n);
    assert s[..1][..0] == [];
    assert DecimalValue(s[..1]) == n / 10;
  }

  lemma DigitsValue4(n: int)
    requires 0 <= n < 10000
    ensures IsDecimal(Digits4(n)) && DecimalValue(Digits4(n)) == n
  {
    var hi, lo := Digits2(n / 100), Digits2(n);
    DigitsValue2(n / 100);
    var s := Digits4(n);
    assert s[..3] == hi + [lo[0]] && s[..3][..2] == hi;
    assert DecimalValue(s[..3]) == (n / 100) * 10 + (n / 10) % 10;
  }

  /** Reading a formatted date gives it back whenever its fields fit their widths. */
  lemma ParseFormat(d: Date)
    requires 0 <= d.month < 100 && 0 <= d.day < 100 && 0 <= d.year < 10000
    ensures Parse(Format(d)) == Some(d)
  {
    var s := Format(d);
    DigitsValue2(d.month);
    DigitsValue2(d.day);
    DigitsValue4(d.year);
    assert s[..2] == Digits2(d.month);
    assert s[3..5] == Digits2(d.day);
    assert s[6..] == Digits4(d.year);
  }

  /** Reading a formatted date back is one-to-one on dates whose fields fit. */
  lemma FormatInjective(a: Date, b: Date)
    requires 0 <= a.month < 100 && 0 <= a.day < 100 && 0 <= a.year < 10000
    requires 0 <= b.month < 100 && 0 <= b.day < 100 && 0 <= b.year < 10000
    requires Format(a) == Format(b)
    ensures a == b
  {
    ParseFormat(a);
    ParseFormat(b);
  }

  predicate IsLeap(year: int)
  {
    year % 4 == 0 && (year % 100 != 0 || year % 400 == 0)
  }

  function DaysInMonth(year: int, month: int): int
  {
    if month == 2 then (if IsLeap(year) then 29 else 28)
    else if month == 4 || month == 6 || month == 9 || month == 11 then 30
    else 31
  }

  /** A day of the proleptic Gregorian calendar from year 1 on. */
  predicate Valid(d: Date)
  {
    1 <= d.year && 1 <= d.month <= 12 && 1 <= d.day <= DaysInMonth(d.year, d.month)
  }

  /** Calendar order. */
  predicate Before(a: Date, b: Date)
  {
    a.year < b.year || (a.year == b.year && (a.month < b.month || (a.month == b.month && a.day < b.day)))
  }

  /** `d + timedelta(1)`. */
  function NextDay(d: Date): (e: Date)
    ensures Valid(d) ==> Valid(e) && Before(d, e)
  {
    if d.day < DaysInMonth(d.year, d.month) then d.(day := d.day + 1)
    else if d.month < 12 then Date(d.year, d.month + 1, 1)
    else Date(d.year + 1, 1, 1)
  }

  /** Python's `date.fromordinal`: day 1 is 1 January of year 1, and each
      ordinal is the day after the one before it. */
  function FromOrdinal(ordinal: int): (d: Date)
    ensures Valid(d)
    decreases ordinal
  {
    if ordinal <= 1 then Date(1, 1, 1) else NextDay(FromOrdinal(ordinal - 1))
  }

  /** A larger ordinal is a later day. */
  lemma {:induction false} FromOrdinalIncreasing(m: int, n: int)
    requires 1 <= m < n
    ensures Before(FromOrdinal(m), FromOrdinal(n))
    decreases n
  {
    if m < n - 1 {
      FromOrdinalIncreasing(m, n - 1);
    }
  }

  /** Distinct ordinals are distinct days. */
  lemma FromOrdinalInjective(m: int, n: int)
    requires 1 <= m && 1 <= n && FromOrdinal(m) == FromOrdinal(n)
    ensures m == n
  {
    if m < n {
      FromOrdinalIncreasing(m, n);
    } else if n < m {
      FromOrdinalIncreasing(n, m);
    }
  }
}
