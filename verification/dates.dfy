/** Calendar dates as `pd.to_datetime(..., format='%Y-%m-%d')` accepts them,
    and the `YYYY-MM-DD` text `to_csv` writes them back as. */
module Dates {
  import opened Values

  datatype Date = Date(year: int, month: int, day: int)

  predicate IsLeapYear(y: int) {
    (y % 4 == 0 && y % 100 != 0) || y % 400 == 0
  }

  function DaysInMonth(y: int, m: int): (n: int)
    requires 1 <= m <= 12
    ensures 28 <= n <= 31
    ensures n == 29 <==> m == 2 && IsLeapYear(y)
  {
    if m == 2 then (if IsLeapYear(y) then 29 else 28)
    else if m == 4 || m == 6 || m == 9 || m == 11 then 30
    else 31
  }

  /** The date exists in the proleptic Gregorian calendar. */
  predicate IsCalendarDate(d: Date) {
    1 <= d.month <= 12 && 1 <= d.day <= DaysInMonth(d.year, d.month)
  }

  /** `a` is on or before `b`. */
  predicate NotAfter(a: Date, b: Date) {
    a.year < b.year
    || (a.year == b.year && (a.month < b.month || (a.month == b.month && a.day <= b.day)))
  }

  /** pandas timestamps have nanosecond resolution in a signed 64-bit count,
      so midnight of a day is representable only from 1677-09-22 to 2262-04-11;
      parsing any other day raises OutOfBoundsDatetime. */
  const FirstTimestampDay := Date(1677, 9, 22)
  const LastTimestampDay := Date(2262, 4, 11)

  predicate InTimestampRange(d: Date) {
    NotAfter(FirstTimestampDay, d) && NotAfter(d, LastTimestampDay)
  }

  /** A date a parsed DATE cell can hold. */
  type Timestamp = d: Date | IsCalendarDate(d) && InTimestampRange(d)
    witness Date(2000, 1, 1)

  /** An ASCII decimal digit. pandas' strptime patterns also take other
      Unicode decimal digits; the model does not. */
  predicate IsDigit(c: char) {
    '0' <= c <= '9'
  }

  predicate AllDigits(s: string) {
    forall i :: 0 <= i < |s| ==> IsDigit(s[i])
  }

  function Pow10(n: nat): (p: nat)
    ensures p >= 1
  {
    if n == 0 then 1 else 10 * Pow10(n - 1)
  }

  /** The value of a decimal digit string, most significant digit first. */
  function DigitsValue(s: string): (v: nat)
    requires AllDigits(s)
    ensures v < Pow10(|s|)
  {
    if |s| == 0 then 0
    else DigitsValue(s[..|s| - 1]) * 10 + (s[|s| - 1] as int - '0' as int)
  }

  /** `n` written in exactly `width` decimal digits, zero-padded on the left. */
  function Digits(n: nat, width: nat): (s: string)
    requires n < Pow10(width)
    ensures |s| == width && AllDigits(s)
  {
    if width == 0 then ""
    else Digits(n / 10, width - 1) + [('0' as int + n % 10) as char]
  }

  lemma {:induction false} DigitsValueOfDigits(n: nat, width: nat)
    requires n < Pow10(width)
    ensures DigitsValue(Digits(n, width)) == n
    decreases width
  {
    if width > 0 {
      var s := Digits(n, width);
      assert s[..|s| - 1] == Digits(n / 10, width - 1);
      DigitsValueOfDigits(n / 10, width - 1);
    }
  }

  lemma {:induction false} DigitsOfDigitsValue(s: string)
    requires AllDigits(s)
    ensures Digits(DigitsValue(s), |s|) == s
    decreases |s|
  {
    if |s| > 0 {
      var p := s[..|s| - 1];
      var v := DigitsValue(s);
      assert v / 10 == DigitsValue(p);
      DigitsOfDigitsValue(p);
      assert s == p + [s[|s| - 1]];
    }
  }

  /** How many digits the month of `s` has: one when a dash follows it
      directly, two otherwise. */
  function MonthWidth(s: string): (w: nat)
    ensures 1 <= w <= 2
  {
    if |s| > 6 && s[6] == '-' then 1 else 2
  }

  /** The strings `pd.to_datetime` turns into NaT before it tries any
      format: the empty string and pandas' NaT and NaN spellings. */
  const NaTStrings: set<string> := {"", "NaT", "nat", "NAT", "nan", "NaN", "NAN"}

  /** `%Y-%m-%d` as `pd.to_datetime` applies it: a four-digit year, then a
      month and a day of one or two digits each, separated by dashes and
      with nothing after the day; the day must exist in the calendar and lie
      inside the timestamp range. */
  function ParseIsoDate(s: string): Option<Timestamp> {
    var mw := MonthWidth(s);
    if 6 + mw < |s| <= 8 + mw && s[4] == '-' && s[5 + mw] == '-'
       && AllDigits(s[..4]) && AllDigits(s[5..5 + mw]) && AllDigits(s[6 + mw..])
    then
      var d := Date(DigitsValue(s[..4]), DigitsValue(s[5..5 + mw]), DigitsValue(s[6 + mw..]));
      if IsCalendarDate(d) && InTimestampRange(d) then Some(d) else None
    else None
  }

  /** A date written with a four-digit year, a month of `mw` digits and a day
      of `dw` digits, zero-padded. */
  function Spelling(d: Timestamp, mw: nat, dw: nat): (s: string)
    requires d.month < Pow10(mw) && d.day < Pow10(dw)
    ensures |s| == 6 + mw + dw
  {
    assert Pow10(4) == 10000;
    Digits(d.year, 4) + "-" + Digits(d.month, mw) + "-" + Digits(d.day, dw)
  }

  /** The `YYYY-MM-DD` text of a timestamp's date, as `to_csv` writes it. */
  function FormatIsoDate(d: Timestamp): (s: string)
    ensures |s| == 10 && s[4] == '-' && s[7] == '-'
  {
    assert Pow10(2) == 100;
    Spelling(d, 2, 2)
  }

  /** The three digit groups and the two dashes of a spelling. */
  lemma SpellingParts(d: Timestamp, mw: nat, dw: nat)
    requires 1 <= mw <= 2 && 1 <= dw <= 2 && d.month < Pow10(mw) && d.day < Pow10(dw)
    ensures var s := Spelling(d, mw, dw);
      && s[..4] == Digits(d.year, 4) && s[5..5 + mw] == Digits(d.month, mw) && s[6 + mw..] == Digits(d.day, dw)
      && s[4] == '-' && s[5 + mw] == '-' && MonthWidth(s) == mw
  {
    var s := Spelling(d, mw, dw);
    var ys, ms, ds := Digits(d.year, 4), Digits(d.month, mw), Digits(d.day, dw);
    assert s == ys + "-" + ms + "-" + ds;
    if mw == 2 {
      assert s[6] == ms[1];
    }
  }

  /** Every spelling with a one- or two-digit month and day parses back to
      its date. */
  lemma ParseSpelling(d: Timestamp, mw: nat, dw: nat)
    requires 1 <= mw <= 2 && 1 <= dw <= 2 && d.month < Pow10(mw) && d.day < Pow10(dw)
    ensures ParseIsoDate(Spelling(d, mw, dw)) == Some(d)
  {
    assert Pow10(4) == 10000;
    SpellingParts(d, mw, dw);
    DigitsValueOfDigits(d.year, 4);
    DigitsValueOfDigits(d.month, mw);
    DigitsValueOfDigits(d.day, dw);
  }

  /** Writing a parsed date and reading it back gives the same date. */
  lemma ParseFormat(d: Timestamp)
    ensures ParseIsoDate(FormatIsoDate(d)) == Some(d)
  {
    assert Pow10(2) == 100;
    ParseSpelling(d, 2, 2);
  }

  /** Every string the parser accepts is one of the spellings of its date,
      with a zero-padded or unpadded month and day. */
  lemma FormatParse(s: string)
    requires ParseIsoDate(s).Some?
    ensures var d := ParseIsoDate(s).value;
      exists mw: nat, dw: nat :: 1 <= mw <= 2 && 1 <= dw <= 2 && d.month < Pow10(mw) && d.day < Pow10(dw)
        && s == Spelling(d, mw, dw)
  {
    var d := ParseIsoDate(s).value;
    var mw := MonthWidth(s);
    var dw := |s| - 6 - mw;
    assert s == s[..4] + "-" + s[5..5 + mw] + "-" + s[6 + mw..] by {
      assert s[4..5] == "-" && s[5 + mw..6 + mw] == "-";
      assert s[..4] + s[4..5] == s[..5];
      assert s[..5] + s[5..5 + mw] == s[..5 + mw];
      assert s[..5 + mw] + s[5 + mw..6 + mw] == s[..6 + mw];
      assert s[..6 + mw] + s[6 + mw..] == s;
    }
    DigitsOfDigitsValue(s[..4]);
    DigitsOfDigitsValue(s[5..5 + mw]);
    DigitsOfDigitsValue(s[6 + mw..]);
    assert s == Spelling(d, mw, dw);
  }
}
