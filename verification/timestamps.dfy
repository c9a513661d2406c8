/**
 * Clock readings and the textual layout "%Y-%m-%d %H:%M:%S" in which notes
 * store their creation and update times ("2024-03-05 09:07:00").
 */
module Timestamps {

  /** A clock reading, field by field, to whole seconds. */
  datatype RawDateTime = RawDateTime(year: int, month: int, day: int, hour: int, minute: int, second: int)

  predicate IsLeapYear(year: int) {
    year % 4 == 0 && (year % 100 != 0 || year % 400 == 0)
  }

  function DaysInMonth(year: int, month: int): int
    requires 1 <= month <= 12
  {
    if month == 2 then (if IsLeapYear(year) then 29 else 28)
    else if month == 4 || month == 6 || month == 9 || month == 11 then 30
    else 31
  }

  /** A reading the local clock can produce (four-digit years only, see README). */
  predicate IsCivil(t: RawDateTime) {
    && 1000 <= t.year <= 9999
    && 1 <= t.month <= 12
    && 1 <= t.day <= DaysInMonth(t.year, t.month)
    && 0 <= t.hour < 24
    && 0 <= t.minute < 60
    && 0 <= t.second < 60
  }

  type DateTime = t: RawDateTime | IsCivil(t) witness RawDateTime(2000, 1, 1, 0, 0, 0)

  function Pow10(k: nat): (p: nat)
    ensures p >= 1
  {
    if k == 0 then 1 else 10 * Pow10(k - 1)
  }

  predicate IsDigit(c: char) {
    '0' <= c <= '9'
  }

  predicate AllDigits(s: string) {
    forall i :: 0 <= i < |s| ==> IsDigit(s[i])
  }

  function DigitChar(d: int): (c: char)
    requires 0 <= d <= 9
    ensures IsDigit(c) && c as int - '0' as int == d
  {
    ('0' as int + d) as char
  }

  /** The `width` low-order decimal digits of `n`, most significant first, zero-padded. */
  function Digits(n: nat, width: nat): (s: string)
    ensures |s| == width
    ensures AllDigits(s)
  {
    if width == 0 then "" else Digits(n / 10, width - 1) + [DigitChar(n % 10)]
  }

  /** The number a string of decimal digits denotes. */
  function Value(s: string): nat
    requires AllDigits(s)
  {
    if s == [] then 0 else 10 * Value(s[..|s| - 1]) + (s[|s| - 1] as int - '0' as int)
  }

  lemma {:induction false} ValueOfDigits(n: nat, width: nat)
    requires n < Pow10(width)
    ensures Value(Digits(n, width)) == n
  {
    if width > 0 {
      var s := Digits(n, width);
      assert s[..|s| - 1] == Digits(n / 10, width - 1);
      ValueOfDigits(n / 10, width - 1);
    }
  }

  /** `strftime("%Y-%m-%d %H:%M:%S")` of a clock reading. */
  function Format(t: DateTime): (s: string)
    ensures |s| == 19
  {
    Digits(t.year, 4) + "-" + Digits(t.month, 2) + "-" + Digits(t.day, 2) + " "
      + Digits(t.hour, 2) + ":" + Digits(t.minute, 2) + ":" + Digits(t.second, 2)
  }

  /** The shape "YYYY-MM-DD HH:MM:SS": digits everywhere but the five separators. */
  predicate InLayout(s: string) {
    && |s| == 19
    && AllDigits(s[0..4]) && s[4] == '-'
    && AllDigits(s[5..7]) && s[7] == '-'
    && AllDigits(s[8..10]) && s[10] == ' '
    && AllDigits(s[11..13]) && s[13] == ':'
    && AllDigits(s[14..16]) && s[16] == ':'
    && AllDigits(s[17..19])
  }

  /** The clock fields a string in the layout spells out. */
  function FieldsOf(s: string): RawDateTime
    requires InLayout(s)
  {
    RawDateTime(Value(s[0..4]), Value(s[5..7]), Value(s[8..10]),
                Value(s[11..13]), Value(s[14..16]), Value(s[17..19]))
  }

  /** Every formatted reading is in the layout, and its fields read back as the reading. */
  lemma FormatReadsBack(t: DateTime)
    ensures InLayout(Format(t))
    ensures FieldsOf(Format(t)) == t
  {
    var s := Format(t);
    assert s[0..4] == Digits(t.year, 4);
    assert s[5..7] == Digits(t.month, 2);
    assert s[8..10] == Digits(t.day, 2);
    assert s[11..13] == Digits(t.hour, 2);
    assert s[14..16] == Digits(t.minute, 2);
    assert s[17..19] == Digits(t.second, 2);
    ValueOfDigits(t.year, 4);
    ValueOfDigits(t.month, 2);
    ValueOfDigits(t.day, 2);
    ValueOfDigits(t.hour, 2);
    ValueOfDigits(t.minute, 2);
    ValueOfDigits(t.second, 2);
  }

  /** Distinct readings give distinct strings: the layout loses nothing below a second. */
  lemma FormatInjective(a: DateTime, b: DateTime)
    ensures Format(a) == Format(b) <==> a == b
  {
    FormatReadsBack(a);
    FormatReadsBack(b);
  }
}
