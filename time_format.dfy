/** The wall-clock string the scheduler compares against medication times:
    `now.getHours().toString().padStart(2, '0')`, a colon, and the same for
    minutes (App.tsx:79). Also the `HH:mm` shape a medication time has. */
module TimeFormat {

  predicate IsDigit(c: char) { '0' <= c <= '9' }

  function DigitValue(c: char): int { c as int - '0' as int }

  function DigitChar(d: nat): (c: char)
    requires d < 10
    ensures IsDigit(c) && DigitValue(c) == d
  {
    ('0' as int + d) as char
  }

  /** `n.toString()` for a non-negative integer: its decimal digits,
      a single digit exactly when n is below ten. */
  function DecimalString(n: nat): (r: string)
    ensures 1 <= |r|
    ensures forall i :: 0 <= i < |r| ==> IsDigit(r[i])
    ensures |r| == 1 <==> n < 10
    decreases n
  {
    if n < 10 then [DigitChar(n)] else DecimalString(n / 10) + [DigitChar(n % 10)]
  }

  /** The number a string of decimal digits denotes: the reading back of
      `DecimalString`. */
  function DecimalValue(s: string): int
  {
    if s == [] then 0 else 10 * DecimalValue(s[..|s| - 1]) + DigitValue(s[|s| - 1])
  }

  /** `toString` loses nothing: reading the digits back gives the number, so
      two different numbers never print the same. */
  lemma {:induction false} DecimalRoundTrip(n: nat)
    ensures DecimalValue(DecimalString(n)) == n
  {
    if n >= 10 {
      DecimalRoundTrip(n / 10);
      var s := DecimalString(n);
      assert s[..|s| - 1] == DecimalString(n / 10);
    }
  }

  /** `s.padStart(2, '0')`: zeros in front up to length two, longer strings kept. */
  function PadStart2(s: string): (r: string)
    ensures |s| >= 2 ==> r == s
    ensures |s| < 2 ==> |r| == 2 && r[2 - |s|..] == s && forall i :: 0 <= i < 2 - |s| ==> r[i] == '0'
  {
    if |s| >= 2 then s else seq(2 - |s|, _ => '0') + s
  }

  /** The clock string for an hour and a minute: never shorter than `HH:mm`,
      and exactly five characters with the colon in the middle while both
      numbers have at most two digits. */
  function FormatHHmm(hours: nat, minutes: nat): (r: string)
    ensures |r| >= 5
    ensures hours < 100 && minutes < 100 ==> |r| == 5 && r[2] == ':'
  {
    PadStart2(DecimalString(hours)) + ":" + PadStart2(DecimalString(minutes))
  }

  function Hours(s: string): int
    requires |s| >= 2
  {
    10 * DigitValue(s[0]) + DigitValue(s[1])
  }

  function Minutes(s: string): int
    requires |s| >= 5
  {
    10 * DigitValue(s[3]) + DigitValue(s[4])
  }

  /** A 24-hour `HH:mm` string: two digits, a colon, two digits, an hour
      below 24 and a minute below 60. */
  predicate IsHHmm(s: string): (ok: bool)
    ensures ok ==> |s| == 5 && s[2] == ':' && 0 <= Hours(s) < 24 && 0 <= Minutes(s) < 60
  {
    |s| == 5 && IsDigit(s[0]) && IsDigit(s[1]) && s[2] == ':' && IsDigit(s[3]) && IsDigit(s[4])
    && Hours(s) < 24 && Minutes(s) < 60
  }

  /** A number below 100, padded, is two digits that spell it. */
  lemma TwoDigits(n: nat)
    requires n < 100
    ensures var r := PadStart2(DecimalString(n));
      |r| == 2 && IsDigit(r[0]) && IsDigit(r[1]) && 10 * DigitValue(r[0]) + DigitValue(r[1]) == n
  {
    if n < 10 {
      assert PadStart2(DecimalString(n)) == ['0', DigitChar(n)];
    } else {
      assert DecimalString(n / 10) == [DigitChar(n / 10)];
      assert DecimalString(n) == [DigitChar(n / 10), DigitChar(n % 10)];
    }
  }

  /** A two-digit number splits back into its tens and its units. */
  lemma SplitTwoDigits(d0: int, d1: int)
    requires 0 <= d0 < 10 && 0 <= d1 < 10
    ensures (10 * d0 + d1) / 10 == d0 && (10 * d0 + d1) % 10 == d1
  {
  }

  /** Two digits, padded back after reading them as a number, are the same two digits. */
  lemma TwoDigitsBack(c0: char, c1: char)
    requires IsDigit(c0) && IsDigit(c1)
    ensures PadStart2(DecimalString(10 * DigitValue(c0) + DigitValue(c1))) == [c0, c1]
  {
    var d0, d1 := DigitValue(c0), DigitValue(c1);
    var n := 10 * d0 + d1;
    SplitTwoDigits(d0, d1);
    assert DigitChar(d1) == c1;
    if n < 10 {
      assert d0 == 0 && c0 == '0';
      assert DecimalString(n) == [c1];
    } else {
      assert DigitChar(d0) == c0;
      assert DecimalString(n / 10) == [c0];
      assert DecimalString(n) == [c0, c1];
    }
  }

  /** Every clock reading gives a well-formed `HH:mm` string that reads back
      as that hour and minute. */
  lemma FormatHHmmIsHHmm(hours: nat, minutes: nat)
    requires hours < 24 && minutes < 60
    ensures var s := FormatHHmm(hours, minutes);
      |s| == 5 && s[2] == ':' && IsHHmm(s) && Hours(s) == hours && Minutes(s) == minutes
  {
    var hh, mm := PadStart2(DecimalString(hours)), PadStart2(DecimalString(minutes));
    TwoDigits(hours);
    TwoDigits(minutes);
    var s := FormatHHmm(hours, minutes);
    assert s == [hh[0], hh[1], ':', mm[0], mm[1]];
  }

  /** Every well-formed `HH:mm` string is the clock string of some minute of
      the day, so a medication at a valid time is reachable by a tick. */
  lemma HHmmIsFormatted(s: string)
    requires IsHHmm(s)
    ensures 0 <= Hours(s) < 24 && 0 <= Minutes(s) < 60
    ensures FormatHHmm(Hours(s), Minutes(s)) == s
  {
    TwoDigitsBack(s[0], s[1]);
    TwoDigitsBack(s[3], s[4]);
    assert s == [s[0], s[1]] + ":" + [s[3], s[4]];
  }

  /** Two clock readings give the same string exactly when they are the same
      minute of the day. */
  lemma SameStringIffSameMinute(h1: nat, m1: nat, h2: nat, m2: nat)
    requires h1 < 24 && m1 < 60 && h2 < 24 && m2 < 60
    ensures FormatHHmm(h1, m1) == FormatHHmm(h2, m2) <==> h1 == h2 && m1 == m2
  {
    FormatHHmmIsHHmm(h1, m1);
    FormatHHmmIsHHmm(h2, m2);
  }
}
