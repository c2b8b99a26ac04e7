/** Classification of a window-boundary token, shared by the command line
    (`parseStart`/`parseEnd`) and the HTTP trigger (`parseStartHTTP`/`parseEndHTTP`).

    A token is empty, an RFC 3339 timestamp, a `YYYY-MM-DD` date, or none of these.
    RFC 3339 parsing (section 5.6 of RFC 3339) is not modelled: it is the
    parameter `rfc3339`, a partial function from text to an instant. */
module Boundary {
  import opened Wrappers
  import opened Civil

  predicate IsDigit(c: char) {
    '0' <= c <= '9'
  }

  function DigitValue(c: char): (n: int)
    requires IsDigit(c)
    ensures 0 <= n <= 9
  {
    c as int - '0' as int
  }

  function DigitChar(n: int): (c: char)
    requires 0 <= n <= 9
    ensures IsDigit(c) && DigitValue(c) == n
  {
    ('0' as int + n) as char
  }

  /** The character layout of Go's reference layout "2006-01-02". */
  predicate DateShaped(s: string) {
    |s| == 10 && s[4] == '-' && s[7] == '-'
    && IsDigit(s[0]) && IsDigit(s[1]) && IsDigit(s[2]) && IsDigit(s[3])
    && IsDigit(s[5]) && IsDigit(s[6]) && IsDigit(s[8]) && IsDigit(s[9])
  }

  /** The year, month and day fields of a date-shaped string, before range checks. */
  function DateFields(s: string): Date
    requires DateShaped(s)
  {
    Date(
      1000 * DigitValue(s[0]) + 100 * DigitValue(s[1]) + 10 * DigitValue(s[2]) + DigitValue(s[3]),
      10 * DigitValue(s[5]) + DigitValue(s[6]),
      10 * DigitValue(s[8]) + DigitValue(s[9]))
  }

  /** `time.Parse("2006-01-02", s)`: four-digit year, two-digit month in 1..12,
      two-digit day within the month's length, nothing before or after. */
  function ParseDate(s: string): (r: Option<Date>)
    ensures r.Some? <==> DateShaped(s) && ValidDate(DateFields(s))
    ensures r.Some? ==> ValidDate(r.value) && r.value == DateFields(s)
  {
    if DateShaped(s) && ValidDate(DateFields(s)) then Some(DateFields(s)) else None
  }

  /** The `YYYY-MM-DD` text of a date whose year has four digits. */
  function FormatDate(d: Date): (s: string)
    requires 0 <= d.year <= 9999 && 1 <= d.month <= 12 && 1 <= d.day <= 31
    ensures |s| == 10
  {
    [DigitChar(d.year / 1000), DigitChar(d.year / 100 % 10), DigitChar(d.year / 10 % 10), DigitChar(d.year % 10),
     '-', DigitChar(d.month / 10), DigitChar(d.month % 10),
     '-', DigitChar(d.day / 10), DigitChar(d.day % 10)]
  }

  lemma FourDigits(y: int)
    requires 0 <= y <= 9999
    ensures y == 1000 * (y / 1000) + 100 * (y / 100 % 10) + 10 * (y / 10 % 10) + y % 10
    ensures 0 <= y / 1000 <= 9
  {
    var a := y / 10;
    var b := a / 10;
    assert y == 10 * a + y % 10;
    assert a == 10 * b + a % 10;
    assert b == 10 * (b / 10) + b % 10;
    assert y / 100 == b;
    assert y / 1000 == b / 10;
  }

  lemma DigitsOfFour(a: int, b: int, c: int, e: int)
    requires 0 <= a <= 9 && 0 <= b <= 9 && 0 <= c <= 9 && 0 <= e <= 9
    ensures var y := 1000 * a + 100 * b + 10 * c + e;
      y / 1000 == a && y / 100 % 10 == b && y / 10 % 10 == c && y % 10 == e
  {
    var y := 1000 * a + 100 * b + 10 * c + e;
    assert y / 10 == 100 * a + 10 * b + c;
    assert y / 100 == 10 * a + b;
  }

  lemma DigitsOfTwo(a: int, b: int)
    requires 0 <= a <= 9 && 0 <= b <= 9
    ensures (10 * a + b) / 10 == a && (10 * a + b) % 10 == b
  {
  }

  /** Every valid date with a four-digit year is parsed back from its text. */
  lemma ParseFormatDate(d: Date)
    requires 0 <= d.year <= 9999 && ValidDate(d)
    ensures ParseDate(FormatDate(d)) == Some(d)
  {
    var s := FormatDate(d);
    FourDigits(d.year);
    assert DateShaped(s);
    assert DateFields(s) == d;
  }

  /** Every accepted date token is the canonical text of the date it denotes. */
  lemma FormatParseDate(s: string)
    requires ParseDate(s).Some?
    ensures FormatDate(ParseDate(s).value) == s
  {
    var d := ParseDate(s).value;
    DigitsOfFour(DigitValue(s[0]), DigitValue(s[1]), DigitValue(s[2]), DigitValue(s[3]));
    DigitsOfTwo(DigitValue(s[5]), DigitValue(s[6]));
    DigitsOfTwo(DigitValue(s[8]), DigitValue(s[9]));
    var t := FormatDate(d);
    assert t[0] == s[0] && t[1] == s[1] && t[2] == s[2] && t[3] == s[3];
    assert t[5] == s[5] && t[6] == s[6] && t[8] == s[8] && t[9] == s[9];
  }

  /** A window-boundary token, classified in the order both parsers try the forms. */
  datatype Token = Empty | Timestamp(t: Instant) | DateOnly(d: Date) | Malformed

  /** Empty first, then RFC 3339, then the date-only layout. */
  function Classify(val: string, rfc3339: string -> Option<Instant>): (tok: Token)
    ensures tok.Empty? <==> val == ""
    ensures tok.Timestamp? <==> val != "" && rfc3339(val).Some?
    ensures tok.Timestamp? ==> tok.t == rfc3339(val).value
    ensures tok.DateOnly? <==> val != "" && rfc3339(val).None? && ParseDate(val).Some?
    ensures tok.DateOnly? ==> tok.d == ParseDate(val).value && ValidDate(tok.d)
  {
    if val == "" then Empty
    else match rfc3339(val)
      case Some(t) => Timestamp(t)
      case None =>
        match ParseDate(val)
        case Some(d) => DateOnly(d)
        case None => Malformed
  }

  /** A date as an end boundary: the date's midnight plus 24h, truncated to its UTC midnight. */
  function DateEnd(d: Date): Instant
    requires ValidDate(d)
  {
    UtcMidnightOf(StartOfDate(d) + Day)
  }

  /** A date-only start is that date's 00:00 UTC. */
  lemma DateStartIsMidnight(d: Date)
    requires ValidDate(d)
    ensures IsUtcMidnight(StartOfDate(d))
    ensures StartOfDate(d) == DaysFromCivil(d) * Day
  {
    StartOfNextDate(d);
  }

  /** A date-only end is 00:00 UTC of the following calendar date: the end is date-inclusive. */
  lemma {:induction false} DateEndIsNextMidnight(d: Date)
    requires ValidDate(d)
    ensures DateEnd(d) == StartOfDate(NextDate(d))
    ensures DateEnd(d) == StartOfDate(d) + Day
  {
    StartOfNextDate(d);
    DayMultiple(DaysFromCivil(NextDate(d)));
  }

  /** Whatever `time.Parse(time.RFC3339, ...)` accepts has a time of day after the date, so it
      is longer than a bare `YYYY-MM-DD`. */
  ghost predicate Rfc3339Shaped(rfc3339: string -> Option<Instant>) {
    forall s :: rfc3339(s).Some? ==> |s| > 10
  }

  /** Under such a parser, a date-only token is never mistaken for a timestamp. */
  lemma DateTokenIsDateOnly(val: string, rfc3339: string -> Option<Instant>)
    requires Rfc3339Shaped(rfc3339)
    requires ParseDate(val).Some?
    ensures Classify(val, rfc3339) == DateOnly(ParseDate(val).value)
  {
    assert |val| == 10;
  }
}
