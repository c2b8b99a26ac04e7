/** Go's `strconv.ParseInt(s, 10, 64)` and, on a 64-bit platform, `strconv.Atoi(s)`:
    an optional `+` or `-`, then one or more decimal digits, within int64 range. */
module Decimal {
  import opened Wrappers
  import opened Domain
  import Boundary
  import Quoting

  const MaxUint64: int := 0xffff_ffff_ffff_ffff

  datatype NumError = InvalidSyntax | OutOfRange

  predicate AllDigits(s: string) {
    forall i :: 0 <= i < |s| ==> Boundary.IsDigit(s[i])
  }

  /** The value of a digit string, most significant digit first. */
  function DigitsValue(s: string): (n: nat)
    requires AllDigits(s)
    decreases |s|
  {
    if s == [] then 0 else DigitsValue(s[..|s| - 1]) * 10 + Boundary.DigitValue(s[|s| - 1])
  }

  /** `strconv.ParseUint`'s digit loop from accumulator n: a non-digit is a syntax error, and
      the first digit that would overflow 64 bits is a range error even if bad characters follow. */
  function ScanUint64(s: string, n: nat): Result<nat>
    requires n <= MaxUint64
    decreases |s|
  {
    if s == [] then Ok(n)
    else if !Boundary.IsDigit(s[0]) then Err("invalid syntax")
    else if n * 10 + Boundary.DigitValue(s[0]) > MaxUint64 then Err("value out of range")
    else ScanUint64(s[1..], n * 10 + Boundary.DigitValue(s[0]))
  }

  /** The magnitude after an optional sign character, and whether the sign was a minus. */
  function SplitSign(s: string): (bool, string) {
    if s != [] && (s[0] == '-' || s[0] == '+') then (s[0] == '-', s[1..]) else (false, s)
  }

  /** `strconv.ParseInt(s, 10, 64)`; the error is the reason text of Go's `*NumError`. */
  function ParseInt64(s: string): Result<Int64> {
    if s == [] then Err("invalid syntax")
    else
      var (neg, digits) := SplitSign(s);
      if digits == [] then Err("invalid syntax")
      else match ScanUint64(digits, 0)
        case Err(e) => Err(e)
        case Ok(u) =>
          if !neg && u > MaxInt64 then Err("value out of range")
          else if neg && u > -MinInt64 then Err("value out of range")
          else Ok(if neg then -(u as int) else u)
  }

  /** Go's `strconv.Atoi` with a 64-bit `int`: the same grammar and range as `ParseInt64`,
      with the message Go prints, which quotes the input as `strconv.Quote` does. */
  function Atoi(s: string): Result<Int64> {
    match ParseInt64(s)
    case Ok(v) => Ok(v)
    case Err(e) => Err("strconv.Atoi: parsing " + Quoting.Quote(s) + ": " + e)
  }

  /** What the text of an accepted number looks like. */
  predicate DecimalShaped(s: string) {
    var (neg, digits) := SplitSign(s);
    digits != [] && AllDigits(digits)
  }

  function SignedValue(s: string): int
    requires DecimalShaped(s)
  {
    var (neg, digits) := SplitSign(s);
    if neg then -(DigitsValue(digits) as int) else DigitsValue(digits)
  }

  lemma {:induction false} DigitsValueSnoc(s: string, c: char)
    requires AllDigits(s) && Boundary.IsDigit(c)
    ensures AllDigits(s + [c]) && DigitsValue(s + [c]) == DigitsValue(s) * 10 + Boundary.DigitValue(c)
  {
    assert (s + [c])[..|s|] == s;
  }

  /** The scan of an all-digit string from accumulator n is n followed by those digits,
      unless that exceeds 64 bits; a non-digit is a syntax error unless an overflow comes first. */
  lemma {:induction false} ScanUint64Value(s: string, n: nat, pre: string)
    requires n <= MaxUint64 && AllDigits(pre) && DigitsValue(pre) == n
    ensures AllDigits(s) && DigitsValue(pre + s) <= MaxUint64 ==> ScanUint64(s, n) == Ok(DigitsValue(pre + s))
    ensures AllDigits(s) && DigitsValue(pre + s) > MaxUint64 ==> ScanUint64(s, n) == Err("value out of range")
    ensures !AllDigits(s) ==> ScanUint64(s, n).Err?
    decreases |s|
  {
    if s == [] {
      assert pre + s == pre;
    } else if Boundary.IsDigit(s[0]) {
      var n' := n * 10 + Boundary.DigitValue(s[0]);
      DigitsValueSnoc(pre, s[0]);
      assert pre + s == (pre + [s[0]]) + s[1..];
      if AllDigits(s) {
        assert AllDigits(s[1..]);
        DigitsValueMonotone(pre + [s[0]], s[1..]);
      }
      if n' <= MaxUint64 {
        ScanUint64Value(s[1..], n', pre + [s[0]]);
      }
    }
  }

  /** Appending digits never makes the value smaller. */
  lemma {:induction false} DigitsValueMonotone(pre: string, s: string)
    requires AllDigits(pre) && AllDigits(s)
    ensures AllDigits(pre + s) && DigitsValue(pre + s) >= DigitsValue(pre)
    decreases |s|
  {
    if s == [] {
      assert pre + s == pre;
    } else {
      var init := s[..|s| - 1];
      assert pre + s == (pre + init) + [s[|s| - 1]];
      DigitsValueMonotone(pre, init);
      DigitsValueSnoc(pre + init, s[|s| - 1]);
    }
  }

  /** `ParseInt64` accepts exactly an optional sign and digits whose value fits in int64,
      and then returns that value. */
  lemma ParseInt64Spec(s: string)
    ensures ParseInt64(s).Ok? <==> DecimalShaped(s) && MinInt64 <= SignedValue(s) <= MaxInt64
    ensures ParseInt64(s).Ok? ==> ParseInt64(s).value == SignedValue(s)
  {
    var (neg, digits) := SplitSign(s);
    if s != [] && digits != [] {
      assert [] + digits == digits;
      ScanUint64Value(digits, 0, []);
    }
  }

  /** Unsigned digit text within range parses to its value. */
  lemma AtoiOfDigits(s: string)
    requires s != [] && AllDigits(s) && DigitsValue(s) <= MaxInt64
    ensures ParseInt64(s) == Ok(DigitsValue(s)) && Atoi(s) == Ok(DigitsValue(s))
  {
    assert SplitSign(s) == (false, s);
    ParseInt64Spec(s);
  }

  /** The decimal text of a non-negative number, without leading zeros. */
  function ToDigits(n: nat): (s: string)
    ensures s != [] && AllDigits(s)
    decreases n
  {
    if n < 10 then [Boundary.DigitChar(n)] else ToDigits(n / 10) + [Boundary.DigitChar(n % 10)]
  }

  /** `strconv.FormatInt(v, 10)`. */
  function FormatInt64(v: Int64): string {
    if v < 0 then "-" + ToDigits(-(v as int)) else ToDigits(v)
  }

  lemma {:induction false} DigitsValueOfToDigits(n: nat)
    ensures DigitsValue(ToDigits(n)) == n
    decreases n
  {
    if n >= 10 {
      DigitsValueOfToDigits(n / 10);
      DigitsValueSnoc(ToDigits(n / 10), Boundary.DigitChar(n % 10));
    }
  }

  /** Every int64 survives formatting and parsing back. */
  lemma ParseFormatInt64(v: Int64)
    ensures ParseInt64(FormatInt64(v)) == Ok(v)
    ensures Atoi(FormatInt64(v)) == Ok(v)
  {
    var s := FormatInt64(v);
    if v < 0 {
      DigitsValueOfToDigits(-(v as int));
      assert SplitSign(s) == (true, ToDigits(-(v as int)));
    } else {
      DigitsValueOfToDigits(v);
      var d := ToDigits(v);
      assert d[0] != '-' && d[0] != '+';
      assert SplitSign(s) == (false, d);
    }
    ParseInt64Spec(s);
  }
}
