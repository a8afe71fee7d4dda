/** Go's strconv.ParseInt(s, 10, 0) on a 64-bit platform, which the
    synchroniser uses to read the values of -back and -forward: an optional
    sign, then decimal digits scanned left to right, stopping at the first
    character that is not a digit (a syntax error) or at the first digit that
    overflows 64 bits (a range error), then the signed 64-bit range check. */
module StrConv {
  import opened Common

  datatype NumErrorKind = ErrSyntax | ErrRange

  /** The error value: the whole input string and what went wrong. */
  datatype NumError = NumError(num: string, kind: NumErrorKind)

  const MaxUint64: nat := 0xFFFF_FFFF_FFFF_FFFF
  /** 1 << 63: the magnitude bound of a signed 64-bit integer. */
  const SignCutoff: nat := 0x8000_0000_0000_0000
  /** The smallest n such that n * 10 overflows 64 bits. */
  const DecimalCutoff: nat := MaxUint64 / 10 + 1

  predicate IsDigit(c: char)
  {
    '0' <= c <= '9'
  }

  function DigitValue(c: char): nat
    requires IsDigit(c)
  {
    c as int - '0' as int
  }

  function DigitChar(d: nat): char
    requires d < 10
  {
    ('0' as int + d) as char
  }

  /** The loop of ParseUint: n is the value scanned so far. */
  function ScanDecimal(s: string, n: nat): Result<nat, NumErrorKind>
    decreases |s|
  {
    if s == [] then Success(n)
    else if !IsDigit(s[0]) then Failure(ErrSyntax)
    else if n >= DecimalCutoff then Failure(ErrRange)
    else
      var n1 := n * 10 + DigitValue(s[0]);
      if n1 > MaxUint64 then Failure(ErrRange) else ScanDecimal(s[1..], n1)
  }

  function ParseUint(s: string): Result<nat, NumErrorKind>
  {
    if s == [] then Failure(ErrSyntax) else ScanDecimal(s, 0)
  }

  function ParseInt(s: string): Result<int, NumError>
  {
    if s == [] then Failure(NumError(s, ErrSyntax))
    else
      var neg := s[0] == '-';
      var magnitude := if s[0] == '+' || s[0] == '-' then s[1..] else s;
      match ParseUint(magnitude)
      case Failure(kind) => Failure(NumError(s, kind))
      case Success(un) =>
        if !neg && un >= SignCutoff then Failure(NumError(s, ErrRange))
        else if neg && un > SignCutoff then Failure(NumError(s, ErrRange))
        else Success(if neg then -(un as int) else un as int)
  }

  /** The decimal spelling of n without sign or leading zeros. */
  function DecimalString(n: nat): (r: string)
    ensures |r| > 0 && forall i :: 0 <= i < |r| ==> IsDigit(r[i])
  {
    if n < 10 then [DigitChar(n)] else DecimalString(n / 10) + [DigitChar(n % 10)]
  }

  /** The value of a digit string read left to right, starting from acc. */
  function FoldDigits(s: string, acc: nat): nat
    requires forall i :: 0 <= i < |s| ==> IsDigit(s[i])
    decreases |s|
  {
    if s == [] then acc else FoldDigits(s[1..], acc * 10 + DigitValue(s[0]))
  }

  lemma {:induction false} FoldDigitsGrows(s: string, acc: nat)
    requires forall i :: 0 <= i < |s| ==> IsDigit(s[i])
    ensures FoldDigits(s, acc) >= acc
    decreases |s|
  {
    if s != [] {
      FoldDigitsGrows(s[1..], acc * 10 + DigitValue(s[0]));
    }
  }

  lemma {:induction false} FoldDigitsSnoc(s: string, c: char, acc: nat)
    requires forall i :: 0 <= i < |s| ==> IsDigit(s[i])
    requires IsDigit(c)
    ensures FoldDigits(s + [c], acc) == FoldDigits(s, acc) * 10 + DigitValue(c)
    decreases |s|
  {
    if s == [] {
      assert s + [c] == [c];
      assert [c][1..] == [];
    } else {
      assert (s + [c])[0] == s[0];
      assert (s + [c])[1..] == s[1..] + [c];
      FoldDigitsSnoc(s[1..], c, acc * 10 + DigitValue(s[0]));
    }
  }

  lemma {:induction false} DecimalStringValue(n: nat)
    ensures FoldDigits(DecimalString(n), 0) == n
  {
    if n >= 10 {
      DecimalStringValue(n / 10);
      FoldDigitsSnoc(DecimalString(n / 10), DigitChar(n % 10), 0);
    }
  }

  /** Scanning a digit string whose value fits in 64 bits never fails. */
  lemma {:induction false} ScanDigits(s: string, acc: nat)
    requires forall i :: 0 <= i < |s| ==> IsDigit(s[i])
    requires FoldDigits(s, acc) <= MaxUint64
    ensures ScanDecimal(s, acc) == Success(FoldDigits(s, acc))
    decreases |s|
  {
    if s != [] {
      var next := acc * 10 + DigitValue(s[0]);
      FoldDigitsGrows(s[1..], next);
      ScanDigits(s[1..], next);
    }
  }

  /** Round trip: ParseInt reads back every signed 64-bit value written in
      decimal, with a leading '-' for the negative ones. */
  lemma ParseIntDecimal(n: int)
    requires -(SignCutoff as int) <= n < SignCutoff
    ensures n >= 0 ==> ParseInt(DecimalString(n)) == Success(n)
    ensures n < 0 ==> ParseInt("-" + DecimalString(-n)) == Success(n)
  {
    var m: nat := if n >= 0 then n else -n;
    var digits := DecimalString(m);
    DecimalStringValue(m);
    ScanDigits(digits, 0);
    if n < 0 {
      assert ("-" + digits)[1..] == digits;
    }
  }

  /** A decimal number of 2^63 or more, without a sign, is a range error
      rather than a wrapped value. */
  lemma ParseIntOutOfRange(n: nat)
    requires SignCutoff <= n <= MaxUint64
    ensures ParseInt(DecimalString(n)) == Failure(NumError(DecimalString(n), ErrRange))
  {
    DecimalStringValue(n);
    ScanDigits(DecimalString(n), 0);
  }
}
