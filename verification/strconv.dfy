/** Go's `strconv.ParseInt(s, 10, 64)`, the only number parser the request
    handlers use, together with the canonical decimal rendering it inverts.

    The parser follows Go's algorithm rather than a set-theoretic description:
    an optional sign is stripped, the magnitude is accumulated left to right as
    an unsigned 64-bit value, and the first event decides the outcome — a
    character that is not a decimal digit is a syntax error, a digit that would
    overflow 64 unsigned bits is a range error (even when a bad character
    follows it), and a magnitude outside the signed 64-bit range is a range
    error. The reference description (`ValidLiteral`, `LiteralValue`) is stated
    separately and the two are proved to agree. */
module StrConv {
  import opened Wrappers

  const MinInt64: int := -0x8000_0000_0000_0000
  const MaxInt64: int := 0x7fff_ffff_ffff_ffff
  const MaxUint64: int := 0xffff_ffff_ffff_ffff

  /** Go's `int64`. */
  newtype int64 = x: int | MinInt64 <= x <= MaxInt64

  /** The two failure kinds of strconv: `ErrSyntax` and `ErrRange`. */
  datatype NumError = ErrSyntax | ErrRange

  predicate IsDigit(c: char) {
    '0' <= c <= '9'
  }

  function DigitValue(c: char): nat
    requires IsDigit(c)
  {
    c as int - '0' as int
  }

  predicate AllDigits(s: string) {
    forall i :: 0 <= i < |s| ==> IsDigit(s[i])
  }

  /** The number a string of decimal digits denotes, most significant first. */
  function DigitsValue(s: string): nat
    requires AllDigits(s)
  {
    if s == [] then 0 else DigitsValue(s[..|s| - 1]) * 10 + DigitValue(s[|s| - 1])
  }

  predicate HasSign(s: string) {
    |s| > 0 && (s[0] == '+' || s[0] == '-')
  }

  /** The literal with its optional sign removed. */
  function Magnitude(s: string): string {
    if HasSign(s) then s[1..] else s
  }

  /** Reference syntax: an optional `+` or `-` followed by one or more decimal digits. */
  predicate WellFormed(s: string) {
    |Magnitude(s)| > 0 && AllDigits(Magnitude(s))
  }

  /** Reference meaning of a well-formed literal, as an unbounded integer. */
  function LiteralValue(s: string): int
    requires WellFormed(s)
  {
    if s[0] == '-' then -(DigitsValue(Magnitude(s)) as int) else DigitsValue(Magnitude(s))
  }

  predicate InInt64(x: int) {
    MinInt64 <= x <= MaxInt64
  }

  /** A string `strconv.ParseInt(s, 10, 64)` is meant to accept. */
  predicate ValidLiteral(s: string) {
    WellFormed(s) && InInt64(LiteralValue(s))
  }

  /** Reading a longer run of digits never gives a smaller number. */
  lemma {:induction false} PrefixValueBound(s: string, i: nat)
    requires AllDigits(s) && i <= |s|
    ensures AllDigits(s[..i]) && DigitsValue(s[..i]) <= DigitsValue(s)
    decreases |s|
  {
    if i == |s| {
      assert s[..i] == s;
    } else {
      var init := s[..|s| - 1];
      PrefixValueBound(init, i);
      assert init[..i] == s[..i];
    }
  }

  /** The accumulation loop of `ParseUint(s, 10, 64)` from position `i`, where
      `acc` is the value of the digits already read. */
  function ScanUint(s: string, i: nat, acc: nat): (r: Result<nat, NumError>)
    requires i <= |s| && AllDigits(s[..i]) && acc == DigitsValue(s[..i]) && acc <= MaxUint64
    ensures r.Success? ==> AllDigits(s) && r.value == DigitsValue(s) && r.value <= MaxUint64
    ensures AllDigits(s) && DigitsValue(s) <= MaxUint64 ==> r.Success?
    ensures AllDigits(s) && DigitsValue(s) > MaxUint64 ==> r == Failure(ErrRange)
    decreases |s| - i
  {
    if i == |s| then
      assert s[..i] == s;
      Success(acc)
    else if !IsDigit(s[i]) then
      Failure(ErrSyntax)
    else
      var next := acc * 10 + DigitValue(s[i]);
      assert s[..i + 1][..i] == s[..i];
      assert AllDigits(s[..i + 1]) && DigitsValue(s[..i + 1]) == next;
      if next > MaxUint64 then
        if AllDigits(s) then
          PrefixValueBound(s, i + 1);
          Failure(ErrRange)
        else
          Failure(ErrRange)
      else
        ScanUint(s, i + 1, next)
  }

  /** `strconv.ParseUint(s, 10, 64)`. */
  function ParseUint(s: string): (r: Result<nat, NumError>)
    ensures r.Success? ==> |s| > 0 && AllDigits(s) && r.value == DigitsValue(s) && r.value <= MaxUint64
    ensures |s| > 0 && AllDigits(s) && DigitsValue(s) <= MaxUint64 ==> r.Success?
    ensures |s| > 0 && AllDigits(s) && DigitsValue(s) > MaxUint64 ==> r == Failure(ErrRange)
  {
    if s == [] then Failure(ErrSyntax) else ScanUint(s, 0, 0)
  }

  /** `strconv.ParseInt(s, 10, 64)`: it succeeds exactly on the valid literals,
      with their value, and a well-formed literal out of range is a range error. */
  function ParseInt(s: string): (r: Result<int64, NumError>)
    ensures r.Success? <==> ValidLiteral(s)
    ensures r.Success? ==> r.value as int == LiteralValue(s)
    ensures WellFormed(s) && !InInt64(LiteralValue(s)) ==> r == Failure(ErrRange)
    ensures |Magnitude(s)| == 0 ==> r == Failure(ErrSyntax)
  {
    if s == [] then Failure(ErrSyntax)
    else
      var neg := s[0] == '-';
      match ParseUint(Magnitude(s))
      case Failure(e) => Failure(e)
      case Success(un) =>
        // Go's cutoff is 1 << 63: one past MaxInt64, exactly -MinInt64.
        if !neg && un >= 0x8000_0000_0000_0000 then Failure(ErrRange)
        else if neg && un > 0x8000_0000_0000_0000 then Failure(ErrRange)
        else if neg then Success((-(un as int)) as int64)
        else Success(un as int64)
  }

  /** The scan meets an overflow before any bad character: once the digits
      read so far exceed 64 unsigned bits, the rest of the string is never
      looked at. */
  lemma {:induction false} ScanRangeFirst(s: string, i: nat, acc: nat, k: nat)
    requires i <= k <= |s| && AllDigits(s[..k]) && DigitsValue(s[..k]) > MaxUint64
    requires AllDigits(s[..i]) && acc == DigitsValue(s[..i]) && acc <= MaxUint64
    ensures ScanUint(s, i, acc) == Failure(ErrRange)
    decreases |s| - i
  {
    assert i < k;
    assert s[..k][..i + 1] == s[..i + 1];
    assert IsDigit(s[..k][i]);
    assert s[..i + 1][..i] == s[..i];
    var next := acc * 10 + DigitValue(s[i]);
    assert DigitsValue(s[..i + 1]) == next;
    if next <= MaxUint64 {
      ScanRangeFirst(s, i + 1, next, k);
    }
  }

  /** The scan meets a bad character before any overflow. */
  lemma {:induction false} ScanSyntaxFirst(s: string, i: nat, acc: nat, j: nat)
    requires i <= j < |s| && !IsDigit(s[j]) && AllDigits(s[..j]) && DigitsValue(s[..j]) <= MaxUint64
    requires AllDigits(s[..i]) && acc == DigitsValue(s[..i]) && acc <= MaxUint64
    ensures ScanUint(s, i, acc) == Failure(ErrSyntax)
    decreases |s| - i
  {
    if i < j {
      assert s[..j][..i + 1] == s[..i + 1];
      assert IsDigit(s[..j][i]);
      assert s[..i + 1][..i] == s[..i];
      var next := acc * 10 + DigitValue(s[i]);
      assert DigitsValue(s[..i + 1]) == next;
      PrefixValueBound(s[..j], i + 1);
      ScanSyntaxFirst(s, i + 1, next, j);
    }
  }

  /** Which error `ParseInt` reports depends on what comes first in the
      magnitude: digits whose value already exceeds 64 unsigned bits give a
      range error even when a bad character follows them. */
  lemma {:induction false} ParseIntRangeFirst(s: string, k: nat)
    requires k <= |Magnitude(s)| && AllDigits(Magnitude(s)[..k]) && DigitsValue(Magnitude(s)[..k]) > MaxUint64
    ensures ParseInt(s) == Failure(ErrRange)
  {
    assert Magnitude(s)[..0] == [];
    ScanRangeFirst(Magnitude(s), 0, 0, k);
  }

  /** ... and a bad character met while the digits before it still fit in 64
      unsigned bits gives a syntax error. */
  lemma {:induction false} ParseIntSyntaxFirst(s: string, j: nat)
    requires j < |Magnitude(s)| && !IsDigit(Magnitude(s)[j])
    requires AllDigits(Magnitude(s)[..j]) && DigitsValue(Magnitude(s)[..j]) <= MaxUint64
    ensures ParseInt(s) == Failure(ErrSyntax)
  {
    assert Magnitude(s)[..0] == [];
    ScanSyntaxFirst(Magnitude(s), 0, 0, j);
  }

  function DigitChar(d: nat): (c: char)
    requires d < 10
    ensures IsDigit(c) && DigitValue(c) == d
  {
    ('0' as int + d) as char
  }

  /** The shortest decimal digit string of `n`: no leading zero unless `n`
      is zero itself. */
  function Digits(n: nat): (s: string)
    ensures |s| > 0 && AllDigits(s) && DigitsValue(s) == n
    ensures n > 0 ==> s[0] != '0'
    ensures n == 0 ==> s == "0"
  {
    if n < 10 then [DigitChar(n)]
    else
      var s := Digits(n / 10) + [DigitChar(n % 10)];
      assert s[..|s| - 1] == Digits(n / 10);
      s
  }

  /** The canonical decimal rendering of `v`, as `strconv.FormatInt(v, 10)`
      writes it: a `-` exactly for negative values, never a `+`, and no
      leading zero. `ParseInt` inverts it on every int64. */
  function Canonical(v: int64): (s: string)
    ensures ValidLiteral(s) && LiteralValue(s) == v as int
    ensures ParseInt(s) == Success(v)
    ensures s[0] != '+' && (s[0] == '-' <==> v < 0)
    ensures |Magnitude(s)| > 1 ==> Magnitude(s)[0] != '0'
    ensures v == 0 ==> s == "0"
  {
    if v < 0 then
      var s := "-" + Digits(-(v as int));
      assert Magnitude(s) == Digits(-(v as int));
      s
    else
      var s := Digits(v as int);
      assert Magnitude(s) == s;
      s
  }
}
