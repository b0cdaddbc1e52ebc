/**
  Decimal integers as Go's `strconv` and `fmt` see them: `%d` formatting and
  `strconv.ParseInt(s, 10, 64)` (which `strconv.Atoi` agrees with on 64-bit
  platforms), including the int64 range check and the order in which Go
  reports a range error versus a syntax error.
 */
module Strconv {
  import opened Wrappers

  const MaxInt64: int := 0x7FFF_FFFF_FFFF_FFFF
  const MinInt64: int := -0x8000_0000_0000_0000
  const MaxUint64: int := 0xFFFF_FFFF_FFFF_FFFF

  predicate IsInt64(v: int) {
    MinInt64 <= v <= MaxInt64
  }

  /** Go's `int` arithmetic on a 64-bit platform: the exact result wrapped into the int64 range. */
  function Wrap64(x: int): (r: int)
    ensures IsInt64(r)
    ensures (r - x) % 0x1_0000_0000_0000_0000 == 0
    ensures IsInt64(x) ==> r == x
    ensures MaxInt64 < x <= 2 * MaxInt64 + 1 ==> r == x - 0x1_0000_0000_0000_0000
  {
    (x - MinInt64) % 0x1_0000_0000_0000_0000 + MinInt64
  }

  /** The two causes `strconv.NumError` can carry. */
  datatype NumError = ErrSyntax | ErrRange

  predicate IsDigit(c: char) {
    '0' <= c <= '9'
  }

  predicate IsDigits(s: string) {
    forall k :: 0 <= k < |s| ==> IsDigit(s[k])
  }

  predicate IsSign(c: char) {
    c == '+' || c == '-'
  }

  function DigitChar(n: nat): (c: char)
    requires n < 10
    ensures IsDigit(c)
  {
    ('0' as int + n) as char
  }

  function DigitValue(c: char): nat
    requires IsDigit(c)
  {
    c as int - '0' as int
  }

  /** The value of a run of decimal digits, most significant first (Horner). */
  function ValueOf(s: string): nat
    requires IsDigits(s)
  {
    if s == [] then 0 else 10 * ValueOf(s[..|s| - 1]) + DigitValue(s[|s| - 1])
  }

  /** The canonical decimal digits of `n` (see DigitsSpec). */
  function Digits(n: nat): (r: string)
    ensures |r| > 0
    decreases n
  {
    if n < 10 then [DigitChar(n)] else Digits(n / 10) + [DigitChar(n % 10)]
  }

  /** Digits writes decimal digits denoting `n`, with no leading zero except for zero itself. */
  lemma {:induction false} DigitsSpec(n: nat)
    ensures IsDigits(Digits(n)) && ValueOf(Digits(n)) == n
    ensures Digits(n)[0] == '0' ==> Digits(n) == "0"
    decreases n
  {
    if n >= 10 {
      DigitsSpec(n / 10);
      var prefix := Digits(n / 10);
      var r := Digits(n);
      assert r == prefix + [DigitChar(n % 10)];
      assert r[..|r| - 1] == prefix;
      assert r[0] == prefix[0];
    }
  }

  /** `fmt`'s `%d`: a minus sign for negative values, then the canonical digits. */
  function FormatInt(v: int): string {
    if v < 0 then "-" + Digits(-v) else Digits(v)
  }

  /** The first `n` characters of `s` are decimal digits. */
  predicate DigitPrefix(s: string, n: nat) {
    n <= |s| && IsDigits(s[..n])
  }

  /** Length of the longest prefix of `s` made of decimal digits. */
  function DigitRun(s: string): (r: nat)
    ensures r <= |s|
    ensures DigitPrefix(s, r)
    ensures r < |s| ==> !IsDigit(s[r])
  {
    if s == [] || !IsDigit(s[0]) then 0
    else
      var n := DigitRun(s[1..]);
      assert s[..n + 1] == [s[0]] + s[1..][..n];
      n + 1
  }

  /** Optional leading sign followed by at least one decimal digit. */
  predicate IsSignedDigits(s: string) {
    && |s| > 0
    && (IsDigit(s[0]) || (IsSign(s[0]) && |s| > 1))
    && IsDigits(s[1..])
  }

  function Unsigned(s: string): string
    requires |s| > 0
  {
    if IsSign(s[0]) then s[1..] else s
  }

  lemma UnsignedIsDigits(s: string)
    requires IsSignedDigits(s)
    ensures |Unsigned(s)| > 0 && IsDigits(Unsigned(s))
  {
    if !IsSign(s[0]) {
      assert forall k :: 1 <= k < |s| ==> s[k] == s[1..][k - 1];
    }
  }

  /** The mathematical value a signed digit string denotes. */
  function SignedValue(s: string): int
    requires IsSignedDigits(s)
  {
    UnsignedIsDigits(s);
    var u := Unsigned(s);
    if s[0] == '-' then -(ValueOf(u) as int) else ValueOf(u)
  }

  /**
    `strconv.ParseInt(s, 10, 64)`. Go scans the unsigned part digit by digit:
    once the running value exceeds the uint64 range it reports a range error,
    and the first non-digit gives a syntax error, whichever comes first; a
    well-formed number outside the int64 range is again a range error.
    ParseIntSpec states what it accepts.
   */
  function ParseInt(s: string): Result<int, NumError> {
    if s == [] then Err(ErrSyntax)
    else
      var body := Unsigned(s);
      var p := DigitRun(body);
      if ValueOf(body[..p]) > MaxUint64 then Err(ErrRange)
      else if p == 0 || p < |body| then Err(ErrSyntax)
      else
        var v: int := if s[0] == '-' then -(ValueOf(body) as int) else ValueOf(body);
        if IsInt64(v) then Ok(v) else Err(ErrRange)
  }

  /**
    ParseInt succeeds exactly on an optional sign followed by at least one
    digit whose value lies in the int64 range, and then yields that value.
   */
  lemma ParseIntSpec(s: string)
    ensures ParseInt(s).Ok? <==> IsSignedDigits(s) && IsInt64(SignedValue(s))
    ensures ParseInt(s).Ok? ==> ParseInt(s).value == SignedValue(s)
  {
    if s != [] {
      var body := Unsigned(s);
      var p := DigitRun(body);
      if IsSignedDigits(s) {
        UnsignedIsDigits(s);
        assert p == |body| && body[..p] == body;
      }
      if p > 0 && p == |body| {
        assert body[..p] == body;
        if IsSign(s[0]) {
          assert s[1..] == body;
        } else {
          assert forall k :: 1 <= k < |s| ==> s[1..][k - 1] == body[k];
        }
        assert IsSignedDigits(s);
      }
    }
  }

  /** A string of `n` zero digits (none when `n` is not positive). */
  function Zeros(n: int): (r: string)
    ensures |r| == if n > 0 then n else 0
    decreases n
  {
    if n <= 0 then [] else Zeros(n - 1) + "0"
  }

  /** Zeros holds nothing but '0' digits, and so denotes zero. */
  lemma {:induction false} ZerosSpec(n: int)
    ensures forall k :: 0 <= k < |Zeros(n)| ==> Zeros(n)[k] == '0'
    ensures IsDigits(Zeros(n)) && ValueOf(Zeros(n)) == 0
    decreases n
  {
    if n > 0 {
      ZerosSpec(n - 1);
      var r := Zeros(n);
      assert r == Zeros(n - 1) + "0";
      assert r[..|r| - 1] == Zeros(n - 1);
    }
  }

  /** Prefixing zeros does not change the value of a digit string. */
  lemma {:induction false} ValueOfZerosPrefix(n: int, ds: string)
    requires IsDigits(ds)
    ensures IsDigits(Zeros(n) + ds)
    ensures ValueOf(Zeros(n) + ds) == ValueOf(ds)
    decreases |ds|
  {
    var z := Zeros(n);
    ZerosSpec(n);
    var s := z + ds;
    assert IsDigits(s) by {
      forall k | 0 <= k < |s| ensures IsDigit(s[k]) {
        if k < |z| { assert s[k] == z[k]; } else { assert s[k] == ds[k - |z|]; }
      }
    }
    if ds == [] {
      assert s == z;
    } else {
      var init := ds[..|ds| - 1];
      assert s[..|s| - 1] == z + init;
      assert s[|s| - 1] == ds[|ds| - 1];
      ValueOfZerosPrefix(n, init);
    }
  }

  /** Zeros followed by the digits of `m` form a signed digit string denoting `m`. */
  lemma ZeroPaddedNatForm(m: nat, n: int)
    ensures IsSignedDigits(Zeros(n) + Digits(m)) && SignedValue(Zeros(n) + Digits(m)) == m
  {
    var ds := Zeros(n) + Digits(m);
    DigitsSpec(m);
    ValueOfZerosPrefix(n, Digits(m));
    assert IsDigits(ds[1..]);
    assert Unsigned(ds) == ds;
  }

  /** Zeros followed by the digits of `m` parse back to `m`. */
  lemma ParseZeroPaddedNat(m: nat, n: int)
    requires m <= MaxInt64
    ensures ParseInt(Zeros(n) + Digits(m)) == Ok(m)
  {
    ZeroPaddedNatForm(m, n);
    ParseIntSpec(Zeros(n) + Digits(m));
  }

  /** A minus sign, zeros and the digits of `m` form a signed digit string denoting `-m`. */
  lemma ZeroPaddedNegForm(m: nat, n: int)
    requires 0 < m
    ensures IsSignedDigits("-" + Zeros(n) + Digits(m)) && SignedValue("-" + Zeros(n) + Digits(m)) == -(m as int)
  {
    var ds := Zeros(n) + Digits(m);
    DigitsSpec(m);
    ValueOfZerosPrefix(n, Digits(m));
    var s := "-" + ds;
    assert s == "-" + Zeros(n) + Digits(m);
    assert s[1..] == ds;
    assert Unsigned(s) == ds;
  }

  /** A minus sign, zeros and the digits of `m` parse back to `-m`. */
  lemma ParseZeroPaddedNeg(m: nat, n: int)
    requires 0 < m <= -MinInt64
    ensures ParseInt("-" + Zeros(n) + Digits(m)) == Ok(-(m as int))
  {
    ZeroPaddedNegForm(m, n);
    ParseIntSpec("-" + Zeros(n) + Digits(m));
  }

  /**
    A zero-padded integer as `fmt`'s `%0<w>d` writes it (sign, zeros, digits)
    parses back to the same integer: leading zeros are harmless to ParseInt.
   */
  lemma ParseZeroPadded(v: int, n: int)
    requires IsInt64(v)
    ensures v >= 0 ==> ParseInt(Zeros(n) + Digits(v)) == Ok(v)
    ensures v < 0 ==> ParseInt("-" + Zeros(n) + Digits(-v)) == Ok(v)
  {
    if v >= 0 { ParseZeroPaddedNat(v, n); } else { ParseZeroPaddedNeg(-v, n); }
  }

  /** `%d` output parses back to the value printed: ParseInt inverts FormatInt on int64. */
  lemma ParseFormatInt(v: int)
    requires IsInt64(v)
    ensures ParseInt(FormatInt(v)) == Ok(v)
  {
    ParseZeroPadded(v, 0);
    assert Zeros(0) == [];
    if v >= 0 {
      assert Zeros(0) + Digits(v) == Digits(v);
    } else {
      assert "-" + Zeros(0) + Digits(-v) == "-" + Digits(-v);
    }
  }

  /**
    Digits up to position `p` and then a non-digit: ParseInt stops at the
    non-digit with a syntax error, as long as the digits before it stay in
    the uint64 range.
   */
  lemma ParseIntStopsAtNonDigit(s: string, p: nat)
    requires 0 < p < |s| && IsDigits(s[..p]) && !IsDigit(s[p]) && ValueOf(s[..p]) <= MaxUint64
    ensures ParseInt(s) == Err(ErrSyntax)
  {
    assert IsDigit(s[..p][0]);
    assert Unsigned(s) == s;
    assert DigitRun(s) == p;
  }
}
