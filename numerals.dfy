/**
 The two numeral conversions the CGI decoders rely on: reading a run of
 hexadecimal digits as a natural number (`int(s, 16)`), and writing a natural
 number in decimal, left-padded with zeros to a minimum width (`f'{n:0Wd}'`).
 Each conversion comes with its inverse and a round-trip lemma.
 */
module Numerals {

  datatype Option<T> = None | Some(value: T)

  function Max(a: int, b: int): int { if a < b then b else a }

  function Pow(base: nat, exp: nat): (r: nat)
    ensures base >= 1 ==> r >= 1
  {
    if exp == 0 then 1 else base * Pow(base, exp - 1)
  }

  // ---------------------------------------------------------------------------
  // Hexadecimal
  // ---------------------------------------------------------------------------

  /** The characters accepted as base-16 digits: 0-9, a-f and A-F. */
  predicate IsHexDigit(c: char) {
    ('0' <= c <= '9') || ('a' <= c <= 'f') || ('A' <= c <= 'F')
  }

  function HexDigitValue(c: char): (v: nat)
    requires IsHexDigit(c)
    ensures v < 16
    ensures ('0' <= c <= '9') <==> v < 10
  {
    if '0' <= c <= '9' then c as int - '0' as int
    else if 'a' <= c <= 'f' then c as int - 'a' as int + 10
    else c as int - 'A' as int + 10
  }

  /** A non-empty run of hexadecimal digits: what the decoders can convert. */
  predicate IsHexString(s: string) {
    |s| > 0 && forall i :: 0 <= i < |s| ==> IsHexDigit(s[i])
  }

  /**
   Base-16 conversion of a string, most significant digit first. The empty
   string and any string holding a non-hex character have no value (`None`),
   where the source's conversion raises an error.
   */
  function ParseHex(s: string): (r: Option<nat>)
    ensures r.Some? <==> IsHexString(s)
    ensures r.Some? ==> r.value < Pow(16, |s|)
    decreases |s|
  {
    if |s| == 0 then None
    else
      var last := s[|s| - 1];
      if !IsHexDigit(last) then None
      else if |s| == 1 then Some(HexDigitValue(last))
      else
        match ParseHex(s[..|s| - 1])
        case None =>
          assert !IsHexDigit(s[..|s| - 1][NonHexIndex(s[..|s| - 1])]);
          None
        case Some(high) =>
          Some(16 * high + HexDigitValue(last))
  }

  /** The position of a non-hex character in a non-empty string that is not a hex string. */
  function NonHexIndex(s: string): (i: nat)
    requires |s| > 0 && !IsHexString(s)
    ensures i < |s| && !IsHexDigit(s[i])
  {
    if !IsHexDigit(s[0]) then 0 else 1 + NonHexIndex(s[1..])
  }

  /** Upper-case hexadecimal digit for a value below 16. */
  function HexDigitChar(d: nat): (c: char)
    requires d < 16
    ensures IsHexDigit(c) && HexDigitValue(c) == d
  {
    if d < 10 then ('0' as int + d) as char else ('A' as int + d - 10) as char
  }

  /** Shortest upper-case hexadecimal numeral of `n`: the inverse of ParseHex. */
  function ToHex(n: nat): (s: string)
    ensures IsHexString(s)
    decreases n
  {
    if n < 16 then [HexDigitChar(n)] else ToHex(n / 16) + [HexDigitChar(n % 16)]
  }

  lemma {:induction false} ParseHexOfToHex(n: nat)
    ensures ParseHex(ToHex(n)) == Some(n)
    decreases n
  {
    if n >= 16 {
      ParseHexOfToHex(n / 16);
      var s := ToHex(n);
      assert s[..|s| - 1] == ToHex(n / 16);
    }
  }

  /** Folds A-F to a-f and leaves every other character alone. */
  function FoldHexCase(c: char): (d: char)
    ensures ('a' <= d <= 'f') <==> ('a' <= c <= 'f' || 'A' <= c <= 'F')
  {
    if 'A' <= c <= 'F' then (c as int - 'A' as int + 'a' as int) as char else c
  }

  /** `s` and `t` differ at most in the letter case of the hex letters a-f. */
  predicate SameUpToHexCase(s: string, t: string) {
    |s| == |t| && forall i :: 0 <= i < |s| ==> FoldHexCase(s[i]) == FoldHexCase(t[i])
  }

  lemma HexDigitIgnoresCase(c: char, d: char)
    requires FoldHexCase(c) == FoldHexCase(d)
    ensures IsHexDigit(c) <==> IsHexDigit(d)
    ensures IsHexDigit(c) ==> HexDigitValue(c) == HexDigitValue(d)
  {
  }

  /** The base-16 value of a string does not depend on the case of its letters. */
  lemma {:induction false} ParseHexIgnoresCase(s: string, t: string)
    requires SameUpToHexCase(s, t)
    ensures ParseHex(s) == ParseHex(t)
    decreases |s|
  {
    if |s| > 0 {
      HexDigitIgnoresCase(s[|s| - 1], t[|t| - 1]);
      if |s| > 1 {
        ParseHexIgnoresCase(s[..|s| - 1], t[..|t| - 1]);
      }
    }
  }

  // ---------------------------------------------------------------------------
  // Decimal
  // ---------------------------------------------------------------------------

  predicate IsDecimalDigit(c: char) { '0' <= c <= '9' }

  /** Every character is a decimal digit (the empty string included). */
  predicate IsDecimalString(s: string) {
    forall i :: 0 <= i < |s| ==> IsDecimalDigit(s[i])
  }

  function DecimalDigitChar(d: nat): (c: char)
    requires d < 10
    ensures IsDecimalDigit(c)
  {
    ('0' as int + d) as char
  }

  /** Shortest decimal numeral of `n`, as Python's `str(n)` writes it. */
  function Decimal(n: nat): (s: string)
    ensures |s| >= 1 && IsDecimalString(s)
    ensures s[0] == '0' ==> n == 0
    decreases n
  {
    if n < 10 then [DecimalDigitChar(n)] else Decimal(n / 10) + [DecimalDigitChar(n % 10)]
  }

  /** Value of a string of decimal digits, most significant first; the empty string reads as 0. */
  function ParseDecimal(s: string): nat
    requires IsDecimalString(s)
    decreases |s|
  {
    if s == [] then 0 else 10 * ParseDecimal(s[..|s| - 1]) + (s[|s| - 1] as int - '0' as int)
  }

  lemma {:induction false} ParseDecimalOfDecimal(n: nat)
    ensures ParseDecimal(Decimal(n)) == n
    decreases n
  {
    if n >= 10 {
      ParseDecimalOfDecimal(n / 10);
      var s := Decimal(n);
      assert s[..|s| - 1] == Decimal(n / 10);
    }
  }

  /** `n` has at most `k` decimal digits exactly when it is below 10^k. */
  lemma {:induction false} DecimalLengthBound(n: nat, k: nat)
    requires k >= 1
    ensures |Decimal(n)| <= k <==> n < Pow(10, k)
    decreases n
  {
    if n < 10 {
      PowAtLeastBase(10, k);
    } else if k == 1 {
      assert |Decimal(n)| == |Decimal(n / 10)| + 1;
    } else {
      DecimalLengthBound(n / 10, k - 1);
      assert n / 10 < Pow(10, k - 1) <==> n < 10 * Pow(10, k - 1);
    }
  }

  lemma {:induction false} PowAtLeastBase(base: nat, k: nat)
    requires base >= 1 && k >= 1
    ensures Pow(base, k) >= base
    decreases k
  {
    if k > 1 {
      PowAtLeastBase(base, k - 1);
    }
  }

  lemma {:induction false} PowMonotone(base: nat, j: nat, k: nat)
    requires base >= 1 && j <= k
    ensures Pow(base, j) <= Pow(base, k)
    decreases k
  {
    if j < k {
      PowMonotone(base, j, k - 1);
    }
  }

  /** `k` zero characters. */
  function Zeros(k: nat): (s: string)
    ensures |s| == k && forall i :: 0 <= i < k ==> s[i] == '0'
  {
    seq(k, _ => '0')
  }

  /** Leading zeros do not change the value of a decimal numeral. */
  lemma {:induction false} ParseDecimalSkipsZeros(k: nat, s: string)
    requires IsDecimalString(s)
    ensures IsDecimalString(Zeros(k) + s) && ParseDecimal(Zeros(k) + s) == ParseDecimal(s)
    decreases |s|
  {
    var z := Zeros(k) + s;
    if s == [] {
      ParseZerosIsZero(k);
      assert z == Zeros(k);
    } else {
      ParseDecimalSkipsZeros(k, s[..|s| - 1]);
      assert z[..|z| - 1] == Zeros(k) + s[..|s| - 1];
    }
  }

  lemma {:induction false} ParseZerosIsZero(k: nat)
    ensures IsDecimalString(Zeros(k)) && ParseDecimal(Zeros(k)) == 0
    decreases k
  {
    if k > 0 {
      ParseZerosIsZero(k - 1);
      assert Zeros(k)[..k - 1] == Zeros(k - 1);
    }
  }

  /**
   Decimal numeral of `n` left-padded with '0' to at least `width` characters,
   as the format `f'{n:0<width>d}'` writes a non-negative integer: a numeral
   longer than `width` is kept whole, never truncated.
   */
  function ZeroPad(n: nat, width: nat): (s: string)
    ensures |s| == Max(width, |Decimal(n)|)
    ensures IsDecimalString(s) && ParseDecimal(s) == n
  {
    var digits := Decimal(n);
    var padding := if width > |digits| then width - |digits| else 0;
    ParseDecimalSkipsZeros(padding, digits);
    ParseDecimalOfDecimal(n);
    Zeros(padding) + digits
  }

  /** Different values never pad to the same text. */
  lemma ZeroPadInjective(a: nat, b: nat, width: nat)
    ensures ZeroPad(a, width) == ZeroPad(b, width) <==> a == b
  {
  }

  /** Padding to `width >= 1` yields exactly `width` characters exactly when the value is below 10^width. */
  lemma ZeroPadExactWidth(n: nat, width: nat)
    requires width >= 1
    ensures |ZeroPad(n, width)| == width <==> n < Pow(10, width)
  {
    DecimalLengthBound(n, width);
  }
}
