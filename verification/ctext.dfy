/**
 * The C library character and string routines the command interpreter relies on:
 * `isspace` in the "C" locale, the NUL-terminated view that `c_str()` hands to C code,
 * and `atoi` (optional leading whitespace, optional sign, then the longest run of
 * decimal digits; anything else stops the scan).
 */
module CText {

  /** `isspace` in the "C" locale: space, \t, \n, \v, \f and \r. */
  predicate IsSpace(c: char) {
    c == ' ' || c == '\t' || c == '\n' || c == '\U{B}' || c == '\U{C}' || c == '\r'
  }

  predicate IsDigit(c: char) {
    '0' <= c <= '9'
  }

  predicate AllDigits(s: string) {
    forall i :: 0 <= i < |s| ==> IsDigit(s[i])
  }

  function DigitValue(c: char): (d: nat)
    requires IsDigit(c)
    ensures d < 10
  {
    c as int - '0' as int
  }

  function DigitChar(d: nat): (c: char)
    requires d < 10
    ensures IsDigit(c) && DigitValue(c) == d
  {
    ('0' as int + d) as char
  }

  /** What C code sees of `s` through `c_str()`: the characters before the first NUL. */
  function CString(s: string): (r: string)
    ensures r <= s && '\0' !in r
    ensures |r| < |s| ==> s[|r|] == '\0'
  {
    if s == [] || s[0] == '\0' then [] else [s[0]] + CString(s[1..])
  }

  lemma {:induction false} CStringWithoutNul(s: string)
    requires '\0' !in s
    ensures CString(s) == s
  {
    if s != [] {
      assert '\0' !in s[1..];
      CStringWithoutNul(s[1..]);
    }
  }

  /** The longest prefix of `s` made of decimal digits. */
  function LeadingDigits(s: string): (r: string)
    ensures r <= s && AllDigits(r)
    ensures |r| == |s| || !IsDigit(s[|r|])
  {
    if s != [] && IsDigit(s[0]) then [s[0]] + LeadingDigits(s[1..]) else []
  }

  /** The value of a string of decimal digits, most significant first. */
  function DigitsValue(ds: string): nat
    requires AllDigits(ds)
  {
    if ds == [] then 0 else DigitsValue(ds[..|ds| - 1]) * 10 + DigitValue(ds[|ds| - 1])
  }

  /**
   * C `atoi`: leading whitespace is skipped, then the sign and digits are read. Overflow,
   * undefined in C, is not modelled: the result is an unbounded integer.
   */
  function Atoi(s: string): int
    decreases |s|
  {
    if s != [] && IsSpace(s[0]) then Atoi(s[1..]) else SignedNumber(s)
  }

  /** What `atoi` reads once past the whitespace: an optional sign, then the leading digits. */
  function SignedNumber(t: string): int {
    var signed := t != [] && (t[0] == '-' || t[0] == '+');
    var magnitude: int := DigitsValue(LeadingDigits(if signed then t[1..] else t));
    if signed && t[0] == '-' then -magnitude else magnitude
  }

  /** The decimal rendering of a natural number, without sign or leading zeros. */
  function Decimal(n: nat): (r: string)
    ensures r != [] && AllDigits(r)
  {
    if n < 10 then [DigitChar(n)] else Decimal(n / 10) + [DigitChar(n % 10)]
  }

  lemma {:induction false} DecimalValue(n: nat)
    ensures DigitsValue(Decimal(n)) == n
  {
    if n >= 10 {
      var d := Decimal(n);
      assert d[..|d| - 1] == Decimal(n / 10);
      DecimalValue(n / 10);
    }
  }

  lemma {:induction false} LeadingDigitsOf(ds: string, rest: string)
    requires AllDigits(ds)
    requires rest == [] || !IsDigit(rest[0])
    ensures LeadingDigits(ds + rest) == ds
  {
    if ds != [] {
      assert (ds + rest)[1..] == ds[1..] + rest;
      LeadingDigitsOf(ds[1..], rest);
    }
  }

  /** Whitespace in front of a number does not change what `atoi` reads. */
  lemma {:induction false} AtoiSkipsSpace(ws: string, s: string)
    requires forall k :: 0 <= k < |ws| ==> IsSpace(ws[k])
    ensures Atoi(ws + s) == Atoi(s)
  {
    if ws == [] {
      assert ws + s == s;
    } else {
      assert (ws + s)[0] == ws[0] && (ws + s)[1..] == ws[1..] + s;
      AtoiSkipsSpace(ws[1..], s);
    }
  }

  /** `atoi` reads back a run of digits, whatever non-digit text follows it. */
  lemma AtoiDigits(ds: string, rest: string)
    requires ds != [] && AllDigits(ds)
    requires rest == [] || !IsDigit(rest[0])
    ensures Atoi(ds + rest) == DigitsValue(ds)
  {
    assert (ds + rest)[0] == ds[0];
    AtoiUnsigned(ds + rest);
    LeadingDigitsOf(ds, rest);
  }

  /** Text that starts with a digit is read as its leading digits. */
  lemma AtoiUnsigned(t: string)
    requires t != [] && IsDigit(t[0])
    ensures Atoi(t) == DigitsValue(LeadingDigits(t))
  {
  }

  lemma AtoiOneDigit(d: char)
    requires IsDigit(d)
    ensures Atoi([d]) == DigitValue(d)
  {
    AtoiDigits([d], []);
    assert [d] + [] == [d] && [d][..0] == [];
  }

  /** A sign in front of the digits is honoured, so "-1" is -1 and "+2" is 2. */
  lemma AtoiSigned(sign: char, ds: string, rest: string)
    requires sign == '-' || sign == '+'
    requires ds != [] && AllDigits(ds)
    requires rest == [] || !IsDigit(rest[0])
    ensures Atoi([sign] + ds + rest) == if sign == '-' then -(DigitsValue(ds) as int) else DigitsValue(ds)
  {
    var signed := [sign] + ds + rest;
    assert signed[0] == sign && signed[1..] == ds + rest;
    assert Atoi(signed) == SignedNumber(signed);
    LeadingDigitsOf(ds, rest);
    assert LeadingDigits(signed[1..]) == ds;
  }

  lemma AtoiDecimal(n: nat, rest: string)
    requires rest == [] || !IsDigit(rest[0])
    ensures Atoi(Decimal(n) + rest) == n
    ensures Atoi("-" + Decimal(n) + rest) == -(n as int)
  {
    AtoiDigits(Decimal(n), rest);
    AtoiSigned('-', Decimal(n), rest);
    DecimalValue(n);
  }

  /** Without a digit, a sign or whitespace in front, `atoi` returns 0. */
  lemma AtoiNoNumber(s: string)
    requires s == [] || (!IsDigit(s[0]) && !IsSpace(s[0]) && s[0] != '-' && s[0] != '+')
    ensures Atoi(s) == 0
  {
  }
}
