/** JavaScript's global `parseInt(string)` with no radix argument, as the
    ECMAScript standard (section 19.2.5 of ECMA-262) defines it, restricted to
    results that are integers: `None` stands for NaN. */
module JsNumber {
  import opened Wrappers
  import Decimal

  /** StrWhiteSpaceChar: the white space and line terminators `parseInt` skips. */
  predicate IsWhite(c: char) {
    c == '\t' || c == '\n' || c == '\U{B}' || c == '\U{C}' || c == '\r' || c == ' '
    || c == '\U{A0}' || c == '\U{1680}' || ('\U{2000}' <= c <= '\U{200A}')
    || c == '\U{2028}' || c == '\U{2029}' || c == '\U{202F}' || c == '\U{205F}'
    || c == '\U{3000}' || c == '\U{FEFF}'
  }

  /** The value of `c` as a digit of the given radix, when it is one. */
  function DigitOf(c: char, radix: nat): (d: Option<nat>)
    requires radix == 10 || radix == 16
    ensures d.Some? ==> d.value < radix
  {
    if '0' <= c <= '9' then Some(c as int - '0' as int)
    else if radix == 16 && 'a' <= c <= 'f' then Some(c as int - 'a' as int + 10)
    else if radix == 16 && 'A' <= c <= 'F' then Some(c as int - 'A' as int + 10)
    else None
  }

  /** `s` with its leading white space removed. */
  function TrimStart(s: string): (t: string)
    ensures |t| <= |s| && t == s[|s| - |t|..]
    ensures forall i :: 0 <= i < |s| - |t| ==> IsWhite(s[i])
    ensures t == [] || !IsWhite(t[0])
    decreases |s|
  {
    if s != [] && IsWhite(s[0]) then TrimStart(s[1..]) else s
  }

  /** The length of the longest prefix of `s` made of digits of `radix`. */
  function DigitRun(s: string, radix: nat): (n: nat)
    requires radix == 10 || radix == 16
    ensures n <= |s|
    ensures forall i :: 0 <= i < n ==> DigitOf(s[i], radix).Some?
    ensures n == |s| || DigitOf(s[n], radix).None?
    decreases |s|
  {
    if s != [] && DigitOf(s[0], radix).Some? then 1 + DigitRun(s[1..], radix) else 0
  }

  /** The number that a string of digits of `radix` denotes. */
  function RadixValue(s: string, radix: nat): nat
    requires radix == 10 || radix == 16
    requires forall i :: 0 <= i < |s| ==> DigitOf(s[i], radix).Some?
    decreases |s|
  {
    if s == [] then 0
    else RadixValue(s[..|s| - 1], radix) * radix + DigitOf(s[|s| - 1], radix).value
  }

  predicate HasHexPrefix(s: string) {
    |s| >= 2 && s[0] == '0' && (s[1] == 'x' || s[1] == 'X')
  }

  /** `parseInt(s)`: skip leading white space, take an optional sign, switch
      to radix 16 after `0x`/`0X`, then read the longest run of digits; no
      digits at all gives NaN. */
  function ParseInt(s: string): (r: Option<int>)
    ensures TrimStart(s) == [] ==> r.None?
    ensures r.Some? ==> var t := TrimStart(s); t != [] && (Decimal.IsDigit(t[0]) || t[0] == '+' || t[0] == '-')
    ensures r.Some? && r.value < 0 ==> TrimStart(s)[0] == '-'
  {
    ParseSigned(TrimStart(s))
  }

  function ParseSigned(t: string): Option<int>
  {
    if t != [] && t[0] == '-' then
      match ParseUnsigned(t[1..])
      case Some(m) => Some(-m)
      case None => None
    else if t != [] && t[0] == '+' then ParseUnsigned(t[1..])
    else ParseUnsigned(t)
  }

  function ParseUnsigned(u: string): (r: Option<int>)
    ensures r.Some? ==> r.value >= 0
  {
    if HasHexPrefix(u) then ReadDigits(u[2..], 16) else ReadDigits(u, 10)
  }

  /** The value of the longest run of digits at the head of `b`; NaN when it is empty. */
  function ReadDigits(b: string, radix: nat): (r: Option<int>)
    requires radix == 10 || radix == 16
    ensures r.Some? ==> r.value >= 0
  {
    var n := DigitRun(b, radix);
    if n == 0 then None else Some(RadixValue(b[..n], radix))
  }

  lemma {:induction false} RadixTenIsDecimal(s: string)
    requires Decimal.AllDigits(s)
    ensures forall i :: 0 <= i < |s| ==> DigitOf(s[i], 10).Some?
    ensures RadixValue(s, 10) == Decimal.Value(s)
    decreases |s|
  {
    if s != [] {
      RadixTenIsDecimal(s[..|s| - 1]);
    }
  }

  /** A run of decimal digits followed by a non-digit is read up to that non-digit. */
  lemma ReadDigitsOfDecimal(d: string, rest: string)
    requires d != [] && Decimal.AllDigits(d)
    requires rest == [] || !Decimal.IsDigit(rest[0])
    ensures ReadDigits(d + rest, 10) == Some(Decimal.Value(d))
  {
    var s := d + rest;
    assert forall i :: 0 <= i < |d| ==> s[i] == d[i];
    assert |s| == |d| || s[|d|] == rest[0];
    assert DigitRun(s, 10) == |d|;
    assert s[..|d|] == d;
    RadixTenIsDecimal(d);
  }

  /** A run of decimal digits is read as its decimal value, unless it is a lone
      `0` that the next character turns into the hexadecimal prefix. */
  lemma ParseIntOfDigits(d: string, rest: string)
    requires d != [] && Decimal.AllDigits(d)
    requires rest == [] || !Decimal.IsDigit(rest[0])
    requires d == "0" && rest != [] ==> rest[0] != 'x' && rest[0] != 'X'
    ensures ParseInt(d + rest) == Some(Decimal.Value(d))
  {
    var s := d + rest;
    assert s[0] == d[0] && Decimal.IsDigit(s[0]);
    assert !IsWhite(s[0]);
    assert TrimStart(s) == s;
    assert ParseSigned(s) == ParseUnsigned(s);
    assert !HasHexPrefix(s) by {
      if |s| >= 2 && s[0] == '0' {
        if |d| == 1 {
          assert d == "0";
          assert s[1] == rest[0];
        } else {
          assert s[1] == d[1];
        }
      }
    }
    ReadDigitsOfDecimal(d, rest);
  }

  /** `parseInt` reads back the decimal rendering of `n`, and stops at the first
      character that is not a digit, unless that character turns a lone `0`
      into the hexadecimal prefix `0x`. */
  lemma ParseIntOfShow(n: nat, rest: string)
    requires rest == [] || !Decimal.IsDigit(rest[0])
    requires n == 0 && rest != [] ==> rest[0] != 'x' && rest[0] != 'X'
    ensures ParseInt(Decimal.Show(n) + rest) == Some(n)
  {
    var d := Decimal.Show(n);
    Decimal.ValueOfShow(n);
    if d == "0" {
      assert n == 0;
    }
    ParseIntOfDigits(d, rest);
  }

  /** Leading white space is skipped entirely. */
  lemma {:induction false} TrimStartSkipsWhite(white: string, s: string)
    requires forall i :: 0 <= i < |white| ==> IsWhite(white[i])
    ensures TrimStart(white + s) == TrimStart(s)
    decreases |white|
  {
    if white != [] {
      assert (white + s)[0] == white[0];
      assert (white + s)[1..] == white[1..] + s;
      TrimStartSkipsWhite(white[1..], s);
    } else {
      assert white + s == s;
    }
  }

  /** Leading white space does not change what `parseInt` reads. */
  lemma ParseIntSkipsWhite(white: string, s: string)
    requires forall i :: 0 <= i < |white| ==> IsWhite(white[i])
    ensures ParseInt(white + s) == ParseInt(s)
  {
    TrimStartSkipsWhite(white, s);
  }
}
