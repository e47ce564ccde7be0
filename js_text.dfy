/**
 * The pieces of JavaScript string semantics the page logic relies on: the
 * regular-expression class \s, the global parseInt with no radix argument,
 * the string form of an integral Number, and s.replace(/[0-9]/g, '').
 * Strings are sequences of Unicode scalar values.
 */
module JsText {
  import opened Wrappers

  /** ECMAScript WhiteSpace or LineTerminator: what \s matches and what parseInt skips. */
  predicate IsJsWhitespace(c: char) {
    var n := c as int;
    n == 0x09 || n == 0x0A || n == 0x0B || n == 0x0C || n == 0x0D || n == 0x20 || n == 0xA0
    || n == 0x1680 || (0x2000 <= n <= 0x200A) || n == 0x2028 || n == 0x2029
    || n == 0x202F || n == 0x205F || n == 0x3000 || n == 0xFEFF
  }

  /** The class [0-9]. */
  predicate IsDecimalDigit(c: char) {
    '0' <= c <= '9'
  }

  /** The value of c as a digit of radix 36, or 36 when c is no digit at all. */
  function DigitValue(c: char): (d: nat)
    ensures d <= 36
    ensures IsDecimalDigit(c) <==> d < 10
  {
    if '0' <= c <= '9' then c as int - '0' as int
    else if 'a' <= c <= 'z' then c as int - 'a' as int + 10
    else if 'A' <= c <= 'Z' then c as int - 'A' as int + 10
    else 36
  }

  /** The two radixes parseInt ends up with when none is passed. */
  datatype Radix = Decimal | Hexadecimal

  function Base(radix: Radix): nat {
    if radix == Decimal then 10 else 16
  }

  predicate IsRadixDigit(c: char, radix: Radix) {
    DigitValue(c) < Base(radix)
  }

  function DigitChar(d: nat): (c: char)
    requires d < 10
    ensures IsDecimalDigit(c) && DigitValue(c) == d
  {
    ('0' as int + d) as char
  }

  /** The TrimString(s, start) step of parseInt: leading whitespace removed. */
  function TrimStart(s: string): (r: string)
    ensures |r| <= |s| && r == s[|s| - |r|..]
    ensures forall k :: 0 <= k < |s| - |r| ==> IsJsWhitespace(s[k])
    ensures r != [] ==> !IsJsWhitespace(r[0])
  {
    if s != [] && IsJsWhitespace(s[0]) then TrimStart(s[1..]) else s
  }

  /** The longest prefix of s made of radix digits. */
  function DigitPrefix(s: string, radix: Radix): (z: string)
    ensures |z| <= |s| && z == s[..|z|]
    ensures forall k :: 0 <= k < |z| ==> IsRadixDigit(z[k], radix)
    ensures |z| < |s| ==> !IsRadixDigit(s[|z|], radix)
  {
    if s != [] && IsRadixDigit(s[0], radix) then [s[0]] + DigitPrefix(s[1..], radix) else []
  }

  /** The number a string of radix digits denotes, most significant digit first. */
  function DigitsValue(z: string, radix: Radix): nat
    requires forall k :: 0 <= k < |z| ==> IsRadixDigit(z[k], radix)
  {
    if z == [] then 0
    else
      var high := DigitsValue(z[..|z| - 1], radix);
      (if radix == Decimal then high * 10 else high * 16) + DigitValue(z[|z| - 1])
  }

  /** The longest run of radix digits at the start of u, read as a number; None when there is none. */
  function ReadDigits(u: string, radix: Radix): (r: Option<nat>)
    ensures r.Some? <==> u != [] && IsRadixDigit(u[0], radix)
  {
    var z := DigitPrefix(u, radix);
    if z == [] then None else Some(DigitsValue(z, radix))
  }

  predicate HasHexPrefix(u: string) {
    |u| >= 2 && u[0] == '0' && (u[1] == 'x' || u[1] == 'X')
  }

  /** The unsigned part of parseInt: a "0x"/"0X" prefix switches to radix 16, otherwise radix 10. */
  function ParseUnsigned(u: string): (r: Option<nat>)
    ensures HasHexPrefix(u) ==> (r.Some? <==> |u| > 2 && IsRadixDigit(u[2], Hexadecimal))
    ensures !HasHexPrefix(u) ==> (r.Some? <==> u != [] && IsDecimalDigit(u[0]))
  {
    if HasHexPrefix(u) then ReadDigits(u[2..], Hexadecimal) else ReadDigits(u, Decimal)
  }

  /** The sign step of parseInt: a leading '-' negates what follows, a leading '+' is dropped. */
  function ParseSigned(t: string): (r: Option<int>)
    ensures r.Some? && t != [] && t[0] == '-' ==> r.value <= 0
    ensures r.Some? && (t == [] || t[0] != '-') ==> r.value >= 0
    ensures t == [] ==> r == None
  {
    if t != [] && t[0] == '-' then
      match ParseUnsigned(t[1..])
      case None => None
      case Some(m) => Some(-(m as int))
    else
      var u := if t != [] && t[0] == '+' then t[1..] else t;
      match ParseUnsigned(u)
      case None => None
      case Some(m) => Some(m as int)
  }

  /** parseInt(s) with the radix left undefined; None stands for NaN. */
  function ParseInt(s: string): (r: Option<int>)
    ensures (forall k :: 0 <= k < |s| ==> IsJsWhitespace(s[k])) ==> r == None
  {
    ParseSigned(TrimStart(s))
  }

  /** Decimal digits of n without leading zeros, as Number.prototype.toString writes them. */
  function NatToString(n: nat): (s: string)
    ensures s != [] && forall k :: 0 <= k < |s| ==> IsDecimalDigit(s[k])
    ensures s[0] == '0' ==> n == 0 && s == "0"
  {
    if n < 10 then [DigitChar(n)] else NatToString(n / 10) + [DigitChar(n % 10)]
  }

  /** The digits NatToString writes denote n again. */
  lemma {:induction false} NatToStringValue(n: nat)
    ensures DigitsValue(NatToString(n), Decimal) == n
  {
    if n >= 10 {
      var s := NatToString(n);
      assert s[..|s| - 1] == NatToString(n / 10);
      NatToStringValue(n / 10);
    }
  }

  /** String(n) for an integral Number n (of magnitude below 10^21). */
  function IntToString(n: int): (s: string)
    ensures s != [] && (s[0] == '-' <==> n < 0)
    ensures forall k :: (if n < 0 then 1 else 0) <= k < |s| ==> IsDecimalDigit(s[k])
  {
    if n < 0 then "-" + NatToString(-n) else NatToString(n)
  }

  /** s.replace(/[0-9]/g, ''): every decimal digit removed, the rest kept in order. */
  function StripDigits(s: string): (r: string)
    ensures |r| <= |s|
    ensures forall k :: 0 <= k < |r| ==> !IsDecimalDigit(r[k])
    ensures (forall k :: 0 <= k < |s| ==> !IsDecimalDigit(s[k])) ==> r == s
  {
    if s == [] then []
    else (if IsDecimalDigit(s[0]) then [] else [s[0]]) + StripDigits(s[1..])
  }

  /** Removing digits distributes over concatenation, so the kept characters stay in order. */
  lemma {:induction false} StripDigitsAppend(a: string, b: string)
    ensures StripDigits(a + b) == StripDigits(a) + StripDigits(b)
  {
    if a == [] {
      assert a + b == b;
    } else {
      var x := if IsDecimalDigit(a[0]) then [] else [a[0]];
      assert StripDigits(a + b) == x + StripDigits(a[1..] + b) by {
        assert (a + b)[0] == a[0];
        assert (a + b)[1..] == a[1..] + b;
      }
      StripDigitsAppend(a[1..], b);
      assert x + (StripDigits(a[1..]) + StripDigits(b)) == (x + StripDigits(a[1..])) + StripDigits(b);
    }
  }

  /** The digit scan stops exactly where the run of digits ends. */
  lemma {:induction false} DigitPrefixOfRun(d: string, rest: string, radix: Radix)
    requires forall k :: 0 <= k < |d| ==> IsRadixDigit(d[k], radix)
    requires rest == [] || !IsRadixDigit(rest[0], radix)
    ensures DigitPrefix(d + rest, radix) == d
  {
    if d != [] {
      assert (d + rest)[1..] == d[1..] + rest;
      DigitPrefixOfRun(d[1..], rest, radix);
    }
  }

  /** Decimal digits that end where the text does not continue them read as their value. */
  lemma {:induction false} ParseUnsignedDecimal(d: string, rest: string)
    requires d != [] && forall k :: 0 <= k < |d| ==> IsDecimalDigit(d[k])
    requires rest == [] || !IsDecimalDigit(rest[0])
    requires !(d == "0" && rest != [] && (rest[0] == 'x' || rest[0] == 'X'))
    ensures ParseUnsigned(d + rest) == Some(DigitsValue(d, Decimal))
  {
    var u := d + rest;
    assert u[0] == d[0];
    assert |d| >= 2 ==> u[1] == d[1];
    assert |d| == 1 && rest != [] ==> u[1] == rest[0];
    assert !HasHexPrefix(u);
    DigitPrefixOfRun(d, rest, Decimal);
    assert ReadDigits(u, Decimal) == Some(DigitsValue(d, Decimal));
  }

  /** Text that starts with neither whitespace nor a sign is read by the unsigned part alone. */
  lemma ParseIntUnsigned(s: string)
    requires s != [] && !IsJsWhitespace(s[0]) && s[0] != '-' && s[0] != '+'
    ensures ParseInt(s) == match ParseUnsigned(s) case None => None case Some(m) => Some(m as int)
  {
    assert TrimStart(s) == s;
  }

  /** Text that starts with '-' is the negation of what the unsigned part reads after it. */
  lemma ParseIntMinus(u: string)
    ensures ParseInt("-" + u) == match ParseUnsigned(u) case None => None case Some(m) => Some(-(m as int))
  {
    var s := "-" + u;
    assert s[0] == '-' && s[1..] == u;
    assert TrimStart(s) == s;
  }

  /** Removing leading whitespace skips any run of whitespace put in front of the text. */
  lemma {:induction false} TrimStartSkips(w: string, s: string)
    requires forall k :: 0 <= k < |w| ==> IsJsWhitespace(w[k])
    ensures TrimStart(w + s) == TrimStart(s)
  {
    if w != [] {
      assert (w + s)[0] == w[0];
      assert (w + s)[1..] == w[1..] + s;
      TrimStartSkips(w[1..], s);
    } else {
      assert w + s == s;
    }
  }

  /** parseInt ignores leading whitespace. */
  lemma ParseIntSkipsWhitespace(w: string, s: string)
    requires forall k :: 0 <= k < |w| ==> IsJsWhitespace(w[k])
    ensures ParseInt(w + s) == ParseInt(s)
  {
    TrimStartSkips(w, s);
  }

  /**
   * A string that begins with decimal digits parses to their value, provided
   * the digits end there and do not form the "0x" prefix of a hexadecimal literal.
   */
  lemma {:induction false} ParseIntLeadingDecimal(d: string, rest: string)
    requires d != [] && forall k :: 0 <= k < |d| ==> IsDecimalDigit(d[k])
    requires rest == [] || !IsDecimalDigit(rest[0])
    requires !(d == "0" && rest != [] && (rest[0] == 'x' || rest[0] == 'X'))
    ensures ParseInt(d + rest) == Some(DigitsValue(d, Decimal))
  {
    var s := d + rest;
    assert s[0] == d[0] && IsDecimalDigit(s[0]);
    ParseIntUnsigned(s);
    ParseUnsignedDecimal(d, rest);
  }

  /** "-" followed by the digits of a positive m reads back as -m. */
  lemma ParseIntOfNegative(m: nat, rest: string)
    requires m > 0
    requires rest == [] || !IsDecimalDigit(rest[0])
    ensures ParseInt("-" + NatToString(m) + rest) == Some(-(m as int))
  {
    var d := NatToString(m);
    assert "-" + d + rest == "-" + (d + rest);
    NatToStringValue(m);
    ParseUnsignedDecimal(d, rest);
    ParseIntMinus(d + rest);
  }

  /** The digits of m read back as m. */
  lemma ParseIntOfNonNegative(m: nat, rest: string)
    requires rest == [] || !IsDecimalDigit(rest[0])
    requires m != 0 || rest == [] || (rest[0] != 'x' && rest[0] != 'X')
    ensures ParseInt(NatToString(m) + rest) == Some(m)
  {
    NatToStringValue(m);
    ParseIntLeadingDecimal(NatToString(m), rest);
  }

  /** parseInt reads back what String(n) writes, whatever non-digit text follows it. */
  lemma ParseIntOfIntToString(n: int, rest: string)
    requires rest == [] || !IsDecimalDigit(rest[0])
    requires n != 0 || rest == [] || (rest[0] != 'x' && rest[0] != 'X')
    ensures ParseInt(IntToString(n) + rest) == Some(n)
  {
    if n >= 0 {
      ParseIntOfNonNegative(n, rest);
    } else {
      assert IntToString(n) == "-" + NatToString(-n);
      ParseIntOfNegative(-n, rest);
    }
  }
}
