/** The part of JavaScript's number semantics the script relies on when it keeps the streak
    in the store: `Number.prototype.toString` on integers, `parseInt` without a radix, and
    the day numbers that stand for `Date.prototype.toDateString` values. */
module JsNumbers {
  import opened Wrappers

  /** A JavaScript number as the script can produce it: an integer, or NaN (what `parseInt`
      returns for text without a leading digit, and what NaN + 1 stays). */
  datatype Num = NaN | Int(value: int)

  /** `n + 1` on a JavaScript number. */
  function Add1(n: Num): (r: Num)
    ensures r.Int? <==> n.Int?
    ensures r.Int? ==> r.value == n.value + 1
  {
    match n
    case NaN => NaN
    case Int(v) => Int(v + 1)
  }

  predicate IsDigit(c: char) {
    '0' <= c <= '9'
  }

  predicate AllDigits(s: string) {
    forall i :: 0 <= i < |s| ==> IsDigit(s[i])
  }

  function DigitValue(c: char): nat
    requires IsDigit(c)
  {
    (c as int - '0' as int) as nat
  }

  function DigitChar(d: nat): (c: char)
    requires d < 10
    ensures IsDigit(c) && DigitValue(c) == d
  {
    ('0' as int + d) as char
  }

  /** Decimal rendering of a natural number, without leading zeros. */
  function NatToString(n: nat): (s: string)
    ensures |s| > 0 && AllDigits(s)
    ensures s[0] == '0' ==> n == 0 && |s| == 1
    decreases n
  {
    if n < 10 then [DigitChar(n)] else NatToString(n / 10) + [DigitChar(n % 10)]
  }

  /** `String(i)` for an integer. */
  function IntToString(i: int): string {
    if i < 0 then "-" + NatToString(-i) else NatToString(i)
  }

  /** `n.toString()`. */
  function ToString(n: Num): string {
    match n
    case NaN => "NaN"
    case Int(v) => IntToString(v)
  }

  /** The value of a non-empty run of decimal digits, most significant first. */
  function DigitsValue(s: string): nat
    requires AllDigits(s)
    decreases |s|
  {
    if s == [] then 0 else DigitsValue(s[..|s| - 1]) * 10 + DigitValue(s[|s| - 1])
  }

  lemma {:induction false} DigitsValueOfNatToString(n: nat)
    ensures DigitsValue(NatToString(n)) == n
    decreases n
  {
    var s := NatToString(n);
    if n >= 10 {
      DigitsValueOfNatToString(n / 10);
      assert s[..|s| - 1] == NatToString(n / 10);
    }
  }

  /** The white-space and line-terminator characters that `parseInt` skips and `String.prototype.trim`
      removes (ECMAScript's WhiteSpace and LineTerminator productions). */
  predicate IsJsSpace(c: char) {
    || c == '\t' || c == '\n' || c == '\r' || c == ' '
    || c as int == 0x0B || c as int == 0x0C || c as int == 0xA0 || c as int == 0xFEFF
    || c as int == 0x1680 || (0x2000 <= c as int <= 0x200A)
    || c as int == 0x2028 || c as int == 0x2029 || c as int == 0x202F || c as int == 0x205F
    || c as int == 0x3000
  }

  /** How many white-space characters `s` starts with. */
  function LeadingSpaces(s: string): (n: nat)
    ensures n <= |s|
    ensures forall i :: 0 <= i < n ==> IsJsSpace(s[i])
    ensures n < |s| ==> !IsJsSpace(s[n])
    decreases |s|
  {
    if s != [] && IsJsSpace(s[0]) then 1 + LeadingSpaces(s[1..]) else 0
  }

  /** `s` without its leading white space. */
  function TrimStart(s: string): string {
    s[LeadingSpaces(s)..]
  }

  /** The longest prefix of `s` made of characters satisfying `IsDigit`. */
  function LeadingDigits(s: string): (r: string)
    ensures r <= s && AllDigits(r)
    ensures |r| < |s| ==> !IsDigit(s[|r|])
    decreases |s|
  {
    if s != [] && IsDigit(s[0]) then [s[0]] + LeadingDigits(s[1..]) else []
  }

  predicate IsHexDigit(c: char) {
    IsDigit(c) || 'a' <= c <= 'f' || 'A' <= c <= 'F'
  }

  function HexDigitValue(c: char): (v: nat)
    requires IsHexDigit(c)
    ensures v < 16
  {
    if IsDigit(c) then DigitValue(c)
    else if 'a' <= c <= 'f' then (c as int - 'a' as int + 10) as nat
    else (c as int - 'A' as int + 10) as nat
  }

  /** The longest prefix of `s` made of hexadecimal digits. */
  function LeadingHexDigits(s: string): (r: string)
    ensures r <= s && forall i :: 0 <= i < |r| ==> IsHexDigit(r[i])
    decreases |s|
  {
    if s != [] && IsHexDigit(s[0]) then [s[0]] + LeadingHexDigits(s[1..]) else []
  }

  function HexValue(s: string): nat
    requires forall i :: 0 <= i < |s| ==> IsHexDigit(s[i])
    decreases |s|
  {
    if s == [] then 0 else HexValue(s[..|s| - 1]) * 16 + HexDigitValue(s[|s| - 1])
  }

  /** The magnitude `parseInt` reads after the sign: a "0x"/"0X" prefix switches to base 16,
      and the value is that of the longest run of digits; no digit at all gives None (NaN). */
  function Magnitude(body: string): Option<nat> {
    if |body| >= 2 && body[0] == '0' && (body[1] == 'x' || body[1] == 'X') then
      var h := LeadingHexDigits(body[2..]);
      if h == [] then None else Some(HexValue(h))
    else
      var d := LeadingDigits(body);
      if d == [] then None else Some(DigitsValue(d))
  }

  /** `parseInt(s)` with no radix: skip leading white space, take an optional sign, read the
      longest run of digits and ignore whatever follows. */
  function ParseInt(s: string): Num {
    var t := TrimStart(s);
    var negative := t != [] && t[0] == '-';
    var body := if t != [] && (t[0] == '-' || t[0] == '+') then t[1..] else t;
    match Magnitude(body)
    case None => NaN
    case Some(m) => Int(if negative then -(m as int) else m)
  }

  /** `parseInt` reads back what `toString` wrote: the streak survives a store round trip. */
  lemma ParseIntOfToString(n: Num)
    ensures ParseInt(ToString(n)) == n
  {
    match n
    case NaN =>
      assert ToString(n)[0] == 'N';
    case Int(v) =>
      ParseIntOfIntToString(v);
  }

  lemma ParseIntOfIntToString(v: int)
    ensures ParseInt(IntToString(v)) == Int(v)
  {
    if v < 0 {
      ParseIntOfNegativeText(-v);
    } else {
      ParseIntOfNatText(v);
    }
  }

  lemma ParseIntOfNatText(m: nat)
    ensures ParseInt(NatToString(m)) == Int(m)
  {
    var s := NatToString(m);
    assert LeadingSpaces(s) == 0 by {
      assert IsDigit(s[0]);
    }
    assert TrimStart(s) == s;
    MagnitudeOfNatToString(m);
  }

  lemma ParseIntOfNegativeText(m: nat)
    requires m > 0
    ensures ParseInt("-" + NatToString(m)) == Int(-(m as int))
  {
    var s := "-" + NatToString(m);
    assert LeadingSpaces(s) == 0 by {
      assert s[0] == '-';
    }
    assert TrimStart(s) == s && s[1..] == NatToString(m);
    MagnitudeOfNatToString(m);
  }

  /** The digits `toString` writes for a natural number read back as that number. */
  lemma MagnitudeOfNatToString(m: nat)
    ensures Magnitude(NatToString(m)) == Some(m)
  {
    var digits := NatToString(m);
    LeadingDigitsOfDigits(digits);
    DigitsValueOfNatToString(m);
  }



  lemma {:induction false} LeadingDigitsOfDigits(s: string)
    requires AllDigits(s)
    ensures LeadingDigits(s) == s
    decreases |s|
  {
    if s != [] {
      LeadingDigitsOfDigits(s[1..]);
    }
  }

  /** The strict reading of a day number written by `IntToString`: an optional minus sign and
      a non-empty run of digits with nothing else. */
  function ParseDay(s: string): Option<int> {
    if |s| > 1 && s[0] == '-' && AllDigits(s[1..]) then Some(-(DigitsValue(s[1..]) as int))
    else if |s| > 0 && AllDigits(s) then Some(DigitsValue(s))
    else None
  }

  lemma ParseDayOfIntToString(d: int)
    ensures ParseDay(IntToString(d)) == Some(d)
  {
    var s := IntToString(d);
    if d < 0 {
      assert s[1..] == NatToString(-d);
      DigitsValueOfNatToString(-d);
      assert !AllDigits(s) by { assert !IsDigit(s[0]); }
    } else {
      DigitsValueOfNatToString(d);
    }
  }

  /** Two different day numbers never render to the same text. */
  lemma IntToStringInjective(a: int, b: int)
    ensures IntToString(a) == IntToString(b) <==> a == b
  {
    ParseDayOfIntToString(a);
    ParseDayOfIntToString(b);
  }
}
