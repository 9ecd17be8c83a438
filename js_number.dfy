/** The ECMAScript number built-ins used on the leadership display order:
    `parseInt(string)` without a radix (ECMA-262, section 19.2.5) and
    `Number.prototype.toString()` on an integer. A parse that yields NaN is
    `None`; negative zero is the integer 0. */
module JsNumber {
  import opened Common

  /** The WhiteSpace and LineTerminator code points that `parseInt` skips. */
  predicate IsJsWhiteSpace(c: char) {
    || c == '\t' || c == '\n' || c == '\U{B}' || c == '\U{C}' || c == '\r'
    || c == ' ' || c == '\U{A0}' || c == '\U{1680}'
    || ('\U{2000}' <= c <= '\U{200A}')
    || c == '\U{2028}' || c == '\U{2029}' || c == '\U{202F}' || c == '\U{205F}'
    || c == '\U{3000}' || c == '\U{FEFF}'
  }

  /** Leading white space removed. */
  function TrimStart(s: string): (t: string)
    ensures t == [] || !IsJsWhiteSpace(t[0])
    ensures |t| <= |s| && t == s[|s| - |t|..]
    ensures forall k :: 0 <= k < |s| - |t| ==> IsJsWhiteSpace(s[k])
  {
    if s != [] && IsJsWhiteSpace(s[0]) then TrimStart(s[1..]) else s
  }

  /** The value of `c` as a digit in base `radix` (10 or 16), if it is one. */
  function DigitValue(c: char, radix: nat): (d: Option<nat>)
    ensures d.Some? ==> d.value < radix
  {
    if '0' <= c <= '9' && (c as int - '0' as int) < radix then Some(c as int - '0' as int)
    else if radix == 16 && 'a' <= c <= 'f' then Some(c as int - 'a' as int + 10)
    else if radix == 16 && 'A' <= c <= 'F' then Some(c as int - 'A' as int + 10)
    else None
  }

  predicate AllDigits(s: string, radix: nat) {
    forall k :: 0 <= k < |s| ==> DigitValue(s[k], radix).Some?
  }

  /** The longest prefix of `s` made of digits in base `radix`. */
  function DigitPrefix(s: string, radix: nat): (z: string)
    ensures AllDigits(z, radix)
    ensures z <= s
    ensures |z| < |s| ==> DigitValue(s[|z|], radix).None?
  {
    if s != [] && DigitValue(s[0], radix).Some? then [s[0]] + DigitPrefix(s[1..], radix) else []
  }

  /** The number a digit string denotes, most significant digit first. */
  function ValueOf(z: string, radix: nat): nat
    requires AllDigits(z, radix)
    decreases |z|
  {
    if z == [] then 0
    else ValueOf(z[..|z| - 1], radix) * radix + DigitValue(z[|z| - 1], radix).value
  }

  /** `parseInt(s)`: skip white space, read an optional sign and an optional
      `0x`/`0X` prefix, then the longest run of digits; no digits is NaN. */
  function ParseInt(s: string): (r: Option<int>)
    ensures TrimStart(s) == [] ==> r == None
    ensures r.Some? && r.value < 0 ==> TrimStart(s)[0] == '-'
    ensures s != [] && '1' <= s[0] <= '9' ==> r.Some? && r.value >= 0
  {
    var t := TrimStart(s);
    var negative := t != [] && t[0] == '-';
    var u := if t != [] && (t[0] == '-' || t[0] == '+') then t[1..] else t;
    var hex := |u| >= 2 && u[0] == '0' && (u[1] == 'x' || u[1] == 'X');
    var radix := if hex then 16 else 10;
    var z := DigitPrefix(if hex then u[2..] else u, radix);
    if z == [] then None
    else
      var m: int := ValueOf(z, radix);
      Some(if negative then -m else m)
  }

  /** `parseInt(s) || 0`: NaN and zero both become 0. */
  function ParseIntOrZero(s: string): (n: int)
    ensures n == 0 <==> ParseInt(s).None? || ParseInt(s) == Some(0)
    ensures ParseInt(s).Some? ==> n == ParseInt(s).value
  {
    match ParseInt(s)
    case None => 0
    case Some(n) => n
  }

  function DigitChar(d: nat): (c: char)
    requires d < 10
    ensures DigitValue(c, 10) == Some(d)
  {
    ('0' as int + d) as char
  }

  /** Decimal numeral of a natural number, without leading zeros. */
  function NatToString(n: nat): (s: string)
    ensures |s| >= 1 && AllDigits(s, 10)
    ensures |s| >= 2 ==> s[0] != '0'
  {
    if n < 10 then [DigitChar(n)] else NatToString(n / 10) + [DigitChar(n % 10)]
  }

  /** `n.toString()` for an integer `n`. */
  function IntToString(n: int): (s: string)
    ensures |s| >= 1
    ensures s[0] == '-' <==> n < 0
    ensures n >= 0 ==> AllDigits(s, 10)
  {
    if n < 0 then "-" + NatToString(-n) else NatToString(n)
  }

  lemma {:induction false} ValueOfNatToString(n: nat)
    ensures ValueOf(NatToString(n), 10) == n
  {
    var s := NatToString(n);
    if n >= 10 {
      ValueOfNatToString(n / 10);
      assert s[..|s| - 1] == NatToString(n / 10);
    }
  }

  lemma {:induction false} DigitPrefixAllDigits(s: string, radix: nat)
    requires AllDigits(s, radix)
    ensures DigitPrefix(s, radix) == s
    decreases |s|
  {
    if s != [] {
      DigitPrefixAllDigits(s[1..], radix);
    }
  }

  /** Reading back a printed integer gives the integer: `parseInt(n.toString()) == n`. */
  lemma ParseIntToString(n: int)
    ensures ParseInt(IntToString(n)) == Some(n)
  {
    var m: nat := if n < 0 then -n else n;
    var digits := NatToString(m);
    var s := IntToString(n);
    DecimalDigit(digits[0]);
    assert !IsJsWhiteSpace(s[0]);
    assert TrimStart(s) == s;
    var u := if n < 0 then s[1..] else s;
    assert u == digits;
    if |u| >= 2 {
      DecimalDigit(u[1]);
    }
    DigitPrefixAllDigits(digits, 10);
    ValueOfNatToString(m);
  }

  lemma DecimalDigit(c: char)
    requires DigitValue(c, 10).Some?
    ensures '0' <= c <= '9'
  {
  }

  /** Normalising a field that is already normalised changes nothing: the
      submit-time `parseInt(order.toString()) || 0` keeps what the input
      handler's `parseInt(text) || 0` produced. */
  lemma NormaliseTwice(text: string)
    ensures ParseIntOrZero(IntToString(ParseIntOrZero(text))) == ParseIntOrZero(text)
  {
    ParseIntToString(ParseIntOrZero(text));
  }

  /** An empty or all-blank field is NaN, so it normalises to 0. */
  lemma {:induction false} BlankParsesToNaN(s: string)
    requires forall k :: 0 <= k < |s| ==> IsJsWhiteSpace(s[k])
    ensures ParseInt(s) == None && ParseIntOrZero(s) == 0
  {
  }
}
