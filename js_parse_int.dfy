/**
 * ECMAScript's global `parseInt(string)` called without a radix, which the
 * font-size field relies on: skip leading white space, read an optional sign,
 * switch to radix 16 after a `0x`/`0X` prefix, then read the longest run of
 * digits of that radix. No digits at all gives `NaN`, modelled as `None`.
 * (ECMAScript 2024, section 19.2.5.)
 */
module JsParseInt {
  import opened Wrappers

  /** StrWhiteSpaceChar: WhiteSpace and LineTerminator code points (ECMAScript sections 12.2 and 12.3). */
  predicate IsStrWhiteSpace(c: char)
  {
    || c == '\t' || c == '\U{B}' || c == '\U{C}' || c == ' ' || c == '\U{A0}' || c == '\U{FEFF}'
    || c == '\U{1680}' || ('\U{2000}' <= c <= '\U{200A}') || c == '\U{202F}' || c == '\U{205F}' || c == '\U{3000}'
    || c == '\n' || c == '\r' || c == '\U{2028}' || c == '\U{2029}'
  }

  /** `s` with its leading white space removed. */
  function TrimStart(s: string): string
  {
    if s != [] && IsStrWhiteSpace(s[0]) then TrimStart(s[1..]) else s
  }

  /** `TrimStart` removes exactly the longest run of white space at the front of `s`. */
  lemma {:induction false} TrimStartRemovesLeadingWhiteSpace(s: string)
    ensures var t := TrimStart(s);
      && |t| <= |s| && t == s[|s| - |t|..]
      && (forall i :: 0 <= i < |s| - |t| ==> IsStrWhiteSpace(s[i]))
      && (t == [] || !IsStrWhiteSpace(t[0]))
  {
    if s != [] && IsStrWhiteSpace(s[0]) {
      TrimStartRemovesLeadingWhiteSpace(s[1..]);
    }
  }

  /** The value of `c` as a digit of radix up to 36 (`0`-`9`, then letters of either case); 36 when it is not one. */
  function DigitValue(c: char): (d: nat)
    ensures d <= 36
  {
    if '0' <= c <= '9' then c as int - '0' as int
    else if 'a' <= c <= 'z' then c as int - 'a' as int + 10
    else if 'A' <= c <= 'Z' then c as int - 'A' as int + 10
    else 36
  }

  /** The longest prefix of `s` made of digits of `radix`. */
  function DigitPrefix(s: string, radix: nat): (z: string)
    ensures |z| <= |s| && z == s[..|z|]
    ensures forall i :: 0 <= i < |z| ==> DigitValue(z[i]) < radix
    ensures |z| < |s| ==> DigitValue(s[|z|]) >= radix
  {
    if s != [] && DigitValue(s[0]) < radix then [s[0]] + DigitPrefix(s[1..], radix) else []
  }

  /** The number a string of digits denotes in `radix`, most significant digit first. */
  function DigitsValue(z: string, radix: nat): nat
  {
    if z == [] then 0 else DigitsValue(z[..|z| - 1], radix) * radix + DigitValue(z[|z| - 1])
  }

  /** The number the leading digits of `v` denote in `radix`; `None` when `v` does not start with one. */
  function LeadingDigits(v: string, radix: nat): (r: Option<nat>)
    ensures r.None? <==> v == [] || DigitValue(v[0]) >= radix
  {
    var z := DigitPrefix(v, radix);
    if z == [] then None else Some(DigitsValue(z, radix))
  }

  /** A `0x` or `0X` prefix, which selects radix 16. */
  predicate HasHexPrefix(u: string)
  {
    |u| >= 2 && u[0] == '0' && (u[1] == 'x' || u[1] == 'X')
  }

  /** `u` without its leading sign character, if it has one. */
  function Unsigned(t: string): string
  {
    if t != [] && (t[0] == '-' || t[0] == '+') then t[1..] else t
  }

  /**
   * `parseInt(s)`; `None` stands for `NaN`. It is `NaN` exactly when no digit
   * stands where the first digit is expected, and negative only after a minus sign.
   */
  function ParseInt(s: string): (r: Option<int>)
    ensures r.None? <==>
      var u := Unsigned(TrimStart(s));
      if HasHexPrefix(u) then |u| == 2 || DigitValue(u[2]) >= 16 else u == [] || DigitValue(u[0]) >= 10
    ensures r.Some? && r.value < 0 ==> TrimStart(s) != [] && TrimStart(s)[0] == '-'
  {
    var t := TrimStart(s);
    var negative := t != [] && t[0] == '-';
    var u := Unsigned(t);
    var magnitude := if HasHexPrefix(u) then LeadingDigits(u[2..], 16) else LeadingDigits(u, 10);
    if magnitude.None? then None
    else if negative then Some(-(magnitude.value as int))
    else Some(magnitude.value as int)
  }

  /** The decimal digit character for `d`. */
  function DigitChar(d: nat): char
    requires d < 10
  {
    ['0', '1', '2', '3', '4', '5', '6', '7', '8', '9'][d]
  }

  /** The decimal numeral of `n`, without leading zeros. */
  function NatToString(n: nat): (s: string)
    ensures s != []
    ensures forall i :: 0 <= i < |s| ==> DigitValue(s[i]) < 10
    ensures n > 0 ==> s[0] != '0'
  {
    if n < 10 then [DigitChar(n)] else NatToString(n / 10) + [DigitChar(n % 10)]
  }

  /** JavaScript's `String(n)` for an integer `n`. */
  function IntToString(n: int): string
  {
    if n < 0 then "-" + NatToString(-n) else NatToString(n)
  }

  lemma {:induction false} DigitsValueOfNatToString(n: nat)
    ensures DigitsValue(NatToString(n), 10) == n
  {
    var s := NatToString(n);
    if n >= 10 {
      DigitsValueOfNatToString(n / 10);
      assert s[..|s| - 1] == NatToString(n / 10);
    }
  }

  /** A digit run followed by something that is not a digit is read up to the end of the run. */
  lemma {:induction false} DigitPrefixOfDigitsThenRest(z: string, rest: string, radix: nat)
    requires forall i :: 0 <= i < |z| ==> DigitValue(z[i]) < radix
    requires rest == [] || DigitValue(rest[0]) >= radix
    ensures DigitPrefix(z + rest, radix) == z
  {
    if z != [] {
      assert (z + rest)[1..] == z[1..] + rest;
      DigitPrefixOfDigitsThenRest(z[1..], rest, radix);
    }
  }

  /** A decimal numeral followed by a non-digit has no hex prefix and is read back as its value, unsigned. */
  lemma MagnitudeOfNumeral(m: nat, rest: string)
    requires rest == [] || DigitValue(rest[0]) >= 10
    requires m == 0 && rest != [] ==> rest[0] != 'x' && rest[0] != 'X'
    ensures !HasHexPrefix(NatToString(m) + rest)
    ensures LeadingDigits(NatToString(m) + rest, 10) == Some(m)
  {
    var digits := NatToString(m);
    var u := digits + rest;
    if |u| >= 2 && u[0] == '0' {
      assert digits[0] == '0';
      assert m == 0;
      assert u[1] == rest[0];
    }
    DigitPrefixOfDigitsThenRest(digits, rest, 10);
    DigitsValueOfNatToString(m);
  }

  /** `parseInt` of a string with no leading white space whose unsigned part starts with decimal digits. */
  lemma ParseIntOfSignedDigits(s: string, m: nat)
    requires TrimStart(s) == s
    requires !HasHexPrefix(Unsigned(s)) && LeadingDigits(Unsigned(s), 10) == Some(m)
    ensures ParseInt(s) == if s != [] && s[0] == '-' then Some(-(m as int)) else Some(m as int)
  {
  }

  /** An integer's numeral has no leading white space, and its unsigned part is the numeral of its magnitude. */
  lemma NumeralShape(n: int, rest: string)
    ensures var s := IntToString(n) + rest;
      TrimStart(s) == s && Unsigned(s) == NatToString(if n < 0 then -n else n) + rest
  {
  }

  /**
   * `parseInt` reads back the numeral of any integer, also when something that
   * is not a digit follows it (a fraction `.5`, an exponent `e3`, a unit `px`),
   * unless the numeral is `0` and what follows turns it into a `0x` prefix.
   */
  lemma ParseIntOfNumeral(n: int, rest: string)
    requires rest == [] || DigitValue(rest[0]) >= 10
    requires n == 0 && rest != [] ==> rest[0] != 'x' && rest[0] != 'X'
    ensures ParseInt(IntToString(n) + rest) == Some(n)
  {
    var m: nat := if n < 0 then -n else n;
    var s := IntToString(n) + rest;
    MagnitudeOfNumeral(m, rest);
    NumeralShape(n, rest);
    ParseIntOfSignedDigits(s, m);
    assert s != [] && s[0] == '-' <==> n < 0;
  }

  /** An empty field reads as `NaN`. */
  lemma ParseIntOfEmpty()
    ensures ParseInt("") == None
  {
  }

  /** White space before the numeral is skipped. */
  lemma ParseIntSkipsWhiteSpace()
    ensures ParseInt("  24") == Some(24)
  {
    assert TrimStart("  24") == "24";
    ParseIntOfNumeral(24, []);
    assert IntToString(24) + [] == "24";
  }

  /** A fraction is cut off, not rounded. */
  lemma ParseIntOfFraction()
    ensures ParseInt("12.5") == Some(12)
  {
    ParseIntOfNumeral(12, ".5");
    assert IntToString(12) + ".5" == "12.5";
  }

  /** A negative zero reads as zero. */
  lemma ParseIntOfNegativeZero()
    ensures ParseInt("-0") == Some(0)
  {
    assert Unsigned("-0") == "0";
  }

  /** A `0x` prefix switches to hexadecimal. */
  lemma ParseIntOfHex()
    ensures ParseInt("0x1A") == Some(26)
  {
    assert HasHexPrefix("0x1A") && "0x1A"[2..] == "1A";
    assert DigitPrefix("1A", 16) == "1A";
    assert "1A"[..1] == "1";
    assert DigitsValue("1A", 16) == 26;
  }
}
