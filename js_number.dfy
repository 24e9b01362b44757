/** The two number/string conversions the gallery uses: the template
    rendering `${n}` of a non-negative integer, and `parseInt(s)` with no
    radix argument. */
module JsNumber {
  import opened Common
  import opened JsString

  predicate IsDecimalDigit(c: char) {
    '0' <= c <= '9'
  }

  function DecimalDigit(d: nat): (c: char)
    requires d < 10
    ensures IsDecimalDigit(c)
  {
    ('0' as int + d) as char
  }

  /** `${n}` for a non-negative integer: its decimal digits, no sign and no
      leading zero. */
  function NatToString(n: nat): (r: string)
    ensures |r| >= 1
    ensures forall i :: 0 <= i < |r| ==> IsDecimalDigit(r[i])
    ensures r[0] == '0' <==> n == 0
    ensures n == 0 ==> r == "0"
    decreases n
  {
    if n < 10 then [DecimalDigit(n)] else NatToString(n / 10) + [DecimalDigit(n % 10)]
  }

  /** The value of `c` as a digit of the radix (10 or 16, either case). */
  function DigitValue(c: char, radix: nat): (d: Option<nat>)
    requires radix == 10 || radix == 16
    ensures d.Some? ==> d.value < radix
    ensures IsDecimalDigit(c) ==> d == Some(c as int - '0' as int)
  {
    if '0' <= c <= '9' then Some(c as int - '0' as int)
    else if radix == 16 && 'a' <= c <= 'f' then Some(c as int - 'a' as int + 10)
    else if radix == 16 && 'A' <= c <= 'F' then Some(c as int - 'A' as int + 10)
    else None
  }

  predicate AllDigits(s: string, radix: nat)
    requires radix == 10 || radix == 16
  {
    forall i :: 0 <= i < |s| ==> DigitValue(s[i], radix).Some?
  }

  /** The length of the longest prefix of `s` made of digits of the radix. */
  function DigitRun(s: string, radix: nat): (n: nat)
    requires radix == 10 || radix == 16
    ensures n <= |s|
    ensures AllDigits(s[..n], radix)
    ensures n < |s| ==> DigitValue(s[n], radix).None?
    decreases |s|
  {
    if s == [] || DigitValue(s[0], radix).None? then 0 else 1 + DigitRun(s[1..], radix)
  }

  /** The value of a run of digits, most significant first. */
  function DigitsValue(s: string, radix: nat): nat
    requires radix == 10 || radix == 16
    requires AllDigits(s, radix)
    decreases |s|
  {
    if s == [] then 0
    else DigitsValue(s[..|s| - 1], radix) * radix + DigitValue(s[|s| - 1], radix).value
  }

  /** The unsigned part of `parseInt`: a `0x`/`0X` prefix switches to
      radix 16, then the longest run of digits is read; `None` when there is
      no digit at all. */
  function ParseMagnitude(u: string): Option<nat> {
    var hex := |u| >= 2 && u[0] == '0' && (u[1] == 'x' || u[1] == 'X');
    var radix := if hex then 16 else 10;
    var v := if hex then u[2..] else u;
    var n := DigitRun(v, radix);
    if n == 0 then None else Some(DigitsValue(v[..n], radix))
  }

  /** A magnitude with its sign; `None` stays `None`. */
  function Signed(negative: bool, m: Option<nat>): Option<int> {
    match m
    case None => None
    case Some(v) => Some(if negative then -(v as int) else v as int)
  }

  /** `parseInt(s)` with no radix: skip leading white space, take an optional
      sign, then read the magnitude; `None` is NaN. */
  function ParseInt(s: string): (r: Option<int>)
    ensures r.Some? ==> TrimStart(s) != []
    ensures r.Some? && r.value < 0 ==> TrimStart(s)[0] == '-'
  {
    var t := TrimStart(s);
    var negative := |t| > 0 && t[0] == '-';
    var u := if |t| > 0 && (t[0] == '+' || t[0] == '-') then t[1..] else t;
    Signed(negative, ParseMagnitude(u))
  }

  /** A digit run is read in full, and stops at the first non-digit. */
  lemma {:induction false} DigitRunOfDigits(digits: string, rest: string, radix: nat)
    requires radix == 10 || radix == 16
    requires AllDigits(digits, radix)
    requires rest == [] || DigitValue(rest[0], radix).None?
    ensures DigitRun(digits + rest, radix) == |digits|
    decreases |digits|
  {
    if digits != [] {
      assert (digits + rest)[1..] == digits[1..] + rest;
      DigitRunOfDigits(digits[1..], rest, radix);
    } else {
      assert digits + rest == rest;
    }
  }

  /** Reading back the decimal rendering of `n` gives `n`. */
  lemma {:induction false} DigitsValueOfNat(n: nat)
    ensures AllDigits(NatToString(n), 10)
    ensures DigitsValue(NatToString(n), 10) == n
    decreases n
  {
    var s := NatToString(n);
    if n >= 10 {
      DigitsValueOfNat(n / 10);
      assert s[..|s| - 1] == NatToString(n / 10);
    }
  }

  /** `parseInt` reads back what `${n}` writes, with or without a minus sign
      in front, and ignores whatever follows the digits (as long as it does
      not continue the number). */
  lemma ParseMagnitudeOfRendered(n: nat, rest: string)
    requires rest == [] || (!IsDecimalDigit(rest[0]) && rest[0] != 'x' && rest[0] != 'X')
    ensures ParseMagnitude(NatToString(n) + rest) == Some(n)
  {
    var digits := NatToString(n);
    var u := digits + rest;
    DigitsValueOfNat(n);
    DigitRunOfDigits(digits, rest, 10);
    assert u[..|digits|] == digits;
    assert !(|u| >= 2 && u[0] == '0' && (u[1] == 'x' || u[1] == 'X')) by {
      if |u| >= 2 && u[0] == '0' {
        assert digits == "0";
        assert u[1] == rest[0];
      }
    }
  }

  lemma ParseIntOfRendered(n: nat, negative: bool, rest: string)
    requires rest == [] || (!IsDecimalDigit(rest[0]) && rest[0] != 'x' && rest[0] != 'X')
    ensures ParseInt((if negative then "-" else "") + (NatToString(n) + rest))
            == Some(if negative then -(n as int) else n as int)
  {
    var u := NatToString(n) + rest;
    assert u[0] == NatToString(n)[0];
    ParseMagnitudeOfRendered(n, rest);
    var m := ParseMagnitude(u);
    assert m == Some(n);
    if negative {
      ParseIntNegative(u);
    } else {
      assert "" + u == u;
      ParseIntUnsigned(u);
    }
  }

  /** A number that starts with a digit, read with no sign in front. */
  lemma ParseIntUnsigned(u: string)
    requires u != [] && IsDecimalDigit(u[0])
    ensures ParseInt(u) == Signed(false, ParseMagnitude(u))
  {
    assert !IsSpace(u[0]);
    TrimStartUnchanged(u);
    var t := TrimStart(u);
    assert t == u && t[0] != '+' && t[0] != '-';
  }

  /** A number that starts with a digit, read after a minus sign. */
  lemma ParseIntNegative(u: string)
    requires u != [] && IsDecimalDigit(u[0])
    ensures ParseInt("-" + u) == Signed(true, ParseMagnitude(u))
  {
    var s := "-" + u;
    assert s[0] == '-' && !IsSpace(s[0]);
    TrimStartUnchanged(s);
    var t := TrimStart(s);
    assert t == s && t[1..] == u;
  }
}
