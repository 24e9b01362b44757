/** `encodeURIComponent` and `decodeURIComponent` of ECMAScript: percent-
    encoding in the sense of section 2.1 of RFC 3986, over the UTF-8 bytes of
    each character. A `char` here is a Unicode scalar value, so the lone
    surrogates on which `encodeURIComponent` throws cannot occur. */
module UriComponent {
  import opened Common

  /** The characters `encodeURIComponent` leaves alone: letters, digits and
      `- _ . ! ~ * ' ( )`. */
  predicate Unreserved(c: char) {
    || 'A' <= c <= 'Z' || 'a' <= c <= 'z' || '0' <= c <= '9'
    || c == '-' || c == '_' || c == '.' || c == '!' || c == '~'
    || c == '*' || c == '\'' || c == '(' || c == ')'
  }

  /** What an encoded string is made of: unreserved characters and `%`. */
  predicate EncodedChar(c: char) {
    Unreserved(c) || c == '%'
  }

  predicate Encoded(s: string) {
    forall i :: 0 <= i < |s| ==> EncodedChar(s[i])
  }

  predicate Byte(b: int) {
    0 <= b < 256
  }

  function HexDigit(d: int): (c: char)
    requires 0 <= d < 16
    ensures Unreserved(c)
  {
    if d < 10 then ('0' as int + d) as char else ('A' as int + d - 10) as char
  }

  /** The value of a hexadecimal digit of either case. */
  function HexValue(c: char): (d: Option<int>)
    ensures d.Some? ==> 0 <= d.value < 16
  {
    if '0' <= c <= '9' then Some(c as int - '0' as int)
    else if 'A' <= c <= 'F' then Some(c as int - 'A' as int + 10)
    else if 'a' <= c <= 'f' then Some(c as int - 'a' as int + 10)
    else None
  }

  /** The UTF-8 bytes of a code point: the payload is cut into 6-bit groups
      (`q1`, `q2`, `q3` are the code point shifted right by 6, 12, 18). */
  function Utf8(cp: int): (bytes: seq<int>)
    requires 0 <= cp < 0x11_0000
    ensures 1 <= |bytes| <= 4
    ensures forall i :: 0 <= i < |bytes| ==> Byte(bytes[i])
  {
    var q1 := cp / 64;
    var q2 := q1 / 64;
    var q3 := q2 / 64;
    if cp < 0x80 then [cp]
    else if cp < 0x800 then [0xC0 + q1, 0x80 + cp % 64]
    else if cp < 0x1_0000 then [0xE0 + q2, 0x80 + q1 % 64, 0x80 + cp % 64]
    else [0xF0 + q3, 0x80 + q2 % 64, 0x80 + q1 % 64, 0x80 + cp % 64]
  }

  /** `%XX` with upper-case hexadecimal digits. */
  function EscapeByte(b: int): (s: string)
    requires Byte(b)
    ensures |s| == 3 && s[0] == '%'
    ensures Encoded(s)
  {
    ['%', HexDigit(b / 16), HexDigit(b % 16)]
  }

  function EscapeBytes(bytes: seq<int>): (s: string)
    requires forall i :: 0 <= i < |bytes| ==> Byte(bytes[i])
    ensures Encoded(s)
  {
    if bytes == [] then [] else EscapeByte(bytes[0]) + EscapeBytes(bytes[1..])
  }

  function EncodeChar(c: char): (s: string)
    ensures |s| >= 1
    ensures Encoded(s)
  {
    if Unreserved(c) then [c] else EscapeBytes(Utf8(c as int))
  }

  /** `encodeURIComponent(s)` */
  function Enc(s: string): (r: string)
    ensures Encoded(r)
  {
    if s == [] then [] else EncodeChar(s[0]) + Enc(s[1..])
  }

  /** The byte written as `%XX` at the start of `s`, if there is one. */
  function EscapedByte(s: string): (b: Option<int>)
    ensures b.Some? ==> |s| >= 3 && Byte(b.value)
  {
    if |s| < 3 || s[0] != '%' then None
    else
      var hi :- HexValue(s[1]);
      var lo :- HexValue(s[2]);
      Some(16 * hi + lo)
  }

  /** The 6-bit payload of a continuation byte `10xxxxxx` written as `%XX`
      at the start of `s`. */
  function Continuation(s: string): (p: Option<int>)
    ensures p.Some? ==> |s| >= 3 && 0 <= p.value < 64
  {
    var b :- EscapedByte(s);
    if 0x80 <= b < 0xC0 then Some(b - 0x80) else None
  }

  /** One escaped character at the start of `s` (which starts with `%`):
      the character and the number of characters its escapes take. `None`
      where `decodeURIComponent` throws a URIError: a bad escape, a bad lead
      or continuation byte, an overlong form, a surrogate, or a code point
      above U+10FFFF. */
  function DecodeEscape(s: string): (r: Option<(char, nat)>)
    ensures r.Some? ==> 3 <= r.value.1 <= |s|
  {
    var b0 :- EscapedByte(s);
    if b0 < 0x80 then Some((b0 as char, 3))
    else if 0xC0 <= b0 < 0xE0 then DecodeTwo(b0, s[3..])
    else if 0xE0 <= b0 < 0xF0 then DecodeThree(b0, s[3..])
    else if 0xF0 <= b0 < 0xF8 then DecodeFour(b0, s[3..])
    else None
  }

  /** The rest of a two-byte sequence whose lead byte is `b0`. */
  function DecodeTwo(b0: int, s1: string): (r: Option<(char, nat)>)
    requires 0xC0 <= b0 < 0xE0
    ensures r.Some? ==> 6 <= r.value.1 <= |s1| + 3
  {
    var c1 :- Continuation(s1);
    var cp := (b0 - 0xC0) * 64 + c1;
    if cp < 0x80 then None else Some((cp as char, 6))
  }

  /** The rest of a three-byte sequence whose lead byte is `b0`. */
  function DecodeThree(b0: int, s1: string): (r: Option<(char, nat)>)
    requires 0xE0 <= b0 < 0xF0
    ensures r.Some? ==> 9 <= r.value.1 <= |s1| + 3
  {
    var c1 :- Continuation(s1);
    var c2 :- Continuation(s1[3..]);
    var cp := ((b0 - 0xE0) * 64 + c1) * 64 + c2;
    if cp < 0x800 || 0xD800 <= cp < 0xE000 then None else Some((cp as char, 9))
  }

  /** The rest of a four-byte sequence whose lead byte is `b0`. */
  function DecodeFour(b0: int, s1: string): (r: Option<(char, nat)>)
    requires 0xF0 <= b0 < 0xF8
    ensures r.Some? ==> 12 <= r.value.1 <= |s1| + 3
  {
    var c1 :- Continuation(s1);
    var c2 :- Continuation(s1[3..]);
    var c3 :- Continuation(s1[3..][3..]);
    var cp := (((b0 - 0xF0) * 64 + c1) * 64 + c2) * 64 + c3;
    if cp < 0x1_0000 || cp >= 0x11_0000 then None else Some((cp as char, 12))
  }

  /** `decodeURIComponent(s)`; `None` where it throws a URIError. Every
      character of the result takes at least one character of `s`. */
  function Dec(s: string): (r: Option<string>)
    ensures r.Some? ==> |r.value| <= |s| && (r.value == [] <==> s == [])
    decreases |s|
  {
    if s == [] then Some([])
    else if s[0] != '%' then
      var t :- Dec(s[1..]);
      Some([s[0]] + t)
    else
      var (c, n) :- DecodeEscape(s);
      var t :- Dec(s[n..]);
      Some([c] + t)
  }

  lemma HexRoundTrip(d: int)
    requires 0 <= d < 16
    ensures HexValue(HexDigit(d)) == Some(d)
  {
  }

  /** An escape at the front is read back, and takes three characters. */
  lemma EscapedByteOf(b: int, rest: string)
    requires Byte(b)
    ensures EscapedByte(EscapeByte(b) + rest) == Some(b)
    ensures (EscapeByte(b) + rest)[3..] == rest
  {
    var s := EscapeByte(b) + rest;
    HexRoundTrip(b / 16);
    HexRoundTrip(b % 16);
    assert s[1] == HexDigit(b / 16) && s[2] == HexDigit(b % 16);
  }

  lemma ContinuationOf(payload: int, rest: string)
    requires 0 <= payload < 64
    ensures Continuation(EscapeByte(0x80 + payload) + rest) == Some(payload)
    ensures (EscapeByte(0x80 + payload) + rest)[3..] == rest
  {
    EscapedByteOf(0x80 + payload, rest);
  }

  lemma DecodeTwoEscapes(b0: int, p1: int, rest: string)
    requires 0xC0 <= b0 < 0xE0 && 0 <= p1 < 64 && (b0 - 0xC0) * 64 + p1 >= 0x80
    ensures DecodeEscape(EscapeByte(b0) + (EscapeByte(0x80 + p1) + rest))
            == Some((((b0 - 0xC0) * 64 + p1) as char, 6))
  {
    var t1 := EscapeByte(0x80 + p1) + rest;
    EscapedByteOf(b0, t1);
    ContinuationOf(p1, rest);
  }

  /** An escape sequence is decoded by the reader its lead byte selects. */
  lemma DecodeEscapeLead(s: string, b0: int)
    requires EscapedByte(s) == Some(b0)
    ensures 0xE0 <= b0 < 0xF0 ==> DecodeEscape(s) == DecodeThree(b0, s[3..])
    ensures 0xF0 <= b0 < 0xF8 ==> DecodeEscape(s) == DecodeFour(b0, s[3..])
  {
  }

  /** The rest of a three-byte sequence, read from its two payloads. */
  lemma DecodeThreeOf(b0: int, s1: string, p1: int, p2: int)
    requires 0xE0 <= b0 < 0xF0 && |s1| >= 3
    requires Continuation(s1) == Some(p1) && Continuation(s1[3..]) == Some(p2)
    requires var cp := ((b0 - 0xE0) * 64 + p1) * 64 + p2; cp >= 0x800 && !(0xD800 <= cp < 0xE000)
    ensures DecodeThree(b0, s1) == Some(((((b0 - 0xE0) * 64 + p1) * 64 + p2) as char, 9))
  {
  }

  lemma DecodeThreeEscapes(b0: int, p1: int, p2: int, rest: string)
    requires 0xE0 <= b0 < 0xF0 && 0 <= p1 < 64 && 0 <= p2 < 64
    requires var cp := ((b0 - 0xE0) * 64 + p1) * 64 + p2; cp >= 0x800 && !(0xD800 <= cp < 0xE000)
    ensures DecodeEscape(EscapeByte(b0) + (EscapeByte(0x80 + p1) + (EscapeByte(0x80 + p2) + rest)))
            == Some(((((b0 - 0xE0) * 64 + p1) * 64 + p2) as char, 9))
  {
    var t2 := EscapeByte(0x80 + p2) + rest;
    var t1 := EscapeByte(0x80 + p1) + t2;
    EscapedByteOf(b0, t1);
    ContinuationOf(p1, t2);
    ContinuationOf(p2, rest);
    DecodeThreeOf(b0, t1, p1, p2);
    DecodeEscapeLead(EscapeByte(b0) + t1, b0);
  }

  /** The rest of a four-byte sequence, read from its three payloads. */
  lemma DecodeFourOf(b0: int, s1: string, p1: int, p2: int, p3: int)
    requires 0xF0 <= b0 < 0xF8 && |s1| >= 6
    requires Continuation(s1) == Some(p1) && Continuation(s1[3..]) == Some(p2)
    requires Continuation(s1[3..][3..]) == Some(p3)
    requires var cp := (((b0 - 0xF0) * 64 + p1) * 64 + p2) * 64 + p3; 0x1_0000 <= cp < 0x11_0000
    ensures DecodeFour(b0, s1) == Some((((((b0 - 0xF0) * 64 + p1) * 64 + p2) * 64 + p3) as char, 12))
  {
  }

  lemma DecodeFourEscapes(b0: int, p1: int, p2: int, p3: int, rest: string)
    requires 0xF0 <= b0 < 0xF8 && 0 <= p1 < 64 && 0 <= p2 < 64 && 0 <= p3 < 64
    requires var cp := (((b0 - 0xF0) * 64 + p1) * 64 + p2) * 64 + p3; 0x1_0000 <= cp < 0x11_0000
    ensures DecodeEscape(EscapeByte(b0) + (EscapeByte(0x80 + p1) + (EscapeByte(0x80 + p2) + (EscapeByte(0x80 + p3) + rest))))
            == Some((((((b0 - 0xF0) * 64 + p1) * 64 + p2) * 64 + p3) as char, 12))
  {
    var t3 := EscapeByte(0x80 + p3) + rest;
    var t2 := EscapeByte(0x80 + p2) + t3;
    var t1 := EscapeByte(0x80 + p1) + t2;
    EscapedByteOf(b0, t1);
    ContinuationOf(p1, t2);
    ContinuationOf(p2, t3);
    ContinuationOf(p3, rest);
    DecodeFourOf(b0, t1, p1, p2, p3);
    DecodeEscapeLead(EscapeByte(b0) + t1, b0);
  }

  /** The escapes of one more byte in front. */
  lemma EscapeBytesCons(b: int, bs: seq<int>, rest: string)
    requires Byte(b) && forall i :: 0 <= i < |bs| ==> Byte(bs[i])
    ensures EscapeBytes([b] + bs) + rest == EscapeByte(b) + (EscapeBytes(bs) + rest)
    ensures |EscapeBytes([b] + bs)| == 3 + |EscapeBytes(bs)|
  {
    assert ([b] + bs)[1..] == bs;
  }

  lemma EscapeBytes2(a: int, b: int, rest: string)
    requires Byte(a) && Byte(b)
    ensures EscapeBytes([a, b]) + rest == EscapeByte(a) + (EscapeByte(b) + rest)
    ensures |EscapeBytes([a, b])| == 6
  {
    EscapeBytesCons(b, [], rest);
    assert [b] + [] == [b];
    EscapeBytesCons(a, [b], rest);
    assert [a] + [b] == [a, b];
  }

  lemma EscapeBytes3(a: int, b: int, c: int, rest: string)
    requires Byte(a) && Byte(b) && Byte(c)
    ensures EscapeBytes([a, b, c]) + rest == EscapeByte(a) + (EscapeByte(b) + (EscapeByte(c) + rest))
    ensures |EscapeBytes([a, b, c])| == 9
  {
    EscapeBytes2(b, c, rest);
    EscapeBytesCons(a, [b, c], rest);
    assert [a] + [b, c] == [a, b, c];
  }

  lemma EscapeBytes4(a: int, b: int, c: int, d: int, rest: string)
    requires Byte(a) && Byte(b) && Byte(c) && Byte(d)
    ensures EscapeBytes([a, b, c, d]) + rest
            == EscapeByte(a) + (EscapeByte(b) + (EscapeByte(c) + (EscapeByte(d) + rest)))
    ensures |EscapeBytes([a, b, c, d])| == 12
  {
    EscapeBytes3(b, c, d, rest);
    EscapeBytesCons(a, [b, c, d], rest);
    assert [a] + [b, c, d] == [a, b, c, d];
  }

  /** The UTF-8 bytes of a three-byte code point, and how they add back up. */
  lemma Utf8Three(cp: int)
    requires 0x800 <= cp < 0x1_0000
    ensures var q1 := cp / 64; var q2 := q1 / 64;
      && 0 <= q2 < 16
      && Utf8(cp) == [0xE0 + q2, 0x80 + q1 % 64, 0x80 + cp % 64]
      && (q2 * 64 + q1 % 64) * 64 + cp % 64 == cp
  {
  }

  lemma Utf8Four(cp: int)
    requires 0x1_0000 <= cp < 0x11_0000
    ensures var q1 := cp / 64; var q2 := q1 / 64; var q3 := q2 / 64;
      && 0 <= q3 < 5
      && Utf8(cp) == [0xF0 + q3, 0x80 + q2 % 64, 0x80 + q1 % 64, 0x80 + cp % 64]
      && ((q3 * 64 + q2 % 64) * 64 + q1 % 64) * 64 + cp % 64 == cp
  {
  }

  lemma DecodeTwoBytes(cp: int, rest: string)
    requires 0x80 <= cp < 0x800
    ensures |EscapeBytes(Utf8(cp))| == 6
    ensures DecodeEscape(EscapeBytes(Utf8(cp)) + rest) == Some((cp as char, 6))
  {
    assert Utf8(cp) == [0xC0 + cp / 64, 0x80 + cp % 64];
    EscapeBytes2(0xC0 + cp / 64, 0x80 + cp % 64, rest);
    DecodeTwoEscapes(0xC0 + cp / 64, cp % 64, rest);
  }

  /** A three-byte sequence given by its lead byte and payloads. */
  lemma DecodeThreeParts(cp: int, b0: int, p1: int, p2: int, rest: string)
    requires 0xE0 <= b0 < 0xF0 && 0 <= p1 < 64 && 0 <= p2 < 64
    requires cp == ((b0 - 0xE0) * 64 + p1) * 64 + p2
    requires 0x800 <= cp < 0x1_0000 && !(0xD800 <= cp < 0xE000)
    requires Utf8(cp) == [b0, 0x80 + p1, 0x80 + p2]
    ensures |EscapeBytes(Utf8(cp))| == 9
    ensures DecodeEscape(EscapeBytes(Utf8(cp)) + rest) == Some((cp as char, 9))
  {
    EscapeBytes3(b0, 0x80 + p1, 0x80 + p2, rest);
    DecodeThreeEscapes(b0, p1, p2, rest);
  }

  lemma DecodeThreeBytes(cp: int, rest: string)
    requires 0x800 <= cp < 0x1_0000 && !(0xD800 <= cp < 0xE000)
    ensures |EscapeBytes(Utf8(cp))| == 9
    ensures DecodeEscape(EscapeBytes(Utf8(cp)) + rest) == Some((cp as char, 9))
  {
    Utf8Three(cp);
    DecodeThreeParts(cp, 0xE0 + cp / 64 / 64, cp / 64 % 64, cp % 64, rest);
  }

  /** A four-byte sequence given by its lead byte and payloads. */
  lemma DecodeFourParts(cp: int, b0: int, p1: int, p2: int, p3: int, rest: string)
    requires 0xF0 <= b0 < 0xF8 && 0 <= p1 < 64 && 0 <= p2 < 64 && 0 <= p3 < 64
    requires cp == (((b0 - 0xF0) * 64 + p1) * 64 + p2) * 64 + p3
    requires 0x1_0000 <= cp < 0x11_0000
    requires Utf8(cp) == [b0, 0x80 + p1, 0x80 + p2, 0x80 + p3]
    ensures |EscapeBytes(Utf8(cp))| == 12
    ensures DecodeEscape(EscapeBytes(Utf8(cp)) + rest) == Some((cp as char, 12))
  {
    EscapeBytes4(b0, 0x80 + p1, 0x80 + p2, 0x80 + p3, rest);
    DecodeFourEscapes(b0, p1, p2, p3, rest);
  }

  lemma DecodeFourBytes(cp: int, rest: string)
    requires 0x1_0000 <= cp < 0x11_0000
    ensures |EscapeBytes(Utf8(cp))| == 12
    ensures DecodeEscape(EscapeBytes(Utf8(cp)) + rest) == Some((cp as char, 12))
  {
    Utf8Four(cp);
    DecodeFourParts(cp, 0xF0 + cp / 64 / 64 / 64, cp / 64 / 64 % 64, cp / 64 % 64, cp % 64, rest);
  }

  /** None of the characters that delimit a URL query or a context string,
      or that stand for a space in a form, appears in encoded text. */
  lemma EncodedHasNoDelimiter(e: string)
    requires Encoded(e)
    ensures '&' !in e && '=' !in e && '+' !in e && '#' !in e && '|' !in e
  {
    assert forall i :: 0 <= i < |e| ==> EncodedChar(e[i]);
  }

  /** The escapes of one character decode back to that character. */
  lemma DecodeEscapeOf(c: char, rest: string)
    requires !Unreserved(c)
    ensures DecodeEscape(EncodeChar(c) + rest) == Some((c, |EncodeChar(c)|))
  {
    var cp := c as int;
    if cp < 0x80 {
      assert Utf8(cp) == [cp] && Utf8(cp)[1..] == [];
      EscapedByteOf(cp, rest);
    } else if cp < 0x800 {
      DecodeTwoBytes(cp, rest);
    } else if cp < 0x1_0000 {
      DecodeThreeBytes(cp, rest);
    } else {
      DecodeFourBytes(cp, rest);
    }
  }

  /** Decoding an encoded character in front of decodable text. */
  lemma DecEncodeChar(c: char, e: string, tail: string)
    requires Dec(e) == Some(tail)
    ensures Dec(EncodeChar(c) + e) == Some([c] + tail)
  {
    var t := EncodeChar(c) + e;
    if Unreserved(c) {
      assert t[0] == c && t[1..] == e;
    } else {
      DecodeEscapeOf(c, e);
      assert t[0] == '%';
      assert t[|EncodeChar(c)|..] == e;
    }
  }

  /** Decoding undoes encoding, for every string. */
  lemma {:induction false} DecEnc(s: string)
    ensures Dec(Enc(s)) == Some(s)
    decreases |s|
  {
    if s != [] {
      DecEnc(s[1..]);
      DecEncodeChar(s[0], Enc(s[1..]), s[1..]);
      assert Enc(s) == EncodeChar(s[0]) + Enc(s[1..]);
      assert [s[0]] + s[1..] == s;
    }
  }

  /** Inputs on which `decodeURIComponent` throws: a lone `%`, an overlong
      two-byte form of U+0000, and an escaped surrogate half. */
  lemma DecThrows()
    ensures Dec("%") == None
    ensures Dec("%C0%80") == None
    ensures Dec("%ED%A0%80") == None
  {
    assert DecodeEscape("%") == None;
    assert EscapedByte("%C0%80") == Some(0xC0);
    assert Continuation("%80") == Some(0);
    assert DecodeEscape("%C0%80") == None;
    assert EscapedByte("%ED%A0%80") == Some(0xED);
    assert Continuation("%A0%80") == Some(0x20);
    assert Continuation("%A0%80"[3..]) == Some(0);
    assert DecodeEscape("%ED%A0%80") == None;
  }

  /** A string without `%` decodes to itself. */
  lemma {:induction false} DecWithoutPercent(s: string)
    requires '%' !in s
    ensures Dec(s) == Some(s)
    decreases |s|
  {
    if s != [] {
      DecWithoutPercent(s[1..]);
      assert [s[0]] + s[1..] == s;
    }
  }

  /** A string of unreserved characters encodes to itself. */
  lemma {:induction false} EncUnreserved(s: string)
    requires forall i :: 0 <= i < |s| ==> Unreserved(s[i])
    ensures Enc(s) == s
    decreases |s|
  {
    if s != [] {
      EncUnreserved(s[1..]);
      assert [s[0]] + s[1..] == s;
    }
  }

  /** Encoding is injective, and the empty string is the only string that
      encodes to the empty string. */
  lemma EncInjective(s: string, t: string)
    ensures Enc(s) == Enc(t) ==> s == t
    ensures Enc(s) == [] <==> s == []
  {
    DecEnc(s);
    DecEnc(t);
    if s != [] {
      assert |EncodeChar(s[0])| >= 1;
    }
  }
}
