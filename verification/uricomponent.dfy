/**
  `encodeURIComponent` as section 19.2.6.5 of ECMA-262 defines it: characters
  of the unreserved set stand for themselves, every other character is written
  as the `%XX` escapes of its UTF-8 bytes, with upper-case hex digits.

  `Decode` reads such text back the way a query-string value is read
  (`application/x-www-form-urlencoded`: `+` is a space, `%XX` escapes are
  UTF-8 bytes), returning `None` where the input is not well formed.
 */
module UriComponent {
  import opened Entities

  /** The characters `encodeURIComponent` leaves as they are:
      `A-Z a-z 0-9 - _ . ! ~ * ' ( )`. */
  predicate Unreserved(c: char) {
    || ('A' <= c <= 'Z') || ('a' <= c <= 'z') || ('0' <= c <= '9')
    || c == '-' || c == '_' || c == '.' || c == '!' || c == '~' || c == '*'
    || c == '\'' || c == '(' || c == ')'
  }

  /** An upper-case hexadecimal digit. */
  predicate IsHexDigit(c: char) {
    ('0' <= c <= '9') || ('A' <= c <= 'F')
  }

  /** The digit for `d`, upper case as the encoder writes it. */
  function HexDigit(d: nat): (c: char)
    requires d < 16
    ensures IsHexDigit(c)
  {
    if d < 10 then ('0' as int + d) as char else ('A' as int + d - 10) as char
  }

  /** The value of a hexadecimal digit of either case. */
  function HexValue(c: char): (v: Option<nat>)
    ensures v.Some? ==> v.value < 16
  {
    if '0' <= c <= '9' then Some(c as int - '0' as int)
    else if 'A' <= c <= 'F' then Some(c as int - 'A' as int + 10)
    else if 'a' <= c <= 'f' then Some(c as int - 'a' as int + 10)
    else None
  }

  lemma HexDigitValue(d: nat)
    requires d < 16
    ensures HexValue(HexDigit(d)) == Some(d)
  {
  }

  /** The UTF-8 encoding of one Unicode scalar value (section 3.9 of the
      Unicode Standard). */
  function Utf8(c: char): (bs: seq<nat>)
    ensures 1 <= |bs| <= 4
    ensures forall i :: 0 <= i < |bs| ==> bs[i] < 256
  {
    var cp := c as int;
    if cp < 0x80 then [cp]
    else if cp < 0x800 then [0xC0 + cp / 64, 0x80 + cp % 64]
    else if cp < 0x10000 then [0xE0 + cp / 4096, 0x80 + (cp / 64) % 64, 0x80 + cp % 64]
    else [0xF0 + cp / 262144, 0x80 + (cp / 4096) % 64, 0x80 + (cp / 64) % 64, 0x80 + cp % 64]
  }

  /** `%XX` for one byte. */
  function Escape(b: nat): (e: string)
    requires b < 256
    ensures |e| == 3 && e[0] == '%' && IsHexDigit(e[1]) && IsHexDigit(e[2])
  {
    ['%', HexDigit(b / 16), HexDigit(b % 16)]
  }

  function EscapeAll(bs: seq<nat>): (e: string)
    requires forall i :: 0 <= i < |bs| ==> bs[i] < 256
    ensures |e| == 3 * |bs|
    ensures forall i :: 0 <= i < |bs| ==> e[3 * i..3 * i + 3] == Escape(bs[i])
  {
    if bs == [] then []
    else
      var tail := EscapeAll(bs[1..]);
      var e := Escape(bs[0]) + tail;
      assert forall i :: 1 <= i < |bs| ==> e[3 * i..3 * i + 3] == tail[3 * (i - 1)..3 * (i - 1) + 3];
      e
  }

  /** The encoding of one character. */
  function EncodeChar(c: char): (e: string)
    ensures Unreserved(c) ==> e == [c]
    ensures !Unreserved(c) ==> e == EscapeAll(Utf8(c))
  {
    if Unreserved(c) then [c] else EscapeAll(Utf8(c))
  }

  /** `encodeURIComponent(s)`. */
  function Encode(s: string): (e: string)
    ensures |s| <= |e| <= 12 * |s|
    ensures s == [] ==> e == []
    ensures s != [] ==> e == EncodeChar(s[0]) + Encode(s[1..])
  {
    if s == [] then [] else EncodeChar(s[0]) + Encode(s[1..])
  }

  /** Text that can stand as a query-string value unchanged: only unreserved
      characters and `%XX` escapes, so no `&`, `=`, `#`, `+`, `?`, `/` or space. */
  predicate QuerySafe(e: string) {
    forall i :: 0 <= i < |e| ==> Unreserved(e[i]) || e[i] == '%' || IsHexDigit(e[i])
  }

  lemma {:induction false} EscapesAreQuerySafe(bs: seq<nat>)
    requires forall i :: 0 <= i < |bs| ==> bs[i] < 256
    ensures QuerySafe(EscapeAll(bs))
    decreases |bs|
  {
    if bs != [] {
      EscapesAreQuerySafe(bs[1..]);
      QuerySafeAppend(Escape(bs[0]), EscapeAll(bs[1..]));
    }
  }

  lemma QuerySafeAppend(a: string, b: string)
    requires QuerySafe(a) && QuerySafe(b)
    ensures QuerySafe(a + b)
  {
    assert forall i :: |a| <= i < |a + b| ==> (a + b)[i] == b[i - |a|];
  }

  /** Whatever the username, its encoding ends the query string intact: it
      holds no character that separates, ends or re-reads a query value. */
  lemma {:induction false} EncodeIsQuerySafe(s: string)
    ensures QuerySafe(Encode(s))
    decreases |s|
  {
    if s != [] {
      EncodeIsQuerySafe(s[1..]);
      if !Unreserved(s[0]) {
        EscapesAreQuerySafe(Utf8(s[0]));
      }
      QuerySafeAppend(EncodeChar(s[0]), Encode(s[1..]));
    }
  }

  /** The byte escaped at position `i` of `s`, if `s` has a well-formed `%XX` there. */
  function ReadByte(s: string, i: nat): (b: Option<nat>)
    ensures b.Some? ==> b.value < 256
  {
    if i + 3 <= |s| && s[i] == '%' && HexValue(s[i + 1]).Some? && HexValue(s[i + 2]).Some? then
      Some(16 * HexValue(s[i + 1]).value + HexValue(s[i + 2]).value)
    else None
  }

  /** A continuation byte `10xxxxxx` at position `i`: its six payload bits. */
  function ReadContinuation(s: string, i: nat): (v: Option<nat>)
    ensures v.Some? ==> v.value < 64
  {
    var b := ReadByte(s, i);
    if b.Some? && 0x80 <= b.value < 0xC0 then Some(b.value - 0x80) else None
  }

  /** A Unicode scalar value: a code point that is not a surrogate. */
  predicate IsScalar(cp: int) {
    0 <= cp < 0xD800 || 0xE000 <= cp < 0x11_0000
  }

  function ToChar(cp: int): Option<char> {
    if IsScalar(cp) then Some(cp as char) else None
  }

  /** The character for `cp` when it is a scalar value of at least `least`: a
      sequence whose value is below the least one its length can carry is an
      overlong form, which a UTF-8 decoder must reject (table 3-7 in section
      3.9 of the Unicode Standard). */
  function ShortestChar(cp: int, least: int): (r: Option<char>)
    ensures r.Some? <==> least <= cp && IsScalar(cp)
    ensures r.Some? ==> r.value as int == cp
  {
    if least <= cp then ToChar(cp) else None
  }

  /** One decoded character and the number of input characters it took. */
  datatype Step = Step(c: char, width: nat)

  /** Reads the character at the start of `s`: a literal, a `+`, or the escapes
      of one UTF-8 sequence in its shortest form. */
  function DecodeStep(s: string): (r: Option<Step>)
    requires s != []
    ensures r.Some? ==> 1 <= r.value.width <= |s|
  {
    if s[0] == '+' then Some(Step(' ', 1))
    else if s[0] != '%' then Some(Step(s[0], 1))
    else match ReadByte(s, 0)
      case None => None
      case Some(b0) =>
        if b0 < 0x80 then Some(Step(b0 as char, 3))
        else if 0xC2 <= b0 < 0xE0 then
          match ReadContinuation(s, 3)
          case None => None
          case Some(v1) =>
            match ToChar((b0 - 0xC0) * 64 + v1)
            case None => None
            case Some(c) => Some(Step(c, 6))
        else if 0xE0 <= b0 < 0xF0 then
          match (ReadContinuation(s, 3), ReadContinuation(s, 6))
          case (Some(v1), Some(v2)) =>
            (match ShortestChar((b0 - 0xE0) * 4096 + v1 * 64 + v2, 0x800)
             case None => None
             case Some(c) => Some(Step(c, 9)))
          case _ => None
        else if 0xF0 <= b0 < 0xF8 then
          match (ReadContinuation(s, 3), ReadContinuation(s, 6), ReadContinuation(s, 9))
          case (Some(v1), Some(v2), Some(v3)) =>
            (match ShortestChar((b0 - 0xF0) * 262144 + v1 * 4096 + v2 * 64 + v3, 0x10000)
             case None => None
             case Some(c) => Some(Step(c, 12)))
          case _ => None
        else None
  }

  /** An escaped character is read only in its shortest form: the number of
      escapes it took is the length of its UTF-8 encoding. */
  lemma DecodeStepShortest(s: string)
    requires s != [] && s[0] == '%' && DecodeStep(s).Some?
    ensures DecodeStep(s).value.width == 3 * |Utf8(DecodeStep(s).value.c)|
  {
    var b0 := ReadByte(s, 0).value;
    if 0xC2 <= b0 < 0xE0 {
      var v1 := ReadContinuation(s, 3).value;
      assert 0x80 <= (b0 - 0xC0) * 64 + v1 < 0x800;
    }
  }

  /** The overlong two-byte form of U+0000 is not a character. */
  lemma OverlongRejected()
    ensures Decode("%C0%80") == None
  {
    assert ReadByte("%C0%80", 0) == Some(0xC0);
  }

  /** Decoding a query-string value; `None` on a malformed escape. */
  function Decode(s: string): Option<string>
    decreases |s|
  {
    if s == [] then Some([])
    else match DecodeStep(s)
      case None => None
      case Some(step) =>
        match Decode(s[step.width..])
        case None => None
        case Some(rest) => Some([step.c] + rest)
  }

  /** An escape written by `Escape` reads back as its byte. */
  lemma ReadEscape(s: string, i: nat, b: nat)
    requires b < 256 && i + 3 <= |s| && s[i..i + 3] == Escape(b)
    ensures ReadByte(s, i) == Some(b)
  {
    assert s[i] == '%' && s[i + 1] == HexDigit(b / 16) && s[i + 2] == HexDigit(b % 16);
    HexDigitValue(b / 16);
    HexDigitValue(b % 16);
  }

  /** Each escape of a UTF-8 sequence reads back as its byte. */
  lemma ReadEscapes(c: char, rest: string, j: nat)
    requires !Unreserved(c) && j < |Utf8(c)|
    ensures ReadByte(EncodeChar(c) + rest, 3 * j) == Some(Utf8(c)[j])
  {
    var s := EncodeChar(c) + rest;
    var bs := Utf8(c);
    assert s[3 * j..3 * j + 3] == EscapeAll(bs)[3 * j..3 * j + 3];
    ReadEscape(s, 3 * j, bs[j]);
  }

  lemma DecodeTwoBytes(c: char, rest: string)
    requires !Unreserved(c) && 0x80 <= c as int < 0x800
    ensures DecodeStep(EncodeChar(c) + rest) == Some(Step(c, 6))
  {
    var s := EncodeChar(c) + rest;
    var bs := Utf8(c);
    ReadEscapes(c, rest, 0);
    ReadEscapes(c, rest, 1);
    assert ReadContinuation(s, 3) == Some(bs[1] - 0x80);
    assert (bs[0] - 0xC0) * 64 + (bs[1] - 0x80) == c as int;
  }

  lemma DecodeThreeBytes(c: char, rest: string)
    requires !Unreserved(c) && 0x800 <= c as int < 0x10000
    ensures DecodeStep(EncodeChar(c) + rest) == Some(Step(c, 9))
  {
    var s := EncodeChar(c) + rest;
    var bs := Utf8(c);
    ReadEscapes(c, rest, 0);
    ReadEscapes(c, rest, 1);
    ReadEscapes(c, rest, 2);
    Utf8Three(c);
    StepOfThree(s, bs[0], bs[1] - 0x80, bs[2] - 0x80);
  }

  /** The three bytes of a character from U+0800 to U+FFFF and their payload. */
  lemma Utf8Three(c: char)
    requires 0x800 <= c as int < 0x10000
    ensures |Utf8(c)| == 3
    ensures 0xE0 <= Utf8(c)[0] < 0xF0 && 0x80 <= Utf8(c)[1] < 0xC0 && 0x80 <= Utf8(c)[2] < 0xC0
    ensures (Utf8(c)[0] - 0xE0) * 4096 + (Utf8(c)[1] - 0x80) * 64 + (Utf8(c)[2] - 0x80) == c as int
  {
    SplitTwelveBits(c as int);
  }

  /** A three-byte sequence read at the start of `s`. */
  lemma StepOfThree(s: string, b0: nat, v1: nat, v2: nat)
    requires s != [] && ReadByte(s, 0) == Some(b0) && 0xE0 <= b0 < 0xF0
    requires ReadContinuation(s, 3) == Some(v1) && ReadContinuation(s, 6) == Some(v2)
    requires IsScalar((b0 - 0xE0) * 4096 + v1 * 64 + v2) && 0x800 <= (b0 - 0xE0) * 4096 + v1 * 64 + v2
    ensures DecodeStep(s) == Some(Step(((b0 - 0xE0) * 4096 + v1 * 64 + v2) as char, 9))
  {
  }

  lemma DecodeFourBytes(c: char, rest: string)
    requires !Unreserved(c) && 0x10000 <= c as int
    ensures DecodeStep(EncodeChar(c) + rest) == Some(Step(c, 12))
  {
    var s := EncodeChar(c) + rest;
    var bs := Utf8(c);
    ReadEscapes(c, rest, 0);
    ReadEscapes(c, rest, 1);
    ReadEscapes(c, rest, 2);
    ReadEscapes(c, rest, 3);
    Utf8Four(c);
    StepOfFour(s, bs[0], bs[1] - 0x80, bs[2] - 0x80, bs[3] - 0x80);
  }

  /** The four bytes of a character from U+10000 up and their payload. */
  lemma Utf8Four(c: char)
    requires 0x10000 <= c as int
    ensures |Utf8(c)| == 4
    ensures 0xF0 <= Utf8(c)[0] < 0xF8 && 0x80 <= Utf8(c)[1] < 0xC0
    ensures 0x80 <= Utf8(c)[2] < 0xC0 && 0x80 <= Utf8(c)[3] < 0xC0
    ensures (Utf8(c)[0] - 0xF0) * 262144 + (Utf8(c)[1] - 0x80) * 4096 + (Utf8(c)[2] - 0x80) * 64 + (Utf8(c)[3] - 0x80) == c as int
  {
    SplitSixBits(c as int);
  }

  /** A four-byte sequence read at the start of `s`. */
  lemma StepOfFour(s: string, b0: nat, v1: nat, v2: nat, v3: nat)
    requires s != [] && ReadByte(s, 0) == Some(b0) && 0xF0 <= b0 < 0xF8
    requires ReadContinuation(s, 3) == Some(v1) && ReadContinuation(s, 6) == Some(v2)
    requires ReadContinuation(s, 9) == Some(v3)
    requires IsScalar((b0 - 0xF0) * 262144 + v1 * 4096 + v2 * 64 + v3) && 0x10000 <= (b0 - 0xF0) * 262144 + v1 * 4096 + v2 * 64 + v3
    ensures DecodeStep(s) == Some(Step(((b0 - 0xF0) * 262144 + v1 * 4096 + v2 * 64 + v3) as char, 12))
  {
  }

  /** A code point below 0x10000 is the sum of its 6-bit groups. */
  lemma SplitTwelveBits(cp: nat)
    ensures cp / 4096 * 4096 + (cp / 64) % 64 * 64 + cp % 64 == cp
  {
    var q1 := cp / 64;
    assert cp == 64 * q1 + cp % 64;
    assert q1 == 64 * (q1 / 64) + q1 % 64;
    assert q1 / 64 == cp / 4096;
  }

  /** A code point is the sum of its 6-bit groups. */
  lemma SplitSixBits(cp: nat)
    ensures cp / 262144 * 262144 + (cp / 4096) % 64 * 4096 + (cp / 64) % 64 * 64 + cp % 64 == cp
  {
    var q1 := cp / 64;
    var q2 := q1 / 64;
    var q3 := q2 / 64;
    assert cp == 64 * q1 + cp % 64;
    assert q1 == 64 * q2 + q1 % 64;
    assert q2 == 64 * q3 + q2 % 64;
    assert q2 == cp / 4096;
    assert q3 == cp / 262144;
  }

  /** The encoding of a character, followed by anything, decodes to that
      character first and takes exactly the encoding's length. */
  lemma DecodeEncodedChar(c: char, rest: string)
    ensures DecodeStep(EncodeChar(c) + rest) == Some(Step(c, |EncodeChar(c)|))
  {
    var cp := c as int;
    if !Unreserved(c) {
      if cp < 0x80 {
        ReadEscapes(c, rest, 0);
      } else if cp < 0x800 {
        DecodeTwoBytes(c, rest);
      } else if cp < 0x10000 {
        DecodeThreeBytes(c, rest);
      } else {
        DecodeFourBytes(c, rest);
      }
    }
  }

  /** Decoding the encoding gives back the original text: no two names are
      sent as the same query value. */
  lemma {:induction false} DecodeEncode(s: string)
    ensures Decode(Encode(s)) == Some(s)
    decreases |s|
  {
    if s != [] {
      var head := EncodeChar(s[0]);
      var tail := Encode(s[1..]);
      DecodeEncodedChar(s[0], tail);
      DecodeEncode(s[1..]);
      DecodeAfterStep(head, tail, s[0], s[1..]);
      assert [s[0]] + s[1..] == s;
    }
  }

  /** A step that reads exactly `head`, followed by a decodable `tail`. */
  lemma DecodeAfterStep(head: string, tail: string, c: char, rest: string)
    requires head != [] && DecodeStep(head + tail) == Some(Step(c, |head|))
    requires Decode(tail) == Some(rest)
    ensures Decode(head + tail) == Some([c] + rest)
  {
    assert (head + tail)[|head|..] == tail;
  }

  /** `encodeURIComponent` is injective. */
  lemma EncodeInjective(s: string, t: string)
    requires Encode(s) == Encode(t)
    ensures s == t
  {
    DecodeEncode(s);
    DecodeEncode(t);
  }
}
