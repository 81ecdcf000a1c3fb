/** `encodeURIComponent` and `decodeURIComponent` as ECMA-262 defines them
    (section 19.2.6, "URI Handling Functions"), over strings of Unicode scalar
    values: a character outside the unreserved set is written as the `%XX`
    escapes of its UTF-8 bytes. */
module UriComponent {
  import opened Js

  type Byte = x: int | 0 <= x < 256

  /** The characters `encodeURIComponent` copies unchanged. */
  predicate Unreserved(c: char) {
    || ('A' <= c <= 'Z')
    || ('a' <= c <= 'z')
    || ('0' <= c <= '9')
    || c in "-_.!~*'()"
  }

  const HexDigits: string := "0123456789ABCDEF"

  /** The characters an encoded component can contain. */
  predicate EncodedChar(c: char) {
    Unreserved(c) || c == '%' || c in HexDigits
  }

  function HexDigit(d: int): (c: char)
    requires 0 <= d < 16
    ensures c in HexDigits
  {
    HexDigits[d]
  }

  /** The value of a hexadecimal digit in either case. */
  function HexValue(c: char): (r: Option<int>)
    ensures r.Some? ==> 0 <= r.value < 16
  {
    if '0' <= c <= '9' then Some(c as int - '0' as int)
    else if 'A' <= c <= 'F' then Some(c as int - 'A' as int + 10)
    else if 'a' <= c <= 'f' then Some(c as int - 'a' as int + 10)
    else None
  }

  lemma HexDigitValue(d: int)
    requires 0 <= d < 16
    ensures HexValue(HexDigit(d)) == Some(d)
  {
    assert HexDigits[0] == '0' && HexDigits[1] == '1' && HexDigits[2] == '2' && HexDigits[3] == '3';
    assert HexDigits[4] == '4' && HexDigits[5] == '5' && HexDigits[6] == '6' && HexDigits[7] == '7';
    assert HexDigits[8] == '8' && HexDigits[9] == '9' && HexDigits[10] == 'A' && HexDigits[11] == 'B';
    assert HexDigits[12] == 'C' && HexDigits[13] == 'D' && HexDigits[14] == 'E' && HexDigits[15] == 'F';
  }

  /** Whether `cp` is a Unicode scalar value (a code point that is not a surrogate). */
  predicate IsScalar(cp: int) {
    (0 <= cp < 0xD800) || (0xE000 <= cp < 0x11_0000)
  }

  /** The UTF-8 encoding of one character. */
  function Utf8(c: char): (bs: seq<Byte>)
    ensures 1 <= |bs| <= 4
    ensures |bs| == SequenceLength(bs[0])
    ensures forall k :: 1 <= k < |bs| ==> 0x80 <= bs[k] < 0xC0
  {
    var cp := c as int;
    if cp < 0x80 then [cp]
    else if cp < 0x800 then [Lead(cp, 2), Continuation(cp)]
    else if cp < 0x1_0000 then [Lead(cp, 3), Continuation(cp / 64), Continuation(cp)]
    else [Lead(cp, 4), Continuation(cp / 4096), Continuation(cp / 64), Continuation(cp)]
  }

  /** The lead byte of the `n`-byte sequence for code point `cp`: its marker
      bits followed by the bits of `cp` the continuation bytes do not carry. */
  function Lead(cp: nat, n: nat): (b: Byte)
    requires 2 <= n <= 4 && MinCodePoint(n) <= cp < MinCodePoint(n + 1)
    ensures SequenceLength(b) == n
    ensures n == 2 ==> LeadBits(b, n) == cp / 64
    ensures n == 3 ==> LeadBits(b, n) == cp / 4096
    ensures n == 4 ==> LeadBits(b, n) == cp / 262144
  {
    if n == 2 then 0xC0 + cp / 64 else if n == 3 then 0xE0 + cp / 4096 else 0xF0 + cp / 262144
  }

  /** The continuation byte carrying the low six bits of `x`. */
  function Continuation(x: nat): (b: Byte)
    ensures 0x80 <= b < 0xC0
  {
    0x80 + x % 64
  }

  /** The number of bytes of the UTF-8 sequence a lead byte opens;
      0 for a byte that cannot open one. */
  function SequenceLength(b: Byte): nat {
    if b < 0x80 then 1
    else if 0xC0 <= b < 0xE0 then 2
    else if 0xE0 <= b < 0xF0 then 3
    else if 0xF0 <= b < 0xF8 then 4
    else 0
  }

  /** The payload bits of a lead byte opening a sequence of `n` bytes. */
  function LeadBits(b: Byte, n: nat): int {
    if n == 1 then b else if n == 2 then b - 0xC0 else if n == 3 then b - 0xE0 else b - 0xF0
  }

  /** The smallest code point that needs a sequence of `n` bytes (overlong forms are rejected). */
  function MinCodePoint(n: nat): int {
    if n <= 1 then 0 else if n == 2 then 0x80 else if n == 3 then 0x800 else if n == 4 then 0x1_0000 else 0x11_0000
  }

  /** The `%XX` escape of one byte, upper-case hex as `encodeURIComponent` writes it. */
  function Escape(b: Byte): (t: string)
    ensures |t| == 3
  {
    ['%', HexDigit(b / 16), HexDigit(b % 16)]
  }

  function Escapes(bs: seq<Byte>): (t: string)
    ensures |t| == 3 * |bs|
  {
    if bs == [] then [] else Escape(bs[0]) + Escapes(bs[1..])
  }

  function EncodeChar(c: char): string {
    if Unreserved(c) then [c] else Escapes(Utf8(c))
  }

  /** `encodeURIComponent(s)`. */
  function Encode(s: string): (t: string)
    ensures forall i :: 0 <= i < |t| ==> EncodedChar(t[i])
  {
    if s == [] then []
    else
      EncodeCharAlphabet(s[0]);
      EncodeChar(s[0]) + Encode(s[1..])
  }

  lemma EncodeCharAlphabet(c: char)
    ensures forall i :: 0 <= i < |EncodeChar(c)| ==> EncodedChar(EncodeChar(c)[i])
  {
    if !Unreserved(c) {
      EscapesAlphabet(Utf8(c));
    }
  }

  lemma {:induction false} EscapesAlphabet(bs: seq<Byte>)
    ensures forall i :: 0 <= i < |Escapes(bs)| ==> EncodedChar(Escapes(bs)[i])
    decreases |bs|
  {
    if bs != [] {
      EscapesAlphabet(bs[1..]);
    }
  }

  /** The byte an escape `%XX` at position `i` of `s` stands for. */
  function ReadByte(s: string, i: nat): (r: Option<Byte>)
    ensures r.Some? ==> i + 3 <= |s|
  {
    if i + 3 <= |s| && s[i] == '%' then
      match (HexValue(s[i + 1]), HexValue(s[i + 2]))
      case (Some(hi), Some(lo)) => Some(hi * 16 + lo)
      case _ => None
    else None
  }

  /** Reads `k` continuation-byte escapes from position `i`, shifting their
      six payload bits each into `acc`. */
  function ReadContinuation(s: string, i: nat, k: nat, acc: int): (r: Option<int>)
    ensures r.Some? && k > 0 ==> i + 3 * k <= |s|
    decreases k
  {
    if k == 0 then Some(acc)
    else
      match ReadByte(s, i)
      case None => None
      case Some(b) =>
        if 0x80 <= b < 0xC0 then ReadContinuation(s, i + 3, k - 1, acc * 64 + (b - 0x80)) else None
  }

  /** Decodes the escaped UTF-8 sequence at the start of `s`: the character
      and the number of string characters it took. None where
      `decodeURIComponent` throws a URIError. */
  function DecodeEscapes(s: string): (r: Option<(char, nat)>)
    ensures r.Some? ==> 3 <= r.value.1 <= |s|
  {
    match ReadByte(s, 0)
    case None => None
    case Some(b0) =>
      var n := SequenceLength(b0);
      if n == 0 then None
      else
        match ReadContinuation(s, 3, n - 1, LeadBits(b0, n))
        case None => None
        case Some(cp) =>
          if MinCodePoint(n) <= cp && IsScalar(cp) then Some((cp as char, 3 * n)) else None
  }

  /** `decodeURIComponent(s)`; None where it throws a URIError. */
  function Decode(s: string): (r: Option<string>)
    decreases |s|
  {
    if s == [] then Some([])
    else if s[0] != '%' then
      match Decode(s[1..])
      case None => None
      case Some(t) => Some([s[0]] + t)
    else
      match DecodeEscapes(s)
      case None => None
      case Some((c, k)) =>
        match Decode(s[k..])
        case None => None
        case Some(t) => Some([c] + t)
  }

  /** An escape written at position `i` reads back as its byte. */
  lemma ReadEscape(s: string, i: nat, b: Byte)
    requires i + 3 <= |s| && s[i..i + 3] == Escape(b)
    ensures ReadByte(s, i) == Some(b)
  {
    assert s[i] == '%' && s[i + 1] == HexDigit(b / 16) && s[i + 2] == HexDigit(b % 16);
    HexDigitValue(b / 16);
    HexDigitValue(b % 16);
  }

  /** Escapes(bs) holds the escape of `bs[j]` at position `3 * j`. */
  lemma {:induction false} EscapesAt(bs: seq<Byte>, j: nat)
    requires j < |bs|
    ensures Escapes(bs)[3 * j..3 * j + 3] == Escape(bs[j])
    decreases j
  {
    if j > 0 {
      EscapesAt(bs[1..], j - 1);
      assert Escapes(bs) == Escape(bs[0]) + Escapes(bs[1..]);
      assert Escapes(bs)[3 * j..3 * j + 3] == Escapes(bs[1..])[3 * (j - 1)..3 * (j - 1) + 3];
    }
  }

  /** The escape of byte `bs[j]` reads back as that byte, whatever follows. */
  lemma ReadEscapes(bs: seq<Byte>, rest: string, j: nat)
    requires j < |bs|
    ensures ReadByte(Escapes(bs) + rest, 3 * j) == Some(bs[j])
  {
    var s := Escapes(bs) + rest;
    EscapesAt(bs, j);
    assert s[3 * j..3 * j + 3] == Escapes(bs)[3 * j..3 * j + 3];
    ReadEscape(s, 3 * j, bs[j]);
  }

  lemma DecodeTwo(s: string, cp: int)
    requires 0x80 <= cp < 0x800
    requires ReadByte(s, 0) == Some(Lead(cp, 2))
    requires ReadByte(s, 3) == Some(Continuation(cp))
    ensures DecodeEscapes(s) == Some((cp as char, 6))
  {
    assert ReadContinuation(s, 3, 1, cp / 64) == ReadContinuation(s, 6, 0, cp / 64 * 64 + cp % 64);
  }

  /** Shifting six bits twice is shifting twelve. */
  lemma ShiftTwice(x: nat)
    ensures x / 64 / 64 == x / 4096
    ensures x / 64 * 64 + x % 64 == x
  {
  }

  lemma DecodeThree(s: string, cp: int)
    requires 0x800 <= cp < 0x1_0000 && IsScalar(cp)
    requires ReadByte(s, 0) == Some(Lead(cp, 3))
    requires ReadByte(s, 3) == Some(Continuation(cp / 64))
    requires ReadByte(s, 6) == Some(Continuation(cp))
    ensures DecodeEscapes(s) == Some((cp as char, 9))
  {
    var y := cp / 64;
    ShiftTwice(cp);
    ShiftTwice(y);
    assert ReadContinuation(s, 3, 2, y / 64) == ReadContinuation(s, 6, 1, y);
    assert ReadContinuation(s, 6, 1, y) == ReadContinuation(s, 9, 0, cp);
  }

  lemma DecodeFour(s: string, cp: int)
    requires 0x1_0000 <= cp < 0x11_0000
    requires ReadByte(s, 0) == Some(Lead(cp, 4))
    requires ReadByte(s, 3) == Some(Continuation(cp / 4096))
    requires ReadByte(s, 6) == Some(Continuation(cp / 64))
    requires ReadByte(s, 9) == Some(Continuation(cp))
    ensures DecodeEscapes(s) == Some((cp as char, 12))
  {
    var y := cp / 64;
    var z := y / 64;
    ShiftTwice(cp);
    ShiftTwice(y);
    ShiftTwice(z);
    ShiftTwice(cp / 4096);
    assert z / 64 == cp / 262144;
    assert ReadContinuation(s, 3, 3, z / 64) == ReadContinuation(s, 6, 2, z);
    assert ReadContinuation(s, 6, 2, z) == ReadContinuation(s, 9, 1, y);
    assert ReadContinuation(s, 9, 1, y) == ReadContinuation(s, 12, 0, cp);
  }

  /** The escaped UTF-8 bytes of a character decode back to that character. */
  lemma DecodeEscapedChar(c: char, rest: string)
    requires !Unreserved(c)
    ensures DecodeEscapes(EncodeChar(c) + rest) == Some((c, |EncodeChar(c)|))
  {
    var bs := Utf8(c);
    var s := Escapes(bs) + rest;
    var cp := c as int;
    assert EncodeChar(c) == Escapes(bs);
    ReadEscapes(bs, rest, 0);
    if cp < 0x80 {
      assert ReadContinuation(s, 3, 0, bs[0]) == Some(cp);
    } else if cp < 0x800 {
      assert bs == [Lead(cp, 2), Continuation(cp)];
      ReadEscapes(bs, rest, 1);
      DecodeTwo(s, cp);
    } else if cp < 0x1_0000 {
      var b0, b1, b2 := Lead(cp, 3), Continuation(cp / 64), Continuation(cp);
      assert bs == [b0, b1, b2];
      ReadEscapes(bs, rest, 1);
      ReadEscapes(bs, rest, 2);
      assert ReadByte(s, 0) == Some(b0) && ReadByte(s, 3) == Some(b1) && ReadByte(s, 6) == Some(b2);
      DecodeThree(s, cp);
    } else {
      var b0, b1, b2, b3 := Lead(cp, 4), Continuation(cp / 4096), Continuation(cp / 64), Continuation(cp);
      assert bs == [b0, b1, b2, b3];
      ReadEscapes(bs, rest, 1);
      ReadEscapes(bs, rest, 2);
      ReadEscapes(bs, rest, 3);
      assert ReadByte(s, 0) == Some(b0) && ReadByte(s, 3) == Some(b1);
      assert ReadByte(s, 6) == Some(b2) && ReadByte(s, 9) == Some(b3);
      DecodeFour(s, cp);
    }
  }

  /** decodeURIComponent(encodeURIComponent(s)) == s: an encoded component
      always decodes, and to the original string. */
  lemma {:induction false} DecodeEncode(s: string)
    ensures Decode(Encode(s)) == Some(s)
    decreases |s|
  {
    if s != [] {
      var c := s[0];
      var e := Encode(s);
      var tail := Encode(s[1..]);
      assert e == EncodeChar(c) + tail;
      DecodeEncode(s[1..]);
      if Unreserved(c) {
        assert e[0] == c && e[1..] == tail;
      } else {
        DecodeEscapedChar(c, tail);
        assert e[0] == '%';
        assert e[|EncodeChar(c)|..] == tail;
      }
      assert [c] + s[1..] == s;
    }
  }
}
