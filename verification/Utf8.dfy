/** UTF-8 as section 3 of RFC 3629 defines it; Rust's `str` holds it and
    `String::from_utf8` accepts exactly it. */
module Utf8 {
  import opened Basics

  type Byte = x: nat | x < 256

  predicate IsScalar(n: int) {
    0 <= n < 0xD800 || 0xE000 <= n < 0x11_0000
  }

  function EncodeChar(c: char): (b: seq<Byte>)
    ensures 1 <= |b| <= 4
  {
    var n := c as int;
    if n < 0x80 then [n]
    else if n < 0x800 then [0xC0 + n / 64, 0x80 + n % 64]
    else if n < 0x1_0000 then [0xE0 + n / 4096, 0x80 + n / 64 % 64, 0x80 + n % 64]
    else [0xF0 + n / 262144, 0x80 + n / 4096 % 64, 0x80 + n / 64 % 64, 0x80 + n % 64]
  }

  predicate IsTail(b: Byte) {
    0x80 <= b < 0xC0
  }

  /** The first scalar value of `b` and how many bytes it takes; `None` when the
      bytes are ill-formed, overlong, a surrogate, or beyond 0x10FFFF. */
  function DecodeFirst(b: seq<Byte>): (r: Option<(char, nat)>)
    ensures r.Some? ==> 1 <= r.value.1 <= |b|
  {
    if b == [] then None
    else if b[0] < 0x80 then Some((b[0] as char, 1))
    else if 0xC0 <= b[0] < 0xE0 && |b| >= 2 && IsTail(b[1]) then
      var n: int := (b[0] as int - 0xC0) * 64 + (b[1] as int - 0x80);
      if n >= 0x80 then Some((n as char, 2)) else None
    else if 0xE0 <= b[0] < 0xF0 && |b| >= 3 && IsTail(b[1]) && IsTail(b[2]) then
      var n: int := (b[0] as int - 0xE0) * 4096 + (b[1] as int - 0x80) * 64 + (b[2] as int - 0x80);
      if n >= 0x800 && IsScalar(n) then Some((n as char, 3)) else None
    else if 0xF0 <= b[0] < 0xF8 && |b| >= 4 && IsTail(b[1]) && IsTail(b[2]) && IsTail(b[3]) then
      var n: int := (b[0] as int - 0xF0) * 262144 + (b[1] as int - 0x80) * 4096 + (b[2] as int - 0x80) * 64 + (b[3] as int - 0x80);
      if n >= 0x1_0000 && IsScalar(n) then Some((n as char, 4)) else None
    else None
  }

  // ---- From characters to strings -------------------------------------------------

  type CharEncoder = char -> seq<Byte>
  type CharDecoder = seq<Byte> -> Option<(char, nat)>

  /** A decoder that consumes something, and no more than there is. */
  ghost predicate Consumes(dec: CharDecoder) {
    forall b :: dec(b).Some? ==> 1 <= dec(b).value.1 <= |b|
  }

  function EncodeWith(enc: CharEncoder, s: string): seq<Byte> {
    if s == [] then [] else enc(s[0]) + EncodeWith(enc, s[1..])
  }

  function DecodeWith(dec: CharDecoder, b: seq<Byte>): Option<string>
    requires Consumes(dec)
    decreases |b|
  {
    if b == [] then Some([])
    else
      match dec(b)
      case None => None
      case Some((c, n)) =>
        match DecodeWith(dec, b[n..])
        case None => None
        case Some(rest) => Some([c] + rest)
  }

  /** Decoding what starts with an encoded character gives that character back. */
  ghost predicate ReadsBack(enc: CharEncoder, dec: CharDecoder, c: char, rest: seq<Byte>) {
    enc(c) != [] && dec(enc(c) + rest) == Some((c, |enc(c)|))
  }

  /** What is decoded first encodes to the bytes it was decoded from. */
  ghost predicate WritesBack(enc: CharEncoder, dec: CharDecoder, b: seq<Byte>) {
    dec(b).Some? && dec(b).value.1 <= |b| ==> enc(dec(b).value.0) == b[..dec(b).value.1]
  }

  lemma {:induction false} DecodeEncodeWith(enc: CharEncoder, dec: CharDecoder, s: string)
    requires Consumes(dec) && forall c, rest :: ReadsBack(enc, dec, c, rest)
    ensures DecodeWith(dec, EncodeWith(enc, s)) == Some(s)
  {
    if s != [] {
      var first, rest := enc(s[0]), EncodeWith(enc, s[1..]);
      assert ReadsBack(enc, dec, s[0], rest);
      assert (first + rest)[|first|..] == rest;
      DecodeEncodeWith(enc, dec, s[1..]);
      assert [s[0]] + s[1..] == s;
    }
  }

  lemma EncodeCons(enc: CharEncoder, c: char, s: string)
    ensures EncodeWith(enc, [c] + s) == enc(c) + EncodeWith(enc, s)
  {
    assert ([c] + s)[1..] == s;
  }

  lemma {:induction false} EncodeDecodeWith(enc: CharEncoder, dec: CharDecoder, b: seq<Byte>)
    requires Consumes(dec) && forall x :: WritesBack(enc, dec, x)
    requires DecodeWith(dec, b).Some?
    ensures EncodeWith(enc, DecodeWith(dec, b).value) == b
    decreases |b|
  {
    if b != [] {
      var (c, n) := dec(b).value;
      assert WritesBack(enc, dec, b);
      EncodeDecodeWith(enc, dec, b[n..]);
      EncodeCons(enc, c, DecodeWith(dec, b[n..]).value);
      assert b == b[..n] + b[n..];
    }
  }

  function Encode(s: string): seq<Byte> {
    EncodeWith(EncodeChar, s)
  }

  function Decode(b: seq<Byte>): Option<string> {
    DecodeWith(DecodeFirst, b)
  }

  // ---- The round trips ----------------------------------------------------------------

  lemma Join64(x: nat, y: nat)
    requires y < 64
    ensures (x * 64 + y) / 64 == x && (x * 64 + y) % 64 == y
  {
  }

  /** The base-64 digits of a number and the number they make. */
  lemma Digits64(x: nat, y: nat, z: nat, w: nat)
    requires y < 64 && z < 64 && w < 64
    ensures var n := x * 262144 + y * 4096 + z * 64 + w;
            n / 262144 == x && n / 4096 % 64 == y && n / 64 % 64 == z && n % 64 == w
  {
    var n := x * 262144 + y * 4096 + z * 64 + w;
    Join64(x * 4096 + y * 64 + z, w);
    Join64(x * 64 + y, z);
    Join64(x, y);
    assert n == (x * 4096 + y * 64 + z) * 64 + w;
    assert x * 4096 + y * 64 + z == (x * 64 + y) * 64 + z;
    assert n / 4096 == n / 64 / 64 && n / 262144 == n / 64 / 64 / 64;
  }

  lemma Split64(n: nat)
    ensures n == n / 262144 * 262144 + n / 4096 % 64 * 4096 + n / 64 % 64 * 64 + n % 64
    ensures n == n / 4096 * 4096 + n / 64 % 64 * 64 + n % 64
  {
    assert n / 64 / 64 == n / 4096 && n / 4096 / 64 == n / 262144;
  }

  lemma DecodeTwo(b: seq<Byte>, n: nat)
    requires 0x80 <= n < 0x800 && |b| >= 2 && b[0] == 0xC0 + n / 64 && b[1] == 0x80 + n % 64
    ensures DecodeFirst(b) == Some((n as char, 2))
  {
  }

  lemma DecodeThree(b: seq<Byte>, n: nat)
    requires 0x800 <= n < 0x1_0000 && IsScalar(n) && |b| >= 3
    requires b[0] == 0xE0 + n / 4096 && b[1] == 0x80 + n / 64 % 64 && b[2] == 0x80 + n % 64
    ensures DecodeFirst(b) == Some((n as char, 3))
  {
    Split64(n);
  }

  lemma DecodeFour(b: seq<Byte>, n: nat)
    requires 0x1_0000 <= n < 0x11_0000 && |b| >= 4
    requires b[0] == 0xF0 + n / 262144 && b[1] == 0x80 + n / 4096 % 64 && b[2] == 0x80 + n / 64 % 64 && b[3] == 0x80 + n % 64
    ensures DecodeFirst(b) == Some((n as char, 4))
  {
    Split64(n);
  }

  lemma DecodeEncodedChar(c: char, rest: seq<Byte>)
    ensures ReadsBack(EncodeChar, DecodeFirst, c, rest)
  {
    var n := c as int;
    var b := EncodeChar(c) + rest;
    if 0x80 <= n < 0x800 {
      DecodeTwo(b, n);
    } else if 0x800 <= n < 0x1_0000 {
      DecodeThree(b, n);
    } else if 0x1_0000 <= n {
      DecodeFour(b, n);
    }
  }

  lemma EncodeTwo(b: seq<Byte>)
    requires DecodeFirst(b).Some? && DecodeFirst(b).value.1 == 2
    ensures EncodeChar(DecodeFirst(b).value.0) == b[..2]
  {
    Join64(b[0] - 0xC0, b[1] - 0x80);
  }

  lemma EncodeThree(b: seq<Byte>)
    requires DecodeFirst(b).Some? && DecodeFirst(b).value.1 == 3
    ensures EncodeChar(DecodeFirst(b).value.0) == b[..3]
  {
    Digits64(0, b[0] - 0xE0, b[1] - 0x80, b[2] - 0x80);
    var n := DecodeFirst(b).value.0 as int;
    assert n / 4096 == b[0] - 0xE0;
  }

  lemma EncodeFour(b: seq<Byte>)
    requires DecodeFirst(b).Some? && DecodeFirst(b).value.1 == 4
    ensures EncodeChar(DecodeFirst(b).value.0) == b[..4]
  {
    Digits64(b[0] - 0xF0, b[1] - 0x80, b[2] - 0x80, b[3] - 0x80);
  }

  lemma EncodeDecodedChar(b: seq<Byte>)
    ensures WritesBack(EncodeChar, DecodeFirst, b)
  {
    if DecodeFirst(b).Some? {
      var len := DecodeFirst(b).value.1;
      if len == 2 {
        EncodeTwo(b);
      } else if len == 3 {
        EncodeThree(b);
      } else if len == 4 {
        EncodeFour(b);
      }
    }
  }

  /** Decoding undoes encoding, for every string. */
  lemma DecodeEncode(s: string)
    ensures Decode(Encode(s)) == Some(s)
  {
    forall c: char, rest: seq<Byte> ensures ReadsBack(EncodeChar, DecodeFirst, c, rest) {
      DecodeEncodedChar(c, rest);
    }
    DecodeEncodeWith(EncodeChar, DecodeFirst, s);
  }

  /** And encoding undoes decoding: each string has one encoding. */
  lemma EncodeDecode(b: seq<Byte>)
    requires Decode(b).Some?
    ensures Encode(Decode(b).value) == b
  {
    forall x: seq<Byte> ensures WritesBack(EncodeChar, DecodeFirst, x) {
      EncodeDecodedChar(x);
    }
    EncodeDecodeWith(EncodeChar, DecodeFirst, b);
  }

  /** One character of each length, by the table of section 3 of RFC 3629. */
  lemma EncodedLengths()
    ensures EncodeChar('A') == [0x41]
    ensures EncodeChar('\U{00E9}') == [0xC3, 0xA9]
    ensures EncodeChar('\U{20AC}') == [0xE2, 0x82, 0xAC]
    ensures EncodeChar('\U{10348}') == [0xF0, 0x90, 0x8D, 0x88]
  {
  }
}
