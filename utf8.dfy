/**
 * UTF-8 as Rust uses it: `str::as_bytes` (and `Body::from(String)`) encode, `String::from_utf8` checks and decodes.
 * The decoder accepts exactly the well-formed sequences of section 3 of RFC 3629
 * (no overlong forms, no surrogates, nothing above U+10FFFF).
 */
module Utf8 {
  import opened Wrappers

  type Byte = x: int | 0 <= x < 256
  type Bytes = seq<Byte>

  /** The one to four bytes of a code point. */
  function EncodeChar(c: char): (r: Bytes)
    ensures 1 <= |r| <= 4
  {
    var cp := c as int;
    if cp < 0x80 then [cp]
    else if cp < 0x800 then [0xC0 + cp / 64, 0x80 + cp % 64]
    else if cp < 0x10000 then [0xE0 + cp / 4096, 0x80 + (cp / 64) % 64, 0x80 + cp % 64]
    else [0xF0 + cp / 262144, 0x80 + (cp / 4096) % 64, 0x80 + (cp / 64) % 64, 0x80 + cp % 64]
  }

  /** `str::as_bytes`. */
  function Encode(s: string): Bytes {
    if |s| == 0 then [] else EncodeChar(s[0]) + Encode(s[1..])
  }

  predicate IsContinuation(b: Byte) {
    0x80 <= b < 0xC0
  }

  /** The code point the first well-formed sequence of `b` encodes, with that sequence's length; None if ill-formed. */
  function DecodeFirst(b: Bytes): (r: Option<(char, nat)>)
    requires |b| > 0
    ensures r.Some? ==> 1 <= r.value.1 <= |b|
  {
    var b0, b1, b2, b3 := b[0] as int, if |b| > 1 then b[1] as int else 0,
      if |b| > 2 then b[2] as int else 0, if |b| > 3 then b[3] as int else 0;
    if b0 < 0x80 then Some((b0 as char, 1))
    else if 0xC2 <= b0 <= 0xDF then
      if |b| >= 2 && IsContinuation(b[1]) then Some((((b0 - 0xC0) * 64 + (b1 - 0x80)) as char, 2))
      else None
    else if 0xE0 <= b0 <= 0xEF then
      if |b| >= 3 && IsContinuation(b[1]) && IsContinuation(b[2])
         && (b0 != 0xE0 || b1 >= 0xA0) && (b0 != 0xED || b1 < 0xA0)
      then Some((((b0 - 0xE0) * 4096 + (b1 - 0x80) * 64 + (b2 - 0x80)) as char, 3))
      else None
    else if 0xF0 <= b0 <= 0xF4 then
      if |b| >= 4 && IsContinuation(b[1]) && IsContinuation(b[2]) && IsContinuation(b[3])
         && (b0 != 0xF0 || b1 >= 0x90) && (b0 != 0xF4 || b1 < 0x90)
      then Some((((b0 - 0xF0) * 262144 + (b1 - 0x80) * 4096 + (b2 - 0x80) * 64 + (b3 - 0x80)) as char, 4))
      else None
    else None
  }

  /** `String::from_utf8`: the text `b` encodes, or None when `b` is not well-formed UTF-8. */
  function Decode(b: Bytes): Option<string>
    decreases |b|
  {
    if |b| == 0 then Some("")
    else match DecodeFirst(b)
      case None => None
      case Some((c, n)) =>
        match Decode(b[n..])
        case None => None
        case Some(s) => Some([c] + s)
  }

  lemma DecodeFirstOfEncoded(c: char, rest: Bytes)
    ensures DecodeFirst(EncodeChar(c) + rest) == Some((c, |EncodeChar(c)|))
  {
    var cp := c as int;
    if cp < 0x80 {
    } else if cp < 0x800 {
      DecodeTwo(c, rest);
    } else if cp < 0x10000 {
      DecodeThree(c, rest);
    } else {
      DecodeFour(c, rest);
    }
  }

  lemma DecodeTwo(c: char, rest: Bytes)
    requires 0x80 <= c as int < 0x800
    ensures DecodeFirst(EncodeChar(c) + rest) == Some((c, 2))
  {
    var cp := c as int;
    var x, y := cp / 64, cp % 64;
    var b := EncodeChar(c) + rest;
    assert b[0] as int == 0xC0 + x && b[1] as int == 0x80 + y;
    assert x * 64 + y == cp;
  }

  lemma DecodeThree(c: char, rest: Bytes)
    requires 0x800 <= c as int < 0x10000
    ensures DecodeFirst(EncodeChar(c) + rest) == Some((c, 3))
  {
    var cp := c as int;
    var x, y, z := cp / 4096, (cp / 64) % 64, cp % 64;
    JoinThree(cp);
    var b := EncodeChar(c) + rest;
    assert b[0] as int == 0xE0 + x && b[1] as int == 0x80 + y && b[2] as int == 0x80 + z;
    assert x * 4096 + y * 64 + z == cp;
  }

  lemma DecodeFour(c: char, rest: Bytes)
    requires 0x10000 <= c as int
    ensures DecodeFirst(EncodeChar(c) + rest) == Some((c, 4))
  {
    var cp := c as int;
    var w, x, y, z := cp / 262144, (cp / 4096) % 64, (cp / 64) % 64, cp % 64;
    JoinFour(cp);
    var b := EncodeChar(c) + rest;
    assert b[0] as int == 0xF0 + w && b[1] as int == 0x80 + x;
    assert b[2] as int == 0x80 + y && b[3] as int == 0x80 + z;
    assert w * 262144 + x * 4096 + y * 64 + z == cp;
  }

  /** A code point of up to 16 bits is its three 6-bit groups. */
  lemma JoinThree(cp: int)
    requires 0 <= cp
    ensures var x, y, z := cp / 4096, (cp / 64) % 64, cp % 64;
      x * 4096 + y * 64 + z == cp && 0 <= y < 64 && 0 <= z < 64
      && (cp >= 0x800 && x == 0 ==> y >= 32)
      && (x == 13 && cp < 0xD800 ==> y < 32)
  {
    var q := cp / 64;
    assert q * 64 + cp % 64 == cp;
    assert (q / 64) * 64 + q % 64 == q;
    assert cp / 4096 == q / 64;
  }

  /** A code point of up to 21 bits is its four 6-bit groups. */
  lemma JoinFour(cp: int)
    requires 0 <= cp
    ensures var w, x, y, z := cp / 262144, (cp / 4096) % 64, (cp / 64) % 64, cp % 64;
      w * 262144 + x * 4096 + y * 64 + z == cp && 0 <= x < 64
      && (cp >= 0x10000 && w == 0 ==> x >= 16)
      && (w == 4 && cp < 0x110000 ==> x < 16)
  {
    var q := cp / 4096;
    JoinThree(cp);
    assert q * 4096 + (cp / 64) % 64 * 64 + cp % 64 == cp;
    assert (q / 64) * 64 + q % 64 == q;
    assert cp / 262144 == q / 64;
  }

  lemma SplitTwo(x: int, y: int)
    requires 0 <= x && 0 <= y < 64
    ensures (x * 64 + y) / 64 == x && (x * 64 + y) % 64 == y
  {
  }

  lemma SplitThree(x: int, y: int, z: int)
    requires 0 <= x && 0 <= y < 64 && 0 <= z < 64
    ensures var cp := x * 4096 + y * 64 + z;
      cp / 4096 == x && (cp / 64) % 64 == y && cp % 64 == z
  {
    var cp := x * 4096 + y * 64 + z;
    SplitTwo(x * 64 + y, z);
    assert cp == (x * 64 + y) * 64 + z;
    SplitTwo(x, y);
    assert cp / 4096 == (cp / 64) / 64;
  }

  lemma SplitFour(w: int, x: int, y: int, z: int)
    requires 0 <= w && 0 <= x < 64 && 0 <= y < 64 && 0 <= z < 64
    ensures var cp := w * 262144 + x * 4096 + y * 64 + z;
      cp / 262144 == w && (cp / 4096) % 64 == x && (cp / 64) % 64 == y && cp % 64 == z
  {
    var cp := w * 262144 + x * 4096 + y * 64 + z;
    SplitThree(w * 64 + x, y, z);
    assert cp == (w * 64 + x) * 4096 + y * 64 + z;
    SplitTwo(w, x);
    assert cp / 262144 == (cp / 4096) / 64;
  }

  lemma EncodedDecodeFirst(b: Bytes)
    requires |b| > 0 && DecodeFirst(b).Some?
    ensures EncodeChar(DecodeFirst(b).value.0) == b[..DecodeFirst(b).value.1]
  {
    var b0 := b[0] as int;
    if 0xC2 <= b0 <= 0xDF {
      EncodedTwo(b);
    } else if 0xE0 <= b0 <= 0xEF {
      EncodedThree(b);
    } else if 0xF0 <= b0 <= 0xF4 {
      EncodedFour(b);
    }
  }

  lemma EncodedTwo(b: Bytes)
    requires |b| > 0 && DecodeFirst(b).Some? && 0xC2 <= b[0] <= 0xDF
    ensures EncodeChar(DecodeFirst(b).value.0) == b[..2]
  {
    SplitTwo(b[0] as int - 0xC0, b[1] as int - 0x80);
  }

  lemma EncodedThree(b: Bytes)
    requires |b| > 0 && DecodeFirst(b).Some? && 0xE0 <= b[0] <= 0xEF
    ensures EncodeChar(DecodeFirst(b).value.0) == b[..3]
  {
    SplitThree(b[0] as int - 0xE0, b[1] as int - 0x80, b[2] as int - 0x80);
  }

  lemma EncodedFour(b: Bytes)
    requires |b| > 0 && DecodeFirst(b).Some? && 0xF0 <= b[0] <= 0xF4
    ensures EncodeChar(DecodeFirst(b).value.0) == b[..4]
  {
    SplitFour(b[0] as int - 0xF0, b[1] as int - 0x80, b[2] as int - 0x80, b[3] as int - 0x80);
  }

  /** Decoding undoes encoding: every string survives the trip through its bytes. */
  lemma {:induction false} DecodeEncode(s: string)
    ensures Decode(Encode(s)) == Some(s)
  {
    if |s| > 0 {
      var e := EncodeChar(s[0]);
      DecodeFirstOfEncoded(s[0], Encode(s[1..]));
      assert (e + Encode(s[1..]))[|e|..] == Encode(s[1..]);
      DecodeEncode(s[1..]);
      assert [s[0]] + s[1..] == s;
    }
  }

  /** Encoding undoes decoding: bytes that decode are exactly the encoding of what they decode to. */
  lemma {:induction false} EncodeDecode(b: Bytes)
    requires Decode(b).Some?
    ensures Encode(Decode(b).value) == b
  {
    if |b| > 0 {
      var (c, n) := DecodeFirst(b).value;
      var rest := Decode(b[n..]).value;
      assert Decode(b) == Some([c] + rest);
      EncodedDecodeFirst(b);
      EncodeDecode(b[n..]);
      assert ([c] + rest)[0] == c && ([c] + rest)[1..] == rest;
      assert Encode([c] + rest) == b[..n] + b[n..];
      assert b[..n] + b[n..] == b;
    }
  }

  predicate IsAscii(s: string) {
    forall i :: 0 <= i < |s| ==> s[i] as int < 0x80
  }

  /** ASCII text encodes one byte per character, each the character's code. */
  lemma {:induction false} EncodeAscii(s: string)
    requires IsAscii(s)
    ensures |Encode(s)| == |s|
    ensures forall i :: 0 <= i < |s| ==> Encode(s)[i] == s[i] as int
  {
    if |s| > 0 {
      EncodeAscii(s[1..]);
    }
  }
}
