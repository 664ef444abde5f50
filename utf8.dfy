/**
 * UTF-8 (RFC 3629), as `Buffer.from(text)` produces it from a string of Unicode scalar values.
 */
module Utf8 {
  import opened Wrappers
  import opened Seqs
  import Base64

  type Byte = Base64.Byte

  predicate IsContinuation(b: Byte) {
    128 <= b < 192
  }

  /** Section 3 of RFC 3629: one to four bytes per scalar value. */
  function EncodeChar(c: char): (r: seq<Byte>)
    ensures 1 <= |r| <= 4
    ensures |r| == 1 <==> c as int < 0x80
    ensures forall i :: 1 <= i < |r| ==> IsContinuation(r[i])
  {
    var v := c as int;
    if v < 0x80 then [v]
    else if v < 0x800 then [0xC0 + v / 64, 0x80 + v % 64]
    else if v < 0x1_0000 then [0xE0 + v / 4096, 0x80 + (v / 64) % 64, 0x80 + v % 64]
    else [0xF0 + v / 262144, 0x80 + (v / 4096) % 64, 0x80 + (v / 64) % 64, 0x80 + v % 64]
  }

  function Encode(s: string): (r: seq<Byte>)
    ensures |r| >= |s|
  {
    if s == [] then [] else EncodeChar(s[0]) + Encode(s[1..])
  }

  predicate IsScalar(v: int) {
    0 <= v < 0xD800 || 0xE000 <= v < 0x11_0000
  }

  /** The scalar value at the start of `b` and the number of bytes it takes; None for an ill-formed sequence. */
  function DecodeChar(b: seq<Byte>): (r: Option<(char, nat)>)
    ensures r.Some? ==> 1 <= r.value.1 <= |b|
  {
    if |b| == 0 then None
    else
    var b0: int, b1: int, b2: int, b3: int :=
      b[0], (if |b| > 1 then b[1] else 0), (if |b| > 2 then b[2] else 0), (if |b| > 3 then b[3] else 0);
    if b0 < 0x80 then Some((b[0] as char, 1))
    else if 0xC2 <= b[0] < 0xE0 && |b| >= 2 && IsContinuation(b[1]) then
      Some((((b0 - 0xC0) * 64 + (b1 - 0x80)) as char, 2))
    else if 0xE0 <= b[0] < 0xF0 && |b| >= 3 && IsContinuation(b[1]) && IsContinuation(b[2]) then
      var v := (b0 - 0xE0) * 4096 + (b1 - 0x80) * 64 + (b2 - 0x80);
      if 0x800 <= v && IsScalar(v) then Some((v as char, 3)) else None
    else if 0xF0 <= b[0] < 0xF5 && |b| >= 4 && IsContinuation(b[1]) && IsContinuation(b[2]) && IsContinuation(b[3]) then
      var v := (b0 - 0xF0) * 262144 + (b1 - 0x80) * 4096 + (b2 - 0x80) * 64 + (b3 - 0x80);
      if 0x1_0000 <= v && IsScalar(v) then Some((v as char, 4)) else None
    else None
  }

  function Decode(b: seq<Byte>): Option<string>
    decreases |b|
  {
    if b == [] then Some("")
    else match DecodeChar(b)
      case None => None
      case Some((c, n)) =>
        match Decode(b[n..])
        case None => None
        case Some(rest) => Some([c] + rest)
  }

  // ---------------------------------------------------------------------------------
  // Proofs

  lemma DecodeTwo(v: int)
    requires 0x80 <= v < 0x800
    ensures (0xC0 + v / 64 - 0xC0) * 64 + (0x80 + v % 64 - 0x80) == v
    ensures 0xC2 <= 0xC0 + v / 64 < 0xE0
  {
  }

  lemma DecodeThree(v: int)
    requires 0x800 <= v < 0x1_0000
    ensures (0xE0 + v / 4096 - 0xE0) * 4096 + ((v / 64) % 64) * 64 + v % 64 == v
    ensures 0xE0 <= 0xE0 + v / 4096 < 0xF0
  {
    assert v == (v / 4096) * 4096 + ((v / 64) % 64) * 64 + v % 64;
  }

  lemma DecodeFour(v: int)
    requires 0x1_0000 <= v < 0x11_0000
    ensures (v / 262144) * 262144 + ((v / 4096) % 64) * 4096 + ((v / 64) % 64) * 64 + v % 64 == v
    ensures 0xF0 <= 0xF0 + v / 262144 < 0xF5
  {
    assert v == (v / 4096) * 4096 + ((v / 64) % 64) * 64 + v % 64;
    assert v / 4096 == (v / 262144) * 64 + (v / 4096) % 64;
  }

  lemma DecodeEncodeChar(c: char, rest: seq<Byte>)
    ensures DecodeChar(EncodeChar(c) + rest) == Some((c, |EncodeChar(c)|))
  {
    var v := c as int;
    var b := EncodeChar(c) + rest;
    if v < 0x80 {
    } else if v < 0x800 {
      DecodeTwo(v);
    } else if v < 0x1_0000 {
      DecodeThree(v);
      assert b[0] == 0xE0 + v / 4096;
    } else {
      DecodeFour(v);
      assert b[0] == 0xF0 + v / 262144;
    }
  }

  /** Decoding the encoded text gives it back. */
  lemma {:induction false} DecodeEncode(s: string)
    ensures Decode(Encode(s)) == Some(s)
  {
    if s != [] {
      DecodeEncode(s[1..]);
      DecodeStep(s[0], Encode(s[1..]), s[1..]);
      assert s == [s[0]] + s[1..];
    }
  }

  lemma DecodeStep(c: char, rest: seq<Byte>, t: string)
    requires Decode(rest) == Some(t)
    ensures Decode(EncodeChar(c) + rest) == Some([c] + t)
  {
    var b := EncodeChar(c) + rest;
    DecodeEncodeChar(c, rest);
    assert b[|EncodeChar(c)|..] == rest;
  }

  /** Text made only of ASCII characters encodes to one byte per character, each its code. */
  lemma {:induction false} EncodeAscii(s: string)
    requires forall i :: 0 <= i < |s| ==> s[i] as int < 0x80
    ensures |Encode(s)| == |s|
    ensures forall i :: 0 <= i < |s| ==> Encode(s)[i] == s[i] as int
  {
    if s != [] {
      EncodeAscii(s[1..]);
      assert Encode(s) == [s[0] as int] + Encode(s[1..]);
    }
  }

  lemma {:induction false} EncodeConcat(a: string, b: string)
    ensures Encode(a + b) == Encode(a) + Encode(b)
  {
    if a != [] {
      EncodeConcat(a[1..], b);
      ConsSplit(a, b);
      ConcatAssoc(EncodeChar(a[0]), Encode(a[1..]), Encode(b));
    } else {
      assert a + b == b;
    }
  }
}
