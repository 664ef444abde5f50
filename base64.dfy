/**
 * Base 64 encoding (section 4 of RFC 4648), its URL- and filename-safe alphabet
 * (section 5 of RFC 4648), and the unpadded form that Gmail's `raw` field takes
 * (padding omitted as section 3.2 of RFC 4648 allows).
 */
module Base64 {
  import opened Wrappers
  import opened Seqs

  type Byte = x: int | 0 <= x < 256
  type Sextet = x: int | 0 <= x < 64

  const PAD := '='

  /** The character for a 6-bit value: `+` and `/` in the standard alphabet, `-` and `_` in the URL-safe one. */
  function Char(i: Sextet, url: bool): (c: char)
    ensures url ==> IsUrlChar(c)
    ensures c != PAD
  {
    if i < 26 then ('A' as int + i) as char
    else if i < 52 then ('a' as int + (i - 26)) as char
    else if i < 62 then ('0' as int + (i - 52)) as char
    else if i == 62 then (if url then '-' else '+')
    else (if url then '_' else '/')
  }

  /** The characters of the URL-safe alphabet. */
  predicate IsUrlChar(c: char) {
    'A' <= c <= 'Z' || 'a' <= c <= 'z' || '0' <= c <= '9' || c == '-' || c == '_'
  }

  /** The 6-bit value of a URL-safe alphabet character. */
  function UrlIndex(c: char): (r: Option<Sextet>)
    ensures r.Some? <==> IsUrlChar(c)
    ensures r.Some? ==> Char(r.value, true) == c
  {
    if 'A' <= c <= 'Z' then Some(c as int - 'A' as int)
    else if 'a' <= c <= 'z' then Some(c as int - 'a' as int + 26)
    else if '0' <= c <= '9' then Some(c as int - '0' as int + 52)
    else if c == '-' then Some(62)
    else if c == '_' then Some(63)
    else None
  }

  /** A group of three bytes as four characters, six bits each. */
  function Quad(b0: Byte, b1: Byte, b2: Byte, url: bool): (r: string)
    ensures |r| == 4
  {
    [Char(b0 / 4, url), Char((b0 % 4) * 16 + b1 / 16, url), Char((b1 % 16) * 4 + b2 / 64, url), Char(b2 % 64, url)]
  }

  /**
   * Three bytes to four characters; a final group of two bytes gives three characters
   * and a final byte two, each followed by padding when `pad` holds.
   */
  function Encode(b: seq<Byte>, url: bool, pad: bool): string
    decreases |b|
  {
    if |b| == 0 then ""
    else if |b| == 1 then
      [Char(b[0] / 4, url), Char((b[0] % 4) * 16, url)] + (if pad then [PAD, PAD] else [])
    else if |b| == 2 then
      [Char(b[0] / 4, url), Char((b[0] % 4) * 16 + b[1] / 16, url), Char((b[1] % 16) * 4, url)]
        + (if pad then [PAD] else [])
    else
      Quad(b[0], b[1], b[2], url) + Encode(b[3..], url, pad)
  }

  /** `.replace(/\+/g, "-").replace(/\//g, "_")` */
  function UrlSafe(s: string): (r: string)
    ensures |r| == |s|
  {
    seq(|s|, i requires 0 <= i < |s| => SafeChar(s[i]))
  }

  function SafeChar(c: char): char {
    if c == '+' then '-' else if c == '/' then '_' else c
  }

  /** `.replace(/=+$/, "")` */
  function StripTrailingPad(s: string): (r: string)
    ensures |r| <= |s| && r == s[..|r|]
    ensures r == [] || r[|r| - 1] != PAD
  {
    if s != [] && s[|s| - 1] == PAD then StripTrailingPad(s[..|s| - 1]) else s
  }

  /** `Buffer.from(bytes).toString("base64")` followed by the three replacements of lib/sendEmail.js. */
  function EncodeRaw(b: seq<Byte>): string {
    StripTrailingPad(UrlSafe(Encode(b, false, true)))
  }

  function Pads(n: nat): (r: string)
    ensures |r| == n && forall i :: 0 <= i < n ==> r[i] == PAD
  {
    seq(n, _ => PAD)
  }

  /** Appends `=` until the length is a multiple of four. */
  function Repad(s: string): (r: string)
    ensures |r| % 4 == 0
  {
    s + Pads((4 - |s| % 4) % 4)
  }

  /**
   * One group of four characters: three bytes, or one or two bytes followed by padding;
   * None when the group is not well formed.
   */
  function DecodeQuad(q: string): (r: Option<seq<Byte>>)
    requires |q| == 4
    ensures r.Some? ==> 1 <= |r.value| <= 3
  {
    var i0, i1 := UrlIndex(q[0]), UrlIndex(q[1]);
    if i0.None? || i1.None? then None
    else
      var b0 := i0.value * 4 + i1.value / 16;
      if q[2] == PAD && q[3] == PAD then Some([b0])
      else
        var i2 := UrlIndex(q[2]);
        if i2.None? then None
        else
          var b1 := (i1.value % 16) * 16 + i2.value / 4;
          if q[3] == PAD then Some([b0, b1])
          else
            var i3 := UrlIndex(q[3]);
            if i3.None? then None
            else Some([b0, b1, (i2.value % 4) * 64 + i3.value])
  }

  /** Base 64 URL-safe decoding of padded text; None for anything that is not well formed. */
  function Decode(s: string): Option<seq<Byte>>
    decreases |s|
  {
    if s == [] then Some([])
    else if |s| < 4 then None
    else
      match DecodeQuad(s[..4])
      case None => None
      case Some(group) =>
        if |group| < 3 then (if |s| == 4 then Some(group) else None)
        else
          match Decode(s[4..])
          case None => None
          case Some(rest) => Some(group + rest)
  }

  // ---------------------------------------------------------------------------------
  // Proofs

  lemma {:induction false} EncodeLength(b: seq<Byte>, url: bool, pad: bool)
    ensures pad ==> |Encode(b, url, pad)| == 4 * ((|b| + 2) / 3)
    ensures !pad ==> |Encode(b, url, pad)| == (4 * |b| + 2) / 3
    decreases |b|
  {
    var n := |b|;
    if n >= 3 {
      EncodeLength(b[3..], url, pad);
      assert Encode(b, url, pad) == Quad(b[0], b[1], b[2], url) + Encode(b[3..], url, pad);
      assert (n + 2) / 3 == (n - 3 + 2) / 3 + 1;
      assert (4 * n + 2) / 3 == (4 * (n - 3) + 2) / 3 + 4;
    }
  }

  lemma {:induction false} UrlSafeConcat(a: string, c: string)
    ensures UrlSafe(a + c) == UrlSafe(a) + UrlSafe(c)
  {
    assert forall i :: 0 <= i < |a + c| ==> UrlSafe(a + c)[i] == (UrlSafe(a) + UrlSafe(c))[i];
  }

  lemma SafeCharOf(i: Sextet)
    ensures SafeChar(Char(i, false)) == Char(i, true)
  {
  }

  lemma UrlSafeQuad(b0: Byte, b1: Byte, b2: Byte)
    ensures UrlSafe(Quad(b0, b1, b2, false)) == Quad(b0, b1, b2, true)
  {
    SafeCharOf(b0 / 4);
    SafeCharOf((b0 % 4) * 16 + b1 / 16);
    SafeCharOf((b1 % 16) * 4 + b2 / 64);
    SafeCharOf(b2 % 64);
  }

  /** Replacing `+` and `/` turns standard encoding into URL-safe encoding. */
  lemma {:induction false} UrlSafeEncode(b: seq<Byte>, pad: bool)
    ensures UrlSafe(Encode(b, false, pad)) == Encode(b, true, pad)
    decreases |b|
  {
    var s := Encode(b, false, pad);
    var t := Encode(b, true, pad);
    if |b| >= 3 {
      UrlSafeEncode(b[3..], pad);
      UrlSafeQuad(b[0], b[1], b[2]);
      UrlSafeConcat(Quad(b[0], b[1], b[2], false), Encode(b[3..], false, pad));
    } else if |b| == 2 {
      SafeCharOf(b[0] / 4);
      SafeCharOf((b[0] % 4) * 16 + b[1] / 16);
      SafeCharOf((b[1] % 16) * 4);
      assert forall i :: 0 <= i < |s| ==> UrlSafe(s)[i] == t[i];
    } else if |b| == 1 {
      SafeCharOf(b[0] / 4);
      SafeCharOf((b[0] % 4) * 16);
      assert forall i :: 0 <= i < |s| ==> UrlSafe(s)[i] == t[i];
    }
  }

  /** Padding characters at the end of a group of n bytes. */
  function PadCount(n: nat): nat {
    (3 - n % 3) % 3
  }

  lemma {:induction false} EncodeEndsPadded(b: seq<Byte>)
    ensures Encode(b, true, true) == Encode(b, true, false) + Pads(PadCount(|b|))
    decreases |b|
  {
    if |b| >= 3 {
      EncodeEndsPadded(b[3..]);
      EncodeStep(b, true, true);
      EncodeStep(b, true, false);
      PadCountStep(|b|);
      ConcatAssoc(Quad(b[0], b[1], b[2], true), Encode(b[3..], true, false), Pads(PadCount(|b|)));
    } else {
      EncodeEndsPaddedShort(b);
    }
  }

  lemma SmallPads()
    ensures Pads(0) == [] && Pads(1) == [PAD] && Pads(2) == [PAD, PAD]
  {
  }

  lemma EncodeEndsPaddedShort(b: seq<Byte>)
    requires |b| < 3
    ensures Encode(b, true, true) == Encode(b, true, false) + Pads(PadCount(|b|))
  {
    if |b| == 1 {
      PaddedOne(b);
    } else if |b| == 2 {
      PaddedTwo(b);
    } else {
      SmallPads();
    }
  }

  lemma PaddedOne(b: seq<Byte>)
    requires |b| == 1
    ensures Encode(b, true, true) == Encode(b, true, false) + Pads(PadCount(|b|))
  {
    var c := [Char(b[0] / 4, true), Char((b[0] % 4) * 16, true)];
    SmallPads();
    assert PadCount(|b|) == 2;
    assert Encode(b, true, false) == c + [];
  }

  lemma PaddedTwo(b: seq<Byte>)
    requires |b| == 2
    ensures Encode(b, true, true) == Encode(b, true, false) + Pads(PadCount(|b|))
  {
    var c := [Char(b[0] / 4, true), Char((b[0] % 4) * 16 + b[1] / 16, true), Char((b[1] % 16) * 4, true)];
    SmallPads();
    assert PadCount(|b|) == 1;
    assert Encode(b, true, false) == c + [];
  }

  lemma PadCountStep(n: nat)
    requires n >= 3
    ensures PadCount(n) == PadCount(n - 3)
  {
  }

  lemma PadCountOfLength(n: nat)
    ensures (4 - ((4 * n + 2) / 3) % 4) % 4 == PadCount(n)
  {
    var k, r := n / 3, n % 3;
    assert n == 3 * k + r;
    assert (4 * n + 2) / 3 == 4 * k + (4 * r + 2) / 3;
  }

  lemma {:induction false} StripPadsOff(x: string, n: nat)
    requires x == [] || x[|x| - 1] != PAD
    ensures StripTrailingPad(x + Pads(n)) == x
  {
    if n > 0 {
      var y := x + Pads(n - 1);
      assert Pads(n) == Pads(n - 1) + [PAD];
      assert x + Pads(n) == y + [PAD];
      assert (y + [PAD])[..|y|] == y;
      StripPadsOff(x, n - 1);
    } else {
      assert Pads(0) == [];
    }
  }

  lemma {:induction false} UnpaddedHasNoPad(b: seq<Byte>)
    ensures forall i :: 0 <= i < |Encode(b, true, false)| ==> IsUrlChar(Encode(b, true, false)[i])
    decreases |b|
  {
    if |b| >= 3 {
      UnpaddedHasNoPad(b[3..]);
    }
  }

  /** The string sent as `raw` is the unpadded URL-safe encoding. */
  lemma EncodeRawIsUnpaddedUrl(b: seq<Byte>)
    ensures EncodeRaw(b) == Encode(b, true, false)
  {
    UrlSafeEncode(b, true);
    EncodeEndsPadded(b);
    UnpaddedHasNoPad(b);
    StripPadsOff(Encode(b, true, false), PadCount(|b|));
  }

  /** Only characters of the URL-safe alphabet remain: no `+`, `/` or `=`. */
  lemma EncodeRawAlphabet(b: seq<Byte>)
    ensures forall i :: 0 <= i < |EncodeRaw(b)| ==> IsUrlChar(EncodeRaw(b)[i])
  {
    EncodeRawIsUnpaddedUrl(b);
    UnpaddedHasNoPad(b);
  }

  /** Without padding, n bytes take the ceiling of 4n/3 characters. */
  lemma EncodeRawLength(b: seq<Byte>)
    ensures |EncodeRaw(b)| == (4 * |b| + 2) / 3
  {
    EncodeRawIsUnpaddedUrl(b);
    EncodeLength(b, true, false);
  }

  lemma UrlIndexChar(i: Sextet)
    ensures UrlIndex(Char(i, true)) == Some(i)
  {
  }

  lemma DecodeGroup(b0: Byte, b1: Byte, b2: Byte)
    ensures (b0 / 4) * 4 + ((b0 % 4) * 16 + b1 / 16) / 16 == b0
    ensures (((b0 % 4) * 16 + b1 / 16) % 16) * 16 + ((b1 % 16) * 4 + b2 / 64) / 4 == b1
    ensures (((b1 % 16) * 4 + b2 / 64) % 4) * 64 + b2 % 64 == b2
    ensures ((b0 % 4) * 16) / 16 == b0 % 4
    ensures ((b1 % 16) * 4) / 4 == b1 % 16
  {
  }

  lemma DecodeOneByte(b0: Byte)
    ensures DecodeQuad([Char(b0 / 4, true), Char((b0 % 4) * 16, true), PAD, PAD]) == Some([b0])
  {
    DecodeGroup(b0, 0, 0);
    UrlIndexChar(b0 / 4);
    UrlIndexChar((b0 % 4) * 16);
  }

  lemma DecodeTwoBytes(b0: Byte, b1: Byte)
    ensures DecodeQuad([Char(b0 / 4, true), Char((b0 % 4) * 16 + b1 / 16, true), Char((b1 % 16) * 4, true), PAD])
         == Some([b0, b1])
  {
    DecodeGroup(b0, b1, 0);
    UrlIndexChar(b0 / 4);
    UrlIndexChar((b0 % 4) * 16 + b1 / 16);
    UrlIndexChar((b1 % 16) * 4);
  }

  /** Four alphabet characters decode to the three bytes their sextets spell. */
  lemma DecodeQuadOf(c0: Sextet, c1: Sextet, c2: Sextet, c3: Sextet)
    ensures DecodeQuad([Char(c0, true), Char(c1, true), Char(c2, true), Char(c3, true)])
         == Some([c0 * 4 + c1 / 16, (c1 % 16) * 16 + c2 / 4, (c2 % 4) * 64 + c3])
  {
    UrlIndexChar(c0);
    UrlIndexChar(c1);
    UrlIndexChar(c2);
    UrlIndexChar(c3);
  }

  lemma DecodeThreeBytes(b0: Byte, b1: Byte, b2: Byte)
    ensures DecodeQuad(Quad(b0, b1, b2, true)) == Some([b0, b1, b2])
  {
    var c0, c1, c2, c3 := b0 / 4, (b0 % 4) * 16 + b1 / 16, (b1 % 16) * 4 + b2 / 64, b2 % 64;
    RegroupThree(b0, b1, b2);
    DecodeSextets(c0, c1, c2, c3, b0, b1, b2);
  }

  lemma DecodeSextets(c0: Sextet, c1: Sextet, c2: Sextet, c3: Sextet, b0: Byte, b1: Byte, b2: Byte)
    requires [c0 * 4 + c1 / 16, (c1 % 16) * 16 + c2 / 4, (c2 % 4) * 64 + c3] == [b0, b1, b2]
    ensures DecodeQuad([Char(c0, true), Char(c1, true), Char(c2, true), Char(c3, true)]) == Some([b0, b1, b2])
  {
    DecodeQuadOf(c0, c1, c2, c3);
  }

  /** The four sextets of three bytes are in range and put back together give the bytes. */
  lemma RegroupThree(b0: Byte, b1: Byte, b2: Byte)
    ensures var c0, c1, c2, c3 := b0 / 4, (b0 % 4) * 16 + b1 / 16, (b1 % 16) * 4 + b2 / 64, b2 % 64;
            0 <= c1 < 64 && 0 <= c2 < 64
            && [c0 * 4 + c1 / 16, (c1 % 16) * 16 + c2 / 4, (c2 % 4) * 64 + c3] == [b0, b1, b2]
  {
    DecodeGroup(b0, b1, b2);
  }

  /** A single final group decodes on its own. */
  lemma DecodeWhole(q: string)
    requires |q| == 4 && DecodeQuad(q).Some?
    ensures Decode(q) == DecodeQuad(q)
  {
    assert q[..4] == q && q[4..] == [];
    assert DecodeQuad(q).value + [] == DecodeQuad(q).value;
  }

  lemma EncodeOne(b: seq<Byte>)
    requires |b| == 1
    ensures Encode(b, true, true) == [Char(b[0] / 4, true), Char((b[0] % 4) * 16, true), PAD, PAD]
    ensures b == [b[0]]
  {
  }

  lemma EncodeTwo(b: seq<Byte>)
    requires |b| == 2
    ensures Encode(b, true, true)
         == [Char(b[0] / 4, true), Char((b[0] % 4) * 16 + b[1] / 16, true), Char((b[1] % 16) * 4, true), PAD]
    ensures b == [b[0], b[1]]
  {
  }

  lemma DecodeEncodeOne(b: seq<Byte>)
    requires |b| == 1
    ensures Decode(Encode(b, true, true)) == Some(b)
  {
    EncodeOne(b);
    DecodeOneByte(b[0]);
    DecodeWhole(Encode(b, true, true));
  }

  lemma DecodeEncodeTwo(b: seq<Byte>)
    requires |b| == 2
    ensures Decode(Encode(b, true, true)) == Some(b)
  {
    EncodeTwo(b);
    DecodeTwoBytes(b[0], b[1]);
    DecodeWhole(Encode(b, true, true));
  }

  lemma EncodeStep(b: seq<Byte>, url: bool, pad: bool)
    requires |b| >= 3
    ensures Encode(b, url, pad) == Quad(b[0], b[1], b[2], url) + Encode(b[3..], url, pad)
    ensures b == [b[0], b[1], b[2]] + b[3..]
  {
  }

  /** A full group followed by more text decodes group by group. */
  lemma DecodeConcat(q: string, rest: string)
    requires |q| == 4 && DecodeQuad(q).Some? && |DecodeQuad(q).value| == 3
    ensures Decode(q + rest) == if Decode(rest).Some? then Some(DecodeQuad(q).value + Decode(rest).value) else None
  {
    assert (q + rest)[..4] == q && (q + rest)[4..] == rest;
  }

  lemma {:induction false} DecodeEncode(b: seq<Byte>)
    ensures Decode(Encode(b, true, true)) == Some(b)
    decreases |b|
  {
    if |b| >= 3 {
      DecodeEncode(b[3..]);
      EncodeStep(b, true, true);
      DecodeThreeBytes(b[0], b[1], b[2]);
      DecodeConcat(Quad(b[0], b[1], b[2], true), Encode(b[3..], true, true));
    } else if |b| == 2 {
      DecodeEncodeTwo(b);
    } else if |b| == 1 {
      DecodeEncodeOne(b);
    }
  }

  /** Re-padding the `raw` string and decoding it gives back the bytes. */
  lemma RoundTrip(b: seq<Byte>)
    ensures Decode(Repad(EncodeRaw(b))) == Some(b)
  {
    var raw := EncodeRaw(b);
    EncodeRawIsUnpaddedUrl(b);
    EncodeLength(b, true, false);
    PadCountOfLength(|b|);
    assert Repad(raw) == raw + Pads(PadCount(|b|));
    EncodeEndsPadded(b);
    DecodeEncode(b);
  }
}
