/**
 * Base 32 encoding of section 6 of RFC 4648 (alphabet A-Z then 2-7), without
 * padding, for inputs whose length is a multiple of five bytes. This is the
 * text form in which a TOTP secret is handed to the user.
 */
module Base32 {
  import opened Wrappers

  /** The base 32 alphabet of RFC 4648, digit 0 first. */
  const ALPHABET: string := "ABCDEFGHIJKLMNOPQRSTUVWXYZ234567"

  /** The character of a five-bit digit. */
  function DigitChar(d: bv8): (c: char)
    requires d < 32
    ensures IsBase32Char(c)
  {
    if d < 26 then (65 + d as int) as char else (24 + d as int) as char
  }

  /** Digit `d` is written as the `d`-th character of the RFC 4648 alphabet. */
  lemma AlphabetOrder(d: bv8)
    requires d < 32
    ensures DigitChar(d) == ALPHABET[d as int]
  {
  }

  /** A character of the RFC 4648 base 32 alphabet. */
  predicate IsBase32Char(c: char) {
    ('A' <= c <= 'Z') || ('2' <= c <= '7')
  }

  /** The five-bit digit a character stands for, if it is in the alphabet. */
  function CharDigit(c: char): (d: Option<bv8>)
    ensures d.Some? <==> IsBase32Char(c)
    ensures d.Some? ==> d.value < 32
  {
    if 'A' <= c <= 'Z' then Some((c as int - 65) as bv8)
    else if '2' <= c <= '7' then Some((c as int - 24) as bv8)
    else None
  }

  lemma DigitRoundTrip(d: bv8)
    requires d < 32
    ensures CharDigit(DigitChar(d)) == Some(d)
  {
  }

  /** The eight digits of a five-byte group, most significant bits first. */
  function GroupDigits(b0: bv8, b1: bv8, b2: bv8, b3: bv8, b4: bv8): (ds: seq<bv8>)
    ensures |ds| == 8 && forall i :: 0 <= i < 8 ==> ds[i] < 32
  {
    [ b0 >> 3,
      ((b0 & 7) << 2) | (b1 >> 6),
      (b1 >> 1) & 31,
      ((b1 & 1) << 4) | (b2 >> 4),
      ((b2 & 15) << 1) | (b3 >> 7),
      (b3 >> 2) & 31,
      ((b3 & 3) << 3) | (b4 >> 5),
      b4 & 31 ]
  }

  /** The five bytes that eight digits spell, inverse to `GroupDigits`. */
  function GroupBytes(ds: seq<bv8>): (bs: seq<bv8>)
    requires |ds| == 8
    ensures |bs| == 5
  {
    [ (ds[0] << 3) | (ds[1] >> 2),
      (ds[1] << 6) | (ds[2] << 1) | (ds[3] >> 4),
      (ds[3] << 4) | (ds[4] >> 1),
      (ds[4] << 7) | (ds[5] << 2) | (ds[6] >> 3),
      (ds[6] << 5) | ds[7] ]
  }

  lemma GroupRoundTrip(b0: bv8, b1: bv8, b2: bv8, b3: bv8, b4: bv8)
    ensures GroupBytes(GroupDigits(b0, b1, b2, b3, b4)) == [b0, b1, b2, b3, b4]
  {
  }

  lemma DigitsRoundTrip(ds: seq<bv8>)
    requires |ds| == 8 && forall i :: 0 <= i < 8 ==> ds[i] < 32
    ensures GroupDigits(GroupBytes(ds)[0], GroupBytes(ds)[1], GroupBytes(ds)[2],
                        GroupBytes(ds)[3], GroupBytes(ds)[4]) == ds
  {
  }

  /** The eight characters of a five-byte group. */
  function EncodeGroup(g: seq<bv8>): (cs: string)
    requires |g| == 5
    ensures |cs| == 8 && forall i :: 0 <= i < 8 ==> IsBase32Char(cs[i])
  {
    var ds := GroupDigits(g[0], g[1], g[2], g[3], g[4]);
    seq(8, i requires 0 <= i < 8 => DigitChar(ds[i]))
  }

  /** The five bytes of eight characters, if all are in the alphabet. */
  function DecodeGroup(cs: string): (g: Option<seq<bv8>>)
    requires |cs| == 8
    ensures g.Some? <==> forall i :: 0 <= i < 8 ==> IsBase32Char(cs[i])
    ensures g.Some? ==> |g.value| == 5
  {
    if forall i :: 0 <= i < 8 ==> IsBase32Char(cs[i]) then
      Some(GroupBytes(seq(8, i requires 0 <= i < 8 => CharDigit(cs[i]).value)))
    else
      None
  }

  lemma DecodeEncodeGroup(g: seq<bv8>)
    requires |g| == 5
    ensures DecodeGroup(EncodeGroup(g)) == Some(g)
  {
    var ds := GroupDigits(g[0], g[1], g[2], g[3], g[4]);
    var cs := EncodeGroup(g);
    var back := seq(8, i requires 0 <= i < 8 => CharDigit(cs[i]).value);
    forall i | 0 <= i < 8 ensures back[i] == ds[i] {
      assert cs[i] == DigitChar(ds[i]);
      DigitRoundTrip(ds[i]);
    }
    assert back == ds;
    GroupRoundTrip(g[0], g[1], g[2], g[3], g[4]);
    assert g == [g[0], g[1], g[2], g[3], g[4]];
  }

  lemma CharRoundTrip(c: char)
    requires IsBase32Char(c)
    ensures DigitChar(CharDigit(c).value) == c
  {
    var n := c as int;
    if 'A' <= c <= 'Z' {
      SmallByte(n - 65);
      assert CharDigit(c).value as int == n - 65;
    } else {
      SmallByte(n - 24);
      assert CharDigit(c).value as int == n - 24;
    }
  }

  /** A digit value survives the round trip through a byte. */
  lemma SmallByte(k: int)
    requires 0 <= k < 32
    ensures (k as bv8) as int == k
  {
  }

  lemma EncodeDecodeGroup(cs: string)
    requires |cs| == 8 && DecodeGroup(cs).Some?
    ensures EncodeGroup(DecodeGroup(cs).value) == cs
  {
    var ds := seq(8, i requires 0 <= i < 8 => CharDigit(cs[i]).value);
    var g := GroupBytes(ds);
    assert DecodeGroup(cs).value == g;
    DigitsRoundTrip(ds);
    assert GroupDigits(g[0], g[1], g[2], g[3], g[4]) == ds;
    forall i | 0 <= i < 8 ensures EncodeGroup(g)[i] == cs[i] {
      CharRoundTrip(cs[i]);
    }
  }

  /** The base 32 text of `bytes`: eight alphabet characters per five bytes. */
  function Encode(bytes: seq<bv8>): (s: string)
    requires |bytes| % 5 == 0
    ensures 5 * |s| == 8 * |bytes|
    ensures forall i :: 0 <= i < |s| ==> IsBase32Char(s[i])
    decreases |bytes|
  {
    if bytes == [] then "" else EncodeGroup(bytes[..5]) + Encode(bytes[5..])
  }

  /** The bytes that a base 32 text spells; none for a text that is not one. */
  function Decode(s: string): (r: Option<seq<bv8>>)
    ensures r.Some? ==> 8 * |r.value| == 5 * |s|
    decreases |s|
  {
    if s == [] then Some([])
    else if |s| < 8 then None
    else
      match DecodeGroup(s[..8])
      case None => None
      case Some(g) =>
        match Decode(s[8..])
        case None => None
        case Some(rest) => Some(g + rest)
  }

  /** Decoding undoes encoding. */
  lemma {:induction false} DecodeEncode(bytes: seq<bv8>)
    requires |bytes| % 5 == 0
    ensures Decode(Encode(bytes)) == Some(bytes)
    decreases |bytes|
  {
    if bytes != [] {
      var s := Encode(bytes);
      assert s[..8] == EncodeGroup(bytes[..5]) && s[8..] == Encode(bytes[5..]);
      DecodeEncodeGroup(bytes[..5]);
      DecodeEncode(bytes[5..]);
      assert bytes == bytes[..5] + bytes[5..];
    }
  }

  /** The test vector of section 10 of RFC 4648 whose input is a whole group: "fooba". */
  lemma RfcVector()
    ensures Encode([0x66, 0x6f, 0x6f, 0x62, 0x61]) == "MZXW6YTB"
  {
    var b: seq<bv8> := [0x66, 0x6f, 0x6f, 0x62, 0x61];
    assert b[..5] == b && b[5..] == [];
  }

  /** Encoding undoes decoding: a text that decodes is the encoding of its bytes. */
  lemma {:induction false} EncodeDecode(s: string)
    requires Decode(s).Some?
    ensures |Decode(s).value| % 5 == 0 && Encode(Decode(s).value) == s
    decreases |s|
  {
    if s != [] {
      DecodeStep(s);
      var g := DecodeGroup(s[..8]).value;
      var rest := Decode(s[8..]).value;
      EncodeDecode(s[8..]);
      EncodeDecodeGroup(s[..8]);
      EncodeStep(g, rest);
      assert s == s[..8] + s[8..];
    }
  }

  /** A non-empty text that decodes is a decodable group followed by a decodable text. */
  lemma DecodeStep(s: string)
    requires s != [] && Decode(s).Some?
    ensures |s| >= 8 && DecodeGroup(s[..8]).Some? && Decode(s[8..]).Some?
    ensures Decode(s).value == DecodeGroup(s[..8]).value + Decode(s[8..]).value
  {
  }

  /** Encoding a group followed by more bytes encodes the group first. */
  lemma EncodeStep(g: seq<bv8>, rest: seq<bv8>)
    requires |g| == 5 && |rest| % 5 == 0
    ensures |g + rest| % 5 == 0 && Encode(g + rest) == EncodeGroup(g) + Encode(rest)
  {
    var bytes := g + rest;
    assert bytes[..5] == g && bytes[5..] == rest;
  }
}
