/** uuid/src/uuid.c: the text of a UUID as a function of the digest, and what can be read back from it. */
module UuidText {
  type Digest = d: seq<bv8> | |d| == 16 witness seq(16, i => 0)

  const SPACE_ID := "https://www.hms-networks.com/industrial-iot-solutions"

  /** The digest with type 3 forced into octet 4 and the variant into octet 8. */
  function Masked(d: Digest): (m: Digest)
    ensures forall i :: 0 <= i < 16 && i != 4 && i != 8 ==> m[i] == d[i]
  {
    d[4 := (d[4] & 0x0F) | 0x30][8 := (d[8] & 0x3F) | 0xA0]
  }

  /** One digit of "%02X". */
  function HexDigit(n: bv8): char {
    if n == 0 then '0' else if n == 1 then '1' else if n == 2 then '2' else if n == 3 then '3'
    else if n == 4 then '4' else if n == 5 then '5' else if n == 6 then '6' else if n == 7 then '7'
    else if n == 8 then '8' else if n == 9 then '9' else if n == 10 then 'A' else if n == 11 then 'B'
    else if n == 12 then 'C' else if n == 13 then 'D' else if n == 14 then 'E' else 'F'
  }

  function HexValue(c: char): bv8 {
    if c == '0' then 0 else if c == '1' then 1 else if c == '2' then 2 else if c == '3' then 3
    else if c == '4' then 4 else if c == '5' then 5 else if c == '6' then 6 else if c == '7' then 7
    else if c == '8' then 8 else if c == '9' then 9 else if c == 'A' then 10 else if c == 'B' then 11
    else if c == 'C' then 12 else if c == 'D' then 13 else if c == 'E' then 14 else 15
  }

  predicate IsHexDigit(c: char) {
    '0' <= c <= '9' || 'A' <= c <= 'F'
  }

  function High(b: bv8): bv8 {
    b >> 4
  }

  function Low(b: bv8): bv8 {
    b & 0x0F
  }

  function HexPair(b: bv8): (s: string)
    ensures |s| == 2 && IsHexDigit(s[0]) && IsHexDigit(s[1])
  {
    [HexDigit(High(b)), HexDigit(Low(b))]
  }

  /** Two digits an octet, in order. */
  function HexText(d: seq<bv8>): (s: string)
    ensures |s| == 2 * |d| && forall i :: 0 <= i < |s| ==> IsHexDigit(s[i])
  {
    if d == [] then [] else HexText(d[..|d| - 1]) + HexPair(d[|d| - 1])
  }

  /** 32 digits in groups of 8, 4, 4, 4 and 12. */
  function Grouped(h: string): string
    requires |h| == 32
  {
    h[..8] + "-" + h[8..12] + "-" + h[12..16] + "-" + h[16..20] + "-" + h[20..]
  }

  function TextOf(d: Digest): string {
    Grouped(HexText(Masked(d)))
  }

  // ----- Reading back -----

  function StripHyphens(s: string): string {
    if s == [] then [] else (if s[0] == '-' then [] else [s[0]]) + StripHyphens(s[1..])
  }

  function Unhex(h: string): seq<bv8>
    requires |h| % 2 == 0
  {
    if h == [] then []
    else Unhex(h[..|h| - 2]) + [(HexValue(h[|h| - 2]) << 4) | HexValue(h[|h| - 1])]
  }

  lemma HexPairRoundTrip(b: bv8)
    ensures (HexValue(HexPair(b)[0]) << 4) | HexValue(HexPair(b)[1]) == b
  {
    NibbleRoundTrip(High(b));
    NibbleRoundTrip(Low(b));
    Nibbles(b);
  }

  /** Sixteen digits in character order: '0' to '9', then 'A' to 'F'. */
  lemma HexDigitOrder(m: bv8, n: bv8)
    requires m < n < 16
    ensures IsHexDigit(HexDigit(m)) && IsHexDigit(HexDigit(n)) && HexDigit(m) < HexDigit(n)
  {
  }

  lemma NibbleRoundTrip(n: bv8)
    requires n < 16
    ensures HexValue(HexDigit(n)) == n
  {
  }

  lemma Nibbles(b: bv8)
    ensures High(b) < 16 && Low(b) < 16 && (High(b) << 4) | Low(b) == b
  {
  }

  lemma {:induction false} HexRoundTrip(d: seq<bv8>)
    ensures Unhex(HexText(d)) == d
  {
    hide HexDigit, HexValue, High, Low, HexPair, IsHexDigit;
    if d != [] {
      var h := HexText(d);
      HexRoundTrip(d[..|d| - 1]);
      assert h[..|h| - 2] == HexText(d[..|d| - 1]);
      assert h[|h| - 2..] == HexPair(d[|d| - 1]);
      HexPairRoundTrip(d[|d| - 1]);
      assert h[|h| - 2] == HexPair(d[|d| - 1])[0] && h[|h| - 1] == HexPair(d[|d| - 1])[1];
      assert d == d[..|d| - 1] + [d[|d| - 1]];
    }
  }

  lemma {:induction false} StripConcat(s: string, t: string)
    ensures StripHyphens(s + t) == StripHyphens(s) + StripHyphens(t)
  {
    if s == [] {
      assert s + t == t;
    } else {
      assert (s + t)[1..] == s[1..] + t;
      StripConcat(s[1..], t);
    }
  }

  lemma {:induction false} StripNone(s: string)
    requires '-' !in s
    ensures StripHyphens(s) == s
  {
    if s != [] {
      StripNone(s[1..]);
    }
  }

  /** A group and the hyphen after it. */
  lemma StripGroup(s: string, rest: string)
    requires '-' !in s
    ensures StripHyphens(s + "-" + rest) == s + StripHyphens(rest)
  {
    assert s + "-" + rest == s + ("-" + rest);
    StripConcat(s, "-" + rest);
    StripNone(s);
    StripLeading(rest);
  }

  lemma StripLeading(rest: string)
    ensures StripHyphens("-" + rest) == StripHyphens(rest)
  {
    var t := "-" + rest;
    assert t[0] == '-' && t[1..] == rest;
  }

  lemma GroupedStrips(h: string)
    requires |h| == 32 && '-' !in h
    ensures StripHyphens(Grouped(h)) == h
  {
    var a, b, c, d, e := h[..8], h[8..12], h[12..16], h[16..20], h[20..];
    assert Grouped(h) == a + "-" + (b + "-" + (c + "-" + (d + "-" + e)));
    StripGroup(a, b + "-" + (c + "-" + (d + "-" + e)));
    StripGroup(b, c + "-" + (d + "-" + e));
    StripGroup(c, d + "-" + e);
    StripGroup(d, e);
    StripNone(e);
    assert a + (b + (c + (d + e))) == h;
  }

  /** Stripping the hyphens and decoding the digits gives back the masked digest. */
  lemma TextRoundTrip(d: Digest)
    ensures StripHyphens(TextOf(d)) == HexText(Masked(d))
    ensures Unhex(HexText(Masked(d))) == Masked(d)
  {
    GroupedStrips(HexText(Masked(d)));
    HexRoundTrip(Masked(d));
  }

  /** Equal but for the high half of octet 4 and the top three bits of octet 8. */
  predicate AgreeOutsideForcedBits(d: Digest, e: Digest) {
    && (forall i :: 0 <= i < 16 && i != 4 && i != 8 ==> d[i] == e[i])
    && d[4] & 0x0F == e[4] & 0x0F && d[8] & 0x1F == e[8] & 0x1F
  }

  lemma OctetFour(x: bv8, y: bv8)
    ensures (x & 0x0F) | 0x30 == (y & 0x0F) | 0x30 <==> x & 0x0F == y & 0x0F
  {
  }

  lemma OctetEight(x: bv8, y: bv8)
    ensures (x & 0x3F) | 0xA0 == (y & 0x3F) | 0xA0 <==> x & 0x1F == y & 0x1F
  {
  }

  lemma MaskedEqual(d: Digest, e: Digest)
    ensures Masked(d) == Masked(e) <==> AgreeOutsideForcedBits(d, e)
  {
    OctetFour(d[4], e[4]);
    OctetEight(d[8], e[8]);
    var m, n := Masked(d), Masked(e);
    if m == n {
      assert m[4] == n[4] && m[8] == n[8];
      forall i | 0 <= i < 16 && i != 4 && i != 8
        ensures d[i] == e[i]
      {
        assert m[i] == n[i];
      }
    }
  }

  /** Two digests have the same text exactly when they agree outside the forced bits. */
  lemma SameTextIffSameFreeBits(d: Digest, e: Digest)
    ensures TextOf(d) == TextOf(e) <==> AgreeOutsideForcedBits(d, e)
  {
    TextRoundTrip(d);
    TextRoundTrip(e);
    MaskedEqual(d, e);
  }

  lemma {:induction false} HexTextAt(d: seq<bv8>, i: nat)
    requires i < |d|
    ensures HexText(d)[2 * i] == HexDigit(High(d[i])) && HexText(d)[2 * i + 1] == HexDigit(Low(d[i]))
  {
    if i < |d| - 1 {
      HexTextAt(d[..|d| - 1], i);
    }
  }

  /**
    * The shape: 36 characters, hyphens at 8, 13, 18 and 23, upper-case hexadecimal digits elsewhere, a 3 as
    * the high digit of octet 4 (character 9), and 10 as the top bits of octet 8 (section 4.1.1 of RFC 4122).
    */
  lemma TextShape(d: Digest)
    ensures |TextOf(d)| == 36
    ensures forall i :: 0 <= i < 36 ==>
              if i == 8 || i == 13 || i == 18 || i == 23 then TextOf(d)[i] == '-' else IsHexDigit(TextOf(d)[i])
    ensures TextOf(d)[9] == '3' && TextOf(d)[19] in {'A', 'B'}
    ensures Masked(d)[8] & 0xC0 == 0x80
  {
    var m := Masked(d);
    HexTextAt(m, 4);
    HexTextAt(m, 8);
    TopBits(d[4], d[8]);
  }

  lemma TopBits(x: bv8, y: bv8)
    ensures High((x & 0x0F) | 0x30) == 3
    ensures High((y & 0x3F) | 0xA0) == 10 || High((y & 0x3F) | 0xA0) == 11
    ensures ((y & 0x3F) | 0xA0) & 0xC0 == 0x80
  {
  }
}
