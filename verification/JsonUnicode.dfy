/** Unicode escapes in JSON strings: every code point, written as one escape or as a pair
    of surrogates, is read as its UTF-8 bytes. */
module JsonUnicode {
  import opened ByteStrings
  import opened Dsml
  import Chars = Utf8
  import opened JsonText
  import Steps = TextSteps

  /** A code point that stands for a character. */
  predicate Scalar(cp: nat) {
    cp < 0x110000 && !(0xd800 <= cp < 0xe000)
  }

  /** One escape. */
  function Unit(n: nat): Bytes
    requires n < 0x10000
  {
    [BACKSLASH, 0x75, HexDigit(n / 4096), HexDigit(n / 256 % 16), HexDigit(n / 16 % 16), HexDigit(n % 16)]
  }

  /** The escape of a code point, a pair of surrogates beyond the first plane. */
  function UnicodeEscape(cp: nat): Bytes
    requires Scalar(cp)
  {
    if cp < 0x10000 then Unit(cp)
    else Unit(0xd800 + (cp - 0x10000) / 1024) + Unit(0xdc00 + (cp - 0x10000) % 1024)
  }

  lemma HexBack(n: nat)
    requires n < 16
    ensures HexValue(HexDigit(n)) == Some(n)
  {
  }

  lemma UnitDigits(n: nat)
    requires n < 0x10000
    ensures ((n / 4096 * 16 + n / 256 % 16) * 16 + n / 16 % 16) * 16 + n % 16 == n && n / 4096 < 16
  {
    var a, b := n / 16, n / 256;
    assert b == a / 16 && n / 4096 == b / 16;
  }

  lemma UnitBack(text: Bytes, p: nat, n: nat)
    requires n < 0x10000 && IsAt(text, Unit(n), p)
    ensures CodeUnit(text, p) == Some(n) && p + 6 <= |text| && text[p] == BACKSLASH && text[p + 1] == 0x75
  {
    hide IsAt, HexValue, HexDigit;
    UnitDigits(n);
    HexBack(n / 4096);
    HexBack(n / 256 % 16);
    HexBack(n / 16 % 16);
    HexBack(n % 16);
    var u := Unit(n);
    ByteAt(text, u, p, 0);
    ByteAt(text, u, p, 1);
    ByteAt(text, u, p, 2);
    ByteAt(text, u, p, 3);
    ByteAt(text, u, p, 4);
    ByteAt(text, u, p, 5);
  }

  lemma SurrogatesBack(cp: nat)
    requires 0x10000 <= cp < 0x110000
    ensures var hi, lo := 0xd800 + (cp - 0x10000) / 1024, 0xdc00 + (cp - 0x10000) % 1024;
            && hi <= 0xdbff && lo <= 0xdfff && 0x10000 + (hi - 0xd800) * 1024 + (lo - 0xdc00) == cp
  {
  }

  /** The escape is read as the code point. */
  lemma PointBack(text: Bytes, p: nat, cp: nat)
    requires Scalar(cp) && IsAt(text, UnicodeEscape(cp), p)
    ensures p + 6 <= |text| && text[p] == BACKSLASH && text[p + 1] == 0x75
    ensures CodePoint(text, p) == Some((cp, p + |UnicodeEscape(cp)|))
  {
    hide IsAt, CodeUnit, Unit;
    if cp < 0x10000 {
      UnitBack(text, p, cp);
    } else {
      SurrogatesBack(cp);
      var hi, lo := 0xd800 + (cp - 0x10000) / 1024, 0xdc00 + (cp - 0x10000) % 1024;
      IsAtSplit(text, Unit(hi), Unit(lo), p);
      UnitLength(hi);
      UnitLength(lo);
      UnitBack(text, p, hi);
      UnitBack(text, p + 6, lo);
    }
    if cp < 0x10000 {
      UnitLength(cp);
    }
  }

  lemma UnitLength(n: nat)
    requires n < 0x10000
    ensures |Unit(n)| == 6
  {
  }

  /** The bytes of a code point are one character, and decode to it. */
  lemma Utf8IsChar(cp: nat)
    requires Scalar(cp)
    ensures Chars.IsChar(Utf8(cp)) && Steps.CodePoint(Utf8(cp), 0) == cp
  {
    if cp <= 0x7f {
    } else if cp <= 0x7ff {
      TwoBytes(cp);
    } else if cp <= 0xffff {
      ThreeBytes(cp);
    } else {
      FourBytes(cp);
    }
  }

  lemma TwoBytes(cp: nat)
    requires 0x7f < cp <= 0x7ff
    ensures Chars.IsChar(Utf8(cp)) && Steps.CodePoint(Utf8(cp), 0) == cp
  {
  }

  lemma ThreeBytes(cp: nat)
    requires 0x7ff < cp <= 0xffff && Scalar(cp)
    ensures Chars.IsChar(Utf8(cp)) && Steps.CodePoint(Utf8(cp), 0) == cp
  {
    hide Chars.IsChar, Steps.CodePoint;
    var a, b, c := cp / 4096, cp / 64 % 64, cp % 64;
    assert cp / 64 == a * 64 + b && cp == (a * 64 + b) * 64 + c && a < 16;
    ThreeDigits(a, b, c);
  }

  lemma ThreeDigits(a: nat, b: nat, c: nat)
    requires a < 16 && b < 64 && c < 64 && a * 64 + b >= 32 && !(a == 13 && b >= 32)
    ensures var s: Bytes := [0xe0 + a, 0x80 + b, 0x80 + c];
            Chars.IsChar(s) && Steps.CodePoint(s, 0) == (a * 64 + b) * 64 + c
  {
  }

  lemma FourBytes(cp: nat)
    requires 0xffff < cp < 0x110000
    ensures Chars.IsChar(Utf8(cp)) && Steps.CodePoint(Utf8(cp), 0) == cp
  {
    hide Chars.IsChar, Steps.CodePoint;
    var a, b, c, d := cp / 262144, cp / 4096 % 64, cp / 64 % 64, cp % 64;
    assert cp / 4096 == a * 64 + b && cp / 64 == (a * 64 + b) * 64 + c && cp == ((a * 64 + b) * 64 + c) * 64 + d;
    FourDigits(a, b, c, d);
  }

  lemma FourDigits(a: nat, b: nat, c: nat, d: nat)
    requires b < 64 && c < 64 && d < 64 && 16 <= a * 64 + b < 0x110
    ensures var s: Bytes := [0xf0 + a, 0x80 + b, 0x80 + c, 0x80 + d];
            Chars.IsChar(s) && Steps.CodePoint(s, 0) == ((a * 64 + b) * 64 + c) * 64 + d
  {
  }

  /** Decoding a string takes the escape for the character. */
  lemma EscapeDecoded(text: Bytes, p: nat, cp: nat)
    requires Scalar(cp) && IsAt(text, UnicodeEscape(cp), p)
    ensures Decoded(text, p) == Prepend(Utf8(cp), Decoded(text, p + |UnicodeEscape(cp)|))
    ensures Chars.IsChar(Utf8(cp)) && Steps.CodePoint(Utf8(cp), 0) == cp
  {
    hide IsAt, CodePoint, UnicodeEscape, Utf8, Steps.CodePoint, Chars.IsChar;
    PointBack(text, p, cp);
    Utf8IsChar(cp);
    NotSimple();
    PointDecoded(text, p);
  }

  /** The letters behind a backslash and what they stand for, by section 7 of RFC 8259. */
  const SHORT_ESCAPES: seq<(Byte, Byte)> :=
    [(0x22, 0x22), (0x5c, 0x5c), (0x2f, 0x2f), (0x62, 8), (0x66, 12), (0x6e, 10), (0x72, 13), (0x74, 9)]

  /** They are decoded so. */
  lemma ShortEscapeDecoded(text: Bytes, p: nat, k: nat)
    requires k < |SHORT_ESCAPES| && IsAt(text, [BACKSLASH, SHORT_ESCAPES[k].0], p)
    ensures Decoded(text, p) == Prepend([SHORT_ESCAPES[k].1], Decoded(text, p + 2))
  {
    hide IsAt;
    var e := [BACKSLASH, SHORT_ESCAPES[k].0];
    ByteAt(text, e, p, 0);
    ByteAt(text, e, p, 1);
  }

  lemma NotSimple()
    ensures SimpleEscape(0x75).None?
  {
  }

  lemma PointDecoded(text: Bytes, p: nat)
    requires p + 6 <= |text| && text[p] == BACKSLASH && text[p + 1] == 0x75 && CodePoint(text, p).Some?
    ensures Decoded(text, p) == Prepend(Utf8(CodePoint(text, p).value.0), Decoded(text, CodePoint(text, p).value.1))
  {
    hide CodePoint, Utf8;
  }
}
