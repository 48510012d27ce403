/** JSON strings: escaping as the server writes them, decoding as it reads them. */
module JsonText {
  import opened ByteStrings
  import opened Dsml

  function HexDigit(n: nat): Byte
    requires n < 16
  {
    if n < 10 then 0x30 + n else 0x61 + (n - 10)
  }

  function HexValue(b: Byte): Option<nat> {
    if 0x30 <= b <= 0x39 then Some(b - 0x30)
    else if 0x61 <= b <= 0x66 then Some(10 + b - 0x61)
    else if 0x41 <= b <= 0x46 then Some(10 + b - 0x41)
    else None
  }

  function EscapedByte(b: Byte): (r: Bytes)
    ensures r != []
  {
    if b == QUOTE || b == BACKSLASH then [BACKSLASH, b]
    else if b == 10 then [BACKSLASH, 0x6e]
    else if b == 13 then [BACKSLASH, 0x72]
    else if b == 9 then [BACKSLASH, 0x74]
    else if b < 0x20 then [BACKSLASH, 0x75, 0x30, 0x30, HexDigit(b / 16), HexDigit(b % 16)]
    else [b]
  }

  /** The inside of a JSON string. */
  function Escaped(s: Bytes): Bytes {
    if s == [] then [] else EscapedByte(s[0]) + Escaped(s[1..])
  }

  function Quoted(s: Bytes): Bytes {
    [QUOTE] + Escaped(s) + [QUOTE]
  }

  lemma {:induction false} EscapedAppend(s: Bytes, t: Bytes)
    ensures Escaped(s + t) == Escaped(s) + Escaped(t)
  {
    hide EscapedByte;
    if s == [] {
      assert s + t == t;
    } else {
      EscapedAppend(s[1..], t);
      assert (s + t)[1..] == s[1..] + t;
    }
  }

  /** The code unit of a `\\u` escape at `p`. */
  function CodeUnit(text: Bytes, p: nat): (r: Option<nat>)
    ensures r.Some? ==> p + 6 <= |text| && r.value < 0x10000
  {
    if p + 6 > |text| || text[p] != BACKSLASH || text[p + 1] != 0x75 then None
    else
      var a, b, c, d := HexValue(text[p + 2]), HexValue(text[p + 3]), HexValue(text[p + 4]), HexValue(text[p + 5]);
      if a.Some? && b.Some? && c.Some? && d.Some? && a.value < 16 && b.value < 16 && c.value < 16 && d.value < 16 then
        Some(((a.value * 16 + b.value) * 16 + c.value) * 16 + d.value)
      else None
  }

  function Utf8(cp: nat): Bytes
    requires cp < 0x110000
  {
    if cp <= 0x7f then [cp]
    else if cp <= 0x7ff then [0xc0 + cp / 64, 0x80 + cp % 64]
    else if cp <= 0xffff then [0xe0 + cp / 4096, 0x80 + cp / 64 % 64, 0x80 + cp % 64]
    else [0xf0 + cp / 262144, 0x80 + cp / 4096 % 64, 0x80 + cp / 64 % 64, 0x80 + cp % 64]
  }

  function SimpleEscape(b: Byte): Option<Byte> {
    if b == QUOTE || b == BACKSLASH || b == SLASH then Some(b)
    else if b == 0x62 then Some(8)
    else if b == 0x66 then Some(12)
    else if b == 0x6e then Some(10)
    else if b == 0x72 then Some(13)
    else if b == 0x74 then Some(9)
    else None
  }

  /** The code point of the escape at `p`, and where it ends. A high surrogate
      takes the next escape with it. */
  function CodePoint(text: Bytes, p: nat): (r: Option<(nat, nat)>)
    ensures r.Some? ==> r.value.0 < 0x110000 && p < r.value.1 <= |text|
  {
    var hi := CodeUnit(text, p);
    if hi.None? then None
    else if !(0xd800 <= hi.value <= 0xdbff) then Some((hi.value, p + 6))
    else
      var lo := CodeUnit(text, p + 6);
      if lo.None? then Some((hi.value, p + 6))
      else if 0xdc00 <= lo.value <= 0xdfff then
        Some((0x10000 + (hi.value - 0xd800) * 1024 + (lo.value - 0xdc00), p + 12))
      else Some((hi.value, p + 12))
  }

  /** Decode from inside a string up to its closing quote. */
  function Decoded(text: Bytes, p: nat): (r: Option<(Bytes, nat)>)
    ensures r.Some? ==> p < r.value.1 <= |text|
    decreases |text| - p
  {
    if p >= |text| then None
    else if text[p] == QUOTE then Some(([], p + 1))
    else if text[p] != BACKSLASH then Prepend([text[p]], Decoded(text, p + 1))
    else if p + 1 >= |text| then None
    else
      var simple := SimpleEscape(text[p + 1]);
      if simple.Some? then Prepend([simple.value], Decoded(text, p + 2))
      else
        var cp := CodePoint(text, p);
        if cp.None? then None else Prepend(Utf8(cp.value.0), Decoded(text, cp.value.1))
  }

  function Prepend(s: Bytes, r: Option<(Bytes, nat)>): Option<(Bytes, nat)> {
    if r.None? then None else Some((s + r.value.0, r.value.1))
  }

  lemma DecodedByte(text: Bytes, p: nat, b: Byte)
    requires IsAt(text, EscapedByte(b), p)
    ensures Decoded(text, p) == Prepend([b], Decoded(text, p + |EscapedByte(b)|))
  {
    var e := EscapedByte(b);
    ByteAt(text, e, p, 0);
    if |e| > 1 {
      ByteAt(text, e, p, 1);
      if |e| == 6 {
        ByteAt(text, e, p, 2);
        ByteAt(text, e, p, 3);
        ByteAt(text, e, p, 4);
        ByteAt(text, e, p, 5);
        assert CodeUnit(text, p) == Some(b);
        assert CodePoint(text, p) == Some((b as nat, p + 6));
      }
    }
  }

  /** Decoding what was escaped gives it back, whatever follows. */
  lemma {:induction false} EscapeRoundTrip(text: Bytes, p: nat, s: Bytes)
    requires IsAt(text, Escaped(s) + [QUOTE], p)
    ensures Decoded(text, p) == Some((s, p + |Escaped(s)| + 1))
    decreases |s|
  {
    hide Decoded, EscapedByte;
    var e := Escaped(s) + [QUOTE];
    if s == [] {
      ByteAt(text, e, p, 0);
      DecodedEnd(text, p);
    } else {
      var b, rest := EscapedByte(s[0]), Escaped(s[1..]) + [QUOTE];
      assert e == b + rest;
      IsAtSplit(text, b, rest, p);
      DecodedByte(text, p, s[0]);
      EscapeRoundTrip(text, p + |b|, s[1..]);
      assert [s[0]] + s[1..] == s;
    }
  }

  lemma DecodedEnd(text: Bytes, p: nat)
    requires p < |text| && text[p] == QUOTE
    ensures Decoded(text, p) == Some(([], p + 1))
  {
  }
}
