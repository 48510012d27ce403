/** JSON values: where they end, and their text without needless whitespace. */
module JsonValue {
  import opened ByteStrings
  import opened Dsml
  import opened JsonText

  const COMMA: Byte := 0x2c
  const COLON: Byte := 0x3a
  const BRACE_OPEN: Byte := 0x7b
  const BRACE_CLOSE: Byte := 0x7d
  const BRACKET_OPEN: Byte := 0x5b
  const BRACKET_CLOSE: Byte := 0x5d
  const MAX_NESTING := 256

  const JSON_TRUE := Ascii("true")
  const JSON_FALSE := Ascii("false")
  const JSON_NULL := Ascii("null")

  /** Is `b` at `p`? */
  predicate Has(text: Bytes, p: nat, b: Byte) {
    p < |text| && text[p] == b
  }

  /** The bytes of a number; a number is as many of them as there are. */
  predicate NumberByte(b: Byte) {
    0x30 <= b <= 0x39 || b == 0x2b || b == 0x2d || b == 0x2e || b == 0x45 || b == 0x65
  }

  function NumberEnd(text: Bytes, p: nat): (r: nat)
    requires p <= |text|
    ensures p <= r <= |text|
    decreases |text| - p
  {
    if p < |text| && NumberByte(text[p]) then NumberEnd(text, p + 1) else p
  }

  /** A string after whitespace: what it says and where it ends. */
  function StringAt(text: Bytes, p: nat): (r: Option<(Bytes, nat)>)
    requires p <= |text|
    ensures r.Some? ==> p < r.value.1 <= |text|
  {
    var q := SkipSpace(text, p);
    if Has(text, q, QUOTE) then Decoded(text, q + 1) else None
  }

  /** A literal or a number. */
  function ScalarEnd(text: Bytes, q: nat): (r: Option<nat>)
    requires q <= |text|
    ensures r.Some? ==> q < r.value <= |text|
  {
    if IsAt(text, JSON_TRUE, q) then Some(q + 4)
    else if IsAt(text, JSON_FALSE, q) then Some(q + 5)
    else if IsAt(text, JSON_NULL, q) then Some(q + 4)
    else if NumberEnd(text, q) > q then Some(NumberEnd(text, q))
    else None
  }

  /** Where the value after whitespace at `p` ends. */
  function ValueEnd(text: Bytes, p: nat, depth: nat): (r: Option<nat>)
    requires p <= |text|
    ensures r.Some? ==> p < r.value <= |text|
    decreases |text| - p, 1
  {
    var q := SkipSpace(text, p);
    if Has(text, q, QUOTE) then (var s := StringAt(text, p); if s.None? then None else Some(s.value.1))
    else if Has(text, q, BRACE_OPEN) then
      if depth >= MAX_NESTING then None
      else
        var a := SkipSpace(text, q + 1);
        if Has(text, a, BRACE_CLOSE) then Some(a + 1) else MembersEnd(text, a, depth)
    else if Has(text, q, BRACKET_OPEN) then
      if depth >= MAX_NESTING then None
      else
        var a := SkipSpace(text, q + 1);
        if Has(text, a, BRACKET_CLOSE) then Some(a + 1) else ElementsEnd(text, a, depth)
    else ScalarEnd(text, q)
  }

  function MembersEnd(text: Bytes, p: nat, depth: nat): (r: Option<nat>)
    requires p <= |text|
    ensures r.Some? ==> p < r.value <= |text|
    decreases |text| - p, 2
  {
    var key := StringAt(text, p);
    if key.None? then None
    else
      var c := SkipSpace(text, key.value.1);
      if !Has(text, c, COLON) then None
      else
        var v := ValueEnd(text, c + 1, depth + 1);
        if v.None? then None
        else
          var e := SkipSpace(text, v.value);
          if Has(text, e, BRACE_CLOSE) then Some(e + 1)
          else if Has(text, e, COMMA) then MembersEnd(text, e + 1, depth)
          else None
  }

  function ElementsEnd(text: Bytes, p: nat, depth: nat): (r: Option<nat>)
    requires p <= |text|
    ensures r.Some? ==> p < r.value <= |text|
    decreases |text| - p, 2
  {
    var v := ValueEnd(text, p, depth + 1);
    if v.None? then None
    else
      var e := SkipSpace(text, v.value);
      if Has(text, e, BRACKET_CLOSE) then Some(e + 1)
      else if Has(text, e, COMMA) then ElementsEnd(text, e + 1, depth)
      else None
  }

  /** Without whitespace outside strings. */
  function Stripped(s: Bytes, inString: bool, escape: bool): (r: Bytes)
    ensures |r| <= |s|
  {
    if s == [] then []
    else if inString then
      [s[0]] + Stripped(s[1..], escape || s[0] != QUOTE, !escape && s[0] == BACKSLASH)
    else if s[0] == QUOTE then [s[0]] + Stripped(s[1..], true, false)
    else (if IsSpace(s[0]) then [] else [s[0]]) + Stripped(s[1..], false, false)
  }

  /** The value a text starts with in its shortest form; a text that does not start
      with one is left alone. */
  function Minified(json: Bytes): Bytes {
    var e := ValueEnd(json, 0, 0);
    if e.None? then json else Stripped(json[SkipSpace(json, 0)..e.value], false, false)
  }

  /** A value in its shortest form, and nothing else. */
  predicate Minimal(json: Bytes) {
    ValueEnd(json, 0, 0) == Some(|json|) && Minified(json) == json
  }

  /** How a value that is not a string goes into an argument object. */
  function RawText(value: Bytes): Bytes {
    var m := Minified(value);
    if m == [] then JSON_NULL else m
  }

  /** A value that is not a string, as the server keeps it. */
  predicate RawPlain(value: Bytes) {
    Minimal(value) && value[0] != QUOTE
  }

  lemma RawPlainIs(value: Bytes)
    requires RawPlain(value)
    ensures value != [] && value[0] != QUOTE && !IsSpace(value[0]) && RawText(value) == value && ValueEnd(value, 0, 0) == Some(|value|)
  {
    hide ValueEnd;
  }

  // Values do not depend on what surrounds them

  function Moved(r: Option<nat>, o: nat): Option<nat> {
    if r.None? then None else Some(o + r.value)
  }

  function MovedString(r: Option<(Bytes, nat)>, o: nat): Option<(Bytes, nat)> {
    if r.None? then None else Some((r.value.0, o + r.value.1))
  }

  lemma SameByte(p: Bytes, text: Bytes, o: nat, i: nat)
    requires IsAt(text, p, o) && i < |p|
    ensures o + i < |text| && text[o + i] == p[i]
  {
    ByteAt(text, p, o, i);
  }

  lemma {:induction false} SpaceMoved(p: Bytes, text: Bytes, o: nat, i: nat)
    requires IsAt(text, p, o) && i <= |p| && SkipSpace(p, i) < |p|
    ensures o + i <= |text| && SkipSpace(text, o + i) == o + SkipSpace(p, i)
    decreases |p| - i
  {
    hide IsAt;
    SameByte(p, text, o, i);
    if IsSpace(p[i]) {
      SpaceMoved(p, text, o, i + 1);
    }
  }

  lemma UnitMoved(p: Bytes, text: Bytes, o: nat, i: nat)
    requires IsAt(text, p, o) && i + 6 <= |p|
    ensures CodeUnit(text, o + i) == CodeUnit(p, i)
  {
    hide IsAt, HexValue;
    Within(text, p, o);
    SameByte(p, text, o, i);
    SameByte(p, text, o, i + 1);
    SameByte(p, text, o, i + 2);
    SameByte(p, text, o, i + 3);
    SameByte(p, text, o, i + 4);
    SameByte(p, text, o, i + 5);
  }

  /** A unit that does not stand in a part does not stand in the text, unless the part
      ends inside it. */
  lemma NoUnit(p: Bytes, text: Bytes, o: nat, i: nat)
    requires IsAt(text, p, o) && i < |p| && CodeUnit(p, i).None? && Decoded(p, i).Some?
    ensures CodeUnit(text, o + i).None?
  {
    hide IsAt, HexValue;
    if i + 6 <= |p| {
      UnitMoved(p, text, o, i);
    } else {
      SameByte(p, text, o, i);
      if i + 1 < |p| {
        SameByte(p, text, o, i + 1);
      }
    }
  }

  lemma PointMoved(p: Bytes, text: Bytes, o: nat, i: nat)
    requires IsAt(text, p, o) && CodePoint(p, i).Some? && Decoded(p, CodePoint(p, i).value.1).Some?
    ensures CodePoint(text, o + i) == Some((CodePoint(p, i).value.0, o + CodePoint(p, i).value.1))
  {
    hide IsAt, CodeUnit, Decoded;
    UnitLength(p, i);
    UnitMoved(p, text, o, i);
    if CodeUnit(p, i + 6).Some? {
      UnitLength(p, i + 6);
      UnitMoved(p, text, o, i + 6);
    } else if 0xd800 <= CodeUnit(p, i).value <= 0xdbff {
      DecodedInside(p, i + 6);
      NoUnit(p, text, o, i + 6);
    }
    assert o + i + 6 == o + (i + 6);
  }

  lemma UnitLength(p: Bytes, i: nat)
    ensures CodeUnit(p, i).Some? ==> i + 6 <= |p|
  {
  }

  lemma DecodedInside(p: Bytes, i: nat)
    ensures Decoded(p, i).Some? ==> i < |p|
  {
  }

  lemma {:induction false} DecodedMoved(p: Bytes, text: Bytes, o: nat, i: nat)
    requires IsAt(text, p, o) && Decoded(p, i).Some?
    ensures Decoded(text, o + i) == MovedString(Decoded(p, i), o)
    decreases |p| - i
  {
    hide CodePoint, Utf8, IsAt, SimpleEscape;
    SameByte(p, text, o, i);
    if p[i] == QUOTE {
    } else if p[i] != BACKSLASH {
      DecodedMoved(p, text, o, i + 1);
    } else {
      SameByte(p, text, o, i + 1);
      if SimpleEscape(p[i + 1]).Some? {
        DecodedMoved(p, text, o, i + 2);
      } else {
        PointMoved(p, text, o, i);
        DecodedMoved(p, text, o, CodePoint(p, i).value.1);
      }
    }
  }

  lemma StringMoved(p: Bytes, text: Bytes, o: nat, i: nat)
    requires IsAt(text, p, o) && i <= |p| && StringAt(p, i).Some?
    ensures o + i <= |text| && StringAt(text, o + i) == MovedString(StringAt(p, i), o)
    ensures SkipSpace(text, o + i) == o + SkipSpace(p, i)
  {
    hide Decoded, SkipSpace, IsAt;
    SpaceMoved(p, text, o, i);
    SameByte(p, text, o, SkipSpace(p, i));
    DecodedMoved(p, text, o, SkipSpace(p, i) + 1);
  }

  /** The text holds `p` at `o` and does not go on with a number. */
  predicate Stands(p: Bytes, text: Bytes, o: nat) {
    IsAt(text, p, o) && (o + |p| < |text| ==> !NumberByte(text[o + |p|]))
  }

  lemma {:induction false} NumberMoved(p: Bytes, text: Bytes, o: nat, i: nat)
    requires Stands(p, text, o) && i <= |p|
    ensures o + i <= |text| && NumberEnd(text, o + i) == o + NumberEnd(p, i)
    decreases |p| - i
  {
    hide IsAt, NumberByte;
    Within(text, p, o);
    if i < |p| {
      SameByte(p, text, o, i);
      if NumberByte(p[i]) {
        NumberMoved(p, text, o, i + 1);
      }
    }
  }

  lemma NoLiteral(text: Bytes, i: nat)
    requires i < |text| && NumberByte(text[i])
    ensures !IsAt(text, JSON_TRUE, i) && !IsAt(text, JSON_FALSE, i) && !IsAt(text, JSON_NULL, i)
  {
    hide IsAt, JSON_TRUE, JSON_FALSE, JSON_NULL;
    LiteralBytes();
    FirstByte(text, JSON_TRUE, i);
    FirstByte(text, JSON_FALSE, i);
    FirstByte(text, JSON_NULL, i);
  }

  lemma FirstByte(text: Bytes, t: Bytes, i: nat)
    requires t != [] && i < |text|
    ensures IsAt(text, t, i) ==> text[i] == t[0]
  {
    hide IsAt;
    if IsAt(text, t, i) {
      ByteAt(text, t, i, 0);
    }
  }

  lemma LiteralBytes()
    ensures |JSON_TRUE| == 4 && |JSON_FALSE| == 5 && |JSON_NULL| == 4
    ensures !NumberByte(JSON_TRUE[0]) && !NumberByte(JSON_FALSE[0]) && !NumberByte(JSON_NULL[0])
    ensures JSON_TRUE[0] != JSON_FALSE[0] && JSON_TRUE[0] != JSON_NULL[0] && JSON_FALSE[0] != JSON_NULL[0]
  {
  }

  /** A part of a part. */
  lemma PartMoved(p: Bytes, text: Bytes, o: nat, t: Bytes, q: nat)
    requires IsAt(text, p, o) && IsAt(p, t, q)
    ensures IsAt(text, t, o + q)
  {
    hide IsAt;
    Within(text, p, o);
    Within(p, t, q);
    forall i: nat | i < |t|
      ensures text[o + q + i] == t[i]
    {
      ByteAt(p, t, q, i);
      ByteAt(text, p, o, q + i);
    }
    IsAtBytes(text, t, o + q);
  }

  lemma ScalarMoved(p: Bytes, text: Bytes, o: nat, q: nat)
    requires Stands(p, text, o) && q <= |p| && ScalarEnd(p, q).Some?
    ensures o + q <= |text| && ScalarEnd(text, o + q) == Moved(ScalarEnd(p, q), o)
  {
    hide IsAt, JSON_TRUE, JSON_FALSE, JSON_NULL, NumberEnd, NumberByte;
    LiteralBytes();
    Within(text, p, o);
    if IsAt(p, JSON_TRUE, q) {
      PartMoved(p, text, o, JSON_TRUE, q);
    } else if IsAt(p, JSON_FALSE, q) {
      PartMoved(p, text, o, JSON_FALSE, q);
      OneLiteral(text, o + q, JSON_FALSE, JSON_TRUE);
    } else if IsAt(p, JSON_NULL, q) {
      PartMoved(p, text, o, JSON_NULL, q);
      OneLiteral(text, o + q, JSON_NULL, JSON_TRUE);
      OneLiteral(text, o + q, JSON_NULL, JSON_FALSE);
    } else {
      NumberMoved(p, text, o, q);
      NumberStarts(p, q);
      SameByte(p, text, o, q);
      NoLiteral(text, o + q);
    }
  }

  lemma NumberStarts(p: Bytes, q: nat)
    requires q <= |p| && NumberEnd(p, q) > q
    ensures q < |p| && NumberByte(p[q])
  {
  }

  lemma OneLiteral(text: Bytes, q: nat, t: Bytes, u: Bytes)
    requires IsAt(text, t, q) && t != [] && u != [] && t[0] != u[0]
    ensures !IsAt(text, u, q)
  {
    hide IsAt;
    ByteAt(text, t, q, 0);
    FirstByte(text, u, q);
  }

  /** A value ends in a text where it ends in a part. */
  lemma {:induction false} ValueMoved(p: Bytes, text: Bytes, o: nat, i: nat, depth: nat)
    requires Stands(p, text, o) && i <= |p| && ValueEnd(p, i, depth).Some?
    ensures o + i <= |text| && ValueEnd(text, o + i, depth) == Moved(ValueEnd(p, i, depth), o)
    decreases |p| - i, 1
  {
    hide StringAt, ScalarEnd, SkipSpace, MembersEnd, ElementsEnd, IsAt, NumberByte;
    var q := SkipSpace(p, i);
    ScalarStarts(p, q);
    SpaceMoved(p, text, o, i);
    SameByte(p, text, o, q);
    if p[q] == QUOTE {
      StringMoved(p, text, o, i);
    } else if p[q] == BRACE_OPEN {
      ClosesLater(p, q + 1, depth);
      var a := SkipSpace(p, q + 1);
      SpaceMoved(p, text, o, q + 1);
      SameByte(p, text, o, a);
      if p[a] != BRACE_CLOSE {
        MembersMoved(p, text, o, a, depth);
      }
    } else if p[q] == BRACKET_OPEN {
      ClosesLater(p, q + 1, depth);
      var a := SkipSpace(p, q + 1);
      SpaceMoved(p, text, o, q + 1);
      SameByte(p, text, o, a);
      if p[a] != BRACKET_CLOSE {
        ElementsMoved(p, text, o, a, depth);
      }
    } else {
      ScalarMoved(p, text, o, q);
    }
  }

  lemma ScalarStarts(text: Bytes, q: nat)
    requires q <= |text|
    ensures ScalarEnd(text, q).Some? ==> q < |text|
  {
  }

  lemma ClosesLater(p: Bytes, i: nat, depth: nat)
    requires i <= |p|
    ensures var a := SkipSpace(p, i);
            (MembersEnd(p, a, depth).Some? ==> a < |p|) && (ElementsEnd(p, a, depth).Some? ==> a < |p|)
  {
  }

  lemma {:induction false} MembersMoved(p: Bytes, text: Bytes, o: nat, i: nat, depth: nat)
    requires Stands(p, text, o) && i <= |p| && MembersEnd(p, i, depth).Some?
    ensures o + i <= |text| && MembersEnd(text, o + i, depth) == Moved(MembersEnd(p, i, depth), o)
    decreases |p| - i, 2
  {
    hide StringAt, SkipSpace, ValueEnd, IsAt, NumberByte;
    StringMoved(p, text, o, i);
    var k := StringAt(p, i).value.1;
    var c := SkipSpace(p, k);
    SpaceMoved(p, text, o, k);
    SameByte(p, text, o, c);
    ValueMoved(p, text, o, c + 1, depth + 1);
    var v := ValueEnd(p, c + 1, depth + 1).value;
    var e := SkipSpace(p, v);
    SpaceMoved(p, text, o, v);
    SameByte(p, text, o, e);
    if p[e] == COMMA {
      MembersMoved(p, text, o, e + 1, depth);
    }
  }

  lemma {:induction false} ElementsMoved(p: Bytes, text: Bytes, o: nat, i: nat, depth: nat)
    requires Stands(p, text, o) && i <= |p| && ElementsEnd(p, i, depth).Some?
    ensures o + i <= |text| && ElementsEnd(text, o + i, depth) == Moved(ElementsEnd(p, i, depth), o)
    decreases |p| - i, 2
  {
    hide SkipSpace, ValueEnd, IsAt, NumberByte;
    ValueMoved(p, text, o, i, depth + 1);
    var v := ValueEnd(p, i, depth + 1).value;
    var e := SkipSpace(p, v);
    SpaceMoved(p, text, o, v);
    SameByte(p, text, o, e);
    if p[e] == COMMA {
      ElementsMoved(p, text, o, e + 1, depth);
    }
  }
}
