/** The shortest form of a JSON value is a value again, and is its own shortest form;
    so the arguments the server reads are in that form. */
module JsonMinify {
  import opened ByteStrings
  import opened Dsml
  import opened DsmlRender
  import opened JsonText
  import opened JsonValue
  import opened JsonArguments

  // Dropping whitespace piece by piece

  /** Where the scan that drops whitespace is. */
  datatype Scan = Scan(inString: bool, escape: bool)

  const OUT := Scan(false, false)

  function ScanStep(c: Scan, b: Byte): Scan {
    if c.inString then Scan(c.escape || b != QUOTE, !c.escape && b == BACKSLASH) else Scan(b == QUOTE, false)
  }

  function After(s: Bytes, c: Scan): Scan {
    if s == [] then c else After(s[1..], ScanStep(c, s[0]))
  }

  /** What the scan keeps of a byte. */
  function Keep(c: Scan, b: Byte): Bytes {
    if !c.inString && IsSpace(b) then [] else [b]
  }

  lemma StrippedStep(s: Bytes, c: Scan)
    requires s != [] && (c.inString || !c.escape)
    ensures var d := ScanStep(c, s[0]);
            && (d.inString || !d.escape)
            && Stripped(s, c.inString, c.escape) == Keep(c, s[0]) + Stripped(s[1..], d.inString, d.escape)
            && After(s, c) == After(s[1..], d)
  {
  }

  lemma {:induction false} StrippedAppend(u: Bytes, w: Bytes, c: Scan)
    requires c.inString || !c.escape
    ensures var d := After(u, c);
            && (d.inString || !d.escape)
            && Stripped(u + w, c.inString, c.escape) == Stripped(u, c.inString, c.escape) + Stripped(w, d.inString, d.escape)
            && After(u + w, c) == After(w, d)
  {
    hide Stripped, After, ScanStep, Keep;
    if u == [] {
      assert u + w == w;
      NothingScanned(c);
    } else {
      assert (u + w)[1..] == u[1..] + w;
      StrippedStep(u, c);
      StrippedStep(u + w, c);
      StrippedAppend(u[1..], w, ScanStep(c, u[0]));
    }
  }

  lemma NothingScanned(c: Scan)
    ensures Stripped([], c.inString, c.escape) == [] && After([], c) == c
  {
  }

  /** `u` is scanned from outside a string to outside, its short form is `t`, and `t`
      is short itself. */
  ghost predicate Shortens(u: Bytes, t: Bytes) {
    && After(u, OUT) == OUT && Stripped(u, false, false) == t
    && After(t, OUT) == OUT && Stripped(t, false, false) == t
  }

  lemma ShortensAppend(u: Bytes, t: Bytes, u': Bytes, t': Bytes)
    requires Shortens(u, t) && Shortens(u', t')
    ensures Shortens(u + u', t + t')
  {
    hide Stripped, After;
    StrippedAppend(u, u', OUT);
    StrippedAppend(t, t', OUT);
  }

  lemma SplitAt(text: Bytes, p: nat, q: nat, e: nat)
    requires p <= q <= e <= |text|
    ensures text[p..e] == text[p..q] + text[q..e]
  {
  }

  lemma {:induction false} SpacesVanish(text: Bytes, p: nat)
    requires p <= |text|
    ensures Shortens(text[p..SkipSpace(text, p)], [])
    decreases |text| - p
  {
    if p < |text| && IsSpace(text[p]) {
      SpacesVanish(text, p + 1);
      SpaceGone(text[p]);
      SplitAt(text, p, p + 1, SkipSpace(text, p));
      assert text[p..p + 1] == [text[p]];
      ShortensAppend([text[p]], [], text[p + 1..SkipSpace(text, p)], []);
    } else {
      assert text[p..p] == [];
    }
  }

  lemma SpaceGone(b: Byte)
    requires IsSpace(b)
    ensures Shortens([b], [])
  {
    assert [b][1..] == [];
  }

  lemma ByteKept(b: Byte)
    requires !IsSpace(b) && b != QUOTE
    ensures Shortens([b], [b])
  {
    assert [b][1..] == [];
  }

  lemma {:induction false} PlainKept(s: Bytes)
    requires forall i :: 0 <= i < |s| ==> !IsSpace(s[i]) && s[i] != QUOTE
    ensures Shortens(s, s)
  {
    if s != [] {
      PlainKept(s[1..]);
      ByteKept(s[0]);
      ShortensAppend([s[0]], [s[0]], s[1..], s[1..]);
      assert s == [s[0]] + s[1..];
    }
  }

  // Strings are kept

  ghost predicate Kept(s: Bytes, c: Scan, d: Scan) {
    Stripped(s, c.inString, c.escape) == s && After(s, c) == d
  }

  lemma KeptAppend(s: Bytes, c: Scan, s': Bytes, d: Scan, e: Scan)
    requires Kept(s, c, d) && Kept(s', d, e) && (c.inString || !c.escape)
    ensures Kept(s + s', c, e)
  {
    hide Stripped, After;
    StrippedAppend(s, s', c);
  }

  lemma InnerByte(b: Byte)
    requires b != QUOTE && b != BACKSLASH
    ensures Kept([b], Scan(true, false), Scan(true, false))
  {
    assert [b][1..] == [];
  }

  lemma InnerEscape(b: Byte)
    ensures Kept([BACKSLASH, b], Scan(true, false), Scan(true, false))
  {
    hide Kept;
    OneKept(BACKSLASH, Scan(true, false));
    OneKept(b, Scan(true, true));
    KeptAppend([BACKSLASH], Scan(true, false), [b], Scan(true, true), Scan(true, false));
    assert [BACKSLASH] + [b] == [BACKSLASH, b];
  }

  lemma OneKept(b: Byte, c: Scan)
    requires c.inString
    ensures Kept([b], c, ScanStep(c, b))
  {
    assert [b][1..] == [];
  }

  lemma {:induction false} InnerBytes(s: Bytes)
    requires forall i :: 0 <= i < |s| ==> s[i] != QUOTE && s[i] != BACKSLASH
    ensures Kept(s, Scan(true, false), Scan(true, false))
  {
    if s != [] {
      InnerByte(s[0]);
      InnerBytes(s[1..]);
      KeptAppend([s[0]], Scan(true, false), s[1..], Scan(true, false), Scan(true, false));
      assert s == [s[0]] + s[1..];
    }
  }

  lemma UnitKept(text: Bytes, i: nat)
    requires CodeUnit(text, i).Some?
    ensures i + 6 <= |text| && Kept(text[i..i + 6], Scan(true, false), Scan(true, false))
  {
    hide Kept;
    var hex := text[i + 2..i + 6];
    assert forall k :: 0 <= k < 4 ==> hex[k] == text[i + 2 + k];
    InnerEscape(text[i + 1]);
    InnerBytes(hex);
    KeptAppend([BACKSLASH, text[i + 1]], Scan(true, false), hex, Scan(true, false), Scan(true, false));
    assert text[i..i + 6] == [BACKSLASH, text[i + 1]] + hex;
  }

  lemma PointKept(text: Bytes, i: nat)
    requires CodePoint(text, i).Some?
    ensures i < CodePoint(text, i).value.1 <= |text|
    ensures Kept(text[i..CodePoint(text, i).value.1], Scan(true, false), Scan(true, false))
  {
    hide Kept, CodeUnit;
    UnitKept(text, i);
    if CodePoint(text, i).value.1 != i + 6 {
      UnitKept(text, i + 6);
      SplitAt(text, i, i + 6, i + 12);
      KeptAppend(text[i..i + 6], Scan(true, false), text[i + 6..i + 12], Scan(true, false), Scan(true, false));
    }
  }

  lemma LastQuote()
    ensures Kept([QUOTE], Scan(true, false), OUT)
  {
    assert [QUOTE][1..] == [];
  }

  /** The rest of a string, with its closing quote. */
  lemma {:induction false} RestKept(text: Bytes, i: nat)
    requires Decoded(text, i).Some?
    ensures i < Decoded(text, i).value.1 <= |text|
    ensures Kept(text[i..Decoded(text, i).value.1], Scan(true, false), OUT)
    decreases |text| - i
  {
    hide Kept, CodePoint, SimpleEscape, Utf8;
    var e := Decoded(text, i).value.1;
    if text[i] == QUOTE {
      LastQuote();
      assert text[i..i + 1] == [QUOTE];
    } else {
      var n := if text[i] != BACKSLASH then i + 1 else if SimpleEscape(text[i + 1]).Some? then i + 2 else CodePoint(text, i).value.1;
      if text[i] != BACKSLASH {
        InnerByte(text[i]);
        assert text[i..i + 1] == [text[i]];
      } else if SimpleEscape(text[i + 1]).Some? {
        InnerEscape(text[i + 1]);
        assert text[i..i + 2] == [BACKSLASH, text[i + 1]];
      } else {
        PointKept(text, i);
      }
      RestKept(text, n);
      SplitAt(text, i, n, e);
      KeptAppend(text[i..n], Scan(true, false), text[n..e], Scan(true, false), OUT);
    }
  }

  lemma StringKept(text: Bytes, q: nat)
    requires Has(text, q, QUOTE) && Decoded(text, q + 1).Some?
    ensures q < Decoded(text, q + 1).value.1 <= |text|
    ensures Shortens(text[q..Decoded(text, q + 1).value.1], text[q..Decoded(text, q + 1).value.1])
  {
    hide Decoded;
    RestKept(text, q + 1);
    var e := Decoded(text, q + 1).value.1;
    QuoteOpens(text[q + 1..e]);
    assert text[q..e] == [QUOTE] + text[q + 1..e];
  }

  lemma QuoteOpens(rest: Bytes)
    requires Kept(rest, Scan(true, false), OUT)
    ensures Shortens([QUOTE] + rest, [QUOTE] + rest)
  {
    assert ([QUOTE] + rest)[1..] == rest;
  }

  // Values end alike in a part

  lemma {:induction false} SpaceInPart(p: Bytes, text: Bytes, o: nat, i: nat)
    requires IsAt(text, p, o) && i <= |p| && o + i <= |text| && SkipSpace(text, o + i) <= o + |p|
    ensures SkipSpace(text, o + i) == o + SkipSpace(p, i)
    decreases |p| - i
  {
    hide IsAt;
    if i < |p| {
      SameByte(p, text, o, i);
      if IsSpace(p[i]) {
        SpaceInPart(p, text, o, i + 1);
      }
    }
  }

  lemma PointInPart(p: Bytes, text: Bytes, o: nat, i: nat)
    requires IsAt(text, p, o) && i <= |p| && CodePoint(text, o + i).Some? && CodePoint(text, o + i).value.1 <= o + |p|
    ensures CodePoint(p, i) == Some((CodePoint(text, o + i).value.0, CodePoint(text, o + i).value.1 - o))
  {
    hide IsAt, CodeUnit;
    UnitMoved(p, text, o, i);
    if i + 12 <= |p| {
      UnitMoved(p, text, o, i + 6);
    } else {
      UnitLength(p, i + 6);
    }
    assert o + i + 6 == o + (i + 6);
  }

  lemma {:induction false} DecodedInPart(p: Bytes, text: Bytes, o: nat, i: nat)
    requires IsAt(text, p, o) && i <= |p| && Decoded(text, o + i).Some? && Decoded(text, o + i).value.1 <= o + |p|
    ensures Decoded(p, i) == Some((Decoded(text, o + i).value.0, Decoded(text, o + i).value.1 - o))
    decreases |p| - i
  {
    hide CodePoint, Utf8, IsAt, SimpleEscape;
    SameByte(p, text, o, i);
    if p[i] == QUOTE {
    } else if p[i] != BACKSLASH {
      DecodedInPart(p, text, o, i + 1);
    } else {
      NextInside(text, o + i);
      SameByte(p, text, o, i + 1);
      if SimpleEscape(p[i + 1]).Some? {
        DecodedInPart(p, text, o, i + 2);
      } else {
        PointInPart(p, text, o, i);
        DecodedInPart(p, text, o, CodePoint(p, i).value.1);
      }
    }
  }

  /** An escape has a byte after the backslash. */
  lemma NextInside(text: Bytes, i: nat)
    requires Decoded(text, i).Some? && i < |text| && text[i] == BACKSLASH
    ensures i + 1 < Decoded(text, i).value.1
  {
    hide CodePoint, Utf8, SimpleEscape;
  }

  lemma StringInPart(p: Bytes, text: Bytes, o: nat, i: nat)
    requires IsAt(text, p, o) && i <= |p| && o + i <= |text|
    requires StringAt(text, o + i).Some? && StringAt(text, o + i).value.1 <= o + |p|
    ensures StringAt(p, i) == Some((StringAt(text, o + i).value.0, StringAt(text, o + i).value.1 - o))
    ensures SkipSpace(text, o + i) == o + SkipSpace(p, i)
  {
    hide IsAt, Decoded, SkipSpace;
    DecodedInside(text, SkipSpace(text, o + i) + 1);
    SpaceInPart(p, text, o, i);
    SameByte(p, text, o, SkipSpace(p, i));
    DecodedInPart(p, text, o, SkipSpace(p, i) + 1);
  }

  lemma {:induction false} NumberInPart(p: Bytes, text: Bytes, o: nat, i: nat)
    requires IsAt(text, p, o) && i <= |p| && o + i <= |text| && NumberEnd(text, o + i) <= o + |p|
    ensures NumberEnd(text, o + i) == o + NumberEnd(p, i)
    decreases |p| - i
  {
    hide IsAt, NumberByte;
    if i < |p| {
      SameByte(p, text, o, i);
      if NumberByte(p[i]) {
        NumberInPart(p, text, o, i + 1);
      }
    }
  }

  lemma PartShrinks(p: Bytes, text: Bytes, o: nat, t: Bytes, q: nat)
    requires IsAt(text, p, o) && IsAt(text, t, o + q) && q + |t| <= |p|
    ensures IsAt(p, t, q)
  {
    hide IsAt;
    forall i: nat | i < |t|
      ensures p[q + i] == t[i]
    {
      ByteAt(text, t, o + q, i);
      SameByte(p, text, o, q + i);
    }
    IsAtBytes(p, t, q);
  }

  lemma ScalarInPart(p: Bytes, text: Bytes, o: nat, q: nat)
    requires IsAt(text, p, o) && q <= |p| && o + q <= |text|
    requires ScalarEnd(text, o + q).Some? && ScalarEnd(text, o + q).value <= o + |p|
    ensures ScalarEnd(p, q) == Some(ScalarEnd(text, o + q).value - o)
  {
    hide IsAt, JSON_TRUE, JSON_FALSE, JSON_NULL, NumberEnd;
    LiteralBytes();
    LiteralInPart(p, text, o, JSON_TRUE, q);
    LiteralInPart(p, text, o, JSON_FALSE, q);
    LiteralInPart(p, text, o, JSON_NULL, q);
    if !IsAt(text, JSON_TRUE, o + q) && !IsAt(text, JSON_FALSE, o + q) && !IsAt(text, JSON_NULL, o + q) {
      NumberInPart(p, text, o, q);
    }
  }

  lemma LiteralInPart(p: Bytes, text: Bytes, o: nat, t: Bytes, q: nat)
    requires IsAt(text, p, o)
    ensures IsAt(p, t, q) ==> IsAt(text, t, o + q)
    ensures IsAt(text, t, o + q) && q + |t| <= |p| ==> IsAt(p, t, q)
  {
    hide IsAt;
    if IsAt(p, t, q) {
      PartMoved(p, text, o, t, q);
    } else if IsAt(text, t, o + q) && q + |t| <= |p| {
      PartShrinks(p, text, o, t, q);
    }
  }

  /** A value by its first byte. */
  lemma ValueIs(text: Bytes, i: nat, q: nat, depth: nat)
    requires i <= |text| && SkipSpace(text, i) == q && ValueEnd(text, i, depth).Some?
    ensures q < |text|
    ensures text[q] == QUOTE ==> StringAt(text, i).Some? && ValueEnd(text, i, depth).value == StringAt(text, i).value.1
    ensures text[q] == BRACE_OPEN || text[q] == BRACKET_OPEN ==> depth < MAX_NESTING
    ensures text[q] == BRACE_OPEN ==>
              var a := SkipSpace(text, q + 1);
              if Has(text, a, BRACE_CLOSE) then ValueEnd(text, i, depth).value == a + 1
              else MembersEnd(text, a, depth) == ValueEnd(text, i, depth)
    ensures text[q] == BRACKET_OPEN ==>
              var a := SkipSpace(text, q + 1);
              if Has(text, a, BRACKET_CLOSE) then ValueEnd(text, i, depth).value == a + 1
              else ElementsEnd(text, a, depth) == ValueEnd(text, i, depth)
    ensures text[q] != QUOTE && text[q] != BRACE_OPEN && text[q] != BRACKET_OPEN ==>
              ScalarEnd(text, q) == ValueEnd(text, i, depth)
  {
    hide StringAt, SkipSpace, MembersEnd, ElementsEnd, ScalarEnd;
    ScalarStarts(text, q);
  }

  /** And the other way. */
  lemma ValueFrom(p: Bytes, i: nat, q: nat, depth: nat)
    requires i <= |p| && SkipSpace(p, i) == q < |p|
    ensures p[q] == QUOTE && StringAt(p, i).Some? ==> ValueEnd(p, i, depth) == Some(StringAt(p, i).value.1)
    ensures p[q] == BRACE_OPEN && depth < MAX_NESTING ==>
              var a := SkipSpace(p, q + 1);
              ValueEnd(p, i, depth) == if Has(p, a, BRACE_CLOSE) then Some(a + 1) else MembersEnd(p, a, depth)
    ensures p[q] == BRACKET_OPEN && depth < MAX_NESTING ==>
              var a := SkipSpace(p, q + 1);
              ValueEnd(p, i, depth) == if Has(p, a, BRACKET_CLOSE) then Some(a + 1) else ElementsEnd(p, a, depth)
    ensures p[q] != QUOTE && p[q] != BRACE_OPEN && p[q] != BRACKET_OPEN ==> ValueEnd(p, i, depth) == ScalarEnd(p, q)
  {
    hide StringAt, SkipSpace, MembersEnd, ElementsEnd, ScalarEnd;
  }

  lemma {:induction false} ValueInPart(p: Bytes, text: Bytes, o: nat, i: nat, depth: nat)
    requires IsAt(text, p, o) && i <= |p| && o + i <= |text|
    requires ValueEnd(text, o + i, depth).Some? && ValueEnd(text, o + i, depth).value <= o + |p|
    ensures ValueEnd(p, i, depth) == Some(ValueEnd(text, o + i, depth).value - o)
    ensures SkipSpace(text, o + i) == o + SkipSpace(p, i)
    decreases |p| - i, 1
  {
    hide StringAt, ScalarEnd, SkipSpace, MembersEnd, ElementsEnd, ValueEnd, IsAt, IsSpace;
    var x := SkipSpace(text, o + i);
    ValueIs(text, o + i, x, depth);
    StringInside(text, o + i);
    SpaceInPart(p, text, o, i);
    var q := SkipSpace(p, i);
    SameByte(p, text, o, q);
    ValueFrom(p, i, q, depth);
    if p[q] == QUOTE {
      StringInPart(p, text, o, i);
    } else if p[q] == BRACE_OPEN {
      ClosesLater(text, x + 1, depth);
      SpaceInPart(p, text, o, q + 1);
      var a := SkipSpace(p, q + 1);
      SameByte(p, text, o, a);
      if p[a] != BRACE_CLOSE {
        MembersInPart(p, text, o, a, depth);
      }
    } else if p[q] == BRACKET_OPEN {
      ClosesLater(text, x + 1, depth);
      SpaceInPart(p, text, o, q + 1);
      var a := SkipSpace(p, q + 1);
      SameByte(p, text, o, a);
      if p[a] != BRACKET_CLOSE {
        ElementsInPart(p, text, o, a, depth);
      }
    } else {
      ScalarInPart(p, text, o, q);
    }
  }

  lemma StringInside(text: Bytes, i: nat)
    requires i <= |text|
    ensures StringAt(text, i).Some? ==> SkipSpace(text, i) < StringAt(text, i).value.1
  {
    hide SkipSpace;
  }

  /** The parts of the first member. */
  lemma MemberIs(text: Bytes, i: nat, k: nat, c: nat, depth: nat)
    requires i <= |text| && MembersEnd(text, i, depth).Some?
    requires StringAt(text, i).Some? ==> k == StringAt(text, i).value.1 && c == SkipSpace(text, k)
    ensures StringAt(text, i).Some? && i < k <= c < |text| && text[c] == COLON && ValueEnd(text, c + 1, depth + 1).Some?
    ensures var v := ValueEnd(text, c + 1, depth + 1).value;
            var e := SkipSpace(text, v);
            && e < |text| && v <= e < MembersEnd(text, i, depth).value
            && (text[e] == BRACE_CLOSE || text[e] == COMMA)
            && (text[e] == BRACE_CLOSE ==> MembersEnd(text, i, depth).value == e + 1)
            && (text[e] == COMMA ==> MembersEnd(text, i, depth) == MembersEnd(text, e + 1, depth))
  {
    hide StringAt, SkipSpace, ValueEnd;
  }

  lemma MemberFrom(p: Bytes, i: nat, k: nat, c: nat, v: nat, e: nat, depth: nat)
    requires i <= |p| && StringAt(p, i).Some? && k == StringAt(p, i).value.1 && c == SkipSpace(p, k) < |p| && p[c] == COLON
    requires ValueEnd(p, c + 1, depth + 1) == Some(v) && e == SkipSpace(p, v) < |p|
    ensures p[e] == BRACE_CLOSE ==> MembersEnd(p, i, depth) == Some(e + 1)
    ensures p[e] == COMMA ==> MembersEnd(p, i, depth) == MembersEnd(p, e + 1, depth)
  {
    hide StringAt, SkipSpace, ValueEnd;
  }

  lemma {:induction false} MembersInPart(p: Bytes, text: Bytes, o: nat, i: nat, depth: nat)
    requires IsAt(text, p, o) && i <= |p| && o + i <= |text|
    requires MembersEnd(text, o + i, depth).Some? && MembersEnd(text, o + i, depth).value <= o + |p|
    ensures MembersEnd(p, i, depth) == Some(MembersEnd(text, o + i, depth).value - o)
    decreases |p| - i, 2
  {
    hide StringAt, SkipSpace, ValueEnd, MembersEnd, IsAt;
    var k' := if StringAt(text, o + i).Some? then StringAt(text, o + i).value.1 else 0;
    var c' := if StringAt(text, o + i).Some? then SkipSpace(text, k') else 0;
    MemberIs(text, o + i, k', c', depth);
    StringInPart(p, text, o, i);
    var k := StringAt(p, i).value.1;
    SpaceInPart(p, text, o, k);
    var c := SkipSpace(p, k);
    SameByte(p, text, o, c);
    ValueInPart(p, text, o, c + 1, depth + 1);
    var v := ValueEnd(p, c + 1, depth + 1).value;
    SpaceInPart(p, text, o, v);
    var e := SkipSpace(p, v);
    SameByte(p, text, o, e);
    MemberFrom(p, i, k, c, v, e, depth);
    if p[e] == COMMA {
      MembersInPart(p, text, o, e + 1, depth);
    }
  }

  lemma {:induction false} ElementsInPart(p: Bytes, text: Bytes, o: nat, i: nat, depth: nat)
    requires IsAt(text, p, o) && i <= |p| && o + i <= |text|
    requires ElementsEnd(text, o + i, depth).Some? && ElementsEnd(text, o + i, depth).value <= o + |p|
    ensures ElementsEnd(p, i, depth) == Some(ElementsEnd(text, o + i, depth).value - o)
    decreases |p| - i, 2
  {
    hide SkipSpace, ValueEnd, IsAt;
    ValueInPart(p, text, o, i, depth + 1);
    var v := ValueEnd(p, i, depth + 1).value;
    SpaceInPart(p, text, o, v);
    var e := SkipSpace(p, v);
    SameByte(p, text, o, e);
    if p[e] == COMMA {
      ElementsInPart(p, text, o, e + 1, depth);
    }
  }

  // The short form of a value

  /** `t` is one whole value without whitespace before it. */
  ghost predicate Whole(t: Bytes, depth: nat) {
    t != [] && !IsSpace(t[0]) && t[0] != BRACKET_CLOSE && ValueEnd(t, 0, depth) == Some(|t|)
  }

  lemma NoSpaceFirst(t: Bytes)
    requires t != [] && !IsSpace(t[0])
    ensures SkipSpace(t, 0) == 0
  {
  }

  lemma PieceAt(text: Bytes, p: nat, e: nat)
    requires p <= e <= |text|
    ensures IsAt(text, text[p..e], p)
  {
  }

  /** A string token. */
  lemma StringShort(text: Bytes, p: nat) returns (t: Bytes)
    requires p <= |text| && StringAt(text, p).Some?
    ensures var e := StringAt(text, p).value.1;
            && p <= e <= |text| && Shortens(text[p..e], t) && t != [] && t[0] == QUOTE
            && StringAt(t, 0) == Some((StringAt(text, p).value.0, |t|))
  {
    hide IsAt, Decoded, Shortens, SkipSpace;
    var q, e := SkipSpace(text, p), StringAt(text, p).value.1;
    DecodedInside(text, q + 1);
    SpacesVanish(text, p);
    StringKept(text, q);
    t := text[q..e];
    ShortensAppend(text[p..q], [], t, t);
    SplitAt(text, p, q, e);
    assert [] + t == t;
    PieceAt(text, q, e);
    assert t[0] == QUOTE;
    NoSpaceFirst(t);
    DecodedInPart(t, text, q, 1);
  }

  lemma StringIsValue(t: Bytes, depth: nat)
    requires t != [] && t[0] == QUOTE && StringAt(t, 0).Some? && StringAt(t, 0).value.1 == |t|
    ensures Whole(t, depth)
  {
    hide Decoded;
  }

  lemma ScalarShort(text: Bytes, q: nat, depth: nat) returns (t: Bytes)
    requires q < |text| && !IsSpace(text[q]) && ScalarEnd(text, q).Some?
    requires text[q] != QUOTE && text[q] != BRACE_OPEN && text[q] != BRACKET_OPEN
    ensures t == text[q..ScalarEnd(text, q).value] && Shortens(t, t) && Whole(t, depth) && t[0] == text[q]
  {
    hide IsAt, JSON_TRUE, JSON_FALSE, JSON_NULL, NumberEnd, Shortens, SkipSpace;
    var e := ScalarEnd(text, q).value;
    t := text[q..e];
    ScalarBytes(text, q);
    PlainKept(t);
    PieceAt(text, q, e);
    ScalarInPart(t, text, q, 0);
    NoSpaceFirst(t);
    ScalarIsValue(t, depth);
  }

  lemma ScalarIsValue(t: Bytes, depth: nat)
    requires t != [] && SkipSpace(t, 0) == 0 && ScalarEnd(t, 0) == Some(|t|)
    requires !IsSpace(t[0]) && t[0] != QUOTE && t[0] != BRACE_OPEN && t[0] != BRACKET_OPEN && t[0] != BRACKET_CLOSE
    ensures Whole(t, depth)
  {
    hide ScalarEnd, SkipSpace;
  }

  /** A literal or a number has neither whitespace nor quotes nor backslashes nor brackets. */
  lemma ScalarBytes(text: Bytes, q: nat)
    requires q <= |text| && ScalarEnd(text, q).Some?
    ensures forall i :: q <= i < ScalarEnd(text, q).value ==>
              !IsSpace(text[i]) && text[i] != QUOTE && text[i] != BACKSLASH && text[i] != BRACKET_CLOSE
  {
    hide IsAt, JSON_TRUE, JSON_FALSE, JSON_NULL, NumberEnd;
    LiteralLetters();
    LiteralBytes();
    forall i | q <= i < ScalarEnd(text, q).value
      ensures !IsSpace(text[i]) && text[i] != QUOTE && text[i] != BACKSLASH && text[i] != BRACKET_CLOSE
    {
      if IsAt(text, JSON_TRUE, q) {
        ByteAt(text, JSON_TRUE, q, i - q);
      } else if IsAt(text, JSON_FALSE, q) {
        ByteAt(text, JSON_FALSE, q, i - q);
      } else if IsAt(text, JSON_NULL, q) {
        ByteAt(text, JSON_NULL, q, i - q);
      } else {
        NumberBytes(text, q, i);
      }
    }
  }

  predicate Letters(t: Bytes) {
    forall i :: 0 <= i < |t| ==> 0x61 <= t[i] <= 0x7a
  }

  lemma LiteralLetters()
    ensures Letters(JSON_TRUE) && Letters(JSON_FALSE) && Letters(JSON_NULL)
  {
  }

  lemma {:induction false} NumberBytes(text: Bytes, q: nat, i: nat)
    requires q <= |text| && q <= i < NumberEnd(text, q)
    ensures i < |text| && NumberByte(text[i])
    decreases |text| - q
  {
    hide NumberByte;
    if q < i {
      NumberBytes(text, q + 1, i);
    }
  }

  lemma EmptyIsValue(open: Byte, close: Byte, depth: nat)
    requires depth < MAX_NESTING
    requires (open == BRACE_OPEN && close == BRACE_CLOSE) || (open == BRACKET_OPEN && close == BRACKET_CLOSE)
    ensures Whole([open, close], depth)
  {
    var t := [open, close];
    assert SkipSpace(t, 0) == 0 && SkipSpace(t, 1) == 1;
  }

  lemma ObjectIsValue(m: Bytes, depth: nat)
    requires depth < MAX_NESTING && m != [] && m[0] == QUOTE && MembersEnd(m, 0, depth) == Some(|m|)
    ensures Whole([BRACE_OPEN] + m, depth)
  {
    hide MembersEnd, IsAt;
    var t := [BRACE_OPEN] + m;
    PieceAt(t, 1, |t|);
    assert t[1..|t|] == m;
    assert SkipSpace(t, 0) == 0 && SkipSpace(t, 1) == 1;
    MembersMoved(m, t, 1, 0, depth);
  }

  lemma ArrayIsValue(m: Bytes, depth: nat)
    requires depth < MAX_NESTING && m != [] && !IsSpace(m[0]) && m[0] != BRACKET_CLOSE
    requires ElementsEnd(m, 0, depth) == Some(|m|)
    ensures Whole([BRACKET_OPEN] + m, depth)
  {
    hide ElementsEnd, IsAt;
    var t := [BRACKET_OPEN] + m;
    PieceAt(t, 1, |t|);
    assert t[1..|t|] == m;
    assert SkipSpace(t, 0) == 0 && SkipSpace(t, 1) == 1;
    ElementsMoved(m, t, 1, 0, depth);
  }

  /** What may follow a value: the closing byte, or a comma and more. */
  ghost predicate TailOk(tail: Bytes, close: Byte, more: Bytes) {
    tail == [close] || tail == [COMMA] + more
  }

  lemma TailFirst(tail: Bytes, close: Byte, more: Bytes)
    requires TailOk(tail, close, more) && (close == BRACE_CLOSE || close == BRACKET_CLOSE)
    ensures tail != [] && !IsSpace(tail[0]) && !NumberByte(tail[0]) && tail[0] == (if tail == [close] then close else COMMA)
  {
  }

  lemma Stay(t: Bytes, i: nat)
    requires i < |t| && !IsSpace(t[i])
    ensures SkipSpace(t, i) == i
  {
  }

  /** One member of an object, when nothing is skipped. */
  lemma MembersStep(t: Bytes, k: nat, v: nat, depth: nat)
    requires StringAt(t, 0).Some? && StringAt(t, 0).value.1 == k
    requires k < v < |t| && SkipSpace(t, k) == k && t[k] == COLON
    requires ValueEnd(t, k + 1, depth + 1) == Some(v) && SkipSpace(t, v) == v
    ensures t[v] == BRACE_CLOSE ==> MembersEnd(t, 0, depth) == Some(v + 1)
    ensures t[v] == COMMA ==> MembersEnd(t, 0, depth) == MembersEnd(t, v + 1, depth)
  {
    hide StringAt, SkipSpace, ValueEnd;
  }

  /** What may follow a value, where it stands at the end of a text. */
  ghost predicate Follows(t: Bytes, e: nat, close: Byte, more: Bytes) {
    && e < |t| && !IsSpace(t[e]) && !NumberByte(t[e])
    && ((t[e] == close && e + 1 == |t|) || (t[e] == COMMA && Stands(more, t, e + 1) && e + 1 + |more| == |t|))
  }

  lemma TailEnds(t: Bytes, tail: Bytes, close: Byte, more: Bytes, e: nat)
    requires IsAt(t, tail, e) && e + |tail| == |t| && TailOk(tail, close, more)
    requires close == BRACE_CLOSE || close == BRACKET_CLOSE
    ensures Follows(t, e, close, more) && (t[e] == close <==> tail == [close])
  {
    hide IsAt, Stands;
    TailFirst(tail, close, more);
    ByteAt(t, tail, e, 0);
    if tail != [close] {
      MoreAt(t, tail, more, e);
    }
  }

  lemma ValuePlaced(t: Bytes, value: Bytes, v: nat, depth: nat)
    requires Whole(value, depth) && IsAt(t, value, v) && v + |value| < |t| && !NumberByte(t[v + |value|])
    ensures ValueEnd(t, v, depth) == Some(v + |value|)
  {
    hide IsAt, ValueEnd, NumberByte;
    ValueMoved(value, t, v, 0, depth);
  }

  lemma MembersAt(t: Bytes, key: Bytes, value: Bytes, more: Bytes, e: nat, depth: nat)
    requires key != [] && StringAt(key, 0).Some? && StringAt(key, 0).value.1 == |key| && IsAt(t, key, 0)
    requires e == |key| + 1 + |value| < |t| && t[|key|] == COLON && IsAt(t, value, |key| + 1)
    requires Whole(value, depth + 1) && Follows(t, e, BRACE_CLOSE, more)
    requires t[e] == COMMA ==> more != [] && MembersEnd(more, 0, depth) == Some(|more|)
    ensures MembersEnd(t, 0, depth) == Some(|t|)
  {
    hide StringAt, SkipSpace, ValueEnd, IsAt, NumberByte, MembersEnd, Whole, Stands;
    StringMoved(key, t, 0, 0);
    Stay(t, |key|);
    ValuePlaced(t, value, |key| + 1, depth + 1);
    Stay(t, e);
    WholeIs(value, depth + 1);
    MembersStep(t, |key|, e, depth);
    if t[e] == COMMA {
      MembersMoved(more, t, e + 1, 0, depth);
    }
  }

  lemma WholeIs(t: Bytes, depth: nat)
    requires Whole(t, depth)
    ensures t != []
  {
  }

  lemma MembersAre(key: Bytes, value: Bytes, tail: Bytes, more: Bytes, depth: nat)
    requires key != [] && StringAt(key, 0).Some? && StringAt(key, 0).value.1 == |key|
    requires Whole(value, depth + 1) && TailOk(tail, BRACE_CLOSE, more)
    requires tail != [BRACE_CLOSE] ==> more != [] && MembersEnd(more, 0, depth) == Some(|more|)
    ensures MembersEnd(key + [COLON] + value + tail, 0, depth) == Some(|key + [COLON] + value + tail|)
  {
    hide StringAt, ValueEnd, IsAt, MembersEnd, Whole, Follows, TailOk;
    var t, e := key + [COLON] + value + tail, |key| + 1 + |value|;
    TailFirst(tail, BRACE_CLOSE, more);
    MemberPlaces(key, value, tail);
    TailEnds(t, tail, BRACE_CLOSE, more, e);
    MembersAt(t, key, value, more, e, depth);
  }

  lemma MemberPlaces(key: Bytes, value: Bytes, tail: Bytes)
    requires tail != []
    ensures var t, v := key + [COLON] + value + tail, |key| + 1;
            var e := v + |value|;
            && e < |t| == e + |tail| && IsAt(t, key, 0) && t[|key|] == COLON && IsAt(t, value, v) && IsAt(t, tail, e)
            && t[e] == tail[0]
  {
    var t, v := key + [COLON] + value + tail, |key| + 1;
    var e := v + |value|;
    assert t[0..|key|] == key;
    assert t[v..e] == value;
    assert t[e..e + |tail|] == tail;
  }

  lemma MoreAt(t: Bytes, tail: Bytes, more: Bytes, e: nat)
    requires IsAt(t, tail, e) && tail == [COMMA] + more && |t| == e + |tail|
    ensures Stands(more, t, e + 1) && e + 1 + |more| == |t|
  {
    IsAtSplit(t, [COMMA], more, e);
  }

  lemma ElementsStep(t: Bytes, v: nat, depth: nat)
    requires v < |t| && ValueEnd(t, 0, depth + 1) == Some(v) && SkipSpace(t, v) == v
    ensures t[v] == BRACKET_CLOSE ==> ElementsEnd(t, 0, depth) == Some(v + 1)
    ensures t[v] == COMMA ==> ElementsEnd(t, 0, depth) == ElementsEnd(t, v + 1, depth)
  {
    hide SkipSpace, ValueEnd;
  }

  lemma ElementsAt(t: Bytes, value: Bytes, more: Bytes, depth: nat)
    requires |value| < |t| && IsAt(t, value, 0)
    requires Whole(value, depth + 1) && Follows(t, |value|, BRACKET_CLOSE, more)
    requires t[|value|] == COMMA ==> more != [] && ElementsEnd(more, 0, depth) == Some(|more|)
    ensures ElementsEnd(t, 0, depth) == Some(|t|)
  {
    hide SkipSpace, ValueEnd, IsAt, NumberByte, ElementsEnd, Whole, Stands;
    ValuePlaced(t, value, 0, depth + 1);
    Stay(t, |value|);
    ElementsStep(t, |value|, depth);
    if t[|value|] == COMMA {
      ElementsMoved(more, t, |value| + 1, 0, depth);
    }
  }

  lemma ElementsAre(value: Bytes, tail: Bytes, more: Bytes, depth: nat)
    requires Whole(value, depth + 1) && TailOk(tail, BRACKET_CLOSE, more)
    requires tail != [BRACKET_CLOSE] ==> more != [] && ElementsEnd(more, 0, depth) == Some(|more|)
    ensures ElementsEnd(value + tail, 0, depth) == Some(|value + tail|)
  {
    hide ValueEnd, IsAt, ElementsEnd, Whole, Follows, TailOk;
    TailFirst(tail, BRACKET_CLOSE, more);
    ElementPlaces(value, tail);
    TailEnds(value + tail, tail, BRACKET_CLOSE, more, |value|);
    ElementsAt(value + tail, value, more, depth);
  }

  lemma ElementPlaces(value: Bytes, tail: Bytes)
    requires tail != []
    ensures var t, e := value + tail, |value|;
            e < |t| == e + |tail| && IsAt(t, value, 0) && IsAt(t, tail, e) && t[e] == tail[0]
  {
    var t, e := value + tail, |value|;
    assert t[0..e] == value;
    assert t[e..e + |tail|] == tail;
  }

  /** Whitespace and then a piece. */
  lemma AfterSpaces(text: Bytes, p: nat, e: nat, t: Bytes)
    requires p <= |text| && SkipSpace(text, p) <= e <= |text| && Shortens(text[SkipSpace(text, p)..e], t)
    ensures Shortens(text[p..e], t)
  {
    hide Shortens, SkipSpace;
    SpacesVanish(text, p);
    SplitAt(text, p, SkipSpace(text, p), e);
    ShortensAppend(text[p..SkipSpace(text, p)], [], text[SkipSpace(text, p)..e], t);
    assert [] + t == t;
  }

  /** One byte of punctuation and then a piece. */
  lemma AfterByte(text: Bytes, q: nat, e: nat, t: Bytes)
    requires q < e <= |text| && !IsSpace(text[q]) && text[q] != QUOTE && Shortens(text[q + 1..e], t)
    ensures Shortens(text[q..e], [text[q]] + t)
  {
    hide Shortens;
    ByteKept(text[q]);
    ShortensAppend([text[q]], [text[q]], text[q + 1..e], t);
    assert text[q..e] == [text[q]] + text[q + 1..e];
  }

  lemma LastByte(text: Bytes, q: nat)
    requires q < |text| && !IsSpace(text[q]) && text[q] != QUOTE
    ensures Shortens(text[q..q + 1], [text[q]])
  {
    hide Shortens;
    ByteKept(text[q]);
    assert text[q..q + 1] == [text[q]];
  }

  lemma AfterPiece(text: Bytes, p: nat, q: nat, e: nat, t: Bytes, u: Bytes)
    requires p <= q <= e <= |text| && Shortens(text[p..q], t) && Shortens(text[q..e], u)
    ensures Shortens(text[p..e], t + u)
  {
    hide Shortens;
    SplitAt(text, p, q, e);
    ShortensAppend(text[p..q], t, text[q..e], u);
  }

  /** The short form of any value is a whole value. */
  lemma {:induction false} ValueShort(text: Bytes, p: nat, depth: nat) returns (t: Bytes)
    requires p <= |text| && ValueEnd(text, p, depth).Some?
    ensures Shortens(text[p..ValueEnd(text, p, depth).value], t) && Whole(t, depth)
    ensures SkipSpace(text, p) < |text| && t[0] == text[SkipSpace(text, p)]
    decreases |text| - p, 1
  {
    hide Shortens, StringAt, ScalarEnd, SkipSpace, MembersEnd, ElementsEnd, Whole;
    var q, e := SkipSpace(text, p), ValueEnd(text, p, depth).value;
    ScalarStarts(text, q);
    if text[q] == QUOTE {
      t := StringShort(text, p);
      StringIsValue(t, depth);
    } else if text[q] == BRACE_OPEN {
      t := ObjectShort(text, q, depth);
      AfterSpaces(text, p, e, t);
    } else if text[q] == BRACKET_OPEN {
      t := ArrayShort(text, q, depth);
      AfterSpaces(text, p, e, t);
    } else {
      t := ScalarShort(text, q, depth);
      AfterSpaces(text, p, e, t);
    }
  }

  lemma {:induction false} ObjectShort(text: Bytes, q: nat, depth: nat) returns (t: Bytes)
    requires q < |text| && text[q] == BRACE_OPEN && depth < MAX_NESTING
    requires var a := SkipSpace(text, q + 1); Has(text, a, BRACE_CLOSE) || MembersEnd(text, a, depth).Some?
    ensures var a := SkipSpace(text, q + 1);
            var e := if Has(text, a, BRACE_CLOSE) then a + 1 else MembersEnd(text, a, depth).value;
            q < e <= |text| && Shortens(text[q..e], t) && Whole(t, depth) && t[0] == BRACE_OPEN
    decreases |text| - q, 0
  {
    hide Shortens, StringAt, SkipSpace, MembersEnd, Whole;
    var a := SkipSpace(text, q + 1);
    if Has(text, a, BRACE_CLOSE) {
      LastByte(text, a);
      AfterSpaces(text, q + 1, a + 1, [BRACE_CLOSE]);
      AfterByte(text, q, a + 1, [BRACE_CLOSE]);
      t := [BRACE_OPEN, BRACE_CLOSE];
      assert [BRACE_OPEN] + [BRACE_CLOSE] == t;
      EmptyIsValue(BRACE_OPEN, BRACE_CLOSE, depth);
    } else {
      var m := MembersShort(text, a, depth);
      var e := MembersEnd(text, a, depth).value;
      AfterSpaces(text, q + 1, e, m);
      AfterByte(text, q, e, m);
      t := [BRACE_OPEN] + m;
      ObjectIsValue(m, depth);
    }
  }

  lemma {:induction false} ArrayShort(text: Bytes, q: nat, depth: nat) returns (t: Bytes)
    requires q < |text| && text[q] == BRACKET_OPEN && depth < MAX_NESTING
    requires var a := SkipSpace(text, q + 1); Has(text, a, BRACKET_CLOSE) || ElementsEnd(text, a, depth).Some?
    ensures var a := SkipSpace(text, q + 1);
            var e := if Has(text, a, BRACKET_CLOSE) then a + 1 else ElementsEnd(text, a, depth).value;
            q < e <= |text| && Shortens(text[q..e], t) && Whole(t, depth) && t[0] == BRACKET_OPEN
    decreases |text| - q, 0
  {
    hide Shortens, SkipSpace, ElementsEnd, Whole;
    var a := SkipSpace(text, q + 1);
    if Has(text, a, BRACKET_CLOSE) {
      LastByte(text, a);
      AfterSpaces(text, q + 1, a + 1, [BRACKET_CLOSE]);
      AfterByte(text, q, a + 1, [BRACKET_CLOSE]);
      t := [BRACKET_OPEN, BRACKET_CLOSE];
      assert [BRACKET_OPEN] + [BRACKET_CLOSE] == t;
      EmptyIsValue(BRACKET_OPEN, BRACKET_CLOSE, depth);
    } else {
      var m := ElementsShort(text, a, depth);
      var e := ElementsEnd(text, a, depth).value;
      AfterSpaces(text, q + 1, e, m);
      AfterByte(text, q, e, m);
      t := [BRACKET_OPEN] + m;
      ArrayIsValue(m, depth);
    }
  }

  lemma {:induction false} MembersShort(text: Bytes, p: nat, depth: nat) returns (t: Bytes)
    requires p <= |text| && MembersEnd(text, p, depth).Some?
    ensures Shortens(text[p..MembersEnd(text, p, depth).value], t) && t != [] && t[0] == QUOTE
    ensures MembersEnd(t, 0, depth) == Some(|t|)
    decreases |text| - p, 2
  {
    hide Shortens, StringAt, SkipSpace, ValueEnd, Whole, NumberByte;
    var k := StringAt(text, p).value.1;
    var c := SkipSpace(text, k);
    var v := ValueEnd(text, c + 1, depth + 1).value;
    var e := SkipSpace(text, v);
    var key := StringShort(text, p);
    var value := ValueShort(text, c + 1, depth + 1);
    var end, tail, more := MembersEnd(text, p, depth).value, [BRACE_CLOSE], [];
    if text[e] == COMMA {
      more := MembersShort(text, e + 1, depth);
      AfterByte(text, e, end, more);
      tail := [COMMA] + more;
    } else {
      LastByte(text, e);
    }
    AfterSpaces(text, v, end, tail);
    AfterPiece(text, c + 1, v, end, value, tail);
    AfterByte(text, c, end, value + tail);
    AfterSpaces(text, k, end, [COLON] + (value + tail));
    AfterPiece(text, p, k, end, key, [COLON] + (value + tail));
    t := key + [COLON] + value + tail;
    Regrouped(key, [COLON], value, tail);
    MembersAre(key, value, tail, more, depth);
  }

  lemma Regrouped(a: Bytes, b: Bytes, c: Bytes, d: Bytes)
    ensures a + b + c + d == a + (b + (c + d))
  {
  }

  lemma {:induction false} ElementsShort(text: Bytes, p: nat, depth: nat) returns (t: Bytes)
    requires p <= |text| && ElementsEnd(text, p, depth).Some?
    ensures Shortens(text[p..ElementsEnd(text, p, depth).value], t) && t != [] && !IsSpace(t[0]) && t[0] != BRACKET_CLOSE
    ensures ElementsEnd(t, 0, depth) == Some(|t|)
    decreases |text| - p, 2
  {
    hide Shortens, SkipSpace, ValueEnd, NumberByte;
    var v := ValueEnd(text, p, depth + 1).value;
    var e := SkipSpace(text, v);
    var value := ValueShort(text, p, depth + 1);
    var end, tail, more := ElementsEnd(text, p, depth).value, [BRACKET_CLOSE], [];
    if text[e] == COMMA {
      more := ElementsShort(text, e + 1, depth);
      AfterByte(text, e, end, more);
      tail := [COMMA] + more;
    } else {
      LastByte(text, e);
    }
    AfterSpaces(text, v, end, tail);
    AfterPiece(text, p, v, end, value, tail);
    t := value + tail;
    ElementsAre(value, tail, more, depth);
  }

  // Minified texts

  /** Minifying a text that starts with a value gives a whole value, which minifying
      again leaves alone. */
  lemma MinifiedIsMinimal(json: Bytes)
    requires ValueEnd(json, 0, 0).Some?
    ensures Minimal(Minified(json)) && Minified(json)[0] == json[SkipSpace(json, 0)]
  {
    hide ValueEnd, SkipSpace, Stripped;
    var q, e := SkipSpace(json, 0), ValueEnd(json, 0, 0).value;
    ValueAfterSpace(json);
    var t := ValueShort(json, 0, 0);
    SplitAt(json, 0, q, e);
    SpacesVanish(json, 0);
    StrippedAppend(json[0..q], json[q..e], OUT);
    assert [] + Stripped(json[q..e], false, false) == Stripped(json[q..e], false, false);
    NoSpaceFirst(t);
    assert t[0..|t|] == t;
  }

  lemma ValueAfterSpace(json: Bytes)
    requires ValueEnd(json, 0, 0).Some?
    ensures SkipSpace(json, 0) <= ValueEnd(json, 0, 0).value
  {
    hide SkipSpace, Decoded;
  }

  /** A member as the server reads it is a string or in its shortest form. */
  lemma ValueIsShort(text: Bytes, key: Bytes, p: nat)
    requires p <= |text| && ReadValue(text, key, p).Some?
    ensures var a := ReadValue(text, key, p).value.0; a.isString || RawPlain(a.value)
  {
    hide ValueEnd, Decoded, SkipSpace, Minified, Minimal;
    var v := SkipSpace(text, p);
    if !Has(text, v, QUOTE) {
      var e := ValueEnd(text, v, 0).value;
      var part := text[v..e];
      PieceAt(text, v, e);
      ValueInPart(part, text, v, 0, 0);
      SkipTwice(text, p);
      MinifiedIsMinimal(part);
      NotEmpty(Minified(part));
      assert part[0] == text[v];
    }
  }

  lemma SkipTwice(text: Bytes, p: nat)
    requires p <= |text|
    ensures SkipSpace(text, SkipSpace(text, p)) == SkipSpace(text, p)
  {
  }

  lemma NotEmpty(json: Bytes)
    requires Minimal(json)
    ensures json != []
  {
  }

  lemma {:induction false} MembersAreShort(text: Bytes, p: nat)
    requires p <= |text| && ReadMembers(text, p).Some?
    ensures forall a :: a in ReadMembers(text, p).value ==> a.isString || RawPlain(a.value)
    decreases |text| - p
  {
    hide StringAt, ReadValue, SkipSpace, NextMember, RawPlain;
    if text[p] != BRACE_CLOSE {
      var key := StringAt(text, p).value;
      var c := SkipSpace(text, key.1);
      var arg := ReadValue(text, key.0, c + 1).value;
      ValueIsShort(text, key.0, c + 1);
      MembersAreShort(text, NextMember(text, arg.1));
    }
  }

  /** So are all members of the arguments of a call. */
  lemma ParsedIsShort(json: Bytes)
    ensures match ParseArguments(json)
            case Members(args) => forall a :: a in args ==> a.isString || RawPlain(a.value)
            case Unparsed(text) => text == json
  {
    hide SkipSpace, ReadMembers, RawPlain;
    var p := SkipSpace(json, 0);
    if Has(json, p, BRACE_OPEN) && ReadMembers(json, SkipSpace(json, p + 1)).Some? {
      MembersAreShort(json, SkipSpace(json, p + 1));
    }
  }
}
