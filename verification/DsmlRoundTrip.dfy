/** Parsing rendered tool calls gives the calls back. */
module DsmlRoundTrip {
  import opened ByteStrings
  import opened Dsml
  import opened DsmlRender
  import opened DsmlParse
  import opened StreamHold

  const STRING_EQ := Ascii("string=")
  const FALSE := Ascii("false")

  ghost predicate Free(s: Bytes, b: Byte) {
    forall i :: 0 <= i < |s| ==> s[i] != b
  }

  predicate EndsWith(s: Bytes, t: Bytes) {
    |t| <= |s| && s[|s| - |t|..] == t
  }

  // Attribute values

  lemma AttrByteClean(b: Byte)
    ensures Free(AttrByte(b), QUOTE) && Free(AttrByte(b), GT) && Free(AttrByte(b), LT)
  {
  }

  lemma FreeAppend(s: Bytes, t: Bytes, b: Byte)
    ensures Free(s + t, b) <==> Free(s, b) && Free(t, b)
  {
    if Free(s + t, b) {
      assert forall i :: 0 <= i < |s| ==> (s + t)[i] == s[i];
      assert forall i :: 0 <= i < |t| ==> (s + t)[|s| + i] == t[i];
    }
  }

  lemma {:induction false} AttrEscapedClean(s: Bytes)
    ensures Free(AttrEscaped(s), QUOTE) && Free(AttrEscaped(s), GT) && Free(AttrEscaped(s), LT)
  {
    if s != [] {
      hide AttrByte, Free;
      AttrEscapedClean(s[1..]);
      AttrByteClean(s[0]);
      FreeAppend(AttrByte(s[0]), AttrEscaped(s[1..]), QUOTE);
      FreeAppend(AttrByte(s[0]), AttrEscaped(s[1..]), GT);
      FreeAppend(AttrByte(s[0]), AttrEscaped(s[1..]), LT);
    }
  }

  lemma EntityAmp(s: Bytes, a: nat)
    requires EntityAt(s, a).Some?
    ensures s[a] == AMP
  {
    EntityText(s, a);
    ByteAt(s, EntityName(s, a), a, 0);
  }

  lemma NoEntityStart(s: Bytes)
    requires s != [] && s[0] != AMP
    ensures EntityAt(s, 0).None?
  {
    hide EntityAt;
    if EntityAt(s, 0).Some? {
      EntityAmp(s, 0);
    }
  }

  lemma EntitiesDiffer()
    ensures LT_ENTITY != AMP_ENTITY && GT_ENTITY != AMP_ENTITY && GT_ENTITY != LT_ENTITY
    ensures QUOT_ENTITY != AMP_ENTITY && QUOT_ENTITY != LT_ENTITY && QUOT_ENTITY != GT_ENTITY
    ensures APOS_ENTITY != AMP_ENTITY && APOS_ENTITY != LT_ENTITY && APOS_ENTITY != GT_ENTITY && APOS_ENTITY != QUOT_ENTITY
  {
    assert GT_ENTITY[1] != LT_ENTITY[1] && APOS_ENTITY[1] != QUOT_ENTITY[1];
  }

  /** An entity in front of a text stands for its byte. */
  lemma UnescapedEntity(t: Bytes, b: Byte, s: Bytes)
    requires || (t, b) == (AMP_ENTITY, AMP) || (t, b) == (LT_ENTITY, LT) || (t, b) == (GT_ENTITY, GT)
             || (t, b) == (QUOT_ENTITY, QUOTE) || (t, b) == (APOS_ENTITY, APOS)
    ensures Unescaped(t + s) == [b] + Unescaped(s)
  {
    EntitiesDiffer();
    hide EntityAt, Unescaped, AMP_ENTITY, LT_ENTITY, GT_ENTITY, QUOT_ENTITY, APOS_ENTITY;
    assert (t + s)[0..|t|] == t && (t + s)[|t|..] == s;
    EntityFrom(t + s, 0, t);
    UnescapedStep(t + s);
  }

  lemma UnescapedPlain(b: Byte, s: Bytes)
    requires b != AMP
    ensures Unescaped([b] + s) == [b] + Unescaped(s)
  {
    hide EntityAt, Unescaped;
    NoEntityStart([b] + s);
    assert ([b] + s)[1..] == s;
    UnescapedStep([b] + s);
  }

  /** The escape of a byte in front of a text stands for the byte. */
  lemma UnescapedByte(b: Byte, s: Bytes)
    ensures Unescaped(AttrByte(b) + s) == [b] + Unescaped(s)
  {
    hide Unescaped;
    if b == AMP || b == LT || b == GT || b == QUOTE {
      UnescapedEntity(AttrByte(b), b, s);
    } else {
      UnescapedPlain(b, s);
    }
  }

  lemma {:induction false} AttrRoundTrip(s: Bytes)
    ensures Unescaped(AttrEscaped(s)) == s
  {
    hide Unescaped, AttrByte;
    if s == [] {
      UnescapedNothing();
    } else {
      AttrRoundTrip(s[1..]);
      UnescapedByte(s[0], AttrEscaped(s[1..]));
      assert s == [s[0]] + s[1..];
    }
  }

  // Tool results

  lemma TextByteClean(b: Byte)
    ensures Free(TextByte(b), LT) && Free(TextByte(b), GT)
  {
  }

  lemma UnescapedTextByte(b: Byte, s: Bytes)
    ensures Unescaped(TextByte(b) + s) == [b] + Unescaped(s)
  {
    hide Unescaped;
    if b == AMP || b == LT || b == GT {
      UnescapedEntity(TextByte(b), b, s);
    } else {
      UnescapedPlain(b, s);
    }
  }

  /** An escaped text has neither `<` nor `>` and unescapes to the text. */
  lemma {:induction false} TextRoundTrip(s: Bytes)
    ensures Unescaped(TextEscaped(s)) == s
    ensures Free(TextEscaped(s), LT) && Free(TextEscaped(s), GT)
  {
    hide Unescaped, TextByte, Free;
    if s == [] {
      UnescapedNothing();
      NothingIsFree();
    } else {
      TextRoundTrip(s[1..]);
      TextByteClean(s[0]);
      UnescapedTextByte(s[0], TextEscaped(s[1..]));
      FreeAppend(TextByte(s[0]), TextEscaped(s[1..]), LT);
      FreeAppend(TextByte(s[0]), TextEscaped(s[1..]), GT);
      assert s == [s[0]] + s[1..];
    }
  }

  lemma NothingIsFree()
    ensures forall b :: Free([], b)
  {
  }

  /** Reading an attribute at the first place its name and opening quote stand. */
  lemma AttrIs(tag: Bytes, name: Bytes, pat: Bytes, pre: Bytes, val: Bytes, post: Bytes)
    requires pat == name + Ascii("=\"") && tag == pre + pat + val + [QUOTE] + post && Free(val, QUOTE)
    requires forall k :: 0 <= k < |pre| ==> !IsAt(tag, pat, k)
    ensures Attr(tag, name) == Some(Unescaped(val))
  {
    hide Unescaped, Free, IsAt, FindFrom, Ascii;
    var p, v, q := |pre|, |pre| + |pat|, |pre| + |pat| + |val|;
    AttrPlaces(tag, pat, pre, val, post);
    FoundAt(tag, pat, 0, p);
    forall k | v <= k < q
      ensures !IsAt(tag, [QUOTE], k)
    {
      NoQuoteInside(tag, v, q, val, k);
    }
    FoundAt(tag, [QUOTE], v, q);
  }

  lemma AttrPlaces(tag: Bytes, pat: Bytes, pre: Bytes, val: Bytes, post: Bytes)
    requires tag == pre + pat + val + [QUOTE] + post
    ensures var v := |pre| + |pat|;
            var q := v + |val|;
            q < |tag| && tag[v..q] == val && IsAt(tag, pat, |pre|) && IsAt(tag, [QUOTE], q)
  {
    var p, v, q := |pre|, |pre| + |pat|, |pre| + |pat| + |val|;
    assert tag[p..v] == pat;
    assert tag[v..q] == val;
    assert tag[q..q + 1] == [QUOTE];
  }

  lemma NoQuoteInside(tag: Bytes, v: nat, q: nat, val: Bytes, k: nat)
    requires v <= k < q <= |tag| && tag[v..q] == val && Free(val, QUOTE)
    ensures !IsAt(tag, [QUOTE], k)
  {
    hide IsAt;
    assert tag[k] == val[k - v];
    if IsAt(tag, [QUOTE], k) {
      ByteAt(tag, [QUOTE], k, 0);
    }
  }

  /** A pattern that ends in a quote cannot end before the first quote. */
  lemma NotBeforeQuote(tag: Bytes, pat: Bytes, pre: Bytes, rest: Bytes)
    requires tag == pre + rest && Free(pre, QUOTE) && pat != [] && pat[|pat| - 1] == QUOTE
    ensures forall k :: 0 <= k && k + |pat| <= |pre| ==> !IsAt(tag, pat, k)
  {
    hide IsAt;
    forall k | 0 <= k && k + |pat| <= |pre|
      ensures !IsAt(tag, pat, k)
    {
      if IsAt(tag, pat, k) {
        ByteAt(tag, pat, k, |pat| - 1);
      }
    }
  }

  // The two kinds of tag

  function InvokeTag(name: Bytes): Bytes {
    FULL.invokeStart + NAME_OPEN + AttrEscaped(name) + TAG_CLOSE
  }

  function ParamTag(key: Bytes, kind: Bytes): Bytes {
    FULL.paramStart + NAME_OPEN + AttrEscaped(key) + STRING_OPEN + kind + TAG_CLOSE
  }

  /** The opening tags have neither quotes nor `>`. */
  lemma StartsClean()
    ensures Free(FULL.invokeStart, QUOTE) && Free(FULL.invokeStart, GT)
    ensures Free(FULL.paramStart, QUOTE) && Free(FULL.paramStart, GT)
  {
  }

  const NAME_PATTERN := NAME + Ascii("=\"")
  const STRING_PATTERN := STRING + Ascii("=\"")

  lemma PatternEnds()
    ensures NAME_PATTERN[|NAME_PATTERN| - 1] == QUOTE && NAME_OPEN == Ascii(" ") + NAME_PATTERN
    ensures NAME_PATTERN == NAME + Ascii("=\"") && STRING_PATTERN == STRING + Ascii("=\"")
    ensures NAME_PATTERN == NAME + Ascii("=") + [QUOTE] && Free(Ascii(" ") + NAME + Ascii("="), QUOTE)
    ensures STRING_OPEN == [QUOTE] + Ascii(" ") + STRING_PATTERN && TAG_CLOSE == [QUOTE] + [GT]
  {
  }

  /** The name is the first attribute of a tag. */
  lemma FirstAttr(start: Bytes, escaped: Bytes, rest: Bytes)
    requires Free(start, QUOTE) && Free(escaped, QUOTE)
    ensures Attr(start + NAME_OPEN + escaped + [QUOTE] + rest, NAME) == Some(Unescaped(escaped))
  {
    PatternEnds();
    hide NAME, NAME_PATTERN, NAME_OPEN, Free, IsAt, Attr, Unescaped, Ascii;
    var tag, pre := start + NAME_OPEN + escaped + [QUOTE] + rest, start + Ascii(" ");
    var head, tail := start + (Ascii(" ") + NAME + Ascii("=")), [QUOTE] + escaped + [QUOTE] + rest;
    assert tag == head + tail;
    FreeAppend(start, Ascii(" ") + NAME + Ascii("="), QUOTE);
    NotBeforeQuote(tag, NAME_PATTERN, head, tail);
    assert |head| == |pre| + |NAME_PATTERN| - 1;
    assert tag == pre + NAME_PATTERN + escaped + [QUOTE] + rest;
    AttrIs(tag, NAME, NAME_PATTERN, pre, escaped, rest);
  }

  /** The kind is found behind the name, unless the name seems to announce it. */
  lemma SecondAttr(start: Bytes, escaped: Bytes, kind: Bytes)
    requires Free(start, QUOTE) && Free(escaped, QUOTE) && Free(kind, QUOTE) && !EndsWith(escaped, STRING_EQ)
    ensures Attr(start + NAME_OPEN + escaped + STRING_OPEN + kind + TAG_CLOSE, STRING) == Some(Unescaped(kind))
  {
    PatternEnds();
    hide NAME_OPEN, STRING_OPEN, TAG_CLOSE, STRING, STRING_PATTERN, IsAt, Attr, Unescaped, Free, Ascii, EndsWith;
    var tag, rest := start + NAME_OPEN + escaped + STRING_OPEN + kind + TAG_CLOSE, STRING_OPEN + kind + TAG_CLOSE;
    var pre := start + NAME_OPEN + escaped + ([QUOTE] + Ascii(" "));
    assert tag == start + NAME_OPEN + escaped + rest;
    forall k | 0 <= k < |pre|
      ensures !IsAt(tag, STRING_PATTERN, k)
    {
      NoEarlyKind(start, escaped, rest, k);
    }
    assert tag == pre + STRING_PATTERN + kind + [QUOTE] + [GT];
    AttrIs(tag, STRING, STRING_PATTERN, pre, kind, [GT]);
  }

  /** The bytes around the name. */
  lemma NameBytes(start: Bytes, escaped: Bytes, rest: Bytes, i: nat)
    requires Free(start, QUOTE) && Free(escaped, QUOTE) && STRING_OPEN <= rest
    ensures var tag, q := start + NAME_OPEN + escaped + rest, |start| + |NAME_OPEN| - 1;
            && tag[q - 2] == 0x65 && tag[q] == QUOTE
            && (forall k :: 0 <= k < |escaped| ==> tag[q + 1 + k] == escaped[k])
            && (i < q + |escaped| + |STRING_OPEN| && tag[i] == QUOTE ==> i == q || i == q + 1 + |escaped|)
  {
    var tag, q := start + NAME_OPEN + escaped + rest, |start| + |NAME_OPEN| - 1;
    if i < |start| {
      assert tag[i] == start[i];
    } else if i <= q {
      assert tag[i] == NAME_OPEN[i - |start|];
    } else if i < q + 1 + |escaped| {
      assert tag[i] == escaped[i - q - 1];
    } else if i < q + |escaped| + |STRING_OPEN| {
      assert tag[i] == rest[i - q - 1 - |escaped|] == STRING_OPEN[i - q - 1 - |escaped|];
    }
  }

  lemma NoEarlyKind(start: Bytes, escaped: Bytes, rest: Bytes, k: nat)
    requires Free(start, QUOTE) && Free(escaped, QUOTE) && !EndsWith(escaped, STRING_EQ) && STRING_OPEN <= rest
    requires k < |start| + |NAME_OPEN| + |escaped| + 2
    ensures !IsAt(start + NAME_OPEN + escaped + rest, STRING_PATTERN, k)
  {
    hide IsAt, EndsWith, Free, STRING_PATTERN, NAME_OPEN, STRING_EQ;
    var tag, q := start + NAME_OPEN + escaped + rest, |start| + |NAME_OPEN| - 1;
    PatternBytes();
    NameBytes(start, escaped, rest, k + 7);
    NoPatternAt(tag, escaped, q, k);
  }

  lemma PatternBytes()
    ensures |STRING_PATTERN| == 8 && |STRING_EQ| == 7 && |NAME_OPEN| >= 3 && STRING_PATTERN[5] == 0x67 && STRING_PATTERN[7] == QUOTE
    ensures forall i :: 0 <= i < 7 ==> STRING_PATTERN[i] == STRING_EQ[i] && STRING_EQ[i] != QUOTE
  {
  }

  /** The pattern cannot end at the first quote, nor at the second unless the name
      in between ends like the pattern. */
  lemma NoPatternAt(tag: Bytes, escaped: Bytes, q: nat, k: nat)
    requires 2 <= q && q + 1 + |escaped| < |tag| && tag[q - 2] == 0x65 && tag[q] == QUOTE
    requires forall i :: 0 <= i < |escaped| ==> tag[q + 1 + i] == escaped[i]
    requires k + 7 < |tag| && tag[k + 7] == QUOTE ==> k + 7 == q || k + 7 == q + 1 + |escaped|
    requires !EndsWith(escaped, STRING_EQ)
    ensures !IsAt(tag, STRING_PATTERN, k)
  {
    hide IsAt, EndsWith, STRING_PATTERN, STRING_EQ;
    PatternBytes();
    if IsAt(tag, STRING_PATTERN, k) {
      ByteAt(tag, STRING_PATTERN, k, 7);
      if k + 7 == q {
        ByteAt(tag, STRING_PATTERN, k, 5);
      } else if |escaped| < 7 {
        ByteAt(tag, STRING_PATTERN, k, 6 - |escaped|);
      } else {
        forall i | 0 <= i < 7
          ensures escaped[|escaped| - 7 + i] == STRING_EQ[i]
        {
          ByteAt(tag, STRING_PATTERN, k, i);
          assert tag[q + 1 + (|escaped| - 7 + i)] == escaped[|escaped| - 7 + i];
        }
        SuffixIs(escaped);
      }
    }
  }

  lemma SuffixIs(s: Bytes)
    requires |s| >= 7 && forall i :: 0 <= i < 7 ==> s[|s| - 7 + i] == STRING_EQ[i]
    ensures EndsWith(s, STRING_EQ)
  {
    assert s[|s| - 7..] == STRING_EQ;
  }

  lemma {:induction false} AttrEscapedAppend(s: Bytes, t: Bytes)
    ensures AttrEscaped(s + t) == AttrEscaped(s) + AttrEscaped(t)
  {
    hide AttrByte;
    if s == [] {
      assert s + t == t;
    } else {
      assert (s + t)[1..] == s[1..] + t;
      AttrEscapedAppend(s[1..], t);
    }
  }

  /** The last bytes of an escaped text, when no `;` is among them, are those of the
      text. */
  lemma {:induction false} EscapedTail(s: Bytes, t: Bytes)
    requires EndsWith(AttrEscaped(s), t) && Free(t, 0x3b)
    ensures EndsWith(s, t)
    decreases |s|
  {
    hide EndsWith, AttrByte, Free, AttrEscaped;
    if t == [] || s == [] {
      NothingEscaped(s, t);
    } else {
      var n, m := |s| - 1, |t| - 1;
      assert s == s[..n] + [s[n]];
      AttrEscapedAppend(s[..n], [s[n]]);
      OneEscaped(s[n]);
      TailOf(AttrEscaped(s[..n]), s[n], t);
      EscapedTail(s[..n], t[..m]);
      TailBack(s, t);
    }
  }

  lemma OneEscaped(b: Byte)
    ensures AttrEscaped([b]) == AttrByte(b)
  {
    assert AttrByte(b) + [] == AttrByte(b);
  }

  lemma NothingEscaped(s: Bytes, t: Bytes)
    requires EndsWith(AttrEscaped(s), t) && (t == [] || s == [])
    ensures EndsWith(s, t)
  {
  }

  lemma TailOf(f: Bytes, b: Byte, t: Bytes)
    requires t != [] && EndsWith(f + AttrByte(b), t) && Free(t, 0x3b)
    ensures t[|t| - 1] == b && EndsWith(f, t[..|t| - 1]) && Free(t[..|t| - 1], 0x3b)
  {
    LastEscaped(b);
    hide AttrByte;
    var e, m := f + AttrByte(b), |t| - 1;
    assert e[|e| - |t|..][m] == e[|e| - 1] == t[m];
    assert e[|e| - 1] == AttrByte(b)[|AttrByte(b)| - 1];
    assert AttrByte(b) == [b];
    assert f[|f| - m..] == e[|e| - |t|..][..m];
  }

  lemma TailBack(s: Bytes, t: Bytes)
    requires s != [] && t != [] && s[|s| - 1] == t[|t| - 1] && EndsWith(s[..|s| - 1], t[..|t| - 1])
    ensures EndsWith(s, t)
  {
    var n, m := |s| - 1, |t| - 1;
    assert s[|s| - |t|..] == s[..n][n - m..] + [s[n]];
  }

  lemma LastEscaped(b: Byte)
    ensures AttrByte(b) != [] && (AttrByte(b)[|AttrByte(b)| - 1] == 0x3b || AttrByte(b) == [b])
  {
  }

  /** Escaping neither makes nor hides the suspicious ending. */
  lemma EscapedEnding(s: Bytes)
    ensures EndsWith(AttrEscaped(s), STRING_EQ) <==> EndsWith(s, STRING_EQ)
  {
    hide AttrEscaped;
    if EndsWith(AttrEscaped(s), STRING_EQ) {
      EscapedTail(s, STRING_EQ);
    }
    if EndsWith(s, STRING_EQ) {
      var n := |s| - 7;
      assert s == s[..n] + STRING_EQ;
      AttrEscapedAppend(s[..n], STRING_EQ);
      StringEqPlain();
      var e := AttrEscaped(s);
      assert e[|e| - 7..] == STRING_EQ;
    }
  }

  lemma StringEqPlain()
    ensures AttrEscaped(STRING_EQ) == STRING_EQ
  {
    PlainEscape(STRING_EQ);
  }

  lemma {:induction false} PlainEscape(s: Bytes)
    requires Free(s, AMP) && Free(s, LT) && Free(s, GT) && Free(s, QUOTE)
    ensures AttrEscaped(s) == s
  {
    if s != [] {
      PlainEscape(s[1..]);
      assert s == [s[0]] + s[1..];
    }
  }

  // Parameter values

  /** The closing tag starts with `<` only and holds neither `&` nor backslash. */
  lemma EndIs()
    ensures EndShape(END) && Free(END, AMP) && Free(END, BACKSLASH)
  {
    EndBytes();
    hide END, Free, Tags;
    TagsShape(FULL_MARK);
  }

  lemma EndBytes()
    ensures Free(END, AMP) && Free(END, BACKSLASH) && END == Tags(FULL_MARK).paramEnd
  {
  }

  ghost predicate NoEnd(s: Bytes) {
    forall k :: 0 <= k ==> !IsAt(s, END, k)
  }

  /** A shield starts with a byte no closing tag has. */
  ghost predicate ShieldOk(shield: Bytes) {
    shield != [] && Free(shield, LT) && Free(END, shield[0])
  }

  lemma ShieldsOk()
    ensures ShieldOk(LT_ENTITY) && ShieldOk(Ascii("\\u003c"))
  {
    EndIs();
  }

  /** Shielding shows by the first byte of the shield; before that nothing changes. */
  lemma {:induction false} SameBeforeShield(s: Bytes, shield: Bytes, n: nat)
    requires shield != [] && n <= |Shielded(s, shield)|
    requires forall i :: 0 <= i < n ==> Shielded(s, shield)[i] != shield[0]
    ensures n <= |s| && s[..n] == Shielded(s, shield)[..n]
    decreases n
  {
    hide IsAt;
    if n > 0 {
      var r := Shielded(s[1..], shield);
      assert Shielded(s, shield)[0] != shield[0];
      assert Shielded(s, shield) == [s[0]] + r;
      assert forall i :: 0 <= i < n - 1 ==> r[i] == Shielded(s, shield)[i + 1];
      SameBeforeShield(s[1..], shield, n - 1);
      assert s[..n] == [s[0]] + s[1..][..n - 1];
    }
  }

  lemma NoEndAtStart(s: Bytes, shield: Bytes)
    requires ShieldOk(shield)
    ensures !IsAt(Shielded(s, shield), END, 0)
  {
    hide IsAt, END;
    var r := Shielded(s, shield);
    EndIs();
    if IsAt(r, END, 0) {
      forall i | 0 <= i < |END|
        ensures i < |r| && r[i] != shield[0]
      {
        ByteAt(r, END, 0, i);
      }
      Within(r, END, 0);
      SameBeforeShield(s, shield, |END|);
      SameStart(s, r, END);
    }
  }

  lemma SameStart(s: Bytes, r: Bytes, t: Bytes)
    requires |t| <= |s| && IsAt(r, t, 0) && |t| <= |r| && s[..|t|] == r[..|t|]
    ensures IsAt(s, t, 0)
  {
    assert s[0..|t|] == s[..|t|] && r[0..|t|] == r[..|t|];
  }

  lemma {:induction false} ShieldedNoEndAt(s: Bytes, shield: Bytes, k: nat)
    requires ShieldOk(shield)
    ensures !IsAt(Shielded(s, shield), END, k)
  {
    EndIs();
    hide IsAt, END;
    var r := Shielded(s, shield);
    if k == 0 {
      NoEndAtStart(s, shield);
    } else if s == [] {
      EmptyHasNoEnd(k);
    } else {
      var head, rest := if IsAt(s, END, 0) then shield else [s[0]], Shielded(s[1..], shield);
      assert r == head + rest;
      if IsAt(r, END, k) {
        if k < |head| {
          ByteAt(r, END, k, 0);
        } else {
          ShieldedNoEndAt(s[1..], shield, k - |head|);
          AtRest(head, rest, END, k);
        }
      }
    }
  }

  lemma EmptyHasNoEnd(k: nat)
    ensures !IsAt([], END, k)
  {
  }

  lemma AtRest(head: Bytes, rest: Bytes, t: Bytes, k: nat)
    requires IsAt(head + rest, t, k) && k >= |head|
    ensures IsAt(rest, t, k - |head|)
  {
    assert (head + rest)[k..k + |t|] == rest[k - |head|..k - |head| + |t|];
  }

  lemma ShieldedHasNoEnd(s: Bytes, shield: Bytes)
    requires ShieldOk(shield)
    ensures NoEnd(Shielded(s, shield))
  {
    forall k: nat
      ensures !IsAt(Shielded(s, shield), END, k)
    {
      ShieldedNoEndAt(s, shield, k);
    }
  }

  /** A literal without a closing tag is written as it is. */
  lemma {:induction false} NothingToShield(s: Bytes, shield: Bytes)
    requires NoEnd(s)
    ensures Shielded(s, shield) == s
  {
    hide END;
    if s != [] {
      assert !IsAt(s, END, 0);
      NoEndTail(s);
      NothingToShield(s[1..], shield);
      assert s == [s[0]] + s[1..];
    }
  }

  lemma NoEndTail(s: Bytes)
    requires NoEnd(s) && s != []
    ensures NoEnd(s[1..])
  {
    hide END, IsAt;
    forall k: nat
      ensures !IsAt(s[1..], END, k)
    {
      assert !IsAt(s, END, k + 1);
      if IsAt(s[1..], END, k) {
        TailAt(s, END, k);
      }
    }
  }

  lemma TailAt(s: Bytes, t: Bytes, k: nat)
    requires s != [] && IsAt(s[1..], t, k)
    ensures IsAt(s, t, k + 1)
  {
    assert s[1..][k..k + |t|] == s[k + 1..k + 1 + |t|];
  }

  lemma SubAt(s: Bytes, v: nat, value: Bytes, t: Bytes, k: nat)
    requires IsAt(s, value, v) && IsAt(s, t, k) && v <= k && k + |t| <= v + |value|
    ensures IsAt(value, t, k - v)
  {
    hide IsAt;
    Within(s, t, k);
    forall i: nat | i < |t|
      ensures value[k - v + i] == t[i]
    {
      ByteAt(s, value, v, k - v + i);
      ByteAt(s, t, k, i);
    }
    IsAtBytes(value, t, k - v);
  }

  /** The value ends where the closing tag was written. */
  lemma ValueEnds(s: Bytes, v: nat, value: Bytes)
    requires IsAt(s, value + END, v) && NoEnd(value)
    ensures FindFrom(s, END, v) == Some(v + |value|) && s[v..v + |value|] == value
  {
    EndIs();
    hide END;
    IsAtSplit(s, value, END, v);
    forall k | v <= k < v + |value|
      ensures !IsAt(s, END, k)
    {
      NotInValue(s, v, value, k);
    }
    FoundAt(s, END, v, v + |value|);
  }

  lemma NotInValue(s: Bytes, v: nat, value: Bytes, k: nat)
    requires IsAt(s, value, v) && IsAt(s, END, v + |value|) && NoEnd(value) && TagShape(END) && v <= k < v + |value|
    ensures !IsAt(s, END, k)
  {
    hide END, IsAt;
    if IsAt(s, END, k) {
      if k + |END| <= v + |value| {
        SubAt(s, v, value, END, k);
      } else {
        NoTagInside(s, END, END, k, v + |value|);
      }
    }
  }

  // Entities in values

  ghost predicate NoEntity(s: Bytes) {
    forall a: nat :: EntityAt(s, a).None?
  }

  lemma ParamTextStep(s: Bytes)
    requires s != []
    ensures ParamText(s) == (if IsAt(s, END, 0) then LT_ENTITY else [s[0]]) + ParamText(s[1..])
  {
    hide IsAt;
  }

  /** Up to the first `<` a value is written as it stands. */
  lemma {:induction false} PlainStart(s: Bytes, n: nat)
    requires n <= |s| && forall i :: 0 <= i < n ==> s[i] != LT
    ensures ParamText(s) == s[..n] + ParamText(s[n..])
    decreases n
  {
    hide ParamText, END;
    if n == 0 {
      assert s[0..] == s && s[..0] == [];
    } else {
      NoEndHere(s);
      ParamTextStep(s);
      PlainStart(s[1..], n - 1);
      assert s[1..][n - 1..] == s[n..] && [s[0]] + s[1..][..n - 1] == s[..n];
      assert [s[0]] + (s[1..][..n - 1] + ParamText(s[n..])) == s[..n] + ParamText(s[n..]);
    }
  }

  lemma NoEndHere(s: Bytes)
    requires s != [] && s[0] != LT
    ensures !IsAt(s, END, 0)
  {
    hide IsAt;
    if IsAt(s, END, 0) {
      EndIs();
      ByteAt(s, END, 0, 0);
    }
  }

  lemma NameIsEntity(s: Bytes, a: nat)
    requires EntityAt(s, a).Some?
    ensures var t := EntityName(s, a);
            t == AMP_ENTITY || t == LT_ENTITY || t == GT_ENTITY || t == QUOT_ENTITY || t == APOS_ENTITY
  {
  }

  /** The same spelling is the same entity. */
  lemma SameEntity(s: Bytes, r: Bytes)
    requires EntityAt(s, 0).Some? && IsAt(r, EntityName(s, 0), 0)
    ensures EntityAt(r, 0) == EntityAt(s, 0)
  {
    var t := EntityName(s, 0);
    EntityText(s, 0);
    NameIsEntity(s, 0);
    EntityFrom(s, 0, t);
    EntityFrom(r, 0, t);
  }

  /** An entity in front of a value is written as it stands. */
  lemma EntityWritten(s: Bytes, n: nat)
    requires EntityAt(s, 0).Some? && n == EntityAt(s, 0).value.0
    ensures n <= |s| && ParamText(s) == s[..n] + ParamText(s[n..])
  {
    EntityText(s, 0);
    var t := EntityName(s, 0);
    hide EntityAt, EntityName, ParamText;
    Within(s, t, 0);
    forall i | 0 <= i < n
      ensures s[i] != LT
    {
      ByteAt(s, t, 0, i);
    }
    PlainStart(s, n);
  }

  /** Writing a value neither makes nor changes an entity at its start. */
  lemma EntityKept(s: Bytes)
    requires s != [] && s[0] == AMP
    ensures EntityAt(ParamText(s), 0) == EntityAt(s, 0)
  {
    var r := ParamText(s);
    hide EntityAt, EntityName, Shielded, END;
    if EntityAt(s, 0).Some? {
      var n := EntityAt(s, 0).value.0;
      EntityWritten(s, n);
      EntityText(s, 0);
      StartAt(s, r, EntityName(s, 0));
      SameEntity(s, r);
    } else if EntityAt(r, 0).Some? {
      EntityBack(s);
    }
  }

  lemma StartAt(s: Bytes, r: Bytes, t: Bytes)
    requires IsAt(s, t, 0) && s[..|t|] <= r
    ensures IsAt(r, t, 0)
  {
    assert s[0..|t|] == s[..|t|] == r[0..|t|];
  }

  /** An entity at the start of a written value was in the value. */
  lemma EntityBack(s: Bytes)
    requires s != [] && s[0] == AMP && EntityAt(ParamText(s), 0).Some?
    ensures EntityAt(s, 0).Some?
  {
    var r := ParamText(s);
    EntityText(r, 0);
    var t := EntityName(r, 0);
    NoEndHere(s);
    ParamTextStep(s);
    Within(r, t, 0);
    hide EntityAt, EntityName, END, IsAt;
    var rest := Shielded(s[1..], LT_ENTITY);
    assert r == [s[0]] + rest;
    forall i | 0 <= i < |t| - 1
      ensures rest[i] != AMP
    {
      ByteAt(r, t, 0, i + 1);
    }
    SameBeforeShield(s[1..], LT_ENTITY, |t| - 1);
    assert s[..|t|] == [s[0]] + s[1..][..|t| - 1] == r[..|t|];
    StartAt(r, s, t);
    SameEntity(r, s);
  }

  lemma EntityShift(s: Bytes, a: nat)
    requires s != []
    ensures EntityAt(s[1..], a).Some? <==> EntityAt(s, a + 1).Some?
  {
    hide EntityName, EntityAt;
    assert s[1..] == s[1..|s|];
    if EntityAt(s[1..], a).Some? {
      EntityInSlice(s, 1, |s|, a);
    }
    if EntityAt(s, a + 1).Some? {
      EntityText(s, a + 1);
      var t := EntityName(s, a + 1);
      NameIsEntity(s, a + 1);
      forall i: nat | i < |t|
        ensures a + i < |s[1..]| && s[1..][a + i] == t[i]
      {
        ByteAt(s, t, a + 1, i);
      }
      IsAtBytes(s[1..], t, a);
      EntityFrom(s[1..], a, t);
    }
  }

  lemma NoEntityCons(s: Bytes)
    requires s != []
    ensures NoEntity(s) <==> EntityAt(s, 0).None? && NoEntity(s[1..])
  {
    hide EntityAt;
    forall a: nat
      ensures EntityAt(s[1..], a).Some? <==> EntityAt(s, a + 1).Some?
    {
      EntityShift(s, a);
    }
    forall a: nat
      ensures EntityAt(s, a).Some? ==> a == 0 || EntityAt(s[1..], a - 1).Some?
    {
      if a > 0 {
        EntityShift(s, a - 1);
      }
    }
  }

  lemma UnescapedHead(s: Bytes)
    requires s != []
    ensures var r := ParamText(s);
            Unescaped(r) ==
              if EntityAt(s, 0).Some? then [EntityAt(s, 0).value.1] + Unescaped(ParamText(s[EntityAt(s, 0).value.0..]))
              else [s[0]] + Unescaped(ParamText(s[1..]))
  {
    var r := ParamText(s);
    hide EntityAt, Unescaped, END, ParamText;
    if s[0] == LT && IsAt(s, END, 0) {
      NoEntityStart(s);
      ParamTextStep(s);
      UnescapedEntity(LT_ENTITY, LT, ParamText(s[1..]));
    } else if EntityAt(s, 0).Some? {
      EntityAmp(s, 0);
      var n := EntityAt(s, 0).value.0;
      EntityWritten(s, n);
      EntityKept(s);
      UnescapedStep(r);
      assert r[n..] == ParamText(s[n..]);
    } else {
      if s[0] != LT {
        NoEndHere(s);
      }
      ParamTextStep(s);
      if s[0] == AMP {
        EntityKept(s);
      } else {
        NoEntityStart(r);
      }
      UnescapedStep(r);
      assert r[1..] == ParamText(s[1..]);
    }
  }

  /** A value comes back exactly when it spells no entity; otherwise it comes back
      shorter. */
  lemma {:induction false} ValueRoundTrip(s: Bytes)
    ensures NoEntity(s) ==> Unescaped(ParamText(s)) == s
    ensures |Unescaped(ParamText(s))| <= |s|
    ensures !NoEntity(s) ==> |Unescaped(ParamText(s))| < |s|
    decreases |s|
  {
    hide EntityAt, Unescaped, NoEntity, END;
    if s == [] {
      UnescapedNothing();
      EmptyHasNoEntity();
    } else {
      hide ParamText;
      NoEntityCons(s);
      UnescapedHead(s);
      if EntityAt(s, 0).Some? {
        ValueRoundTrip(s[EntityAt(s, 0).value.0..]);
      } else {
        ValueRoundTrip(s[1..]);
        assert s == [s[0]] + s[1..];
      }
    }
  }

  lemma EmptyHasNoEntity()
    ensures NoEntity([])
  {
  }
}
