/** Blocks that the batch parser accepts and the stream refuses. */
module DsmlUntyped {
  import opened ByteStrings
  import opened Dsml
  import opened DsmlRender
  import opened DsmlParse
  import opened DsmlRoundTrip
  import opened DsmlReparse
  import Args = ToolArgStream

  /** The tag of a parameter that does not say whether it is a string. */
  function UntypedTag(key: Bytes): Bytes {
    FULL.paramStart + NAME_OPEN + AttrEscaped(key) + TAG_CLOSE
  }

  /** A call with one such parameter, from the newline before it to the end of the
      block. */
  function UntypedCall(name: Bytes, key: Bytes, value: Bytes): Bytes {
    [NL] + InvokeTag(name) + [NL] + UntypedTag(key) + (value + END) + [NL] + FULL.invokeEnd + [NL] + FULL.toolEnd
  }

  lemma UntypedTagShape(key: Bytes)
    ensures var t := UntypedTag(key); |t| > 0 && t[|t| - 1] == GT && Free(t[..|t| - 1], GT)
  {
    hide Free, FULL, NAME_OPEN, TAG_CLOSE, AttrEscaped;
    StartsClean();
    OpensFree();
    AttrEscapedClean(key);
    var t := UntypedTag(key);
    var f := FULL.paramStart + NAME_OPEN;
    FreeAppend(FULL.paramStart, NAME_OPEN, GT);
    FreeAppend(f, AttrEscaped(key), GT);
    FreeAppend(f + AttrEscaped(key), [QUOTE], GT);
    assert t == f + AttrEscaped(key) + [QUOTE] + [GT];
    assert t[..|t| - 1] == f + AttrEscaped(key) + [QUOTE];
  }

  lemma UntypedName(key: Bytes)
    ensures Attr(UntypedTag(key), NAME) == Some(key)
  {
    hide Free, FULL, NAME_OPEN, TAG_CLOSE, AttrEscaped, Attr, Unescaped;
    StartsClean();
    OpensFree();
    AttrEscapedClean(key);
    AttrRoundTrip(key);
    FirstAttr(FULL.paramStart, AttrEscaped(key), [GT]);
    assert UntypedTag(key) == FULL.paramStart + NAME_OPEN + AttrEscaped(key) + [QUOTE] + [GT];
  }

  /** Where the quotes of the tag are. */
  lemma QuotePlaces(start: Bytes, escaped: Bytes, i: nat)
    requires Free(start, QUOTE) && Free(escaped, QUOTE)
    ensures var tag, q := start + NAME_OPEN + escaped + TAG_CLOSE, |start| + |NAME_OPEN| - 1;
            && tag[q - 2] == 0x65 && tag[q] == QUOTE && |tag| == q + |escaped| + 3
            && (forall k :: 0 <= k < |escaped| ==> tag[q + 1 + k] == escaped[k])
            && (i < |tag| && tag[i] == QUOTE ==> i == q || i == q + 1 + |escaped|)
  {
    var tag, q := start + NAME_OPEN + escaped + TAG_CLOSE, |start| + |NAME_OPEN| - 1;
    if i < |start| {
      assert tag[i] == start[i];
    } else if i <= q {
      assert tag[i] == NAME_OPEN[i - |start|];
    } else if i < q + 1 + |escaped| {
      assert tag[i] == escaped[i - q - 1];
    } else if i < |tag| {
      assert tag[i] == TAG_CLOSE[i - q - 1 - |escaped|];
    }
  }

  lemma NoKindAt(start: Bytes, escaped: Bytes, k: nat)
    requires Free(start, QUOTE) && Free(escaped, QUOTE) && !EndsWith(escaped, STRING_EQ)
    ensures !IsAt(start + NAME_OPEN + escaped + TAG_CLOSE, STRING_PATTERN, k)
  {
    hide IsAt, EndsWith, Free, STRING_PATTERN, NAME_OPEN, STRING_EQ, TAG_CLOSE;
    var tag, q := start + NAME_OPEN + escaped + TAG_CLOSE, |start| + |NAME_OPEN| - 1;
    PatternBytes();
    QuotePlaces(start, escaped, k + 7);
    NoPatternAt(tag, escaped, q, k);
  }

  lemma UntypedKind(key: Bytes)
    requires !EndsWith(key, STRING_EQ)
    ensures Attr(UntypedTag(key), STRING).None?
  {
    hide Free, FULL, NAME_OPEN, TAG_CLOSE, AttrEscaped, Unescaped, EndsWith, IsAt, STRING_PATTERN;
    StartsClean();
    AttrEscapedClean(key);
    EscapedEnding(key);
    PatternEnds();
    forall k: nat
      ensures !IsAt(UntypedTag(key), STRING_PATTERN, k)
    {
      NoKindAt(FULL.paramStart, AttrEscaped(key), k);
    }
    assert FindFrom(UntypedTag(key), STRING_PATTERN, 0).None?;
  }

  /** The batch parser takes such a parameter for a string. */
  lemma UntypedParam(s: Bytes, p: nat, key: Bytes, value: Bytes)
    requires IsAt(s, UntypedTag(key) + (value + END), p) && !EndsWith(key, STRING_EQ) && NoEnd(value)
    requires value != [] && !IsSpace(value[0]) && value[0] != LT
    ensures FULL.paramEnd != [] && p <= |s|
    ensures ParseParam(s, FULL, p) == Some((Param(key, None, Unescaped(value), false), p + |UntypedTag(key) + (value + END)|))
  {
    hide FULL, NAME_OPEN, TAG_CLOSE, AttrEscaped, END, IsAt, Attr, FindFrom, Unescaped, Free, NoEnd, NAME, STRING, EndsWith, ParseParam, TagFrom, IsSpace, SkipSpace, TRUE, TagShape, Differ;
    FullEnd();
    FullTags();
    var tag := UntypedTag(key);
    var v := p + |tag|;
    IsAtSplit(s, tag, value + END, p);
    UntypedTagShape(key);
    TagIs(s, tag, p);
    UntypedStart(s, key, p);
    UntypedName(key);
    UntypedKind(key);
    ValueEnds(s, v, value);
    IsAtSplit(s, value, END, v);
    ByteAt(s, value, v, 0);
    NotNested(s, v);
    UntypedLeaf(s, p, tag, v, key, value, v + |value|);
    Within(s, END, v + |value|);
  }

  lemma UntypedStart(s: Bytes, key: Bytes, p: nat)
    requires IsAt(s, UntypedTag(key), p)
    ensures IsAt(s, FULL.paramStart, p)
  {
    hide FULL, NAME_OPEN, TAG_CLOSE, AttrEscaped, IsAt;
    var rest := NAME_OPEN + AttrEscaped(key) + TAG_CLOSE;
    assert UntypedTag(key) == FULL.paramStart + rest;
    IsAtSplit(s, FULL.paramStart, rest, p);
  }

  lemma NotNested(s: Bytes, v: nat)
    requires v < |s| && !IsSpace(s[v]) && s[v] != LT
    ensures SkipSpace(s, v) == v && !IsAt(s, FULL.paramStart, v)
  {
    hide FULL, IsAt, TagShape, Differ;
    FullTags();
    FirstIsLt(s, FULL.paramStart, v);
  }

  lemma FirstIsLt(s: Bytes, t: Bytes, v: nat)
    requires TagShape(t) && v < |s| && s[v] != LT
    ensures !IsAt(s, t, v)
  {
    hide IsAt;
    if IsAt(s, t, v) {
      ByteAt(s, t, v, 0);
    }
  }

  lemma UntypedLeaf(s: Bytes, p: nat, tag: Bytes, v: nat, key: Bytes, value: Bytes, e: nat)
    requires IsAt(s, FULL.paramStart, p) && TagFrom(s, p) == Some((tag, v)) && p <= |s|
    requires Attr(tag, NAME) == Some(key) && Attr(tag, STRING) == None
    requires !IsAt(s, FULL.paramStart, SkipSpace(s, v))
    requires FULL.paramEnd == END && END != [] && FindFrom(s, END, v) == Some(e) && v <= e <= |s| && s[v..e] == value
    ensures ParseParam(s, FULL, p) == Some((Param(key, None, Unescaped(value), false), e + |END|))
  {
    hide Attr, Unescaped, FindFrom, IsAt, FULL, END, TRUE, NAME, STRING, ParseNested, SkipSpace, TagFrom;
  }

  /** The parameters of the call. */
  lemma UntypedParams(s: Bytes, p: nat, key: Bytes, value: Bytes)
    requires !EndsWith(key, STRING_EQ) && NoEnd(value) && value != [] && !IsSpace(value[0]) && value[0] != LT
    requires var body := UntypedTag(key) + (value + END);
             && 0 < p <= p + |body| < |s| && s[p - 1] == NL && s[p + |body|] == NL
             && IsAt(s, body, p) && IsAt(s, FULL.invokeEnd, p + |body| + 1)
    ensures FULL.paramEnd != []
    ensures ParseParams(s, FULL, p - 1)
         == Some(([Param(key, None, Unescaped(value), false)], p + |UntypedTag(key) + (value + END)| + 1 + |FULL.invokeEnd|))
  {
    hide FULL, END, IsAt, Unescaped, NoEnd, EndsWith, ParseParam, IsSpace, UntypedTag, ParseParams, SkipSpace, TagShape, Differ;
    FullEnd();
    FullTags();
    var e := p + |UntypedTag(key) + (value + END)|;
    var param := Param(key, None, Unescaped(value), false);
    UntypedParam(s, p, key, value);
    UntypedStartOf(s, p, key, value);
    Opens(s, FULL.paramStart, p - 1);
    TagsExclude(s, FULL.paramStart, FULL.invokeEnd, p);
    Opens(s, FULL.invokeEnd, e);
    ParamsEnd(s, FULL, e);
    ParamsMore(s, FULL, p - 1, param, e, [], e + 1 + |FULL.invokeEnd|);
    assert [param] + [] == [param];
  }

  /** The stream fails on every such block, and the batch parser accepts it: a call
      whose argument it takes for a string. */
  lemma UntypedBlocks(name: Bytes, key: Bytes, value: Bytes)
    requires !EndsWith(key, STRING_EQ) && NoEnd(value) && value != [] && !IsSpace(value[0]) && value[0] != LT
    ensures FULL.paramEnd != [] && SyntaxShape(FULL)
    ensures var s := UntypedCall(name, key, value);
            var c := Args.Cfg(Args.BetweenInvokes, 0, 0, false, false, false);
            && ParseInvokes(s, FULL, 0) == Some(([Invoke(name, [Param(key, None, Unescaped(value), false)])], |s|))
            && Args.Run(c, s, FULL).0.phase.Failed?
  {
    hide FULL, END, IsAt, Attr, Unescaped, Free, NoEnd, NAME, EndsWith, TagFrom, IsSpace, InvokeTag, UntypedTag, ParseParams, ParseInvokes, SkipSpace, SyntaxShape, Args.Run, TagShape, Differ, UntypedCall, Args.CallsTyped, SYNTAXES;
    FullShape();
    FullTags();
    var s, tag := UntypedCall(name, key, value), InvokeTag(name);
    Pieces(s, name, key, value);
    var p := 1 + |tag| + 1;
    var n := p + |UntypedTag(key) + (value + END)| + 1 + |FULL.invokeEnd|;
    UntypedParams(s, p, key, value);
    Opens(s, FULL.invokeStart, 0);
    TagsExclude(s, FULL.invokeStart, FULL.toolEnd, 1);
    InvokeTagShape(name);
    TagIs(s, tag, 1);
    InvokeName(name);
    Opens(s, FULL.toolEnd, n);
    InvokesEnd(s, FULL, n);
    var call := Invoke(name, [Param(key, None, Unescaped(value), false)]);
    InvokesMore(s, FULL, 0, 1, tag, 1 + |tag|, call, n, [], |s|);
    assert [call] + [] == [call];
    Args.StreamFinishesIffTyped(Args.Cfg(Args.BetweenInvokes, 0, 0, false, false, false), s, FULL, [call], |s|);
    NotTyped(call);
  }

  lemma FullShape()
    ensures SyntaxShape(FULL) && FULL.paramEnd != []
  {
    SyntaxesShape(0);
    FullEnd();
  }

  lemma NotTyped(call: Invoke)
    requires call.params != [] && call.params[0].kind.None?
    ensures !Args.CallsTyped([call])
  {
    assert [call][0] == call;
  }

  lemma UntypedStartOf(s: Bytes, p: nat, key: Bytes, value: Bytes)
    requires IsAt(s, UntypedTag(key) + (value + END), p)
    ensures IsAt(s, FULL.paramStart, p)
  {
    hide FULL, END, IsAt, UntypedTag;
    IsAtSplit(s, UntypedTag(key), value + END, p);
    UntypedStart(s, key, p);
  }

  /** Where the parts of the block stand. */
  lemma Pieces(s: Bytes, name: Bytes, key: Bytes, value: Bytes)
    requires s == UntypedCall(name, key, value)
    ensures var tag, body := InvokeTag(name), UntypedTag(key) + (value + END);
            var p, e := 1 + |tag| + 1, 1 + |tag| + 1 + |body|;
            var n := e + 1 + |FULL.invokeEnd|;
            && |s| == n + 1 + |FULL.toolEnd| && s[0] == NL && s[p - 1] == NL && s[e] == NL && s[n] == NL
            && IsAt(s, tag, 1) && IsAt(s, FULL.invokeStart, 1) && IsAt(s, body, p)
            && IsAt(s, FULL.invokeEnd, e + 1) && IsAt(s, FULL.toolEnd, n + 1)
  {
    hide FULL, END, IsAt, InvokeTag, UntypedTag;
    Parts(s, InvokeTag(name), UntypedTag(key) + (value + END), FULL.invokeEnd, FULL.toolEnd);
    InvokeStart(s, name, 1);
  }

  lemma Parts(s: Bytes, a: Bytes, b: Bytes, c: Bytes, d: Bytes)
    requires s == [NL] + a + [NL] + b + [NL] + c + [NL] + d
    ensures var p := 1 + |a| + 1;
            var e := p + |b|;
            var n := e + 1 + |c|;
            && |s| == n + 1 + |d| && s[0] == NL && s[p - 1] == NL && s[e] == NL && s[n] == NL
            && IsAt(s, a, 1) && IsAt(s, b, p) && IsAt(s, c, e + 1) && IsAt(s, d, n + 1)
  {
    var p := 1 + |a| + 1;
    var e := p + |b|;
    var n := e + 1 + |c|;
    assert s[1..1 + |a|] == a;
    assert s[p..p + |b|] == b;
    assert s[e + 1..e + 1 + |c|] == c;
    assert s[n + 1..n + 1 + |d|] == d;
  }
}
