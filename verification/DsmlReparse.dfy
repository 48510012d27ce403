/** Rendered tool calls always parse, and what the parser sees of them. */
module DsmlReparse {
  import opened ByteStrings
  import opened Dsml
  import opened DsmlRender
  import opened DsmlParse
  import opened DsmlRoundTrip
  import opened JsonArguments
  import JsonMinify
  import opened JsonValue

  // What the parser sees

  function ReadCalls(calls: seq<Invoke>): seq<Call> {
    if calls == [] then []
    else [Call(calls[0].name, Members(ReadParams(calls[0].params)))] + ReadCalls(calls[1..])
  }

  /** A key that ends in `string=` hides the kind of its parameter. */
  function Seen(a: Arg): Arg {
    if !a.isString then Arg(a.key, false, JsonLiteral(a.value))
    else if EndsWith(a.key, STRING_EQ) then Arg(a.key, false, ParamText(a.value))
    else Arg(a.key, true, Unescaped(ParamText(a.value)))
  }

  function SeenArgs(args: seq<Arg>): (r: seq<Arg>)
    ensures |r| == |args| && forall i :: 0 <= i < |r| ==> r[i] == Seen(args[i])
  {
    if args == [] then [] else [Seen(args[0])] + SeenArgs(args[1..])
  }

  /** The members that are written for the arguments of a call. */
  function WrittenArgs(a: Arguments): seq<Arg> {
    match a
    case Members(args) => args
    case Unparsed(text) => [Arg(Ascii("arguments"), true, text)]
  }

  function WrittenCalls(list: seq<Call>): seq<Call> {
    if list == [] then []
    else [Call(list[0].name, Members(WrittenArgs(list[0].arguments)))] + WrittenCalls(list[1..])
  }

  function SeenCalls(list: seq<Call>): seq<Call> {
    if list == [] then []
    else [Call(list[0].name, Members(SeenArgs(WrittenArgs(list[0].arguments))))] + SeenCalls(list[1..])
  }

  // Tags

  lemma TagIs(s: Bytes, tag: Bytes, p: nat)
    requires IsAt(s, tag, p) && tag != [] && tag[|tag| - 1] == GT && Free(tag[..|tag| - 1], GT)
    ensures TagFrom(s, p) == Some((tag, p + |tag|))
  {
    var e := p + |tag| - 1;
    ByteAt(s, tag, p, |tag| - 1);
    assert s[e..e + 1] == [GT];
    forall k | p <= k < e
      ensures !IsAt(s, [GT], k)
    {
      NotThere(s, tag, p, k);
    }
    FoundAt(s, [GT], p, e);
    assert s[p..p + |tag|] == tag;
  }

  lemma NotThere(s: Bytes, tag: Bytes, p: nat, k: nat)
    requires IsAt(s, tag, p) && tag != [] && Free(tag[..|tag| - 1], GT) && p <= k < p + |tag| - 1
    ensures !IsAt(s, [GT], k)
  {
    hide IsAt;
    assert tag[..|tag| - 1][k - p] == tag[k - p];
    ByteAt(s, tag, p, k - p);
    if IsAt(s, [GT], k) {
      ByteAt(s, [GT], k, 0);
    }
  }

  lemma OpensFree()
    ensures Free(NAME_OPEN, GT) && Free(STRING_OPEN, GT) && TAG_CLOSE == [QUOTE] + [GT] && Free([QUOTE], GT)
  {
  }

  lemma InvokeTagShape(name: Bytes)
    ensures var t := InvokeTag(name); |t| > 0 && t[|t| - 1] == GT && Free(t[..|t| - 1], GT)
  {
    StartsClean();
    OpensFree();
    AttrEscapedClean(name);
    hide Free, FULL, NAME_OPEN, TAG_CLOSE, AttrEscaped;
    var t := InvokeTag(name);
    var f := FULL.invokeStart + NAME_OPEN;
    FreeAppend(FULL.invokeStart, NAME_OPEN, GT);
    FreeAppend(f, AttrEscaped(name), GT);
    FreeAppend(f + AttrEscaped(name), [QUOTE], GT);
    assert t == f + AttrEscaped(name) + [QUOTE] + [GT];
    assert t[..|t| - 1] == f + AttrEscaped(name) + [QUOTE];
  }

  lemma ParamTagShape(key: Bytes, kind: Bytes)
    requires Free(kind, GT)
    ensures var t := ParamTag(key, kind); |t| > 0 && t[|t| - 1] == GT && Free(t[..|t| - 1], GT)
  {
    StartsClean();
    OpensFree();
    AttrEscapedClean(key);
    hide Free, FULL, NAME_OPEN, STRING_OPEN, TAG_CLOSE, AttrEscaped;
    var t := ParamTag(key, kind);
    var f := FULL.paramStart + NAME_OPEN;
    var g := f + AttrEscaped(key);
    FreeAppend(FULL.paramStart, NAME_OPEN, GT);
    FreeAppend(f, AttrEscaped(key), GT);
    FreeAppend(g, STRING_OPEN, GT);
    FreeAppend(g + STRING_OPEN, kind, GT);
    FreeAppend(g + STRING_OPEN + kind, [QUOTE], GT);
    assert t == g + STRING_OPEN + kind + [QUOTE] + [GT];
    assert t[..|t| - 1] == g + STRING_OPEN + kind + [QUOTE];
  }

  lemma InvokeName(name: Bytes)
    ensures Attr(InvokeTag(name), NAME) == Some(name)
  {
    StartsClean();
    OpensFree();
    AttrEscapedClean(name);
    AttrRoundTrip(name);
    hide Free, FULL, NAME_OPEN, TAG_CLOSE, AttrEscaped, Attr, Unescaped;
    FirstAttr(FULL.invokeStart, AttrEscaped(name), [GT]);
    assert InvokeTag(name) == FULL.invokeStart + NAME_OPEN + AttrEscaped(name) + [QUOTE] + [GT];
  }

  lemma ParamName(key: Bytes, kind: Bytes)
    ensures Attr(ParamTag(key, kind), NAME) == Some(key)
  {
    StartsClean();
    PatternEnds();
    AttrEscapedClean(key);
    AttrRoundTrip(key);
    hide Free, FULL, NAME_OPEN, STRING_OPEN, STRING_PATTERN, TAG_CLOSE, AttrEscaped, Attr, Unescaped, Ascii;
    var rest := (Ascii(" ") + STRING_PATTERN) + kind + TAG_CLOSE;
    FirstAttr(FULL.paramStart, AttrEscaped(key), rest);
    assert ParamTag(key, kind) == FULL.paramStart + NAME_OPEN + AttrEscaped(key) + [QUOTE] + rest;
  }

  lemma PlainUnescaped(s: Bytes)
    requires Free(s, AMP) && Free(s, LT) && Free(s, GT) && Free(s, QUOTE)
    ensures Unescaped(s) == s
  {
    PlainEscape(s);
    AttrRoundTrip(s);
  }

  const HIDDEN_KIND := Ascii(" string=")

  lemma KindWords()
    ensures Free(TRUE, AMP) && Free(TRUE, LT) && Free(TRUE, GT) && Free(TRUE, QUOTE)
    ensures Free(FALSE, AMP) && Free(FALSE, LT) && Free(FALSE, GT) && Free(FALSE, QUOTE)
    ensures Free(HIDDEN_KIND, AMP) && Free(HIDDEN_KIND, LT) && Free(HIDDEN_KIND, GT) && Free(HIDDEN_KIND, QUOTE)
    ensures STRING_PATTERN == STRING_EQ + [QUOTE] && STRING_OPEN == [QUOTE] + HIDDEN_KIND + [QUOTE]
    ensures TRUE != FALSE && TRUE != HIDDEN_KIND && |STRING_EQ| == 7
  {
    assert TRUE[0] != FALSE[0] && TRUE[0] != HIDDEN_KIND[0];
  }

  /** What the kind attribute reads as. */
  function SeenKind(key: Bytes, kind: Bytes): Bytes {
    if EndsWith(key, STRING_EQ) then HIDDEN_KIND else kind
  }

  lemma ParamKind(key: Bytes, kind: Bytes)
    requires kind == TRUE || kind == FALSE
    ensures Attr(ParamTag(key, kind), STRING) == Some(SeenKind(key, kind))
  {
    StartsClean();
    KindWords();
    AttrEscapedClean(key);
    EscapedEnding(key);
    hide Free, FULL, NAME_OPEN, STRING_OPEN, TAG_CLOSE, AttrEscaped, Attr, Unescaped, EndsWith, TRUE, FALSE, HIDDEN_KIND;
    if EndsWith(key, STRING_EQ) {
      HiddenKind(FULL.paramStart, AttrEscaped(key), kind);
    } else {
      SecondAttr(FULL.paramStart, AttrEscaped(key), kind);
      PlainUnescaped(kind);
    }
  }

  lemma Ending(s: Bytes, t: Bytes) returns (n: nat)
    requires EndsWith(s, t)
    ensures n + |t| == |s| && s == s[..n] + t
  {
    n := |s| - |t|;
  }

  /** Where a name that ends in `string=` shows the attribute too early. */
  lemma HiddenSplit(f: Bytes, name: Bytes, kind: Bytes)
    ensures f + (name + STRING_EQ) + STRING_OPEN + kind + TAG_CLOSE
         == f + name + STRING_PATTERN + HIDDEN_KIND + [QUOTE] + (kind + TAG_CLOSE)
  {
    KindWords();
    hide STRING_EQ, STRING_OPEN, TAG_CLOSE, STRING_PATTERN, HIDDEN_KIND;
    assert STRING_EQ + STRING_OPEN == STRING_PATTERN + HIDDEN_KIND + [QUOTE];
    calc {
      f + (name + STRING_EQ) + STRING_OPEN + kind + TAG_CLOSE;
      f + name + (STRING_EQ + STRING_OPEN) + (kind + TAG_CLOSE);
      f + name + STRING_PATTERN + HIDDEN_KIND + [QUOTE] + (kind + TAG_CLOSE);
    }
  }

  /** A name that ends in `string=` is taken for the attribute: its value is then the
      text up to the quote of the real one. */
  lemma HiddenKind(start: Bytes, escaped: Bytes, kind: Bytes)
    requires Free(start, QUOTE) && Free(escaped, QUOTE) && EndsWith(escaped, STRING_EQ)
    ensures Attr(start + NAME_OPEN + escaped + STRING_OPEN + kind + TAG_CLOSE, STRING) == Some(HIDDEN_KIND)
  {
    PatternEnds();
    KindWords();
    hide NAME_OPEN, STRING_OPEN, TAG_CLOSE, STRING_PATTERN, IsAt, Attr, Unescaped, Free, Ascii, EndsWith, HIDDEN_KIND, STRING, STRING_EQ;
    PlainUnescaped(HIDDEN_KIND);
    var n := Ending(escaped, STRING_EQ);
    var pre := start + NAME_OPEN + escaped[..n];
    HiddenSplit(start + NAME_OPEN, escaped[..n], kind);
    var tag := pre + STRING_PATTERN + HIDDEN_KIND + [QUOTE] + (kind + TAG_CLOSE);
    forall k | 0 <= k < |pre|
      ensures !IsAt(tag, STRING_PATTERN, k)
    {
      HiddenFirst(start, escaped, kind, tag, k);
    }
    AttrIs(tag, STRING, STRING_PATTERN, pre, HIDDEN_KIND, kind + TAG_CLOSE);
  }

  lemma HiddenFirst(start: Bytes, escaped: Bytes, kind: Bytes, tag: Bytes, k: nat)
    requires Free(start, QUOTE) && Free(escaped, QUOTE) && k + 7 < |start| + |NAME_OPEN| + |escaped|
    requires tag == start + NAME_OPEN + escaped + STRING_OPEN + kind + TAG_CLOSE
    ensures !IsAt(tag, STRING_PATTERN, k)
  {
    hide NAME_OPEN, STRING_OPEN, TAG_CLOSE, STRING_PATTERN, IsAt, Free;
    var rest := STRING_OPEN + kind + TAG_CLOSE;
    assert tag == start + NAME_OPEN + escaped + rest;
    NoEarlierKind(start, escaped, rest, k);
  }

  lemma NoEarlierKind(start: Bytes, escaped: Bytes, rest: Bytes, k: nat)
    requires Free(start, QUOTE) && Free(escaped, QUOTE) && STRING_OPEN <= rest
    requires k + 7 < |start| + |NAME_OPEN| + |escaped|
    ensures !IsAt(start + NAME_OPEN + escaped + rest, STRING_PATTERN, k)
  {
    hide IsAt;
    var tag, q := start + NAME_OPEN + escaped + rest, |start| + |NAME_OPEN| - 1;
    if IsAt(tag, STRING_PATTERN, k) {
      ByteAt(tag, STRING_PATTERN, k, 7);
      NameBytes(start, escaped, rest, k + 7);
      ByteAt(tag, STRING_PATTERN, k, 5);
    }
  }

  // One parameter

  function KindOf(a: Arg): Bytes {
    if a.isString then TRUE else FALSE
  }

  function WrittenValue(a: Arg): Bytes {
    if a.isString then ParamText(a.value) else JsonLiteral(a.value)
  }

  lemma ArgTextIs(a: Arg)
    ensures ArgText(a) == ParamTag(a.key, KindOf(a)) + (WrittenValue(a) + END) + [NL]
  {
    hide FULL, NAME_OPEN, STRING_OPEN, TAG_CLOSE, AttrEscaped, END, ParamText, JsonLiteral, Ascii;
    var x, v := ParamTag(a.key, KindOf(a)), WrittenValue(a);
    assert ArgText(a) == x + v + END + [NL];
    assert x + v + END + [NL] == x + (v + END) + [NL];
  }

  lemma ValueHasNoEnd(a: Arg)
    ensures NoEnd(WrittenValue(a))
  {
    ShieldsOk();
    hide Shielded, NoEnd, ShieldOk, END, LT_ENTITY, Ascii;
    ShieldedHasNoEnd(a.value, LT_ENTITY);
    ShieldedHasNoEnd(a.value, Ascii("\\u003c"));
  }

  lemma KindClean(a: Arg)
    ensures Free(KindOf(a), GT) && (KindOf(a) == TRUE || KindOf(a) == FALSE)
    ensures IsStringKind(Some(SeenKind(a.key, KindOf(a)))) <==> a.isString && !EndsWith(a.key, STRING_EQ)
  {
    KindWords();
  }

  /** A leaf from its parts. */
  lemma LeafIs(s: Bytes, p: nat, tag: Bytes, v: nat, key: Bytes, kind: Bytes, value: Bytes, e: nat)
    requires IsAt(s, FULL.paramStart, p) && TagFrom(s, p) == Some((tag, v)) && p <= |s|
    requires Attr(tag, NAME) == Some(key) && Attr(tag, STRING) == Some(kind)
    requires FULL.paramEnd == END && FindFrom(s, END, v) == Some(e) && v <= e <= |s| && s[v..e] == value
    ensures FULL.paramEnd != []
    ensures ParseParam(s, FULL, p)
         == Some((Param(key, Some(kind), if IsStringKind(Some(kind)) then Unescaped(value) else value, false), e + |END|))
  {
    EndIs();
    hide Attr, Unescaped, FindFrom, IsAt, FULL, END, TRUE, NAME, STRING, ParseNested;
  }

  lemma FullEnd()
    ensures FULL.paramEnd == END && FULL.paramEnd != []
  {
  }

  /** Any written parameter parses, and reads as `Seen` says. */
  lemma ParseArg(s: Bytes, p: nat, a: Arg) returns (param: Param)
    requires IsAt(s, ArgText(a), p)
    ensures p <= |s| && FULL.paramEnd != [] && ReadParam(param) == Seen(a)
    ensures ParseParam(s, FULL, p) == Some((param, p + |ArgText(a)| - 1))
    ensures p + |ArgText(a)| <= |s| && s[p + |ArgText(a)| - 1] == NL
  {
    FullEnd();
    ArgTextIs(a);
    KindClean(a);
    hide FULL, NAME_OPEN, STRING_OPEN, TAG_CLOSE, AttrEscaped, END, ParamText, JsonLiteral, IsAt, ArgText, Attr, FindFrom, Unescaped, Free, NoEnd, TRUE, FALSE, NAME, STRING, EndsWith, KindOf, SeenKind, ParseParam, TagFrom, IsStringKind;
    var kind, value := KindOf(a), WrittenValue(a);
    var tag := ParamTag(a.key, kind);
    var v := p + |tag|;
    var seen := SeenKind(a.key, kind);
    IsAtSplit(s, tag + (value + END), [NL], p);
    ByteAt(s, [NL], p + |tag + (value + END)|, 0);
    IsAtSplit(s, tag, value + END, p);
    ParamTagShape(a.key, kind);
    TagIs(s, tag, p);
    TagStart(s, a.key, kind, p);
    ParamName(a.key, kind);
    ParamKind(a.key, kind);
    ValueHasNoEnd(a);
    ValueEnds(s, v, value);
    LeafIs(s, p, tag, v, a.key, seen, value, v + |value|);
    param := Param(a.key, Some(seen), if IsStringKind(Some(seen)) then Unescaped(value) else value, false);
    ReadIs(a, param);
  }

  lemma TagStart(s: Bytes, key: Bytes, kind: Bytes, p: nat)
    requires IsAt(s, ParamTag(key, kind), p)
    ensures IsAt(s, FULL.paramStart, p)
  {
    hide FULL, NAME_OPEN, STRING_OPEN, TAG_CLOSE, AttrEscaped, IsAt;
    var rest := NAME_OPEN + AttrEscaped(key) + STRING_OPEN + kind + TAG_CLOSE;
    assert ParamTag(key, kind) == FULL.paramStart + rest;
    IsAtSplit(s, FULL.paramStart, rest, p);
  }

  lemma ReadIs(a: Arg, param: Param)
    requires param.key == a.key && param.kind == Some(SeenKind(a.key, KindOf(a)))
    requires !param.nested && param.value == if IsStringKind(param.kind) then Unescaped(WrittenValue(a)) else WrittenValue(a)
    ensures ReadParam(param) == Seen(a)
  {
    KindClean(a);
    hide ParamText, JsonLiteral, Unescaped, EndsWith, SeenKind, IsStringKind;
  }

  // Whole calls

  lemma SkipNewline(s: Bytes, p: nat)
    requires p + 1 < |s| && s[p] == NL && s[p + 1] == LT
    ensures SkipSpace(s, p) == p + 1
  {
  }

  lemma ParamsMore(s: Bytes, x: Syntax, p: nat, param: Param, next: nat, rest: seq<Param>, q: nat)
    requires x.paramEnd != [] && p <= |s| && !IsAt(s, x.invokeEnd, SkipSpace(s, p))
    requires ParseParam(s, x, SkipSpace(s, p)) == Some((param, next)) && ParseParams(s, x, next) == Some((rest, q))
    ensures ParseParams(s, x, p) == Some(([param] + rest, q))
  {
    hide ParseParam, IsAt, SkipSpace;
  }

  lemma InvokesMore(s: Bytes, x: Syntax, p: nat, b: nat, tag: Bytes, v: nat, call: Invoke, next: nat, rest: seq<Invoke>, q: nat)
    requires x.paramEnd != [] && p <= |s| && b == SkipSpace(s, p) && !IsAt(s, x.toolEnd, b) && IsAt(s, x.invokeStart, b)
    requires TagFrom(s, b) == Some((tag, v)) && Attr(tag, NAME) == Some(call.name)
    requires ParseParams(s, x, v) == Some((call.params, next)) && ParseInvokes(s, x, next) == Some((rest, q))
    ensures ParseInvokes(s, x, p) == Some(([call] + rest, q))
  {
    hide ParseParams, IsAt, SkipSpace, TagFrom, Attr, NAME;
  }

  lemma FullTags()
    ensures TagShape(FULL.invokeStart) && TagShape(FULL.paramStart) && TagShape(FULL.invokeEnd) && TagShape(FULL.toolEnd)
    ensures Differ(FULL.paramStart, FULL.invokeEnd) && Differ(FULL.invokeStart, FULL.toolEnd)
  {
    SyntaxesShape(0);
    assert SYNTAXES[0] == FULL;
    hide TagShape, FULL, SYNTAXES;
    DifferSym(FULL.invokeEnd, FULL.paramStart);
    DifferSym(FULL.toolEnd, FULL.invokeStart);
  }

  lemma ArgStart(s: Bytes, a: Arg, p: nat)
    requires IsAt(s, ArgText(a), p)
    ensures IsAt(s, FULL.paramStart, p)
  {
    ArgTextIs(a);
    hide FULL, IsAt, ArgText, ParamTag, WrittenValue;
    IsAtSplit(s, ParamTag(a.key, KindOf(a)) + (WrittenValue(a) + END), [NL], p);
    IsAtSplit(s, ParamTag(a.key, KindOf(a)), WrittenValue(a) + END, p);
    TagStart(s, a.key, KindOf(a), p);
  }

  lemma Opens(s: Bytes, t: Bytes, p: nat)
    requires IsAt(s, t, p + 1) && TagShape(t) && p < |s| && s[p] == NL
    ensures p + 1 < |s| && SkipSpace(s, p) == p + 1
  {
    hide IsAt, SkipSpace;
    ByteAt(s, t, p + 1, 0);
    SkipNewline(s, p);
  }

  /** The parameters of a call, from the newline before them. */
  lemma {:induction false} ParseArgs(s: Bytes, p: nat, args: seq<Arg>) returns (params: seq<Param>, next: nat)
    requires p < |s| && s[p] == NL && IsAt(s, ArgsText(args) + FULL.invokeEnd, p + 1)
    ensures FULL.paramEnd != [] && next == p + 1 + |ArgsText(args)| + |FULL.invokeEnd|
    ensures ParseParams(s, FULL, p) == Some((params, next)) && ReadParams(params) == SeenArgs(args)
    decreases |args|
  {
    FullEnd();
    FullTags();
    hide FULL, IsAt, ArgText, SkipSpace, ParseParam, ParseParams, Seen, TagShape, Differ, ReadParam;
    next := p + 1 + |ArgsText(args)| + |FULL.invokeEnd|;
    if args == [] {
      assert ArgsText(args) + FULL.invokeEnd == FULL.invokeEnd;
      Opens(s, FULL.invokeEnd, p);
      ParamsEnd(s, FULL, p);
      params := [];
    } else {
      var first, rest := ArgText(args[0]), ArgsText(args[1..]) + FULL.invokeEnd;
      assert ArgsText(args) + FULL.invokeEnd == first + rest;
      IsAtSplit(s, first, rest, p + 1);
      var param := ParseArg(s, p + 1, args[0]);
      ArgStart(s, args[0], p + 1);
      Opens(s, FULL.paramStart, p);
      TagsExclude(s, FULL.paramStart, FULL.invokeEnd, p + 1);
      var others, q := ParseArgs(s, p + |first|, args[1..]);
      ParamsMore(s, FULL, p, param, p + |first|, others, q);
      params := [param] + others;
      assert params[1..] == others;
    }
  }

  lemma ArgumentsWrittenArgs(a: Arguments)
    ensures ArgumentsText(a) == ArgsText(WrittenArgs(a))
  {
    hide ArgText;
    if a.Unparsed? {
      var arg := WrittenArgs(a)[0];
      assert ArgsText([arg]) == ArgText(arg) + ArgsText([]);
    }
  }

  lemma CallTextIs(c: Call)
    ensures CallText(c)
         == InvokeTag(c.name) + ([NL] + (ArgsText(WrittenArgs(c.arguments)) + FULL.invokeEnd) + [NL])
  {
    ArgumentsWrittenArgs(c.arguments);
    hide FULL, NAME_OPEN, TAG_CLOSE, AttrEscaped, ArgsText, ArgumentsText, WrittenArgs;
    var t, a := InvokeTag(c.name), ArgsText(WrittenArgs(c.arguments));
    assert CallText(c) == t + [NL] + a + FULL.invokeEnd + [NL];
    assert t + [NL] + a + FULL.invokeEnd + [NL] == t + ([NL] + (a + FULL.invokeEnd) + [NL]);
  }

  lemma InvokeStart(s: Bytes, name: Bytes, p: nat)
    requires IsAt(s, InvokeTag(name), p)
    ensures IsAt(s, FULL.invokeStart, p)
  {
    hide FULL, NAME_OPEN, TAG_CLOSE, AttrEscaped, IsAt;
    var rest := NAME_OPEN + AttrEscaped(name) + TAG_CLOSE;
    assert InvokeTag(name) == FULL.invokeStart + rest;
    IsAtSplit(s, FULL.invokeStart, rest, p);
  }

  /** One call: its tag and its parameters. */
  lemma ParseCall(s: Bytes, p: nat, c: Call) returns (params: seq<Param>)
    requires IsAt(s, CallText(c), p)
    ensures IsAt(s, FULL.invokeStart, p) && p + |CallText(c)| <= |s| && s[p + |CallText(c)| - 1] == NL
    ensures var tag := InvokeTag(c.name);
            && TagFrom(s, p) == Some((tag, p + |tag|)) && Attr(tag, NAME) == Some(c.name) && p + |tag| <= |s|
            && FULL.paramEnd != []
            && ParseParams(s, FULL, p + |tag|) == Some((params, p + |CallText(c)| - 1))
            && ReadParams(params) == SeenArgs(WrittenArgs(c.arguments))
  {
    CallTextIs(c);
    hide FULL, IsAt, InvokeTag, CallText, TagFrom, ParseParams, Attr, ReadParams, SeenArgs, ArgsText, NAME, Free, WrittenArgs;
    var tag, args := InvokeTag(c.name), WrittenArgs(c.arguments);
    var body := ArgsText(args) + FULL.invokeEnd;
    var v := p + |tag|;
    IsAtSplit(s, tag, [NL] + body + [NL], p);
    IsAtSplit(s, [NL] + body, [NL], v);
    IsAtSplit(s, [NL], body, v);
    ByteAt(s, [NL], v, 0);
    ByteAt(s, [NL], v + |[NL] + body|, 0);
    InvokeTagShape(c.name);
    TagIs(s, tag, p);
    InvokeStart(s, c.name, p);
    InvokeName(c.name);
    var next;
    params, next := ParseArgs(s, v, args);
  }

  /** The calls of a block, from the newline after its opening tag. */
  lemma {:induction false} ParseCalls(s: Bytes, p: nat, list: seq<Call>) returns (calls: seq<Invoke>, next: nat)
    requires p < |s| && s[p] == NL && IsAt(s, CallListText(list) + FULL.toolEnd, p + 1)
    ensures FULL.paramEnd != [] && next == p + 1 + |CallListText(list)| + |FULL.toolEnd|
    ensures ParseInvokes(s, FULL, p) == Some((calls, next)) && ReadCalls(calls) == SeenCalls(list)
    decreases |list|
  {
    FullEnd();
    FullTags();
    hide FULL, IsAt, CallText, SkipSpace, ParseParams, ParseInvokes, SeenArgs, ReadParams, TagShape, Differ, Attr, TagFrom, InvokeTag, NAME, WrittenArgs;
    next := p + 1 + |CallListText(list)| + |FULL.toolEnd|;
    if list == [] {
      assert CallListText(list) + FULL.toolEnd == FULL.toolEnd;
      Opens(s, FULL.toolEnd, p);
      InvokesEnd(s, FULL, p);
      calls := [];
    } else {
      var first, rest := CallText(list[0]), CallListText(list[1..]) + FULL.toolEnd;
      assert CallListText(list) + FULL.toolEnd == first + rest;
      IsAtSplit(s, first, rest, p + 1);
      var params := ParseCall(s, p + 1, list[0]);
      Opens(s, FULL.invokeStart, p);
      TagsExclude(s, FULL.invokeStart, FULL.toolEnd, p + 1);
      var others, q := ParseCalls(s, p + |first|, list[1..]);
      var tag, call := InvokeTag(list[0].name), Invoke(list[0].name, params);
      InvokesMore(s, FULL, p, p + 1, tag, p + 1 + |tag|, call, p + |first|, others, q);
      calls := [call] + others;
      assert calls[1..] == others;
    }
  }

  // The round trip

  /** A member that survives. */
  ghost predicate Plain(a: Arg) {
    if a.isString then !EndsWith(a.key, STRING_EQ) && NoEntity(a.value) else NoEnd(a.value)
  }

  ghost predicate AllPlain(list: seq<Call>) {
    forall c :: c in list ==> forall a :: a in WrittenArgs(c.arguments) ==> Plain(a)
  }

  lemma {:induction false} ShieldedLonger(s: Bytes, shield: Bytes)
    requires |shield| > 1
    ensures |Shielded(s, shield)| >= |s|
    ensures !NoEnd(s) ==> |Shielded(s, shield)| > |s|
  {
    hide END;
    if s == [] {
      forall k: nat
        ensures !IsAt(s, END, k)
      {
        EmptyHasNoEnd(k);
      }
    } else {
      ShieldedLonger(s[1..], shield);
      if !IsAt(s, END, 0) && NoEnd(s[1..]) {
        NoEndCons(s);
      }
    }
  }

  lemma NoEndCons(s: Bytes)
    requires s != [] && !IsAt(s, END, 0) && NoEnd(s[1..])
    ensures NoEnd(s)
  {
    hide END, IsAt;
    forall k: nat
      ensures !IsAt(s, END, k)
    {
      if k > 0 && IsAt(s, END, k) {
        assert s == [s[0]] + s[1..];
        AtRest([s[0]], s[1..], END, k);
      }
    }
  }

  /** The parser sees a member as it was exactly when it is plain. */
  lemma SeenIsWrittenArgs(a: Arg)
    ensures Seen(a) == a <==> Plain(a)
  {
    var v := a.value;
    if a.isString {
      hide NoEntity, Unescaped, ParamText, EndsWith;
      ValueRoundTrip(v);
    } else {
      hide NoEnd, Shielded;
      ShieldedLonger(v, Ascii("\\u003c"));
      if NoEnd(v) {
        NothingToShield(v, Ascii("\\u003c"));
      }
    }
  }

  lemma {:induction false} SeenListIsWrittenArgs(list: seq<Call>)
    ensures SeenCalls(list) == WrittenCalls(list) <==> AllPlain(list)
  {
    hide Plain, WrittenArgs, Seen;
    if list != [] {
      var args := WrittenArgs(list[0].arguments);
      forall a
        ensures Seen(a) == a <==> Plain(a)
      {
        SeenIsWrittenArgs(a);
      }
      assert SeenArgs(args) == args <==> forall a :: a in args ==> Plain(a);
      SeenListIsWrittenArgs(list[1..]);
      assert list == [list[0]] + list[1..];
      var x, y := SeenCalls(list), WrittenCalls(list);
      assert x == y <==> x[0] == y[0] && x[1..] == y[1..];
    }
  }

  lemma CallsTextIs(list: seq<Call>)
    requires list != []
    ensures CallsText(Calls(list, [])) == [NL, NL] + FULL.toolStart + ([NL] + (CallListText(list) + FULL.toolEnd))
  {
    hide FULL, CallListText;
    FourPieces([NL, NL] + FULL.toolStart, [NL], CallListText(list), FULL.toolEnd);
  }

  lemma FourPieces(a: Bytes, b: Bytes, c: Bytes, d: Bytes)
    ensures a + b + c + d == a + (b + (c + d))
  {
  }

  /** Every rendered block parses to its end, the calls have the names and the ordered
      members that were written, each as `Seen` says, and all of it comes back as it was
      exactly when every member is plain. */
  lemma RenderThenParse(s: Bytes, p: nat, list: seq<Call>) returns (calls: seq<Invoke>)
    requires list != [] && IsAt(s, CallsText(Calls(list, [])), p)
    ensures var v := p + 2 + |FULL.toolStart|;
            && IsAt(s, FULL.toolStart, p + 2) && v <= |s| && FULL.paramEnd != []
            && ParseInvokes(s, FULL, v) == Some((calls, p + |CallsText(Calls(list, []))|))
    ensures ReadCalls(calls) == SeenCalls(list)
    ensures ReadCalls(calls) == WrittenCalls(list) <==> AllPlain(list)
  {
    hide FULL, IsAt, CallListText, CallsText, ParseInvokes, ReadCalls, SeenCalls, WrittenCalls, AllPlain;
    var block := CallListText(list) + FULL.toolEnd;
    var open := [NL, NL] + FULL.toolStart;
    CallsTextIs(list);
    IsAtSplit(s, open, [NL] + block, p);
    IsAtSplit(s, [NL, NL], FULL.toolStart, p);
    IsAtSplit(s, [NL], block, p + |open|);
    ByteAt(s, [NL], p + |open|, 0);
    var next;
    calls, next := ParseCalls(s, p + |open|, list);
    SeenListIsWrittenArgs(list);
  }

  lemma {:induction false} SameText(list: seq<Call>)
    ensures CallListText(WrittenCalls(list)) == CallListText(list) && |WrittenCalls(list)| == |list|
  {
    hide CallText;
    if list != [] {
      SameText(list[1..]);
      SameCallText(list[0]);
    }
  }

  lemma SameCallText(c: Call)
    ensures CallText(Call(c.name, Members(WrittenArgs(c.arguments)))) == CallText(c)
  {
    ArgumentsWrittenArgs(c.arguments);
    hide ArgsText, WrittenArgs, AttrEscaped, FULL, NAME_OPEN, TAG_CLOSE;
  }

  /** The calls as they come back: names, and argument objects read from their JSON
      text. */
  function Reread(calls: seq<Invoke>): seq<Call> {
    if calls == [] then []
    else [Call(calls[0].name, ParseArguments(ObjectText(calls[0].params)))] + Reread(calls[1..])
  }

  /** The arguments of every call were read from some JSON text, as all that the server
      renders are. */
  ghost predicate Parsed(list: seq<Call>) {
    forall c :: c in list ==> exists json :: c.arguments == ParseArguments(json)
  }

  /** The members that are not strings are JSON values in their shortest form. */
  ghost predicate AllShort(list: seq<Call>) {
    forall c :: c in list ==> forall a :: a in WrittenArgs(c.arguments) ==> a.isString || RawPlain(a.value)
  }

  /** Reading the JSON text of the parsed parameters gives the members that were
      written. */
  lemma {:induction false} RereadIsWritten(calls: seq<Invoke>, list: seq<Call>)
    requires ReadCalls(calls) == WrittenCalls(list) && AllShort(list)
    ensures Reread(calls) == WrittenCalls(list)
    decreases |list|
  {
    hide ParseArguments, ObjectText, WrittenArgs, RawPlain, ReadParams, AllShort;
    if calls == [] {
    } else {
      var x, y := ReadCalls(calls), WrittenCalls(list);
      assert x[0] == y[0] && x[1..] == y[1..] && x[1..] == ReadCalls(calls[1..]);
      assert list != [] && y[1..] == WrittenCalls(list[1..]);
      ShortCalls(list);
      RereadIsWritten(calls[1..], list[1..]);
      ReadableParams(calls[0].params, WrittenArgs(list[0].arguments));
      ObjectBack(calls[0].params);
    }
  }

  lemma ShortCalls(list: seq<Call>)
    requires AllShort(list) && list != []
    ensures AllShort(list[1..])
    ensures forall a :: a in WrittenArgs(list[0].arguments) ==> a.isString || RawPlain(a.value)
  {
    hide RawPlain, WrittenArgs;
    assert list[0] in list;
    assert forall c :: c in list[1..] ==> c in list;
  }

  lemma {:induction false} ReadableParams(params: seq<Param>, args: seq<Arg>)
    requires ReadParams(params) == args && forall a :: a in args ==> a.isString || RawPlain(a.value)
    ensures AllReadable(params)
    decreases |params|
  {
    hide RawPlain, ReadParam;
    if params != [] {
      assert args[0] == ReadParam(params[0]) && args[0] in args && args[1..] == ReadParams(params[1..]);
      assert forall a :: a in args[1..] ==> a in args;
      ReadableParams(params[1..], args[1..]);
      SameValue(params[0]);
      assert forall i :: 0 < i < |params| ==> params[i] == params[1..][i - 1];
    }
  }

  lemma SameValue(p: Param)
    ensures ReadParam(p).value == p.value
  {
  }

  lemma ParsedAreShort(list: seq<Call>)
    requires Parsed(list)
    ensures AllShort(list)
  {
    hide ParseArguments, RawPlain;
    forall c, a | c in list && a in WrittenArgs(c.arguments)
      ensures a.isString || RawPlain(a.value)
    {
      var json :| c.arguments == ParseArguments(json);
      JsonMinify.ParsedIsShort(json);
    }
  }

  /** Parsing the rendered text, writing the parameters as JSON, reading that and
      rendering again gives the same bytes. */
  lemma RenderAgain(s: Bytes, p: nat, list: seq<Call>)
    requires list != [] && IsAt(s, CallsText(Calls(list, [])), p) && AllPlain(list) && Parsed(list)
    ensures var v := p + 2 + |FULL.toolStart|;
            && v <= |s| && FULL.paramEnd != [] && ParseInvokes(s, FULL, v).Some?
            && CallsText(Calls(Reread(ParseInvokes(s, FULL, v).value.0), [])) == CallsText(Calls(list, []))
  {
    hide FULL, IsAt, CallListText, ParseInvokes, ReadCalls, SeenCalls, WrittenCalls, AllPlain, AllShort, Parsed, Reread;
    ParsedAreShort(list);
    var calls := RenderThenParse(s, p, list);
    RereadIsWritten(calls, list);
    SameText(list);
  }
}
