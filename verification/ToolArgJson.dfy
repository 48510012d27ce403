/** The JSON that is streamed for a call reads as the same members as the JSON that the
    batch parser writes for it. */
module ToolArgJson {
  import opened ByteStrings
  import opened Dsml
  import opened DsmlParse
  import opened DsmlRender
  import opened JsonArguments
  import opened JsonMinify
  import opened JsonText
  import opened JsonValue
  import opened ToolArgStream

  /** One JSON value that is not a string, with whitespace around it. */
  ghost predicate RawJson(w: Bytes) {
    var e := ValueEnd(w, 0, 0);
    && e.Some? && SkipSpace(w, 0) < |w| && w[SkipSpace(w, 0)] != QUOTE
    && forall i :: e.value <= i < |w| ==> IsSpace(w[i])
  }

  /** Every parameter that is not a string holds a JSON value. */
  ghost predicate AllJson(params: seq<Param>) {
    forall i :: 0 <= i < |params| && params[i].kind != Some(TRUE) ==> RawJson(params[i].value)
  }

  /** A parameter with its value in the shortest form. */
  function Short(p: Param): Param {
    if p.kind == Some(TRUE) then p else p.(value := RawText(p.value))
  }

  function AllShort(params: seq<Param>): (r: seq<Param>)
    ensures |r| == |params| && forall i :: 0 <= i < |r| ==> r[i] == Short(params[i])
  {
    if params == [] then [] else [Short(params[0])] + AllShort(params[1..])
  }

  function ValueStream(p: Param): Bytes {
    if p.kind == Some(TRUE) then Quoted(p.value) else p.value
  }

  // One member

  lemma {:induction false} SkipsTo(text: Bytes, p: nat, e: nat)
    requires p <= e < |text| && !IsSpace(text[e]) && forall i :: p <= i < e ==> IsSpace(text[i])
    ensures SkipSpace(text, p) == e
    decreases e - p
  {
    if p < e {
      SkipsTo(text, p + 1, e);
    }
  }

  /** Spaces behind a value that stands in a text. */
  lemma Trailing(text: Bytes, w: Bytes, p: nat, n: nat)
    requires IsAt(text, w, p) && n <= |w| && p + |w| < |text| && !IsSpace(text[p + |w|])
    requires forall i :: n <= i < |w| ==> IsSpace(w[i])
    ensures SkipSpace(text, p + n) == p + |w|
  {
    hide IsAt, SkipSpace, IsSpace;
    forall i: nat | p + n <= i < p + |w|
      ensures IsSpace(text[i])
    {
      ByteAt(text, w, p, i - p);
    }
    SkipsTo(text, p + n, p + |w|);
  }

  /** Whitespace before a value does not matter. */
  lemma FromValue(w: Bytes)
    ensures ValueEnd(w, SkipSpace(w, 0), 0) == ValueEnd(w, 0, 0)
  {
    hide Decoded, MembersEnd, ElementsEnd, ScalarEnd, SkipSpace;
    SkippedOnce(w, 0);
  }

  lemma SkippedOnce(w: Bytes, p: nat)
    requires p <= |w|
    ensures SkipSpace(w, SkipSpace(w, p)) == SkipSpace(w, p)
  {
  }

  /** The text of a value without the whitespace around it has the same short form. */
  lemma CoreMinified(w: Bytes)
    requires ValueEnd(w, 0, 0).Some?
    ensures SkipSpace(w, 0) <= ValueEnd(w, 0, 0).value <= |w|
    ensures Minified(w[SkipSpace(w, 0)..ValueEnd(w, 0, 0).value]) == Minified(w)
  {
    hide ValueEnd, SkipSpace, Stripped, IsAt, Minified;
    ValueAfterSpace(w);
    FromValue(w);
    var s, n := SkipSpace(w, 0), ValueEnd(w, 0, 0).value;
    var u := w[s..n];
    PieceAt(w, s, n);
    ValueInPart(u, w, s, 0, 0);
    SkippedOnce(w, 0);
    MinifiedIs(w, u);
  }

  lemma MinifiedIs(w: Bytes, u: Bytes)
    requires ValueEnd(w, 0, 0).Some? && SkipSpace(w, 0) <= ValueEnd(w, 0, 0).value
    requires u == w[SkipSpace(w, 0)..ValueEnd(w, 0, 0).value] && ValueEnd(u, 0, 0) == Some(|u|) && SkipSpace(u, 0) == 0
    ensures Minified(u) == Minified(w)
  {
    hide ValueEnd, SkipSpace, Stripped;
    assert u[0..|u|] == u;
  }

  /** A value that is not a string. */
  lemma RawRead(text: Bytes, p: nat, key: Bytes, w: Bytes) returns (e: nat)
    requires IsAt(text, w, p) && RawJson(w) && p + |w| < |text|
    requires !IsSpace(text[p + |w|]) && !NumberByte(text[p + |w|])
    ensures p <= e <= p + |w| && ReadValue(text, key, p) == Some((DsmlRender.Arg.Arg(key, false, Minified(w)), e))
    ensures SkipSpace(text, e) == p + |w|
  {
    hide ValueEnd, IsAt, NumberByte, SkipSpace, Decoded, IsSpace, Minified;
    var n, s := ValueEnd(w, 0, 0).value, SkipSpace(w, 0);
    e := p + n;
    Trailing(text, w, p, n);
    CoreMinified(w);
    ValueAfterSpace(w);
    FromValue(w);
    ValueMoved(w, text, p, s, 0);
    SpaceMoved(w, text, p, 0);
    SameByte(w, text, p, s);
    SliceOf(text, w, p, s, n);
    assert p + s == SkipSpace(text, p);
  }

  lemma SliceOf(text: Bytes, w: Bytes, p: nat, i: nat, j: nat)
    requires IsAt(text, w, p) && i <= j <= |w|
    ensures p + j <= |text| && text[p + i..p + j] == w[i..j]
  {
    var u := text[p..p + |w|];
    forall k | 0 <= k < j - i
      ensures text[p + i..p + j][k] == w[i..j][k]
    {
      assert u[i + k] == text[p + (i + k)];
    }
  }

  lemma StringRead(text: Bytes, p: nat, key: Bytes, value: Bytes)
    requires IsAt(text, Quoted(value), p)
    ensures p <= |text| && ReadValue(text, key, p) == Some((DsmlRender.Arg.Arg(key, true, value), p + |Quoted(value)|))
  {
    hide IsAt, Decoded, Escaped, SkipSpace;
    var inner := Escaped(value) + [QUOTE];
    assert Quoted(value) == [QUOTE] + inner;
    IsAtSplit(text, [QUOTE], inner, p);
    ByteAt(text, [QUOTE], p, 0);
    NoSpaceAt(text, p);
    EscapeRoundTrip(text, p + 1, value);
  }

  /** The value of a streamed member, up to the comma or brace behind it. */
  lemma ValueRead(text: Bytes, p: nat, param: Param) returns (e: nat)
    requires !param.nested && param.kind.Some? && (param.kind != Some(TRUE) ==> RawJson(param.value))
    requires IsAt(text, ValueStream(param), p) && p + |ValueStream(param)| < |text|
    requires text[p + |ValueStream(param)|] == COMMA || text[p + |ValueStream(param)|] == BRACE_CLOSE
    ensures p <= e <= p + |ValueStream(param)| && ReadValue(text, param.key, p) == Some((ReadParam(Short(param)), e))
    ensures SkipSpace(text, e) == p + |ValueStream(param)|
  {
    hide IsAt, ValueEnd, Minified, ReadValue, SkipSpace, TRUE, Escaped, RawJson;
    if param.kind == Some(TRUE) {
      StringRead(text, p, param.key, param.value);
      e := p + |ValueStream(param)|;
      NoSpaceAt(text, e);
    } else {
      e := RawRead(text, p, param.key, param.value);
      RawIsMinified(param.value);
    }
  }

  lemma RawIsMinified(w: Bytes)
    requires RawJson(w)
    ensures RawText(w) == Minified(w)
  {
    hide ValueEnd, SkipSpace, Minified;
    MinifiedIsMinimal(w);
  }

  /** The key and the colon of a streamed member. */
  lemma KeyRead(text: Bytes, p: nat, key: Bytes)
    requires IsAt(text, Quoted(key) + [COLON], p)
    ensures var c := p + |Quoted(key)|;
            && p <= |text| && StringAt(text, p) == Some((key, c)) && c < |text| && text[c] == COLON && SkipSpace(text, c) == c
            && p < |text| && text[p] == QUOTE && SkipSpace(text, p) == p
  {
    hide IsAt, Decoded, Escaped, SkipSpace;
    var inner := Escaped(key) + [QUOTE];
    assert Quoted(key) == [QUOTE] + inner;
    IsAtSplit(text, Quoted(key), [COLON], p);
    IsAtSplit(text, [QUOTE], inner, p);
    ByteAt(text, [QUOTE], p, 0);
    NoSpaceAt(text, p);
    EscapeRoundTrip(text, p + 1, key);
    ByteAt(text, [COLON], p + |Quoted(key)|, 0);
    NoSpaceAt(text, p + |Quoted(key)|);
  }

  // All members

  lemma StreamIs(p: Param)
    requires p.kind.Some?
    ensures MemberStream(p) == Quoted(p.key) + [COLON] + ValueStream(p)
  {
    hide Quoted;
  }

  /** One member: everything the reader asks for at its place. */
  lemma MemberRead(text: Bytes, p: nat, param: Param) returns (e: nat)
    requires !param.nested && param.kind.Some? && (param.kind != Some(TRUE) ==> RawJson(param.value))
    requires IsAt(text, MemberStream(param), p) && p + |MemberStream(param)| < |text|
    requires text[p + |MemberStream(param)|] == COMMA || text[p + |MemberStream(param)|] == BRACE_CLOSE
    ensures MemberAt(text, p, Short(param), e) && SkipSpace(text, p) == p && SkipSpace(text, e) == p + |MemberStream(param)|
  {
    hide IsAt, ReadValue, SkipSpace, Quoted, RawJson, ValueStream, MemberStream, StringAt, Short, TRUE;
    StreamIs(param);
    var head := Quoted(param.key) + [COLON];
    IsAtSplit(text, head, ValueStream(param), p);
    KeyRead(text, p, param.key);
    e := ValueRead(text, p + |head|, param);
    SameKey(param);
    ReadMoves(text, param.key, p + |head|);
  }

  lemma ReadMoves(text: Bytes, key: Bytes, p: nat)
    requires p <= |text|
    ensures ReadValue(text, key, p).Some? ==> p < ReadValue(text, key, p).value.1 <= |text|
  {
  }

  lemma SameKey(p: Param)
    ensures Short(p).key == p.key
  {
    hide RawText;
  }

  lemma MemberAndMore(text: Bytes, p: nat, param: Param, e: nat, n: nat, rest: seq<DsmlRender.Arg>)
    requires MemberAt(text, p, param, e) && SkipSpace(text, e) == n && n < |text|
    requires if text[n] == COMMA then SkipSpace(text, n + 1) == n + 1 && ReadMembers(text, n + 1) == Some(rest)
             else text[n] == BRACE_CLOSE && rest == []
    ensures ReadMembers(text, p) == Some([ReadParam(param)] + rest)
  {
    hide StringAt, ReadValue, SkipSpace, ReadParam;
    if text[n] != COMMA {
      NoSpaceAt(text, n);
      assert NextMember(text, e) == n && ReadMembers(text, n) == Some([]);
    }
  }

  lemma RestStream(params: seq<Param>)
    requires AllTyped(params) && params != []
    ensures AllTyped(params[1..]) && !params[0].nested && params[0].kind.Some?
    ensures MembersStream(true, params) == MemberStream(params[0]) + MembersStream(false, params[1..])
    ensures MembersStream(false, params[1..])
         == if |params| == 1 then [BRACE_CLOSE] else [COMMA] + MembersStream(true, params[1..])
  {
    hide MemberStream, MembersStream;
    TypedRest(params);
    ToolArgStream.MembersStep(true, params);
    assert [] + MemberStream(params[0]) == MemberStream(params[0]);
    if |params| > 1 {
      CommaBefore(params[1..]);
    } else {
      EmptyStream();
    }
  }

  lemma TypedRest(params: seq<Param>)
    requires AllTyped(params) && params != []
    ensures AllTyped(params[1..]) && !params[0].nested && params[0].kind.Some?
  {
  }

  lemma CommaBefore(params: seq<Param>)
    requires AllTyped(params) && params != []
    ensures MembersStream(false, params) == [COMMA] + MembersStream(true, params)
  {
    hide MemberStream, MembersStream;
    TypedRest(params);
    ToolArgStream.MembersStep(true, params);
    ToolArgStream.MembersStep(false, params);
    Assoc([COMMA], MemberStream(params[0]), MembersStream(false, params[1..]));
    assert [] + MemberStream(params[0]) == MemberStream(params[0]);
  }

  lemma EmptyStream()
    ensures MembersStream(true, []) == [BRACE_CLOSE] && MembersStream(false, []) == [BRACE_CLOSE]
  {
  }

  /** The members of the streamed text are read back. */
  lemma {:induction false} MembersRead(text: Bytes, p: nat, params: seq<Param>)
    requires params != [] && AllTyped(params) && AllJson(params) && IsAt(text, MembersStream(true, params), p)
    ensures p <= |text| && SkipSpace(text, p) == p && ReadMembers(text, p) == Some(ReadParams(AllShort(params)))
    decreases |params|
  {
    hide IsAt, ReadMembers, SkipSpace, MemberStream, MembersStream, RawJson, ReadParam, Short, MemberAt;
    RestStream(params);
    var first, tail := params[0], MembersStream(false, params[1..]);
    IsAtSplit(text, MemberStream(first), tail, p);
    var n := p + |MemberStream(first)|;
    ByteAt(text, tail, n, 0);
    var e := MemberRead(text, p, first);
    if |params| == 1 {
      MemberAndMore(text, p, Short(first), e, n, []);
      assert AllShort(params[1..]) == [];
    } else {
      IsAtSplit(text, [COMMA], MembersStream(true, params[1..]), n);
      RestJson(params);
      MembersRead(text, n + 1, params[1..]);
      MemberAndMore(text, p, Short(first), e, n, ReadParams(AllShort(params[1..])));
    }
    assert AllShort(params)[0] == Short(first) && AllShort(params)[1..] == AllShort(params[1..]);
  }

  lemma RestJson(params: seq<Param>)
    requires AllJson(params) && params != []
    ensures AllJson(params[1..]) && (params[0].kind != Some(TRUE) ==> RawJson(params[0].value))
  {
    hide RawJson;
    assert forall i :: 0 <= i < |params| - 1 ==> params[1..][i] == params[i + 1];
  }

  /** The streamed object reads as the ordered members with their shortest values. */
  lemma StreamedObject(params: seq<Param>)
    requires AllTyped(params) && AllJson(params)
    ensures ParseArguments([BRACE_OPEN] + MembersStream(true, params)) == Members(ReadParams(AllShort(params)))
  {
    hide ReadMembers, SkipSpace, MembersStream, RawJson, ReadParam, Short, IsAt, AllJson;
    var body := MembersStream(true, params);
    var text := [BRACE_OPEN] + body;
    BodyAt(text, body);
    NoSpaceAt(text, 0);
    if params == [] {
      EmptyStream();
      ByteAt(text, body, 1, 0);
      NoSpaceAt(text, 1);
      EmptyObject(text);
    } else {
      MembersRead(text, 1, params);
    }
  }

  lemma EmptyObject(text: Bytes)
    requires 1 < |text| && text[1] == BRACE_CLOSE
    ensures ReadMembers(text, 1) == Some([])
  {
  }

  // The same as the batch parser writes

  lemma ShortIsShort(p: Param)
    requires p.kind.Some? && !p.nested && (p.kind != Some(TRUE) ==> RawJson(p.value))
    ensures MemberText(Short(p)) == MemberText(p) && (ReadParam(Short(p)).isString || RawPlain(Short(p).value))
  {
    hide ValueEnd, SkipSpace, Minified, Quoted, TRUE;
    if p.kind != Some(TRUE) {
      RawIsMinified(p.value);
      MinifiedIsMinimal(p.value);
      RawPlainIs(Minified(p.value));
    }
  }

  lemma {:induction false} SameMembersText(params: seq<Param>)
    requires AllTyped(params) && AllJson(params)
    ensures MembersText(AllShort(params)) == MembersText(params) && AllReadable(AllShort(params))
    decreases |params|
  {
    hide MemberText, Short, RawJson, RawPlain, ReadParam;
    if params != [] {
      RestJson(params);
      ShortIsShort(params[0]);
      SameMembersText(params[1..]);
      var short := AllShort(params);
      assert short[1..] == AllShort(params[1..]);
      assert forall i :: 0 < i < |short| ==> short[i] == short[1..][i - 1];
    }
  }

  /** The streamed object and the object text of the batch parser read as the same
      arguments. */
  lemma SameArguments(params: seq<Param>)
    requires AllTyped(params) && AllJson(params)
    ensures ParseArguments([BRACE_OPEN] + MembersStream(true, params)) == ParseArguments(ObjectText(params))
  {
    hide MembersText, MembersStream, AllJson, AllReadable, ParseArguments, ReadParam, Short;
    StreamedObject(params);
    SameMembersText(params);
    ObjectBack(AllShort(params));
  }

  // A value that is missing

  /** A parameter that is not a string and has no value: the batch parser writes `null`, the
      stream writes nothing, and its object cannot be read. */
  lemma MissingValueDiffers(key: Bytes, kind: Bytes)
    requires kind != TRUE
    ensures var params := [Param(key, Some(kind), [], false)];
            && AllTyped(params)
            && ParseArguments([BRACE_OPEN] + MembersStream(true, params)).Unparsed?
            && ParseArguments(ObjectText(params)) == Members([DsmlRender.Arg.Arg(key, false, JSON_NULL)])
  {
    hide MembersText, ParseArguments, MembersStream, MemberStream, MemberText, ReadParam, RawPlain, JSON_NULL, TRUE;
    var p, q := Param(key, Some(kind), [], false), Param(key, Some(kind), JSON_NULL, false);
    NullIsPlain();
    NullIsRead(p, q);
    ObjectBack([q]);
    OnlyParam(q);
    OneMemberText(p, q);
    StreamStops(key, kind);
  }

  lemma NullIsPlain()
    ensures RawPlain(JSON_NULL) && RawText([]) == JSON_NULL && RawText(JSON_NULL) == JSON_NULL
  {
    hide JSON_NULL, JSON_TRUE, JSON_FALSE, IsAt, NumberEnd, Stripped;
    NullBytes();
    var w := JSON_NULL;
    NullAlone();
    NoSpaceAt(w, 0);
    ScalarStarts(w, 0);
    NullStripped();
    assert w[0..|w|] == w;
  }

  lemma NullBytes()
    ensures |JSON_NULL| == 4 && JSON_NULL[0] == 0x6e && !IsSpace(0x6e)
  {
  }

  lemma NullAlone()
    ensures IsAt(JSON_NULL, JSON_NULL, 0) && !IsAt(JSON_NULL, JSON_TRUE, 0) && !IsAt(JSON_NULL, JSON_FALSE, 0)
  {
    assert JSON_NULL[0] != JSON_TRUE[0];
  }

  lemma NullStripped()
    ensures Stripped(JSON_NULL, false, false) == JSON_NULL
  {
    PlainKept(JSON_NULL);
  }

  lemma NullIsRead(p: Param, q: Param)
    requires p.kind.Some? && p.kind != Some(TRUE) && !p.nested && p.value == [] && q == p.(value := JSON_NULL)
    requires RawText([]) == JSON_NULL && RawText(JSON_NULL) == JSON_NULL
    ensures MemberText(p) == MemberText(q) && ReadParam(q) == DsmlRender.Arg.Arg(p.key, false, JSON_NULL)
  {
    hide RawText, JSON_NULL, Quoted, TRUE;
  }

  lemma OnlyParam(q: Param)
    ensures ReadParams([q]) == [ReadParam(q)]
  {
    assert [ReadParam(q)] + [] == [ReadParam(q)] && [q][1..] == [];
  }

  lemma OneMemberText(p: Param, q: Param)
    requires MemberText(p) == MemberText(q)
    ensures ObjectText([p]) == ObjectText([q])
  {
    hide MemberText;
  }

  /** Behind the colon the reader finds the closing brace. */
  lemma StreamStops(key: Bytes, kind: Bytes)
    requires kind != TRUE
    ensures ParseArguments([BRACE_OPEN] + MembersStream(true, [Param(key, Some(kind), [], false)])).Unparsed?
  {
    hide MembersStream, MemberStream, IsAt, TRUE, SkipSpace, ReadMembers, Quoted, StringAt;
    var p := Param(key, Some(kind), [], false);
    ToolArgStream.MembersStep(true, [p]);
    EmptyStream();
    MissingStream(p);
    var head := Quoted(key) + [COLON];
    var body := head + [BRACE_CLOSE];
    var text := [BRACE_OPEN] + body;
    assert [p][1..] == [] && MembersStream(true, [p]) == body;
    BodyAt(text, body);
    NoSpaceAt(text, 0);
    IsAtSplit(text, head, [BRACE_CLOSE], 1);
    KeyRead(text, 1, key);
    ByteAt(text, [BRACE_CLOSE], 1 + |head|, 0);
    NoSpaceAt(text, 1 + |head|);
    NoValueRead(text, key, 1 + |head|);
    NoMembers(text, 1, key, |head|);
  }

  lemma MissingStream(p: Param)
    requires p.kind.Some? && p.kind.value != TRUE && p.value == []
    ensures MemberStream(p) == Quoted(p.key) + [COLON]
  {
    hide Quoted, TRUE;
    assert Quoted(p.key) + [COLON] + [] == Quoted(p.key) + [COLON];
  }

  lemma NoValueRead(text: Bytes, key: Bytes, v: nat)
    requires v < |text| && text[v] == BRACE_CLOSE && SkipSpace(text, v) == v
    ensures ReadValue(text, key, v).None?
  {
    hide SkipSpace, JSON_TRUE, JSON_FALSE, JSON_NULL;
    LiteralLetters();
    LiteralBytes();
    FirstByte(text, JSON_TRUE, v);
    FirstByte(text, JSON_FALSE, v);
    FirstByte(text, JSON_NULL, v);
  }

  lemma NoMembers(text: Bytes, p: nat, key: Bytes, c: nat)
    requires p < |text| && text[p] == QUOTE && StringAt(text, p) == Some((key, c)) && c < |text| && text[c] == COLON
    requires SkipSpace(text, c) == c && ReadValue(text, key, c + 1).None?
    ensures ReadMembers(text, p).None?
  {
    hide StringAt, SkipSpace, ReadValue;
  }
}
