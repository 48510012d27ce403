/** The arguments of a call as a JSON object: reading what the parser of generated calls
    wrote. */
module JsonArguments {
  import opened ByteStrings
  import opened Dsml
  import opened DsmlRender
  import opened DsmlParse
  import opened JsonText
  import opened JsonValue

  /** The value of a member, from after its colon: a string, or the shortest text of
      another value. */
  function ReadValue(text: Bytes, key: Bytes, p: nat): (r: Option<(Arg, nat)>)
    requires p <= |text|
    ensures r.Some? ==> p < r.value.1 <= |text|
  {
    var v := SkipSpace(text, p);
    if Has(text, v, QUOTE) then
      var s := Decoded(text, v + 1);
      if s.None? then None else Some((Arg(key, true, s.value.0), s.value.1))
    else
      var e := ValueEnd(text, v, 0);
      if e.None? then None else Some((Arg(key, false, Minified(text[v..e.value])), e.value))
  }

  /** After a member: one comma, if there is one. */
  function NextMember(text: Bytes, p: nat): (r: nat)
    requires p <= |text|
    ensures p <= r <= |text|
  {
    var n := SkipSpace(text, p);
    SkipSpace(text, if Has(text, n, COMMA) then n + 1 else n)
  }

  /** The members from `p` on, up to the closing brace. */
  function ReadMembers(text: Bytes, p: nat): (r: Option<seq<Arg>>)
    requires p <= |text|
    decreases |text| - p
  {
    if p == |text| then None
    else if text[p] == BRACE_CLOSE then Some([])
    else
      var key := StringAt(text, p);
      if key.None? then None
      else
        var c := SkipSpace(text, key.value.1);
        if !Has(text, c, COLON) then None
        else
          var arg := ReadValue(text, key.value.0, c + 1);
          if arg.None? then None
          else
            var rest := ReadMembers(text, NextMember(text, arg.value.1));
            if rest.None? then None else Some([arg.value.0] + rest.value)
  }

  /** A text that is not an object stays as it is. */
  function ParseArguments(json: Bytes): Arguments {
    var p := SkipSpace(json, 0);
    if !Has(json, p, BRACE_OPEN) then Unparsed(json)
    else
      var args := ReadMembers(json, SkipSpace(json, p + 1));
      if args.Some? then Members(args.value) else Unparsed(json)
  }

  /** The loop over the members. */
  method ReadArguments(json: Bytes) returns (r: Arguments)
    ensures r == ParseArguments(json)
  {
    hide StringAt, ReadValue, SkipSpace, NextMember;
    var p := SkipSpace(json, 0);
    if !Has(json, p, BRACE_OPEN) {
      return Unparsed(json);
    }
    p := SkipSpace(json, p + 1);
    var args: seq<Arg> := [];
    ghost var start := p;
    NothingBefore(ReadMembers(json, p));
    while p < |json| && json[p] != BRACE_CLOSE
      invariant p <= |json| && start <= |json|
      invariant ReadMembers(json, start) == Before(args, ReadMembers(json, p))
      decreases |json| - p
    {
      var key := StringAt(json, p);
      if key.None? {
        return Unparsed(json);
      }
      var c := SkipSpace(json, key.value.1);
      if !Has(json, c, COLON) {
        return Unparsed(json);
      }
      var arg := ReadValue(json, key.value.0, c + 1);
      if arg.None? {
        return Unparsed(json);
      }
      p := NextMember(json, arg.value.1);
      BeforeMore(args, arg.value.0, ReadMembers(json, p));
      args := args + [arg.value.0];
    }
    r := if p == |json| then Unparsed(json) else Members(args);
  }

  function Before(args: seq<Arg>, r: Option<seq<Arg>>): Option<seq<Arg>> {
    if r.None? then None else Some(args + r.value)
  }

  lemma NothingBefore(r: Option<seq<Arg>>)
    ensures Before([], r) == r
  {
    if r.Some? {
      assert [] + r.value == r.value;
    }
  }

  lemma BeforeMore(args: seq<Arg>, arg: Arg, r: Option<seq<Arg>>)
    ensures Before(args, if r.None? then None else Some([arg] + r.value)) == Before(args + [arg], r)
  {
    if r.Some? {
      assert args + ([arg] + r.value) == args + [arg] + r.value;
    }
  }

  // Reading back what the parser of calls wrote

  /** A parsed parameter as a member of an argument object. */
  function ReadParam(p: Param): Arg {
    Arg(p.key, IsStringKind(p.kind) && !p.nested, p.value)
  }

  function ReadParams(params: seq<Param>): seq<Arg> {
    if params == [] then [] else [ReadParam(params[0])] + ReadParams(params[1..])
  }

  ghost predicate AllReadable(params: seq<Param>) {
    forall i :: 0 <= i < |params| ==> ReadParam(params[i]).isString || RawPlain(params[i].value)
  }

  const COLON_SPACE := Ascii(": ")
  const COMMA_SPACE := Ascii(", ")

  lemma Separators()
    ensures COLON_SPACE == [COLON] + [0x20] && COMMA_SPACE == [COMMA] + [0x20]
    ensures Ascii(": ") == COLON_SPACE && Ascii(", ") == COMMA_SPACE
    ensures Ascii("{") == [BRACE_OPEN] && Ascii("}") == [BRACE_CLOSE]
    ensures !NumberByte(COMMA) && !NumberByte(BRACE_CLOSE)
  {
  }

  function Written(p: Param): Bytes {
    if ReadParam(p).isString then Quoted(p.value) else p.value
  }

  lemma MemberTextIs(p: Param)
    requires ReadParam(p).isString || RawPlain(p.value)
    ensures MemberText(p) == [QUOTE] + (Escaped(p.key) + [QUOTE]) + ([COLON] + [0x20]) + Written(p)
  {
    hide Escaped, RawText, RawPlain, IsStringKind, TRUE;
    Separators();
    if !ReadParam(p).isString {
      RawPlainIs(p.value);
    }
  }

  lemma NoSpaceAt(text: Bytes, p: nat)
    requires p < |text| && !IsSpace(text[p])
    ensures SkipSpace(text, p) == p
  {
  }

  lemma OneSpace(text: Bytes, p: nat)
    requires p + 1 < |text| && text[p] == 0x20 && !IsSpace(text[p + 1])
    ensures SkipSpace(text, p) == p + 1
  {
  }

  /** The value of a member is read back, up to what follows it. */
  lemma ValueBack(text: Bytes, p: nat, param: Param)
    requires ReadParam(param).isString || RawPlain(param.value)
    requires IsAt(text, Written(param), p) && 0 < p && text[p - 1] == 0x20
    requires p + |Written(param)| < |text| && !NumberByte(text[p + |Written(param)|])
    ensures ReadValue(text, param.key, p - 1) == Some((ReadParam(param), p + |Written(param)|))
  {
    hide IsAt, Decoded, Escaped, ValueEnd, Minified, RawPlain, NumberByte, IsStringKind, SkipSpace, RawText;
    var w := Written(param);
    if ReadParam(param).isString {
      var inner := Escaped(param.value) + [QUOTE];
      assert w == [QUOTE] + inner;
      IsAtSplit(text, [QUOTE], inner, p);
      ByteAt(text, [QUOTE], p, 0);
      OneSpace(text, p - 1);
      EscapeRoundTrip(text, p + 1, param.value);
    } else {
      RawPlainIs(w);
      RawMinified(w);
      ByteAt(text, w, p, 0);
      OneSpace(text, p - 1);
      ValueMoved(w, text, p, 0, 0);
      SliceIs(text, w, p);
    }
  }

  lemma RawMinified(w: Bytes)
    requires RawPlain(w)
    ensures Minified(w) == w
  {
    hide ValueEnd;
  }

  lemma SliceIs(text: Bytes, w: Bytes, p: nat)
    requires IsAt(text, w, p)
    ensures p + |w| <= |text| && text[p..p + |w|] == w
  {
  }

  /** The key and the colon before a value. */
  lemma KeyBack(text: Bytes, p: nat, key: Bytes)
    requires IsAt(text, [QUOTE] + (Escaped(key) + [QUOTE]) + ([COLON] + [0x20]), p)
    ensures p <= |text| && StringAt(text, p) == Some((key, p + |Escaped(key)| + 2))
    ensures var c := p + |Escaped(key)| + 2;
            c + 1 < |text| && text[c] == COLON && text[c + 1] == 0x20 && SkipSpace(text, c) == c
  {
    hide IsAt, Decoded, Escaped, SkipSpace;
    var inner := Escaped(key) + [QUOTE];
    IsAtSplit(text, [QUOTE] + inner, [COLON] + [0x20], p);
    IsAtSplit(text, [QUOTE], inner, p);
    ByteAt(text, [QUOTE], p, 0);
    NoSpaceAt(text, p);
    EscapeRoundTrip(text, p + 1, key);
    var c := p + |Escaped(key)| + 2;
    ByteAt(text, [COLON] + [0x20], c, 0);
    ByteAt(text, [COLON] + [0x20], c, 1);
    NoSpaceAt(text, c);
  }

  /** The members of an object are read back. */
  lemma {:induction false} MembersBack(text: Bytes, p: nat, params: seq<Param>)
    requires IsAt(text, MembersText(params) + [BRACE_CLOSE], p) && AllReadable(params)
    ensures p <= |text| && SkipSpace(text, p) == p && ReadMembers(text, p) == Some(ReadParams(params))
    decreases |params|
  {
    hide IsAt, MemberText, SkipSpace, StringAt, ReadValue, NumberByte, AllReadable, ReadParam, Escaped, Written, Ascii;
    Separators();
    if params == [] {
      assert MembersText(params) + [BRACE_CLOSE] == [BRACE_CLOSE];
      ByteAt(text, [BRACE_CLOSE], p, 0);
      NoSpaceAt(text, p);
    } else {
      var first, tail := params[0], if |params| == 1 then [BRACE_CLOSE] else COMMA_SPACE + (MembersText(params[1..]) + [BRACE_CLOSE]);
      MembersSplit(params);
      FirstReadable(params);
      IsAtSplit(text, MemberText(first), tail, p);
      ByteAt(text, tail, p + |MemberText(first)|, 0);
      TailByte(tail, |params| == 1, MembersText(params[1..]));
      OneMember(text, p, first);
      var e := p + |MemberText(first)|;
      NoSpaceAt(text, e);
      if |params| == 1 {
        LastMember(text, p, first, e);
        assert params[1..] == [];
      } else {
        IsAtSplit(text, COMMA_SPACE, MembersText(params[1..]) + [BRACE_CLOSE], e);
        ByteAt(text, COMMA_SPACE, e, 0);
        ByteAt(text, COMMA_SPACE, e, 1);
        MembersBack(text, e + 2, params[1..]);
        AfterComma(text, e);
        MemberThen(text, p, first, e, ReadParams(params[1..]));
      }
    }
  }

  lemma TailByte(tail: Bytes, last: bool, rest: Bytes)
    requires tail == if last then [BRACE_CLOSE] else COMMA_SPACE + (rest + [BRACE_CLOSE])
    ensures tail != [] && tail[0] == (if last then BRACE_CLOSE else COMMA)
    ensures !IsSpace(tail[0]) && !NumberByte(tail[0])
  {
  }

  /** What `OneMember` says about the text at `p`. */
  ghost predicate MemberAt(text: Bytes, p: nat, param: Param, e: nat) {
    && p < e <= |text| && text[p] == QUOTE && StringAt(text, p).Some?
    && var c := SkipSpace(text, StringAt(text, p).value.1);
    && Has(text, c, COLON) && ReadValue(text, StringAt(text, p).value.0, c + 1) == Some((ReadParam(param), e))
  }

  lemma LastMember(text: Bytes, p: nat, param: Param, e: nat)
    requires MemberAt(text, p, param, e) && e < |text| && text[e] == BRACE_CLOSE && SkipSpace(text, e) == e
    ensures ReadMembers(text, p) == Some([ReadParam(param)])
  {
    hide StringAt, ReadValue, SkipSpace, ReadParam;
    assert NextMember(text, e) == e && ReadMembers(text, e) == Some([]);
    assert [ReadParam(param)] + [] == [ReadParam(param)];
  }

  lemma MemberThen(text: Bytes, p: nat, param: Param, e: nat, rest: seq<Arg>)
    requires MemberAt(text, p, param, e) && e + 2 <= |text| && text[e] == COMMA && SkipSpace(text, e) == e
    requires SkipSpace(text, e + 1) == e + 2 && ReadMembers(text, e + 2) == Some(rest)
    ensures ReadMembers(text, p) == Some([ReadParam(param)] + rest)
  {
    hide StringAt, ReadValue, SkipSpace, ReadParam;
    assert NextMember(text, e) == e + 2;
  }

  /** A space, then what follows. */
  lemma AfterComma(text: Bytes, e: nat)
    requires e + 2 <= |text| && text[e + 1] == 0x20 && SkipSpace(text, e + 2) == e + 2
    ensures SkipSpace(text, e + 1) == e + 2
  {
  }

  lemma MembersSplit(params: seq<Param>)
    requires params != []
    ensures MembersText(params) + [BRACE_CLOSE]
         == MemberText(params[0])
            + if |params| == 1 then [BRACE_CLOSE] else COMMA_SPACE + (MembersText(params[1..]) + [BRACE_CLOSE])
  {
    hide MemberText, COMMA_SPACE;
    Separators();
    if |params| > 1 {
      var a, b, c := MemberText(params[0]), COMMA_SPACE, MembersText(params[1..]);
      Assoc(a, b, c);
      Assoc(a, b + c, [BRACE_CLOSE]);
      Assoc(b, c, [BRACE_CLOSE]);
    }
  }

  lemma FirstReadable(params: seq<Param>)
    requires AllReadable(params) && params != []
    ensures (ReadParam(params[0]).isString || RawPlain(params[0].value)) && AllReadable(params[1..])
  {
  }

  /** One member: what the loop reads at its start. */
  lemma OneMember(text: Bytes, p: nat, param: Param)
    requires ReadParam(param).isString || RawPlain(param.value)
    requires IsAt(text, MemberText(param), p)
    requires p + |MemberText(param)| < |text| && !NumberByte(text[p + |MemberText(param)|])
    ensures p < |text| && text[p] == QUOTE && SkipSpace(text, p) == p
    ensures MemberAt(text, p, param, p + |MemberText(param)|)
  {
    hide IsAt, MemberText, SkipSpace, StringAt, ReadValue, NumberByte, ReadParam, Escaped, Written, RawPlain;
    MemberTextIs(param);
    var head := [QUOTE] + (Escaped(param.key) + [QUOTE]) + ([COLON] + [0x20]);
    IsAtSplit(text, head, Written(param), p);
    KeyBack(text, p, param.key);
    ByteAt(text, head, p, 0);
    NoSpaceAt(text, p);
    ValueBack(text, p + |head|, param);
  }

  /** The object text of parsed parameters is read back as their members. */
  lemma ObjectBack(params: seq<Param>)
    requires AllReadable(params)
    ensures ParseArguments(ObjectText(params)) == Members(ReadParams(params))
  {
    hide MembersText, SkipSpace, ReadMembers, AllReadable, IsAt, Ascii;
    Separators();
    var text, body := ObjectText(params), MembersText(params) + [BRACE_CLOSE];
    assert text == [BRACE_OPEN] + body;
    NoSpaceAt(text, 0);
    BodyAt(text, body);
    MembersBack(text, 1, params);
  }

  lemma BodyAt(text: Bytes, body: Bytes)
    requires text == [BRACE_OPEN] + body
    ensures IsAt(text, body, 1)
  {
    assert text[1..1 + |body|] == body;
  }
}
