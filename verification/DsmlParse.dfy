/** The batch parser of generated tool calls. */
module DsmlParse {
  import opened ByteStrings
  import opened Dsml
  import opened JsonText
  import opened JsonValue

  /** A parameter: its `string` attribute, if any, and the text of its value, with
      entities replaced when it is a string. A nested value is JSON text. */
  datatype Param = Param(key: Bytes, kind: Option<Bytes>, value: Bytes, nested: bool)

  datatype Invoke = Invoke(name: Bytes, params: seq<Param>)

  /** The tag that opens at `p`: its text and where it ends. */
  function TagFrom(s: Bytes, p: nat): (r: Option<(Bytes, nat)>)
    ensures r.Some? ==> p < r.value.1 <= |s|
  {
    var gt := FindFrom(s, [GT], p);
    if gt.None? then None else Some((s[p..gt.value + 1], gt.value + 1))
  }

  predicate IsStringKind(kind: Option<Bytes>) {
    kind.None? || kind.value == TRUE
  }

  /** A parameter with a plain value. */
  function ParseLeaf(s: Bytes, x: Syntax, p: nat): (r: Option<(Param, nat)>)
    requires x.paramEnd != []
    ensures r.Some? ==> p < r.value.1 <= |s|
  {
    if !IsAt(s, x.paramStart, p) then None
    else
      var tag := TagFrom(s, p);
      if tag.None? then None
      else
        var name, kind := Attr(tag.value.0, NAME), Attr(tag.value.0, STRING);
        var end := FindFrom(s, x.paramEnd, tag.value.1);
        if name.None? || end.None? then None
        else
          var raw := s[tag.value.1..end.value];
          Some((Param(name.value, kind, if IsStringKind(kind) then Unescaped(raw) else raw, false),
                end.value + |x.paramEnd|))
  }

  /** The leaf parameters inside an untyped one: at least one. */
  function ParseNested(s: Bytes, x: Syntax, p: nat): (r: Option<(seq<Param>, nat)>)
    requires x.paramEnd != [] && p <= |s|
    ensures r.Some? ==> p <= r.value.1 <= |s|
    decreases |s| - p
  {
    var q := SkipSpace(s, p);
    if !IsAt(s, x.paramStart, q) then Some(([], q))
    else
      var leaf := ParseLeaf(s, x, q);
      if leaf.None? then None
      else
        var rest := ParseNested(s, x, leaf.value.1);
        if rest.None? then None else Some(([leaf.value.0] + rest.value.0, rest.value.1))
  }

  /** One member of an argument object as JSON text. */
  function MemberText(p: Param): Bytes {
    Quoted(p.key) + Ascii(": ") + if IsStringKind(p.kind) && !p.nested then Quoted(p.value) else RawText(p.value)
  }

  function MembersText(params: seq<Param>): Bytes {
    if params == [] then []
    else if |params| == 1 then MemberText(params[0])
    else MemberText(params[0]) + Ascii(", ") + MembersText(params[1..])
  }

  function ObjectText(params: seq<Param>): Bytes {
    Ascii("{") + MembersText(params) + Ascii("}")
  }

  /** The next parameter of a call. */
  function ParseParam(s: Bytes, x: Syntax, p: nat): (r: Option<(Param, nat)>)
    requires x.paramEnd != [] && p <= |s|
    ensures r.Some? ==> p < r.value.1 <= |s|
  {
    var tag := TagFrom(s, p);
    if !IsAt(s, x.paramStart, p) || tag.None? then None
    else
      var name, kind, v := Attr(tag.value.0, NAME), Attr(tag.value.0, STRING), tag.value.1;
      if name.None? then None
      else if kind.None? && IsAt(s, x.paramStart, SkipSpace(s, v)) then
        var nested := ParseNested(s, x, v);
        if nested.None? then None
        else
          var q := SkipSpace(s, nested.value.1);
          Some((Param(name.value, None, ObjectText(nested.value.0), true),
                if IsAt(s, x.paramEnd, q) then q + |x.paramEnd| else q))
      else ParseLeaf(s, x, p)
  }

  function ParseParams(s: Bytes, x: Syntax, p: nat): (r: Option<(seq<Param>, nat)>)
    requires x.paramEnd != [] && p <= |s|
    ensures r.Some? ==> p <= r.value.1 <= |s|
    decreases |s| - p
  {
    var q := SkipSpace(s, p);
    if IsAt(s, x.invokeEnd, q) then Some(([], q + |x.invokeEnd|))
    else
      var param := ParseParam(s, x, q);
      if param.None? then None
      else
        var rest := ParseParams(s, x, param.value.1);
        if rest.None? then None else Some(([param.value.0] + rest.value.0, rest.value.1))
  }

  /** The calls of a block, from after its opening tag to after its closing tag. */
  function ParseInvokes(s: Bytes, x: Syntax, p: nat): (r: Option<(seq<Invoke>, nat)>)
    requires x.paramEnd != [] && p <= |s|
    ensures r.Some? ==> p <= r.value.1 <= |s|
    decreases |s| - p
  {
    var q := SkipSpace(s, p);
    if IsAt(s, x.toolEnd, q) then Some(([], q + |x.toolEnd|))
    else if !IsAt(s, x.invokeStart, q) then None
    else
      var tag := TagFrom(s, q);
      if tag.None? then None
      else
        var name := Attr(tag.value.0, NAME);
        if name.None? then None
        else
          var params := ParseParams(s, x, tag.value.1);
          if params.None? then None
          else
            var rest := ParseInvokes(s, x, params.value.1);
            if rest.None? then None
            else Some(([Invoke(name.value, params.value.0)] + rest.value.0, rest.value.1))
  }

  // Unfolding the parser

  lemma ParamFacts(s: Bytes, x: Syntax, p: nat, param: Param, next: nat)
    requires x.paramEnd != [] && p <= |s| && ParseParam(s, x, p) == Some((param, next)) && !param.nested
    ensures IsAt(s, x.paramStart, p) && TagFrom(s, p).Some?
    ensures var (tag, v) := TagFrom(s, p).value;
            var end := FindFrom(s, x.paramEnd, v);
            && Attr(tag, NAME) == Some(param.key) && Attr(tag, STRING) == param.kind
            && end.Some? && v <= end.value <= |s| && next == end.value + |x.paramEnd|
            && param.value == if IsStringKind(param.kind) then Unescaped(s[v..end.value]) else s[v..end.value]
  {
    hide Attr, Unescaped, ParseNested;
  }

  /** A parameter says whether it is a string exactly when its tag has the attribute. */
  lemma KindOnTag(s: Bytes, x: Syntax, p: nat, param: Param, next: nat)
    requires x.paramEnd != [] && p <= |s| && ParseParam(s, x, p) == Some((param, next))
    ensures IsAt(s, x.paramStart, p) && TagFrom(s, p).Some?
    ensures param.kind.Some? && !param.nested <==> Attr(TagFrom(s, p).value.0, STRING).Some?
  {
    hide Attr, Unescaped, ParseNested, FindFrom, IsAt, SkipSpace, ObjectText;
  }

  lemma ParamsEnd(s: Bytes, x: Syntax, p: nat)
    requires x.paramEnd != [] && p <= |s| && IsAt(s, x.invokeEnd, SkipSpace(s, p))
    ensures ParseParams(s, x, p) == Some(([], SkipSpace(s, p) + |x.invokeEnd|))
  {
  }

  lemma ParamsStep(s: Bytes, x: Syntax, p: nat, params: seq<Param>, q: nat)
    returns (param: Param, next: nat)
    requires x.paramEnd != [] && p <= |s| && !IsAt(s, x.invokeEnd, SkipSpace(s, p))
    requires ParseParams(s, x, p) == Some((params, q))
    ensures p < next <= |s| && ParseParam(s, x, SkipSpace(s, p)) == Some((param, next))
    ensures params != [] && params[0] == param && ParseParams(s, x, next) == Some((params[1..], q))
  {
    hide ParseParam;
    var r := ParseParam(s, x, SkipSpace(s, p)).value;
    param, next := r.0, r.1;
  }

  lemma InvokesEnd(s: Bytes, x: Syntax, p: nat)
    requires x.paramEnd != [] && p <= |s| && IsAt(s, x.toolEnd, SkipSpace(s, p))
    ensures ParseInvokes(s, x, p) == Some(([], SkipSpace(s, p) + |x.toolEnd|))
  {
  }

  lemma InvokesStep(s: Bytes, x: Syntax, p: nat, calls: seq<Invoke>, q: nat)
    returns (v: nat, next: nat)
    requires x.paramEnd != [] && p <= |s| && !IsAt(s, x.toolEnd, SkipSpace(s, p))
    requires ParseInvokes(s, x, p) == Some((calls, q))
    ensures var b := SkipSpace(s, p);
            && IsAt(s, x.invokeStart, b) && TagFrom(s, b).Some? && TagFrom(s, b).value.1 == v && p < v <= next <= |s|
            && calls != [] && Attr(TagFrom(s, b).value.0, NAME) == Some(calls[0].name)
            && ParseParams(s, x, v) == Some((calls[0].params, next))
            && ParseInvokes(s, x, next) == Some((calls[1..], q))
  {
    hide ParseParams, Attr;
    v := TagFrom(s, SkipSpace(s, p)).value.1;
    next := ParseParams(s, x, v).value.1;
  }
}
