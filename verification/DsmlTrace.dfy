/** What the tracker reports at every place of a text with a tool-call block, said
    from the parts of the block and not from the tracker's moves. */
module DsmlTrace {
  import opened ByteStrings
  import opened Dsml
  import opened DsmlRender
  import opened DsmlTracker
  import opened JsonStrings
  import opened JsonText
  import opened JsonValue
  import Recognizer = DsmlRecognizer
  import Reparse = DsmlReparse
  import Trip = DsmlRoundTrip

  /** The parts of a block after its opening tag. */
  datatype Part = Newline | CallTag(name: Bytes) | Value(key: Bytes, isString: bool, text: Bytes) | CallEnd | BlockEnd

  function ValueTag(key: Bytes, isString: bool): Bytes {
    Trip.ParamTag(key, if isString then TRUE else Trip.FALSE)
  }

  function PartText(t: Part): Bytes {
    match t
    case Newline => [NL]
    case CallTag(name) => Trip.InvokeTag(name)
    case Value(key, isString, text) => ValueTag(key, isString) + (text + END)
    case CallEnd => FULL.invokeEnd
    case BlockEnd => FULL.toolEnd
  }

  function PartsText(ts: seq<Part>): Bytes {
    if ts == [] then [] else PartText(ts[0]) + PartsText(ts[1..])
  }

  /** A name that ends in `string=` hides that its value is a string. */
  predicate ReadAsString(key: Bytes, isString: bool) {
    isString && !Trip.EndsWith(key, Trip.STRING_EQ)
  }

  /** A JSON text whose strings are closed, with closing tags inside them at most. */
  ghost predicate JsonShaped(w: Bytes, end: Bytes) {
    Strung(w) && forall i :: 0 <= i < |w| && IsAt(w, end, i) ==> InString(w, i)
  }

  /** A string value has no closing tag in it, another value has the shape of JSON. */
  ghost predicate PartOk(t: Part) {
    t.Value? ==> if ReadAsString(t.key, t.isString) then Trip.NoEnd(t.text) else JsonShaped(t.text, END)
  }

  ghost predicate PartsOk(ts: seq<Part>) {
    forall i :: 0 <= i < |ts| ==> PartOk(ts[i])
  }

  // The states

  /** The text ends in the first two or more bytes of a closing tag, but not all. */
  predicate Unfinished(t: Bytes) {
    exists j :: 2 <= j < |END| && EndsIn(t, j)
  }

  /** The text ends in the first `j` bytes of a closing tag. */
  predicate EndsIn(t: Bytes, j: nat)
    requires j <= |END|
  {
    Trip.EndsWith(t, END[..j])
  }

  /** After `k` bytes of a value and its closing tag. */
  function ValueState(asString: bool, w: Bytes, k: nat): Decode
    requires k < |w| + |END|
  {
    if !asString && k <= |w| && InString(w, k) then InJsonString
    else if Unfinished((w + END)[..k]) then InStructure
    else if asString then InStringBody
    else InJsonStructure
  }

  function PartState(t: Part, k: nat): Decode
    requires k < |PartText(t)|
  {
    if t.Value? && |ValueTag(t.key, t.isString)| <= k then
      ValueState(ReadAsString(t.key, t.isString), t.text, k - |ValueTag(t.key, t.isString)|)
    else InStructure
  }

  /** After `k` bytes of the parts: outside once the block has ended. */
  function PartsState(ts: seq<Part>, k: nat): Decode
    requires k <= |PartsText(ts)|
  {
    if ts == [] then InStructure
    else if k < |PartText(ts[0])| then PartState(ts[0], k)
    else if ts[0] == BlockEnd then Outside
    else PartsState(ts[1..], k - |PartText(ts[0])|)
  }

  // Reading a value

  /** Where the tracker is after `k` bytes of a JSON text that begins at `v`. */
  function InJson(w: Bytes, v: nat, k: nat): Cfg
    requires k <= |w|
  {
    Cfg(JsonParam, 0, v + k, InString(w, k), Escaping(w, k))
  }

  lemma JsonByte(w: Bytes, v: nat, k: nat)
    requires Strung(w) && k < |w|
    ensures JsonStep(InJson(w, v, k), w[k]) == InJson(w, v, k + 1)
  {
    hide Quotes, Backslashes, Strung;
    OneMore(w, k);
  }

  /** The tags the block is read with. */
  ghost predicate Reading(end: Bytes) {
    SyntaxShape(FULL) && SYNTAXES[0] == FULL && |SYNTAXES| == 3 && FULL.paramEnd == end && EndShape(end)
  }

  /** The text `p` ends in a value, or behind it: it holds what is there of `w + end`. */
  ghost predicate Holds(p: Bytes, w: Bytes, end: Bytes, v: nat) {
    v <= |p| && forall i :: 0 <= i < |w| + |end| && v + i < |p| ==> p[v + i] == if i < |w| then w[i] else end[i - |w|]
  }

  /** One byte of a JSON text, when no closing tag stands there outside strings. */
  lemma JsonMoves(p: Bytes, w: Bytes, end: Bytes, v: nat, k: nat)
    requires Reading(end) && Strung(w) && k < |w| && v + k < |p| && p[v + k] == w[k]
    requires !InString(w, k) ==> !IsAt(p, end, v + k) && !PartialAt(p, end, v + k)
    ensures Run(InJson(w, v, k), p) == Run(InJson(w, v, k + 1), p)
  {
    hide FULL, SYNTAXES, Run, Step, IsAt, PartialAt, InString, Escaping, Strung, SyntaxShape, EndShape;
    var c := InJson(w, v, k);
    BodyStepIs(c, p, FULL);
    JsonByte(w, v, k);
    RunMoves(c, p);
  }

  /** A JSON text that is closed. */
  lemma {:induction false} JsonCloses(p: Bytes, w: Bytes, end: Bytes, v: nat, k: nat)
    requires Reading(end) && JsonShaped(w, end) && k <= |w| && Holds(p, w, end, v) && v + |w| + |end| <= |p|
    ensures Run(InJson(w, v, k), p) == Run(Cfg(Structural, 0, v + |w| + |end|, false, false), p)
    decreases |w| - k
  {
    hide FULL, SYNTAXES, Run, Step, IsAt, PartialAt, InString, Escaping, Strung, SyntaxShape, EndShape, JsonShaped, Holds;
    EndStands(p, w, end, v);
    var c := InJson(w, v, k);
    if k < |w| {
      HeldByte(p, w, end, v, k);
      ShapedParts(w, end);
      if !InString(w, k) {
        NoEndBefore(p, w, end, v, k);
        Recognizer.NoPartialBeforeTag(p, end, v + k, v + |w|);
      }
      JsonMoves(p, w, end, v, k);
      JsonCloses(p, w, end, v, k + 1);
    } else {
      ShapedParts(w, end);
      EscapesInside(w);
      EndBytes(end);
      BodyStepIs(c, p, FULL);
      RunMoves(c, p);
    }
  }

  lemma EndBytes(end: Bytes)
    requires EndShape(end)
    ensures |end| >= 2
  {
  }

  lemma EscapesInside(w: Bytes)
    ensures !InString(w, |w|) ==> !Escaping(w, |w|)
  {
  }

  lemma ShapedParts(w: Bytes, end: Bytes)
    requires JsonShaped(w, end)
    ensures Strung(w) && !InString(w, |w|)
  {
  }

  lemma HeldByte(p: Bytes, w: Bytes, end: Bytes, v: nat, k: nat)
    requires Holds(p, w, end, v) && k < |w| + |end| && v + k < |p|
    ensures p[v + k] == if k < |w| then w[k] else end[k - |w|]
  {
  }

  lemma EndStands(p: Bytes, w: Bytes, end: Bytes, v: nat)
    requires Holds(p, w, end, v) && v + |w| + |end| <= |p|
    ensures IsAt(p, end, v + |w|)
  {
    hide Holds;
    forall i: nat | i < |end|
      ensures p[v + |w| + i] == end[i]
    {
      HeldByte(p, w, end, v, |w| + i);
    }
    IsAtBytes(p, end, v + |w|);
  }

  /** Before the closing tag another one stands at most inside a string. */
  lemma NoEndBefore(p: Bytes, w: Bytes, end: Bytes, v: nat, k: nat)
    requires EndShape(end) && JsonShaped(w, end) && k < |w| && Holds(p, w, end, v) && !InString(w, k)
    ensures !IsAt(p, end, v + k)
  {
    hide IsAt, InString, Strung;
    if IsAt(p, end, v + k) {
      Within(p, end, v + k);
      if k + |end| <= |w| {
        forall i: nat | i < |end|
          ensures w[k + i] == end[i]
        {
          ByteAt(p, end, v + k, i);
          HeldByte(p, w, end, v, k + i);
        }
        IsAtBytes(w, end, k);
      } else {
        ByteAt(p, end, v + k, |w| - k);
        HeldByte(p, w, end, v, |w|);
      }
    }
  }

  // A value that the text ends in

  /** Where quotes are absent, the state of the string does not change. */
  lemma {:induction false} NoQuotes(w: Bytes, i: nat, k: nat)
    requires i <= k <= |w| && forall j :: i <= j < k ==> w[j] != QUOTE
    ensures InString(w, i) == InString(w, k)
    decreases k - i
  {
    if i < k {
      NoQuotes(w, i, k - 1);
    }
  }

  /** Inside an unfinished closing tag the state of the string does not change. */
  lemma PartialSame(p: Bytes, w: Bytes, end: Bytes, v: nat, i: nat, k: nat)
    requires EndShape(end) && Holds(p, w, end, v) && i <= k <= |w| && v + k <= |p| && PartialAt(p, end, v + i)
    ensures InString(w, i) == InString(w, k)
  {
    hide PartialAt, InString, EndShape;
    forall j | i <= j < k
      ensures w[j] != QUOTE
    {
      Recognizer.InPartial(p, end, v + i, v + j);
      HeldByte(p, w, end, v, j);
    }
    NoQuotes(w, i, k);
  }

  /** No unfinished closing tag begins outside strings among the first `k` bytes. */
  ghost predicate NothingYet(p: Bytes, w: Bytes, end: Bytes, v: nat, k: nat)
    requires k <= |w|
  {
    forall i :: 0 <= i < k && !InString(w, i) ==> !PartialAt(p, end, v + i)
  }

  /** An unfinished closing tag begins at or after `v`. */
  ghost predicate SomePartial(p: Bytes, end: Bytes, v: nat) {
    exists i :: v <= i < |p| && PartialAt(p, end, i)
  }

  function JsonState(p: Bytes, w: Bytes, v: nat, partial: bool): Decode
    requires v <= |p|
  {
    if |p| - v <= |w| && InString(w, |p| - v) then InJsonString else if partial then InStructure else InJsonStructure
  }

  /** The state in a JSON text whose closing tag is not complete. */
  lemma {:induction false} JsonOpen(p: Bytes, w: Bytes, end: Bytes, v: nat, k: nat)
    requires Reading(end) && JsonShaped(w, end) && Holds(p, w, end, v)
    requires k <= |w| && v + k <= |p| < v + |w| + |end| && NothingYet(p, w, end, v, k)
    ensures DecodeOf(Run(InJson(w, v, k), p), p) == JsonState(p, w, v, SomePartial(p, end, v))
    decreases |w| - k
  {
    hide FULL, SYNTAXES, Run, Step, IsAt, PartialAt, InString, Escaping, Strung, SyntaxShape, EndShape, JsonShaped, Holds, NothingYet, SomePartial;
    var c := InJson(w, v, k);
    ShapedParts(w, end);
    if v + k == |p| {
      AtEnd(c, p);
      RunStops(c, p);
      NoneAtEnd(p, w, end, v, k);
    } else if !InString(w, k) && PartialAt(p, end, v + k) {
      if |p| - v <= |w| {
        PartialSame(p, w, end, v, k, |p| - v);
      }
      PartialHere(p, end, v, v + k);
      JsonWaits(p, w, end, v, k);
    } else if k < |w| {
      HeldByte(p, w, end, v, k);
      if !InString(w, k) {
        NoEndBefore(p, w, end, v, k);
      }
      JsonMoves(p, w, end, v, k);
      NothingMore(p, w, end, v, k);
      JsonOpen(p, w, end, v, k + 1);
    } else {
      OneByteOfEnd(p, w, end, v);
    }
  }

  lemma PartialHere(p: Bytes, end: Bytes, v: nat, i: nat)
    requires v <= i < |p| && PartialAt(p, end, i)
    ensures SomePartial(p, end, v)
  {
    hide PartialAt;
  }

  lemma NothingMore(p: Bytes, w: Bytes, end: Bytes, v: nat, k: nat)
    requires k < |w| && NothingYet(p, w, end, v, k) && (InString(w, k) || !PartialAt(p, end, v + k))
    ensures NothingYet(p, w, end, v, k + 1)
  {
    hide PartialAt, InString;
  }

  lemma NothingAt(p: Bytes, w: Bytes, end: Bytes, v: nat, k: nat, i: nat)
    requires k <= |w| && NothingYet(p, w, end, v, k) && i < k
    ensures InString(w, i) || !PartialAt(p, end, v + i)
  {
    hide PartialAt, InString;
  }

  /** At the end of the text, outside strings, nothing is unfinished. */
  lemma NoneAtEnd(p: Bytes, w: Bytes, end: Bytes, v: nat, k: nat)
    requires EndShape(end) && Holds(p, w, end, v) && k <= |w| && v + k == |p| && NothingYet(p, w, end, v, k)
    ensures InString(w, k) || !SomePartial(p, end, v)
  {
    hide PartialAt, InString, EndShape, Holds, NothingYet;
    if SomePartial(p, end, v) {
      var i :| v <= i < |p| && PartialAt(p, end, i);
      PartialSame(p, w, end, v, i - v, k);
      NothingAt(p, w, end, v, k, i - v);
    }
  }

  lemma JsonWaits(p: Bytes, w: Bytes, end: Bytes, v: nat, k: nat)
    requires Reading(end) && k <= |w| && v + k < |p| && !InString(w, k) && PartialAt(p, end, v + k)
    ensures DecodeOf(Run(InJson(w, v, k), p), p) == InStructure
  {
    hide FULL, SYNTAXES, Run, Step, IsAt, InString, Escaping, SyntaxShape, EndShape;
    var c := InJson(w, v, k);
    BodyStepIs(c, p, FULL);
    NotBoth(p, end, v + k);
    RunStops(c, p);
  }

  lemma NotBoth(p: Bytes, end: Bytes, i: nat)
    requires PartialAt(p, end, i)
    ensures !IsAt(p, end, i)
  {
  }

  /** The first byte of the closing tag alone is passed over. */
  lemma OneByteOfEnd(p: Bytes, w: Bytes, end: Bytes, v: nat)
    requires Reading(end) && JsonShaped(w, end) && Holds(p, w, end, v)
    requires v + |w| < |p| < v + |w| + |end| && NothingYet(p, w, end, v, |w|) && !PartialAt(p, end, v + |w|)
    ensures DecodeOf(Run(InJson(w, v, |w|), p), p) == JsonState(p, w, v, SomePartial(p, end, v))
  {
    hide FULL, SYNTAXES, Run, Step, IsAt, PartialAt, InString, Escaping, Strung, SyntaxShape, JsonShaped, Holds, NothingYet, SomePartial;
    EndBegins(p, w, end, v);
    ShapedParts(w, end);
    EscapesInside(w);
    var c := InJson(w, v, |w|);
    BodyStepIs(c, p, FULL);
    RunMoves(c, p);
    var d := c.(pos := c.pos + 1);
    AtEnd(d, p);
    RunStops(d, p);
    NoneBeforeLt(p, w, end, v);
  }

  lemma EndBegins(p: Bytes, w: Bytes, end: Bytes, v: nat)
    requires EndShape(end) && Holds(p, w, end, v) && v + |w| < |p| < v + |w| + |end| && !PartialAt(p, end, v + |w|)
    ensures |p| == v + |w| + 1 && p[v + |w|] == LT && !IsAt(p, end, v + |w|)
  {
    hide Holds;
    var n := |p| - v - |w|;
    forall i | 0 <= i < n
      ensures p[v + |w|..][i] == end[i]
    {
      HeldByte(p, w, end, v, |w| + i);
    }
    HeldByte(p, w, end, v, |w|);
    assert p[v + |w|..] == end[..n];
  }

  lemma NoneBeforeLt(p: Bytes, w: Bytes, end: Bytes, v: nat)
    requires EndShape(end) && Holds(p, w, end, v) && |p| == v + |w| + 1 && p[v + |w|] == LT && NothingYet(p, w, end, v, |w|)
    ensures !SomePartial(p, end, v)
  {
    hide InString, EndShape, Holds, NothingYet;
    if SomePartial(p, end, v) {
      var i :| v <= i < |p| && PartialAt(p, end, i);
      Recognizer.InPartial(p, end, i, v + |w|);
    }
  }

  // Values

  /** The two ways to say that the text ends in an unfinished closing tag. */
  lemma UnfinishedIs(p: Bytes, w: Bytes, v: nat)
    requires v <= |p| < v + |w| + |END| && p[v..] == (w + END)[..|p| - v]
    ensures Unfinished((w + END)[..|p| - v]) <==> SomePartial(p, END, v)
  {
    hide END;
    var t := p[v..];
    if Unfinished(t) {
      var j :| 2 <= j < |END| && EndsIn(t, j);
      assert p[|p| - j..] == t[|t| - j..];
      assert PartialAt(p, END, |p| - j);
    }
    if SomePartial(p, END, v) {
      var i := PartialPlace(p, END, v);
      var j := |p| - i;
      assert t[|t| - j..] == p[i..];
      assert EndsIn(t, j);
    }
  }

  lemma PartialPlace(p: Bytes, end: Bytes, v: nat) returns (i: nat)
    requires SomePartial(p, end, v)
    ensures v <= i < |p| && PartialAt(p, end, i)
  {
    i :| v <= i < |p| && PartialAt(p, end, i);
  }

  lemma HoldsIs(s: Bytes, w: Bytes, end: Bytes, v: nat, n: nat)
    requires IsAt(s, w + end, v) && v <= n <= |s|
    ensures Holds(s[..n], w, end, v)
    ensures n < v + |w| + |end| ==> s[..n][v..] == (w + end)[..n - v]
  {
    var t := w + end;
    var u := s[v..v + |t|];
    assert forall i :: 0 <= i < |t| ==> s[v + i] == u[i];
    if n < v + |t| {
      assert s[..n][v..] == u[..n - v];
    }
  }

  /** The state in a JSON text, and where the tracker goes on behind it. */
  lemma JsonRead(s: Bytes, w: Bytes, v: nat, n: nat)
    requires Reading(END) && JsonShaped(w, END) && IsAt(s, w + END, v) && v <= n <= |s|
    ensures n < v + |w| + |END| ==>
              DecodeOf(Run(Cfg(JsonParam, 0, v, false, false), s[..n]), s[..n]) == ValueState(false, w, n - v)
    ensures v + |w| + |END| <= n ==>
              Run(Cfg(JsonParam, 0, v, false, false), s[..n]) == Run(Cfg(Structural, 0, v + |w| + |END|, false, false), s[..n])
  {
    hide END, FULL, SYNTAXES, Run, Step, IsAt, PartialAt, Strung, SyntaxShape, EndShape, JsonShaped, Holds, SomePartial, Unfinished;
    var p := s[..n];
    HoldsIs(s, w, END, v, n);
    assert InJson(w, v, 0) == Cfg(JsonParam, 0, v, false, false);
    if n < v + |w| + |END| {
      JsonOpen(p, w, END, v, 0);
      UnfinishedIs(p, w, v);
    } else {
      JsonCloses(p, w, END, v, 0);
    }
  }

  /** The same for a string value, which begins behind the `>` of its tag. */
  lemma StringRead(c: Cfg, s: Bytes, w: Bytes, n: nat)
    requires Reading(END) && Trip.NoEnd(w) && IsAt(s, w + END, c.pos) && c.pos <= n <= |s|
    requires c.mode == StringBody && c.syn == 0 && 0 < c.pos && s[c.pos - 1] == GT
    ensures n < c.pos + |w| + |END| ==> DecodeOf(Run(c, s[..n]), s[..n]) == ValueState(true, w, n - c.pos)
    ensures c.pos + |w| + |END| <= n ==>
              Run(c, s[..n]) == Run(Cfg(Structural, 0, c.pos + |w| + |END|, c.inString, c.escaped), s[..n])
  {
    hide END, FULL, SYNTAXES, Run, Step, IsAt, PartialAt, SyntaxShape, EndShape, Holds, SomePartial, Unfinished, Trip.NoEnd, FindFrom;
    var p, v := s[..n], c.pos;
    assert p <= s;
    HoldsIs(s, w, END, v, n);
    Recognizer.NoPartialBefore(p, END, v);
    Recognizer.StringRun(c, p, END);
    Trip.ValueEnds(s, v, w);
    if n < v + |w| + |END| {
      UnfinishedIs(p, w, v);
      PartialFrom(p, v);
      NotFoundYet(p, s, END, v, v + |w|);
    } else {
      Trip.ValueEnds(p, v, w) by {
        IsAtShrinks(p, s, w + END, v);
      }
    }
  }

  lemma PartialFrom(p: Bytes, v: nat)
    requires forall i :: 0 <= i < v ==> !PartialAt(p, END, i)
    ensures Recognizer.EndsPartial(p, END) <==> SomePartial(p, END, v)
  {
    hide END, PartialAt;
  }

  lemma NotFoundYet(p: Bytes, s: Bytes, t: Bytes, v: nat, e: nat)
    requires p <= s && FindFrom(s, t, v) == Some(e) && |p| < e + |t|
    ensures FindFrom(p, t, v).None?
  {
    hide IsAt, FindFrom;
    var f := FindFrom(p, t, v);
    if f.Some? {
      IsAtExtends(p, s, t, f.value);
      Within(p, t, f.value);
    }
  }

  // Tags

  /** Tags end with their only `>` and begin with `<`. */
  ghost predicate Closed(tag: Bytes) {
    tag != [] && tag[0] == LT && tag[|tag| - 1] == GT && Trip.Free(tag[..|tag| - 1], GT)
  }

  /** Before the end of a tag no `>` stands. */
  lemma NoGt(s: Bytes, tag: Bytes, q: nat, n: nat)
    requires Closed(tag) && IsAt(s, tag, q) && q <= n < q + |tag| && n <= |s|
    ensures FindFrom(s[..n], [GT], q).None?
    ensures forall t :: EndShape(t) ==> !IsAt(s[..n], t, q)
  {
    hide IsAt, FindFrom;
    forall k: nat | q <= k < n
      ensures s[k] != GT
    {
      ByteAt(s, tag, q, k - q);
      assert tag[k - q] == tag[..|tag| - 1][k - q];
    }
    var p, f := s[..n], FindFrom(s[..n], [GT], q);
    if f.Some? {
      ByteAt(p, [GT], f.value, 0);
    }
    forall t | EndShape(t)
      ensures !IsAt(p, t, q)
    {
      if IsAt(p, t, q) {
        ByteAt(p, t, q, |t| - 1);
      }
    }
  }

  lemma LtHere(s: Bytes, tag: Bytes, q: nat)
    requires Closed(tag) && IsAt(s, tag, q)
    ensures q < |s| && s[q] == LT
  {
    hide IsAt;
    ByteAt(s, tag, q, 0);
  }

  lemma EndTags()
    requires SyntaxShape(FULL)
    ensures EndShape(FULL.toolEnd) && EndShape(FULL.invokeEnd)
  {
    hide FULL, EndShape, TagShape;
  }

  /** Without a `>` no tag is taken. */
  lemma NothingTaken(c: Cfg, p: Bytes)
    requires c.pos < |p| && p[c.pos] == LT && FindFrom(p, [GT], c.pos).None?
    requires !IsAt(p, FULL.toolEnd, c.pos) && !IsAt(p, FULL.invokeEnd, c.pos)
    ensures StructuralStep(c, p, FULL).None?
  {
    hide FULL, IsAt, FindFrom, StringTag;
  }

  /** A tag that is not complete is waited for. */
  lemma TagWaits(c: Cfg, s: Bytes, tag: Bytes, n: nat)
    requires Reading(END) && c.mode == Structural && c.syn == 0 && Closed(tag)
    requires IsAt(s, tag, c.pos) && c.pos <= n < c.pos + |tag|
    ensures n <= |s| && DecodeOf(Run(c, s[..n]), s[..n]) == InStructure
  {
    hide END, FULL, SYNTAXES, Run, Step, IsAt, SyntaxShape, EndShape, TagShape, Closed, StructuralStep, FindFrom;
    Within(s, tag, c.pos);
    var p := s[..n];
    if n == c.pos {
      AtEnd(c, p);
    } else {
      StructuralStepIs(c, p, FULL);
      NoGt(s, tag, c.pos, n);
      LtHere(s, tag, c.pos);
      EndTags();
      NothingTaken(c, p);
    }
    RunStops(c, p);
  }

  /** The first `>` is that of the tag. */
  lemma GtOf(p: Bytes, tag: Bytes, q: nat)
    requires Closed(tag) && IsAt(p, tag, q)
    ensures q + |tag| <= |p| && FindFrom(p, [GT], q) == Some(q + |tag| - 1) && p[q..q + |tag|] == tag
  {
    hide IsAt, FindFrom, Trip.Free;
    Within(p, tag, q);
    Reparse.TagIs(p, tag, q);
  }

  /** What a tag does once it is complete. */
  function Opened(c: Cfg, t: Part): Cfg {
    match t
    case Newline => c.(pos := c.pos + 1)
    case CallTag(name) => c.(pos := c.pos + |Trip.InvokeTag(name)|)
    case Value(key, isString, _) =>
      if ReadAsString(key, isString) then c.(mode := StringBody, pos := c.pos + |ValueTag(key, isString)|)
      else Cfg(JsonParam, c.syn, c.pos + |ValueTag(key, isString)|, false, false)
    case CallEnd => c.(pos := c.pos + |FULL.invokeEnd|)
    case BlockEnd => c.(mode := Done, pos := c.pos + |FULL.toolEnd|)
  }

  /** The tag a part begins with. */
  function TagOf(t: Part): Bytes
    requires t != Newline
  {
    match t
    case CallTag(name) => Trip.InvokeTag(name)
    case Value(key, isString, _) => ValueTag(key, isString)
    case CallEnd => FULL.invokeEnd
    case BlockEnd => FULL.toolEnd
  }

  /** Which tag of the syntax that is. */
  function KindOfTag(t: Part): DsmlTracker.Tag {
    match t
    case CallTag(_) => InvokeStart
    case Value(_, _, _) => ParamStart
    case CallEnd => InvokeEnd
    case BlockEnd => ToolEnd
    case Newline => NoTag
  }

  lemma TagHere(p: Bytes, t: Part, q: nat)
    requires SyntaxShape(FULL) && t != Newline && IsAt(p, TagOf(t), q)
    ensures TagAt(p, FULL, q) == KindOfTag(t)
  {
    hide FULL, IsAt, SyntaxShape, Differ, Trip.InvokeTag, ValueTag;
    TagsDiffer();
    match t {
      case CallTag(name) =>
        Reparse.InvokeStart(p, name, q);
        TagsExclude(p, FULL.invokeStart, FULL.toolEnd, q);
        TagsExclude(p, FULL.invokeStart, FULL.invokeEnd, q);
      case Value(key, isString, _) =>
        ParamStarts(p, key, isString, q);
        TagsExclude(p, FULL.paramStart, FULL.toolEnd, q);
        TagsExclude(p, FULL.paramStart, FULL.invokeEnd, q);
        TagsExclude(p, FULL.paramStart, FULL.invokeStart, q);
      case CallEnd =>
        TagsExclude(p, FULL.invokeEnd, FULL.toolEnd, q);
      case BlockEnd =>
    }
  }

  lemma TagsDiffer()
    requires SyntaxShape(FULL)
    ensures Differ(FULL.invokeStart, FULL.toolEnd) && Differ(FULL.invokeStart, FULL.invokeEnd)
    ensures Differ(FULL.paramStart, FULL.toolEnd) && Differ(FULL.paramStart, FULL.invokeEnd)
    ensures Differ(FULL.paramStart, FULL.invokeStart) && Differ(FULL.invokeEnd, FULL.toolEnd)
  {
    hide FULL, TagShape, EndShape, Differ;
    DifferSym(FULL.toolEnd, FULL.invokeStart);
    DifferSym(FULL.invokeEnd, FULL.invokeStart);
    DifferSym(FULL.toolEnd, FULL.paramStart);
    DifferSym(FULL.invokeEnd, FULL.paramStart);
    DifferSym(FULL.invokeStart, FULL.paramStart);
    DifferSym(FULL.toolEnd, FULL.invokeEnd);
  }

  lemma ParamStarts(p: Bytes, key: Bytes, isString: bool, q: nat)
    requires IsAt(p, ValueTag(key, isString), q)
    ensures IsAt(p, FULL.paramStart, q)
  {
    hide FULL, IsAt, Trip.ParamTag;
    Reparse.TagStart(p, key, if isString then TRUE else Trip.FALSE, q);
  }

  lemma TagClosed(t: Part)
    requires SyntaxShape(FULL) && t != Newline
    ensures Closed(TagOf(t))
  {
    hide FULL, Trip.InvokeTag, Trip.ParamTag, SyntaxShape, TRUE, Trip.FALSE;
    Reparse.KindWords();
    StartsWithLt(t);
    EndTags();
    match t {
      case CallTag(name) => Reparse.InvokeTagShape(name);
      case Value(key, isString, _) => Reparse.ParamTagShape(key, if isString then TRUE else Trip.FALSE);
      case CallEnd => EndClosed(FULL.invokeEnd);
      case BlockEnd => EndClosed(FULL.toolEnd);
    }
  }

  lemma EndClosed(t: Bytes)
    requires EndShape(t)
    ensures Closed(t)
  {
  }

  lemma StartsWithLt(t: Part)
    requires t != Newline
    ensures TagOf(t) != [] && TagOf(t)[0] == LT
  {
    hide NAME_OPEN, STRING_OPEN, TAG_CLOSE, AttrEscaped;
  }

  /** The kind of a parameter, as its tag says it. */
  lemma KindIs(key: Bytes, isString: bool)
    ensures StringTag(ValueTag(key, isString)) <==> ReadAsString(key, isString)
  {
    hide Trip.ParamTag, Attr, TRUE, Trip.FALSE, STRING, Trip.EndsWith, Reparse.HIDDEN_KIND;
    Reparse.KindWords();
    Reparse.ParamKind(key, if isString then TRUE else Trip.FALSE);
  }

  /** A complete tag is taken. */
  lemma TagTaken(c: Cfg, p: Bytes, t: Part)
    requires Reading(END) && c.mode == Structural && c.syn == 0 && t != Newline && IsAt(p, TagOf(t), c.pos)
    ensures c.pos + |TagOf(t)| <= |p| && Run(c, p) == Run(Opened(c, t), p)
  {
    hide END, FULL, SYNTAXES, Run, Step, IsAt, SyntaxShape, EndShape, TagShape, Closed, StructuralStep, FindFrom, Trip.InvokeTag, ValueTag;
    TagClosed(t);
    LtHere(p, TagOf(t), c.pos);
    GtOf(p, TagOf(t), c.pos);
    TagHere(p, t, c.pos);
    StructuralStepIs(c, p, FULL);
    TagStep(c, p, t);
    RunMoves(c, p);
  }

  lemma TagStep(c: Cfg, p: Bytes, t: Part)
    requires t != Newline && c.pos < |p| && p[c.pos] == LT && c.pos + |TagOf(t)| <= |p| && c.mode == Structural
    requires FindFrom(p, [GT], c.pos) == Some(c.pos + |TagOf(t)| - 1) && p[c.pos..c.pos + |TagOf(t)|] == TagOf(t)
    requires TagAt(p, FULL, c.pos) == KindOfTag(t)
    ensures StructuralStep(c, p, FULL) == Some(Opened(c, t))
  {
    hide FULL, IsAt, FindFrom, TagAt, StringTag, StructuralStep, Trip.InvokeTag, ValueTag, ReadAsString, TagOf, Opened;
    Taken(c, p, FULL, c.pos + |TagOf(t)| - 1);
    if t.Value? {
      KindIs(t.key, t.isString);
      OpenedValue(c, t);
    } else {
      OpenedTag(c, t);
    }
  }

  lemma OpenedValue(c: Cfg, t: Part)
    requires t.Value?
    ensures TagOf(t) == ValueTag(t.key, t.isString)
    ensures Opened(c, t) == if ReadAsString(t.key, t.isString) then c.(mode := StringBody, pos := c.pos + |TagOf(t)|)
                            else Cfg(JsonParam, c.syn, c.pos + |TagOf(t)|, false, false)
  {
    hide FULL, Trip.InvokeTag, ValueTag, ReadAsString;
  }

  lemma OpenedTag(c: Cfg, t: Part)
    requires t != Newline && !t.Value?
    ensures Opened(c, t) == c.(mode := if t == BlockEnd then Done else c.mode, pos := c.pos + |TagOf(t)|)
    ensures t == CallEnd ==> TagOf(t) == FULL.invokeEnd
    ensures t == BlockEnd ==> TagOf(t) == FULL.toolEnd
  {
    hide FULL, Trip.InvokeTag, ValueTag, ReadAsString;
  }

  lemma Taken(c: Cfg, p: Bytes, x: Syntax, gt: nat)
    requires c.pos < |p| && p[c.pos] == LT && c.mode == Structural && FindFrom(p, [GT], c.pos) == Some(gt)
    ensures gt < |p|
    ensures match TagAt(p, x, c.pos)
            case ToolEnd => StructuralStep(c, p, x) == Some(c.(mode := Done, pos := c.pos + |x.toolEnd|))
            case InvokeEnd => StructuralStep(c, p, x) == Some(c.(pos := c.pos + |x.invokeEnd|))
            case InvokeStart => StructuralStep(c, p, x) == Some(c.(pos := gt + 1))
            case ParamStart =>
              StructuralStep(c, p, x) == Some(
                if StringTag(p[c.pos..gt + 1]) then c.(mode := StringBody, pos := gt + 1)
                else Cfg(JsonParam, c.syn, gt + 1, false, false))
            case NoTag => true
  {
    hide StringTag, TagAt, FindFrom, IsAt;
    Within(p, [GT], gt);
  }

  // Whole blocks

  lemma SpaceTaken(c: Cfg, p: Bytes)
    requires Reading(END) && c.mode == Structural && c.syn == 0 && c.pos < |p| && p[c.pos] == NL
    ensures Run(c, p) == Run(c.(pos := c.pos + 1), p)
  {
    hide END, FULL, SYNTAXES, Run, Step, SyntaxShape, EndShape;
    StructuralStepIs(c, p, FULL);
    RunMoves(c, p);
  }

  lemma MarkupEnds(c: Cfg, p: Bytes)
    requires Reading(END) && InText(c, p) && c.mode == Structural && c.pos == |p|
    ensures DecodeOf(Run(c, p), p) == InStructure
  {
    hide END, FULL, SYNTAXES, Run, Step, SyntaxShape, EndShape;
    AtEnd(c, p);
    RunStops(c, p);
  }

  lemma TagPart(s: Bytes, t: Part, q: nat)
    requires t != Newline && IsAt(s, PartText(t), q)
    ensures IsAt(s, TagOf(t), q) && |TagOf(t)| <= |PartText(t)|
    ensures t.Value? ==> IsAt(s, t.text + END, q + |TagOf(t)|)
  {
    hide IsAt, END, FULL, ValueTag, Trip.InvokeTag;
    if t.Value? {
      IsAtSplit(s, ValueTag(t.key, t.isString), t.text + END, q);
    }
  }

  /** Behind the `>` of its tag a value begins. */
  lemma GtBefore(s: Bytes, tag: Bytes, q: nat)
    requires Closed(tag) && IsAt(s, tag, q)
    ensures 0 < q + |tag| <= |s| && s[q + |tag| - 1] == GT
  {
    hide IsAt, Trip.Free;
    Within(s, tag, q);
    ByteAt(s, tag, q, |tag| - 1);
  }

  lemma NewlineOk()
    ensures PartText(Newline) == [NL] && PartOk(Newline) && PartOk(CallEnd) && PartOk(BlockEnd)
    ensures PartText(CallEnd) == FULL.invokeEnd && PartText(BlockEnd) == FULL.toolEnd
    ensures forall name :: PartOk(CallTag(name)) && PartText(CallTag(name)) == Trip.InvokeTag(name)
  {
    hide FULL, Trip.InvokeTag;
  }

  lemma NewlineTrace(c: Cfg, s: Bytes, n: nat)
    requires Reading(END) && c.mode == Structural && c.syn == 0 && IsAt(s, [NL], c.pos) && c.pos <= n <= |s|
    ensures n == c.pos ==> DecodeOf(Run(c, s[..n]), s[..n]) == InStructure
    ensures c.pos < n ==> Run(c, s[..n]) == Run(c.(pos := c.pos + 1), s[..n])
  {
    hide END, FULL, SYNTAXES, Run, Step, IsAt, SyntaxShape, EndShape;
    ByteAt(s, [NL], c.pos, 0);
    if n == c.pos {
      MarkupEnds(c, s[..n]);
    } else {
      SpaceTaken(c, s[..n]);
    }
  }

  /** A tag is waited for, then taken. */
  lemma TagTrace(c: Cfg, s: Bytes, t: Part, n: nat)
    requires Reading(END) && c.mode == Structural && c.syn == 0 && t != Newline && IsAt(s, TagOf(t), c.pos) && c.pos <= n <= |s|
    ensures 0 < c.pos + |TagOf(t)| <= |s| && s[c.pos + |TagOf(t)| - 1] == GT
    ensures n < c.pos + |TagOf(t)| ==> DecodeOf(Run(c, s[..n]), s[..n]) == InStructure
    ensures c.pos + |TagOf(t)| <= n ==> Run(c, s[..n]) == Run(Opened(c, t), s[..n])
  {
    hide END, FULL, SYNTAXES, Run, Step, IsAt, SyntaxShape, EndShape, Closed, TagOf, Opened;
    TagClosed(t);
    GtBefore(s, TagOf(t), c.pos);
    if n < c.pos + |TagOf(t)| {
      TagWaits(c, s, TagOf(t), n);
    } else {
      assert s[..n] <= s;
      IsAtShrinks(s[..n], s, TagOf(t), c.pos);
      TagTaken(c, s[..n], t);
    }
  }

  lemma OpenedIs(c: Cfg, t: Part)
    requires c.mode == Structural && c.syn == 0 && t != Newline
    ensures var d := Opened(c, t);
            && d.syn == 0 && d.pos == c.pos + |TagOf(t)|
            && (!t.Value? ==> TagOf(t) == PartText(t) && d.mode == if t == BlockEnd then Done else Structural)
            && (t.Value? ==> if ReadAsString(t.key, t.isString) then d.mode == StringBody else d == Cfg(JsonParam, 0, d.pos, false, false))
  {
    hide FULL, ValueTag, Trip.InvokeTag, ReadAsString;
  }

  /** Over one part, or up to where the text ends in it. */
  lemma PartTrace(c: Cfg, s: Bytes, t: Part, n: nat) returns (d: Cfg)
    requires Reading(END) && c.mode == Structural && c.syn == 0 && PartOk(t) && IsAt(s, PartText(t), c.pos) && c.pos <= n <= |s|
    ensures n < c.pos + |PartText(t)| ==> DecodeOf(Run(c, s[..n]), s[..n]) == PartState(t, n - c.pos)
    ensures d.syn == 0 && d.pos == c.pos + |PartText(t)| && d.mode == if t == BlockEnd then Done else Structural
    ensures d.pos <= n ==> Run(c, s[..n]) == Run(d, s[..n])
  {
    hide END, FULL, SYNTAXES, Run, Step, IsAt, SyntaxShape, EndShape, PartOk, PartText, PartState, TagOf, Opened, ReadAsString, DecodeOf;
    if t == Newline {
      NewlineOk();
      NewlineTrace(c, s, n);
      StateInNewline();
      d := c.(pos := c.pos + 1);
    } else {
      TagPart(s, t, c.pos);
      TagTrace(c, s, t, n);
      OpenedIs(c, t);
      d := Opened(c, t);
      if n < d.pos {
        StateInTag(t, n - c.pos);
      }
      if t.Value? {
        var v := d.pos;
        if n >= v {
          ValueTrace(d, s, t, v, n);
          StateInValue(t, n - c.pos);
        }
        d := Cfg(Structural, 0, c.pos + |PartText(t)|, d.inString, d.escaped);
      }
    }
  }

  lemma StateInNewline()
    ensures PartState(Newline, 0) == InStructure
  {
  }

  lemma StateInTag(t: Part, k: nat)
    requires t != Newline && k < |TagOf(t)| && k < |PartText(t)|
    ensures PartState(t, k) == InStructure
  {
    hide END, FULL, ValueTag, Trip.InvokeTag, ValueState, ReadAsString;
  }

  lemma StateInValue(t: Part, k: nat)
    requires t.Value? && |TagOf(t)| <= k
    ensures |PartText(t)| == |TagOf(t)| + |t.text| + |END|
    ensures k < |PartText(t)| ==> PartState(t, k) == ValueState(ReadAsString(t.key, t.isString), t.text, k - |TagOf(t)|)
  {
    hide END, FULL, ValueTag, Trip.InvokeTag, ValueState, ReadAsString;
  }

  lemma ValueTrace(c: Cfg, s: Bytes, t: Part, v: nat, n: nat)
    requires Reading(END) && t.Value? && PartOk(t) && IsAt(s, t.text + END, v) && v <= n <= |s| && 0 < v && s[v - 1] == GT
    requires c.pos == v && c.syn == 0
    requires if ReadAsString(t.key, t.isString) then c.mode == StringBody else c == Cfg(JsonParam, 0, v, false, false)
    ensures n < v + |t.text| + |END| ==>
              DecodeOf(Run(c, s[..n]), s[..n]) == ValueState(ReadAsString(t.key, t.isString), t.text, n - v)
    ensures v + |t.text| + |END| <= n ==>
              Run(c, s[..n]) == Run(Cfg(Structural, 0, v + |t.text| + |END|, c.inString, c.escaped), s[..n])
  {
    hide END, FULL, SYNTAXES, Run, Step, IsAt, SyntaxShape, EndShape, JsonShaped, Trip.NoEnd, ValueState, ReadAsString;
    if ReadAsString(t.key, t.isString) {
      StringRead(c, s, t.text, n);
    } else {
      JsonRead(s, t.text, v, n);
    }
  }

  lemma PartsOkRest(ts: seq<Part>)
    requires PartsOk(ts) && ts != []
    ensures PartOk(ts[0]) && PartsOk(ts[1..])
  {
    hide PartOk;
    assert forall i :: 0 <= i < |ts| - 1 ==> ts[1..][i] == ts[i + 1];
  }

  /** Over all the parts, at every place. */
  lemma {:induction false} PartsTrace(c: Cfg, s: Bytes, ts: seq<Part>, n: nat)
    requires Reading(END) && c.mode == Structural && c.syn == 0 && PartsOk(ts) && IsAt(s, PartsText(ts), c.pos)
    requires c.pos <= n <= c.pos + |PartsText(ts)| && n <= |s|
    ensures DecodeOf(Run(c, s[..n]), s[..n]) == PartsState(ts, n - c.pos)
    decreases |ts|
  {
    hide END, FULL, SYNTAXES, Run, Step, IsAt, SyntaxShape, EndShape, PartText, PartState, PartsOk, PartOk;
    if ts == [] {
      MarkupEnds(c, s[..n]);
    } else {
      PartsOkRest(ts);
      IsAtSplit(s, PartText(ts[0]), PartsText(ts[1..]), c.pos);
      var d := PartTrace(c, s, ts[0], n);
      if d.pos <= n {
        if ts[0] == BlockEnd {
          DoneWaits(d, s[..n]);
          RunStops(d, s[..n]);
        } else {
          PartsTrace(d, s, ts[1..], n);
        }
      }
    }
  }

  /** Where `n` bytes of a text end: before or in the opening tag that stands at `a`
      generation is outside a call; behind it the parts say. */
  function State(a: nat, ts: seq<Part>, n: nat): Decode
    requires n <= a + |FULL.toolStart| + |PartsText(ts)|
  {
    if n < a + |FULL.toolStart| then Outside else PartsState(ts, n - a - |FULL.toolStart|)
  }

  /** No opening tag of any spelling begins in the first `a` bytes. */
  ghost predicate NoStartIn(s: Bytes, a: nat) {
    forall j, q :: 0 <= j < |SYNTAXES| && 0 <= q < a ==> !IsAt(s, SYNTAXES[j].toolStart, q)
  }

  lemma IsReading()
    ensures Reading(END) && FULL.toolStart != [] && TagShape(FULL.toolStart)
  {
    hide FULL, END;
    SyntaxesShape(0);
    Reparse.FullEnd();
    FullIsFirst();
  }

  lemma FullIsFirst()
    ensures SYNTAXES[0] == FULL && |SYNTAXES| == 3
  {
  }

  /** Before the opening tag is complete nothing is found. */
  lemma StillOutside(s: Bytes, a: nat, n: nat)
    requires NoStartIn(s, a) && IsAt(s, FULL.toolStart, a) && n < a + |FULL.toolStart|
    ensures n <= |s| && Run(START, s[..n]) == START
  {
    hide FULL, SYNTAXES, IsAt, Run, Step, SyntaxShape, EndShape, TagShape, FirstStart, NoStartIn;
    Within(s, FULL.toolStart, a);
    FullIsFirst();
    var p := s[..n];
    var f := FirstStart(p, 0, |SYNTAXES|);
    if f.Some? {
      NoneFits(s, a, n, f.value.1, f.value.0);
    }
    SearchingStep(START, p);
    RunStops(START, p);
  }

  lemma NoneFits(s: Bytes, a: nat, n: nat, j: nat, q: nat)
    requires NoStartIn(s, a) && IsAt(s, FULL.toolStart, a) && n < a + |FULL.toolStart| && n <= |s| && j < |SYNTAXES|
    ensures !IsAt(s[..n], SYNTAXES[j].toolStart, q)
  {
    hide FULL, SYNTAXES, IsAt, TagShape, SyntaxShape, Differ;
    IsReading();
    SyntaxesShape(j);
    StartShape(j);
    var t := SYNTAXES[j].toolStart;
    if IsAt(s[..n], t, q) {
      Within(s[..n], t, q);
      IsAtExtends(s[..n], s, t, q);
      NoTagInside(s, FULL.toolStart, t, a, q);
      if j != 0 {
        StartsDiffer(0, j);
        FullIsFirst();
        TagsExclude(s, FULL.toolStart, t, a);
      }
    }
  }

  lemma StartShape(j: nat)
    requires j < |SYNTAXES| && SyntaxShape(SYNTAXES[j])
    ensures TagShape(SYNTAXES[j].toolStart) && |SYNTAXES[j].toolStart| > 0 && (j == 0 ==> SYNTAXES[j] == FULL)
  {
    hide FULL, Differ, EndShape;
  }

  /** At every place of a text with one block the tracker reports the state that the
      parts of the block say. */
  lemma BlockTrace(s: Bytes, a: nat, ts: seq<Part>, n: nat)
    requires NoStartIn(s, a) && IsAt(s, FULL.toolStart + PartsText(ts), a) && PartsOk(ts)
    requires n <= a + |FULL.toolStart| + |PartsText(ts)|
    ensures n <= |s| && DecodeOf(Run(START, s[..n]), s[..n]) == State(a, ts, n)
  {
    hide FULL, SYNTAXES, IsAt, Run, Step, SyntaxShape, EndShape, TagShape, FirstStart, NoStartIn, PartsText, PartsOk, PartsState, END;
    IsReading();
    IsAtSplit(s, FULL.toolStart, PartsText(ts), a);
    var v := a + |FULL.toolStart|;
    Within(s, PartsText(ts), v);
    if n < v {
      StillOutside(s, a, n);
    } else {
      var p := s[..n];
      assert p <= s;
      IsAtShrinks(p, s, FULL.toolStart, a);
      BlockFound(s, a, n);
      SearchingStep(START, p);
      RunMoves(START, p);
      PartsTrace(Cfg(Structural, 0, v, false, false), s, ts, n);
    }
  }

  lemma BlockFound(s: Bytes, a: nat, n: nat)
    requires NoStartIn(s, a) && n <= |s| && IsAt(s[..n], FULL.toolStart, a)
    ensures FirstStart(s[..n], 0, |SYNTAXES|) == Some((a, 0)) && SYNTAXES[0] == FULL
  {
    hide FULL, SYNTAXES, IsAt, FirstStart;
    FullIsFirst();
    forall j: nat, q: nat | j < |SYNTAXES| && q < a
      ensures !IsAt(s[..n], SYNTAXES[j].toolStart, q)
    {
      if IsAt(s[..n], SYNTAXES[j].toolStart, q) {
        IsAtExtends(s[..n], s, SYNTAXES[j].toolStart, q);
      }
    }
    FirstStartIs(s[..n], 0, a, 0);
  }

  // Rendered blocks

  function ArgParts(args: seq<Arg>): seq<Part> {
    if args == [] then []
    else [Value(args[0].key, args[0].isString, Reparse.WrittenValue(args[0])), Newline] + ArgParts(args[1..])
  }

  function CallParts(list: seq<Call>): seq<Part> {
    if list == [] then []
    else
      [CallTag(list[0].name), Newline] + ArgParts(Reparse.WrittenArgs(list[0].arguments)) + [CallEnd, Newline]
      + CallParts(list[1..])
  }

  /** The parts of a rendered block. */
  function BlockParts(list: seq<Call>): seq<Part> {
    [Newline] + CallParts(list) + [BlockEnd]
  }

  lemma {:induction false} PartsAppend(a: seq<Part>, b: seq<Part>)
    ensures PartsText(a + b) == PartsText(a) + PartsText(b)
    ensures PartsOk(a + b) <==> PartsOk(a) && PartsOk(b)
  {
    hide PartText, PartOk;
    OkAppend(a, b);
    if a == [] {
      assert a + b == b;
    } else {
      PartsAppend(a[1..], b);
      assert (a + b)[1..] == a[1..] + b;
      Assoc(PartText(a[0]), PartsText(a[1..]), PartsText(b));
    }
  }

  lemma OkAppend(a: seq<Part>, b: seq<Part>)
    ensures PartsOk(a + b) <==> PartsOk(a) && PartsOk(b)
  {
    hide PartOk;
    var c := a + b;
    if PartsOk(c) {
      assert forall i :: 0 <= i < |a| ==> c[i] == a[i];
      assert forall i :: 0 <= i < |b| ==> c[|a| + i] == b[i];
    }
  }

  lemma OnePart(t: Part)
    ensures PartsText([t]) == PartText(t) && (PartsOk([t]) <==> PartOk(t))
  {
    hide PartText, PartOk;
    assert PartText(t) + [] == PartText(t);
    assert [t][0] == t;
  }

  lemma TwoParts(t: Part, u: Part)
    ensures PartsText([t, u]) == PartText(t) + PartText(u) && (PartsOk([t, u]) <==> PartOk(t) && PartOk(u))
  {
    hide PartText, PartOk;
    OnePart(t);
    OnePart(u);
    PartsAppend([t], [u]);
    assert [t] + [u] == [t, u];
  }

  /** The members of a call: a string member of any text, another with its JSON strings
      closed. */
  ghost predicate ArgStrung(a: Arg) {
    ReadAsString(a.key, a.isString) || Strung(Reparse.WrittenValue(a))
  }

  lemma ArgOk(a: Arg)
    requires ArgStrung(a)
    ensures PartOk(Value(a.key, a.isString, Reparse.WrittenValue(a)))
  {
    hide Reparse.WrittenValue, END, IsAt, Strung, ReadAsString, InString;
    Reparse.ValueHasNoEnd(a);
  }

  lemma ArgPartText(a: Arg)
    ensures PartText(Value(a.key, a.isString, Reparse.WrittenValue(a))) + [NL] == ArgText(a)
  {
    hide Reparse.WrittenValue, END, ArgText, Trip.ParamTag;
    Reparse.ArgTextIs(a);
    var x, v := ValueTag(a.key, a.isString), Reparse.WrittenValue(a);
    assert x == Trip.ParamTag(a.key, Reparse.KindOf(a));
  }

  lemma {:induction false} ArgsAreParts(args: seq<Arg>)
    requires forall i :: 0 <= i < |args| ==> ArgStrung(args[i])
    ensures PartsText(ArgParts(args)) == ArgsText(args) && PartsOk(ArgParts(args))
  {
    hide PartText, PartsText, PartOk, PartsOk, ArgText, Reparse.WrittenValue, ArgStrung;
    if args == [] {
      NoParts();
    } else {
      var t := Value(args[0].key, args[0].isString, Reparse.WrittenValue(args[0]));
      ArgsAreParts(args[1..]);
      ArgOk(args[0]);
      NewlineOk();
      TwoParts(t, Newline);
      PartsAppend([t, Newline], ArgParts(args[1..]));
      ArgPartText(args[0]);
    }
  }

  lemma NoParts()
    ensures PartsText([]) == [] && PartsOk([])
  {
  }

  ghost predicate ArgsStrung(c: Call) {
    forall a :: a in Reparse.WrittenArgs(c.arguments) ==> ArgStrung(a)
  }

  ghost predicate AllStrung(list: seq<Call>) {
    forall i :: 0 <= i < |list| ==> ArgsStrung(list[i])
  }

  lemma CallIsParts(c: Call)
    requires ArgsStrung(c)
    ensures var ts := [CallTag(c.name), Newline] + ArgParts(Reparse.WrittenArgs(c.arguments)) + [CallEnd, Newline];
            PartsText(ts) == CallText(c) && PartsOk(ts)
  {
    hide PartText, PartsText, PartOk, PartsOk, ArgsText, ArgParts, ArgStrung, Reparse.WrittenArgs, CallText, FULL, Trip.InvokeTag;
    NewlineOk();
    var args := Reparse.WrittenArgs(c.arguments);
    var a, b, e := [CallTag(c.name), Newline], ArgParts(args), [CallEnd, Newline];
    ArgsAreParts(args);
    TwoParts(CallTag(c.name), Newline);
    TwoParts(CallEnd, Newline);
    PartsAppend(a, b);
    PartsAppend(a + b, e);
    Reparse.CallTextIs(c);
    CallPieces(Trip.InvokeTag(c.name), [NL], ArgsText(args), FULL.invokeEnd);
  }

  lemma CallPieces(t: Bytes, n: Bytes, a: Bytes, e: Bytes)
    ensures (t + n) + a + (e + n) == t + (n + (a + e) + n)
  {
  }

  lemma {:induction false} CallsAreParts(list: seq<Call>)
    requires AllStrung(list)
    ensures PartsText(CallParts(list)) == CallListText(list) && PartsOk(CallParts(list))
  {
    hide PartText, PartsText, PartOk, PartsOk, ArgParts, ArgsStrung, Reparse.WrittenArgs, CallText;
    if list == [] {
      NoParts();
    } else {
      CallIsParts(list[0]);
      assert forall i :: 0 <= i < |list| - 1 ==> list[1..][i] == list[i + 1];
      CallsAreParts(list[1..]);
      PartsAppend([CallTag(list[0].name), Newline] + ArgParts(Reparse.WrittenArgs(list[0].arguments)) + [CallEnd, Newline], CallParts(list[1..]));
    }
  }

  lemma BlockIsParts(list: seq<Call>)
    requires list != [] && AllStrung(list)
    ensures CallsText(Calls(list, [])) == [NL, NL] + (FULL.toolStart + PartsText(BlockParts(list))) && PartsOk(BlockParts(list))
  {
    hide PartText, PartsText, PartOk, PartsOk, CallParts, CallListText, CallsText, FULL, AllStrung;
    NewlineOk();
    CallsAreParts(list);
    OnePart(Newline);
    OnePart(BlockEnd);
    PartsAppend([Newline], CallParts(list));
    PartsAppend([Newline] + CallParts(list), [BlockEnd]);
    Reparse.CallsTextIs(list);
    BlockPieces([NL, NL], FULL.toolStart, [NL], CallListText(list), FULL.toolEnd);
  }

  lemma BlockPieces(a: Bytes, b: Bytes, n: Bytes, c: Bytes, e: Bytes)
    ensures a + b + (n + (c + e)) == a + (b + (n + c + e))
  {
  }

  /** At every place of a rendered block. */
  lemma RenderedTrace(s: Bytes, p: nat, list: seq<Call>, n: nat)
    requires list != [] && AllStrung(list) && IsAt(s, CallsText(Calls(list, [])), p) && NoStartIn(s, p + 2)
    requires n <= p + |CallsText(Calls(list, []))|
    ensures n <= p + 2 + |FULL.toolStart| + |PartsText(BlockParts(list))|
    ensures n <= |s| && DecodeOf(Run(START, s[..n]), s[..n]) == State(p + 2, BlockParts(list), n)
  {
    hide FULL, IsAt, CallsText, PartsText, PartsOk, BlockParts, AllStrung, NoStartIn, Run, State;
    BlockIsParts(list);
    IsAtSplit(s, [NL, NL], FULL.toolStart + PartsText(BlockParts(list)), p);
    BlockTrace(s, p + 2, BlockParts(list), n);
  }

  /** Calls that were read from JSON, with members that the markup can carry, are such
      calls. */
  lemma ParsedAreStrung(list: seq<Call>)
    requires Reparse.Parsed(list) && Reparse.AllPlain(list)
    ensures AllStrung(list)
  {
    hide Reparse.Parsed, ArgStrung, Reparse.Plain, Reparse.WrittenArgs, RawPlain;
    Reparse.ParsedAreShort(list);
    forall i, a | 0 <= i < |list| && a in Reparse.WrittenArgs(list[i].arguments)
      ensures ArgStrung(a)
    {
      assert list[i] in list;
      PlainIsStrung(a);
    }
  }

  lemma PlainIsStrung(a: Arg)
    requires Reparse.Plain(a) && (a.isString || RawPlain(a.value))
    ensures ArgStrung(a)
  {
    hide Trip.NoEnd, RawPlain, Strung, JsonLiteral, Shielded, ParamText, Trip.NoEntity, Trip.EndsWith;
    if !a.isString {
      Trip.NothingToShield(a.value, Ascii("\\u003c"));
      LiteralIs(a.value);
      RawPlainIs(a.value);
      ValueIsStrung(a.value);
    }
  }

  lemma LiteralIs(s: Bytes)
    ensures JsonLiteral(s) == Shielded(s, Ascii("\\u003c"))
  {
    hide Shielded;
  }

  // However the text is cut

  lemma SameDecode(p: Bytes)
    ensures DecodeOf(Track(p), p) == DecodeOf(Run(START, p), p)
  {
    hide SYNTAXES, Run;
  }

  /** Feeding the text in any pieces with safe cuts reports the same states. */
  lemma CutTrace(s: Bytes, a: nat, ts: seq<Part>, cuts: seq<nat>)
    requires NoStartIn(s, a) && IsAt(s, FULL.toolStart + PartsText(ts), a) && PartsOk(ts)
    requires cuts != [] && forall i :: 0 <= i < |cuts| ==> cuts[i] <= a + |FULL.toolStart| + |PartsText(ts)|
    requires forall i, j :: 0 <= i < j < |cuts| ==> cuts[i] <= cuts[j]
    requires forall i :: 0 <= i < |cuts| - 1 ==> cuts[i] <= |s| && SafeCut(s[..cuts[i]])
    ensures forall i :: 0 <= i < |cuts| ==> cuts[i] <= |s|
    ensures var n := cuts[|cuts| - 1]; DecodeOf(TrackAll(s, cuts), s[..n]) == State(a, ts, n)
  {
    hide FULL, IsAt, Run, NoStartIn, PartsText, PartsOk, State, SafeCut, SYNTAXES, TrackAll, Track;
    var n := cuts[|cuts| - 1];
    Within(s, FULL.toolStart + PartsText(ts), a);
    ChunkingIsIrrelevant(s, cuts);
    SameDecode(s[..n]);
    BlockTrace(s, a, ts, n);
  }

  // A block with one quoted text

  /** A parameter with the JSON string of `s`. */
  function QuotedParts(key: Bytes, s: Bytes): seq<Part> {
    [Value(key, false, Quoted(s)), BlockEnd]
  }

  lemma QuotedPartsOk(key: Bytes, s: Bytes)
    ensures PartsOk(QuotedParts(key, s))
    ensures PartsText(QuotedParts(key, s)) == ValueTag(key, false) + (Quoted(s) + END) + FULL.toolEnd
  {
    QuotedIsString(s);
    NewlineOk();
    hide Quoted, END, FULL, ValueTag, IsAt, Strung, Quotes, PartsOk, PartsText, InString;
    var w := Quoted(s);
    forall i | 0 <= i < |w| && IsAt(w, END, i)
      ensures InString(w, i)
    {
      FirstIsQuote(s);
      IsReading();
      ByteAt(w, END, i, 0);
    }
    TwoParts(Value(key, false, w), BlockEnd);
  }

  lemma FirstIsQuote(s: Bytes)
    ensures var w := Quoted(s); w != [] && w[0] == QUOTE && w[|w| - 1] == QUOTE
  {
  }

  /** From the opening quote on generation is in a string until the closing quote, whatever
      the text says, and at the end of the block outside. */
  lemma QuotedTrace(s: Bytes, a: nat, key: Bytes, text: Bytes, n: nat)
    requires NoStartIn(s, a) && IsAt(s, FULL.toolStart + PartsText(QuotedParts(key, text)), a)
    ensures var v := a + |FULL.toolStart| + |ValueTag(key, false)|;
            && v + |Quoted(text)| + |END| + |FULL.toolEnd| <= |s|
            && (v < n < v + |Quoted(text)| ==> DecodeOf(Run(START, s[..n]), s[..n]) == InJsonString)
            && (n == v || n == v + |Quoted(text)| ==> DecodeOf(Run(START, s[..n]), s[..n]) == InJsonStructure)
            && (n == v + |Quoted(text)| + |END| + |FULL.toolEnd| ==> DecodeOf(Run(START, s[..n]), s[..n]) == Outside)
  {
    hide FULL, IsAt, Run, NoStartIn, PartsText, PartsOk, PartsState, SYNTAXES, Quoted, END, ValueTag, QuotedParts;
    var ts := QuotedParts(key, text);
    QuotedPartsOk(key, text);
    Within(s, FULL.toolStart + PartsText(ts), a);
    var v := a + |FULL.toolStart| + |ValueTag(key, false)|;
    if v <= n <= v + |Quoted(text)| || n == v + |Quoted(text)| + |END| + |FULL.toolEnd| {
      BlockTrace(s, a, ts, n);
      QuotedState(key, text, n - a - |FULL.toolStart|);
    }
  }

  lemma QuotedState(key: Bytes, text: Bytes, k: nat)
    requires k <= |PartsText(QuotedParts(key, text))|
    ensures var v := |ValueTag(key, false)|;
            && (v < k < v + |Quoted(text)| ==> PartsState(QuotedParts(key, text), k) == InJsonString)
            && (k == v || k == v + |Quoted(text)| ==> PartsState(QuotedParts(key, text), k) == InJsonStructure)
            && (k == v + |Quoted(text)| + |END| + |FULL.toolEnd| ==> PartsState(QuotedParts(key, text), k) == Outside)
  {
    hide FULL, IsAt, PartsText, PartsState, Quoted, END, ValueTag, InString, Unfinished, PartText;
    var t, v, w := Value(key, false, Quoted(text)), |ValueTag(key, false)|, Quoted(text);
    QuotedIsString(text);
    FirstIsQuote(text);
    IsReading();
    EndBytes(END);
    StateInValue(t, v);
    if v <= k <= v + |w| {
      FirstState(t, BlockEnd, k);
      StateInValue(t, k);
      NothingUnfinished((w + END)[..k - v], w, k - v);
    } else if k == v + |w| + |END| + |FULL.toolEnd| {
      LastState(t, k);
    }
  }

  lemma NothingUnfinished(t: Bytes, w: Bytes, k: nat)
    requires EndShape(END) && k <= |w| && t == (w + END)[..k] && (k == |w| ==> k > 0 && w[k - 1] == QUOTE)
    ensures k == 0 || k == |w| ==> !Unfinished(t)
  {
    hide END, Unfinished;
    if Unfinished(t) {
      UnfinishedLast(t);
    }
  }

  lemma UnfinishedLast(t: Bytes)
    requires EndShape(END) && Unfinished(t)
    ensures t != [] && t[|t| - 1] != QUOTE
  {
    hide END;
    var j :| 2 <= j < |END| && EndsIn(t, j);
    assert t[|t| - j..][j - 1] == t[|t| - 1];
  }

  lemma FirstState(t: Part, u: Part, k: nat)
    requires k < |PartText(t)|
    ensures k <= |PartsText([t, u])| && PartsState([t, u], k) == PartState(t, k)
  {
    hide PartText, PartState;
    TwoParts(t, u);
  }

  /** Behind the end of the block. */
  lemma LastState(t: Part, k: nat)
    requires t != BlockEnd && k == |PartText(t)| + |FULL.toolEnd|
    ensures k <= |PartsText([t, BlockEnd])| && PartsState([t, BlockEnd], k) == Outside
  {
    hide PartText, PartState, FULL;
    NewlineOk();
    TwoParts(t, BlockEnd);
    OnePart(BlockEnd);
    assert [t, BlockEnd][1..] == [BlockEnd];
  }
}
