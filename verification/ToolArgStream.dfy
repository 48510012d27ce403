/** Streaming tool-call arguments as JSON while the markup is still being
    generated, and why the cuts between updates cannot be seen in the result. */
module ToolArgStream {
  import opened ByteStrings
  import opened Dsml
  import opened JsonText
  import opened JsonValue
  import opened StreamHold
  import opened DsmlParse
  import opened Utf8

  datatype Phase = BetweenInvokes | BetweenParams | ParamValue | Finished | Failed

  datatype Cfg = Cfg(phase: Phase, pos: nat, index: nat, argsOpen: bool, first: bool, isString: bool)

  /** What the client assembles: calls begin, then argument bytes arrive. How the
      bytes are grouped into messages does not matter. */
  datatype Event = Begin(index: nat, name: Bytes) | Arg(index: nat, byte: Byte)

  function Args(index: nat, s: Bytes): (r: seq<Event>)
    ensures |r| == |s|
  {
    seq(|s|, i requires 0 <= i < |s| => Arg(index, s[i]))
  }

  lemma ArgsAppend(index: nat, s: Bytes, t: Bytes)
    ensures Args(index, s + t) == Args(index, s) + Args(index, t)
  {
  }

  predicate Active(c: Cfg) {
    !c.phase.Finished? && !c.phase.Failed?
  }

  /** The rest of the text is a proper prefix of `tag`, of one byte or more. */
  predicate Unfinished(raw: Bytes, tag: Bytes, pos: nat) {
    pos < |raw| < pos + |tag| && raw[pos..] == tag[..|raw| - pos]
  }

  /** A piece of a value as it goes into the JSON text. */
  function ValueText(s: Bytes, isString: bool): Bytes {
    if isString then Escaped(Unescaped(s)) else s
  }

  function ParamPrefix(first: bool, key: Bytes, isString: bool): Bytes {
    (if first then [] else [COMMA]) + Quoted(key) + [COLON] + (if isString then [QUOTE] else [])
  }

  datatype Move = Wait | To(next: Cfg, events: seq<Event>)

  function Fail(c: Cfg): Move {
    To(c.(phase := Failed), [])
  }

  function InvokeMove(c: Cfg, raw: Bytes, x: Syntax): (m: Move)
    requires c.pos < |raw|
    ensures m.To? ==> c.pos <= m.next.pos <= |raw| && (Active(m.next) ==> c.pos < m.next.pos)
  {
    if IsSpace(raw[c.pos]) then To(c.(pos := c.pos + 1), [])
    else if IsAt(raw, x.toolEnd, c.pos) then To(c.(phase := Finished, pos := c.pos + |x.toolEnd|), [])
    else if Unfinished(raw, x.toolEnd, c.pos) || Unfinished(raw, x.invokeStart, c.pos) then Wait
    else if IsAt(raw, x.invokeStart, c.pos) then
      var gt := FindFrom(raw, [GT], c.pos);
      if gt.None? then Wait
      else
        var name := Attr(raw[c.pos..gt.value + 1], NAME);
        if name.None? then Fail(c)
        else To(Cfg(BetweenParams, gt.value + 1, c.index, true, true, c.isString),
                [Begin(c.index, name.value)] + Args(c.index, [BRACE_OPEN]))
    else Fail(c)
  }

  function ParamMove(c: Cfg, raw: Bytes, x: Syntax): (m: Move)
    requires c.pos < |raw|
    ensures m.To? ==> c.pos <= m.next.pos <= |raw| && (Active(m.next) && x.invokeEnd != [] ==> c.pos < m.next.pos)
  {
    if IsSpace(raw[c.pos]) then To(c.(pos := c.pos + 1), [])
    else if IsAt(raw, x.invokeEnd, c.pos) then
      To(Cfg(BetweenInvokes, c.pos + |x.invokeEnd|, c.index + 1, false, c.first, c.isString),
         Args(c.index, if c.argsOpen then [BRACE_CLOSE] else []))
    else if Unfinished(raw, x.invokeEnd, c.pos) || Unfinished(raw, x.paramStart, c.pos) then Wait
    else if IsAt(raw, x.paramStart, c.pos) then
      var gt := FindFrom(raw, [GT], c.pos);
      if gt.None? then Wait
      else
        var tag := raw[c.pos..gt.value + 1];
        var name, kind := Attr(tag, NAME), Attr(tag, STRING);
        if name.None? || kind.None? then Fail(c)
        else
          var isString := kind.value == TRUE;
          To(Cfg(ParamValue, gt.value + 1, c.index, c.argsOpen, false, isString),
             Args(c.index, ParamPrefix(c.first, name.value, isString)))
    else Fail(c)
  }

  function ValueMove(c: Cfg, raw: Bytes, x: Syntax): (m: Move)
    requires c.pos <= |raw|
    ensures m.To? ==> c.pos <= m.next.pos <= |raw| && (x.paramEnd != [] ==> c.pos < m.next.pos)
  {
    var end := FindFrom(raw, x.paramEnd, c.pos);
    if end.None? then Wait
    else
      To(c.(phase := BetweenParams, pos := end.value + |x.paramEnd|),
         Args(c.index, ValueText(raw[c.pos..end.value], c.isString) + if c.isString then [QUOTE] else []))
  }

  function MoveOf(c: Cfg, raw: Bytes, x: Syntax): (m: Move)
    requires c.pos <= |raw|
    ensures m.To? ==> c.pos <= m.next.pos <= |raw| && (x.invokeEnd != [] && x.paramEnd != [] && Active(m.next) ==> c.pos < m.next.pos)
    ensures !Active(c) ==> m.Wait?
  {
    if c.pos >= |raw| then Wait
    else match c.phase
      case BetweenInvokes => InvokeMove(c, raw, x)
      case BetweenParams => ParamMove(c, raw, x)
      case ParamValue => ValueMove(c, raw, x)
      case _ => Wait
  }

  /** All moves, without streaming unfinished values: the translation of a text. */
  function Run(c: Cfg, raw: Bytes, x: Syntax): (r: (Cfg, seq<Event>))
    requires c.pos <= |raw| && SyntaxShape(x)
    ensures r.0.pos <= |raw| && MoveOf(r.0, raw, x).Wait?
    decreases |raw| - c.pos, Active(c)
  {
    var m := MoveOf(c, raw, x);
    if m.Wait? then (c, []) else
      var rest := Run(m.next, raw, x);
      (rest.0, m.events + rest.1)
  }

  /** Stream what is safe of an unfinished value. */
  function Flushed(c: Cfg, raw: Bytes, x: Syntax): (r: (Cfg, seq<Event>))
    requires c.pos <= |raw|
    ensures r.0.pos <= |raw|
  {
    if c.phase.ParamValue? && c.pos < |raw| then
      var limit := ValueLimit(raw, c.pos, x.paramEnd, c.isString);
      (c.(pos := limit), Args(c.index, ValueText(raw[c.pos..limit], c.isString)))
    else (c, [])
  }

  /** One update with the text so far. */
  function Updated(c: Cfg, raw: Bytes, x: Syntax): (r: (Cfg, seq<Event>))
    requires c.pos <= |raw| && SyntaxShape(x)
    ensures r.0.pos <= |raw|
  {
    var run := Run(c, raw, x);
    var flush := Flushed(run.0, raw, x);
    (flush.0, run.1 + flush.1)
  }

  // Nothing is held back without need

  /** The tag has begun and is not complete. */
  predicate Awaited(raw: Bytes, tag: Bytes, pos: nat) {
    Unfinished(raw, tag, pos) || (IsAt(raw, tag, pos) && FindFrom(raw, [GT], pos).None?)
  }

  /** What may be left of the text after an update: nothing, a tag that is not complete, or
      the part of a value that must be held. */
  ghost predicate Live(c: Cfg, raw: Bytes, x: Syntax) {
    match c.phase
    case BetweenInvokes => c.pos == |raw| || Awaited(raw, x.invokeStart, c.pos) || Unfinished(raw, x.toolEnd, c.pos)
    case BetweenParams => c.pos == |raw| || Awaited(raw, x.paramStart, c.pos) || Unfinished(raw, x.invokeEnd, c.pos)
    case ParamValue => FindFrom(raw, x.paramEnd, c.pos).None? && ValueHeld(raw, c.pos, x.paramEnd, c.isString)
    case _ => true
  }

  lemma UpdatedLives(c: Cfg, raw: Bytes, x: Syntax)
    requires c.pos <= |raw| && SyntaxShape(x)
    ensures Live(Updated(c, raw, x).0, raw, x)
  {
    hide Run, SyntaxShape, IsAt, Unfinished, Attr, Args, ValueText, ParamPrefix, ValueLimit, ValueHeld;
    EndsNotEmpty(x);
    var d := Run(c, raw, x).0;
    if d.phase.ParamValue? {
      ValueLimitHeld(raw, d.pos, x.paramEnd, d.isString);
      NothingLeft(raw, x.paramEnd, d.isString);
      NoEndAtEnd(raw, x.paramEnd);
    }
  }

  lemma NothingLeft(raw: Bytes, t: Bytes, isString: bool)
    ensures ValueHeld(raw, |raw|, t, isString)
  {
    assert CharHeld(raw, |raw|, |raw|) && TagBegins(raw, |raw|, t);
  }

  lemma NoEndAtEnd(raw: Bytes, t: Bytes)
    requires t != []
    ensures FindFrom(raw, t, |raw|).None?
  {
  }

  // Moves do not depend on later text

  lemma BegunInPrefix(p: Bytes, raw: Bytes, t: Bytes, i: nat)
    requires p <= raw && i < |p| < i + |t| && (IsAt(raw, t, i) || Unfinished(raw, t, i))
    ensures Unfinished(p, t, i)
  {
    if IsAt(raw, t, i) {
      assert p[i..] == raw[i..i + |t|][..|p| - i];
    } else {
      assert p[i..] == raw[i..][..|p| - i] == t[..|raw| - i][..|p| - i];
    }
  }

  lemma NotBegun(p: Bytes, raw: Bytes, t: Bytes, i: nat)
    requires p <= raw && i < |p| && !IsAt(p, t, i) && !Unfinished(p, t, i)
    ensures !IsAt(raw, t, i) && !Unfinished(raw, t, i)
  {
    if IsAt(raw, t, i) || Unfinished(raw, t, i) {
      if i + |t| <= |p| {
        IsAtShrinks(p, raw, t, i);
      } else {
        BegunInPrefix(p, raw, t, i);
      }
    }
  }

  /** A tag that stands there leaves no other finished or unfinished. */
  lemma BegunExcludes(raw: Bytes, s: Bytes, t: Bytes, i: nat)
    requires IsAt(raw, s, i) && Differ(s, t)
    ensures !IsAt(raw, t, i) && !Unfinished(raw, t, i)
  {
    hide IsAt, Unfinished;
    var k :| 0 <= k < |s| && k < |t| && s[k] != t[k];
    ByteAt(raw, s, i, k);
    if IsAt(raw, t, i) {
      ByteAt(raw, t, i, k);
    }
    if Unfinished(raw, t, i) {
      UnfinishedByte(raw, t, i, k);
    }
  }

  lemma UnfinishedByte(raw: Bytes, t: Bytes, i: nat, k: nat)
    requires Unfinished(raw, t, i) && i + k < |raw|
    ensures k < |t| && raw[i + k] == t[k]
  {
    assert raw[i..][k] == raw[i + k];
  }

  lemma InvokeMoveStable(c: Cfg, p: Bytes, raw: Bytes, x: Syntax)
    requires c.pos < |p| && p <= raw && SyntaxShape(x) && InvokeMove(c, p, x).To?
    ensures InvokeMove(c, raw, x) == InvokeMove(c, p, x)
  {
    hide IsAt, Unfinished, Attr, Args;
    assert raw[c.pos] == p[c.pos];
    if IsSpace(p[c.pos]) {
    } else if IsAt(p, x.toolEnd, c.pos) {
      IsAtExtends(p, raw, x.toolEnd, c.pos);
    } else {
      NotBegun(p, raw, x.toolEnd, c.pos);
      if IsAt(p, x.invokeStart, c.pos) {
        IsAtExtends(p, raw, x.invokeStart, c.pos);
        FullIsFinished(raw, x.invokeStart, c.pos);
        FindExtends(p, raw, [GT], c.pos);
        SliceExtends(p, raw, c.pos, FindFrom(p, [GT], c.pos).value);
      } else {
        NotBegun(p, raw, x.invokeStart, c.pos);
      }
    }
  }

  lemma FullIsFinished(raw: Bytes, t: Bytes, i: nat)
    requires IsAt(raw, t, i)
    ensures !Unfinished(raw, t, i)
  {
  }

  lemma ParamMoveStable(c: Cfg, p: Bytes, raw: Bytes, x: Syntax)
    requires c.pos < |p| && p <= raw && SyntaxShape(x) && ParamMove(c, p, x).To?
    ensures ParamMove(c, raw, x) == ParamMove(c, p, x)
  {
    hide IsAt, Unfinished, Attr, Args, ParamPrefix;
    assert raw[c.pos] == p[c.pos];
    if IsSpace(p[c.pos]) {
    } else if IsAt(p, x.invokeEnd, c.pos) {
      IsAtExtends(p, raw, x.invokeEnd, c.pos);
    } else {
      NotBegun(p, raw, x.invokeEnd, c.pos);
      if IsAt(p, x.paramStart, c.pos) {
        IsAtExtends(p, raw, x.paramStart, c.pos);
        FullIsFinished(raw, x.paramStart, c.pos);
        FindExtends(p, raw, [GT], c.pos);
        SliceExtends(p, raw, c.pos, FindFrom(p, [GT], c.pos).value);
      } else {
        NotBegun(p, raw, x.paramStart, c.pos);
      }
    }
  }

  lemma ValueMoveStable(c: Cfg, p: Bytes, raw: Bytes, x: Syntax)
    requires c.pos <= |p| && p <= raw && x.paramEnd != [] && ValueMove(c, p, x).To?
    ensures ValueMove(c, raw, x) == ValueMove(c, p, x)
  {
    hide IsAt, ValueText, Args;
    FindExtends(p, raw, x.paramEnd, c.pos);
    var e := FindFrom(p, x.paramEnd, c.pos).value;
    Within(p, x.paramEnd, e);
    assert raw[c.pos..e] == p[c.pos..e];
  }

  /** A move made on a prefix is made on the whole text. */
  lemma MoveStable(c: Cfg, p: Bytes, raw: Bytes, x: Syntax)
    requires c.pos <= |p| && p <= raw && SyntaxShape(x) && MoveOf(c, p, x).To?
    ensures MoveOf(c, raw, x) == MoveOf(c, p, x)
  {
    EndsNotEmpty(x);
    hide InvokeMove, ParamMove, ValueMove, SyntaxShape;
    match c.phase {
      case BetweenInvokes => InvokeMoveStable(c, p, raw, x);
      case BetweenParams => ParamMoveStable(c, p, raw, x);
      case ParamValue => ValueMoveStable(c, p, raw, x);
      case _ =>
    }
  }

  lemma EndsNotEmpty(x: Syntax)
    requires SyntaxShape(x)
    ensures x.invokeEnd != [] && x.paramEnd != [] && TagShape(x.paramEnd)
  {
  }

  /** Translating a prefix and then the rest is translating the whole. */
  lemma {:induction false} RunStable(c: Cfg, p: Bytes, raw: Bytes, x: Syntax)
    requires c.pos <= |p| && p <= raw && SyntaxShape(x)
    ensures var a := Run(c, p, x);
            var b := Run(a.0, raw, x);
            Run(c, raw, x) == (b.0, a.1 + b.1)
    decreases |p| - c.pos, Active(c)
  {
    EndsNotEmpty(x);
    hide MoveOf, SyntaxShape;
    var m := MoveOf(c, p, x);
    if m.Wait? {
      assert [] + Run(c, raw, x).1 == Run(c, raw, x).1;
    } else {
      MoveStable(c, p, raw, x);
      RunStable(m.next, p, raw, x);
      var a := Run(m.next, p, x);
      Assoc(m.events, a.1, Run(a.0, raw, x).1);
    }
  }

  /** Sending a safe piece of a value early changes nothing in the end. */
  lemma FlushStable(c: Cfg, p: Bytes, raw: Bytes, x: Syntax)
    requires c.pos <= |p| && p <= raw && SyntaxShape(x) && MoveOf(c, p, x).Wait?
    requires !Run(c, raw, x).0.phase.ParamValue?
    ensures var f := Flushed(c, p, x);
            var b := Run(f.0, raw, x);
            Run(c, raw, x) == (b.0, f.1 + b.1)
  {
    EndsNotEmpty(x);
    hide SyntaxShape;
    if c.phase.ParamValue? && c.pos < |p| {
      FlushValue(c, p, raw, x);
    } else {
      assert [] + Run(c, raw, x).1 == Run(c, raw, x).1;
    }
  }

  lemma FlushValue(c: Cfg, p: Bytes, raw: Bytes, x: Syntax)
    requires c.phase.ParamValue? && c.pos < |p| && p <= raw && SyntaxShape(x) && MoveOf(c, p, x).Wait?
    requires !Run(c, raw, x).0.phase.ParamValue?
    ensures var f := Flushed(c, p, x);
            var b := Run(f.0, raw, x);
            Run(c, raw, x) == (b.0, f.1 + b.1)
  {
    EndsNotEmpty(x);
    hide SyntaxShape, ValueText, Args, ValueLimit, Run, ValueMove, MoveOf;
    MoveIsValue(c, p, x);
    MoveIsValue(c, raw, x);
    RunOnce(c, raw, x);
    var limit := ValueLimit(p, c.pos, x.paramEnd, c.isString);
    var d := c.(pos := limit);
    var sent := Args(c.index, ValueText(p[c.pos..limit], c.isString));
    ValueMovesJoin(c, p, raw, x, limit);
    MoveIsValue(d, raw, x);
    RunOnce(d, raw, x);
    var m := ValueMove(d, raw, x);
    Assoc(sent, m.events, Run(m.next, raw, x).1);
  }

  lemma MoveIsValue(c: Cfg, raw: Bytes, x: Syntax)
    requires c.phase.ParamValue? && c.pos < |raw|
    ensures MoveOf(c, raw, x) == ValueMove(c, raw, x)
  {
  }

  /** The rest of a value continues what was sent. */
  lemma ValueMovesJoin(c: Cfg, p: Bytes, raw: Bytes, x: Syntax, limit: nat)
    requires c.pos < |p| && p <= raw && TagShape(x.paramEnd) && limit == ValueLimit(p, c.pos, x.paramEnd, c.isString)
    requires ValueMove(c, p, x).Wait? && ValueMove(c, raw, x).To?
    ensures limit < |raw|
    ensures var m, n := ValueMove(c, raw, x), ValueMove(c.(pos := limit), raw, x);
            && n.To? && m.next == n.next
            && m.events == Args(c.index, ValueText(p[c.pos..limit], c.isString)) + n.events
  {
    hide ValueText, Args, ValueLimit, IsAt, CleanCut;
    var t := x.paramEnd;
    var e := FindFrom(raw, t, c.pos).value;
    Within(raw, t, e);
    ValueLimitOk(p, raw, c.pos, t, c.isString, e);
    FoundAt(raw, t, limit, e);
    ValueTextSplit(raw, c.pos, limit, e, c.isString);
    var quote := if c.isString then [QUOTE] else [];
    var head, tail := ValueText(raw[c.pos..limit], c.isString), ValueText(raw[limit..e], c.isString);
    assert raw[c.pos..limit] == p[c.pos..limit];
    assert head + tail + quote == head + (tail + quote);
    ArgsAppend(c.index, head, tail + quote);
  }

  lemma RunOnce(c: Cfg, raw: Bytes, x: Syntax)
    requires c.pos <= |raw| && SyntaxShape(x)
    ensures var m := MoveOf(c, raw, x);
            if m.Wait? then Run(c, raw, x) == (c, [])
            else Run(c, raw, x) == (Run(m.next, raw, x).0, m.events + Run(m.next, raw, x).1)
  {
  }

  lemma ValueTextSplit(raw: Bytes, lo: nat, k: nat, hi: nat, isString: bool)
    requires lo <= k <= hi <= |raw| && (isString ==> CleanCut(raw, lo, k))
    ensures ValueText(raw[lo..hi], isString) == ValueText(raw[lo..k], isString) + ValueText(raw[k..hi], isString)
  {
    hide Escaped, Unescaped, CleanCut;
    var s := raw[lo..hi];
    assert s[..k - lo] == raw[lo..k] && s[k - lo..] == raw[k..hi];
    if isString {
      CleanCutSlice(raw, lo, hi, k);
      UnescapedSplit(s, k - lo);
      EscapedAppend(Unescaped(raw[lo..k]), Unescaped(raw[k..hi]));
    }
  }

  /** One update on a prefix, then the translation of the whole. */
  lemma UpdateStable(c: Cfg, p: Bytes, raw: Bytes, x: Syntax)
    requires c.pos <= |p| && p <= raw && SyntaxShape(x) && !Run(c, raw, x).0.phase.ParamValue?
    ensures var u := Updated(c, p, x);
            var b := Run(u.0, raw, x);
            Run(c, raw, x) == (b.0, u.1 + b.1)
  {
    hide Run, Flushed, MoveOf, SyntaxShape;
    RunStable(c, p, raw, x);
    var a := Run(c, p, x);
    FlushStable(a.0, p, raw, x);
    var f := Flushed(a.0, p, x);
    Assoc(a.1, f.1, Run(f.0, raw, x).1);
  }

  /** All events of a sequence of updates with growing prefixes. */
  function StreamAll(c: Cfg, raw: Bytes, cuts: seq<nat>, x: Syntax): (r: (Cfg, seq<Event>))
    requires SyntaxShape(x) && Growing(c.pos, raw, cuts)
    decreases |cuts|
  {
    if cuts == [] then (c, [])
    else
      var u := Updated(c, raw[..cuts[0]], x);
      var rest := StreamAll(u.0, raw, cuts[1..], x);
      (rest.0, u.1 + rest.1)
  }

  predicate Growing(pos: nat, raw: Bytes, cuts: seq<nat>) {
    && (forall i :: 0 <= i < |cuts| ==> pos <= cuts[i] <= |raw|)
    && (forall i, j :: 0 <= i < j < |cuts| ==> cuts[i] <= cuts[j])
  }

  /** However a text is cut into updates, once its last value is closed the events
      are those of translating it at once. */
  lemma {:induction false} ChunkingIsIrrelevant(c: Cfg, raw: Bytes, cuts: seq<nat>, x: Syntax)
    requires SyntaxShape(x) && Growing(c.pos, raw, cuts) && cuts != [] && cuts[|cuts| - 1] == |raw|
    requires !Run(c, raw, x).0.phase.ParamValue?
    ensures StreamAll(c, raw, cuts, x) == Run(c, raw, x)
    decreases |cuts|
  {
    hide Run, Updated, SyntaxShape;
    var p := raw[..cuts[0]];
    UpdateStable(c, p, raw, x);
    if |cuts| == 1 {
      assert p == raw;
      LastUpdate(c, raw, x);
    } else {
      ChunkingIsIrrelevant(Updated(c, p, x).0, raw, cuts[1..], x);
    }
  }

  /** An update that ends outside a value streams nothing extra. */
  lemma LastUpdate(c: Cfg, raw: Bytes, x: Syntax)
    requires c.pos <= |raw| && SyntaxShape(x) && !Run(c, raw, x).0.phase.ParamValue?
    ensures Updated(c, raw, x) == Run(c, raw, x)
  {
    hide Run;
    assert Run(c, raw, x).1 + [] == Run(c, raw, x).1;
  }

  // The stream and the batch parser

  /** Every parameter says whether it is a string, as the stream requires. */
  predicate AllTyped(params: seq<Param>) {
    forall i :: 0 <= i < |params| ==> params[i].kind.Some? && !params[i].nested
  }

  predicate CallsTyped(calls: seq<Invoke>) {
    forall i :: 0 <= i < |calls| ==> AllTyped(calls[i].params)
  }

  /** A member as it is streamed. */
  function MemberStream(p: Param): Bytes
    requires p.kind.Some?
  {
    Quoted(p.key) + [COLON] + if p.kind.value == TRUE then Quoted(p.value) else p.value
  }

  /** The members from here on, the first one after a comma unless it is the first
      of all, and the closing brace. */
  function MembersStream(first: bool, params: seq<Param>): Bytes
    requires AllTyped(params)
  {
    if params == [] then [BRACE_CLOSE]
    else (if first then [] else [COMMA]) + MemberStream(params[0]) + MembersStream(false, params[1..])
  }

  /** What the client assembles for a list of calls. */
  function Expected(index: nat, calls: seq<Invoke>): seq<Event>
    requires CallsTyped(calls)
    decreases |calls|
  {
    if calls == [] then []
    else
      [Begin(index, calls[0].name)] + Args(index, [BRACE_OPEN] + MembersStream(true, calls[0].params))
      + Expected(index + 1, calls[1..])
  }

  lemma {:induction false} RunSkips(c: Cfg, raw: Bytes, x: Syntax)
    requires c.pos <= |raw| && SyntaxShape(x) && (c.phase.BetweenInvokes? || c.phase.BetweenParams?)
    ensures Run(c, raw, x) == Run(c.(pos := SkipSpace(raw, c.pos)), raw, x)
    decreases |raw| - c.pos
  {
    if c.pos < |raw| && IsSpace(raw[c.pos]) {
      RunOnce(c, raw, x);
      var d := c.(pos := c.pos + 1);
      assert MoveOf(c, raw, x) == To(d, []);
      hide Run, MoveOf;
      assert [] + Run(d, raw, x).1 == Run(d, raw, x).1;
      RunSkips(d, raw, x);
    }
  }

  lemma TagsDiffer(x: Syntax)
    requires SyntaxShape(x)
    ensures Differ(x.invokeStart, x.toolEnd) && Differ(x.paramStart, x.invokeEnd)
  {
    DifferSym(x.toolEnd, x.invokeStart);
    DifferSym(x.invokeEnd, x.paramStart);
  }

  /** The move on a parameter's opening tag. */
  lemma ParamMoveIs(c: Cfg, raw: Bytes, x: Syntax, key: Bytes, kind: Bytes)
    requires c.phase.BetweenParams? && c.pos < |raw| && SyntaxShape(x) && !IsSpace(raw[c.pos])
    requires IsAt(raw, x.paramStart, c.pos) && TagFrom(raw, c.pos).Some?
    requires Attr(TagFrom(raw, c.pos).value.0, NAME) == Some(key) && Attr(TagFrom(raw, c.pos).value.0, STRING) == Some(kind)
    ensures MoveOf(c, raw, x) == To(Cfg(ParamValue, TagFrom(raw, c.pos).value.1, c.index, c.argsOpen, false, kind == TRUE),
                                    Args(c.index, ParamPrefix(c.first, key, kind == TRUE)))
  {
    TagsDiffer(x);
    hide IsAt, Unfinished, Args, ParamPrefix, SyntaxShape, Attr;
    BegunExcludes(raw, x.paramStart, x.invokeEnd, c.pos);
    FullIsFinished(raw, x.paramStart, c.pos);
  }

  /** Prefix, value and quote of a parameter make its member. */
  lemma MemberPieces(first: bool, param: Param, isString: bool, s: Bytes)
    requires param.kind.Some? && isString == (param.kind.value == TRUE)
    requires param.value == if isString then Unescaped(s) else s
    ensures ParamPrefix(first, param.key, isString) + (ValueText(s, isString) + if isString then [QUOTE] else [])
            == (if first then [] else [COMMA]) + MemberStream(param)
  {
    hide Escaped, Unescaped;
  }

  lemma ClosingMove(m: Cfg, raw: Bytes, x: Syntax, e: nat)
    requires m.phase.ParamValue? && m.pos < |raw| && FindFrom(raw, x.paramEnd, m.pos) == Some(e)
    ensures m.pos <= e <= |raw|
    ensures MoveOf(m, raw, x)
            == To(Cfg(BetweenParams, e + |x.paramEnd|, m.index, m.argsOpen, m.first, m.isString),
                  Args(m.index, ValueText(raw[m.pos..e], m.isString) + if m.isString then [QUOTE] else []))
  {
    MoveIsValue(m, raw, x);
  }

  /** Streaming one parameter streams its member. */
  lemma ParamRun(c: Cfg, raw: Bytes, x: Syntax, param: Param, next: nat)
    requires c.phase.BetweenParams? && c.pos < |raw| && SyntaxShape(x) && !IsSpace(raw[c.pos])
    requires x.paramEnd != [] && ParseParam(raw, x, c.pos) == Some((param, next)) && param.kind.Some? && !param.nested
    ensures next <= |raw|
    ensures var d := Cfg(BetweenParams, next, c.index, c.argsOpen, false, param.kind.value == TRUE);
            && Run(c, raw, x).0 == Run(d, raw, x).0
            && Run(c, raw, x).1 == Args(c.index, (if c.first then [] else [COMMA]) + MemberStream(param)) + Run(d, raw, x).1
  {
    ParamFacts(raw, x, c.pos, param, next);
    hide ParseParam, SyntaxShape, Run, Escaped, Unescaped, Args, MoveOf, TagFrom, Attr, IsAt, ParamPrefix, ValueText, Quoted, MemberStream, ValueMove;
    var v, isString := TagFrom(raw, c.pos).value.1, param.kind.value == TRUE;
    var e := FindFrom(raw, x.paramEnd, v).value;
    ParamMoveIs(c, raw, x, param.key, param.kind.value);
    var m := Cfg(ParamValue, v, c.index, c.argsOpen, false, isString);
    var d := Cfg(BetweenParams, next, c.index, c.argsOpen, false, isString);
    Within(raw, x.paramEnd, e);
    ClosingMove(m, raw, x, e);
    var head := ParamPrefix(c.first, param.key, isString);
    var tail := ValueText(raw[v..e], isString) + if isString then [QUOTE] else [];
    TwoMoves(c, m, d, raw, x, Args(c.index, head), Args(c.index, tail));
    ArgsAppend(c.index, head, tail);
    MemberPieces(c.first, param, isString, raw[v..e]);
  }

  lemma TwoMoves(c: Cfg, m: Cfg, d: Cfg, raw: Bytes, x: Syntax, first: seq<Event>, second: seq<Event>)
    requires c.pos <= |raw| && m.pos <= |raw| && d.pos <= |raw| && SyntaxShape(x)
    requires MoveOf(c, raw, x) == To(m, first) && MoveOf(m, raw, x) == To(d, second)
    ensures Run(c, raw, x) == (Run(d, raw, x).0, first + second + Run(d, raw, x).1)
  {
    hide MoveOf, SyntaxShape, Run;
    RunOnce(c, raw, x);
    RunOnce(m, raw, x);
    Assoc(first, second, Run(d, raw, x).1);
  }

  lemma MembersStep(first: bool, params: seq<Param>)
    requires params != [] && AllTyped(params)
    ensures AllTyped(params[1..])
    ensures MembersStream(first, params)
            == ((if first then [] else [COMMA]) + MemberStream(params[0])) + MembersStream(false, params[1..])
  {
    hide MemberStream;
  }

  /** Streaming the parameters of a call streams its members. */
  lemma {:induction false} ParamsRun(c: Cfg, raw: Bytes, x: Syntax, params: seq<Param>, q: nat) returns (d: Cfg)
    requires c.phase.BetweenParams? && c.argsOpen && c.pos <= |raw| && SyntaxShape(x) && x.paramEnd != []
    requires ParseParams(raw, x, c.pos) == Some((params, q)) && AllTyped(params)
    ensures d.phase.BetweenInvokes? && d.pos == q <= |raw| && d.index == c.index + 1
    ensures Run(c, raw, x).0 == Run(d, raw, x).0
    ensures Run(c, raw, x).1 == Args(c.index, MembersStream(c.first, params)) + Run(d, raw, x).1
    decreases |raw| - c.pos
  {
    hide IsAt, Run, ParseParam, ParseParams, MoveOf, SyntaxShape, Args, MemberStream, AllTyped;
    RunSkips(c, raw, x);
    var b := c.(pos := SkipSpace(raw, c.pos));
    if IsAt(raw, x.invokeEnd, b.pos) {
      ParamsEnd(raw, x, c.pos);
      d := Cfg(BetweenInvokes, q, c.index + 1, false, c.first, c.isString);
      EndMove(b, raw, x);
      RunOnce(b, raw, x);
    } else {
      var param, next := ParamsStep(raw, x, c.pos, params, q);
      FirstTyped(params);
      MembersStep(c.first, params);
      ParamStarts(raw, x, b.pos);
      ParamRun(b, raw, x, param, next);
      var m := Cfg(BetweenParams, next, c.index, c.argsOpen, false, param.kind.value == TRUE);
      d := ParamsRun(m, raw, x, params[1..], q);
      var head, tail := (if c.first then [] else [COMMA]) + MemberStream(param), MembersStream(false, params[1..]);
      ArgsAppend(c.index, head, tail);
      Assoc(Args(c.index, head), Args(c.index, tail), Run(d, raw, x).1);
    }
  }

  lemma FirstTyped(params: seq<Param>)
    requires AllTyped(params) && params != []
    ensures params[0].kind.Some? && !params[0].nested
  {
  }

  lemma EndMove(b: Cfg, raw: Bytes, x: Syntax)
    requires b.phase.BetweenParams? && b.argsOpen && b.pos <= |raw| && SyntaxShape(x) && IsAt(raw, x.invokeEnd, b.pos)
    requires b.pos < |raw| ==> !IsSpace(raw[b.pos])
    ensures MoveOf(b, raw, x) == To(Cfg(BetweenInvokes, b.pos + |x.invokeEnd|, b.index + 1, false, b.first, b.isString),
                                    Args(b.index, [BRACE_CLOSE]))
  {
    hide SyntaxShape;
    EndsNotEmpty(x);
  }

  lemma ParamStarts(raw: Bytes, x: Syntax, p: nat)
    requires x.paramEnd != [] && p <= |raw| && ParseParam(raw, x, p).Some?
    ensures p < |raw|
  {
  }

  lemma DoneMove(b: Cfg, raw: Bytes, x: Syntax)
    requires b.phase.BetweenInvokes? && b.pos <= |raw| && SyntaxShape(x) && IsAt(raw, x.toolEnd, b.pos)
    requires b.pos < |raw| ==> !IsSpace(raw[b.pos])
    ensures MoveOf(b, raw, x) == To(b.(phase := Finished, pos := b.pos + |x.toolEnd|), [])
    ensures b.pos + |x.toolEnd| <= |raw|
  {
    hide Unfinished;
  }

  lemma InvokeMoveIs(b: Cfg, raw: Bytes, x: Syntax, name: Bytes)
    requires b.phase.BetweenInvokes? && b.pos < |raw| && SyntaxShape(x) && !IsSpace(raw[b.pos])
    requires IsAt(raw, x.invokeStart, b.pos) && TagFrom(raw, b.pos).Some?
    requires Attr(TagFrom(raw, b.pos).value.0, NAME) == Some(name)
    ensures MoveOf(b, raw, x) == To(Cfg(BetweenParams, TagFrom(raw, b.pos).value.1, b.index, true, true, b.isString),
                                    [Begin(b.index, name)] + Args(b.index, [BRACE_OPEN]))
  {
    TagsDiffer(x);
    hide IsAt, Unfinished, Args, SyntaxShape, Attr;
    BegunExcludes(raw, x.invokeStart, x.toolEnd, b.pos);
    FullIsFinished(raw, x.invokeStart, b.pos);
  }

  lemma InvokeStarts(raw: Bytes, x: Syntax, p: nat)
    requires SyntaxShape(x) && IsAt(raw, x.invokeStart, p)
    ensures p < |raw|
  {
  }

  /** Streaming a block is translating what the batch parser finds in it. */
  lemma {:induction false} StreamIsBatch(c: Cfg, raw: Bytes, x: Syntax, calls: seq<Invoke>, q: nat)
    requires c.phase.BetweenInvokes? && c.pos <= |raw| && SyntaxShape(x) && x.paramEnd != []
    requires ParseInvokes(raw, x, c.pos) == Some((calls, q)) && CallsTyped(calls)
    ensures Run(c, raw, x).1 == Expected(c.index, calls)
    ensures Run(c, raw, x).0.phase.Finished? && Run(c, raw, x).0.pos == q
    decreases |raw| - c.pos
  {
    hide IsAt, Run, ParseParams, ParseInvokes, MoveOf, SyntaxShape, Args, AllTyped, MembersStream;
    RunSkips(c, raw, x);
    var b := c.(pos := SkipSpace(raw, c.pos));
    if IsAt(raw, x.toolEnd, b.pos) {
      InvokesEnd(raw, x, c.pos);
      DoneMove(b, raw, x);
      RunOnce(b, raw, x);
      RunOnce(b.(phase := Finished, pos := b.pos + |x.toolEnd|), raw, x);
    } else {
      var v, next := InvokesStep(raw, x, c.pos, calls, q);
      InvokeStarts(raw, x, b.pos);
      InvokeMoveIs(b, raw, x, calls[0].name);
      RunOnce(b, raw, x);
      var m := Cfg(BetweenParams, v, c.index, true, true, c.isString);
      var d := ParamsRun(m, raw, x, calls[0].params, next);
      StreamIsBatch(d, raw, x, calls[1..], q);
      var begin, open, members := [Begin(c.index, calls[0].name)], Args(c.index, [BRACE_OPEN]), MembersStream(true, calls[0].params);
      ArgsAppend(c.index, [BRACE_OPEN], members);
      Assoc(begin + open, Args(c.index, members), Run(d, raw, x).1);
      Assoc(begin, open, Args(c.index, members));
    }
  }

  /** A parameter that the batch parser reads without a kind has a tag without the
      attribute, and there the stream fails. */
  lemma UntypedFails(c: Cfg, raw: Bytes, x: Syntax, param: Param, next: nat)
    requires c.phase.BetweenParams? && c.pos < |raw| && SyntaxShape(x) && !IsSpace(raw[c.pos]) && x.paramEnd != []
    requires ParseParam(raw, x, c.pos) == Some((param, next)) && !(param.kind.Some? && !param.nested)
    ensures TagFrom(raw, c.pos).Some? && Attr(TagFrom(raw, c.pos).value.0, STRING).None?
    ensures Run(c, raw, x) == (c.(phase := Failed), [])
  {
    hide Run, SyntaxShape, Attr, ParseParam, IsAt, MoveOf, TagFrom, STRING;
    KindOnTag(raw, x, c.pos, param, next);
    UntypedMove(c, raw, x);
    var d := c.(phase := Failed);
    StoppedWaits(d, raw, x);
    RunOnce(d, raw, x);
    RunOnce(c, raw, x);
    assert [] + Run(d, raw, x).1 == Run(d, raw, x).1;
  }

  lemma StoppedWaits(c: Cfg, raw: Bytes, x: Syntax)
    requires c.pos <= |raw| && !Active(c)
    ensures MoveOf(c, raw, x).Wait?
  {
  }

  lemma UntypedMove(c: Cfg, raw: Bytes, x: Syntax)
    requires c.phase.BetweenParams? && c.pos < |raw| && SyntaxShape(x) && !IsSpace(raw[c.pos])
    requires IsAt(raw, x.paramStart, c.pos) && TagFrom(raw, c.pos).Some? && Attr(TagFrom(raw, c.pos).value.0, STRING).None?
    ensures MoveOf(c, raw, x) == To(c.(phase := Failed), [])
  {
    hide IsAt, Unfinished, Args, ParamPrefix, SyntaxShape, Attr;
    TagsDiffer(x);
    BegunExcludes(raw, x.paramStart, x.invokeEnd, c.pos);
    FullIsFinished(raw, x.paramStart, c.pos);
  }

  /** The stream fails at the first parameter without a kind. */
  lemma {:induction false} ParamsFail(c: Cfg, raw: Bytes, x: Syntax, params: seq<Param>, q: nat)
    requires c.phase.BetweenParams? && c.argsOpen && c.pos <= |raw| && SyntaxShape(x) && x.paramEnd != []
    requires ParseParams(raw, x, c.pos) == Some((params, q)) && !AllTyped(params)
    ensures Run(c, raw, x).0.phase.Failed?
    decreases |raw| - c.pos
  {
    hide IsAt, Run, ParseParam, ParseParams, MoveOf, SyntaxShape, Args, MemberStream;
    RunSkips(c, raw, x);
    var b := c.(pos := SkipSpace(raw, c.pos));
    if IsAt(raw, x.invokeEnd, b.pos) {
      ParamsEnd(raw, x, c.pos);
    } else {
      var param, next := ParamsStep(raw, x, c.pos, params, q);
      ParamStarts(raw, x, b.pos);
      if param.kind.Some? && !param.nested {
        OthersUntyped(params);
        ParamRun(b, raw, x, param, next);
        ParamsFail(Cfg(BetweenParams, next, c.index, c.argsOpen, false, param.kind.value == TRUE), raw, x, params[1..], q);
      } else {
        UntypedFails(b, raw, x, param, next);
      }
    }
  }

  lemma OthersUntyped(params: seq<Param>)
    requires !AllTyped(params) && params != [] && params[0].kind.Some? && !params[0].nested
    ensures !AllTyped(params[1..])
  {
    var i :| 0 <= i < |params| && !(params[i].kind.Some? && !params[i].nested);
    assert params[1..][i - 1] == params[i];
  }

  /** Of a block that the batch parser accepts, the stream fails on exactly those with a
      parameter that does not say whether it is a string. */
  lemma {:induction false} StreamFinishesIffTyped(c: Cfg, raw: Bytes, x: Syntax, calls: seq<Invoke>, q: nat)
    requires c.phase.BetweenInvokes? && c.pos <= |raw| && SyntaxShape(x) && x.paramEnd != []
    requires ParseInvokes(raw, x, c.pos) == Some((calls, q))
    ensures Run(c, raw, x).0.phase.Finished? <==> CallsTyped(calls)
    ensures Run(c, raw, x).0.phase.Failed? <==> !CallsTyped(calls)
    decreases |raw| - c.pos
  {
    hide IsAt, Run, ParseParams, ParseInvokes, MoveOf, SyntaxShape, Args, AllTyped, MembersStream;
    if CallsTyped(calls) {
      StreamIsBatch(c, raw, x, calls, q);
    } else {
      RunSkips(c, raw, x);
      var b := c.(pos := SkipSpace(raw, c.pos));
      if IsAt(raw, x.toolEnd, b.pos) {
        InvokesEnd(raw, x, c.pos);
      } else {
        var v, next := InvokesStep(raw, x, c.pos, calls, q);
        InvokeStarts(raw, x, b.pos);
        InvokeMoveIs(b, raw, x, calls[0].name);
        RunOnce(b, raw, x);
        var m := Cfg(BetweenParams, v, c.index, true, true, c.isString);
        if AllTyped(calls[0].params) {
          var d := ParamsRun(m, raw, x, calls[0].params, next);
          LaterUntyped(calls);
          StreamFinishesIffTyped(d, raw, x, calls[1..], q);
        } else {
          ParamsFail(m, raw, x, calls[0].params, next);
        }
      }
    }
  }

  lemma LaterUntyped(calls: seq<Invoke>)
    requires !CallsTyped(calls) && calls != [] && AllTyped(calls[0].params)
    ensures !CallsTyped(calls[1..])
  {
    var i :| 0 <= i < |calls| && !AllTyped(calls[i].params);
    assert calls[1..][i - 1] == calls[i];
  }

  // The stream object

  /** One message to the client. */
  datatype Delta = CallStart(index: nat, name: Bytes) | ArgsDelta(index: nat, text: Bytes)

  /** What the client has assembled from the messages. */
  function Assembled(sent: seq<Delta>): seq<Event> {
    if sent == [] then []
    else
      var d := sent[|sent| - 1];
      Assembled(sent[..|sent| - 1])
      + match d case CallStart(i, name) => [Begin(i, name)] case ArgsDelta(i, text) => Args(i, text)
  }

  class ToolStream {
    const syntax: Syntax
    var phase: Phase
    var pos: nat
    var index: nat
    var argsOpen: bool
    var first: bool
    var isString: bool
    /** The messages sent so far. */
    var sent: seq<Delta>

    ghost function Now(): Cfg
      reads this
    {
      Cfg(phase, pos, index, argsOpen, first, isString)
    }

    /** Begin after the opening tag of a block. */
    constructor (syntax: Syntax, pos: nat)
      ensures this.syntax == syntax && Now() == Cfg(BetweenInvokes, pos, 0, false, false, false) && sent == []
    {
      this.syntax := syntax;
      phase, this.pos, index, argsOpen, first, isString, sent := BetweenInvokes, pos, 0, false, false, false, [];
    }

    method EmitArgs(text: Bytes)
      modifies this`sent
      ensures Assembled(sent) == old(Assembled(sent)) + Args(index, text)
    {
      if text == [] {
        return;
      }
      ghost var before := sent;
      sent := sent + [ArgsDelta(index, text)];
      assert sent[..|sent| - 1] == before;
    }

    method EmitValue(text: Bytes)
      modifies this`sent
      ensures Assembled(sent) == old(Assembled(sent)) + Args(index, ValueText(text, isString))
    {
      hide Escaped, Unescaped;
      if isString {
        EmitArgs(Escaped(Unescaped(text)));
      } else {
        EmitArgs(text);
      }
    }

    /** Make all moves the text allows. */
    method Drain(raw: Bytes)
      requires pos <= |raw| && SyntaxShape(syntax)
      modifies this
      ensures pos <= |raw| && Now() == Run(old(Now()), raw, syntax).0
      ensures Assembled(sent) == old(Assembled(sent)) + Run(old(Now()), raw, syntax).1
    {
      hide Run, MoveOf, SyntaxShape, Args, Assembled;
      EndsNotEmpty(syntax);
      ghost var c0, a0 := Now(), Assembled(sent);
      while true
        invariant pos <= |raw|
        invariant Run(c0, raw, syntax).0 == Run(Now(), raw, syntax).0
        invariant a0 + Run(c0, raw, syntax).1 == Assembled(sent) + Run(Now(), raw, syntax).1
        decreases |raw| - pos, Active(Now())
      {
        RunOnce(Now(), raw, syntax);
        ghost var c, a := Now(), Assembled(sent);
        ghost var m := MoveOf(c, raw, syntax);
        var moved := Advance(raw);
        if !moved {
          return;
        }
        Assoc(a, m.events, Run(m.next, raw, syntax).1);
      }
    }

    /** Take in the text so far: all finished markup, then the safe part of an
        unfinished value. */
    method Update(raw: Bytes)
      requires pos <= |raw| && SyntaxShape(syntax)
      modifies this
      ensures Now() == Updated(old(Now()), raw, syntax).0 && Live(Now(), raw, syntax)
      ensures Assembled(sent) == old(Assembled(sent)) + Updated(old(Now()), raw, syntax).1
    {
      hide Run, SyntaxShape, Args, Assembled, ValueText, ValueLimit, Live;
      UpdatedLives(Now(), raw, syntax);
      ghost var c0, a0 := Now(), Assembled(sent);
      Drain(raw);
      ghost var c := Now();
      if phase.ParamValue? && pos < |raw| {
        var limit := ComputeValueLimit(raw, pos, syntax.paramEnd, isString);
        EmitValue(raw[pos..limit]);
        pos := limit;
      }
      Assoc(a0, Run(c0, raw, syntax).1, Flushed(c, raw, syntax).1);
    }

    /** Make the next move, if the text allows one. */
    method Advance(raw: Bytes) returns (moved: bool)
      requires pos <= |raw| && SyntaxShape(syntax)
      modifies this
      ensures var m := MoveOf(old(Now()), raw, syntax);
              if m.Wait? then !moved && Now() == old(Now()) && sent == old(sent)
              else moved && Now() == m.next && Assembled(sent) == old(Assembled(sent)) + m.events
    {
      hide SyntaxShape, Assembled, InvokeMove, ParamMove, ValueMove;
      if pos >= |raw| {
        return false;
      }
      match phase {
        case BetweenInvokes => moved := AdvanceInvoke(raw);
        case BetweenParams => moved := AdvanceParam(raw);
        case ParamValue => moved := AdvanceValue(raw);
        case _ => moved := false;
      }
    }

    method AdvanceInvoke(raw: Bytes) returns (moved: bool)
      requires pos < |raw|
      modifies this
      ensures var m := InvokeMove(old(Now()), raw, syntax);
              if m.Wait? then !moved && Now() == old(Now()) && sent == old(sent)
              else moved && Now() == m.next && Assembled(sent) == old(Assembled(sent)) + m.events
    {
      hide IsAt, Unfinished, Attr, Args;
      if IsSpace(raw[pos]) {
        pos := pos + 1;
        return true;
      }
      if IsAt(raw, syntax.toolEnd, pos) {
        pos, phase := pos + |syntax.toolEnd|, Finished;
        return true;
      }
      if Unfinished(raw, syntax.toolEnd, pos) || Unfinished(raw, syntax.invokeStart, pos) {
        return false;
      }
      if !IsAt(raw, syntax.invokeStart, pos) {
        phase := Failed;
        return true;
      }
      var gt := FindFrom(raw, [GT], pos);
      if gt.None? {
        return false;
      }
      Within(raw, [GT], gt.value);
      var name := Attr(raw[pos..gt.value + 1], NAME);
      if name.None? {
        phase := Failed;
        return true;
      }
      ghost var before := sent;
      sent := sent + [CallStart(index, name.value)];
      assert sent[..|sent| - 1] == before;
      Assoc(Assembled(before), [Begin(index, name.value)], Args(index, [BRACE_OPEN]));
      EmitArgs([BRACE_OPEN]);
      argsOpen, first, pos, phase := true, true, gt.value + 1, BetweenParams;
      moved := true;
    }

    method AdvanceParam(raw: Bytes) returns (moved: bool)
      requires pos < |raw|
      modifies this
      ensures var m := ParamMove(old(Now()), raw, syntax);
              if m.Wait? then !moved && Now() == old(Now()) && sent == old(sent)
              else moved && Now() == m.next && Assembled(sent) == old(Assembled(sent)) + m.events
    {
      hide IsAt, Unfinished, Attr, Args, ParamPrefix, Assembled;
      if IsSpace(raw[pos]) {
        pos := pos + 1;
        return true;
      }
      if IsAt(raw, syntax.invokeEnd, pos) {
        EmitArgs(if argsOpen then [BRACE_CLOSE] else []);
        argsOpen, pos, index, phase := false, pos + |syntax.invokeEnd|, index + 1, BetweenInvokes;
        return true;
      }
      if Unfinished(raw, syntax.invokeEnd, pos) || Unfinished(raw, syntax.paramStart, pos) {
        return false;
      }
      if !IsAt(raw, syntax.paramStart, pos) {
        phase := Failed;
        return true;
      }
      var gt := FindFrom(raw, [GT], pos);
      if gt.None? {
        return false;
      }
      Within(raw, [GT], gt.value);
      var tag := raw[pos..gt.value + 1];
      var name, kind := Attr(tag, NAME), Attr(tag, STRING);
      if name.None? || kind.None? {
        phase := Failed;
        return true;
      }
      EmitArgs(ParamPrefix(first, name.value, kind.value == TRUE));
      first, isString, pos, phase := false, kind.value == TRUE, gt.value + 1, ParamValue;
      moved := true;
    }

    method AdvanceValue(raw: Bytes) returns (moved: bool)
      requires pos < |raw|
      modifies this
      ensures var m := ValueMove(old(Now()), raw, syntax);
              if m.Wait? then !moved && Now() == old(Now()) && sent == old(sent)
              else moved && Now() == m.next && Assembled(sent) == old(Assembled(sent)) + m.events
    {
      hide IsAt, Args, Assembled, ValueText;
      var end := FindFrom(raw, syntax.paramEnd, pos);
      if end.None? {
        return false;
      }
      Within(raw, syntax.paramEnd, end.value);
      ghost var a, text := Assembled(sent), ValueText(raw[pos..end.value], isString);
      ghost var quote: Bytes := if isString then [QUOTE] else [];
      EmitValue(raw[pos..end.value]);
      EmitArgs(if isString then [QUOTE] else []);
      ArgsAppend(index, text, quote);
      Assoc(a, Args(index, text), Args(index, quote));
      pos, phase := end.value + |syntax.paramEnd|, BetweenParams;
      moved := true;
    }
  }
}
