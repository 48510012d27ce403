/** The slow reference recognizer of the decoding state, and when the incremental
    tracker agrees with it. */
module DsmlRecognizer {
  import opened ByteStrings
  import opened Dsml
  import opened DsmlTracker

  /** The text ends in a proper prefix of `tag` of at least two bytes. */
  predicate EndsPartial(raw: Bytes, tag: Bytes) {
    exists i :: 0 <= i < |raw| && PartialAt(raw, tag, i)
  }

  /** Scan a JSON value to its closing tag outside strings, or to the end. */
  function ScanJson(raw: Bytes, pos: nat, inString: bool, escaped: bool, end: Bytes): Decode
    decreases |raw| - pos
  {
    if pos >= |raw| then
      if !inString && EndsPartial(raw, end) then InStructure
      else if inString then InJsonString else InJsonStructure
    else if !inString && IsAt(raw, end, pos) then InStructure
    else
      var n := JsonStep(Cfg(JsonParam, 0, pos, inString, escaped), raw[pos]);
      ScanJson(raw, pos + 1, n.inString, n.escaped, end)
  }

  /** Is position `k` inside a JSON string, when scanning begins at `pos`? */
  function InStringAt(raw: Bytes, pos: nat, inString: bool, escaped: bool, k: nat): bool
    requires pos <= k <= |raw|
    decreases k - pos
  {
    if pos == k then inString
    else
      var n := JsonStep(Cfg(JsonParam, 0, pos, inString, escaped), raw[pos]);
      InStringAt(raw, pos + 1, n.inString, n.escaped, k)
  }

  /** What the recognizer does at a place in the markup: report a state, go on at
      a later place, or read a parameter value. */
  datatype Action = Report(state: Decode) | GoOn(pos: nat) | ReadValue(value: nat, isString: bool)

  function ActionAt(raw: Bytes, x: Syntax, pos: nat): (a: Action)
    requires SyntaxShape(x) && pos <= |raw|
    ensures a.GoOn? ==> pos < a.pos <= |raw|
    ensures a.ReadValue? ==> pos < a.value <= |raw|
  {
    if pos >= |raw| then Report(InStructure)
    else if IsSpace(raw[pos]) then GoOn(pos + 1)
    else
      var gt := FindFrom(raw, [GT], pos);
      match TagAt(raw, x, pos)
      case ToolEnd => Report(Outside)
      case InvokeEnd => GoOn(pos + |x.invokeEnd|)
      case InvokeStart => if gt.None? then Report(InStructure) else GoOn(gt.value + 1)
      case NoTag => Report(InStructure)
      case ParamStart =>
        if gt.None? then Report(InStructure)
        else ReadValue(gt.value + 1, StringTag(raw[pos..gt.value + 1]))
  }

  /** From the markup at `pos` on. */
  function RecognizeFrom(raw: Bytes, x: Syntax, pos: nat): Decode
    requires SyntaxShape(x) && pos <= |raw|
    decreases |raw| - pos, 0
  {
    match ActionAt(raw, x, pos)
    case Report(state) => state
    case GoOn(next) => RecognizeFrom(raw, x, next)
    case ReadValue(value, isString) => RecognizeValue(raw, x, value, isString)
  }

  /** From the parameter value at `value` on. */
  function RecognizeValue(raw: Bytes, x: Syntax, value: nat, isString: bool): Decode
    requires SyntaxShape(x) && value <= |raw|
    decreases |raw| - value, 1
  {
    var end := FindFrom(raw, x.paramEnd, value);
    if isString then
      if end.None? then (if EndsPartial(raw, x.paramEnd) then InStructure else InStringBody)
      else RecognizeFrom(raw, x, end.value + |x.paramEnd|)
    else
      var json := ScanJson(raw, value, false, false, x.paramEnd);
      if json != InStructure || end.None? then json
      else RecognizeFrom(raw, x, end.value + |x.paramEnd|)
  }

  /** The decoding state of a whole text. */
  function Recognize(raw: Bytes): Decode {
    if raw == [] then Outside
    else
      var f := FirstStart(raw, 0, |SYNTAXES|);
      if f.None? then Outside
      else
        SyntaxesShape(f.value.1);
        RecognizeFrom(raw, SYNTAXES[f.value.1], f.value.0 + |SYNTAXES[f.value.1].toolStart|)
  }

  /** No JSON value that is closed has a closing tag inside a string before. */
  predicate CleanFrom(raw: Bytes, x: Syntax, pos: nat)
    requires SyntaxShape(x) && pos <= |raw|
    decreases |raw| - pos, 0
  {
    match ActionAt(raw, x, pos)
    case Report(_) => true
    case GoOn(next) => CleanFrom(raw, x, next)
    case ReadValue(value, isString) => CleanValue(raw, x, value, isString)
  }

  predicate CleanValue(raw: Bytes, x: Syntax, value: nat, isString: bool)
    requires SyntaxShape(x) && value <= |raw|
    decreases |raw| - value, 1
  {
    var end := FindFrom(raw, x.paramEnd, value);
    if end.None? then true
    else if isString then CleanFrom(raw, x, end.value + |x.paramEnd|)
    else
      ScanJson(raw, value, false, false, x.paramEnd) == InStructure ==>
        !InStringAt(raw, value, false, false, end.value) && CleanFrom(raw, x, end.value + |x.paramEnd|)
  }

  predicate Clean(raw: Bytes) {
    var f := FirstStart(raw, 0, |SYNTAXES|);
    if f.None? then true
    else
      SyntaxesShape(f.value.1);
      CleanFrom(raw, SYNTAXES[f.value.1], f.value.0 + |SYNTAXES[f.value.1].toolStart|)
  }

  /** No unfinished closing tag can begin before a `>`. */
  lemma NoPartialBefore(raw: Bytes, t: Bytes, v: nat)
    requires EndShape(t) && 0 < v <= |raw| && raw[v - 1] == GT
    ensures forall i :: 0 <= i < v ==> !PartialAt(raw, t, i)
  {
    forall i | 0 <= i < v
      ensures !PartialAt(raw, t, i)
    {
      hide PartialAt;
      if PartialAt(raw, t, i) {
        PartialByte(raw, t, i, v - 1);
      }
    }
  }

  /** With a closing tag still to come nothing before it is unfinished. */
  lemma NoPartialBeforeTag(raw: Bytes, t: Bytes, i: nat, e: nat)
    requires EndShape(t) && i < e && IsAt(raw, t, e)
    ensures !PartialAt(raw, t, i)
  {
    hide IsAt, PartialAt;
    ByteAt(raw, t, e, 0);
    if PartialAt(raw, t, i) {
      PartialByte(raw, t, i, e);
    }
  }

  lemma {:induction false} StringRun(c: Cfg, raw: Bytes, t: Bytes)
    requires InText(c, raw) && c.mode == StringBody && t == SYNTAXES[c.syn].paramEnd && EndShape(t)
    requires forall i :: 0 <= i < c.pos ==> !PartialAt(raw, t, i)
    ensures var end := FindFrom(raw, t, c.pos);
            if end.Some? then
              Run(c, raw) == Run(Cfg(Structural, c.syn, end.value + |t|, c.inString, c.escaped), raw)
            else DecodeOf(Run(c, raw), raw) == if EndsPartial(raw, t) then InStructure else InStringBody
    decreases |raw| - c.pos
  {
    hide SYNTAXES, Step, Run, PartialAt, IsAt;
    if c.pos == |raw| {
      AtEnd(c, raw);
      RunStops(c, raw);
    } else {
      BodyStepIs(c, raw, SYNTAXES[c.syn]);
      if IsAt(raw, t, c.pos) {
        RunMoves(c, raw);
        FoundAt(raw, t, c.pos, c.pos);
      } else if PartialAt(raw, t, c.pos) {
        RunStops(c, raw);
        var end := FindFrom(raw, t, c.pos);
        if end.Some? {
          NoPartialBeforeTag(raw, t, c.pos, end.value);
        }
      } else {
        RunMoves(c, raw);
        StringRun(Step(c, raw).value, raw, t);
        FindNext(raw, t, c.pos);
      }
    }
  }

  lemma FindNext(raw: Bytes, t: Bytes, i: nat)
    requires !IsAt(raw, t, i)
    ensures FindFrom(raw, t, i) == FindFrom(raw, t, i + 1)
  {
  }

  /** A JSON value up to a closing tag outside strings. */
  lemma {:induction false} JsonRunCloses(c: Cfg, raw: Bytes, t: Bytes, e: nat) returns (esc: bool)
    requires InText(c, raw) && c.mode == JsonParam && t == SYNTAXES[c.syn].paramEnd && EndShape(t)
    requires c.pos <= e && IsAt(raw, t, e) && forall k :: c.pos <= k < e ==> !IsAt(raw, t, k)
    requires !InStringAt(raw, c.pos, c.inString, c.escaped, e)
    ensures Run(c, raw) == Run(Cfg(Structural, c.syn, e + |t|, false, esc), raw)
    decreases e - c.pos
  {
    hide SYNTAXES, Step, Run, PartialAt;
    BodyStepIs(c, raw, SYNTAXES[c.syn]);
    RunMovesIf(c, raw);
    if c.pos < e {
      NoPartialBeforeTag(raw, t, c.pos, e);
      JsonStepPos(c, raw[c.pos]);
      esc := JsonRunCloses(JsonStep(c, raw[c.pos]), raw, t, e);
    } else {
      esc := c.escaped;
    }
  }

  lemma RunMovesIf(c: Cfg, raw: Bytes)
    requires InText(c, raw)
    ensures Step(c, raw).Some? ==> Run(c, raw) == Run(Step(c, raw).value, raw)
  {
  }

  /** Inside an unfinished closing tag nothing is quoted and no tag starts. */
  lemma InPartial(raw: Bytes, t: Bytes, i: nat, k: nat)
    requires EndShape(t) && PartialAt(raw, t, i) && i <= k < |raw|
    ensures raw[k] != QUOTE && (i < k ==> raw[k] != LT) && !IsAt(raw, t, k)
  {
    hide IsAt, PartialAt;
    PartialByte(raw, t, i, k);
    if IsAt(raw, t, k) {
      ByteAt(raw, t, k, |t| - 1);
    }
  }

  lemma {:induction false} ScanQuiet(raw: Bytes, t: Bytes, i: nat, k: nat, escaped: bool)
    requires EndShape(t) && PartialAt(raw, t, i) && i <= k <= |raw|
    ensures ScanJson(raw, k, false, escaped, t) == InStructure
    decreases |raw| - k
  {
    if k < |raw| {
      InPartial(raw, t, i, k);
      ScanQuiet(raw, t, i, k + 1, escaped);
    }
  }

  /** A JSON value that no closing tag outside strings ends. */
  lemma {:induction false} JsonRunOpen(c: Cfg, raw: Bytes, t: Bytes)
    requires InText(c, raw) && c.mode == JsonParam && t == SYNTAXES[c.syn].paramEnd && EndShape(t)
    requires forall i :: 0 <= i < c.pos && PartialAt(raw, t, i) ==> c.inString
    requires ScanJson(raw, c.pos, c.inString, c.escaped, t) != InStructure || FindFrom(raw, t, c.pos).None?
    ensures DecodeOf(Run(c, raw), raw) == ScanJson(raw, c.pos, c.inString, c.escaped, t)
    decreases |raw| - c.pos
  {
    hide SYNTAXES, Step, Run, PartialAt;
    if c.pos == |raw| {
      AtEnd(c, raw);
      RunStops(c, raw);
    } else {
      BodyStepIs(c, raw, SYNTAXES[c.syn]);
      if !c.inString && PartialAt(raw, t, c.pos) {
        InPartial(raw, t, c.pos, c.pos);
        RunStops(c, raw);
        ScanQuiet(raw, t, c.pos, c.pos, c.escaped);
      } else {
        RunMovesIf(c, raw);
        var d := JsonStep(c, raw[c.pos]);
        assert Step(c, raw) == Some(d);
        JsonStepPos(c, raw[c.pos]);
        forall i | 0 <= i < d.pos && PartialAt(raw, t, i)
          ensures d.inString
        {
          InPartial(raw, t, i, c.pos);
        }
        FindOneOn(raw, t, c.pos);
        JsonRunOpen(d, raw, t);
      }
    }
  }

  /** The state of a JSON scan does not depend on where it is. */
  lemma JsonStepPos(c: Cfg, b: Byte)
    ensures var n := JsonStep(Cfg(JsonParam, 0, c.pos, c.inString, c.escaped), b);
            JsonStep(c, b) == Cfg(c.mode, c.syn, c.pos + 1, n.inString, n.escaped)
  {
  }

  lemma FindOneOn(raw: Bytes, t: Bytes, i: nat)
    ensures FindFrom(raw, t, i).None? ==> FindFrom(raw, t, i + 1).None? && !IsAt(raw, t, i)
  {
  }

  /** The recognizer acts on the tracker's moves in the markup. */
  lemma ActionIsMove(c: Cfg, raw: Bytes, x: Syntax)
    requires c.mode == Structural && c.pos < |raw| && SyntaxShape(x)
    ensures var a, s := ActionAt(raw, x, c.pos), StructuralStep(c, raw, x);
            if s.None? then a == Report(InStructure)
            else
              var d := s.value;
              match d.mode
              case Structural => a == GoOn(d.pos)
              case Done => a == Report(Outside)
              case _ =>
                && a == ReadValue(d.pos, d.mode == StringBody)
                && d.mode != Search && 0 < d.pos && IsAt(raw, [GT], d.pos - 1) && (d.mode == JsonParam ==> !d.inString && !d.escaped)
  {
    hide TagAt, StringTag;
  }

  lemma ActionAtEnd(raw: Bytes, x: Syntax)
    requires SyntaxShape(x)
    ensures ActionAt(raw, x, |raw|) == Report(InStructure)
  {
  }

  /** From any place in the markup tracker and recognizer agree on a clean text. */
  lemma {:induction false} AgreeFrom(c: Cfg, raw: Bytes, x: Syntax)
    requires InText(c, raw) && c.mode == Structural && x == SYNTAXES[c.syn] && SyntaxShape(x)
    requires CleanFrom(raw, x, c.pos)
    ensures RecognizeFrom(raw, x, c.pos) == DecodeOf(Run(c, raw), raw)
    decreases |raw| - c.pos, 0
  {
    hide SYNTAXES, Step, Run, SyntaxShape, RecognizeValue, CleanValue, ActionAt, StructuralStep, IsAt;
    if c.pos == |raw| {
      AtEnd(c, raw);
      RunStops(c, raw);
      ActionAtEnd(raw, x);
      return;
    }
    StructuralStepIs(c, raw, x);
    RunMovesIf(c, raw);
    ActionIsMove(c, raw, x);
    if Step(c, raw).None? {
      RunStops(c, raw);
      return;
    }
    var d := Step(c, raw).value;
    if d.mode == Structural {
      AgreeFrom(d, raw, x);
    } else if d.mode == Done {
      DoneWaits(d, raw);
      RunStops(d, raw);
    } else {
      ByteAt(raw, [GT], d.pos - 1, 0);
      AgreeInBody(d, raw, x);
    }
  }

  lemma {:induction false} AgreeInBody(d: Cfg, raw: Bytes, x: Syntax)
    requires InText(d, raw) && (d.mode == StringBody || d.mode == JsonParam) && x == SYNTAXES[d.syn] && SyntaxShape(x)
    requires 0 < d.pos && raw[d.pos - 1] == GT && (d.mode == JsonParam ==> !d.inString && !d.escaped)
    requires CleanValue(raw, x, d.pos, d.mode == StringBody)
    ensures RecognizeValue(raw, x, d.pos, d.mode == StringBody) == DecodeOf(Run(d, raw), raw)
    decreases |raw| - d.pos, 1
  {
    hide SYNTAXES, Step, Run, SyntaxShape, RecognizeFrom, CleanFrom;
    var t, end := x.paramEnd, FindFrom(raw, x.paramEnd, d.pos);
    ParamEndShape(x);
    NoPartialBefore(raw, t, d.pos);
    if d.mode == StringBody {
      StringRun(d, raw, t);
      if end.Some? {
        AgreeFrom(Cfg(Structural, d.syn, end.value + |t|, d.inString, d.escaped), raw, x);
      }
    } else if ScanJson(raw, d.pos, false, false, t) == InStructure && end.Some? {
      var esc := JsonRunCloses(d, raw, t, end.value);
      AgreeFrom(Cfg(Structural, d.syn, end.value + |t|, false, esc), raw, x);
    } else {
      JsonRunOpen(d, raw, t);
    }
  }

  lemma StartInText(raw: Bytes)
    ensures InText(START, raw)
  {
  }

  /** On a clean text the tracker's state is the reference recognizer's. */
  lemma TrackerAgrees(raw: Bytes)
    requires Clean(raw)
    ensures DecodeOf(Run(START, raw), raw) == Recognize(raw)
  {
    StartInText(raw);
    hide SYNTAXES, SyntaxShape, Step, Run, RecognizeFrom, CleanFrom, FirstStart;
    SearchingStep(START, raw);
    RunMovesIf(START, raw);
    var f := FirstStart(raw, 0, |SYNTAXES|);
    if f.None? {
      RunStops(START, raw);
    } else {
      SyntaxesShape(f.value.1);
      AgreeFrom(SearchStep(START, raw).value, raw, SYNTAXES[f.value.1]);
    }
  }
}
