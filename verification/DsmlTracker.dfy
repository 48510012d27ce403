/** Where generation is inside a tool call: the tracker that decides how the next
    token is sampled, and its independence of how the text is cut. */
module DsmlTracker {
  import opened ByteStrings
  import opened Dsml

  datatype Mode = Search | Structural | StringBody | JsonParam | Done

  datatype Decode = Outside | InStructure | InStringBody | InJsonStructure | InJsonString

  /** A position in the text and what is being read there. */
  datatype Cfg = Cfg(mode: Mode, syn: nat, pos: nat, inString: bool, escaped: bool)

  const START := Cfg(Search, 0, 0, false, false)

  ghost predicate InText(c: Cfg, raw: Bytes) {
    c.pos <= |raw| && c.syn < |SYNTAXES|
  }

  /** The rest of the text is a proper prefix of `tag` of at least two bytes. */
  predicate PartialAt(raw: Bytes, tag: Bytes, pos: nat) {
    pos + 2 <= |raw| < pos + |tag| && raw[pos..] == tag[..|raw| - pos]
  }

  /** The first opening tag of one of the first `k` syntaxes. */
  function FirstStart(raw: Bytes, from: nat, k: nat): (r: Option<(nat, nat)>)
    requires k <= |SYNTAXES|
    ensures r.Some? ==> r.value.1 < k && from <= r.value.0 && IsAt(raw, SYNTAXES[r.value.1].toolStart, r.value.0)
    ensures r.Some? ==> forall j, p :: 0 <= j < k && from <= p < r.value.0 ==> !IsAt(raw, SYNTAXES[j].toolStart, p)
    ensures r.None? ==> forall j, p :: 0 <= j < k && from <= p ==> !IsAt(raw, SYNTAXES[j].toolStart, p)
  {
    if k == 0 then None
    else
      var best, p := FirstStart(raw, from, k - 1), FindFrom(raw, SYNTAXES[k - 1].toolStart, from);
      if p.Some? && (best.None? || p.value < best.value.0) then Some((p.value, k - 1)) else best
  }

  function JsonStep(c: Cfg, b: Byte): Cfg {
    if c.inString then
      if c.escaped then c.(pos := c.pos + 1, escaped := false)
      else if b == BACKSLASH then c.(pos := c.pos + 1, escaped := true)
      else if b == QUOTE then c.(pos := c.pos + 1, inString := false)
      else c.(pos := c.pos + 1)
    else c.(pos := c.pos + 1, inString := b == QUOTE)
  }

  /** Is the parameter whose tag is `tag` a string? */
  predicate StringTag(tag: Bytes) {
    Attr(tag, STRING) == Some(TRUE)
  }

  datatype Tag = ToolEnd | InvokeEnd | InvokeStart | ParamStart | NoTag

  /** The structural tag that stands at a position. */
  function TagAt(raw: Bytes, x: Syntax, pos: nat): Tag {
    if IsAt(raw, x.toolEnd, pos) then ToolEnd
    else if IsAt(raw, x.invokeEnd, pos) then InvokeEnd
    else if IsAt(raw, x.invokeStart, pos) then InvokeStart
    else if IsAt(raw, x.paramStart, pos) then ParamStart
    else NoTag
  }

  function SearchStep(c: Cfg, raw: Bytes): (r: Option<Cfg>)
    requires InText(c, raw)
    ensures r.Some? ==> InText(r.value, raw) && c.pos < r.value.pos && r.value.mode == Structural
  {
    var f := FirstStart(raw, c.pos, |SYNTAXES|);
    if f.None? then None
    else
      SyntaxesShape(f.value.1);
      Some(Cfg(Structural, f.value.1, f.value.0 + |SYNTAXES[f.value.1].toolStart|, c.inString, c.escaped))
  }

  /** In a parameter body: close it, wait for the rest of a closing tag, or take
      one byte. */
  function BodyStep(c: Cfg, raw: Bytes, x: Syntax): (r: Option<Cfg>)
    requires c.pos < |raw|
    ensures r.Some? ==> r.value.syn == c.syn && r.value.pos <= |raw| && (x.paramEnd != [] ==> c.pos < r.value.pos)
  {
    if OpenBody(c) && IsAt(raw, x.paramEnd, c.pos) then Some(c.(mode := Structural, pos := c.pos + |x.paramEnd|))
    else if OpenBody(c) && PartialAt(raw, x.paramEnd, c.pos) then None
    else if c.mode == StringBody then Some(c.(pos := c.pos + 1))
    else Some(JsonStep(c, raw[c.pos]))
  }

  function StructuralStep(c: Cfg, raw: Bytes, x: Syntax): (r: Option<Cfg>)
    requires c.pos < |raw|
    ensures r.Some? ==> r.value.syn == c.syn && r.value.pos <= |raw| && (x.toolEnd != [] && x.invokeEnd != [] ==> c.pos < r.value.pos)
  {
    if IsSpace(raw[c.pos]) then Some(c.(pos := c.pos + 1))
    else
      var gt := FindFrom(raw, [GT], c.pos);
      match TagAt(raw, x, c.pos)
      case ToolEnd => Some(c.(mode := Done, pos := c.pos + |x.toolEnd|))
      case InvokeEnd => Some(c.(pos := c.pos + |x.invokeEnd|))
      case InvokeStart => if gt.None? then None else Some(c.(pos := gt.value + 1))
      case ParamStart =>
        if gt.None? then None
        else if StringTag(raw[c.pos..gt.value + 1]) then Some(c.(mode := StringBody, pos := gt.value + 1))
        else Some(Cfg(JsonParam, c.syn, gt.value + 1, false, false))
      case NoTag => None
  }

  predicate OpenBody(c: Cfg) {
    c.mode == StringBody || (c.mode == JsonParam && !c.inString)
  }

  /** One move of the tracker, or none when it has to wait for more text. */
  function Step(c: Cfg, raw: Bytes): (r: Option<Cfg>)
    requires InText(c, raw)
    ensures r.Some? ==> InText(r.value, raw) && c.pos < r.value.pos
  {
    SyntaxesShape(c.syn);
    if c.mode == Search then SearchStep(c, raw)
    else if c.mode == Done || c.pos >= |raw| then None
    else if c.mode == Structural then StructuralStep(c, raw, SYNTAXES[c.syn])
    else BodyStep(c, raw, SYNTAXES[c.syn])
  }

  /** All moves the text allows. */
  function Run(c: Cfg, raw: Bytes): (r: Cfg)
    requires InText(c, raw)
    ensures InText(r, raw) && Step(r, raw).None? && c.pos <= r.pos
    decreases |raw| - c.pos
  {
    var n := Step(c, raw);
    if n.None? then c else Run(n.value, raw)
  }

  /** A fruitless search resumes just before a tag could have begun. */
  function Park(n: nat): nat {
    if n > MAX_START then n - MAX_START else 0
  }

  function Parked(c: Cfg, n: nat): Cfg {
    if c.mode == Search then c.(pos := Park(n)) else c
  }

  function DecodeOf(c: Cfg, raw: Bytes): Decode {
    match c.mode
    case Search => Outside
    case Done => Outside
    case Structural => InStructure
    case StringBody => if c.pos < |raw| then InStructure else InStringBody
    case JsonParam =>
      if c.pos < |raw| then InStructure else if c.inString then InJsonString else InJsonStructure
  }

  /** One update with the text so far. */
  function Updated(c: Cfg, raw: Bytes): (r: Cfg)
    requires InText(c, raw)
    ensures InText(r, raw)
  {
    Parked(Run(c, raw), |raw|)
  }

  function Track(raw: Bytes): (r: Cfg)
    ensures InText(r, raw)
  {
    Updated(START, raw)
  }

  /** An unfinished closing tag is unfinished in every shorter text. */
  lemma PartialShrinks(p: Bytes, raw: Bytes, t: Bytes, i: nat)
    requires p <= raw && i + 2 <= |p| && (PartialAt(raw, t, i) || IsAt(raw, t, i)) && |p| < i + |t|
    ensures PartialAt(p, t, i)
  {
    if IsAt(raw, t, i) {
      assert p[i..] == raw[i..i + |t|][..|p| - i];
    } else {
      assert p[i..] == raw[i..][..|p| - i];
      assert p[i..] == t[..|raw| - i][..|p| - i];
    }
  }

  lemma PartialByte(raw: Bytes, t: Bytes, i: nat, k: nat)
    requires PartialAt(raw, t, i) && i <= k < |raw|
    ensures k - i + 1 < |t| && raw[k] == t[k - i] && |raw| < i + |t|
  {
    assert raw[i..][k - i] == raw[k];
  }

  // Cutting the text

  /** The move passes over a final `<`, which more text could turn into a tag. */
  predicate PassesLt(c: Cfg, p: Bytes) {
    OpenBody(c) && c.pos + 1 == |p| && p[c.pos] == LT
  }

  lemma BodyMoveStable(c: Cfg, p: Bytes, raw: Bytes, x: Syntax)
    requires c.pos < |p| && p <= raw && BodyStep(c, p, x).Some? && EndShape(x.paramEnd)
    requires OpenBody(c) ==> !PassesLt(c, p)
    ensures BodyStep(c, raw, x) == BodyStep(c, p, x)
  {
    var t := x.paramEnd;
    assert raw[c.pos] == p[c.pos];
    if OpenBody(c) {
      if IsAt(p, t, c.pos) {
        IsAtExtends(p, raw, t, c.pos);
      } else {
        NoTagYet(p, raw, t, c.pos);
      }
    }
  }

  lemma NoTagYet(p: Bytes, raw: Bytes, t: Bytes, i: nat)
    requires i < |p| && p <= raw && !IsAt(p, t, i) && !PartialAt(p, t, i) && TagShape(t)
    requires i + 1 == |p| ==> p[i] != LT
    ensures !IsAt(raw, t, i) && !PartialAt(raw, t, i)
  {
    if IsAt(raw, t, i) || PartialAt(raw, t, i) {
      FirstByte(raw, t, i);
      if IsAt(raw, t, i) && i + |t| <= |p| {
        IsAtShrinks(p, raw, t, i);
      } else if i + 2 <= |p| {
        PartialShrinks(p, raw, t, i);
      }
    }
  }

  lemma FirstByte(raw: Bytes, t: Bytes, i: nat)
    requires TagShape(t) && (IsAt(raw, t, i) || PartialAt(raw, t, i))
    ensures raw[i] == LT
  {
    if IsAt(raw, t, i) {
      assert raw[i..i + |t|][0] == raw[i];
    } else {
      assert raw[i..][0] == t[..|raw| - i][0];
    }
  }

  lemma SearchMoveStable(c: Cfg, p: Bytes, raw: Bytes)
    requires InText(c, p) && p <= raw && SearchStep(c, p).Some?
    ensures SearchStep(c, raw) == SearchStep(c, p)
  {
    hide SYNTAXES, IsAt, Differ, TagShape, EndShape;
    var f := FirstStart(p, c.pos, |SYNTAXES|).value;
    FirstStartIs(raw, c.pos, f.0, f.1) by {
      SyntaxesShape(f.1);
      IsAtExtends(p, raw, SYNTAXES[f.1].toolStart, f.0);
      forall j: nat, q: nat | j < |SYNTAXES| && c.pos <= q < f.0
        ensures !IsAt(raw, SYNTAXES[j].toolStart, q)
      {
        SyntaxesShape(j);
        if IsAt(raw, SYNTAXES[j].toolStart, q) {
          NoTagInside(raw, SYNTAXES[j].toolStart, SYNTAXES[f.1].toolStart, q, f.0);
          IsAtShrinks(p, raw, SYNTAXES[j].toolStart, q);
        }
      }
    }
  }

  /** What determines the first opening tag. */
  lemma FirstStartIs(raw: Bytes, from: nat, i: nat, k: nat)
    requires k < |SYNTAXES| && from <= i && IsAt(raw, SYNTAXES[k].toolStart, i)
    requires forall j: nat, q: nat :: j < |SYNTAXES| && from <= q < i ==> !IsAt(raw, SYNTAXES[j].toolStart, q)
    ensures FirstStart(raw, from, |SYNTAXES|) == Some((i, k))
  {
    var f := FirstStart(raw, from, |SYNTAXES|);
    assert f.Some? && f.value.0 == i;
    if f.value.1 != k {
      StartsDiffer(f.value.1, k);
      TagsExclude(raw, SYNTAXES[f.value.1].toolStart, SYNTAXES[k].toolStart, i);
    }
  }

  lemma TagStable(p: Bytes, raw: Bytes, x: Syntax, i: nat)
    requires p <= raw && SyntaxShape(x) && TagAt(p, x, i) != NoTag
    ensures TagAt(raw, x, i) == TagAt(p, x, i)
  {
    hide IsAt;
    match TagAt(p, x, i) {
      case ToolEnd =>
        IsAtExtends(p, raw, x.toolEnd, i);
      case InvokeEnd =>
        IsAtExtends(p, raw, x.invokeEnd, i);
        TagsExcludeBack(raw, x.toolEnd, x.invokeEnd, i);
      case InvokeStart =>
        IsAtExtends(p, raw, x.invokeStart, i);
        TagsExcludeBack(raw, x.toolEnd, x.invokeStart, i);
        TagsExcludeBack(raw, x.invokeEnd, x.invokeStart, i);
      case ParamStart =>
        IsAtExtends(p, raw, x.paramStart, i);
        TagsExcludeBack(raw, x.toolEnd, x.paramStart, i);
        TagsExcludeBack(raw, x.invokeEnd, x.paramStart, i);
        TagsExcludeBack(raw, x.invokeStart, x.paramStart, i);
    }
  }

  lemma StructuralMoveStable(c: Cfg, p: Bytes, raw: Bytes, x: Syntax)
    requires c.pos < |p| && p <= raw && SyntaxShape(x) && StructuralStep(c, p, x).Some?
    ensures StructuralStep(c, raw, x) == StructuralStep(c, p, x)
  {
    hide TagAt, StringTag, IsAt, SyntaxShape;
    assert raw[c.pos] == p[c.pos];
    if !IsSpace(p[c.pos]) {
      TagStable(p, raw, x, c.pos);
      if TagAt(p, x, c.pos) == InvokeStart || TagAt(p, x, c.pos) == ParamStart {
        FindExtends(p, raw, [GT], c.pos);
        var gt := FindFrom(p, [GT], c.pos).value;
        SliceExtends(p, raw, c.pos, gt);
      }
    }
  }

  /** A move does not depend on what follows the text it was made on, unless it
      passes over a final `<` in a body. */
  lemma MoveStable(c: Cfg, p: Bytes, raw: Bytes)
    requires InText(c, p) && p <= raw && Step(c, p).Some? && !PassesLt(c, p)
    ensures InText(c, raw) && Step(c, raw) == Step(c, p)
  {
    SyntaxesShape(c.syn);
    hide SYNTAXES, SearchStep, StructuralStep, BodyStep, SyntaxShape;
    if c.mode == Search {
      SearchMoveStable(c, p, raw);
    } else if c.mode == Structural {
      StructuralMoveStable(c, p, raw, SYNTAXES[c.syn]);
    } else {
      ParamEndShape(SYNTAXES[c.syn]);
      BodyMoveStable(c, p, raw, SYNTAXES[c.syn]);
    }
  }

  lemma ParamEndShape(x: Syntax)
    requires SyntaxShape(x)
    ensures EndShape(x.paramEnd)
  {
  }

  /** The tracker stopped in a body right after a `<`. */
  predicate Exposed(c: Cfg, p: Bytes) {
    OpenBody(c) && c.pos == |p| && p != [] && p[|p| - 1] == LT
  }

  lemma PassingExposes(c: Cfg, p: Bytes)
    requires InText(c, p) && Step(c, p).Some? && PassesLt(c, p)
    ensures Exposed(Step(c, p).value, p) && Run(c, p) == Step(c, p).value
  {
    SyntaxesShape(c.syn);
    hide SYNTAXES, Run, BodyStep, SyntaxShape;
    ParamEndShape(SYNTAXES[c.syn]);
    PassingStep(c, p, SYNTAXES[c.syn]);
    RunMoves(c, p);
    RunStops(Step(c, p).value, p);
  }

  lemma PassingStep(c: Cfg, p: Bytes, x: Syntax)
    requires c.pos < |p| && PassesLt(c, p) && EndShape(x.paramEnd)
    ensures BodyStep(c, p, x) == Some(c.(pos := c.pos + 1))
  {
  }

  lemma RunStops(c: Cfg, raw: Bytes)
    requires InText(c, raw) && Step(c, raw).None?
    ensures Run(c, raw) == c
  {
  }

  lemma RunMoves(c: Cfg, raw: Bytes)
    requires InText(c, raw) && Step(c, raw).Some?
    ensures Run(c, raw) == Run(Step(c, raw).value, raw)
  {
  }

  lemma {:induction false} RunStable(c: Cfg, p: Bytes, raw: Bytes)
    requires InText(c, p) && p <= raw && !Exposed(Run(c, p), p)
    ensures InText(c, raw) && Run(Run(c, p), raw) == Run(c, raw)
    decreases |p| - c.pos
  {
    hide SYNTAXES, Step;
    if Step(c, p).Some? {
      if PassesLt(c, p) {
        PassingExposes(c, p);
      }
      MoveStable(c, p, raw);
      RunStable(Step(c, p).value, p, raw);
    }
  }

  /** Nothing found in `p` begins before the parked position. */
  lemma NoStartBefore(p: Bytes, raw: Bytes, from: nat, j: nat, q: nat)
    requires p <= raw && from <= q < Park(|p|) && FirstStart(p, from, |SYNTAXES|).None? && j < |SYNTAXES|
    ensures !IsAt(raw, SYNTAXES[j].toolStart, q)
  {
    SyntaxesShape(j);
    if IsAt(raw, SYNTAXES[j].toolStart, q) {
      IsAtShrinks(p, raw, SYNTAXES[j].toolStart, q);
      NotBefore(p, from, q, j);
    }
  }

  lemma SameFirstStart(raw: Bytes, a: nat, b: nat)
    requires a <= b && forall j: nat, q: nat :: j < |SYNTAXES| && a <= q < b ==> !IsAt(raw, SYNTAXES[j].toolStart, q)
    ensures FirstStart(raw, a, |SYNTAXES|) == FirstStart(raw, b, |SYNTAXES|)
  {
    hide SYNTAXES, IsAt;
    var f, g := FirstStart(raw, a, |SYNTAXES|), FirstStart(raw, b, |SYNTAXES|);
    if g.Some? {
      FirstStartIs(raw, a, g.value.0, g.value.1);
    }
  }

  lemma ParkingLosesNothing(c: Cfg, p: Bytes, raw: Bytes)
    requires InText(c, p) && p <= raw && c.pos <= Park(|p|) && SearchStep(c, p).None?
    ensures InText(c, raw) && SearchStep(Cfg(c.mode, c.syn, Park(|p|), c.inString, c.escaped), raw) == SearchStep(c, raw)
  {
    hide SYNTAXES, IsAt;
    forall j: nat, q: nat | j < |SYNTAXES| && c.pos <= q < Park(|p|)
      ensures !IsAt(raw, SYNTAXES[j].toolStart, q)
    {
      NoStartBefore(p, raw, c.pos, j, q);
    }
    SameFirstStart(raw, c.pos, Park(|p|));
  }

  lemma NotBefore(raw: Bytes, from: nat, i: nat, k: nat)
    requires FirstStart(raw, from, |SYNTAXES|).None? && k < |SYNTAXES| && IsAt(raw, SYNTAXES[k].toolStart, i)
    ensures i < from
  {
  }

  lemma {:induction false} RunSearch(c: Cfg, raw: Bytes)
    requires InText(c, raw) && Run(c, raw).mode == Search
    ensures Run(c, raw) == c
    decreases |raw| - c.pos
  {
    hide SYNTAXES;
    if Step(c, raw).Some? {
      RunSearch(Step(c, raw).value, raw);
    }
  }

  /** A cut after `p` does no harm: the tracker is not in a body right after a `<`. */
  predicate SafeCut(p: Bytes) {
    !Exposed(Run(START, p), p)
  }

  /** Updating with a prefix and then with the whole text is updating with the
      whole text. */
  lemma CutOnce(p: Bytes, raw: Bytes)
    requires p <= raw && SafeCut(p)
    ensures Updated(Track(p), raw) == Track(raw)
  {
    hide SYNTAXES, SearchStep, Step;
    RunStable(START, p, raw);
    var c := Run(START, p);
    if c.mode == Search {
      RunSearch(START, p);
      SearchingStep(START, p);
      SearchingStep(START, raw);
      ParkingLosesNothing(START, p, raw);
      var d := Cfg(Search, 0, Park(|p|), false, false);
      SearchingStep(d, raw);
      if SearchStep(START, raw).None? {
        RunStops(START, raw);
        RunStops(d, raw);
      } else {
        RunMoves(START, raw);
        RunMoves(d, raw);
      }
    }
  }

  lemma SearchingStep(c: Cfg, raw: Bytes)
    requires InText(c, raw) && c.mode == Search
    ensures Step(c, raw) == SearchStep(c, raw)
  {
  }

  /** Feeding growing prefixes, one update each. */
  function TrackAll(raw: Bytes, cuts: seq<nat>): (r: Cfg)
    requires forall i :: 0 <= i < |cuts| ==> cuts[i] <= |raw|
    requires forall i, j :: 0 <= i < j < |cuts| ==> cuts[i] <= cuts[j]
    ensures InText(r, if cuts == [] then [] else raw[..cuts[|cuts| - 1]])
  {
    if cuts == [] then START
    else
      var n := |cuts| - 1;
      var before := TrackAll(raw, cuts[..n]);
      assert InText(before, raw[..cuts[n]]);
      Updated(before, raw[..cuts[n]])
  }

  /** However a text is cut, the tracker ends as if it had seen it at once. */
  lemma {:induction false} ChunkingIsIrrelevant(raw: Bytes, cuts: seq<nat>)
    requires cuts != [] && forall i :: 0 <= i < |cuts| ==> cuts[i] <= |raw|
    requires forall i, j :: 0 <= i < j < |cuts| ==> cuts[i] <= cuts[j]
    requires forall i :: 0 <= i < |cuts| - 1 ==> SafeCut(raw[..cuts[i]])
    ensures TrackAll(raw, cuts) == Track(raw[..cuts[|cuts| - 1]])
    decreases |cuts|
  {
    hide SYNTAXES, Updated, Run, SafeCut;
    var n := |cuts| - 1;
    if n > 0 {
      ChunkingIsIrrelevant(raw, cuts[..n]);
      var p, q := raw[..cuts[n - 1]], raw[..cuts[n]];
      assert p <= q;
      CutOnce(p, q);
    }
  }

  /** Cutting anywhere but after a `<` is safe. */
  lemma BareLtOnly(p: Bytes)
    requires p == [] || p[|p| - 1] != LT
    ensures SafeCut(p)
  {
  }

  // The converse

  /** Before an exposed stop the tracker stood in the same body, one byte back. */
  lemma {:induction false} StepBeforeExposed(c: Cfg, p: Bytes) returns (b: Cfg)
    requires InText(c, p) && c.pos < |p| && Exposed(Run(c, p), p)
    ensures InText(b, p) && PassesLt(b, p) && Run(c, p) == b.(pos := |p|) && Step(b, p) == Some(b.(pos := |p|))
    ensures forall raw :: p <= raw ==> InText(c, raw) && Run(c, raw) == Run(b, raw)
    decreases |p| - c.pos
  {
    hide SYNTAXES, Step;
    var d := Step(c, p).value;
    if PassesLt(c, p) {
      PassingExposes(c, p);
      LtKeepsBody(c, p);
      b := c;
    } else {
      NotThereYet(c, p);
      b := StepBeforeExposed(d, p);
      forall raw | p <= raw
        ensures InText(c, raw) && Run(c, raw) == Run(b, raw)
      {
        MoveStable(c, p, raw);
      }
    }
  }

  lemma LtKeepsBody(c: Cfg, p: Bytes)
    requires InText(c, p) && Step(c, p).Some? && PassesLt(c, p)
    ensures Step(c, p) == Some(c.(pos := |p|))
  {
    SyntaxesShape(c.syn);
    hide SYNTAXES, BodyStep, SyntaxShape;
    ParamEndShape(SYNTAXES[c.syn]);
    PassingStep(c, p, SYNTAXES[c.syn]);
  }

  /** Only passing a final `<` leads straight to an exposed stop. */
  lemma NotThereYet(c: Cfg, p: Bytes)
    requires InText(c, p) && c.pos < |p| && Exposed(Run(c, p), p) && !PassesLt(c, p)
    ensures Step(c, p).Some? && Step(c, p).value.pos < |p|
  {
    hide SYNTAXES, SearchStep, StructuralStep, BodyStep, Run;
    if Step(c, p).None? {
      RunStops(c, p);
    } else {
      var d := Step(c, p).value;
      RunMoves(c, p);
      if d.pos == |p| {
        NeverBackToSearch(c, p);
        RunStops(d, p);
        SyntaxesShape(c.syn);
        EndsExposed(c, p, SYNTAXES[c.syn]);
      }
    }
  }

  lemma NeverBackToSearch(c: Cfg, p: Bytes)
    requires InText(c, p) && Step(c, p).Some?
    ensures Step(c, p).value.mode != Search
  {
    hide SYNTAXES;
  }

  lemma EndsExposed(c: Cfg, p: Bytes, x: Syntax)
    requires InText(c, p) && SyntaxShape(x) && x == SYNTAXES[c.syn]
    requires Step(c, p).Some? && Exposed(Step(c, p).value, p)
    ensures PassesLt(c, p)
  {
    hide SYNTAXES, SyntaxShape, TagAt, StringTag, Step, IsAt, EndShape, StructuralStep, BodyStep, SearchStep, Exposed;
    if c.mode == Structural {
      StepIs(c, p, x);
      StructuralNotExposed(c, p, x);
    } else if c.mode == Search {
      SearchingStep(c, p);
      SearchNotExposed(c, p);
    } else {
      StepIs(c, p, x);
      ParamEndShape(x);
      BodyExposed(c, p, x);
    }
  }

  lemma StepIs(c: Cfg, raw: Bytes, x: Syntax)
    requires InText(c, raw) && c.mode != Search && x == SYNTAXES[c.syn] && Step(c, raw).Some?
    ensures c.pos < |raw| && c.mode != Done
    ensures Step(c, raw) == if c.mode == Structural then StructuralStep(c, raw, x) else BodyStep(c, raw, x)
  {
  }

  lemma SearchNotExposed(c: Cfg, p: Bytes)
    requires InText(c, p) && SearchStep(c, p).Some?
    ensures !Exposed(SearchStep(c, p).value, p)
  {
  }

  /** From the markup a body opens after a `>`. */
  lemma StructuralNotExposed(c: Cfg, p: Bytes, x: Syntax)
    requires c.mode == Structural && c.pos < |p| && StructuralStep(c, p, x).Some?
    ensures !Exposed(StructuralStep(c, p, x).value, p)
  {
    hide TagAt, StringTag, IsAt;
    var gt := FindFrom(p, [GT], c.pos);
    if gt.Some? {
      ByteAt(p, [GT], gt.value, 0);
    }
  }

  /** A body that runs to a final `<` took just that byte. */
  lemma BodyExposed(c: Cfg, p: Bytes, x: Syntax)
    requires c.pos < |p| && (c.mode == StringBody || c.mode == JsonParam) && BodyStep(c, p, x).Some?
    requires Exposed(BodyStep(c, p, x).value, p)
    ensures PassesLt(c, p)
  {
    hide IsAt, PartialAt;
  }

  lemma BodyRunsOn(c: Cfg, raw: Bytes, t: Bytes)
    requires InText(c, raw) && OpenBody(c) && EndShape(t) && t == SYNTAXES[c.syn].paramEnd
    requires forall i :: c.pos <= i < |raw| ==> raw[i] != LT && raw[i] != QUOTE
    ensures OpenBody(Run(c, raw))
    decreases |raw| - c.pos
  {
    hide SYNTAXES, Step;
    if c.pos < |raw| {
      OneBodyByte(c, raw, t);
      BodyRunsOn(Step(c, raw).value, raw, t);
    } else {
      AtEnd(c, raw);
    }
  }

  lemma AtEnd(c: Cfg, raw: Bytes)
    requires InText(c, raw) && c.pos == |raw| && c.mode != Search
    ensures Step(c, raw).None?
  {
  }

  lemma OneBodyByte(c: Cfg, raw: Bytes, t: Bytes)
    requires InText(c, raw) && OpenBody(c) && EndShape(t) && t == SYNTAXES[c.syn].paramEnd
    requires c.pos < |raw| && raw[c.pos] != LT && raw[c.pos] != QUOTE
    ensures Step(c, raw) == Some(c.(pos := c.pos + 1))
  {
    hide SYNTAXES;
    if IsAt(raw, t, c.pos) || PartialAt(raw, t, c.pos) {
      FirstByte(raw, t, c.pos);
    }
  }

  lemma ClosesAt(b: Cfg, raw: Bytes, t: Bytes)
    requires InText(b, raw) && OpenBody(b) && t == SYNTAXES[b.syn].paramEnd
    requires IsAt(raw, t, b.pos) && b.pos + |t| == |raw| && b.pos < |raw|
    ensures Run(b, raw).mode == Structural
  {
    hide SYNTAXES;
  }

  /** A cut is safe exactly when no continuation can tell it was made. */
  lemma SafeCutIff(p: Bytes)
    ensures SafeCut(p) <==> forall rest: Bytes :: Updated(Track(p), p + rest) == Track(p + rest)
  {
    hide SYNTAXES, Step;
    if SafeCut(p) {
      forall rest: Bytes
        ensures Updated(Track(p), p + rest) == Track(p + rest)
      {
        CutOnce(p, p + rest);
      }
    } else {
      var b := StepBeforeExposed(START, p);
      SyntaxesShape(b.syn);
      var t := SYNTAXES[b.syn].paramEnd;
      ParamEndShape(SYNTAXES[b.syn]);
      var raw := p + t[1..];
      assert p <= raw;
      TagSpans(p, t);
      ClosesAt(b, raw, t);
      BodyRunsOn(Track(p), raw, t);
      assert Updated(Track(p), p + t[1..]) != Track(p + t[1..]);
    }
  }

  lemma TagSpans(p: Bytes, t: Bytes)
    requires p != [] && p[|p| - 1] == LT && EndShape(t)
    ensures IsAt(p + t[1..], t, |p| - 1)
    ensures forall i :: |p| <= i < |p + t[1..]| ==> (p + t[1..])[i] != LT && (p + t[1..])[i] != QUOTE
  {
    var raw := p + t[1..];
    assert raw[|p| - 1..|p| - 1 + |t|] == t;
  }

  // The tracker object

  class Tracker {
    var mode: Mode
    var decode: Decode
    var syn: nat
    var pos: nat
    var inString: bool
    var escaped: bool

    ghost function Now(): Cfg
      reads this
    {
      Cfg(mode, syn, pos, inString, escaped)
    }

    constructor ()
      ensures Now() == START && decode == Outside
    {
      mode, decode, syn, pos, inString, escaped := Search, Outside, 0, 0, false, false;
    }

    /** Take in the text so far. */
    method Update(raw: Bytes)
      requires InText(Now(), raw)
      modifies this
      ensures Now() == Updated(old(Now()), raw)
      ensures decode == DecodeOf(Run(old(Now()), raw), raw)
    {
      hide SYNTAXES, Step, Run, FirstStart;
      while true
        invariant InText(Now(), raw) && Run(Now(), raw) == Run(old(Now()), raw)
        decreases |raw| - pos, mode == Search
      {
        if mode == Done {
          DoneWaits(Now(), raw);
          RunStops(Now(), raw);
          decode := Outside;
          return;
        }
        if mode == Search {
          SearchingStep(Now(), raw);
          var f := FirstStart(raw, pos, |SYNTAXES|);
          if f.None? {
            RunStops(Now(), raw);
            pos := if |raw| > MAX_START then |raw| - MAX_START else 0;
            decode := Outside;
            return;
          }
          RunMoves(Now(), raw);
          syn, pos := f.value.1, f.value.0 + |SYNTAXES[f.value.1].toolStart|;
          mode, decode := Structural, InStructure;
        }
        var wait := false;
        if mode == StringBody {
          wait := ScanString(raw);
        } else if mode == JsonParam {
          wait := ScanJson(raw);
        }
        if !wait {
          wait := ScanTags(raw);
        }
        if wait {
          RunStops(Now(), raw);
          return;
        }
      }
    }

    /** Read a string value; wait when the text ends in it. */
    method ScanString(raw: Bytes) returns (wait: bool)
      requires InText(Now(), raw) && mode == StringBody
      modifies this
      ensures InText(Now(), raw) && pos >= old(pos) && Run(Now(), raw) == Run(old(Now()), raw)
      ensures if wait then Step(Now(), raw).None? && mode != Search && decode == DecodeOf(Now(), raw) else mode == Structural
    {
      hide SYNTAXES, Step, Run;
      while pos < |raw|
        invariant InText(Now(), raw) && pos >= old(pos) && mode == StringBody && Run(Now(), raw) == Run(old(Now()), raw)
      {
        var end := SYNTAXES[syn].paramEnd;
        BodyStepIs(Now(), raw, SYNTAXES[syn]);
        if IsAt(raw, end, pos) {
          RunMoves(Now(), raw);
          pos, mode, decode := pos + |end|, Structural, InStructure;
          return false;
        }
        if PartialAt(raw, end, pos) {
          decode := InStructure;
          return true;
        }
        RunMoves(Now(), raw);
        pos := pos + 1;
      }
      AtEnd(Now(), raw);
      decode := InStringBody;
      wait := true;
    }

    /** Read another JSON value, whose strings may hold anything. */
    method ScanJson(raw: Bytes) returns (wait: bool)
      requires InText(Now(), raw) && mode == JsonParam
      modifies this
      ensures InText(Now(), raw) && pos >= old(pos) && Run(Now(), raw) == Run(old(Now()), raw)
      ensures if wait then Step(Now(), raw).None? && mode != Search && decode == DecodeOf(Now(), raw) else mode == Structural
    {
      hide SYNTAXES, Step, Run;
      while pos < |raw|
        invariant InText(Now(), raw) && pos >= old(pos) && mode == JsonParam && Run(Now(), raw) == Run(old(Now()), raw)
      {
        var end := SYNTAXES[syn].paramEnd;
        BodyStepIs(Now(), raw, SYNTAXES[syn]);
        if !inString {
          if IsAt(raw, end, pos) {
            RunMoves(Now(), raw);
            pos, mode, decode := pos + |end|, Structural, InStructure;
            return false;
          }
          if PartialAt(raw, end, pos) {
            decode := InStructure;
            return true;
          }
        }
        RunMoves(Now(), raw);
        var b := raw[pos];
        pos := pos + 1;
        if inString {
          if escaped {
            escaped := false;
          } else if b == BACKSLASH {
            escaped := true;
          } else if b == QUOTE {
            inString := false;
          }
        } else if b == QUOTE {
          inString := true;
        }
      }
      AtEnd(Now(), raw);
      decode := if inString then InJsonString else InJsonStructure;
      wait := true;
    }

    /** Read tags until a parameter body opens. */
    method ScanTags(raw: Bytes) returns (wait: bool)
      requires InText(Now(), raw) && mode == Structural
      modifies this
      ensures InText(Now(), raw) && Run(Now(), raw) == Run(old(Now()), raw)
      ensures if wait then Step(Now(), raw).None? && mode != Search && decode == DecodeOf(Now(), raw) else pos > old(pos)
    {
      hide SYNTAXES, Step, Run, StringTag, TagAt, IsAt, FindFrom;
      while mode == Structural
        invariant InText(Now(), raw) && pos >= old(pos) && Run(Now(), raw) == Run(old(Now()), raw)
        invariant mode == Structural || (pos > old(pos) && (mode == StringBody || mode == JsonParam))
        decreases |raw| - pos
      {
        if pos >= |raw| {
          AtEnd(Now(), raw);
          decode := InStructure;
          return true;
        }
        var x := SYNTAXES[syn];
        StructuralStepIs(Now(), raw, x);
        if IsSpace(raw[pos]) {
          RunMoves(Now(), raw);
          pos := pos + 1;
          continue;
        }
        var tag := TagAt(raw, x, pos);
        if tag == ToolEnd {
          RunMoves(Now(), raw);
          mode, pos, decode := Done, pos + |x.toolEnd|, Outside;
          DoneWaits(Now(), raw);
          return true;
        }
        if tag == InvokeEnd {
          RunMoves(Now(), raw);
          pos := pos + |x.invokeEnd|;
          continue;
        }
        if tag == NoTag {
          decode := InStructure;
          return true;
        }
        var gt := FindFrom(raw, [GT], pos);
        if gt.None? {
          decode := InStructure;
          return true;
        }
        RunMoves(Now(), raw);
        if tag == ParamStart {
          if StringTag(raw[pos..gt.value + 1]) {
            mode, decode := StringBody, InStringBody;
          } else {
            mode, inString, escaped, decode := JsonParam, false, false, InJsonStructure;
          }
        }
        pos := gt.value + 1;
      }
      wait := false;
    }
  }

  lemma DoneWaits(c: Cfg, raw: Bytes)
    requires InText(c, raw) && c.mode == Done
    ensures Step(c, raw).None?
  {
  }

  lemma BodyStepIs(c: Cfg, raw: Bytes, x: Syntax)
    requires InText(c, raw) && (c.mode == StringBody || c.mode == JsonParam) && c.pos < |raw| && x == SYNTAXES[c.syn]
    ensures Step(c, raw) == BodyStep(c, raw, x)
  {
  }

  lemma StructuralStepIs(c: Cfg, raw: Bytes, x: Syntax)
    requires InText(c, raw) && c.mode == Structural && c.pos < |raw| && x == SYNTAXES[c.syn]
    ensures Step(c, raw) == StructuralStep(c, raw, x)
    ensures x.toolEnd != [] && x.invokeEnd != []
  {
    SyntaxesShape(c.syn);
  }
}
