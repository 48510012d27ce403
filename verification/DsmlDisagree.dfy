/** Texts on which the incremental tracker and the reference recognizer differ: a
    JSON string that contains the closing tag of its parameter. */
module DsmlDisagree {
  import opened ByteStrings
  import opened Dsml
  import opened DsmlTracker
  import opened DsmlRecognizer
  import opened DsmlTrace
  import opened JsonStrings
  import Render = DsmlRender
  import Trip = DsmlRoundTrip
  import Reparse = DsmlReparse

  /** The opening tag of a parameter that is not a string. */
  function JsonTag(key: Bytes): Bytes {
    Trip.ParamTag(key, Trip.FALSE)
  }

  /** A block with one JSON parameter: the text `w` and a closing tag, quoted. */
  function QuotedEnd(key: Bytes, w: Bytes): Bytes {
    FULL.toolStart + JsonTag(key) + [QUOTE] + w + Render.END + [QUOTE] + Render.END + FULL.toolEnd
  }

  /** Nothing that ends a string, escapes or could start a tag. */
  ghost predicate Quiet(w: Bytes) {
    forall i :: 0 <= i < |w| ==> w[i] != QUOTE && w[i] != BACKSLASH && w[i] != LT
  }

  /** Where the parts of the block stand. */
  ghost predicate Placed(s: Bytes, a: Bytes, tag: Bytes, w: Bytes, end: Bytes, b: Bytes) {
    var v := |a| + |tag|;
    var e := v + 1 + |w|;
    var q := e + |end|;
    && |s| == q + 1 + |end| + |b| && IsAt(s, a, 0) && IsAt(s, tag, |a|) && s[v] == QUOTE
    && IsAt(s, w, v + 1) && IsAt(s, end, e) && s[q] == QUOTE && IsAt(s, end, q + 1) && IsAt(s, b, q + 1 + |end|)
  }

  lemma PlacedIs(a: Bytes, tag: Bytes, w: Bytes, end: Bytes, b: Bytes)
    ensures Placed(a + tag + [QUOTE] + w + end + [QUOTE] + end + b, a, tag, w, end, b)
  {
    hide IsAt;
    var s := a + tag + [QUOTE] + w + end + [QUOTE] + end + b;
    RightFirst(a, tag, [QUOTE], w, end, b);
    WholeAt(s);
    BeforeQuote(s, a, tag, w + (end + ([QUOTE] + (end + b))), 0);
    BeforeQuote(s, w, end, end + b, |a| + |tag| + 1);
    IsAtSplit(s, end, b, |a| + |tag| + |w| + |end| + 2);
  }

  lemma BeforeQuote(s: Bytes, a: Bytes, b: Bytes, rest: Bytes, i: nat)
    requires IsAt(s, a + (b + ([QUOTE] + rest)), i)
    ensures var q := i + |a| + |b|;
            IsAt(s, a, i) && IsAt(s, b, i + |a|) && q < |s| && s[q] == QUOTE && IsAt(s, rest, q + 1)
  {
    hide IsAt;
    IsAtSplit(s, a, b + ([QUOTE] + rest), i);
    IsAtSplit(s, b, [QUOTE] + rest, i + |a|);
    IsAtSplit(s, [QUOTE], rest, i + |a| + |b|);
    ByteAt(s, [QUOTE], i + |a| + |b|, 0);
  }

  lemma RightFirst(a: Bytes, tag: Bytes, q: Bytes, w: Bytes, end: Bytes, b: Bytes)
    ensures a + tag + q + w + end + q + end + b == a + (tag + (q + (w + (end + (q + (end + b))))))
  {
  }

  /** Between the quotes no byte ends the string. */
  lemma StringBytes(s: Bytes, v: nat, w: Bytes, end: Bytes, i: nat)
    requires Quiet(w) && EndShape(end) && Trip.Free(end, BACKSLASH)
    requires IsAt(s, w, v + 1) && IsAt(s, end, v + 1 + |w|) && v < i < v + 1 + |w| + |end|
    ensures i < |s| && s[i] != QUOTE && s[i] != BACKSLASH && (i < v + 1 + |w| ==> s[i] != LT)
  {
    hide IsAt;
    if i < v + 1 + |w| {
      ByteAt(s, w, v + 1, i - v - 1);
    } else {
      ByteAt(s, end, v + 1 + |w|, i - v - 1 - |w|);
    }
  }

  // The tracker

  /** The value of the block, as one part of it. */
  function QuotedValue(w: Bytes): Bytes {
    [QUOTE] + w + Render.END + [QUOTE]
  }

  lemma QuotedAsParts(key: Bytes, w: Bytes)
    ensures QuotedEnd(key, w) == FULL.toolStart + PartsText([Value(key, false, QuotedValue(w)), BlockEnd])
  {
    hide FULL, Render.END, Trip.ParamTag, PartsText;
    NewlineOk();
    TwoParts(Value(key, false, QuotedValue(w)), BlockEnd);
    Regroup(FULL.toolStart, JsonTag(key), [QUOTE], w, Render.END, FULL.toolEnd);
  }

  lemma Regroup(a: Bytes, t: Bytes, q: Bytes, w: Bytes, end: Bytes, b: Bytes)
    ensures a + t + q + w + end + q + end + b == a + ((t + ((q + w + end + q) + end)) + b)
  {
  }

  /** The string of the value is closed, and the quoted tag is in it. */
  lemma QuotedShaped(w: Bytes)
    requires Quiet(w) && EndShape(Render.END) && Trip.Free(Render.END, BACKSLASH)
    ensures JsonShaped(QuotedValue(w), Render.END)
  {
    hide Quotes, Backslashes, Render.END, IsAt, Quiet, Trip.Free;
    var v := QuotedValue(w);
    forall i | 0 < i < |v| - 1
      ensures v[i] != QUOTE && v[i] != BACKSLASH
    {
      ValueBytes(w, i);
    }
    FirstQuote(v);
    PlainStays(v, 1, |v| - 1);
    OneStays(v, |v| - 1);
    NoEndAtQuote(v);
  }

  lemma ValueBytes(w: Bytes, i: nat)
    requires Quiet(w) && EndShape(Render.END) && Trip.Free(Render.END, BACKSLASH) && 0 < i < |QuotedValue(w)| - 1
    ensures QuotedValue(w)[i] != QUOTE && QuotedValue(w)[i] != BACKSLASH
  {
    hide Render.END;
  }

  lemma NoEndAtQuote(v: Bytes)
    requires v != [] && v[0] == QUOTE && TagShape(Render.END)
    ensures !IsAt(v, Render.END, 0)
  {
    hide IsAt, Render.END;
    if IsAt(v, Render.END, 0) {
      ByteAt(v, Render.END, 0, 0);
    }
  }

  /** Outside at the end of the block. */
  lemma TrackerIsDone(key: Bytes, w: Bytes)
    requires Quiet(w)
    ensures DecodeOf(Run(START, QuotedEnd(key, w)), QuotedEnd(key, w)) == Outside
  {
    hide FULL, SYNTAXES, IsAt, Run, PartsText, PartsOk, Render.END, EndShape, TagShape, JsonShaped, Quiet, QuotedEnd, QuotedValue, PartText, PartsState, Trip.Free, SyntaxShape;
    var s, t := QuotedEnd(key, w), Value(key, false, QuotedValue(w));
    Shapes();
    QuotedAsParts(key, w);
    QuotedShaped(w);
    NewlineOk();
    ValueOk(key, QuotedValue(w));
    TwoParts(t, BlockEnd);
    LastState(t, |PartText(t)| + |FULL.toolEnd|);
    WholeAt(s);
    BlockTrace(s, 0, [t, BlockEnd], |s|);
    assert s[..|s|] == s;
  }

  lemma ValueOk(key: Bytes, w: Bytes)
    requires JsonShaped(w, Render.END)
    ensures PartOk(Value(key, false, w))
  {
    hide Render.END, JsonShaped;
  }

  lemma WholeAt(s: Bytes)
    ensures IsAt(s, s, 0)
  {
  }

  /** The tag of the parameter opens a JSON value. */
  lemma TagOpens(s: Bytes, key: Bytes, p: nat, inString: bool, escaped: bool)
    requires Reading(Render.END) && IsAt(s, JsonTag(key), p) && p < |s|
    ensures p + |JsonTag(key)| <= |s|
    ensures StructuralStep(Cfg(Structural, 0, p, inString, escaped), s, FULL)
         == Some(Cfg(JsonParam, 0, p + |JsonTag(key)|, false, false))
  {
    hide FULL, IsAt, Render.END, Trip.ParamTag, SyntaxShape, Closed, StructuralStep, TagAt, FindFrom;
    var t := Value(key, false, []);
    TagClosed(t);
    LtHere(s, TagOf(t), p);
    GtOf(s, TagOf(t), p);
    TagHere(s, t, p);
    TagStep(Cfg(Structural, 0, p, inString, escaped), s, t);
  }

  lemma SyntaxIsFull()
    ensures SYNTAXES[0] == FULL && |SYNTAXES| == 3
  {
  }

  // The recognizer

  lemma {:induction false} StringScans(s: Bytes, p: nat, q: nat, t: Bytes)
    requires p <= q < |s| && forall i :: p <= i < q ==> s[i] != QUOTE && s[i] != BACKSLASH
    ensures ScanJson(s, p, true, false, t) == ScanJson(s, q, true, false, t)
    decreases q - p
  {
    if p < q {
      StringScans(s, p + 1, q, t);
    }
  }

  /** The scan of the value finds it closed. */
  lemma ValueScans(s: Bytes, v: nat, w: Bytes, t: Bytes, q: nat)
    requires EndShape(t) && Trip.Free(t, BACKSLASH) && Quiet(w) && q == v + 1 + |w| + |t| < |s|
    requires s[v] == QUOTE && IsAt(s, w, v + 1) && IsAt(s, t, v + 1 + |w|) && s[q] == QUOTE && IsAt(s, t, q + 1)
    ensures ScanJson(s, v, false, false, t) == InStructure
  {
    hide IsAt, Quiet, Trip.Free, EndsPartial;
    if IsAt(s, t, v) {
      ByteAt(s, t, v, 0);
    }
    forall i | v + 1 <= i < q ensures s[i] != QUOTE && s[i] != BACKSLASH {
      StringBytes(s, v, w, t, i);
    }
    StringScans(s, v + 1, q, t);
    Within(s, t, q + 1);
  }

  /** But the search for the closing tag finds the quoted one. */
  lemma QuotedIsFirst(s: Bytes, v: nat, w: Bytes, t: Bytes)
    requires TagShape(t) && Quiet(w) && v < |s| && s[v] == QUOTE && IsAt(s, w, v + 1) && IsAt(s, t, v + 1 + |w|)
    ensures FindFrom(s, t, v) == Some(v + 1 + |w|)
  {
    hide IsAt;
    forall k | v <= k < v + 1 + |w| ensures !IsAt(s, t, k) {
      if IsAt(s, t, k) {
        ByteAt(s, t, k, 0);
        if k > v {
          ByteAt(s, w, v + 1, k - v - 1);
        }
      }
    }
    FoundAt(s, t, v, v + 1 + |w|);
  }

  /** At a quote in the markup the recognizer stops. */
  lemma StuckAtQuote(s: Bytes, q: nat)
    requires SyntaxShape(FULL) && q < |s| && s[q] == QUOTE
    ensures RecognizeFrom(s, FULL, q) == InStructure
  {
    hide FULL, IsAt;
    NotHere(s, FULL.toolEnd, q);
    NotHere(s, FULL.invokeEnd, q);
    NotHere(s, FULL.invokeStart, q);
    NotHere(s, FULL.paramStart, q);
  }

  lemma NotHere(s: Bytes, t: Bytes, q: nat)
    requires TagShape(t) && q < |s| && s[q] == QUOTE
    ensures !IsAt(s, t, q)
  {
    hide IsAt;
    if IsAt(s, t, q) {
      ByteAt(s, t, q, 0);
    }
  }

  /** On every such block the tracker is done and the recognizer is not. */
  lemma QuotedEndDisagrees(key: Bytes, w: Bytes)
    requires Quiet(w)
    ensures DecodeOf(Run(START, QuotedEnd(key, w)), QuotedEnd(key, w)) == Outside
    ensures Recognize(QuotedEnd(key, w)) == InStructure
    ensures !Clean(QuotedEnd(key, w))
  {
    hide FULL, SYNTAXES, JsonTag, Render.END, IsAt, SyntaxShape, EndShape, TagShape, Quiet, Trip.Free, Run, Step, StructuralStep, FirstStart, RecognizeFrom, ScanJson, FindFrom, QuotedEnd;
    var s := QuotedEnd(key, w);
    Shapes();
    var a, tag, t := FULL.toolStart, JsonTag(key), Render.END;
    QuotedPlaces(key, w);
    var v := |a| + |tag|;
    var q := v + 1 + |w| + |t|;
    FirstStartIs(s, 0, 0, 0);
    IsReading();
    TrackerIsDone(key, w);
    TagOpens(s, key, |a|, false, false);
    var c := Cfg(Structural, 0, |a|, false, false);
    ActionIsMove(c, s, FULL);
    ValueScans(s, v, w, t, q);
    QuotedIsFirst(s, v, w, t);
    StuckAtQuote(s, q);
    RecognizedBlock(s, |a|, v, q);
    if Clean(s) {
      TrackerAgrees(s);
    }
  }

  lemma RecognizedBlock(s: Bytes, p: nat, v: nat, q: nat)
    requires SyntaxShape(FULL) && p <= |s| && s != []
    requires FirstStart(s, 0, |SYNTAXES|) == Some((0, 0)) && p == |FULL.toolStart|
    requires ActionAt(s, FULL, p) == ReadValue(v, false)
    requires FindFrom(s, FULL.paramEnd, v).Some? && FindFrom(s, FULL.paramEnd, v).value + |FULL.paramEnd| == q <= |s|
    requires ScanJson(s, v, false, false, FULL.paramEnd) == InStructure
    ensures Recognize(s) == RecognizeFrom(s, FULL, q)
  {
    hide FULL, SYNTAXES, IsAt, SyntaxShape, FirstStart, ActionAt, ScanJson, FindFrom;
    SyntaxIsFull();
    assert RecognizeFrom(s, FULL, p) == RecognizeValue(s, FULL, v, false);
    assert RecognizeValue(s, FULL, v, false) == RecognizeFrom(s, FULL, q);
  }

  lemma Shapes()
    ensures SyntaxShape(FULL) && SYNTAXES[0] == FULL && |SYNTAXES| == 3 && FULL.paramEnd == Render.END
    ensures TagShape(FULL.toolStart) && |FULL.toolStart| > 0 && |FULL.toolEnd| > 0
    ensures EndShape(Render.END) && TagShape(Render.END) && Trip.Free(Render.END, BACKSLASH)
  {
    hide FULL, Render.END, Trip.Free;
    SyntaxesShape(0);
    SyntaxIsFull();
    Trip.EndIs();
    Reparse.FullEnd();
  }

  lemma QuotedPlaces(key: Bytes, w: Bytes)
    ensures Placed(QuotedEnd(key, w), FULL.toolStart, JsonTag(key), w, Render.END, FULL.toolEnd)
  {
    hide FULL, JsonTag, Render.END, Placed;
    PlacedIs(FULL.toolStart, JsonTag(key), w, Render.END, FULL.toolEnd);
  }
}
