/** Splitting generated text into reasoning, visible text and tool markup, and how
    much of each can be sent while the text still grows. */
module TextSplit {
  import opened ByteStrings
  import opened Dsml
  import opened Utf8
  import opened StreamHold
  import opened DsmlTracker

  // The whole text

  /** Where reasoning begins: after an optional opening tag. */
  function ThinkStart(s: Bytes): (r: nat)
    ensures r <= |s|
  {
    if THINK_OPEN <= s then |THINK_OPEN| else 0
  }

  function CloseAt(s: Bytes): Option<nat> {
    FindFrom(s, THINK_CLOSE, ThinkStart(s))
  }

  function ReasoningEnd(s: Bytes): (r: nat)
    ensures ThinkStart(s) <= r <= |s|
  {
    var c := CloseAt(s);
    if c.Some? then c.value else |s|
  }

  /** Where visible text begins, if it does. */
  function TextStart(thinking: bool, s: Bytes): (r: Option<nat>)
    ensures r.Some? ==> r.value <= |s|
  {
    if !thinking then Some(0)
    else
      var c := CloseAt(s);
      if c.Some? then Some(c.value + |THINK_CLOSE|) else None
  }

  /** `limit` without the whitespace before it. */
  function Trimmed(s: Bytes, start: nat, limit: nat): (r: nat)
    requires limit <= |s|
    ensures r <= limit && (start <= limit ==> start <= r)
    ensures r > start && r > 0 ==> !IsSpace(s[r - 1])
    ensures forall i :: r <= i < limit ==> IsSpace(s[i])
    decreases limit
  {
    if limit > start && IsSpace(s[limit - 1]) then Trimmed(s, start, limit - 1) else limit
  }

  /** The first opening tag of a tool block, when tools are on. */
  function ToolAt(s: Bytes, from: nat, hasTools: bool): (r: Option<(nat, nat)>) {
    if hasTools then FirstStart(s, from, |SYNTAXES|) else None
  }

  /** Visible text ends before the whitespace that separates it from a tool block. */
  function TextEnd(s: Bytes, start: nat, hasTools: bool): (r: nat)
    requires start <= |s|
    ensures start <= r <= |s|
  {
    var m := ToolAt(s, start, hasTools);
    if m.Some? then Trimmed(s, start, m.value.0) else |s|
  }

  function ReasoningOf(thinking: bool, s: Bytes): Bytes {
    if thinking then s[ThinkStart(s)..ReasoningEnd(s)] else []
  }

  function TextOf(thinking: bool, hasTools: bool, s: Bytes): Bytes {
    var t := TextStart(thinking, s);
    if t.Some? then s[t.value..TextEnd(s, t.value, hasTools)] else []
  }

  // A growing text

  /** The stages of a stream. */
  datatype Stage = InReasoning | InVisible | Past

  /** How far reasoning can be sent. */
  function ThinkLimit(raw: Bytes, pos: nat, final: bool): (r: nat)
    requires pos <= |raw|
    ensures pos <= r <= |raw|
  {
    var c, hold := FindFrom(raw, THINK_CLOSE, pos), |THINK_CLOSE| - 1;
    if c.Some? then c.value
    else if final then |raw|
    else if |raw| > hold && |raw| - hold > pos then SafeLen(raw, pos, |raw| - hold, false)
    else pos
  }

  /** The longest tail searched for the start of a tag. */
  const MAX_MARKER := 80

  /** Hold back whitespace and the last `<`: either may belong to a tool block. */
  function MarkerHold(raw: Bytes, start: nat): (r: nat)
    requires start <= |raw|
    ensures start <= r <= |raw|
  {
    var limit := Trimmed(raw, start, |raw|);
    var scan := if |raw| - start > MAX_MARKER then |raw| - MAX_MARKER else start;
    var m := LastIndex(raw, LT, scan, |raw|);
    Trimmed(raw, start, if m.Some? && m.value < limit then m.value else limit)
  }

  /** How far visible text can be sent. */
  function TextLimit(raw: Bytes, start: nat, hasTools: bool, final: bool): (r: nat)
    requires start <= |raw|
    ensures start <= r <= |raw|
  {
    var m := ToolAt(raw, start, hasTools);
    if m.Some? then SafeLen(raw, start, Trimmed(raw, start, m.value.0), true)
    else SafeLen(raw, start, if hasTools && !final then MarkerHold(raw, start) else |raw|, final)
  }

  method ComputeThinkLimit(raw: Bytes, pos: nat, final: bool) returns (close: Option<nat>, limit: nat)
    requires pos <= |raw|
    ensures close == FindFrom(raw, THINK_CLOSE, pos) && limit == ThinkLimit(raw, pos, final)
  {
    hide SafeLen;
    close := FindFrom(raw, THINK_CLOSE, pos);
    if close.Some? {
      limit := close.value;
    } else if final {
      limit := |raw|;
    } else {
      var hold := |THINK_CLOSE| - 1;
      limit := if |raw| > hold then |raw| - hold else pos;
      if limit > pos {
        limit := ComputeSafeLen(raw, pos, limit, false);
      } else {
        limit := pos;
      }
    }
  }

  method TrimSeparators(raw: Bytes, start: nat, limit: nat) returns (r: nat)
    requires limit <= |raw|
    ensures r == Trimmed(raw, start, limit)
  {
    r := limit;
    while r > start && IsSpace(raw[r - 1])
      invariant r <= limit && Trimmed(raw, start, limit) == Trimmed(raw, start, r)
    {
      r := r - 1;
    }
  }

  method ComputeTextLimit(raw: Bytes, start: nat, hasTools: bool, final: bool) returns (r: nat)
    requires start <= |raw|
    ensures r == TextLimit(raw, start, hasTools, final)
  {
    hide LastIndex, SafeLen, FirstStart, Trimmed;
    if |raw| <= start {
      NoToolAtEnd(raw, start);
      return |raw|;
    }
    var limit := |raw|;
    if hasTools {
      var tool := FirstStart(raw, start, |SYNTAXES|);
      if tool.Some? {
        limit := TrimSeparators(raw, start, tool.value.0);
        r := ComputeSafeLen(raw, start, limit, true);
        return;
      }
      if !final {
        limit := TrimSeparators(raw, start, limit);
        var scan := if |raw| - start > MAX_MARKER then |raw| - MAX_MARKER else start;
        var marker := FindLast(raw, LT, scan, |raw|);
        if marker.Some? && marker.value < limit {
          limit := marker.value;
        }
        limit := TrimSeparators(raw, start, limit);
      }
    }
    r := ComputeSafeLen(raw, start, limit, final);
  }

  lemma NoToolAtEnd(raw: Bytes, start: nat)
    requires start == |raw|
    ensures FirstStart(raw, start, |SYNTAXES|).None?
  {
    var f := FirstStart(raw, start, |SYNTAXES|);
    if f.Some? {
      SyntaxesShape(f.value.1);
    }
  }

  // Deciding on a prefix is deciding on the whole

  /** Once the first bytes are in, the opening tag is there or will never be. */
  lemma PrefixDecided(raw: Bytes, full: Bytes)
    requires raw <= full && (raw == full || !(|raw| < |THINK_OPEN| && raw <= THINK_OPEN))
    ensures THINK_OPEN <= raw <==> THINK_OPEN <= full
  {
    assert THINK_OPEN <= full && |raw| < |THINK_OPEN| ==> raw <= THINK_OPEN;
  }

  /** Reasoning is sent up to what may still become the closing tag, never further. */
  lemma ThinkStep(raw: Bytes, pos: nat, final: bool, full: Bytes)
    requires raw <= full && (final ==> raw == full) && pos <= |raw|
    requires ThinkStart(full) <= pos <= ReasoningEnd(full)
    ensures ThinkLimit(raw, pos, final) <= ReasoningEnd(full)
    ensures var c := FindFrom(raw, THINK_CLOSE, pos);
            if c.Some? then CloseAt(full) == c
            else final ==> CloseAt(full).None?
  {
    hide SafeLen, IsAt;
    var c, whole := FindFrom(raw, THINK_CLOSE, pos), CloseAt(full);
    if c.Some? {
      FindExtends(raw, full, THINK_CLOSE, pos);
      IsAtExtends(raw, full, THINK_CLOSE, c.value);
      FoundAt(full, THINK_CLOSE, ThinkStart(full), c.value);
    } else if whole.Some? && (whole.value + |THINK_CLOSE| <= |raw| || final) {
      Within(full, THINK_CLOSE, whole.value);
      IsAtShrinks(raw, full, THINK_CLOSE, whole.value);
    }
  }

  lemma TrimmedFrom(s: Bytes, start: nat, pos: nat, limit: nat)
    requires start <= pos <= limit <= |s| && pos <= Trimmed(s, start, limit)
    ensures Trimmed(s, pos, limit) == Trimmed(s, start, limit)
    decreases limit
  {
    if limit > pos && IsSpace(s[limit - 1]) {
      TrimmedFrom(s, start, pos, limit - 1);
    }
  }

  lemma TrimmedKeeps(s: Bytes, start: nat, limit: nat, k: nat)
    requires start < k <= limit <= |s| && !IsSpace(s[k - 1])
    ensures k <= Trimmed(s, start, limit)
  {
  }

  /** A block that is found in a part of a text is the first of the whole. */
  lemma ToolFound(raw: Bytes, start: nat, pos: nat, full: Bytes)
    requires raw <= full && start <= pos <= |raw| && FirstStart(raw, pos, |SYNTAXES|).Some?
    requires pos <= TextEnd(full, start, true)
    ensures FirstStart(full, start, |SYNTAXES|) == FirstStart(raw, pos, |SYNTAXES|)
  {
    hide SYNTAXES, IsAt, SyntaxShape, Trimmed;
    var f, g := FirstStart(raw, pos, |SYNTAXES|).value, FirstStart(full, start, |SYNTAXES|);
    SyntaxesShape(f.1);
    IsAtExtends(raw, full, SYNTAXES[f.1].toolStart, f.0);
    assert g.Some? && pos <= g.value.0 <= f.0;
    if g.value.0 < f.0 {
      EarlierTag(raw, full, f.0, f.1, g.value.0, g.value.1);
      assert false;
    }
    FirstStartIs(full, start, f.0, f.1);
  }

  /** An earlier tag would be complete, too. */
  lemma EarlierTag(raw: Bytes, full: Bytes, i: nat, k: nat, j: nat, n: nat)
    requires raw <= full && j < i && k < |SYNTAXES| && n < |SYNTAXES|
    requires IsAt(raw, SYNTAXES[k].toolStart, i) && IsAt(full, SYNTAXES[n].toolStart, j)
    ensures IsAt(raw, SYNTAXES[n].toolStart, j)
  {
    hide SYNTAXES, IsAt;
    SyntaxesShape(k);
    SyntaxesShape(n);
    IsAtExtends(raw, full, SYNTAXES[k].toolStart, i);
    NoTagInside(full, SYNTAXES[n].toolStart, SYNTAXES[k].toolStart, j, i);
    Within(raw, SYNTAXES[k].toolStart, i);
    IsAtShrinks(raw, full, SYNTAXES[n].toolStart, j);
  }

  /** A block that has begun at the end of the text shows by its `<`, the last one. */
  lemma HoldsMarker(raw: Bytes, start: nat, full: Bytes, m: nat, k: nat)
    requires raw <= full && start <= m < |raw| && k < |SYNTAXES|
    requires IsAt(full, SYNTAXES[k].toolStart, m) && |raw| < m + |SYNTAXES[k].toolStart|
    ensures MarkerHold(raw, start) <= m
  {
    hide SYNTAXES, IsAt, Trimmed;
    SyntaxesShape(k);
    var t := SYNTAXES[k].toolStart;
    ByteAt(full, t, m, 0);
    assert raw[m] == full[m] == LT;
    forall i | m < i < |raw|
      ensures raw[i] != LT
    {
      ByteAt(full, t, m, i - m);
      assert raw[i] == full[i];
    }
    ShortMarkers();
  }

  lemma ShortMarkers()
    ensures MAX_START <= MAX_MARKER
  {
  }

  /** What is held back covers the separator and the tag of a block to come. */
  lemma HoldIsSafe(raw: Bytes, start: nat, pos: nat, full: Bytes)
    requires raw <= full && start <= pos <= |raw| && FirstStart(raw, pos, |SYNTAXES|).None?
    requires pos <= TextEnd(full, start, true)
    ensures MarkerHold(raw, pos) <= TextEnd(full, start, true)
  {
    hide SYNTAXES, IsAt, MarkerHold, Trimmed;
    var g, hold := FirstStart(full, start, |SYNTAXES|), MarkerHold(raw, pos);
    if g.Some? && hold > pos {
      var m, k := g.value.0, g.value.1;
      var t := SYNTAXES[k].toolStart;
      Within(full, t, m);
      if m + |t| <= |raw| {
        IsAtShrinks(raw, full, t, m);
        assert false;
      }
      if m < |raw| {
        HoldsMarker(raw, pos, full, m, k);
      }
      HoldEnds(raw, pos);
      assert raw[hold - 1] == full[hold - 1];
      TrimmedKeeps(full, start, m, hold);
    }
  }

  lemma HoldEnds(raw: Bytes, start: nat)
    requires start <= |raw| && MarkerHold(raw, start) > start
    ensures !IsSpace(raw[MarkerHold(raw, start) - 1])
  {
  }

  /** Text is sent up to what may still become a tool block or its separator, never
      further. */
  lemma TextStep(raw: Bytes, start: nat, pos: nat, hasTools: bool, final: bool, full: Bytes)
    requires raw <= full && (final ==> raw == full) && start <= pos <= |raw|
    requires pos <= TextEnd(full, start, hasTools)
    ensures TextLimit(raw, pos, hasTools, final) <= TextEnd(full, start, hasTools)
    ensures ToolAt(raw, pos, hasTools).Some? || final ==>
              && TextLimit(raw, pos, hasTools, final) == TextEnd(full, start, hasTools)
              && ToolAt(full, start, hasTools) == ToolAt(raw, pos, hasTools)
  {
    hide FirstStart, Trimmed, MarkerHold;
    var found := ToolAt(raw, pos, hasTools);
    if found.Some? {
      ToolFound(raw, start, pos, full);
      Beginning(raw, full, start, pos, found.value.0);
    } else if hasTools {
      if final {
        NoToolAtAll(raw, start, pos);
      } else {
        HoldIsSafe(raw, start, pos, full);
      }
    }
  }

  lemma Beginning(raw: Bytes, full: Bytes, start: nat, pos: nat, m: nat)
    requires raw <= full && start <= pos <= m <= |raw| && pos <= Trimmed(full, start, m)
    ensures Trimmed(raw, pos, m) == Trimmed(full, start, m)
  {
    TrimmedFrom(full, start, pos, m);
    SameTrim(raw, full, pos, m);
  }

  lemma SameTrim(raw: Bytes, full: Bytes, pos: nat, m: nat)
    requires raw <= full && m <= |raw|
    ensures Trimmed(raw, pos, m) == Trimmed(full, pos, m)
    decreases m
  {
    if m > pos && IsSpace(raw[m - 1]) {
      SameTrim(raw, full, pos, m - 1);
    }
  }

  lemma NoToolAtAll(s: Bytes, start: nat, pos: nat)
    requires start <= |s| && start <= pos <= TextEnd(s, start, true) && FirstStart(s, pos, |SYNTAXES|).None?
    ensures FirstStart(s, start, |SYNTAXES|).None?
  {
    hide SYNTAXES, IsAt, Trimmed;
    var g := FirstStart(s, start, |SYNTAXES|);
    if g.Some? {
      assert false;
    }
  }

  // Nothing is held back without need

  predicate Spaces(raw: Bytes, i: nat, k: nat) {
    i <= k <= |raw| && forall j :: i <= j < k ==> IsSpace(raw[j])
  }

  /** The text ends here, or in what may become an opening tag: its last `<`, not too
      far back. */
  predicate MarkerAt(raw: Bytes, m: nat) {
    m == |raw| || (m < |raw| <= m + MAX_MARKER && raw[m] == LT && forall j :: m < j < |raw| ==> raw[j] != LT)
  }

  /** Reasoning waits for at most an unfinished character and seven bytes that may begin
      the closing tag. */
  ghost predicate ThoughtHeld(raw: Bytes, pos: nat) {
    exists k: nat :: CharHeld(raw, pos, k) && |raw| < k + |THINK_CLOSE|
  }

  /** Visible text waits for at most an unfinished character and, with tools, whitespace
      and one marker. */
  ghost predicate TextHeld(raw: Bytes, pos: nat, hasTools: bool) {
    exists k: nat, m: nat :: CharHeld(raw, pos, k) && Spaces(raw, k, m) && MarkerAt(raw, m) && (hasTools || k == |raw|)
  }

  lemma ThinkLimitHeld(raw: Bytes, pos: nat)
    requires pos <= |raw| && FindFrom(raw, THINK_CLOSE, pos).None?
    ensures ThoughtHeld(raw, ThinkLimit(raw, pos, false))
  {
    hide SafeLen, THINK_CLOSE, FindFrom;
    CloseLength();
    var hold := |THINK_CLOSE| - 1;
    var limit := if |raw| > hold && |raw| - hold > pos then |raw| - hold else pos;
    SafeLenHeld(raw, pos, limit);
    assert CharHeld(raw, ThinkLimit(raw, pos, false), limit);
  }

  lemma CloseLength()
    ensures |THINK_CLOSE| == 8
  {
  }

  /** What `MarkerHold` holds: whitespace and one marker. */
  lemma MarkerHoldIs(raw: Bytes, start: nat) returns (m: nat)
    requires start <= |raw|
    ensures Spaces(raw, MarkerHold(raw, start), m) && MarkerAt(raw, m)
  {
    hide Trimmed, LastIndex;
    var limit := Trimmed(raw, start, |raw|);
    var scan := if |raw| - start > MAX_MARKER then |raw| - MAX_MARKER else start;
    var last := LastIndex(raw, LT, scan, |raw|);
    m := if last.Some? && last.value < limit then last.value else |raw|;
  }

  /** Without whitespace at the end and without a `<` among the bytes searched nothing is
      held. */
  lemma NothingToHold(raw: Bytes, start: nat)
    requires start <= |raw| && (start < |raw| ==> !IsSpace(raw[|raw| - 1]))
    requires forall i :: start <= i < |raw| && |raw| <= i + MAX_MARKER ==> raw[i] != LT
    ensures MarkerHold(raw, start) == |raw|
  {
    hide LastIndex;
  }

  lemma TextLimitHeld(raw: Bytes, start: nat, hasTools: bool)
    requires start <= |raw| && ToolAt(raw, start, hasTools).None?
    ensures TextHeld(raw, TextLimit(raw, start, hasTools, false), hasTools)
  {
    hide SafeLen, MarkerHold, FirstStart;
    var limit, m := |raw|, |raw|;
    if hasTools {
      limit := MarkerHold(raw, start);
      m := MarkerHoldIs(raw, start);
    }
    SafeLenHeld(raw, start, limit);
    var r := SafeLen(raw, start, limit, false);
    assert CharHeld(raw, r, limit) && Spaces(raw, limit, m) && MarkerAt(raw, m);
  }

  /** On valid text exactly an unfinished character is held of what no marker holds. */
  lemma TextLimitIs(raw: Bytes, start: nat, hasTools: bool, b: nat, c: Bytes)
    requires start <= b <= |raw| && ToolAt(raw, start, hasTools).None? && Chars(raw, start, b)
    requires var limit := if hasTools then MarkerHold(raw, start) else |raw|; b <= limit && Begins(raw[b..limit], c)
    ensures TextLimit(raw, start, hasTools, false) == b
  {
    hide SafeLen, MarkerHold, FirstStart, Chars, Begins;
    SafeLenIsBoundary(raw, start, b, if hasTools then MarkerHold(raw, start) else |raw|, c);
  }

  /** With nothing to hold all whole characters are sent. */
  lemma PlainTextIsSent(raw: Bytes, start: nat, hasTools: bool, b: nat, c: Bytes)
    requires start <= b <= |raw| && Chars(raw, start, b) && Begins(raw[b..], c) && ToolAt(raw, start, hasTools).None?
    requires hasTools ==> start == |raw| || !IsSpace(raw[|raw| - 1])
    requires hasTools ==> forall i :: start <= i < |raw| && |raw| <= i + MAX_MARKER ==> raw[i] != LT
    ensures TextLimit(raw, start, hasTools, false) == b
  {
    hide MarkerHold, FirstStart, Chars, Begins, TextLimit;
    if hasTools {
      NothingToHold(raw, start);
    }
    assert raw[b..|raw|] == raw[b..];
    TextLimitIs(raw, start, hasTools, b, c);
  }

  /** On valid text reasoning is sent up to the character that the last seven bytes begin
      in. */
  lemma ThinkLimitIs(raw: Bytes, pos: nat, b: nat, c: Bytes)
    requires pos <= b <= |raw| - |THINK_CLOSE| + 1 && FindFrom(raw, THINK_CLOSE, pos).None?
    requires Chars(raw, pos, b) && Begins(raw[b..|raw| - |THINK_CLOSE| + 1], c)
    ensures ThinkLimit(raw, pos, false) == b
  {
    hide SafeLen, THINK_CLOSE, FindFrom, Chars, Begins;
    CloseLength();
    SafeLenIsBoundary(raw, pos, b, |raw| - |THINK_CLOSE| + 1, c);
    NothingToCut(raw, pos);
  }

  /** What may still be unsent after an update that is not the last: the opening tag may
      still come, no closing tag is there and the rest of the reasoning must be held, or no
      block is there and the rest of the text must be held. */
  ghost predicate Live(hasTools: bool, stage: Stage, checked: bool, pos: nat, raw: Bytes) {
    match stage
    case InReasoning =>
      if checked then FindFrom(raw, THINK_CLOSE, pos).None? && ThoughtHeld(raw, pos) else raw < THINK_OPEN
    case InVisible => ToolAt(raw, pos, hasTools).None? && TextHeld(raw, pos, hasTools)
    case Past => true
  }

  /** A block is there. */
  predicate HasBlock(raw: Bytes, hasTools: bool) {
    ToolAt(raw, 0, hasTools).Some?
  }

  lemma BlockIsThere(raw: Bytes, hasTools: bool, pos: nat)
    requires ToolAt(raw, pos, hasTools).Some?
    ensures HasBlock(raw, hasTools)
  {
    hide SYNTAXES, IsAt;
    var f := ToolAt(raw, pos, hasTools).value;
    assert IsAt(raw, SYNTAXES[f.1].toolStart, f.0);
  }

  lemma ThinkingLives(raw: Bytes, hasTools: bool, pos: nat)
    requires pos <= |raw| && FindFrom(raw, THINK_CLOSE, pos).None?
    ensures Live(hasTools, InReasoning, true, ThinkLimit(raw, pos, false), raw)
  {
    hide ThinkLimit, ThoughtHeld, THINK_CLOSE, IsAt;
    ThinkLimitHeld(raw, pos);
  }

  lemma TextLives(raw: Bytes, hasTools: bool, checked: bool, pos: nat)
    requires pos <= |raw| && ToolAt(raw, pos, hasTools).None?
    ensures Live(hasTools, InVisible, checked, TextLimit(raw, pos, hasTools, false), raw)
  {
    hide TextLimit, TextHeld, IsAt, SYNTAXES;
    TextLimitHeld(raw, pos, hasTools);
  }

  // What the parts are

  lemma SliceHas(s: Bytes, lo: nat, hi: nat, t: Bytes, k: nat)
    requires lo <= hi <= |s| && IsAt(s[lo..hi], t, k)
    ensures IsAt(s, t, lo + k) && lo + k + |t| <= hi
  {
    hide IsAt;
    Within(s[lo..hi], t, k);
    forall i: nat | i < |t|
      ensures s[lo + k + i] == t[i]
    {
      ByteAt(s[lo..hi], t, k, i);
    }
    IsAtBytes(s, t, lo + k);
  }

  /** No closing tag is reasoning, no opening tag of a block is visible text, and text
      before a block does not end in whitespace. */
  lemma NoTagInParts(thinking: bool, s: Bytes, k: nat, j: nat)
    requires j < |SYNTAXES|
    ensures !IsAt(ReasoningOf(thinking, s), THINK_CLOSE, k)
    ensures !IsAt(TextOf(thinking, true, s), SYNTAXES[j].toolStart, k)
    ensures var t, text := TextStart(thinking, s), TextOf(thinking, true, s);
            t.Some? && ToolAt(s, t.value, true).Some? && text != [] ==> !IsSpace(text[|text| - 1])
  {
    hide SYNTAXES, IsAt, ReasoningOf, FirstStart, FindFrom, THINK_CLOSE;
    NotInReasoning(thinking, s, k);
    NotInText(thinking, s, k, j);
  }

  lemma NotInReasoning(thinking: bool, s: Bytes, k: nat)
    ensures !IsAt(ReasoningOf(thinking, s), THINK_CLOSE, k)
  {
    hide IsAt;
    if IsAt(ReasoningOf(thinking, s), THINK_CLOSE, k) {
      Within(ReasoningOf(thinking, s), THINK_CLOSE, k);
      SliceHas(s, ThinkStart(s), ReasoningEnd(s), THINK_CLOSE, k);
    }
  }

  lemma NotInText(thinking: bool, s: Bytes, k: nat, j: nat)
    requires j < |SYNTAXES|
    ensures !IsAt(TextOf(thinking, true, s), SYNTAXES[j].toolStart, k)
  {
    SyntaxesShape(j);
    hide SYNTAXES, IsAt, FirstStart, Trimmed;
    var t, tag := TextStart(thinking, s), SYNTAXES[j].toolStart;
    if IsAt(TextOf(thinking, true, s), tag, k) {
      Within(TextOf(thinking, true, s), tag, k);
      SliceHas(s, t.value, TextEnd(s, t.value, true), tag, k);
    }
  }

  /** Nothing is lost: tags, reasoning, text, separator and block make up the whole. */
  lemma PartsMakeWhole(s: Bytes) returns (separator: Bytes, rest: Bytes)
    ensures CloseAt(s).None? ==> s == s[..ThinkStart(s)] + ReasoningOf(true, s)
    ensures CloseAt(s).Some? ==>
              s == s[..ThinkStart(s)] + ReasoningOf(true, s) + THINK_CLOSE + TextOf(true, true, s) + separator + rest
    ensures forall i :: 0 <= i < |separator| ==> IsSpace(separator[i])
    ensures CloseAt(s).Some? && rest != [] ==> exists k :: 0 <= k < |SYNTAXES| && IsAt(rest, SYNTAXES[k].toolStart, 0)
  {
    hide SYNTAXES, FirstStart, Trimmed, IsAt, FindFrom, THINK_CLOSE, TextEnd, ToolAt, IsSpace;
    separator, rest := [], [];
    var a := ThinkStart(s);
    if CloseAt(s).Some? {
      var c := CloseAt(s).value;
      var t := c + |THINK_CLOSE|;
      SliceIs(s, THINK_CLOSE, c);
      separator, rest := TextAndRest(s, t);
      Cuts(s, a, c, t);
      Joined(s, s[..a] + ReasoningOf(true, s) + THINK_CLOSE, TextOf(true, true, s), separator, rest);
    }
  }

  /** With thinking off nothing is reasoning, and the same parts make up the whole. */
  lemma PartsWithoutThinking(s: Bytes) returns (separator: Bytes, rest: Bytes)
    ensures ReasoningOf(false, s) == [] && s == TextOf(false, true, s) + separator + rest
    ensures forall i :: 0 <= i < |separator| ==> IsSpace(separator[i])
    ensures rest != [] ==> exists k :: 0 <= k < |SYNTAXES| && IsAt(rest, SYNTAXES[k].toolStart, 0)
  {
    hide SYNTAXES, TextEnd, IsAt, IsSpace;
    separator, rest := TextAndRest(s, 0);
    assert s[0..] == s;
  }

  /** Without tools everything that is not reasoning is text. */
  lemma PartsWithoutTools(s: Bytes)
    ensures TextOf(false, false, s) == s
    ensures CloseAt(s).None? ==> TextOf(true, false, s) == []
    ensures CloseAt(s).Some? ==> s == s[..ThinkStart(s)] + ReasoningOf(true, s) + THINK_CLOSE + TextOf(true, false, s)
  {
    hide FindFrom, THINK_CLOSE, IsAt;
    if CloseAt(s).Some? {
      var c := CloseAt(s).value;
      SliceIs(s, THINK_CLOSE, c);
      Cuts(s, ThinkStart(s), c, c + |THINK_CLOSE|);
    }
  }

  lemma Joined(s: Bytes, head: Bytes, text: Bytes, separator: Bytes, rest: Bytes)
    requires s == head + (text + separator + rest)
    ensures s == head + text + separator + rest
  {
  }

  /** Visible text, whitespace, and a tool block if there is one. */
  lemma TextAndRest(s: Bytes, t: nat) returns (separator: Bytes, rest: Bytes)
    requires t <= |s|
    ensures s[t..] == s[t..TextEnd(s, t, true)] + separator + rest
    ensures forall i :: 0 <= i < |separator| ==> IsSpace(separator[i])
    ensures rest != [] ==> exists k :: 0 <= k < |SYNTAXES| && IsAt(rest, SYNTAXES[k].toolStart, 0)
  {
    hide SYNTAXES, FirstStart, Trimmed, IsAt, IsSpace;
    var e, b := TextEnd(s, t, true), ToolAt(s, t, true);
    if b.Some? {
      var m := b.value.0;
      Within(s, SYNTAXES[b.value.1].toolStart, m);
      separator, rest := s[e..m], s[m..];
      DropTo(s, SYNTAXES[b.value.1].toolStart, m);
    } else {
      separator, rest := [], [];
    }
  }

  lemma DropTo(s: Bytes, t: Bytes, m: nat)
    requires m <= |s| && IsAt(s, t, m)
    ensures IsAt(s[m..], t, 0)
  {
    assert s[m..][0..|t|] == s[m..m + |t|];
  }

  lemma SliceIs(s: Bytes, t: Bytes, c: nat)
    requires IsAt(s, t, c)
    ensures c + |t| <= |s| && s[c..c + |t|] == t
  {
  }

  lemma Cuts(s: Bytes, a: nat, b: nat, c: nat)
    requires a <= b <= c <= |s|
    ensures s == s[..a] + s[a..b] + s[b..c] + s[c..]
  {
  }

  // The stages of a stream

  /** The position agrees with the whole text `full`: nothing was passed that belongs
      elsewhere. */
  ghost predicate Cut(thinking: bool, hasTools: bool, stage: Stage, checked: bool, pos: nat, full: Bytes) {
    match stage
    case InReasoning => thinking && if checked then ThinkStart(full) <= pos <= ReasoningEnd(full) else pos == 0
    case InVisible =>
      var t := TextStart(thinking, full);
      t.Some? && t.value <= pos <= TextEnd(full, t.value, hasTools)
    case Past => true
  }

  /** The reasoning that has been passed. */
  ghost function Reasoned(thinking: bool, hasTools: bool, stage: Stage, checked: bool, pos: nat, full: Bytes): Bytes
    requires Cut(thinking, hasTools, stage, checked, pos, full)
  {
    if !stage.InReasoning? then ReasoningOf(thinking, full)
    else if checked then full[ThinkStart(full)..pos] else []
  }

  /** The visible text that has been passed. */
  ghost function Told(thinking: bool, hasTools: bool, stage: Stage, checked: bool, pos: nat, full: Bytes): Bytes
    requires Cut(thinking, hasTools, stage, checked, pos, full)
  {
    match stage
    case InReasoning => []
    case InVisible => full[TextStart(thinking, full).value..pos]
    case Past => TextOf(thinking, hasTools, full)
  }

  lemma StartsThinking(hasTools: bool, raw: Bytes, full: Bytes)
    requires raw <= full && (raw == full || !(|raw| < |THINK_OPEN| && raw <= THINK_OPEN))
    ensures var pos := if THINK_OPEN <= raw then |THINK_OPEN| else 0;
            && pos <= |raw| && Cut(true, hasTools, InReasoning, true, pos, full)
            && Reasoned(true, hasTools, InReasoning, true, pos, full) == []
  {
    PrefixDecided(raw, full);
  }

  lemma EndsThinking(hasTools: bool, pos: nat, full: Bytes)
    requires Cut(true, hasTools, InReasoning, true, pos, full) && CloseAt(full) == Some(pos)
    ensures Cut(true, hasTools, InVisible, true, pos + |THINK_CLOSE|, full)
    ensures Reasoned(true, hasTools, InReasoning, true, pos, full) == ReasoningOf(true, full)
    ensures Told(true, hasTools, InVisible, true, pos + |THINK_CLOSE|, full) == []
  {
  }

  lemma NeverEndsThinking(hasTools: bool, full: Bytes)
    requires Cut(true, hasTools, InReasoning, true, |full|, full) && CloseAt(full).None?
    ensures Reasoned(true, hasTools, InReasoning, true, |full|, full) == ReasoningOf(true, full)
    ensures TextOf(true, hasTools, full) == [] && TextStart(true, full).None?
  {
  }

  lemma EndsText(thinking: bool, hasTools: bool, checked: bool, pos: nat, full: Bytes)
    requires Cut(thinking, hasTools, InVisible, checked, pos, full) && pos == TextEnd(full, TextStart(thinking, full).value, hasTools)
    ensures Told(thinking, hasTools, InVisible, checked, pos, full) == TextOf(thinking, hasTools, full)
  {
  }

  lemma MoreReasoning(hasTools: bool, pos: nat, limit: nat, raw: Bytes, full: Bytes)
    requires Cut(true, hasTools, InReasoning, true, pos, full) && pos <= limit <= ReasoningEnd(full)
    requires raw <= full && limit <= |raw|
    ensures Cut(true, hasTools, InReasoning, true, limit, full)
    ensures Reasoned(true, hasTools, InReasoning, true, limit, full)
         == Reasoned(true, hasTools, InReasoning, true, pos, full) + raw[pos..limit]
  {
    hide ReasoningEnd;
    assert full[ThinkStart(full)..limit] == full[ThinkStart(full)..pos] + full[pos..limit];
  }

  lemma MoreText(thinking: bool, hasTools: bool, checked: bool, pos: nat, limit: nat, raw: Bytes, full: Bytes)
    requires Cut(thinking, hasTools, InVisible, checked, pos, full)
    requires pos <= limit <= TextEnd(full, TextStart(thinking, full).value, hasTools)
    requires raw <= full && limit <= |raw|
    ensures Cut(thinking, hasTools, InVisible, checked, limit, full)
    ensures Told(thinking, hasTools, InVisible, checked, limit, full)
         == Told(thinking, hasTools, InVisible, checked, pos, full) + raw[pos..limit]
  {
    hide TextStart, TextEnd;
    var t := TextStart(thinking, full).value;
    assert full[t..limit] == full[t..pos] + full[pos..limit];
  }
}
