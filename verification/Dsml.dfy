/** The tags of the tool-call markup, in its three spellings. */
module Dsml {
  import opened ByteStrings

  const LT: Byte := 0x3c
  const GT: Byte := 0x3e
  const SLASH: Byte := 0x2f
  const QUOTE: Byte := 0x22
  const AMP: Byte := 0x26
  const BACKSLASH: Byte := 0x5c

  /** U+FF5C in UTF-8. */
  const BAR: Bytes := [0xef, 0xbd, 0x9c]

  datatype Syntax = Syntax(toolStart: Bytes, toolEnd: Bytes, invokeStart: Bytes, invokeEnd: Bytes,
                           paramStart: Bytes, paramEnd: Bytes)

  function Tags(mark: Bytes): Syntax {
    Syntax([LT] + mark + Ascii("tool_calls>"), [LT, SLASH] + mark + Ascii("tool_calls>"),
           [LT] + mark + Ascii("invoke"), [LT, SLASH] + mark + Ascii("invoke>"),
           [LT] + mark + Ascii("parameter"), [LT, SLASH] + mark + Ascii("parameter>"))
  }

  const FULL_MARK := BAR + Ascii("DSML") + BAR
  const SHORT_MARK := Ascii("DSML") + BAR

  const FULL := Tags(FULL_MARK)
  const SHORT := Tags(SHORT_MARK)
  const PLAIN := Tags([])

  const SYNTAXES := [FULL, SHORT, PLAIN]

  const AMP_ENTITY := Ascii("&amp;")
  const LT_ENTITY := Ascii("&lt;")
  const GT_ENTITY := Ascii("&gt;")
  const QUOT_ENTITY := Ascii("&quot;")
  const APOS_ENTITY := Ascii("&apos;")

  const APOS: Byte := 0x27

  /** The entity that stands at the start of a text: its length and meaning. */
  function EntityAt(s: Bytes, i: nat): (r: Option<(nat, Byte)>)
    ensures r.Some? ==> r.value.0 > 1 && i + r.value.0 <= |s|
  {
    if IsAt(s, AMP_ENTITY, i) then Some((5, AMP))
    else if IsAt(s, LT_ENTITY, i) then Some((4, LT))
    else if IsAt(s, GT_ENTITY, i) then Some((4, GT))
    else if IsAt(s, QUOT_ENTITY, i) then Some((6, QUOTE))
    else if IsAt(s, APOS_ENTITY, i) then Some((6, APOS))
    else None
  }

  /** Replace the five entities; any other byte stands for itself. */
  function Unescaped(s: Bytes): Bytes {
    if s == [] then []
    else
      var e := EntityAt(s, 0);
      if e.Some? then [e.value.1] + Unescaped(s[e.value.0..])
      else [s[0]] + Unescaped(s[1..])
  }

  /** The value of an attribute of a tag, between the quotes after `name=`. */
  function Attr(tag: Bytes, name: Bytes): Option<Bytes> {
    var pat := name + Ascii("=\"");
    var p := FindFrom(tag, pat, 0);
    if p.None? then None
    else
      var q := FindFrom(tag, [QUOTE], p.value + |pat|);
      if q.None? then None else Some(Unescaped(tag[p.value + |pat|..q.value]))
  }

  /** The tags around reasoning. */
  const THINK_OPEN := Ascii("<think>")
  const THINK_CLOSE := Ascii("</think>")

  const NAME := Ascii("name")
  const STRING := Ascii("string")
  const TRUE := Ascii("true")

  predicate IsSpace(b: Byte) {
    b == 0x20 || 9 <= b <= 13
  }

  function SkipSpace(s: Bytes, p: nat): (r: nat)
    requires p <= |s|
    ensures p <= r <= |s| && (r < |s| ==> !IsSpace(s[r]))
    decreases |s| - p
  {
    if p < |s| && IsSpace(s[p]) then SkipSpace(s, p + 1) else p
  }

  // What the tags have in common

  /** A tag starts with `<` and has no other. */
  ghost predicate TagShape(t: Bytes) {
    |t| >= 2 && t[0] == LT && forall i :: 0 < i < |t| ==> t[i] != LT
  }

  /** A closing tag ends with its only `>` and has no quote. */
  ghost predicate EndShape(t: Bytes) {
    TagShape(t) && t[|t| - 1] == GT && forall i :: 0 <= i < |t| ==> t[i] != QUOTE && (i < |t| - 1 ==> t[i] != GT)
  }

  /** Neither tag is a prefix of the other. */
  ghost predicate Differ(s: Bytes, t: Bytes) {
    exists i :: 0 <= i < |s| && i < |t| && s[i] != t[i]
  }

  ghost predicate SyntaxShape(x: Syntax) {
    && TagShape(x.toolStart) && EndShape(x.toolEnd) && TagShape(x.invokeStart) && EndShape(x.invokeEnd)
    && TagShape(x.paramStart) && EndShape(x.paramEnd)
    && Differ(x.toolEnd, x.invokeEnd) && Differ(x.toolEnd, x.invokeStart) && Differ(x.toolEnd, x.paramStart)
    && Differ(x.invokeEnd, x.invokeStart) && Differ(x.invokeEnd, x.paramStart) && Differ(x.invokeStart, x.paramStart)
  }

  /** Marks do not contain the bytes that structure a tag. */
  ghost predicate MarkShape(mark: Bytes) {
    |mark| <= 10 && forall i :: 0 <= i < |mark| ==> mark[i] != LT && mark[i] != GT && mark[i] != QUOTE && mark[i] != SLASH
  }

  lemma TagsShape(mark: Bytes)
    requires MarkShape(mark)
    ensures SyntaxShape(Tags(mark)) && |Tags(mark).toolStart| == |mark| + 12
  {
    var x, n := Tags(mark), |mark|;
    TagWords();
    assert TagShape(x.toolStart) && TagShape(x.invokeStart) && TagShape(x.paramStart);
    ClosingTag(mark, Ascii("tool_calls>"));
    ClosingTag(mark, Ascii("invoke>"));
    ClosingTag(mark, Ascii("parameter>"));
    hide TagShape, EndShape;
    assert x.toolEnd[1] == SLASH && x.invokeStart[1] != SLASH && x.paramStart[1] != SLASH && x.invokeEnd[1] == SLASH;
    assert x.toolEnd[n + 2] != x.invokeEnd[n + 2];
    assert x.invokeStart[n + 1] != x.paramStart[n + 1];
  }

  lemma TagWords()
    ensures Ascii("tool_calls>")[10] == GT && Ascii("invoke>")[6] == GT && Ascii("parameter>")[9] == GT
  {
  }

  lemma ClosingTag(mark: Bytes, word: Bytes)
    requires MarkShape(mark) && word != [] && word[|word| - 1] == GT
    requires forall i :: 0 <= i < |word| ==> word[i] != LT && word[i] != QUOTE && (i < |word| - 1 ==> word[i] != GT)
    ensures EndShape([LT, SLASH] + mark + word)
  {
  }

  lemma SyntaxesShape(k: nat)
    requires k < |SYNTAXES|
    ensures SyntaxShape(SYNTAXES[k]) && |SYNTAXES[k].toolStart| <= MAX_START
  {
    hide SyntaxShape, Tags;
    TagsShape(FULL_MARK);
    TagsShape(SHORT_MARK);
    TagsShape([]);
  }

  /** The length of the longest opening tag. */
  const MAX_START := |FULL.toolStart|

  lemma StartsDiffer(j: nat, k: nat)
    requires j < |SYNTAXES| && k < |SYNTAXES| && j != k
    ensures Differ(SYNTAXES[j].toolStart, SYNTAXES[k].toolStart)
  {
    assert FULL.toolStart[1] == 0xef && SHORT.toolStart[1] == 0x44 && PLAIN.toolStart[1] == 0x74;
  }

  /** Inside a tag no other tag starts. */
  lemma NoTagInside(raw: Bytes, s: Bytes, t: Bytes, i: nat, j: nat)
    requires TagShape(s) && TagShape(t) && IsAt(raw, s, i) && IsAt(raw, t, j)
    ensures !(i < j < i + |s|)
  {
    hide IsAt;
    ByteAt(raw, t, j, 0);
    if i < j < i + |s| {
      ByteAt(raw, s, i, j - i);
    }
  }

  lemma DifferSym(s: Bytes, t: Bytes)
    requires Differ(s, t)
    ensures Differ(t, s)
  {
    var k :| 0 <= k < |s| && k < |t| && s[k] != t[k];
    assert t[k] != s[k];
  }

  /** Different tags do not stand at the same place. */
  lemma TagsExclude(raw: Bytes, s: Bytes, t: Bytes, i: nat)
    requires Differ(s, t) && IsAt(raw, s, i)
    ensures !IsAt(raw, t, i)
  {
    hide IsAt;
    var k :| 0 <= k < |s| && k < |t| && s[k] != t[k];
    ByteAt(raw, s, i, k);
    if IsAt(raw, t, i) {
      ByteAt(raw, t, i, k);
    }
  }

  lemma TagsExcludeBack(raw: Bytes, s: Bytes, t: Bytes, i: nat)
    requires Differ(s, t) && IsAt(raw, t, i)
    ensures !IsAt(raw, s, i)
  {
    hide IsAt, Differ;
    DifferSym(s, t);
    TagsExclude(raw, t, s, i);
  }

  /** A tag that ends in a prefix is the same in the whole. */
  lemma SliceExtends(p: Bytes, raw: Bytes, i: nat, gt: nat)
    requires p <= raw && i <= gt && IsAt(p, [GT], gt)
    ensures gt < |p| && raw[i..gt + 1] == p[i..gt + 1]
  {
  }
}
