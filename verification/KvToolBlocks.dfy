/** Where the tool blocks of a text are, said from the text itself: a text is cut into
    blocks and what stands between them in one way only, and those are the blocks that
    the scan finds. */
module KvToolBlocks {
  import opened ByteStrings
  import opened Dsml
  import opened KvToolMap
  import DsmlRender

  /** From `s` to `e` stands a block of form `k`: its opening text, and then its closing
      text for the first time. */
  ghost predicate BlockAt(text: Bytes, s: nat, e: nat, k: nat) {
    && k < |FORMS| && IsAt(text, FORMS[k].0, s) && s + |FORMS[k].1| <= e
    && IsAt(text, FORMS[k].1, e - |FORMS[k].1|)
    && NotFrom(text, FORMS[k].1, s, e - |FORMS[k].1|)
  }

  ghost predicate NotFrom(text: Bytes, t: Bytes, i: nat, j: nat) {
    forall q :: i <= q < j ==> !IsAt(text, t, q)
  }

  /** Opening text of form `k` at `q` that is closed somewhere. */
  ghost predicate ClosedAt(text: Bytes, q: nat, k: nat) {
    k < |FORMS| && IsAt(text, FORMS[k].0, q) && exists c :: q <= c && IsAt(text, FORMS[k].1, c)
  }

  /** No block begins from `i` up to `j`. */
  ghost predicate NoBlockFrom(text: Bytes, i: nat, j: nat) {
    forall q: nat, k: nat :: i <= q < j ==> !ClosedAt(text, q, k)
  }

  /** The whole of `d` is one block. */
  ghost predicate OneBlock(d: Bytes) {
    exists k: nat :: BlockAt(d, 0, |d|, k)
  }

  // What the search for the next block finds

  /** The search gives a block. */
  lemma {:induction false} BestIsBlock(text: Bytes, p: nat, k: nat) returns (j: nat)
    requires k <= |FORMS| && BestBlock(text, p, k).Some?
    ensures j < k && BlockAt(text, BestBlock(text, p, k).value.0, BestBlock(text, p, k).value.1, j)
  {
    hide FORMS, IsAt, FindFrom;
    var best := BestBlock(text, p, k - 1);
    if BestBlock(text, p, k) == best {
      j := BestIsBlock(text, p, k - 1);
    } else {
      j := k - 1;
    }
  }

  /** Before it no block begins, and without one there is none. */
  lemma NothingBefore(text: Bytes, p: nat)
    ensures var n := NextBlock(text, p);
            if n.Some? then NoBlockFrom(text, p, n.value.0) else NoBlockFrom(text, p, |text| + 1)
  {
    hide FORMS, IsAt, FindFrom, BestBlock;
    var n := NextBlock(text, p);
    forall q: nat, k: nat | p <= q && (n.Some? ==> q < n.value.0)
      ensures !ClosedAt(text, q, k)
    {
      if ClosedAt(text, q, k) {
        ClosedIsFound(text, p, q, k);
        BestBlockIsFirst(text, p, |FORMS|, k);
      }
    }
  }

  lemma ClosedIsFound(text: Bytes, p: nat, q: nat, k: nat)
    requires p <= q && ClosedAt(text, q, k)
    ensures k < |FORMS| && Closed(text, p, k) && FindFrom(text, FORMS[k].0, p).value <= q
  {
    hide FORMS, IsAt, FindFrom;
  }

  /** No two forms open at one place. */
  lemma FormsDiffer(text: Bytes, q: nat, j: nat, k: nat)
    requires j < |FORMS| && k < |FORMS| && IsAt(text, FORMS[j].0, q) && IsAt(text, FORMS[k].0, q)
    ensures j == k
  {
    hide IsAt;
    FormStarts(j);
    FormStarts(k);
    ByteAt(text, FORMS[j].0, q, 0);
    ByteAt(text, FORMS[k].0, q, 0);
    hide FORMS;
    if j % 2 == k % 2 {
      var o := if j % 2 == 0 then 3 else 1;
      ByteAt(text, FORMS[j].0, q, o);
      ByteAt(text, FORMS[k].0, q, o);
    }
  }

  /** The bytes that tell the forms apart. */
  lemma FormStarts(k: nat)
    requires k < |FORMS|
    ensures var t := FORMS[k].0;
            && |t| > 3 && t[0] == (if k % 2 == 0 then 10 else LT)
            && t[if k % 2 == 0 then 3 else 1] == if k < 2 then 0xef else if k < 4 then 0x44 else 0x74
    ensures |FORMS| == 6
  {
    assert FULL.toolStart[1] == 0xef && SHORT.toolStart[1] == 0x44 && PLAIN.toolStart[1] == 0x74;
  }

  lemma BlockBounds(text: Bytes, s: nat, e: nat, k: nat)
    requires BlockAt(text, s, e, k)
    ensures s < e <= |text| && ClosedAt(text, s, k)
  {
    hide IsAt, FORMS;
    FormNotEmpty(k);
    Within(text, FORMS[k].1, e - |FORMS[k].1|);
  }

  /** A block before which none begins is the next one. */
  lemma NextIs(text: Bytes, p: nat, s: nat, e: nat, k: nat)
    requires p <= s && BlockAt(text, s, e, k) && NoBlockFrom(text, p, s)
    ensures NextBlock(text, p) == Some((s, e))
  {
    hide FORMS, IsAt, FindFrom, BestBlock, BlockAt, ClosedAt;
    BlockBounds(text, s, e, k);
    ClosedIsFound(text, p, s, k);
    BestBlockIsFirst(text, p, |FORMS|, k);
    var n := NextBlock(text, p).value;
    var j := BestIsBlock(text, p, |FORMS|);
    BlockBounds(text, n.0, n.1, j);
    SameBlock(text, s, e, k, n.1, j);
  }

  lemma SameBlock(text: Bytes, s: nat, e: nat, k: nat, e': nat, k': nat)
    requires BlockAt(text, s, e, k) && BlockAt(text, s, e', k')
    ensures e == e'
  {
    hide FORMS, IsAt;
    FormsDiffer(text, s, k, k');
  }

  // Texts behind a prefix

  lemma IsAtBehind(a: Bytes, text: Bytes, t: Bytes, q: nat)
    ensures IsAt(a + text, t, |a| + q) <==> IsAt(text, t, q)
  {
    var whole := a + text;
    if q + |t| <= |text| {
      assert whole[|a| + q..|a| + q + |t|] == text[q..q + |t|];
    }
  }

  lemma ClosedBehind(a: Bytes, text: Bytes, q: nat, k: nat)
    ensures ClosedAt(a + text, |a| + q, k) <==> ClosedAt(text, q, k)
  {
    hide IsAt, FORMS;
    if k < |FORMS| {
      var whole := a + text;
      IsAtBehind(a, text, FORMS[k].0, q);
      if ClosedAt(whole, |a| + q, k) {
        var c :| |a| + q <= c && IsAt(whole, FORMS[k].1, c);
        IsAtBehind(a, text, FORMS[k].1, c - |a|);
      }
      if ClosedAt(text, q, k) {
        var c :| q <= c && IsAt(text, FORMS[k].1, c);
        IsAtBehind(a, text, FORMS[k].1, c);
      }
    }
  }

  lemma BlockBehind(a: Bytes, text: Bytes, s: nat, e: nat, k: nat)
    requires BlockAt(text, s, e, k)
    ensures BlockAt(a + text, |a| + s, |a| + e, k)
  {
    hide IsAt, FORMS;
    var t := FORMS[k];
    IsAtBehind(a, text, t.0, s);
    IsAtBehind(a, text, t.1, e - |t.1|);
    forall q | |a| + s <= q < |a| + e - |t.1|
      ensures !IsAt(a + text, t.1, q)
    {
      IsAtBehind(a, text, t.1, q - |a|);
    }
  }

  /** The next block does not depend on what stands before the search. */
  lemma NextBehind(a: Bytes, text: Bytes, p: nat)
    ensures var n, m := NextBlock(text, p), NextBlock(a + text, |a| + p);
            m == if n.None? then None else Some((|a| + n.value.0, |a| + n.value.1))
  {
    hide FORMS, IsAt, BestBlock, NextBlock, BlockAt, ClosedAt;
    var n, m := NextBlock(text, p), NextBlock(a + text, |a| + p);
    NothingBefore(text, p);
    NothingBefore(a + text, |a| + p);
    if n.Some? {
      var j := NextIsBlock(text, p);
      BlockBehind(a, text, n.value.0, n.value.1, j);
      forall q: nat, k: nat | |a| + p <= q < |a| + n.value.0
        ensures !ClosedAt(a + text, q, k)
      {
        ClosedBehind(a, text, q - |a|, k);
      }
      NextIs(a + text, |a| + p, |a| + n.value.0, |a| + n.value.1, j);
    } else if m.Some? {
      var j := NextIsBlock(a + text, |a| + p);
      BlockBounds(a + text, m.value.0, m.value.1, j);
      ClosedBehind(a, text, m.value.0 - |a|, j);
    }
  }

  lemma NextIsBlock(text: Bytes, p: nat) returns (j: nat)
    requires NextBlock(text, p).Some?
    ensures BlockAt(text, NextBlock(text, p).value.0, NextBlock(text, p).value.1, j)
  {
    hide BestBlock, BlockAt;
    j := BestIsBlock(text, p, |FORMS|);
  }

  lemma BlocksStep(text: Bytes, p: nat)
    ensures var n := NextBlock(text, p);
            BlocksIn(text, p) == if n.None? then [] else [text[n.value.0..n.value.1]] + BlocksIn(text, n.value.1)
  {
    hide NextBlock;
  }

  lemma {:induction false} BlocksBehind(a: Bytes, text: Bytes, p: nat)
    ensures BlocksIn(a + text, |a| + p) == BlocksIn(text, p)
    decreases |text| - p
  {
    hide NextBlock, BlocksIn;
    NextBehind(a, text, p);
    BlocksStep(text, p);
    BlocksStep(a + text, |a| + p);
    var n := NextBlock(text, p);
    if n.Some? {
      var (s, e) := n.value;
      assert (a + text)[|a| + s..|a| + e] == text[s..e];
      BlocksBehind(a, text, e);
    }
  }

  // Cutting a text into blocks

  /** A block and what stands before it. */
  datatype Stretch = Stretch(before: Bytes, block: Bytes)

  function Joined(parts: seq<Stretch>, tail: Bytes): Bytes {
    if parts == [] then tail else parts[0].before + (parts[0].block + Joined(parts[1..], tail))
  }

  function BlocksOf(parts: seq<Stretch>): seq<Bytes> {
    if parts == [] then [] else [parts[0].block] + BlocksOf(parts[1..])
  }

  /** Every block is one block, and none begins in what stands before it or in the tail. */
  ghost predicate WellCut(parts: seq<Stretch>, tail: Bytes) {
    if parts == [] then NoBlockFrom(tail, 0, |tail| + 1)
    else
      && OneBlock(parts[0].block) && NoBlockFrom(Joined(parts, tail), 0, |parts[0].before|)
      && WellCut(parts[1..], tail)
  }

  lemma BlockGrows(d: Bytes, b: Bytes, k: nat)
    requires BlockAt(d, 0, |d|, k)
    ensures BlockAt(d + b, 0, |d|, k)
  {
    hide IsAt, FORMS;
    var t := FORMS[k];
    assert d <= d + b;
    IsAtExtends(d, d + b, t.0, 0);
    IsAtExtends(d, d + b, t.1, |d| - |t.1|);
    forall q | 0 <= q < |d| - |t.1|
      ensures !IsAt(d + b, t.1, q)
    {
      if IsAt(d + b, t.1, q) {
        IsAtShrinks(d, d + b, t.1, q);
      }
    }
  }

  /** A text that begins with one block after a stretch in which none begins. */
  lemma FirstBlock(a: Bytes, d: Bytes, b: Bytes)
    requires OneBlock(d) && NoBlockFrom(a + (d + b), 0, |a|)
    ensures BlocksIn(a + (d + b), 0) == [d] + BlocksIn(b, 0)
  {
    hide FORMS, IsAt, NextBlock, BlocksIn, BlockAt, ClosedAt;
    var text := a + (d + b);
    var k: nat :| BlockAt(d, 0, |d|, k);
    BlockGrows(d, b, k);
    BlockBehind(a, d + b, 0, |d|, k);
    NextIs(text, 0, |a|, |a| + |d|, k);
    BlocksStep(text, 0);
    assert text[|a|..|a| + |d|] == d;
    assert text == (a + d) + b;
    BlocksBehind(a + d, b, 0);
  }

  /** The scan finds exactly the blocks of a cut text, in order. */
  lemma {:induction false} CutBlocks(parts: seq<Stretch>, tail: Bytes)
    requires WellCut(parts, tail)
    ensures BlocksIn(Joined(parts, tail), 0) == BlocksOf(parts)
    decreases |parts|
  {
    hide FORMS, IsAt, NextBlock, BlocksIn, OneBlock, NoBlockFrom;
    if parts == [] {
      NoBlockAtAll(tail);
    } else {
      CutBlocks(parts[1..], tail);
      FirstBlock(parts[0].before, parts[0].block, Joined(parts[1..], tail));
    }
  }

  lemma NoBlockAtAll(text: Bytes)
    requires NoBlockFrom(text, 0, |text| + 1)
    ensures BlocksIn(text, 0) == []
  {
    hide FORMS, IsAt, BestBlock, BlockAt, ClosedAt, NextBlock;
    BlocksStep(text, 0);
    if NextBlock(text, 0).Some? {
      var (s, e) := NextBlock(text, 0).value;
      var j := NextIsBlock(text, 0);
      BlockBounds(text, s, e, j);
    }
  }

  lemma BlockAlone(text: Bytes, s: nat, e: nat, k: nat)
    requires BlockAt(text, s, e, k) && e <= |text|
    ensures s <= e && BlockAt(text[s..e], 0, e - s, k)
  {
    hide IsAt, FORMS;
    BlockBounds(text, s, e, k);
    OpeningFits(text, s, e, k);
    var d, t := text[s..e], FORMS[k];
    Slice(text, s, e, t.0, 0);
    Slice(text, s, e, t.1, e - s - |t.1|);
    forall q | 0 <= q < e - s - |t.1|
      ensures !IsAt(d, t.1, q)
    {
      Slice(text, s, e, t.1, q);
    }
  }

  /** The only `<` of an opening text is not that of a closing one. */
  lemma OpeningBytes(k: nat)
    requires k < |FORMS|
    ensures var t, u, o := FORMS[k].0, FORMS[k].1, if k % 2 == 0 then 2 else 0;
            && |u| > 1 && u[0] == LT && u[1] == SLASH && o + 1 < |t| && t[o + 1] != SLASH
            && forall i :: 0 <= i < |t| && t[i] == LT ==> i == o
  {
    FormStarts(k);
    SyntaxesShape(k / 2);
    FormTags(k);
    hide FORMS, SYNTAXES, SyntaxShape;
    StartAndEnd(SYNTAXES[k / 2]);
  }

  lemma FormTags(k: nat)
    requires k < |FORMS|
    ensures |FORMS| == 6 && |SYNTAXES| == 3 && FORMS[k].1 == SYNTAXES[k / 2].toolEnd
    ensures FORMS[k].0 == if k % 2 == 0 then BLANK_LINE + SYNTAXES[k / 2].toolStart else SYNTAXES[k / 2].toolStart
    ensures |FORMS[k].1| > 1 && FORMS[k].1[1] == SLASH
  {
  }

  lemma StartAndEnd(x: Syntax)
    requires SyntaxShape(x)
    ensures x.toolStart != [] && forall i :: 0 < i < |x.toolStart| ==> x.toolStart[i] != LT
    ensures x.toolEnd != [] && x.toolEnd[0] == LT
  {
  }

  /** The closing text does not begin inside the opening text. */
  lemma OpeningFits(text: Bytes, s: nat, e: nat, k: nat)
    requires BlockAt(text, s, e, k)
    ensures |FORMS[k].0| <= e - s
  {
    hide IsAt, FORMS;
    OpeningBytes(k);
    var t, u := FORMS[k].0, FORMS[k].1;
    var c := e - |u|;
    ByteAt(text, u, c, 0);
    ByteAt(text, u, c, 1);
    if c < s + |t| {
      ByteAt(text, t, s, c - s);
      ByteAt(text, t, s, c - s + 1);
    }
  }

  lemma Slice(text: Bytes, s: nat, e: nat, t: Bytes, q: nat)
    requires s <= e <= |text|
    ensures IsAt(text[s..e], t, q) <==> IsAt(text, t, s + q) && q + |t| <= e - s
  {
    if q + |t| <= e - s {
      SliceOfSlice(text, s, e, q, q + |t|);
      assert s + (q + |t|) == s + q + |t|;
    }
  }

  lemma SliceOfSlice(text: Bytes, s: nat, e: nat, i: nat, j: nat)
    requires s <= e <= |text| && i <= j <= e - s
    ensures text[s..e][i..j] == text[s + i..s + j]
  {
    var d, a, b := text[s..e], text[s..e][i..j], text[s + i..s + j];
    forall k | 0 <= k < j - i
      ensures a[k] == b[k]
    {
      assert a[k] == d[i + k] == text[s + (i + k)];
    }
  }

  /** Every text can be cut so. */
  lemma {:induction false} EveryTextIsCut(text: Bytes) returns (parts: seq<Stretch>, tail: Bytes)
    ensures Joined(parts, tail) == text && WellCut(parts, tail)
    decreases |text|
  {
    hide FORMS, IsAt, NextBlock, BlockAt, ClosedAt, BestBlock;
    NothingBefore(text, 0);
    var n := NextBlock(text, 0);
    if n.None? {
      parts, tail := [], text;
    } else {
      var (s, e) := n.value;
      var j := NextIsBlock(text, 0);
      BlockBounds(text, s, e, j);
      BlockAlone(text, s, e, j);
      var rest;
      rest, tail := EveryTextIsCut(text[e..]);
      parts := [Stretch(text[..s], text[s..e])] + rest;
      assert parts[1..] == rest;
      ThreeParts(text, s, e);
    }
  }

  lemma ThreeParts(text: Bytes, s: nat, e: nat)
    requires s <= e <= |text|
    ensures text[..s] + (text[s..e] + text[e..]) == text
  {
  }

  /** A rendered block is one block when its closing text stands only at its end. */
  lemma RenderedIsOneBlock(list: seq<DsmlRender.Call>)
    requires list != []
    requires var d := DsmlRender.CallsText(DsmlRender.Calls(list, []));
             NotFrom(d, FULL.toolEnd, 0, |d| - |FULL.toolEnd|)
    ensures OneBlock(DsmlRender.CallsText(DsmlRender.Calls(list, [])))
  {
    hide DsmlRender.CallListText, FULL, IsAt, NotFrom;
    var d := DsmlRender.CallsText(DsmlRender.Calls(list, []));
    RenderedParts(BLANK_LINE, FULL.toolStart, [DsmlRender.NL], DsmlRender.CallListText(list), FULL.toolEnd);
    assert BlockAt(d, 0, |d|, 0);
  }

  lemma RenderedParts(a: Bytes, b: Bytes, n: Bytes, c: Bytes, e: Bytes)
    ensures var d := a + b + n + c + e; IsAt(d, a + b, 0) && IsAt(d, e, |d| - |e|)
  {
    var d := a + b + n + c + e;
    assert d[0..|a + b|] == a + b;
    assert d[|d| - |e|..|d|] == e;
  }
}
