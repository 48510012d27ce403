/** The edit buffer of a line editor with its folds, cursor and history. */
module LineEditor {
  import opened ByteStrings
  import opened Utf8
  import opened TextSteps
  import opened PasteInput
  import opened PasteFolds
  import opened FoldTable

  const PASTE_MAX := 1024 * 1024
  const FOLD_CONTEXT := 8
  const SPACE: Byte := 0x20

  // Steps of the cursor

  /** The first fold that starts, or ends, at a position. */
  function FoldAt(fs: seq<Fold>, pos: nat): (r: Option<Fold>)
    ensures r.Some? ==> r.value in fs && r.value.start == pos
  {
    if fs == [] then None else if fs[0].start == pos then Some(fs[0]) else FoldAt(fs[1..], pos)
  }

  function FoldBefore(fs: seq<Fold>, pos: nat): (r: Option<Fold>)
    ensures r.Some? ==> r.value in fs && r.value.end == pos
  {
    if fs == [] then None else if fs[0].end == pos then Some(fs[0]) else FoldBefore(fs[1..], pos)
  }

  /** The folds that are shown: none in mask mode. */
  function Visible(fs: seq<Fold>, buf: Bytes, mask: bool): seq<Fold> {
    if mask || buf == [] then [] else fs
  }

  function Length(f: Fold): nat {
    if f.start <= f.end then f.end - f.start else 0
  }

  /** How far one step right goes: over a whole fold, or over a character. */
  function StepRight(fs: seq<Fold>, buf: Bytes, pos: nat, mask: bool): nat {
    var f := FoldAt(Visible(fs, buf, mask), pos);
    if f.Some? then Length(f.value) else NextCharLen(buf, pos)
  }

  function StepLeft(fs: seq<Fold>, buf: Bytes, pos: nat, mask: bool): (r: nat)
    requires pos <= |buf|
    ensures r <= pos
  {
    var f := FoldBefore(Visible(fs, buf, mask), pos);
    if f.Some? then Length(f.value) else PrevCharLen(buf, pos)
  }

  lemma FoldIn(fs: seq<Fold>, lo: nat, hi: nat, f: Fold)
    requires Fit(fs, lo, hi) && f in fs
    ensures lo <= f.start < f.end <= hi
  {
    var i :| 0 <= i < |fs| && fs[i] == f;
  }

  /** A step right stays in the text when the character it takes does. */
  lemma StepRightStays(fs: seq<Fold>, buf: Bytes, pos: nat, mask: bool)
    requires Fit(fs, 0, |buf|) && pos < |buf| && pos + NextCharLen(buf, pos) <= |buf|
    ensures pos + StepRight(fs, buf, pos, mask) <= |buf|
  {
    hide Fit, Inside, Sorted;
    var f := FoldAt(Visible(fs, buf, mask), pos);
    if f.Some? {
      FoldIn(fs, 0, |buf|, f.value);
    }
  }

  lemma StepLeftMoves(fs: seq<Fold>, buf: Bytes, pos: nat, mask: bool)
    requires Fit(fs, 0, |buf|) && 0 < pos <= |buf|
    ensures StepLeft(fs, buf, pos, mask) > 0
  {
    hide Fit, Inside, Sorted;
    var f := FoldBefore(Visible(fs, buf, mask), pos);
    if f.Some? {
      FoldIn(fs, 0, |buf|, f.value);
    }
  }

  /** Where a fold begins a step right lands behind it, and elsewhere it takes one
      character. */
  lemma {:induction false} RightPassesFold(fs: seq<Fold>, buf: Bytes, pos: nat, mask: bool)
    requires Fit(fs, 0, |buf|)
    ensures forall f :: f in Visible(fs, buf, mask) && f.start == pos ==> pos + StepRight(fs, buf, pos, mask) == f.end
    ensures (forall f :: f in Visible(fs, buf, mask) ==> f.start != pos) ==> StepRight(fs, buf, pos, mask) == NextCharLen(buf, pos)
  {
    hide Fit, Inside, Sorted, NextCharLen, FoldAt;
    var shown := Visible(fs, buf, mask);
    forall f | f in shown && f.start == pos
      ensures pos + StepRight(fs, buf, pos, mask) == f.end
    {
      FoldFound(fs, f);
      FoldIn(fs, 0, |buf|, f);
      OneAt(fs, |buf|, f, FoldAt(fs, pos).value);
    }
  }

  lemma {:induction false} FoldFound(fs: seq<Fold>, f: Fold)
    requires f in fs
    ensures FoldAt(fs, f.start).Some? && FoldBefore(fs, f.end).Some?
  {
    if fs[0] != f {
      FoldFound(fs[1..], f);
    }
  }

  /** Folds do not meet, so no two begin or end together. */
  lemma OneAt(fs: seq<Fold>, n: nat, f: Fold, g: Fold)
    requires Fit(fs, 0, n) && f in fs && g in fs && (f.start == g.start || f.end == g.end)
    ensures f == g
  {
    var i :| 0 <= i < |fs| && fs[i] == f;
    var j :| 0 <= j < |fs| && fs[j] == g;
    FoldIn(fs, 0, n, f);
    FoldIn(fs, 0, n, g);
  }

  /** The same to the left. */
  lemma {:induction false} LeftPassesFold(fs: seq<Fold>, buf: Bytes, pos: nat, mask: bool)
    requires Fit(fs, 0, |buf|) && pos <= |buf|
    ensures forall f :: f in Visible(fs, buf, mask) && f.end == pos ==> pos - StepLeft(fs, buf, pos, mask) == f.start
    ensures (forall f :: f in Visible(fs, buf, mask) ==> f.end != pos) ==> StepLeft(fs, buf, pos, mask) == PrevCharLen(buf, pos)
  {
    hide Fit, Inside, Sorted, PrevCharLen, FoldBefore;
    var shown := Visible(fs, buf, mask);
    forall f | f in shown && f.end == pos
      ensures pos - StepLeft(fs, buf, pos, mask) == f.start
    {
      FoldFound(fs, f);
      FoldIn(fs, 0, |buf|, f);
      OneAt(fs, |buf|, f, FoldBefore(fs, pos).value);
    }
  }

  /** Back over spaces, or over what is not a space. */
  function BackOver(fs: seq<Fold>, buf: Bytes, pos: nat, mask: bool, spaces: bool): (r: nat)
    requires Fit(fs, 0, |buf|) && pos <= |buf|
    ensures r <= pos
    decreases pos
  {
    if pos > 0 && (buf[pos - 1] == SPACE <==> spaces) then
      StepLeftMoves(fs, buf, pos, mask);
      BackOver(fs, buf, pos - StepLeft(fs, buf, pos, mask), mask, spaces)
    else pos
  }

  function WordStart(fs: seq<Fold>, buf: Bytes, pos: nat, mask: bool): (r: nat)
    requires Fit(fs, 0, |buf|) && pos <= |buf|
    ensures r <= pos
  {
    BackOver(fs, buf, BackOver(fs, buf, pos, mask, true), mask, false)
  }

  /** No fold is in sight between `i` and `k`. */
  ghost predicate NoFoldEnds(fs: seq<Fold>, i: nat, k: nat) {
    forall f :: f in fs ==> !(i < f.end <= k)
  }

  lemma AsciiBack(fs: seq<Fold>, buf: Bytes, pos: nat, mask: bool)
    requires Fit(fs, 0, |buf|) && 0 < pos <= |buf| && NoFoldEnds(fs, pos - 1, pos)
    requires buf[pos - 1] < 0x80 && (pos > 1 ==> buf[pos - 2] < 0x80)
    ensures StepLeft(fs, buf, pos, mask) == 1
  {
    hide Fit, Inside, Sorted, PrevCharLen, FoldBefore;
    LeftPassesFold(fs, buf, pos, mask);
    AsciiPrev(buf, pos);
  }

  /** Over ASCII bytes of one kind, back to where the other kind or the text begins. */
  lemma {:induction false} BackOverRun(fs: seq<Fold>, buf: Bytes, i: nat, pos: nat, mask: bool, spaces: bool)
    requires Fit(fs, 0, |buf|) && i <= pos <= |buf| && NoFoldEnds(fs, i, pos)
    requires forall k :: i <= k < pos ==> buf[k] < 0x80 && (buf[k] == SPACE <==> spaces)
    requires i > 0 ==> buf[i - 1] < 0x80 && (buf[i - 1] == SPACE <==> !spaces)
    ensures BackOver(fs, buf, pos, mask, spaces) == i
    decreases pos
  {
    hide Fit, Inside, Sorted, StepLeft;
    if i < pos {
      AsciiBack(fs, buf, pos, mask);
      BackOverRun(fs, buf, i, pos - 1, mask, spaces);
    }
  }

  /** In ASCII text without folds near by, a word and the spaces behind it are passed, up
      to the space before the word or to the start. */
  lemma WordStartIs(fs: seq<Fold>, buf: Bytes, i: nat, m: nat, pos: nat, mask: bool)
    requires Fit(fs, 0, |buf|) && i < m <= pos <= |buf| && NoFoldEnds(fs, i, pos)
    requires forall k :: i <= k < m ==> buf[k] < 0x80 && buf[k] != SPACE
    requires forall k :: m <= k < pos ==> buf[k] == SPACE
    requires i > 0 ==> buf[i - 1] == SPACE
    ensures WordStart(fs, buf, pos, mask) == i
  {
    hide Fit, Inside, Sorted, BackOver;
    BackOverRun(fs, buf, m, pos, mask, true);
    BackOverRun(fs, buf, i, m, mask, false);
  }

  // The fold of a recalled entry

  /** A few characters at the start, and whether a line ends among them. */
  function Head(buf: Bytes, pos: nat, chars: nat, newline: bool): (r: (nat, bool))
    requires pos <= |buf| && chars <= FOLD_CONTEXT
    ensures r.0 <= |buf|
    decreases FOLD_CONTEXT - chars
  {
    var step := NextCharLen(buf, pos);
    if pos == |buf| || chars == FOLD_CONTEXT || step == 0 || pos + step > |buf| then (pos, newline)
    else Head(buf, pos + step, chars + 1, newline || buf[pos] == NEWLINE)
  }

  function Tail(buf: Bytes, pos: nat, chars: nat, newline: bool): (r: (nat, bool))
    requires pos <= |buf| && chars <= FOLD_CONTEXT
    ensures r.0 <= |buf|
    decreases FOLD_CONTEXT - chars
  {
    if pos == 0 || chars == FOLD_CONTEXT then (pos, newline)
    else
      var p := pos - PrevCharLen(buf, pos);
      Tail(buf, p, chars + 1, newline || buf[p] == NEWLINE)
  }

  /** What is hidden of a recalled text: the middle, or all of it. */
  function HistoryFold(buf: Bytes): (f: Fold)
    requires buf != []
    ensures f.start < f.end <= |buf|
  {
    if |buf| <= 2 * FOLD_CONTEXT then Fold(0, |buf|)
    else
      var h, t := Head(buf, 0, 0, false), Tail(buf, |buf|, 0, false);
      var start, end := if h.1 then 0 else h.0, if t.1 then |buf| else t.0;
      if start < end then Fold(start, end) else Fold(0, |buf|)
  }

  /** The place after `n` characters from the start. */
  function Ahead(buf: Bytes, n: nat): nat {
    if n == 0 then 0 else var p := Ahead(buf, n - 1); p + NextCharLen(buf, p)
  }

  /** The place before the last `n` characters. */
  function Behind(buf: Bytes, n: nat): (r: nat)
    ensures r <= |buf|
  {
    if n == 0 then |buf| else var p := Behind(buf, n - 1); p - PrevCharLen(buf, p)
  }

  /** One of the first `n` characters is a line end. */
  ghost predicate LineEndsAhead(buf: Bytes, n: nat) {
    exists k :: 0 <= k < n && Ahead(buf, k) < |buf| && buf[Ahead(buf, k)] == NEWLINE
  }

  ghost predicate LineEndsBehind(buf: Bytes, n: nat) {
    exists k :: 0 < k <= n && Behind(buf, k - 1) > 0 && Behind(buf, k) < |buf| && buf[Behind(buf, k)] == NEWLINE
  }

  lemma {:induction false} AheadStays(buf: Bytes, n: nat)
    requires Chars(buf, 0, |buf|)
    ensures Ahead(buf, n) <= |buf| && Chars(buf, Ahead(buf, n), |buf|)
  {
    hide Chars, NextCharLen;
    if n > 0 {
      AheadStays(buf, n - 1);
      var p := Ahead(buf, n - 1);
      if p < |buf| {
        StepStaysInText(buf, p);
      } else {
        NothingAhead(buf, p);
      }
    }
  }

  lemma NothingAhead(buf: Bytes, p: nat)
    requires p >= |buf|
    ensures NextCharLen(buf, p) == 0
  {
  }

  lemma {:induction false} HeadIs(buf: Bytes, n: nat, newline: bool)
    requires Chars(buf, 0, |buf|) && n <= FOLD_CONTEXT && newline == LineEndsAhead(buf, n)
    requires Ahead(buf, n) <= |buf|
    ensures Head(buf, Ahead(buf, n), n, newline) == (Ahead(buf, FOLD_CONTEXT), LineEndsAhead(buf, FOLD_CONTEXT))
    decreases FOLD_CONTEXT - n
  {
    hide Chars, NextCharLen;
    var p := Ahead(buf, n);
    AheadStays(buf, n);
    AheadStays(buf, n + 1);
    if n < FOLD_CONTEXT {
      MoreAhead(buf, n);
      if p == |buf| {
        EndAhead(buf, n, FOLD_CONTEXT);
      } else {
        StepStaysInText(buf, p);
        HeadIs(buf, n + 1, newline || buf[p] == NEWLINE);
      }
    }
  }

  lemma MoreAhead(buf: Bytes, n: nat)
    ensures LineEndsAhead(buf, n + 1) == (LineEndsAhead(buf, n) || (Ahead(buf, n) < |buf| && buf[Ahead(buf, n)] == NEWLINE))
  {
    hide Ahead;
  }

  lemma {:induction false} EndAhead(buf: Bytes, n: nat, m: nat)
    requires Ahead(buf, n) == |buf| && n <= m
    ensures Ahead(buf, m) == |buf| && LineEndsAhead(buf, m) == LineEndsAhead(buf, n)
    decreases m - n
  {
    hide NextCharLen;
    if n < m {
      NothingAhead(buf, |buf|);
      MoreAhead(buf, n);
      EndAhead(buf, n + 1, m);
    }
  }

  lemma {:induction false} TailIs(buf: Bytes, n: nat, newline: bool)
    requires n <= FOLD_CONTEXT && newline == LineEndsBehind(buf, n)
    ensures Tail(buf, Behind(buf, n), n, newline) == (Behind(buf, FOLD_CONTEXT), LineEndsBehind(buf, FOLD_CONTEXT))
    decreases FOLD_CONTEXT - n
  {
    hide PrevCharLen;
    var p := Behind(buf, n);
    if n < FOLD_CONTEXT {
      MoreBehind(buf, n);
      if p == 0 {
        StartBehind(buf, n, FOLD_CONTEXT);
      } else {
        TailIs(buf, n + 1, newline || buf[Behind(buf, n + 1)] == NEWLINE);
      }
    }
  }

  lemma MoreBehind(buf: Bytes, n: nat)
    ensures LineEndsBehind(buf, n + 1)
         == (LineEndsBehind(buf, n) || (Behind(buf, n) > 0 && Behind(buf, n + 1) < |buf| && buf[Behind(buf, n + 1)] == NEWLINE))
  {
    hide Behind;
    assert LineEndsBehind(buf, n + 1) ==>
        exists k :: 0 < k <= n + 1 && Behind(buf, k - 1) > 0 && Behind(buf, k) < |buf| && buf[Behind(buf, k)] == NEWLINE;
  }

  lemma {:induction false} StartBehind(buf: Bytes, n: nat, m: nat)
    requires Behind(buf, n) == 0 && n <= m
    ensures Behind(buf, m) == 0 && LineEndsBehind(buf, m) == LineEndsBehind(buf, n)
    decreases m - n
  {
    hide PrevCharLen;
    if n < m {
      MoreBehind(buf, n);
      StartBehind(buf, n + 1, m);
    }
  }

  /** What stays visible of a long recalled text: the first eight and the last eight
      characters. A side on which a line ends is hidden up to the edge, and when the two
      sides meet everything is hidden. */
  lemma ContextIsShown(buf: Bytes)
    requires Chars(buf, 0, |buf|) && |buf| > 2 * FOLD_CONTEXT
    ensures var start := if LineEndsAhead(buf, 8) then 0 else Ahead(buf, 8);
            var end := if LineEndsBehind(buf, 8) then |buf| else Behind(buf, 8);
            HistoryFold(buf) == if start < end then Fold(start, end) else Fold(0, |buf|)
  {
    hide Chars, Head, Tail, LineEndsAhead, LineEndsBehind, Behind, Ahead;
    NoneYet(buf);
    HeadIs(buf, 0, false);
    TailIs(buf, 0, false);
  }

  lemma NoneYet(buf: Bytes)
    ensures !LineEndsAhead(buf, 0) && !LineEndsBehind(buf, 0) && Ahead(buf, 0) == 0 && Behind(buf, 0) == |buf|
  {
  }

  /** Of a long line of ASCII text all but eight bytes at each end are hidden. */
  lemma AsciiContext(buf: Bytes)
    requires |buf| > 2 * FOLD_CONTEXT && forall i :: 0 <= i < |buf| ==> buf[i] < 0x80 && buf[i] != NEWLINE
    ensures HistoryFold(buf) == Fold(8, |buf| - 8)
  {
    hide Chars, HistoryFold;
    AsciiChars(buf, 0);
    AsciiAhead(buf, 8);
    AsciiBehind(buf, 8);
    ContextIsShown(buf);
  }

  lemma {:induction false} AsciiChars(buf: Bytes, i: nat)
    requires i <= |buf| && forall k :: 0 <= k < |buf| ==> buf[k] < 0x80
    ensures Chars(buf, i, |buf|)
    decreases |buf| - i
  {
    if i < |buf| {
      AsciiChars(buf, i + 1);
      assert IsChar(buf[i..i + 1]);
    }
  }

  lemma {:induction false} AsciiAhead(buf: Bytes, n: nat)
    requires n < |buf| && forall i :: 0 <= i < |buf| ==> buf[i] < 0x80 && buf[i] != NEWLINE
    ensures Ahead(buf, n) == n && !LineEndsAhead(buf, n)
  {
    hide NextCharLen;
    if n > 0 {
      AsciiAhead(buf, n - 1);
      AsciiNext(buf, n - 1);
    }
  }

  lemma {:induction false} AsciiBehind(buf: Bytes, n: nat)
    requires n < |buf| && forall i :: 0 <= i < |buf| ==> buf[i] < 0x80 && buf[i] != NEWLINE
    ensures Behind(buf, n) == |buf| - n && !LineEndsBehind(buf, n)
  {
    hide PrevCharLen;
    if n > 0 {
      AsciiBehind(buf, n - 1);
      AsciiPrev(buf, |buf| - (n - 1));
    }
  }

  function RecallFolds(buf: Bytes, mask: bool): seq<Fold> {
    if buf == [] || mask || !ShouldFold(buf) then [] else [HistoryFold(buf)]
  }

  /** A recalled line of ASCII text is shown whole below 200 bytes and from there on with
      eight bytes at each end. */
  lemma RecalledLine(buf: Bytes)
    requires forall i :: 0 <= i < |buf| ==> buf[i] < 0x80 && buf[i] != NEWLINE
    ensures RecallFolds(buf, false) == if |buf| < 200 then [] else [Fold(8, |buf| - 8)]
  {
    hide HistoryFold;
    if |buf| >= 200 {
      AsciiContext(buf);
    }
  }

  // Room for text

  /** A buffer of `capacity` bytes, or one that may grow to `limit`, holds `n`. */
  predicate Fits(capacity: nat, limit: nat, n: nat) {
    n <= capacity || (limit != 0 && n <= limit)
  }

  /** How much a paste may bring: nothing once all folds are in use. */
  function PasteRoom(len: nat, folds: nat, capacity: nat, limit: nat): nat {
    var max := if limit != 0 then limit else capacity;
    var room := if max > len then max - len else 0;
    if folds == MAX_FOLDS then 0 else if room > PASTE_MAX then PASTE_MAX else room
  }

  /** A paste has room exactly when a fold is free, it is not longer than a mebibyte, and
      the text with it is within the limit, or within the buffer when that cannot grow. */
  lemma RoomIff(len: nat, folds: nat, capacity: nat, limit: nat, n: nat)
    requires n > 0
    ensures n <= PasteRoom(len, folds, capacity, limit)
            <==> folds != 16 && n <= 1048576 && len + n <= if limit == 0 then capacity else limit
  {
  }

  // The effect of a paste

  predicate Accepted(text: Bytes, room: nat) {
    text != [] && |text| <= room
  }

  function PastedFolds(fs: seq<Fold>, pos: nat, s: Bytes, mask: bool): seq<Fold> {
    var moved := AfterInsert(fs, pos, |s|);
    if !mask && ShouldFold(s) then WithFold(moved, Fold(pos, pos + |s|)) else moved
  }

  class Editor {
    var buf: Bytes
    var pos: nat
    var capacity: nat
    /** The largest capacity; 0 when the buffer cannot grow. */
    const limit: nat
    const mask: bool
    const folds: Table
    var history: seq<Bytes>
    var index: nat

    ghost predicate Valid()
      reads this, folds, folds.starts, folds.ends
    {
      && folds.Valid() && pos <= |buf| <= capacity && Fit(folds.Folds(), 0, |buf|)
      && (history != [] ==> index < |history|)
    }

    constructor (capacity: nat, limit: nat, mask: bool)
      ensures Valid() && buf == [] && pos == 0 && folds.Folds() == [] && fresh(folds) && fresh(folds.starts) && fresh(folds.ends)
    {
      buf, pos, this.capacity, this.limit, this.mask, history, index := [], 0, capacity, limit, mask, [], 0;
      folds := new Table();
    }

    /** Make room for `needed` bytes by doubling. */
    method Grow(needed: nat) returns (ok: bool)
      modifies this`capacity
      ensures ok <==> Fits(old(capacity), limit, needed)
      ensures ok ==> needed <= capacity
      ensures old(capacity) <= capacity && (limit == 0 || !ok ==> capacity == old(capacity))
    {
      if needed <= capacity {
        return true;
      }
      if limit == 0 || needed > limit {
        return false;
      }
      var size := if capacity != 0 then capacity else 16;
      while size < needed
        invariant capacity <= size && 0 < size
        decreases needed - size
      {
        if size > limit / 2 {
          size := limit;
          break;
        }
        size := size * 2;
      }
      capacity := size;
      ok := true;
    }

    /** Insert at the cursor; fails when there is no room. */
    method Insert(s: Bytes) returns (ok: bool)
      requires Valid()
      modifies this`buf, this`pos, this`capacity, folds, folds.starts, folds.ends
      ensures Valid() && old(capacity) <= capacity && (limit == 0 ==> capacity == old(capacity))
      ensures ok <==> Fits(old(capacity), limit, |old(buf)| + |s|)
      ensures !ok ==> buf == old(buf) && pos == old(pos) && folds.Folds() == old(folds.Folds())
      ensures ok ==> buf == Inserted(old(buf), old(pos), s) && pos == old(pos) + |s|
      ensures ok ==> folds.Folds() == AfterInsert(old(folds.Folds()), old(pos), |s|)
    {
      hide Fit, Inside, Sorted, AfterInsert;
      ok := Grow(|buf| + |s|);
      if ok {
        InsertFits(folds.Folds(), pos, |s|, 0, |buf|);
        folds.AdjustAfterInsert(pos, |s|);
        buf := buf[..pos] + s + buf[pos..];
        pos := pos + |s|;
      }
    }

    method EditNextLen() returns (n: nat)
      requires Valid()
      ensures n == StepRight(folds.Folds(), buf, pos, mask)
    {
      hide Fit, Inside, Sorted, NextCharLen;
      if buf != [] && !mask {
        ghost var fs := folds.Folds();
        assert fs[0..] == fs;
        for j := 0 to folds.count
          invariant FoldAt(fs[j..], pos) == FoldAt(fs, pos)
        {
          assert fs[j..][1..] == fs[j + 1..];
          if folds.starts[j] == pos {
            FoldIn(fs, 0, |buf|, fs[j]);
            return folds.ends[j] - folds.starts[j];
          }
        }
      }
      n := ComputeNextCharLen(buf, pos);
    }

    method EditPrevLen(p: nat) returns (n: nat)
      requires Valid() && p <= |buf|
      ensures n == StepLeft(folds.Folds(), buf, p, mask)
    {
      hide Fit, Inside, Sorted, PrevCharLen;
      if buf != [] && !mask {
        ghost var fs := folds.Folds();
        assert fs[0..] == fs;
        for j := 0 to folds.count
          invariant FoldBefore(fs[j..], p) == FoldBefore(fs, p)
        {
          assert fs[j..][1..] == fs[j + 1..];
          if folds.ends[j] == p {
            FoldIn(fs, 0, |buf|, fs[j]);
            return folds.ends[j] - folds.starts[j];
          }
        }
      }
      n := ComputePrevCharLen(buf, p);
    }

    method MoveLeft()
      requires Valid()
      modifies this`pos
      ensures Valid() && pos == old(pos) - StepLeft(folds.Folds(), buf, old(pos), mask)
    {
      hide Fit, Inside, Sorted, StepLeft;
      var n := EditPrevLen(pos);
      pos := pos - n;
    }

    method MoveRight()
      requires Valid() && (pos < |buf| ==> pos + NextCharLen(buf, pos) <= |buf|)
      modifies this`pos
      ensures Valid()
      ensures pos == if old(pos) == |buf| then old(pos) else old(pos) + StepRight(folds.Folds(), buf, old(pos), mask)
    {
      hide Fit, Inside, Sorted, StepRight;
      if pos != |buf| {
        StepRightStays(folds.Folds(), buf, pos, mask);
        var n := EditNextLen();
        pos := pos + n;
      }
    }

    /** Take `n` bytes out at `at`; the cursor goes there. */
    method Cut(at: nat, n: nat)
      requires Valid() && at + n <= |buf|
      modifies this`buf, this`pos, folds, folds.starts, folds.ends
      ensures Valid() && buf == Deleted(old(buf), at, n) && pos == at
      ensures folds.Folds() == AfterDelete(old(folds.Folds()), at, n)
    {
      hide Fit, Inside, Sorted, AfterDelete, Ordered;
      CutFits(folds.Folds(), at, n, |buf|);
      folds.AdjustAfterDelete(at, n);
      buf := buf[..at] + buf[at + n..];
      pos := at;
    }

    /** Delete what is right of the cursor. */
    method Delete()
      requires Valid() && (pos < |buf| ==> pos + NextCharLen(buf, pos) <= |buf|)
      modifies this`buf, this`pos, folds, folds.starts, folds.ends
      ensures Valid() && pos == old(pos)
      ensures var n := if old(pos) == |old(buf)| then 0 else StepRight(old(folds.Folds()), old(buf), old(pos), mask);
              && old(pos) + n <= |old(buf)|
              && (old(pos) < |old(buf)| ==>
                    buf == Deleted(old(buf), old(pos), n) && folds.Folds() == AfterDelete(old(folds.Folds()), old(pos), n))
              && (old(pos) == |old(buf)| ==> buf == old(buf) && folds.Folds() == old(folds.Folds()))
    {
      hide Fit, Inside, Sorted, AfterDelete, StepRight, Deleted;
      if pos < |buf| {
        StepRightStays(folds.Folds(), buf, pos, mask);
        var n := EditNextLen();
        Cut(pos, n);
      }
    }

    /** Delete what is left of the cursor. */
    method Backspace()
      requires Valid()
      modifies this`buf, this`pos, folds, folds.starts, folds.ends
      ensures var n := StepLeft(old(folds.Folds()), old(buf), old(pos), mask);
              && Valid() && pos == old(pos) - n
              && (old(pos) > 0 ==> buf == Deleted(old(buf), pos, n) && folds.Folds() == AfterDelete(old(folds.Folds()), pos, n))
              && (old(pos) == 0 ==> buf == old(buf) && folds.Folds() == old(folds.Folds()))
    {
      hide Fit, Inside, Sorted, AfterDelete, StepLeft, Deleted;
      if pos > 0 {
        var n := EditPrevLen(pos);
        Cut(pos - n, n);
      }
    }

    method SkipBack(start: nat, spaces: bool) returns (p: nat)
      requires Valid() && start <= |buf|
      ensures p == BackOver(folds.Folds(), buf, start, mask, spaces)
    {
      hide Fit, Inside, Sorted, StepLeft;
      p := start;
      while p > 0 && (buf[p - 1] == SPACE <==> spaces)
        invariant p <= start && BackOver(folds.Folds(), buf, p, mask, spaces) == BackOver(folds.Folds(), buf, start, mask, spaces)
        decreases p
      {
        StepLeftMoves(folds.Folds(), buf, p, mask);
        var n := EditPrevLen(p);
        p := p - n;
      }
    }

    /** Delete back to the start of a word. */
    method DeletePrevWord()
      requires Valid()
      modifies this`buf, this`pos, folds, folds.starts, folds.ends
      ensures var p := WordStart(old(folds.Folds()), old(buf), old(pos), mask);
              && Valid() && pos == p && buf == Deleted(old(buf), p, old(pos) - p)
              && folds.Folds() == AfterDelete(old(folds.Folds()), p, old(pos) - p)
    {
      hide Fit, Inside, Sorted, AfterDelete, Deleted, BackOver;
      var p := SkipBack(pos, true);
      p := SkipBack(p, false);
      Cut(p, pos - p);
    }

    /** Delete from the cursor to the end. */
    method KillToEnd()
      requires Valid()
      modifies this`buf, this`pos, folds, folds.starts, folds.ends
      ensures Valid() && pos == old(pos) && buf == old(buf)[..old(pos)]
      ensures folds.Folds() == AfterDelete(old(folds.Folds()), old(pos), |old(buf)| - old(pos))
    {
      hide Fit, Inside, Sorted, AfterDelete;
      Cut(pos, |buf| - pos);
    }

    method KillLine()
      requires Valid()
      modifies this`buf, this`pos, folds
      ensures Valid() && buf == [] && pos == 0 && folds.Folds() == []
    {
      buf, pos := [], 0;
      folds.Clear();
    }

    /** Swap the characters around the cursor, unless one of them is hidden or they are
        too long. */
    method Transpose()
      requires Valid() && (pos < |buf| ==> pos + NextCharLen(buf, pos) <= |buf|)
      modifies this`buf, this`pos
      ensures var fs, p, q := old(folds.Folds()), old(pos) - StepLeft(old(folds.Folds()), old(buf), old(pos), mask),
                              old(pos) + StepRight(old(folds.Folds()), old(buf), old(pos), mask);
              && Valid() && folds.Folds() == fs
              && if 0 < old(pos) < |old(buf)| && CanSwap(fs, p, old(pos), q)
                 then q <= |old(buf)| && buf == Swapped(old(buf), p, old(pos), q) && pos == q
                 else buf == old(buf) && pos == old(pos)
    {
      hide Fit, Inside, Sorted, StepLeft, StepRight, Apart, Swapped, NextCharLen;
      if 0 < pos < |buf| {
        StepLeftMoves(folds.Folds(), buf, pos, mask);
        StepRightStays(folds.Folds(), buf, pos, mask);
        var left := EditPrevLen(pos);
        var right := EditNextLen();
        if left > MAX_SWAP || right > MAX_SWAP {
          return;
        }
        var p, q := pos - left, pos + right;
        var hidden := folds.Overlaps(p, left + right);
        OverlapIs(folds.Folds(), p, q);
        if hidden {
          return;
        }
        SwapIs(buf, p, pos, q);
        buf := buf[..p] + buf[pos..q] + buf[p..pos] + buf[q..];
        pos := q;
      }
    }

    /** Show an entry of the history, clipped to the room there is. */
    method ShowEntry(entry: Bytes)
      requires Valid()
      modifies this`buf, this`pos, this`capacity, folds, folds.starts, folds.ends
      ensures Valid() && pos == |buf|
      ensures buf == if Fits(old(capacity), limit, |entry|) then entry else entry[..old(capacity)]
      ensures folds.Folds() == RecallFolds(buf, mask)
    {
      hide Fit, Inside, Sorted, HistoryFold, ShouldFold;
      var ok := Grow(|entry|);
      var len := if !ok && |entry| > capacity then capacity else |entry|;
      buf := entry[..len];
      pos := len;
      folds.Clear();
      var f := BuildHistoryFold();
      if f.Some? {
        folds.Add(f.value.start, f.value.end);
        OneFold(f.value);
        FitOne(f.value, |buf|);
      } else {
        FitEmpty(0, |buf|);
      }
    }

    method BuildHistoryFold() returns (r: Option<Fold>)
      ensures r == if buf == [] || mask || !ShouldFold(buf) then None else Some(HistoryFold(buf))
    {
      hide ShouldFold, Head, Tail;
      if buf == [] || mask || !ShouldFold(buf) {
        return None;
      }
      var start, end := 0, |buf|;
      if |buf| > 2 * FOLD_CONTEXT {
        var h, nl := ScanHead();
        start := if nl then 0 else h;
        var t, nl' := ScanTail();
        end := if nl' then |buf| else t;
        if start >= end {
          start, end := 0, |buf|;
        }
      }
      r := Some(Fold(start, end));
    }

    method ScanHead() returns (p: nat, newline: bool)
      ensures (p, newline) == Head(buf, 0, 0, false)
    {
      hide NextCharLen;
      p, newline := 0, false;
      var chars := 0;
      while p < |buf| && chars < FOLD_CONTEXT
        invariant p <= |buf| && 0 <= chars <= FOLD_CONTEXT && Head(buf, p, chars, newline) == Head(buf, 0, 0, false)
        decreases FOLD_CONTEXT - chars
      {
        var step := ComputeNextCharLen(buf, p);
        if step == 0 || p + step > |buf| {
          break;
        }
        newline := newline || buf[p] == NEWLINE;
        p, chars := p + step, chars + 1;
      }
    }

    method ScanTail() returns (p: nat, newline: bool)
      ensures (p, newline) == Tail(buf, |buf|, 0, false)
    {
      hide PrevCharLen;
      p, newline := |buf|, false;
      var chars := 0;
      while p > 0 && chars < FOLD_CONTEXT
        invariant p <= |buf| && 0 <= chars <= FOLD_CONTEXT && Tail(buf, p, chars, newline) == Tail(buf, |buf|, 0, false)
        decreases FOLD_CONTEXT - chars
      {
        var step := ComputePrevCharLen(buf, p);
        p := p - step;
        newline := newline || buf[p] == NEWLINE;
        chars := chars + 1;
      }
    }

    /** Go to the previous or the next entry of the history, keeping the edited text in
        the one that is left. */
    method Recall(previous: bool)
      requires Valid()
      modifies this`buf, this`pos, this`capacity, this`history, this`index, folds, folds.starts, folds.ends
      ensures Valid()
      ensures old(|history| <= 1) ==>
                history == old(history) && index == old(index) && buf == old(buf) && pos == old(pos) && folds.Folds() == old(folds.Folds())
      ensures old(|history| > 1) ==>
                var last := |old(history)| - 1;
                var to := if previous then old(index) + 1 else old(index) - 1;
                && history == old(history)[last - old(index) := old(buf)]
                && if 0 <= to <= last
                   then var entry := history[last - to];
                        && index == to && pos == |buf| && folds.Folds() == RecallFolds(buf, mask)
                        && buf == if Fits(old(capacity), limit, |entry|) then entry else entry[..old(capacity)]
                   else index == old(index) && buf == old(buf) && pos == old(pos) && folds.Folds() == old(folds.Folds())
    {
      hide Fit, Inside, Sorted, RecallFolds;
      if |history| > 1 {
        history := history[|history| - 1 - index := buf];
        var to: int := if previous then index + 1 else index - 1;
        if to < 0 {
          index := 0;
          return;
        }
        if to >= |history| {
          index := |history| - 1;
          return;
        }
        index := to;
        ShowEntry(history[|history| - 1 - index]);
      }
    }

    /** Read a paste from the input: up to its terminator. `text` is what it brings. */
    method ReadPaste(input: Bytes) returns (text: Bytes, taken: nat, overflow: bool, ghost whole: Bytes)
      requires Valid()
      modifies this`capacity
      ensures Valid() && IsPaste(input, whole, taken)
      ensures overflow <==> |whole| > PasteRoom(|buf|, folds.count, old(capacity), limit)
      ensures !overflow ==> text == whole && Fits(capacity, limit, |buf| + |text|)
      ensures limit == 0 ==> capacity == old(capacity)
    {
      hide Fit, Inside, Sorted, Matching, IsPaste, PasteRoom, Fits, Collected;
      RoomFits(|buf|, folds.count, capacity, limit);
      var room := PasteRoom(|buf|, folds.count, capacity, limit);
      var m: nat, n: nat := 0, 0;
      text, overflow := [], false;
      MatchBegins(input);
      CollectBegins(input, room);
      while n < |input|
        invariant n <= |input| && m < |PASTE_END| && Matching(input, n, m) && Collected(input, n, m, text, overflow, room)
        invariant Valid() && (limit == 0 ==> capacity == old(capacity)) && Fits(capacity, limit, |buf| + room)
      {
        if m + 1 == |PASTE_END| && input[n] == PASTE_END[m] {
          MatchDone(input, n);
          FoundPaste(input, n - m);
          n, m := n + 1, m + 1;
          break;
        }
        m, text, overflow := TakeByte(input, n, m, text, overflow, room);
        n := n + 1;
      }
      if m < |PASTE_END| {
        UnfinishedPaste(input, m);
      }
      CollectEnds(input, n, m, text, overflow, room);
      whole := input[..n - m];
      taken := n;
      FewerFit(capacity, limit, |buf|, room, if overflow then 0 else |text|);
    }

    /** The matcher takes a byte that does not complete the terminator: what turns out
        not to begin one is collected. */
    method TakeByte(input: Bytes, n: nat, m: nat, text: Bytes, overflow: bool, room: nat)
      returns (m': nat, text': Bytes, overflow': bool)
      requires n < |input| && m < |PASTE_END| && Matching(input, n, m) && Collected(input, n, m, text, overflow, room)
      requires !(m + 1 == |PASTE_END| && input[n] == PASTE_END[m])
      requires Valid() && Fits(capacity, limit, |buf| + room)
      modifies this`capacity
      ensures m' < |PASTE_END| && Matching(input, n + 1, m') && Collected(input, n + 1, m', text', overflow', room)
      ensures Valid() && (limit == 0 ==> capacity == old(capacity)) && Fits(capacity, limit, |buf| + room)
    {
      hide Fit, Inside, Sorted, Matching, Fits;
      var c := input[n];
      MatchStep(input, n, m);
      PartIs(input, n, m);
      text', overflow' := text, overflow;
      if c == PASTE_END[m] {
        m' := m + 1;
        return;
      }
      if m > 0 {
        text', overflow' := Append(text', PASTE_END[..m], room, overflow');
      }
      if c == PASTE_END[0] {
        m' := 1;
      } else {
        m' := 0;
        assert input[..n + 1] == input[..n] + [c];
        text', overflow' := Append(text', [c], room, overflow');
      }
    }

    /** Collect bytes of a paste while they fit. */
    method Append(text: Bytes, more: Bytes, room: nat, overflow: bool) returns (r: Bytes, over: bool)
      requires Valid() && Fits(capacity, limit, |buf| + room) && (!overflow ==> |text| <= room)
      modifies this`capacity
      ensures Valid() && (limit == 0 ==> capacity == old(capacity)) && Fits(capacity, limit, |buf| + room)
      ensures over <==> overflow || |text| + |more| > room
      ensures !over ==> r == text + more
    {
      hide Fit, Inside, Sorted;
      r, over := text, true;
      if !overflow && |more| <= room - |text| {
        var ok := Grow(|buf| + |text| + |more|);
        assert ok;
        r, over := text + more, false;
      }
    }

    /** Take in a bracketed paste: its text with normal line ends goes in at the cursor,
        hidden when it is long or has lines. What does not fit is dropped whole. */
    method Paste(input: Bytes) returns (taken: nat, ghost text: Bytes)
      requires Valid()
      modifies this`buf, this`pos, this`capacity, folds, folds.starts, folds.ends
      ensures Valid() && IsPaste(input, text, taken)
      ensures var fs, s := old(folds.Folds()), Normalized(text);
              if Accepted(text, PasteRoom(|old(buf)|, |fs|, old(capacity), limit))
              then && buf == Inserted(old(buf), old(pos), s) && pos == old(pos) + |s|
                   && folds.Folds() == PastedFolds(fs, old(pos), s, mask)
                   && (!mask && ShouldFold(s) ==> Fold(old(pos), pos) in folds.Folds())
              else buf == old(buf) && pos == old(pos) && folds.Folds() == fs
    {
      hide Fit, Inside, Sorted, IsPaste, Normalized, ShouldFold, AfterInsert, Added, Inserted;
      var bytes, over;
      bytes, taken, over, text := ReadPaste(input);
      if over || bytes == [] {
        return;
      }
      var paste := new Byte[|bytes|](i requires 0 <= i < |bytes| => bytes[i]);
      assert paste[..|bytes|] == bytes;
      var w := NormalizeInPlace(paste, |bytes|);
      var s := paste[..w];
      NormalText(bytes);
      FewerFit(capacity, limit, |buf|, |bytes|, |s|);
      ghost var fs, at, len := folds.Folds(), pos, |buf|;
      PasteFits(fs, at, |s|, len);
      InsertKeepsRoom(fs, at, |s|);
      if !mask && ShouldFold(s) {
        var start := pos;
        var ok := Insert(s);
        folds.Add(start, start + |s|);
        AddedIn(AfterInsert(fs, at, |s|), Fold(at, at + |s|));
      } else {
        var ok := Insert(s);
      }
    }

    // Rendering

    method GetRenderFolds() returns (fs: seq<Fold>)
      requires Valid()
      ensures fs == Visible(folds.Folds(), buf, mask)
    {
      hide Fit, Inside, Sorted;
      fs := [];
      if buf == [] || mask {
        return;
      }
      ghost var all := folds.Folds();
      for j := 0 to folds.count
        invariant fs == all[..j]
      {
        FoldIn(all, 0, |buf|, all[j]);
        var start, end := folds.starts[j], folds.ends[j];
        assert all[..j + 1] == all[..j] + [Fold(start, end)];
        fs := fs + [Fold(start, end)];
      }
      assert all[..folds.count] == all;
    }

    /** The text that is displayed, in a fresh array of its length and a terminator, and
        where the cursor is in it. */
    method RenderBuffer() returns (out: array<Byte>, len: nat, cursor: nat)
      requires Valid()
      ensures fresh(out) && out.Length == len + 1 && out[len] == 0
      ensures var fs := Visible(folds.Folds(), buf, mask);
              && Fit(fs, 0, |buf|) && out[..len] == Rendered(fs, buf, 0) && cursor == CursorAt(fs, buf, 0, pos)
    {
      hide Fit, Inside, Sorted, Rendered, CursorAt, Shown, Assembled, Marker;
      var fs := GetRenderFolds();
      VisibleFits(folds.Folds(), buf, mask);
      RestBegins(fs, buf);
      len := |buf|;
      ghost var src: nat, dst: nat := 0, 0;
      for j := 0 to |fs|
        invariant src <= |buf| && Fit(fs[j..], src, |buf|) && len == dst + |buf| - src
        invariant dst + |Rendered(fs[j..], buf, src)| == |Rendered(fs, buf, 0)|
      {
        RestStep(fs, buf, j, src);
        var marker := Shown(fs[j], buf);
        len := len - (fs[j].end - fs[j].start);
        len := len + |marker|;
        dst, src := dst + fs[j].start - src + |marker|, fs[j].end;
      }
      RestEnds(fs, buf, src);
      out := new Byte[len + 1];
      cursor := WriteRendered(fs, out, len);
      out[len] := 0;
    }

    method WriteRendered(fs: seq<Fold>, out: array<Byte>, len: nat) returns (cursor: nat)
      requires pos <= |buf| && Fit(fs, 0, |buf|) && len == |Rendered(fs, buf, 0)| && out.Length == len + 1
      modifies out
      ensures out[..len] == Rendered(fs, buf, 0) && cursor == CursorAt(fs, buf, 0, pos)
    {
      hide Fit, Inside, Sorted, Rendered, CursorAt, Shown, Assembled, Marker;
      RestBegins(fs, buf);
      var src: nat, dst: nat, isSet := 0, 0, false;
      cursor := 0;
      for j := 0 to |fs|
        invariant src <= |buf| && Fit(fs[j..], src, |buf|) && dst <= len
        invariant out[..dst] + Rendered(fs[j..], buf, src) == Rendered(fs, buf, 0)
        invariant if isSet then cursor == CursorAt(fs, buf, 0, pos)
                  else src <= pos && CursorAt(fs, buf, 0, pos) == dst + CursorAt(fs[j..], buf, src, pos)
      {
        RestStep(fs, buf, j, src);
        var f, marker := fs[j], Shown(fs[j], buf);
        CursorSteps(fs, buf, j, src, pos);
        ghost var before, rest := out[..dst], Rendered(fs[j + 1..], buf, f.end);
        AroundIs(before, buf[src..f.start], marker, rest);
        if !isSet && pos <= f.start {
          cursor, isSet := dst + (pos - src), true;
        }
        Copy(out, dst, buf[src..f.start]);
        dst := dst + (f.start - src);
        if !isSet && pos < f.end {
          cursor, isSet := dst + |marker|, true;
        }
        Copy(out, dst, marker);
        dst := dst + |marker|;
        if !isSet && pos == f.end {
          cursor, isSet := dst, true;
        }
        src := f.end;
      }
      RestEnds(fs, buf, src);
      CursorLast(fs, buf, src, pos);
      if !isSet {
        cursor := dst + (pos - src);
      }
      Copy(out, dst, buf[src..]);
    }
  }

  const MAX_SWAP := 32

  /** Two characters that fit a small buffer and are not hidden. */
  ghost predicate CanSwap(fs: seq<Fold>, p: nat, m: nat, q: nat) {
    p <= m <= q && m - p <= MAX_SWAP && q - m <= MAX_SWAP && Apart(fs, Fold(p, q))
  }

  function Swapped(buf: Bytes, p: nat, m: nat, q: nat): (r: Bytes)
    requires p <= m <= q <= |buf|
    ensures |r| == |buf|
  {
    buf[..p] + buf[m..q] + buf[p..m] + buf[q..]
  }

  lemma SwapIs(buf: Bytes, p: nat, m: nat, q: nat)
    requires p <= m <= q <= |buf|
    ensures Swapped(buf, p, m, q) == buf[..p] + buf[m..q] + buf[p..m] + buf[q..]
  {
  }

  /** What stood behind the cursor stands before it and the other way round; everything
      else keeps its place, and swapping back restores the text. */
  lemma SwappedPlaces(buf: Bytes, p: nat, m: nat, q: nat)
    requires p <= m <= q <= |buf|
    ensures var s, k := Swapped(buf, p, m, q), p + (q - m);
            && s[..p] == buf[..p] && s[p..k] == buf[m..q] && s[k..q] == buf[p..m] && s[q..] == buf[q..]
            && Swapped(s, p, k, q) == buf
  {
    var s, k := Swapped(buf, p, m, q), p + (q - m);
    assert s[..p] == buf[..p] && s[p..k] == buf[m..q] && s[k..q] == buf[p..m] && s[q..] == buf[q..];
    assert buf == buf[..p] + buf[p..m] + buf[m..q] + buf[q..];
  }

  /** Swapping visible characters leaves what the folds hide alone. */
  lemma SwapKeepsHidden(fs: seq<Fold>, buf: Bytes, p: nat, m: nat, q: nat)
    requires Fit(fs, 0, |buf|) && p <= m <= q <= |buf| && Apart(fs, Fold(p, q))
    ensures HideSame(fs, buf, fs, Swapped(buf, p, m, q))
  {
    var other := Swapped(buf, p, m, q);
    forall i | 0 <= i < |fs|
      ensures fs[i].start <= fs[i].end <= |buf| && buf[fs[i].start..fs[i].end] == other[fs[i].start..fs[i].end]
    {
      assert fs[i] in fs;
      SwapOutside(buf, p, m, q, fs[i]);
    }
  }

  lemma SwapOutside(buf: Bytes, p: nat, m: nat, q: nat, f: Fold)
    requires p <= m <= q <= |buf| && f.start <= f.end <= |buf| && (f.end <= p || q <= f.start)
    ensures buf[f.start..f.end] == Swapped(buf, p, m, q)[f.start..f.end]
  {
    hide Swapped;
    SwapEnds(buf, p, m, q);
    if f.end <= p {
      SameLeft(buf, Swapped(buf, p, m, q), p, f.start, f.end);
    } else {
      SameRight(buf, Swapped(buf, p, m, q), q, f.start, f.end);
    }
  }

  lemma SwapEnds(buf: Bytes, p: nat, m: nat, q: nat)
    requires p <= m <= q <= |buf|
    ensures Swapped(buf, p, m, q)[..p] == buf[..p] && Swapped(buf, p, m, q)[q..] == buf[q..]
  {
  }

  lemma SameLeft(a: Bytes, b: Bytes, p: nat, i: nat, j: nat)
    requires i <= j <= p <= |a| && p <= |b| && a[..p] == b[..p]
    ensures a[i..j] == b[i..j]
  {
    assert a[i..j] == a[..p][i..j];
    assert b[i..j] == b[..p][i..j];
  }

  lemma SameRight(a: Bytes, b: Bytes, q: nat, i: nat, j: nat)
    requires q <= i <= j <= |a| && |a| == |b| && a[q..] == b[q..]
    ensures a[i..j] == b[i..j]
  {
    forall k | i <= k < j
      ensures a[k] == b[k]
    {
      assert a[k] == a[q..][k - q] && b[k] == b[q..][k - q];
    }
  }

  lemma OverlapIs(fs: seq<Fold>, p: nat, q: nat)
    requires p <= q
    ensures Apart(fs, Fold(p, q)) <==> !exists f :: f in fs && q > f.start && p < f.end
  {
  }

  lemma CutFits(fs: seq<Fold>, at: nat, n: nat, hi: nat)
    requires Fit(fs, 0, hi) && at + n <= hi
    ensures Ordered(fs, 0) && Fit(AfterDelete(fs, at, n), 0, hi - n)
  {
    DeleteFits(fs, at, n, 0, hi);
  }

  lemma OneFold(f: Fold)
    requires f.start < f.end
    ensures WithFold([], f) == [f]
  {
  }

  lemma FitOne(f: Fold, hi: nat)
    requires f.start < f.end <= hi
    ensures Fit([f], 0, hi)
  {
  }

  lemma NormalText(s: Bytes)
    requires s != []
    ensures 0 < |Normalized(s)| <= |s|
  {
  }

  /** What was collected of the first `n` bytes while `m` are held back. */
  ghost predicate Collected(input: Bytes, n: nat, m: nat, text: Bytes, overflow: bool, room: nat) {
    m <= n <= |input| && if overflow then n - m > room else text == input[..n - m] && |text| <= room
  }

  lemma CollectBegins(input: Bytes, room: nat)
    ensures Collected(input, 0, 0, [], false, room)
  {
  }

  lemma CollectEnds(input: Bytes, n: nat, m: nat, text: Bytes, overflow: bool, room: nat)
    requires n <= |input|
    requires Collected(input, n, m, text, overflow, room) || (n > 0 && m > 0 && Collected(input, n - 1, m - 1, text, overflow, room))
    ensures m <= n <= |input| && (overflow <==> n - m > room) && (!overflow ==> text == input[..n - m])
  {
  }

  lemma RoomFits(len: nat, folds: nat, capacity: nat, limit: nat)
    requires len <= capacity
    ensures Fits(capacity, limit, len + PasteRoom(len, folds, capacity, limit))
  {
  }

  lemma FewerFit(capacity: nat, limit: nat, len: nat, n: nat, m: nat)
    requires Fits(capacity, limit, len + n) && m <= n
    ensures Fits(capacity, limit, len + m)
  {
  }

  lemma InsertKeepsRoom(fs: seq<Fold>, pos: nat, n: nat)
    ensures |AfterInsert(fs, pos, n)| <= |fs|
  {
  }

  lemma {:induction false} AddedIn(fs: seq<Fold>, f: Fold)
    ensures f in Added(fs, f)
    decreases |fs|
  {
    if fs != [] && fs[|fs| - 1].start > f.start {
      AddedIn(fs[..|fs| - 1], f);
    }
  }

  lemma VisibleFits(fs: seq<Fold>, buf: Bytes, mask: bool)
    requires Fit(fs, 0, |buf|)
    ensures Fit(Visible(fs, buf, mask), 0, |buf|)
  {
    hide Fit, Inside, Sorted;
    FitEmpty(0, |buf|);
  }

  // The passes of the renderer

  lemma RestBegins(fs: seq<Fold>, buf: Bytes)
    requires Fit(fs, 0, |buf|)
    ensures fs[0..] == fs && Fit(fs[0..], 0, |buf|)
  {
    hide Fit, Inside, Sorted;
  }

  lemma RestStep(fs: seq<Fold>, buf: Bytes, j: nat, src: nat)
    requires j < |fs| && Fit(fs[j..], src, |buf|)
    ensures src <= fs[j].start < fs[j].end <= |buf|
    ensures Fit(fs[j..], src, |buf|) && Fit(fs[j + 1..], fs[j].end, |buf|)
    ensures Rendered(fs[j..], buf, src)
         == Assembled(Piece(buf, src, fs[j].start), Shown(fs[j], buf), Rendered(fs[j + 1..], buf, fs[j].end))
  {
    hide Fit, Inside, Sorted, Rendered, Shown, Assembled, Piece;
    FitRest(fs[j..], src, |buf|);
    assert fs[j..][1..] == fs[j + 1..];
    RenderedIs(fs[j..], fs[j], fs[j + 1..], buf, src);
  }

  lemma RestEnds(fs: seq<Fold>, buf: Bytes, src: nat)
    requires src <= |buf| && Fit(fs[|fs|..], src, |buf|)
    ensures Fit(fs[|fs|..], src, |buf|) && Rendered(fs[|fs|..], buf, src) == buf[src..]
  {
  }

  lemma CursorSteps(fs: seq<Fold>, buf: Bytes, j: nat, src: nat, pos: nat)
    requires j < |fs| && Fit(fs[j..], src, |buf|) && pos <= |buf|
    ensures src <= fs[j].start < fs[j].end <= |buf| && Fit(fs[j..], src, |buf|) && Fit(fs[j + 1..], fs[j].end, |buf|)
    ensures src <= pos <= fs[j].start ==> CursorAt(fs[j..], buf, src, pos) == pos - src
    ensures fs[j].start < pos < fs[j].end ==> CursorAt(fs[j..], buf, src, pos) == fs[j].start - src + |Shown(fs[j], buf)|
    ensures fs[j].end <= pos ==>
              CursorAt(fs[j..], buf, src, pos)
              == fs[j].start - src + |Shown(fs[j], buf)| + CursorAt(fs[j + 1..], buf, fs[j].end, pos)
    ensures pos == fs[j].end ==> CursorAt(fs[j + 1..], buf, fs[j].end, pos) == 0
  {
    hide Shown;
    FitRest(fs[j..], src, |buf|);
    assert fs[j..][1..] == fs[j + 1..];
  }

  lemma CursorLast(fs: seq<Fold>, buf: Bytes, src: nat, pos: nat)
    requires src <= |buf| && Fit(fs[|fs|..], src, |buf|) && pos <= |buf|
    ensures Fit(fs[|fs|..], src, |buf|) && (src <= pos ==> CursorAt(fs[|fs|..], buf, src, pos) == pos - src)
  {
  }

  lemma AroundIs(before: Bytes, gap: Bytes, marker: Bytes, rest: Bytes)
    ensures before + Assembled(gap, marker, rest) == before + gap + marker + rest
  {
  }

  /** Copy a text into an array. */
  method Copy(out: array<Byte>, at: nat, s: Bytes)
    requires at + |s| <= out.Length
    modifies out
    ensures out[..at + |s|] == old(out[..at]) + s
  {
    forall k | 0 <= k < |s| {
      out[at + k] := s[k];
    }
  }
}
