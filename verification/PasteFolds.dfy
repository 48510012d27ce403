/** Hidden ranges of an edit buffer: how edits move them and how they are shown. */
module PasteFolds {
  import opened ByteStrings

  datatype Fold = Fold(start: nat, end: nat)

  const MAX_FOLDS := 16
  const FOLD_THRESHOLD := 200
  const NEWLINE: Byte := 10

  /** The folds lie between `lo` and `hi`, are not empty, and follow one another. */
  ghost predicate Fit(fs: seq<Fold>, lo: nat, hi: nat) {
    lo <= hi && Inside(fs, lo, hi) && Sorted(fs)
  }

  ghost predicate Inside(fs: seq<Fold>, lo: nat, hi: nat) {
    forall i :: 0 <= i < |fs| ==> lo <= fs[i].start < fs[i].end <= hi
  }

  ghost predicate Sorted(fs: seq<Fold>) {
    forall i, j :: 0 <= i < j < |fs| ==> fs[i].end <= fs[j].start
  }

  lemma FitRest(fs: seq<Fold>, lo: nat, hi: nat)
    requires Fit(fs, lo, hi) && fs != []
    ensures lo <= fs[0].start < fs[0].end <= hi && Fit(fs[1..], fs[0].end, hi)
  {
  }

  lemma FitCons(f: Fold, fs: seq<Fold>, lo: nat, hi: nat)
    requires lo <= f.start < f.end && Fit(fs, f.end, hi)
    ensures Fit([f] + fs, lo, hi)
  {
  }

  /** No fold has `pos` strictly inside. */
  ghost predicate Outside(fs: seq<Fold>, pos: nat) {
    forall f :: f in fs ==> !(f.start < pos < f.end)
  }

  // Edits

  /** The folds after `n` bytes come in at `pos`: one that would be torn is dropped. */
  function AfterInsert(fs: seq<Fold>, pos: nat, n: nat): (r: seq<Fold>)
    ensures |r| <= |fs|
  {
    if fs == [] then []
    else
      var f, rest := fs[0], AfterInsert(fs[1..], pos, n);
      if pos <= f.start then [Fold(f.start + n, f.end + n)] + rest
      else if pos < f.end then rest
      else [f] + rest
  }

  /** A fold `n` bytes earlier. */
  function Pulled(f: Fold, n: nat): Fold
    requires n <= f.start
  {
    Fold(f.start - n, if n <= f.end then f.end - n else 0)
  }

  /** The folds after `n` bytes go away at `pos`: one that loses bytes is dropped. */
  function AfterDelete(fs: seq<Fold>, pos: nat, n: nat): (r: seq<Fold>)
    ensures |r| <= |fs|
  {
    if fs == [] then []
    else
      var f, rest := fs[0], AfterDelete(fs[1..], pos, n);
      if pos + n <= f.start then [Pulled(f, n)] + rest
      else if pos >= f.end then [f] + rest
      else rest
  }

  /** A fold in its place by start. */
  function Added(fs: seq<Fold>, f: Fold): (r: seq<Fold>)
    ensures |r| == |fs| + 1
  {
    if fs == [] || fs[|fs| - 1].start <= f.start then fs + [f]
    else Added(fs[..|fs| - 1], f) + [fs[|fs| - 1]]
  }

  /** What remembering a range does: there is room for `MAX_FOLDS`. */
  function WithFold(fs: seq<Fold>, f: Fold): seq<Fold> {
    if f.start >= f.end || |fs| == MAX_FOLDS then fs else Added(fs, f)
  }

  /** Is a text hidden when it is pasted or recalled? */
  predicate ShouldFold(s: Bytes) {
    NEWLINE in s || |s| >= FOLD_THRESHOLD
  }

  function Inserted(buf: Bytes, pos: nat, s: Bytes): (r: Bytes)
    requires pos <= |buf|
    ensures |r| == |buf| + |s|
  {
    buf[..pos] + s + buf[pos..]
  }

  function Deleted(buf: Bytes, pos: nat, n: nat): (r: Bytes)
    requires pos + n <= |buf|
    ensures |r| == |buf| - n
  {
    buf[..pos] + buf[pos + n..]
  }

  lemma {:induction false} InsertFits(fs: seq<Fold>, pos: nat, n: nat, lo: nat, hi: nat)
    requires Fit(fs, lo, hi) && lo <= pos <= hi
    ensures Fit(AfterInsert(fs, pos, n), lo, hi + n)
    decreases |fs|
  {
    hide Fit, Inside, Sorted, AfterInsert;
    InsertStep(fs, pos, n);
    if fs == [] {
      FitEmpty(lo, hi + n);
    } else {
      FitRest(fs, lo, hi);
      var f, rest := fs[0], AfterInsert(fs[1..], pos, n);
      if pos <= f.start {
        ShiftFits(fs[1..], pos, n, f.end, hi);
        FitCons(Fold(f.start + n, f.end + n), rest, lo, hi + n);
      } else if pos < f.end {
        ShiftFits(fs[1..], pos, n, f.end, hi);
        FitLower(rest, lo, f.end + n, hi + n);
      } else {
        InsertFits(fs[1..], pos, n, f.end, hi);
        FitCons(f, rest, lo, hi + n);
      }
    }
  }

  lemma InsertStep(fs: seq<Fold>, pos: nat, n: nat)
    ensures AfterInsert([], pos, n) == []
    ensures fs != [] ==>
              var f, rest := fs[0], AfterInsert(fs[1..], pos, n);
              AfterInsert(fs, pos, n) ==
                if pos <= f.start then [Fold(f.start + n, f.end + n)] + rest
                else if pos < f.end then rest else [f] + rest
  {
  }

  lemma FitEmpty(lo: nat, hi: nat)
    requires lo <= hi
    ensures Fit([], lo, hi)
  {
  }

  lemma FitLength(fs: seq<Fold>, lo: nat, hi: nat)
    requires Fit(fs, lo, hi)
    ensures lo <= hi
  {
  }

  lemma FitLower(fs: seq<Fold>, lo: nat, from: nat, hi: nat)
    requires Fit(fs, from, hi) && lo <= from
    ensures Fit(fs, lo, hi)
  {
  }

  /** Folds behind the place all move. */
  lemma {:induction false} ShiftFits(fs: seq<Fold>, pos: nat, n: nat, lo: nat, hi: nat)
    requires Fit(fs, lo, hi) && pos <= lo
    ensures Fit(AfterInsert(fs, pos, n), lo + n, hi + n) && |AfterInsert(fs, pos, n)| == |fs|
    decreases |fs|
  {
    hide Fit, Inside, Sorted, AfterInsert;
    InsertStep(fs, pos, n);
    FitLength(fs, lo, hi);
    if fs == [] {
      FitEmpty(lo + n, hi + n);
    } else {
      FitRest(fs, lo, hi);
      ShiftFits(fs[1..], pos, n, fs[0].end, hi);
      FitCons(Fold(fs[0].start + n, fs[0].end + n), AfterInsert(fs[1..], pos, n), lo + n, hi + n);
    }
  }

  lemma DeleteStep(fs: seq<Fold>, pos: nat, n: nat)
    ensures AfterDelete([], pos, n) == []
    ensures fs != [] ==>
              var f, rest := fs[0], AfterDelete(fs[1..], pos, n);
              AfterDelete(fs, pos, n) ==
                if pos + n <= f.start then [Pulled(f, n)] + rest
                else if pos >= f.end then [f] + rest else rest
  {
  }

  lemma {:induction false} DeleteFits(fs: seq<Fold>, pos: nat, n: nat, lo: nat, hi: nat)
    requires Fit(fs, lo, hi) && pos + n <= hi && lo <= pos
    ensures Fit(AfterDelete(fs, pos, n), lo, hi - n)
    decreases |fs|
  {
    hide Fit, Inside, Sorted, AfterDelete;
    DeleteStep(fs, pos, n);
    if fs == [] {
      FitEmpty(lo, hi - n);
    } else {
      FitRest(fs, lo, hi);
      var f := fs[0];
      if pos + n <= f.start {
        UnshiftFits(fs[1..], pos, n, f.end, hi);
        FitCons(Pulled(f, n), AfterDelete(fs[1..], pos, n), lo, hi - n);
      } else if pos >= f.end {
        DeleteFits(fs[1..], pos, n, f.end, hi);
        FitCons(f, AfterDelete(fs[1..], pos, n), lo, hi - n);
      } else {
        FitLower(fs[1..], pos, f.end, hi);
        DeleteFits(fs[1..], pos, n, pos, hi);
        FitLower(AfterDelete(fs[1..], pos, n), lo, pos, hi - n);
      }
    }
  }

  lemma {:induction false} UnshiftFits(fs: seq<Fold>, pos: nat, n: nat, lo: nat, hi: nat)
    requires Fit(fs, lo, hi) && pos + n <= lo
    ensures n <= lo <= hi && Fit(AfterDelete(fs, pos, n), lo - n, hi - n) && |AfterDelete(fs, pos, n)| == |fs|
    decreases |fs|
  {
    hide Fit, Inside, Sorted, AfterDelete;
    DeleteStep(fs, pos, n);
    FitLength(fs, lo, hi);
    if fs == [] {
      FitEmpty(lo - n, hi - n);
    } else {
      FitRest(fs, lo, hi);
      UnshiftFits(fs[1..], pos, n, fs[0].end, hi);
      FitCons(Pulled(fs[0], n), AfterDelete(fs[1..], pos, n), lo - n, hi - n);
    }
  }

  lemma FitInit(fs: seq<Fold>, lo: nat, hi: nat)
    requires Fit(fs, lo, hi) && fs != []
    ensures var last := fs[|fs| - 1]; last.start < last.end <= hi && Fit(fs[..|fs| - 1], lo, last.start) && lo <= last.start
  {
  }

  lemma FitSnoc(fs: seq<Fold>, f: Fold, lo: nat, hi: nat)
    requires Fit(fs, lo, f.start) && f.start < f.end <= hi
    ensures Fit(fs + [f], lo, hi)
  {
  }

  /** `f` overlaps no fold. */
  ghost predicate Apart(fs: seq<Fold>, f: Fold) {
    forall g :: g in fs ==> g.end <= f.start || f.end <= g.start
  }

  /** A range that no fold touches can become one. */
  lemma {:induction false} AddedFits(fs: seq<Fold>, f: Fold, lo: nat, hi: nat)
    requires Fit(fs, lo, hi) && lo <= f.start < f.end <= hi && Apart(fs, f)
    ensures Fit(Added(fs, f), lo, hi)
    decreases |fs|
  {
    hide Fit, Inside, Sorted, Apart;
    var n := |fs| - 1;
    if fs == [] {
      FitEmpty(lo, f.start);
      FitSnoc([], f, lo, hi);
    } else {
      FitInit(fs, lo, hi);
      ApartInit(fs, f);
      if fs[n].start > f.start {
        AddedFits(fs[..n], f, lo, fs[n].start);
        FitSnoc(Added(fs[..n], f), fs[n], lo, hi);
      } else {
        LastBefore(fs, f, lo, hi);
        FitSnoc(fs, f, lo, hi);
      }
    }
  }

  lemma ApartInit(fs: seq<Fold>, f: Fold)
    requires Apart(fs, f) && fs != []
    ensures var last := fs[|fs| - 1]; (last.end <= f.start || f.end <= last.start) && Apart(fs[..|fs| - 1], f)
  {
    assert fs[|fs| - 1] in fs;
  }

  /** An insertion leaves its own range free. */
  lemma {:induction false} InsertionApart(fs: seq<Fold>, pos: nat, n: nat, lo: nat, hi: nat)
    requires Fit(fs, lo, hi)
    ensures Apart(AfterInsert(fs, pos, n), Fold(pos, pos + n))
    decreases |fs|
  {
    hide Fit, Inside, Sorted, AfterInsert;
    InsertStep(fs, pos, n);
    if fs != [] {
      FitRest(fs, lo, hi);
      InsertionApart(fs[1..], pos, n, fs[0].end, hi);
    }
  }

  /** A paste is hidden as a whole, and the folds stay fit. */
  lemma PasteFits(fs: seq<Fold>, pos: nat, n: nat, hi: nat)
    requires Fit(fs, 0, hi) && pos <= hi && 0 < n
    ensures Fit(WithFold(AfterInsert(fs, pos, n), Fold(pos, pos + n)), 0, hi + n)
  {
    hide Fit, Inside, Sorted, Apart, AfterInsert, Added;
    InsertFits(fs, pos, n, 0, hi);
    InsertionApart(fs, pos, n, 0, hi);
    AddedFits(AfterInsert(fs, pos, n), Fold(pos, pos + n), 0, hi + n);
  }

  lemma LastBefore(fs: seq<Fold>, f: Fold, lo: nat, hi: nat)
    requires Fit(fs, lo, hi) && fs != [] && fs[|fs| - 1].start <= f.start < f.end && Apart(fs, f)
    ensures Fit(fs, lo, f.start)
  {
    var n := |fs| - 1;
    assert fs[n] in fs && fs[n].end <= f.start;
  }

  // What a fold hides does not change

  /** The folds that an insertion keeps, as they were. */
  function KeptByInsert(fs: seq<Fold>, pos: nat): seq<Fold> {
    if fs == [] then []
    else (if fs[0].start < pos < fs[0].end then [] else [fs[0]]) + KeptByInsert(fs[1..], pos)
  }

  function KeptByDelete(fs: seq<Fold>, pos: nat, n: nat): seq<Fold> {
    if fs == [] then []
    else (if pos + n <= fs[0].start || pos >= fs[0].end then [fs[0]] else []) + KeptByDelete(fs[1..], pos, n)
  }

  /** An insertion tears exactly the folds it goes into. */
  lemma {:induction false} KeptByInsertIs(fs: seq<Fold>, pos: nat, f: Fold)
    ensures f in KeptByInsert(fs, pos) <==> f in fs && !(f.start < pos < f.end)
  {
    if fs != [] {
      KeptByInsertIs(fs[1..], pos, f);
    }
  }

  /** A deletion tears exactly the folds that lose a byte. */
  lemma {:induction false} KeptByDeleteIs(fs: seq<Fold>, pos: nat, n: nat, f: Fold)
    ensures f in KeptByDelete(fs, pos, n) <==> f in fs && (f.end <= pos || pos + n <= f.start)
  {
    if fs != [] {
      KeptByDeleteIs(fs[1..], pos, n, f);
    }
  }

  /** The same bytes are hidden, fold by fold. */
  ghost predicate HideSame(fs: seq<Fold>, buf: Bytes, gs: seq<Fold>, other: Bytes) {
    |fs| == |gs| &&
    forall i :: 0 <= i < |fs| ==>
                  fs[i].start <= fs[i].end <= |buf| && gs[i].start <= gs[i].end <= |other|
                  && buf[fs[i].start..fs[i].end] == other[gs[i].start..gs[i].end]
  }

  lemma HideSameCons(f: Fold, fs: seq<Fold>, buf: Bytes, g: Fold, gs: seq<Fold>, other: Bytes)
    requires HideSame(fs, buf, gs, other) && f.start <= f.end <= |buf| && g.start <= g.end <= |other|
    requires buf[f.start..f.end] == other[g.start..g.end]
    ensures HideSame([f] + fs, buf, [g] + gs, other)
  {
  }

  lemma {:induction false} InsertKeepsHidden(fs: seq<Fold>, buf: Bytes, pos: nat, s: Bytes, lo: nat)
    requires Fit(fs, lo, |buf|) && pos <= |buf|
    ensures HideSame(KeptByInsert(fs, pos), buf, AfterInsert(fs, pos, |s|), Inserted(buf, pos, s))
    decreases |fs|
  {
    hide Fit, Inside, Sorted, HideSame, Inserted;
    if fs == [] {
      HideNone(buf, Inserted(buf, pos, s));
    } else {
      FitRest(fs, lo, |buf|);
      var f := fs[0];
      InsertKeepsHidden(fs[1..], buf, pos, s, f.end);
      if pos <= f.start {
        MovedSlice(buf, pos, s, f);
        HideSameCons(f, KeptByInsert(fs[1..], pos), buf, Fold(f.start + |s|, f.end + |s|), AfterInsert(fs[1..], pos, |s|), Inserted(buf, pos, s));
      } else if pos >= f.end {
        SteadySlice(buf, pos, s, f);
        HideSameCons(f, KeptByInsert(fs[1..], pos), buf, f, AfterInsert(fs[1..], pos, |s|), Inserted(buf, pos, s));
      } else {
        assert [] + KeptByInsert(fs[1..], pos) == KeptByInsert(fs[1..], pos);
      }
    }
  }

  lemma HideNone(buf: Bytes, other: Bytes)
    ensures HideSame([], buf, [], other)
  {
  }

  lemma MovedSlice(buf: Bytes, pos: nat, s: Bytes, f: Fold)
    requires pos <= f.start <= f.end <= |buf|
    ensures Inserted(buf, pos, s)[f.start + |s|..f.end + |s|] == buf[f.start..f.end]
  {
    SliceBehind(buf[..pos] + s, buf[pos..], f.start - pos, f.end - pos);
    SliceOfDrop(buf, pos, f.start - pos, f.end - pos);
  }

  lemma SteadySlice(buf: Bytes, pos: nat, s: Bytes, f: Fold)
    requires f.start <= f.end <= pos <= |buf|
    ensures Inserted(buf, pos, s)[f.start..f.end] == buf[f.start..f.end]
  {
  }

  lemma {:induction false} DeleteKeepsHidden(fs: seq<Fold>, buf: Bytes, pos: nat, n: nat, lo: nat)
    requires Fit(fs, lo, |buf|) && pos + n <= |buf|
    ensures HideSame(KeptByDelete(fs, pos, n), buf, AfterDelete(fs, pos, n), Deleted(buf, pos, n))
    decreases |fs|
  {
    hide Fit, Inside, Sorted, HideSame, Deleted, AfterDelete;
    DeleteStep(fs, pos, n);
    if fs == [] {
      HideNone(buf, Deleted(buf, pos, n));
    } else {
      FitRest(fs, lo, |buf|);
      var f := fs[0];
      DeleteKeepsHidden(fs[1..], buf, pos, n, f.end);
      if pos + n <= f.start {
        PulledSlice(buf, pos, n, f);
        HideSameCons(f, KeptByDelete(fs[1..], pos, n), buf, Pulled(f, n), AfterDelete(fs[1..], pos, n), Deleted(buf, pos, n));
      } else if pos >= f.end {
        assert Deleted(buf, pos, n)[f.start..f.end] == buf[f.start..f.end] by {
          LeftSlice(buf, pos, n, f);
        }
        HideSameCons(f, KeptByDelete(fs[1..], pos, n), buf, f, AfterDelete(fs[1..], pos, n), Deleted(buf, pos, n));
      } else {
        assert [] + KeptByDelete(fs[1..], pos, n) == KeptByDelete(fs[1..], pos, n);
      }
    }
  }

  lemma PulledSlice(buf: Bytes, pos: nat, n: nat, f: Fold)
    requires pos + n <= f.start <= f.end <= |buf|
    ensures Deleted(buf, pos, n)[f.start - n..f.end - n] == buf[f.start..f.end]
  {
    SliceBehind(buf[..pos], buf[pos + n..], f.start - n - pos, f.end - n - pos);
    SliceOfDrop(buf, pos + n, f.start - n - pos, f.end - n - pos);
  }

  lemma SliceBehind(a: Bytes, b: Bytes, i: nat, j: nat)
    requires i <= j <= |b|
    ensures (a + b)[|a| + i..|a| + j] == b[i..j]
  {
  }

  lemma SliceOfDrop(s: Bytes, k: nat, i: nat, j: nat)
    requires k <= |s| && i <= j <= |s| - k
    ensures s[k..][i..j] == s[k + i..k + j]
  {
  }

  lemma LeftSlice(buf: Bytes, pos: nat, n: nat, f: Fold)
    requires f.start <= f.end <= pos && pos + n <= |buf|
    ensures Deleted(buf, pos, n)[f.start..f.end] == buf[f.start..f.end]
  {
  }

  /** Deleting what was inserted restores the buffer and its folds, unless the
      insertion tore one. */
  lemma {:induction false} DeleteUndoesInsert(fs: seq<Fold>, buf: Bytes, pos: nat, s: Bytes, lo: nat)
    requires Fit(fs, lo, |buf|) && pos <= |buf| && Outside(fs, pos)
    ensures Deleted(Inserted(buf, pos, s), pos, |s|) == buf
    ensures AfterDelete(AfterInsert(fs, pos, |s|), pos, |s|) == fs
    decreases |fs|
  {
    hide Fit, Inside, Sorted, Outside, AfterInsert, AfterDelete, Deleted, Inserted;
    InsertStep(fs, pos, |s|);
    DeleteStep(AfterInsert(fs, pos, |s|), pos, |s|);
    RestoreBuffer(buf, pos, s);
    if fs != [] {
      FitRest(fs, lo, |buf|);
      OutsideRest(fs, pos);
      DeleteUndoesInsert(fs[1..], buf, pos, s, fs[0].end);
      var f := if pos <= fs[0].start then Fold(fs[0].start + |s|, fs[0].end + |s|) else fs[0];
      HeadAndRest(f, AfterInsert(fs[1..], pos, |s|));
    }
  }

  lemma HeadAndRest(f: Fold, rest: seq<Fold>)
    ensures ([f] + rest)[0] == f && ([f] + rest)[1..] == rest
  {
  }

  lemma RestoreBuffer(buf: Bytes, pos: nat, s: Bytes)
    requires pos <= |buf|
    ensures Deleted(Inserted(buf, pos, s), pos, |s|) == buf
  {
  }

  // What is shown

  function Newlines(s: Bytes): nat {
    if s == [] then 0 else Newlines(s[..|s| - 1]) + if s[|s| - 1] == NEWLINE then 1 else 0
  }

  /** What stands for hidden bytes: their lines, or their number on one line. */
  function Marker(hidden: Bytes): Bytes {
    var lines := 1 + Newlines(hidden);
    if lines > 1 then Ascii("[... ") + Decimal(lines) + Ascii(" pasted lines ...]")
    else Ascii("[... ") + Decimal(|hidden|) + Ascii(" pasted chars ...]")
  }

  lemma {:induction false} NewlinesAre(s: Bytes)
    ensures Newlines(s) == multiset(s)[NEWLINE]
  {
    if s != [] {
      NewlinesAre(s[..|s| - 1]);
      assert s == s[..|s| - 1] + [s[|s| - 1]];
    }
  }

  /** The marker tells the number of bytes of a line, and the number of lines of a longer
      text. */
  lemma MarkerSays(hidden: Bytes)
    ensures NEWLINE !in hidden ==> Marker(hidden) == Ascii("[... ") + Decimal(|hidden|) + Ascii(" pasted chars ...]")
    ensures NEWLINE in hidden ==>
              Marker(hidden) == Ascii("[... ") + Decimal(1 + multiset(hidden)[NEWLINE]) + Ascii(" pasted lines ...]")
  {
    hide Decimal;
    NewlinesAre(hidden);
  }

  lemma {:induction false} FewNewlines(s: Bytes)
    ensures Newlines(s) <= |s|
  {
    if s != [] {
      FewNewlines(s[..|s| - 1]);
    }
  }

  lemma {:induction false} DecimalLength(n: nat, digits: nat, bound: nat)
    requires n < bound && (digits == 0 ==> bound <= 1) && Tens(digits, bound)
    ensures |Decimal(n)| <= if digits == 0 then 1 else digits
    decreases digits
  {
    if digits > 1 && n >= 10 {
      DecimalLength(n / 10, digits - 1, bound / 10);
    }
  }

  /** Ten to the power of `digits`. */
  predicate Tens(digits: nat, bound: nat) {
    if digits == 0 then bound == 1 else bound % 10 == 0 && Tens(digits - 1, bound / 10)
  }

  const WORD := 0x1_0000_0000_0000_0000
  const MARKER_SIZE := 64

  /** A marker and its terminator fit the buffer they are printed to, whatever the
      machine word counts. */
  lemma MarkerFits(hidden: Bytes)
    requires |hidden| + 1 < WORD
    ensures |Marker(hidden)| < MARKER_SIZE
  {
    FewNewlines(hidden);
    TwentyDigits();
    DecimalLength(1 + Newlines(hidden), 20, 100000000000000000000);
    DecimalLength(|hidden|, 20, 100000000000000000000);
  }

  lemma TwentyDigits()
    ensures Tens(20, 100000000000000000000)
  {
    assert Tens(5, 100000);
    assert Tens(10, 10000000000);
    assert Tens(15, 1000000000000000);
  }

  function Piece(buf: Bytes, lo: nat, hi: nat): Bytes
    requires lo <= hi <= |buf|
  {
    buf[lo..hi]
  }

  function Shown(f: Fold, buf: Bytes): Bytes
    requires f.start <= f.end <= |buf|
  {
    Marker(Piece(buf, f.start, f.end))
  }

  function Assembled(gap: Bytes, shown: Bytes, rest: Bytes): (r: Bytes)
    ensures |r| == |gap| + |shown| + |rest|
  {
    gap + shown + rest
  }

  /** The text from `src` on with every fold replaced by its marker. */
  ghost function Rendered(fs: seq<Fold>, buf: Bytes, src: nat): Bytes
    requires Fit(fs, src, |buf|)
  {
    if fs == [] then Piece(buf, src, |buf|)
    else Assembled(Piece(buf, src, fs[0].start), Shown(fs[0], buf), Rendered(fs[1..], buf, fs[0].end))
  }

  /** At fold `i`: what is before it is shown as it would be alone, then its marker, which
      stands for its bytes, then the rest. */
  lemma {:induction false} RenderedAround(fs: seq<Fold>, buf: Bytes, src: nat, i: nat)
    requires Fit(fs, src, |buf|) && i < |fs|
    ensures fs[i].start < fs[i].end <= |buf| && src <= fs[i].start
    ensures Fit(fs[..i], src, |buf[..fs[i].start]|) && Fit(fs[i + 1..], fs[i].end, |buf|)
    ensures Rendered(fs, buf, src)
         == Rendered(fs[..i], buf[..fs[i].start], src) + Marker(buf[fs[i].start..fs[i].end]) + Rendered(fs[i + 1..], buf, fs[i].end)
    decreases i
  {
    hide Marker, Rendered;
    FitPlaces(fs, src, |buf|, i);
    var head := buf[..fs[i].start];
    RenderedStep(fs, buf, src);
    if i == 0 {
      NothingFolded(head, src);
      PieceOfPrefix(buf, fs[0].start, src, fs[0].start);
    } else {
      FitRest(fs, src, |buf|);
      RenderedAround(fs[1..], buf, fs[0].end, i - 1);
      RestOfFolds(fs, i);
      RenderedStep(fs[..i], head, src);
      PieceOfPrefix(buf, fs[i].start, src, fs[0].start);
      PieceOfPrefix(buf, fs[i].start, fs[0].start, fs[0].end);
    }
  }

  lemma RestOfFolds(fs: seq<Fold>, i: nat)
    requires 0 < i < |fs|
    ensures fs[1..][i - 1] == fs[i] && fs[1..][..i - 1] == fs[..i][1..] && fs[1..][i..] == fs[i + 1..] && fs[..i][0] == fs[0]
  {
  }

  lemma FitPlaces(fs: seq<Fold>, lo: nat, hi: nat, i: nat)
    requires Fit(fs, lo, hi) && i < |fs|
    ensures lo <= fs[i].start < fs[i].end <= hi && Fit(fs[..i], lo, fs[i].start) && Fit(fs[i + 1..], fs[i].end, hi)
    ensures i > 0 ==> fs[0].end <= fs[i].start
  {
  }

  lemma NothingFolded(buf: Bytes, src: nat)
    requires src <= |buf|
    ensures Fit([], src, |buf|) && Rendered([], buf, src) == Piece(buf, src, |buf|)
  {
  }

  lemma PieceOfPrefix(buf: Bytes, n: nat, lo: nat, hi: nat)
    requires lo <= hi <= n <= |buf|
    ensures Piece(buf[..n], lo, hi) == Piece(buf, lo, hi)
  {
  }

  /** Where a position from `src` on is shown: inside a fold, behind its marker. */
  ghost function CursorAt(fs: seq<Fold>, buf: Bytes, src: nat, pos: nat): nat
    requires Fit(fs, src, |buf|) && src <= pos <= |buf|
  {
    if fs == [] || pos <= fs[0].start then pos - src
    else
      var shown := fs[0].start - src + |Shown(fs[0], buf)|;
      if pos < fs[0].end then shown else shown + CursorAt(fs[1..], buf, fs[0].end, pos)
  }

  /** The folds that end before a position. */
  ghost function Before(fs: seq<Fold>, pos: nat): seq<Fold> {
    if fs == [] || fs[0].end > pos then [] else [fs[0]] + Before(fs[1..], pos)
  }

  lemma {:induction false} BeforeFits(fs: seq<Fold>, pos: nat, lo: nat, hi: nat)
    requires Fit(fs, lo, hi) && lo <= pos
    ensures Fit(Before(fs, pos), lo, pos)
    decreases |fs|
  {
    hide Fit, Inside, Sorted;
    if fs == [] || fs[0].end > pos {
      FitEmpty(lo, pos);
    } else {
      FitRest(fs, lo, hi);
      BeforeFits(fs[1..], pos, fs[0].end, hi);
      FitCons(fs[0], Before(fs[1..], pos), lo, pos);
    }
  }

  lemma {:induction false} RenderedStep(fs: seq<Fold>, buf: Bytes, src: nat)
    requires Fit(fs, src, |buf|) && fs != []
    ensures src <= fs[0].start < fs[0].end <= |buf| && Fit(fs[1..], fs[0].end, |buf|)
    ensures Rendered(fs, buf, src) == Assembled(Piece(buf, src, fs[0].start), Shown(fs[0], buf), Rendered(fs[1..], buf, fs[0].end))
  {
    hide Fit, Inside, Sorted, Shown, Piece, Assembled;
    FitRest(fs, src, |buf|);
  }

  /** The same with the first fold and the others named. */
  lemma {:induction false} RenderedIs(fs: seq<Fold>, f: Fold, rest: seq<Fold>, buf: Bytes, src: nat)
    requires Fit(fs, src, |buf|) && fs != [] && f == fs[0] && rest == fs[1..]
    ensures src <= f.start < f.end <= |buf| && Fit(rest, f.end, |buf|)
    ensures Rendered(fs, buf, src) == Assembled(Piece(buf, src, f.start), Shown(f, buf), Rendered(rest, buf, f.end))
  {
    RenderedStep(fs, buf, src);
    hide *;
  }

  lemma {:induction false} CursorFirst(fs: seq<Fold>, buf: Bytes, src: nat, pos: nat)
    requires Fit(fs, src, |buf|) && src <= pos <= |buf| && (fs == [] || pos <= fs[0].start)
    ensures CursorAt(fs, buf, src, pos) == pos - src
  {
  }

  lemma {:induction false} CursorStep(fs: seq<Fold>, buf: Bytes, src: nat, pos: nat)
    requires Fit(fs, src, |buf|) && fs != [] && src <= pos && fs[0].end <= pos <= |buf|
    ensures src <= fs[0].start < fs[0].end <= |buf| && Fit(fs[1..], fs[0].end, |buf|)
    ensures CursorAt(fs, buf, src, pos)
         == fs[0].start - src + |Shown(fs[0], buf)| + CursorAt(fs[1..], buf, fs[0].end, pos)
  {
    hide Fit, Inside, Sorted, Shown;
    FitRest(fs, src, |buf|);
  }

  lemma {:induction false} CursorIs(fs: seq<Fold>, f: Fold, rest: seq<Fold>, buf: Bytes, src: nat, pos: nat)
    requires Fit(fs, src, |buf|) && fs != [] && f == fs[0] && rest == fs[1..] && src <= pos && f.end <= pos <= |buf|
    ensures src <= f.start < f.end && Fit(rest, f.end, |buf|)
    ensures CursorAt(fs, buf, src, pos) == f.start - src + |Shown(f, buf)| + CursorAt(rest, buf, f.end, pos)
  {
    CursorStep(fs, buf, src, pos);
    hide *;
  }

  /** The first fold after an insertion that does not tear it. */
  lemma {:induction false} InsertHead(fs: seq<Fold>, pos: nat, n: nat)
    requires fs != [] && !(fs[0].start < pos < fs[0].end)
    ensures var r, f := AfterInsert(fs, pos, n), fs[0];
            && r != [] && r[1..] == AfterInsert(fs[1..], pos, n)
            && r[0] == if pos <= f.start then Fold(f.start + n, f.end + n) else f
  {
  }

  /** A position outside all folds is shown where the text before it ends. */
  lemma {:induction false} CursorIsLength(fs: seq<Fold>, buf: Bytes, src: nat, pos: nat)
    requires Fit(fs, src, |buf|) && src <= pos <= |buf| && Outside(fs, pos)
    ensures Fit(Before(fs, pos), src, |buf[..pos]|)
    ensures CursorAt(fs, buf, src, pos) == |Rendered(Before(fs, pos), buf[..pos], src)|
    ensures Rendered(Before(fs, pos), buf[..pos], src) <= Rendered(fs, buf, src)
    decreases |fs|
  {
    hide Fit, Inside, Sorted, Outside, Rendered, CursorAt, Shown, Piece, Assembled;
    BeforeFits(fs, pos, src, |buf|);
    if fs == [] || fs[0].end > pos {
      CursorInGap(fs, buf, src, pos);
    } else {
      OutsideRest(fs, pos);
      RenderedStep(fs, buf, src);
      CursorIsLength(fs[1..], buf, fs[0].end, pos);
      PieceLength(buf, src, fs[0].start);
      HeadAndRest(fs[0], Before(fs[1..], pos));
      RenderedIs(Before(fs, pos), fs[0], Before(fs[1..], pos), buf[..pos], src);
      CursorStep(fs, buf, src, pos);
      SameShown(fs[0], buf, pos, src);
      RestIsPrefix(Piece(buf, src, fs[0].start), Shown(fs[0], buf), Rendered(Before(fs[1..], pos), buf[..pos], fs[0].end), Rendered(fs[1..], buf, fs[0].end));
    }
  }

  lemma {:induction false} SameShown(f: Fold, buf: Bytes, pos: nat, src: nat)
    requires src <= f.start <= f.end <= pos <= |buf|
    ensures Piece(buf[..pos], src, f.start) == Piece(buf, src, f.start) && Shown(f, buf[..pos]) == Shown(f, buf)
  {
    assert buf[..pos][f.start..f.end] == buf[f.start..f.end];
  }

  lemma {:induction false} OutsideRest(fs: seq<Fold>, pos: nat)
    requires Outside(fs, pos) && fs != []
    ensures !(fs[0].start < pos < fs[0].end) && Outside(fs[1..], pos)
  {
    assert fs[0] in fs;
  }

  lemma {:induction false} CursorInGap(fs: seq<Fold>, buf: Bytes, src: nat, pos: nat)
    requires Fit(fs, src, |buf|) && src <= pos <= |buf| && Outside(fs, pos) && (fs == [] || fs[0].end > pos)
    ensures Fit([], src, |buf[..pos]|) && CursorAt(fs, buf, src, pos) == |Rendered([], buf[..pos], src)|
    ensures Rendered([], buf[..pos], src) <= Rendered(fs, buf, src)
  {
    hide Marker;
    if fs != [] {
      OutsideRest(fs, pos);
      assert buf[..pos][src..pos] == buf[src..fs[0].start][..pos - src];
    } else {
      assert buf[..pos][src..pos] == buf[src..|buf|][..pos - src];
    }
  }

  /** The same bytes after an insertion before them. */
  ghost predicate Moved(buf: Bytes, other: Bytes, pos: nat, s: Bytes, f: Fold, g: Fold, src: nat, to: nat) {
    && pos <= src <= f.start <= f.end <= |buf| && other == Inserted(buf, pos, s)
    && to == src + |s| && g == Fold(f.start + |s|, f.end + |s|)
  }

  lemma MovedBy(buf: Bytes, pos: nat, s: Bytes, f: Fold, src: nat)
    requires pos <= src <= f.start <= f.end <= |buf|
    ensures Moved(buf, Inserted(buf, pos, s), pos, s, f, Fold(f.start + |s|, f.end + |s|), src, src + |s|)
  {
  }

  lemma {:induction false} MovedShown(buf: Bytes, other: Bytes, pos: nat, s: Bytes, f: Fold, g: Fold, src: nat, to: nat)
    requires Moved(buf, other, pos, s, f, g, src, to)
    ensures src <= f.start <= f.end <= |buf| && to <= g.start <= g.end <= |other|
    ensures Piece(other, to, g.start) == Piece(buf, src, f.start) && Shown(g, other) == Shown(f, buf)
  {
    MovedSlice(buf, pos, s, f);
    MovedSlice(buf, pos, s, Fold(src, f.start));
    hide Marker;
  }

  lemma {:induction false} SteadyShown(buf: Bytes, pos: nat, s: Bytes, f: Fold, src: nat)
    requires src <= f.start <= f.end <= pos <= |buf|
    ensures Piece(Inserted(buf, pos, s), src, f.start) == Piece(buf, src, f.start) && Shown(f, Inserted(buf, pos, s)) == Shown(f, buf)
  {
    SteadySlice(buf, pos, s, f);
    SteadySlice(buf, pos, s, Fold(src, f.start));
    hide Inserted, Marker;
  }

  /** One fold behind an insertion. */
  lemma {:induction false} ShiftStep(fs: seq<Fold>, gs: seq<Fold>, buf: Bytes, other: Bytes, pos: nat, s: Bytes, src: nat, to: nat,
                  f: Fold, g: Fold, rest: seq<Fold>, more: seq<Fold>)
    requires Fit(fs, src, |buf|) && Fit(gs, to, |other|) && Moved(buf, other, pos, s, f, g, src, to)
    requires fs != [] && gs != [] && f == fs[0] && g == gs[0] && rest == fs[1..] && more == gs[1..]
    requires Fit(rest, f.end, |buf|) && Fit(more, g.end, |other|) && Rendered(more, other, g.end) == Rendered(rest, buf, f.end)
    ensures Rendered(gs, other, to) == Rendered(fs, buf, src)
  {
    hide *;
    RenderedIs(fs, f, rest, buf, src);
    RenderedIs(gs, g, more, other, to);
    MovedShown(buf, other, pos, s, f, g, src, to);
  }

  /** Behind an insertion everything looks as before. */
  lemma {:induction false} RenderedShift(fs: seq<Fold>, buf: Bytes, pos: nat, s: Bytes, src: nat)
    requires Fit(fs, src, |buf|) && pos <= src
    ensures Fit(AfterInsert(fs, pos, |s|), src + |s|, |Inserted(buf, pos, s)|)
    ensures Rendered(AfterInsert(fs, pos, |s|), Inserted(buf, pos, s), src + |s|) == Rendered(fs, buf, src)
    decreases |fs|
  {
    hide *;
    ShiftFits(fs, pos, |s|, src, |buf|);
    if fs == [] {
      TailShift(fs, buf, pos, s, src);
    } else {
      FitRest(fs, src, |buf|);
      InsertHead(fs, pos, |s|);
      var f := fs[0];
      RenderedShift(fs[1..], buf, pos, s, f.end);
      MovedBy(buf, pos, s, f, src);
      ShiftStep(fs, AfterInsert(fs, pos, |s|), buf, Inserted(buf, pos, s), pos, s, src, src + |s|,
                f, Fold(f.start + |s|, f.end + |s|), fs[1..], AfterInsert(fs[1..], pos, |s|));
    }
  }

  lemma {:induction false} TailShift(fs: seq<Fold>, buf: Bytes, pos: nat, s: Bytes, src: nat)
    requires fs == [] && pos <= src && Fit(fs, src, |buf|)
    ensures Fit(AfterInsert(fs, pos, |s|), src + |s|, |Inserted(buf, pos, s)|)
    ensures Rendered(AfterInsert(fs, pos, |s|), Inserted(buf, pos, s), src + |s|) == Rendered(fs, buf, src)
  {
    MovedSlice(buf, pos, s, Fold(src, |buf|));
  }

  /** Typing outside the folds is typing at the cursor of what is shown. */
  lemma {:induction false} TypingIsVisible(fs: seq<Fold>, buf: Bytes, pos: nat, s: Bytes, src: nat)
    requires Fit(fs, src, |buf|) && src <= pos <= |buf| && Outside(fs, pos)
    ensures Fit(AfterInsert(fs, pos, |s|), src, |Inserted(buf, pos, s)|)
    ensures CursorAt(fs, buf, src, pos) <= |Rendered(fs, buf, src)|
    ensures Rendered(AfterInsert(fs, pos, |s|), Inserted(buf, pos, s), src)
         == Inserted(Rendered(fs, buf, src), CursorAt(fs, buf, src, pos), s)
    ensures CursorAt(AfterInsert(fs, pos, |s|), Inserted(buf, pos, s), src, pos + |s|) == CursorAt(fs, buf, src, pos) + |s|
    decreases |fs|
  {
    hide *;
    InsertFits(fs, pos, |s|, src, |buf|);
    if fs == [] {
      TypingAtEnd(fs, buf, pos, s, src);
    } else if pos <= fs[0].start {
      CursorFirst(fs, buf, src, pos);
      TypingInGap(fs, buf, pos, s, src);
    } else {
      OutsideRest(fs, pos);
      FitRest(fs, src, |buf|);
      InsertHead(fs, pos, |s|);
      var f := fs[0];
      TypingIsVisible(fs[1..], buf, pos, s, f.end);
      TypingBehind(fs, AfterInsert(fs, pos, |s|), buf, Inserted(buf, pos, s), pos, s, src, pos + |s|,
                   f, fs[1..], AfterInsert(fs[1..], pos, |s|));
    }
  }

  /** One fold before the insertion. */
  lemma {:induction false} TypingBehind(fs: seq<Fold>, gs: seq<Fold>, buf: Bytes, other: Bytes, pos: nat, s: Bytes, src: nat, to: nat,
                     f: Fold, rest: seq<Fold>, more: seq<Fold>)
    requires src <= f.start < f.end <= pos <= |buf| && to == pos + |s| <= |other| && other == Inserted(buf, pos, s)
    requires Fit(fs, src, |buf|) && Fit(gs, src, |other|)
    requires fs != [] && gs != [] && f == fs[0] && f == gs[0] && rest == fs[1..] && more == gs[1..]
    requires Fit(rest, f.end, |buf|) && Fit(more, f.end, |other|)
    requires CursorAt(rest, buf, f.end, pos) <= |Rendered(rest, buf, f.end)|
    requires Rendered(more, other, f.end) == Inserted(Rendered(rest, buf, f.end), CursorAt(rest, buf, f.end, pos), s)
    requires CursorAt(more, other, f.end, to) == CursorAt(rest, buf, f.end, pos) + |s|
    ensures CursorAt(fs, buf, src, pos) <= |Rendered(fs, buf, src)|
    ensures Rendered(gs, other, src) == Inserted(Rendered(fs, buf, src), CursorAt(fs, buf, src, pos), s)
    ensures CursorAt(gs, other, src, to) == CursorAt(fs, buf, src, pos) + |s|
  {
    hide *;
    SteadyShown(buf, pos, s, f, src);
    RenderedIs(fs, f, rest, buf, src);
    CursorIs(fs, f, rest, buf, src, pos);
    RenderedIs(gs, f, more, other, src);
    CursorIs(gs, f, more, other, src, to);
    PieceLength(buf, src, f.start);
    InsertedInRest(Piece(buf, src, f.start), Shown(f, buf), Rendered(rest, buf, f.end), CursorAt(rest, buf, f.end, pos), s);
  }

  lemma {:induction false} InsertedBehind(a: Bytes, b: Bytes, k: nat, s: Bytes)
    requires k <= |b|
    ensures Inserted(a + b, |a| + k, s) == a + Inserted(b, k, s)
  {
    assert (a + b)[..|a| + k] == a + b[..k] && (a + b)[|a| + k..] == b[k..];
  }

  lemma {:induction false} InsertedBefore(a: Bytes, b: Bytes, k: nat, s: Bytes)
    requires k <= |a|
    ensures Inserted(a + b, k, s) == Inserted(a, k, s) + b
  {
    assert (a + b)[..k] == a[..k] && (a + b)[k..] == a[k..] + b;
  }

  lemma {:induction false} TypingAtEnd(fs: seq<Fold>, buf: Bytes, pos: nat, s: Bytes, src: nat)
    requires fs == [] && src <= pos <= |buf| && Fit(fs, src, |buf|)
    ensures Fit(AfterInsert(fs, pos, |s|), src, |Inserted(buf, pos, s)|)
    ensures pos - src <= |Rendered(fs, buf, src)| && CursorAt(fs, buf, src, pos) == pos - src
    ensures CursorAt(AfterInsert(fs, pos, |s|), Inserted(buf, pos, s), src, pos + |s|) == pos - src + |s|
    ensures Rendered(AfterInsert(fs, pos, |s|), Inserted(buf, pos, s), src) == Inserted(Rendered(fs, buf, src), pos - src, s)
  {
    GapGrows(buf, pos, s, src, |buf|);
  }

  lemma {:induction false} GapGrows(buf: Bytes, pos: nat, s: Bytes, src: nat, end: nat)
    requires src <= pos <= end <= |buf|
    ensures Piece(Inserted(buf, pos, s), src, end + |s|) == Inserted(Piece(buf, src, end), pos - src, s)
  {
  }

  lemma {:induction false} TypingInGap(fs: seq<Fold>, buf: Bytes, pos: nat, s: Bytes, src: nat)
    requires Fit(fs, src, |buf|) && src <= pos && fs != [] && pos <= fs[0].start
    ensures Fit(AfterInsert(fs, pos, |s|), src, |Inserted(buf, pos, s)|) && pos <= |buf|
    ensures pos - src <= |Rendered(fs, buf, src)|
    ensures Rendered(AfterInsert(fs, pos, |s|), Inserted(buf, pos, s), src) == Inserted(Rendered(fs, buf, src), pos - src, s)
    ensures CursorAt(AfterInsert(fs, pos, |s|), Inserted(buf, pos, s), src, pos + |s|) == pos - src + |s|
  {
    hide *;
    FitRest(fs, src, |buf|);
    InsertFits(fs, pos, |s|, src, |buf|);
    InsertHead(fs, pos, |s|);
    var f := fs[0];
    RenderedShift(fs[1..], buf, pos, s, f.end);
    GapStep(fs, AfterInsert(fs, pos, |s|), buf, Inserted(buf, pos, s), pos, s, src, f, Fold(f.start + |s|, f.end + |s|),
            fs[1..], AfterInsert(fs[1..], pos, |s|));
    CursorFirst(AfterInsert(fs, pos, |s|), Inserted(buf, pos, s), src, pos + |s|);
  }

  /** The fold behind the insertion. */
  lemma {:induction false} GapStep(fs: seq<Fold>, gs: seq<Fold>, buf: Bytes, other: Bytes, pos: nat, s: Bytes, src: nat,
                f: Fold, g: Fold, rest: seq<Fold>, more: seq<Fold>)
    requires src <= pos <= f.start < f.end <= |buf| && g == Fold(f.start + |s|, f.end + |s|)
    requires Fit(fs, src, |buf|) && Fit(gs, src, |other|) && other == Inserted(buf, pos, s)
    requires fs != [] && gs != [] && f == fs[0] && g == gs[0] && rest == fs[1..] && more == gs[1..]
    requires Fit(rest, f.end, |buf|) && Fit(more, g.end, |other|) && Rendered(more, other, g.end) == Rendered(rest, buf, f.end)
    ensures pos - src <= |Rendered(fs, buf, src)|
    ensures Rendered(gs, other, src) == Inserted(Rendered(fs, buf, src), pos - src, s)
  {
    hide *;
    MovedBy(buf, pos, s, f, f.start);
    MovedShown(buf, other, pos, s, f, g, f.start, g.start);
    GapGrows(buf, pos, s, src, f.start);
    RenderedIs(fs, f, rest, buf, src);
    RenderedIs(gs, g, more, other, src);
    PieceLength(buf, src, f.start);
    InsertedInGap(Piece(buf, src, f.start), Shown(f, buf), Rendered(rest, buf, f.end), pos - src, s);
  }

  lemma {:induction false} InsertedInGap(gap: Bytes, shown: Bytes, rest: Bytes, k: nat, s: Bytes)
    requires k <= |gap|
    ensures Assembled(Inserted(gap, k, s), shown, rest) == Inserted(Assembled(gap, shown, rest), k, s)
  {
    hide Inserted;
    InsertedBefore(gap, shown, k, s);
    InsertedBefore(gap + shown, rest, k, s);
  }

  lemma {:induction false} InsertedInRest(gap: Bytes, shown: Bytes, rest: Bytes, k: nat, s: Bytes)
    requires k <= |rest|
    ensures Assembled(gap, shown, Inserted(rest, k, s)) == Inserted(Assembled(gap, shown, rest), |gap| + |shown| + k, s)
  {
    hide Inserted;
    InsertedBehind(gap + shown, rest, k, s);
  }

  lemma {:induction false} PieceLength(buf: Bytes, lo: nat, hi: nat)
    requires lo <= hi <= |buf|
    ensures |Piece(buf, lo, hi)| == hi - lo
  {
  }

  lemma {:induction false} RestIsPrefix(gap: Bytes, shown: Bytes, rest: Bytes, more: Bytes)
    requires rest <= more
    ensures Assembled(gap, shown, rest) <= Assembled(gap, shown, more)
  {
  }
}
