/** The folds of an edit buffer in two arrays. */
module FoldTable {
  import opened ByteStrings
  import opened PasteFolds

  class Table {
    const starts: array<nat>
    const ends: array<nat>
    var count: nat

    ghost predicate Valid()
      reads this
    {
      starts.Length == ends.Length == MAX_FOLDS && starts != ends && count <= MAX_FOLDS
    }

    ghost function Folds(): (r: seq<Fold>)
      requires Valid()
      reads this, starts, ends
      ensures |r| == count
    {
      seq(count, i requires 0 <= i < count reads this, starts, ends requires Valid() => Fold(starts[i], ends[i]))
    }

    constructor ()
      ensures Valid() && Folds() == [] && fresh(this) && fresh(starts) && fresh(ends)
    {
      starts, ends, count := new nat[MAX_FOLDS], new nat[MAX_FOLDS], 0;
    }

    method Clear()
      requires Valid()
      modifies this
      ensures Valid() && Folds() == []
    {
      count := 0;
    }

    /** Drop fold `j`: the later ones move down. */
    method Remove(j: nat)
      requires Valid() && j < count
      modifies this, starts, ends
      ensures Valid() && count == old(count) - 1 && Folds() == Without(old(Folds()), j)
    {
      hide Fit;
      forall k | j <= k < count - 1 {
        starts[k] := starts[k + 1];
      }
      forall k | j <= k < count - 1 {
        ends[k] := ends[k + 1];
      }
      count := count - 1;
    }

    /** All slots, used or not. */
    ghost function Slots(): (r: seq<Fold>)
      requires Valid()
      reads this, starts, ends
      ensures |r| == MAX_FOLDS && Folds() == r[..count]
    {
      seq(MAX_FOLDS, i requires 0 <= i < MAX_FOLDS reads this, starts, ends requires Valid() => Fold(starts[i], ends[i]))
    }

    method Write(j: nat, start: nat, end: nat)
      requires Valid() && j < MAX_FOLDS
      modifies starts, ends
      ensures Valid() && Slots() == old(Slots())[j := Fold(start, end)]
    {
      starts[j] := start;
      ends[j] := end;
    }

    /** Remember a range in its place by start; nothing when it is empty or the table
        is full. */
    method Add(start: nat, end: nat)
      requires Valid()
      modifies this, starts, ends
      ensures Valid() && Folds() == WithFold(old(Folds()), Fold(start, end))
    {
      hide Fit, Added, Shifted;
      if start >= end || count == MAX_FOLDS {
        return;
      }
      ghost var fs, f := Folds(), Fold(start, end);
      var j: nat := count;
      ShiftBegins(Slots(), fs, f);
      while j > 0 && start < starts[j - 1]
        invariant j <= count && count == |fs| && Valid() && count < MAX_FOLDS
        invariant Shifted(Slots(), fs, j, f)
      {
        ShiftSlot(Slots(), fs, j, f);
        assert Slots()[j - 1] == Fold(starts[j - 1], ends[j - 1]);
        Write(j, starts[j - 1], ends[j - 1]);
        j := j - 1;
      }
      if j > 0 {
        assert Slots()[j - 1] == Fold(starts[j - 1], ends[j - 1]);
      }
      ShiftEnds(Slots(), fs, j, f);
      Write(j, start, end);
      count := count + 1;
    }

    /** Is part of `[pos, pos + len)` hidden? */
    method Overlaps(pos: nat, len: nat) returns (r: bool)
      requires Valid()
      ensures r <==> exists f :: f in Folds() && pos + len > f.start && pos < f.end
    {
      r := false;
      for j := 0 to count
        invariant r <==> exists i :: 0 <= i < j && pos + len > Folds()[i].start && pos < Folds()[i].end
      {
        if pos + len > starts[j] && pos < ends[j] {
          assert pos + len > Folds()[j].start && pos < Folds()[j].end;
          r := true;
        }
      }
    }

    /** Move fold `j`. */
    method Set(j: nat, start: nat, end: nat)
      requires Valid() && j < count
      modifies starts, ends
      ensures Valid() && Folds() == old(Folds())[j := Fold(start, end)]
    {
      starts[j] := start;
      ends[j] := end;
    }

    method AdjustAfterInsert(pos: nat, len: nat)
      requires Valid()
      modifies this, starts, ends
      ensures Valid() && Folds() == AfterInsert(old(Folds()), pos, len)
    {
      hide Fit, AfterInsert, Without, InsertedFrom;
      ghost var fs := Folds();
      var j := 0;
      InsertBegins(fs, pos, len);
      while j < count
        invariant Valid() && j <= count && InsertedFrom(Folds(), j, pos, len) == AfterInsert(fs, pos, len)
        decreases count - j
      {
        InsertFold(Folds(), j, pos, len);
        if pos <= starts[j] {
          Set(j, starts[j] + len, ends[j] + len);
          j := j + 1;
        } else if pos < ends[j] {
          Remove(j);
        } else {
          j := j + 1;
        }
      }
      InsertEnds(Folds(), pos, len);
    }

    method AdjustAfterDelete(pos: nat, len: nat)
      requires Valid() && Ordered(Folds(), 0)
      modifies this, starts, ends
      ensures Valid() && Folds() == AfterDelete(old(Folds()), pos, len)
    {
      hide Fit, AfterDelete, Without, DeletedFrom, Ordered;
      ghost var fs := Folds();
      var j := 0;
      DeleteBegins(fs, pos, len);
      while j < count
        invariant Valid() && j <= count && Ordered(Folds(), j)
        invariant DeletedFrom(Folds(), j, pos, len) == AfterDelete(fs, pos, len)
        decreases count - j
      {
        DeleteFold(Folds(), j, pos, len);
        if pos + len <= starts[j] {
          Set(j, starts[j] - len, ends[j] - len);
          j := j + 1;
        } else if pos >= ends[j] {
          j := j + 1;
        } else {
          Remove(j);
        }
      }
      DeleteEnds(Folds(), pos, len);
    }
  }

  // The passes over the table

  ghost predicate Ordered(fs: seq<Fold>, j: nat) {
    forall i :: j <= i < |fs| ==> fs[i].start <= fs[i].end
  }

  /** The folds before `j` are done. */
  function InsertedFrom(fs: seq<Fold>, j: nat, pos: nat, n: nat): seq<Fold>
    requires j <= |fs|
  {
    fs[..j] + AfterInsert(fs[j..], pos, n)
  }

  function DeletedFrom(fs: seq<Fold>, j: nat, pos: nat, n: nat): seq<Fold>
    requires j <= |fs|
  {
    fs[..j] + AfterDelete(fs[j..], pos, n)
  }

  lemma InsertBegins(fs: seq<Fold>, pos: nat, n: nat)
    ensures InsertedFrom(fs, 0, pos, n) == AfterInsert(fs, pos, n)
  {
    assert fs[0..] == fs;
  }

  lemma InsertEnds(fs: seq<Fold>, pos: nat, n: nat)
    ensures InsertedFrom(fs, |fs|, pos, n) == fs
  {
  }

  lemma InsertFold(fs: seq<Fold>, j: nat, pos: nat, n: nat)
    requires j < |fs|
    ensures var f := fs[j];
            InsertedFrom(fs, j, pos, n) ==
              if pos <= f.start then InsertedFrom(fs[j := Fold(f.start + n, f.end + n)], j + 1, pos, n)
              else if pos < f.end then InsertedFrom(Without(fs, j), j, pos, n)
              else InsertedFrom(fs, j + 1, pos, n)
  {
    hide AfterInsert;
    InsertStep(fs[j..], pos, n);
    AroundFold(fs, j, Fold(fs[j].start + n, fs[j].end + n));
    OneBefore(fs[..j], fs[j], AfterInsert(fs[j + 1..], pos, n));
    OneBefore(fs[..j], Fold(fs[j].start + n, fs[j].end + n), AfterInsert(fs[j + 1..], pos, n));
  }

  lemma OneBefore(a: seq<Fold>, f: Fold, b: seq<Fold>)
    ensures a + ([f] + b) == a + [f] + b
  {
  }

  lemma AroundFold(fs: seq<Fold>, j: nat, f: Fold)
    requires j < |fs|
    ensures fs[j..][0] == fs[j] && fs[j..][1..] == fs[j + 1..] && fs[..j + 1] == fs[..j] + [fs[j]]
    ensures var gs := fs[j := f]; gs[..j + 1] == fs[..j] + [f] && gs[j + 1..] == fs[j + 1..]
    ensures var gs := Without(fs, j); gs[..j] == fs[..j] && gs[j..] == fs[j + 1..]
  {
  }

  lemma DeleteBegins(fs: seq<Fold>, pos: nat, n: nat)
    ensures DeletedFrom(fs, 0, pos, n) == AfterDelete(fs, pos, n)
  {
    assert fs[0..] == fs;
  }

  lemma DeleteEnds(fs: seq<Fold>, pos: nat, n: nat)
    ensures DeletedFrom(fs, |fs|, pos, n) == fs
  {
  }

  lemma DeleteFold(fs: seq<Fold>, j: nat, pos: nat, n: nat)
    requires j < |fs| && Ordered(fs, j)
    ensures fs[j].start <= fs[j].end && Ordered(fs, j + 1) && Ordered(Without(fs, j), j)
    ensures pos + n <= fs[j].start ==> Ordered(fs[j := Fold(fs[j].start - n, fs[j].end - n)], j + 1)
    ensures var f := fs[j];
            DeletedFrom(fs, j, pos, n) ==
              if pos + n <= f.start then DeletedFrom(fs[j := Fold(f.start - n, f.end - n)], j + 1, pos, n)
              else if pos >= f.end then DeletedFrom(fs, j + 1, pos, n)
              else DeletedFrom(Without(fs, j), j, pos, n)
  {
    hide AfterDelete;
    DeleteStep(fs[j..], pos, n);
    var g := if pos + n <= fs[j].start then Pulled(fs[j], n) else fs[j];
    AroundFold(fs, j, g);
    OneBefore(fs[..j], fs[j], AfterDelete(fs[j + 1..], pos, n));
    OneBefore(fs[..j], g, AfterDelete(fs[j + 1..], pos, n));
  }

  lemma AddedPasses(fs: seq<Fold>, f: Fold, j: nat)
    requires 0 < j <= |fs| && f.start < fs[j - 1].start
    ensures Added(fs[..j], f) + fs[j..] == Added(fs[..j - 1], f) + fs[j - 1..]
  {
    assert fs[..j][..j - 1] == fs[..j - 1];
    assert fs[j - 1..] == [fs[j - 1]] + fs[j..];
  }

  /** From slot `j` on the folds have moved up by one. */
  ghost predicate Shifted(slots: seq<Fold>, fs: seq<Fold>, j: nat, f: Fold) {
    && |slots| == MAX_FOLDS && j <= |fs| < MAX_FOLDS
    && (forall i :: 0 <= i < j ==> slots[i] == fs[i])
    && (forall i :: j <= i < |fs| ==> slots[i + 1] == fs[i])
    && Added(fs, f) == Added(fs[..j], f) + fs[j..]
  }

  lemma ShiftBegins(slots: seq<Fold>, fs: seq<Fold>, f: Fold)
    requires |fs| < |slots| == MAX_FOLDS && fs == slots[..|fs|]
    ensures Shifted(slots, fs, |fs|, f)
  {
    hide Added;
    assert fs[..|fs|] == fs;
  }

  lemma ShiftSlot(slots: seq<Fold>, fs: seq<Fold>, j: nat, f: Fold)
    requires Shifted(slots, fs, j, f) && 0 < j && j < |slots| && f.start < slots[j - 1].start
    ensures Shifted(slots[j := slots[j - 1]], fs, j - 1, f)
  {
    AddedPasses(fs, f, j);
  }

  lemma ShiftEnds(slots: seq<Fold>, fs: seq<Fold>, j: nat, f: Fold)
    requires Shifted(slots, fs, j, f) && j < |slots| && |fs| < |slots| && (j > 0 ==> slots[j - 1].start <= f.start)
    ensures slots[j := f][..|fs| + 1] == Added(fs, f)
  {
    AddedHere(fs[..j], f);
    Spliced(fs, slots[j := f][..|fs| + 1], f, j);
  }

  lemma Spliced(fs: seq<Fold>, gs: seq<Fold>, f: Fold, j: nat)
    requires j <= |fs| && |gs| == |fs| + 1 && gs[j] == f
    requires (forall i :: 0 <= i < j ==> gs[i] == fs[i]) && (forall i :: j <= i < |fs| ==> gs[i + 1] == fs[i])
    ensures gs == fs[..j] + [f] + fs[j..]
  {
    var r := fs[..j] + [f] + fs[j..];
    forall i | j < i < |gs|
      ensures gs[i] == r[i]
    {
      assert gs[i - 1 + 1] == fs[i - 1];
    }
  }

  lemma AddedHere(fs: seq<Fold>, f: Fold)
    requires fs == [] || fs[|fs| - 1].start <= f.start
    ensures Added(fs, f) == fs + [f]
  {
  }
}
