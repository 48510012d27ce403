/** Whole iterations over a radix tree. */
module RaxRuns {
  import opened ByteStrings
  import opened RaxTypes
  import opened RaxOrder
  import opened Rax
  import opened RaxIterator

  /** The keys after `s`. */
  ghost function Later(m: map<Bytes, Value>, s: Bytes): set<Bytes> {
    set x | x in m && Lt(s, x)
  }

  ghost function Earlier(m: map<Bytes, Value>, s: Bytes): set<Bytes> {
    set x | x in m && Lt(x, s)
  }

  lemma LaterShrinks(m: map<Bytes, Value>, s: Bytes, x: Bytes)
    requires IsNext(m, s, x)
    ensures Later(m, x) < Later(m, s)
  {
    LtIrreflexive(x);
    forall y | y in Later(m, x)
      ensures y in Later(m, s)
    {
      LtTransitive(s, x, y);
    }
    assert x in Later(m, s) && x !in Later(m, x);
  }

  lemma EarlierShrinks(m: map<Bytes, Value>, s: Bytes, x: Bytes)
    requires IsPrev(m, s, x)
    ensures Earlier(m, x) < Earlier(m, s)
  {
    LtIrreflexive(x);
    forall y | y in Earlier(m, x)
      ensures y in Earlier(m, s)
    {
      LtTransitive(y, x, s);
    }
    assert x in Earlier(m, s) && x !in Earlier(m, x);
  }

  /** A run so far. */
  ghost predicate Ascending(m: map<Bytes, Value>, ks: seq<Bytes>) {
    ks != [] && ks[0] in m && forall i :: 0 <= i < |ks| - 1 ==> IsNext(m, ks[i], ks[i + 1])
  }

  ghost predicate Descending(m: map<Bytes, Value>, ks: seq<Bytes>) {
    ks != [] && ks[0] in m && forall i :: 0 <= i < |ks| - 1 ==> IsPrev(m, ks[i], ks[i + 1])
  }

  lemma AscendsOn(m: map<Bytes, Value>, ks: seq<Bytes>, x: Bytes)
    requires Ascending(m, ks) && IsNext(m, ks[|ks| - 1], x)
    ensures Ascending(m, ks + [x])
  {
    hide IsNext;
  }

  lemma DescendsOn(m: map<Bytes, Value>, ks: seq<Bytes>, x: Bytes)
    requires Descending(m, ks) && IsPrev(m, ks[|ks| - 1], x)
    ensures Descending(m, ks + [x])
  {
    hide IsPrev;
  }

  /** The first key is the nearest that is wanted, so the run has all of them. */
  lemma AscendsAll(m: map<Bytes, Value>, ks: seq<Bytes>, s: Bytes, eq: bool)
    requires Ascending(m, ks) && forall y :: y in m ==> !Lt(ks[|ks| - 1], y)
    requires Iterator.Wanted(eq, false, true, s, ks[0])
    requires forall x :: x in m && Iterator.Wanted(eq, false, true, s, x) ==> x == ks[0] || Lt(ks[0], x)
    ensures forall i, j :: 0 <= i < j < |ks| ==> Lt(ks[i], ks[j])
    ensures forall x :: x in ks <==> x in m && Iterator.Wanted(eq, false, true, s, x)
  {
    ForwardRunComplete(m, ks);
    forall x | x in m && Lt(ks[0], x)
      ensures Iterator.Wanted(eq, false, true, s, x)
    {
      if Lt(s, ks[0]) {
        LtTransitive(s, ks[0], x);
      }
    }
  }

  lemma DescendsAll(m: map<Bytes, Value>, ks: seq<Bytes>, s: Bytes, eq: bool)
    requires Descending(m, ks) && forall y :: y in m ==> !Lt(y, ks[|ks| - 1])
    requires Iterator.Wanted(eq, true, false, s, ks[0])
    requires forall x :: x in m && Iterator.Wanted(eq, true, false, s, x) ==> x == ks[0] || Lt(x, ks[0])
    ensures forall i, j :: 0 <= i < j < |ks| ==> Lt(ks[j], ks[i])
    ensures forall x :: x in ks <==> x in m && Iterator.Wanted(eq, true, false, s, x)
  {
    BackwardRunComplete(m, ks);
    forall x | x in m && Lt(x, ks[0])
      ensures Iterator.Wanted(eq, true, false, s, x)
    {
      if Lt(ks[0], s) {
        LtTransitive(x, ks[0], s);
      }
    }
  }

  /** Seek and go forward to the end: every key from `s` on, or after it, once and in
      ascending order. */
  method KeysAfter(rt: Rax, s: Bytes, eq: bool) returns (keys: seq<Bytes>)
    requires rt.Valid()
    ensures forall i, j :: 0 <= i < j < |keys| ==> Lt(keys[i], keys[j])
    ensures forall x :: x in keys <==> x in rt.contents && ((eq && x == s) || Lt(s, x))
  {
    hide Rax.Valid, Iterator.Standing, Ascending, IsNext, Later;
    var it := new Iterator(rt);
    var ok := it.Seek(if eq then ">=" else ">", s);
    keys := [];
    ghost var m := rt.contents;
    ok := it.Next();
    if !ok {
      return;
    }
    keys := [it.key];
    Begins(m, it.key);
    while true
      invariant fresh(it) && it.rt == rt && it.Placed() && !it.eof && !it.justSeeked
      invariant Ascending(m, keys) && keys != [] && it.key == keys[|keys| - 1] && m == rt.contents
      invariant Iterator.Wanted(eq, false, true, s, keys[0])
      invariant forall x :: x in m && Iterator.Wanted(eq, false, true, s, x) ==> x == keys[0] || Lt(keys[0], x)
      decreases Later(m, it.key)
    {
      ghost var last := it.key;
      ok := it.Next();
      if !ok {
        break;
      }
      LaterShrinks(m, last, it.key);
      AscendsOn(m, keys, it.key);
      keys := keys + [it.key];
    }
    AscendsAll(m, keys, s, eq);
  }

  lemma Begins(m: map<Bytes, Value>, x: Bytes)
    requires x in m
    ensures Ascending(m, [x]) && Descending(m, [x])
  {
  }

  /** Seek and go back to the start: every key up to `s`, or before it, once and in
      descending order. */
  method KeysBefore(rt: Rax, s: Bytes, eq: bool) returns (keys: seq<Bytes>)
    requires rt.Valid()
    ensures forall i, j :: 0 <= i < j < |keys| ==> Lt(keys[j], keys[i])
    ensures forall x :: x in keys <==> x in rt.contents && ((eq && x == s) || Lt(x, s))
  {
    hide Rax.Valid, Iterator.Standing, Descending, IsPrev, Earlier;
    var it := new Iterator(rt);
    var ok := it.Seek(if eq then "<=" else "<", s);
    keys := [];
    ghost var m := rt.contents;
    ok := it.Prev();
    if !ok {
      return;
    }
    keys := [it.key];
    Begins(m, it.key);
    while true
      invariant fresh(it) && it.rt == rt && it.Placed() && !it.eof && !it.justSeeked
      invariant Descending(m, keys) && keys != [] && it.key == keys[|keys| - 1] && m == rt.contents
      invariant Iterator.Wanted(eq, true, false, s, keys[0])
      invariant forall x :: x in m && Iterator.Wanted(eq, true, false, s, x) ==> x == keys[0] || Lt(x, keys[0])
      decreases Earlier(m, it.key)
    {
      ghost var last := it.key;
      ok := it.Prev();
      if !ok {
        break;
      }
      EarlierShrinks(m, last, it.key);
      DescendsOn(m, keys, it.key);
      keys := keys + [it.key];
    }
    DescendsAll(m, keys, s, eq);
  }
}
