/** Byte order of keys, and where the keys of a tree lie around a position. */
module RaxOrder {
  import opened ByteStrings
  import opened RaxTypes
  import opened RaxTree

  /** Strict lexicographic order; a proper prefix comes first. */
  predicate Lt(a: Bytes, b: Bytes) {
    b != [] && (a == [] || a[0] < b[0] || (a[0] == b[0] && Lt(a[1..], b[1..])))
  }

  lemma {:induction false} LtIrreflexive(a: Bytes)
    ensures !Lt(a, a)
  {
    if a != [] {
      LtIrreflexive(a[1..]);
    }
  }

  lemma {:induction false} LtTransitive(a: Bytes, b: Bytes, c: Bytes)
    requires Lt(a, b) && Lt(b, c)
    ensures Lt(a, c)
  {
    if a != [] && a[0] == b[0] && b[0] == c[0] {
      LtTransitive(a[1..], b[1..], c[1..]);
    }
  }

  /** A common prefix does not matter. */
  lemma {:induction false} LtSamePrefix(p: Bytes, a: Bytes, b: Bytes)
    ensures Lt(p + a, p + b) <==> Lt(a, b)
  {
    if p == [] {
      assert p + a == a && p + b == b;
    } else {
      LtSamePrefix(p[1..], a, b);
      assert (p + a)[1..] == p[1..] + a && (p + b)[1..] == p[1..] + b;
    }
  }

  /** Away from the strings that extend `p`, all extensions of `p` compare alike. */
  lemma {:induction false} LtElsewhere(p: Bytes, a: Bytes, x: Bytes)
    requires !(p <= x)
    ensures Lt(p + a, x) <==> Lt(p, x)
    ensures Lt(x, p + a) <==> Lt(x, p)
  {
    assert p != [];
    if x != [] && p[0] == x[0] {
      assert (p + a)[1..] == p[1..] + a;
      PrefixTail(p, x);
      LtElsewhere(p[1..], a, x[1..]);
    }
  }

  lemma PrefixTail(p: Bytes, x: Bytes)
    requires p != [] && x != [] && p[0] == x[0]
    ensures p <= x <==> p[1..] <= x[1..]
  {
    assert p == [p[0]] + p[1..] && x == [x[0]] + x[1..];
  }

  lemma LtExtension(p: Bytes, x: Bytes)
    requires p <= x && p != x
    ensures Lt(p, x) && !Lt(x, p)
  {
    var u := x[|p|..];
    assert x == p + u && p == p + [];
    LtSamePrefix(p, [], u);
    LtSamePrefix(p, u, []);
  }

  /** Strings that extend `p` by different first bytes. */
  lemma LtBranches(p: Bytes, b: Byte, a: Bytes, x: Bytes)
    requires p <= x && |x| > |p| && x[|p|] != b
    ensures Lt(p + [b] + a, x) <==> b < x[|p|]
    ensures Lt(x, p + [b] + a) <==> x[|p|] < b
    ensures !(p + [b] <= x)
  {
    var u := x[|p|..];
    assert x == p + u && p + [b] + a == p + ([b] + a);
    LtSamePrefix(p, [b] + a, u);
    LtSamePrefix(p, u, [b] + a);
    assert (p + [b])[|p|] == b;
  }

  // ---------- what a goal key looks like from a position

  /** The keys above `s0` are those above `p`. */
  ghost predicate After(m: map<Bytes, Value>, s0: Bytes, p: Bytes) {
    forall x :: x in m ==> (Lt(s0, x) <==> Lt(p, x))
  }

  /** The keys above `s0` are those above `p` and above all its extensions. */
  ghost predicate AfterAll(m: map<Bytes, Value>, s0: Bytes, p: Bytes) {
    forall x :: x in m ==> (Lt(s0, x) <==> Lt(p, x) && !(p <= x))
  }

  /** The keys above `s0` are those from `p` on. */
  ghost predicate From(m: map<Bytes, Value>, s0: Bytes, p: Bytes) {
    forall x :: x in m ==> (Lt(s0, x) <==> x == p || Lt(p, x))
  }

  ghost predicate Before(m: map<Bytes, Value>, s0: Bytes, p: Bytes) {
    forall x :: x in m ==> (Lt(x, s0) <==> Lt(x, p))
  }

  ghost predicate UpTo(m: map<Bytes, Value>, s0: Bytes, p: Bytes) {
    forall x :: x in m ==> (Lt(x, s0) <==> x == p || Lt(x, p))
  }

  /** The keys below `s0` are those below `p` and all extensions of `p`. */
  ghost predicate UpToAll(m: map<Bytes, Value>, s0: Bytes, p: Bytes) {
    forall x :: x in m ==> (Lt(x, s0) <==> Lt(x, p) || p <= x)
  }

  /** Node `f` below context `c`, in a tree that means `m`. */
  ghost predicate Here(c: Ctx, f: Tree, m: map<Bytes, Value>) {
    CtxOk(c) && ShapeOk(f) && Means(Plug(c, Sub(f)), m)
  }

  /** A key below node `f`, other than its own, goes through one of its edges. */
  lemma EdgeBelow(c: Ctx, f: Tree, m: map<Bytes, Value>, x: Bytes) returns (j: nat)
    requires Here(c, f, m) && x in m && Path(c) <= x && x != Path(c)
    ensures j < |f.kids| && Path(c) + Edge(f.hd, j) <= x
    ensures !f.hd.iscompr ==> j < |f.hd.bytes| && |x| > |Path(c)| && x[|Path(c)|] == f.hd.bytes[j]
    ensures f.hd.iscompr ==> j == 0
  {
    GetPlug(c, Sub(f), Sub(f), x);
    var u := x[|Path(c)|..];
    assert x == Path(c) + u;
    assert Lookup(m, x).Some?;
    j := if f.hd.iscompr then 0 else IndexOf(f.hd.bytes, u[0]);
    assert [u[0]] <= u;
    PrefixSplit(Path(c), Edge(f.hd, j), x);
  }

  /** An inline value is the only key at and below its slot. */
  lemma LeafOnly(c: Ctx, v: Value, m: map<Bytes, Value>, x: Bytes)
    requires CtxOk(c) && Means(Plug(c, Leaf(v)), m) && x in m && Path(c) <= x
    ensures x == Path(c)
  {
    GetPlug(c, Leaf(v), Leaf(v), x);
    assert x == Path(c) + x[|Path(c)|..];
    assert Lookup(m, x).Some?;
  }

  lemma FromThenAfter(m: map<Bytes, Value>, s0: Bytes, p: Bytes)
    requires From(m, s0, p) && p !in m
    ensures After(m, s0, p)
  {
  }

  lemma UpToThenBefore(m: map<Bytes, Value>, s0: Bytes, p: Bytes)
    requires UpTo(m, s0, p) && p !in m
    ensures Before(m, s0, p)
  {
  }

  /** Going down to the first child. */
  lemma DownFirst(c: Ctx, f: Tree, m: map<Bytes, Value>, s0: Bytes)
    requires Here(c, f, m) && f.kids != [] && After(m, s0, Path(c))
    ensures From(m, s0, Path(c) + Edge(f.hd, 0))
  {
    hide Here, Get, GetKid, Plug;
    var p, e := Path(c), Edge(f.hd, 0);
    assert ShapeOk(f) && CtxOk(c) by { HereShape(c, f, m); }
    forall x | x in m ensures Lt(s0, x) <==> x == p + e || Lt(p + e, x) {
      if p <= x {
        if x == p {
          LtIrreflexive(p);
          LtExtension(p, p + e);
        } else {
          LtExtension(p, x);
          var j := EdgeBelow(c, f, m, x);
          if j == 0 {
            if x != p + e {
              LtExtension(p + e, x);
            }
          } else {
            assert p + e + [] == p + e;
            LtBranches(p, f.hd.bytes[0], [], x);
          }
        }
      } else {
        LtElsewhere(p, e, x);
      }
    }
  }

  lemma HereShape(c: Ctx, f: Tree, m: map<Bytes, Value>)
    requires Here(c, f, m)
    ensures ShapeOk(f) && CtxOk(c)
  {
  }

  /** Nothing below a childless node: the goal lies after its whole subtree. */
  lemma Childless(c: Ctx, f: Tree, m: map<Bytes, Value>, s0: Bytes)
    requires Here(c, f, m) && f.kids == [] && After(m, s0, Path(c))
    ensures AfterAll(m, s0, Path(c))
  {
    var p := Path(c);
    forall x | x in m && p <= x ensures !Lt(p, x) {
      if x == p {
        LtIrreflexive(p);
      } else {
        var j := EdgeBelow(c, f, m, x);
        assert false;
      }
    }
  }

  lemma PastLeaf(c: Ctx, v: Value, m: map<Bytes, Value>, s0: Bytes)
    requires CtxOk(c) && Means(Plug(c, Leaf(v)), m) && After(m, s0, Path(c))
    ensures AfterAll(m, s0, Path(c))
  {
    var p := Path(c);
    forall x | x in m && p <= x ensures !Lt(p, x) {
      LeafOnly(c, v, m, x);
      LtIrreflexive(p);
    }
  }

  /** The edge bytes of `f` above `ch` start at `i`. */
  ghost predicate FirstAbove(f: Tree, ch: Byte, i: nat) {
    && i <= |f.hd.bytes|
    && (forall j :: 0 <= j < i ==> f.hd.bytes[j] <= ch)
    && (i < |f.hd.bytes| ==> f.hd.bytes[i] > ch)
  }

  /** Crossing to the next child of a node, after everything under byte `ch`. */
  lemma AcrossNext(c: Ctx, f: Tree, m: map<Bytes, Value>, s0: Bytes, ch: Byte, i: nat)
    requires Here(c, f, m) && !f.hd.iscompr && FirstAbove(f, ch, i)
    requires AfterAll(m, s0, Path(c) + [ch])
    ensures i < |f.hd.bytes| ==> From(m, s0, Path(c) + Edge(f.hd, i))
    ensures i == |f.hd.bytes| ==> AfterAll(m, s0, Path(c))
  {
    hide Here, Get, GetKid, Plug;
    HereShape(c, f, m);
    var p := Path(c);
    forall x | x in m
      ensures i < |f.hd.bytes| ==> (Lt(s0, x) <==> x == p + [f.hd.bytes[i]] || Lt(p + [f.hd.bytes[i]], x))
      ensures i == |f.hd.bytes| ==> (Lt(s0, x) <==> Lt(p, x) && !(p <= x))
    {
      if p <= x {
        if x == p {
          LtExtension(p, p + [ch]);
          if i < |f.hd.bytes| {
            LtExtension(p, p + [f.hd.bytes[i]]);
          }
        } else {
          var j := EdgeBelow(c, f, m, x);
          ByteCases(f, ch, i, j);
          CompareAt(p, ch, x);
          if i < |f.hd.bytes| {
            CompareAt(p, f.hd.bytes[i], x);
          }
        }
      } else {
        LtElsewhere(p, [ch], x);
        PrefixSplit(p, [ch], x);
        if i < |f.hd.bytes| {
          LtElsewhere(p, [f.hd.bytes[i]], x);
        }
      }
    }
  }

  lemma ByteCases(f: Tree, ch: Byte, i: nat, j: nat)
    requires !f.hd.iscompr && ShapeOk(f) && FirstAbove(f, ch, i) && j < |f.hd.bytes|
    ensures j < i <==> f.hd.bytes[j] <= ch
    ensures i < |f.hd.bytes| ==> (j < i <==> f.hd.bytes[j] < f.hd.bytes[i]) && (j == i <==> f.hd.bytes[j] == f.hd.bytes[i])
  {
    assert i < j ==> f.hd.bytes[i] < f.hd.bytes[j];
  }

  /** Comparing `p + [b]` with a proper extension of `p`. */
  lemma CompareAt(p: Bytes, b: Byte, x: Bytes)
    requires p <= x && |x| > |p|
    ensures p + [b] <= x <==> x[|p|] == b
    ensures Lt(p + [b], x) <==> b < x[|p|] || (b == x[|p|] && x != p + [b])
    ensures Lt(x, p + [b]) <==> x[|p|] < b
  {
    assert p + [b] + [] == p + [b];
    if x[|p|] == b {
      assert x == p + [b] + x[|p| + 1..];
      if x != p + [b] {
        LtExtension(p + [b], x);
      } else {
        LtIrreflexive(x);
      }
    } else {
      LtBranches(p, b, [], x);
    }
  }

  /** A compressed node has no other child to cross to. */
  lemma AcrossCompressed(c: Ctx, f: Tree, m: map<Bytes, Value>, s0: Bytes)
    requires Here(c, f, m) && f.hd.iscompr && AfterAll(m, s0, Path(c) + f.hd.bytes)
    ensures AfterAll(m, s0, Path(c))
  {
    hide Here, Get, GetKid, Plug;
    HereShape(c, f, m);
    var p := Path(c);
    forall x | x in m ensures Lt(s0, x) <==> Lt(p, x) && !(p <= x) {
      if p <= x {
        if x == p {
          LtExtension(p, p + f.hd.bytes);
        } else {
          var j := EdgeBelow(c, f, m, x);
        }
      } else {
        LtElsewhere(p, f.hd.bytes, x);
        PrefixSplit(p, f.hd.bytes, x);
      }
    }
  }

  lemma NothingAfter(m: map<Bytes, Value>, s0: Bytes)
    requires AfterAll(m, s0, [])
    ensures forall x :: x in m ==> !Lt(s0, x)
  {
  }

  // ---------- the same, backwards

  /** The edge bytes of `f` below `ch` are the first `i`. */
  ghost predicate LastBelow(f: Tree, ch: Byte, i: nat) {
    && i <= |f.hd.bytes|
    && (forall j :: i <= j < |f.hd.bytes| ==> f.hd.bytes[j] >= ch)
    && (i > 0 ==> f.hd.bytes[i - 1] < ch)
  }

  lemma BytesBelow(f: Tree, ch: Byte, i: nat, j: nat)
    requires !f.hd.iscompr && ShapeOk(f) && LastBelow(f, ch, i) && j < |f.hd.bytes|
    ensures j < i <==> f.hd.bytes[j] < ch
    ensures i > 0 ==> (j < i - 1 <==> f.hd.bytes[j] < f.hd.bytes[i - 1]) && (j == i - 1 <==> f.hd.bytes[j] == f.hd.bytes[i - 1])
  {
    assert j < i - 1 ==> f.hd.bytes[j] < f.hd.bytes[i - 1];
    assert j > i - 1 >= 0 ==> f.hd.bytes[j] > f.hd.bytes[i - 1];
  }

  /** Crossing to the previous child of a node, or back up to the node itself. */
  lemma AcrossPrev(c: Ctx, f: Tree, m: map<Bytes, Value>, s0: Bytes, ch: Byte, i: nat)
    requires Here(c, f, m) && !f.hd.iscompr && LastBelow(f, ch, i)
    requires Before(m, s0, Path(c) + [ch])
    ensures i > 0 ==> UpToAll(m, s0, Path(c) + Edge(f.hd, i - 1))
    ensures i == 0 ==> UpTo(m, s0, Path(c))
  {
    hide Here, Get, GetKid, Plug;
    HereShape(c, f, m);
    var p := Path(c);
    forall x | x in m
      ensures i > 0 ==> (Lt(x, s0) <==> Lt(x, p + [f.hd.bytes[i - 1]]) || p + [f.hd.bytes[i - 1]] <= x)
      ensures i == 0 ==> (Lt(x, s0) <==> x == p || Lt(x, p))
    {
      if p <= x {
        if x == p {
          LtExtension(p, p + [ch]);
          if i > 0 {
            LtExtension(p, p + [f.hd.bytes[i - 1]]);
          }
        } else {
          LtExtension(p, x);
          var j := EdgeBelow(c, f, m, x);
          BytesBelow(f, ch, i, j);
          CompareAt(p, ch, x);
          if i > 0 {
            CompareAt(p, f.hd.bytes[i - 1], x);
          }
        }
      } else {
        LtElsewhere(p, [ch], x);
        if i > 0 {
          LtElsewhere(p, [f.hd.bytes[i - 1]], x);
          PrefixSplit(p, [f.hd.bytes[i - 1]], x);
        }
      }
    }
  }

  lemma AcrossPrevCompressed(c: Ctx, f: Tree, m: map<Bytes, Value>, s0: Bytes)
    requires Here(c, f, m) && f.hd.iscompr && Before(m, s0, Path(c) + f.hd.bytes)
    ensures UpTo(m, s0, Path(c))
  {
    hide Here, Get, GetKid, Plug;
    HereShape(c, f, m);
    var p := Path(c);
    forall x | x in m ensures Lt(x, s0) <==> x == p || Lt(x, p) {
      if p <= x {
        if x == p {
          LtExtension(p, p + f.hd.bytes);
        } else {
          LtExtension(p, x);
          var j := EdgeBelow(c, f, m, x);
          if x != p + f.hd.bytes {
            LtExtension(p + f.hd.bytes, x);
          } else {
            LtIrreflexive(x);
          }
        }
      } else {
        LtElsewhere(p, f.hd.bytes, x);
      }
    }
  }

  /** Going down to the last child. */
  lemma DownLast(c: Ctx, f: Tree, m: map<Bytes, Value>, s0: Bytes)
    requires Here(c, f, m) && f.kids != [] && UpToAll(m, s0, Path(c))
    ensures UpToAll(m, s0, Path(c) + Edge(f.hd, |f.kids| - 1))
  {
    hide Here, Get, GetKid, Plug;
    HereShape(c, f, m);
    var p, i := Path(c), |f.kids| - 1;
    var e := Edge(f.hd, i);
    forall x | x in m ensures Lt(x, s0) <==> Lt(x, p + e) || p + e <= x {
      if p <= x {
        if x == p {
          LtExtension(p, p + e);
        } else {
          var j := EdgeBelow(c, f, m, x);
          if !f.hd.iscompr {
            assert j < i ==> f.hd.bytes[j] < f.hd.bytes[i];
            CompareAt(p, f.hd.bytes[i], x);
          }
        }
      } else {
        LtElsewhere(p, e, x);
        PrefixSplit(p, e, x);
      }
    }
  }

  /** At the far end of a subtree its last key has been reached. */
  lemma LastKey(c: Ctx, k: Kid, m: map<Bytes, Value>, s0: Bytes)
    requires CtxOk(c) && Means(Plug(c, k), m) && UpToAll(m, s0, Path(c))
    requires k.Sub? ==> ShapeOk(k.tree) && k.tree.kids == []
    ensures UpTo(m, s0, Path(c))
  {
    forall x | x in m && Path(c) <= x ensures x == Path(c) {
      match k
      case Leaf(v) => LeafOnly(c, v, m, x);
      case Sub(f) =>
        if x != Path(c) {
          var j := EdgeBelow(c, f, m, x);
          assert false;
        }
    }
  }

  lemma NothingBefore(m: map<Bytes, Value>, s0: Bytes)
    requires Before(m, s0, [])
    ensures forall x :: x in m ==> !Lt(x, s0)
  {
  }

  // ---------- seeking: how the keys lie around a string that is no key

  /** A byte that is no edge of node `f`: no key lies below it. */
  lemma SeekMismatch(c: Ctx, f: Tree, m: map<Bytes, Value>, s: Bytes, i: nat)
    requires Here(c, f, m) && !f.hd.iscompr && i == |Path(c)| < |s| && Path(c) == s[..i]
    requires IndexOf(f.hd.bytes, s[i]) == |f.hd.bytes|
    ensures AfterAll(m, s, Path(c) + [s[i]]) && Before(m, s, Path(c) + [s[i]])
  {
    var p, b := Path(c), s[i];
    assert s == p + [b] + s[i + 1..];
    forall x | x in m
      ensures !(p + [b] <= x) && (Lt(s, x) <==> Lt(p + [b], x)) && (Lt(x, s) <==> Lt(x, p + [b]))
    {
      if p + [b] <= x {
        assert p <= x && x[|p|] == b by { PrefixSplit(p, [b], x); }
        var j := EdgeBelow(c, f, m, x);
        assert false;
      }
      LtElsewhere(p + [b], s[i + 1..], x);
    }
  }

  /** Two strings that part after the common prefix `q`. */
  lemma LtPart(q: Bytes, s: Bytes, x: Bytes)
    requires q <= s && q <= x && |q| < |s| && |q| < |x| && s[|q|] != x[|q|]
    ensures Lt(s, x) <==> s[|q|] < x[|q|]
    ensures Lt(x, s) <==> x[|q|] < s[|q|]
  {
    var tail := s[|q| + 1..];
    assert s == q + [s[|q|]] + tail;
    LtBranches(q, s[|q|], tail, x);
  }

  lemma LtSelfOrExtension(p: Bytes, x: Bytes)
    requires p <= x
    ensures !Lt(x, p) && (Lt(p, x) <==> x != p)
  {
    if x == p {
      LtIrreflexive(p);
    } else {
      LtExtension(p, x);
    }
  }

  /** `x` and `s` part inside `w`, below the common path `p`. */
  lemma PartInside(p: Bytes, w: Bytes, j: nat, s: Bytes, x: Bytes)
    requires p <= s && j < |w| && |p| + j < |s| && w[..j] == s[|p|..|p| + j] && w[j] != s[|p| + j]
    requires p + w <= x
    ensures Lt(s, x) <==> s[|p| + j] < w[j]
    ensures Lt(x, s) <==> w[j] < s[|p| + j]
  {
    var q := p + w[..j];
    assert |q| == |p| + j;
    assert q <= s by {
      assert s[..|q|] == s[..|p|] + s[|p|..|p| + j];
    }
    assert x[|q|] == (p + w)[|q|] == w[j];
    assert q <= x by {
      assert (p + w)[..|q|] == q;
    }
    LtPart(q, s, x);
  }

  /** The string leaves compressed node `f` after `j` of its bytes. */
  lemma SeekInCompressed(c: Ctx, f: Tree, m: map<Bytes, Value>, s: Bytes, j: nat)
    requires Here(c, f, m) && f.hd.iscompr && Path(c) <= s && j < |f.hd.bytes|
    requires |Path(c)| + j < |s| && f.hd.bytes[..j] == s[|Path(c)|..|Path(c)| + j] && f.hd.bytes[j] != s[|Path(c)| + j]
    ensures f.hd.bytes[j] > s[|Path(c)| + j] ==> After(m, s, Path(c)) && Before(m, s, Path(c) + f.hd.bytes)
    ensures f.hd.bytes[j] < s[|Path(c)| + j] ==> UpToAll(m, s, Path(c)) && AfterAll(m, s, Path(c) + f.hd.bytes)
  {
    hide Here, Get, GetKid, Plug, Path, Lt;
    var p, w, b := Path(c), f.hd.bytes, s[|Path(c)| + j];
    assert s == p + s[|p|..];
    forall x | x in m
      ensures w[j] > b ==> (Lt(s, x) <==> Lt(p, x)) && (Lt(x, s) <==> Lt(x, p + w))
      ensures w[j] < b ==> (Lt(x, s) <==> Lt(x, p) || p <= x) && (Lt(s, x) <==> Lt(p + w, x) && !(p + w <= x))
    {
      if p <= x {
        LtSelfOrExtension(p, x);
        if x == p {
          LtExtension(p, s);
          LtExtension(p, p + w);
        } else {
          var k := EdgeBelow(c, f, m, x);
          LtSelfOrExtension(p + w, x);
          PartInside(p, w, j, s, x);
        }
      } else {
        LtElsewhere(p, s[|p|..], x);
        LtElsewhere(p, w, x);
        PrefixSplit(p, w, x);
      }
    }
  }

  /** The string ends inside compressed node `f`, after `j` of its bytes. */
  lemma SeekEndsInside(c: Ctx, f: Tree, m: map<Bytes, Value>, s: Bytes, j: nat)
    requires Here(c, f, m) && f.hd.iscompr && 0 < j < |f.hd.bytes| && s == Path(c) + f.hd.bytes[..j]
    ensures After(m, s, Path(c)) && UpTo(m, s, Path(c)) && s !in m
  {
    hide Here, Get, GetKid, Plug, Path, Lt;
    var p, w := Path(c), f.hd.bytes;
    LtExtension(p, s);
    forall x | x in m
      ensures x != s && (Lt(s, x) <==> Lt(p, x)) && (Lt(x, s) <==> x == p || Lt(x, p))
    {
      if p <= x {
        LtSelfOrExtension(p, x);
        if x != p {
          var k := EdgeBelow(c, f, m, x);
          assert s <= p + w <= x;
          LtSelfOrExtension(s, x);
        }
      } else {
        LtElsewhere(p, w[..j], x);
      }
    }
  }

  /** The string runs past an inline value at a prefix of it. */
  lemma SeekPastLeaf(c: Ctx, v: Value, m: map<Bytes, Value>, s: Bytes)
    requires CtxOk(c) && Means(Plug(c, Leaf(v)), m) && Path(c) <= s && s != Path(c)
    ensures After(m, s, Path(c)) && UpTo(m, s, Path(c)) && s !in m
  {
    var p := Path(c);
    LtExtension(p, s);
    assert s == p + s[|p|..];
    forall x | x in m
      ensures x != s && (Lt(s, x) <==> Lt(p, x)) && (Lt(x, s) <==> x == p || Lt(x, p))
    {
      if p <= x {
        LeafOnly(c, v, m, x);
        LtIrreflexive(p);
      } else {
        LtElsewhere(p, s[|p|..], x);
      }
    }
  }

  // ---------- a string above every key

  lemma {:induction false} AboveOne(x: Bytes, n: nat)
    requires |x| < n
    ensures Lt(x, seq(n, _ => 255))
  {
    var top: Bytes := seq(n, _ => 255);
    if x != [] && x[0] == 255 {
      AboveOne(x[1..], n - 1);
      assert top[1..] == seq(n - 1, _ => 255);
    }
  }

  lemma {:induction false} LongerThanAll(s: set<Bytes>) returns (n: nat)
    ensures forall x :: x in s ==> |x| < n
  {
    if s == {} {
      n := 0;
    } else {
      var x :| x in s;
      n := LongerThanAll(s - {x});
      n := if |x| < n then n else |x| + 1;
      assert s == s - {x} + {x};
    }
  }

  lemma AboveAll(m: map<Bytes, Value>) returns (s: Bytes)
    ensures forall x :: x in m ==> Lt(x, s)
    ensures UpToAll(m, s, [])
  {
    var n := LongerThanAll(m.Keys);
    s := seq(n, _ => 255);
    forall x | x in m ensures Lt(x, s) {
      assert x in m.Keys;
      AboveOne(x, n);
    }
  }

  // ---------- whole runs of an iterator

  /** `x` is the least key above `s`. */
  ghost predicate IsNext(m: map<Bytes, Value>, s: Bytes, x: Bytes) {
    x in m && Lt(s, x) && forall y :: y in m && Lt(s, y) ==> y == x || Lt(x, y)
  }

  /** `x` is the greatest key below `s`. */
  ghost predicate IsPrev(m: map<Bytes, Value>, s: Bytes, x: Bytes) {
    x in m && Lt(x, s) && forall y :: y in m && Lt(y, s) ==> y == x || Lt(y, x)
  }

  /** The keys a run of `Next` reports, from a seeked key to the end. */
  ghost predicate ForwardRun(m: map<Bytes, Value>, ks: seq<Bytes>) {
    && ks != [] && ks[0] in m
    && (forall i :: 0 <= i < |ks| - 1 ==> IsNext(m, ks[i], ks[i + 1]))
    && (forall y :: y in m ==> !Lt(ks[|ks| - 1], y))
  }

  ghost predicate BackwardRun(m: map<Bytes, Value>, ks: seq<Bytes>) {
    && ks != [] && ks[0] in m
    && (forall i :: 0 <= i < |ks| - 1 ==> IsPrev(m, ks[i], ks[i + 1]))
    && (forall y :: y in m ==> !Lt(y, ks[|ks| - 1]))
  }

  lemma {:induction false} ForwardAscends(m: map<Bytes, Value>, ks: seq<Bytes>, i: nat, j: nat)
    requires ForwardRun(m, ks) && i < j < |ks|
    ensures Lt(ks[i], ks[j])
    decreases j
  {
    if i < j - 1 {
      ForwardAscends(m, ks, i, j - 1);
      assert IsNext(m, ks[j - 1], ks[j - 1 + 1]);
      LtTransitive(ks[i], ks[j - 1], ks[j]);
    } else {
      assert IsNext(m, ks[i], ks[i + 1]);
    }
  }

  lemma {:induction false} ForwardReaches(m: map<Bytes, Value>, ks: seq<Bytes>, i: nat, x: Bytes)
    requires ForwardRun(m, ks) && i < |ks| && x in m && (x == ks[i] || Lt(ks[i], x))
    ensures x in ks
    decreases |ks| - i
  {
    if x != ks[i] {
      assert i < |ks| - 1;
      assert IsNext(m, ks[i], ks[i + 1]);
      ForwardReaches(m, ks, i + 1, x);
    }
  }

  /** A forward run reports every key from its first on, each once, ascending. */
  lemma ForwardRunComplete(m: map<Bytes, Value>, ks: seq<Bytes>)
    requires ForwardRun(m, ks)
    ensures forall i, j :: 0 <= i < j < |ks| ==> Lt(ks[i], ks[j]) && ks[i] != ks[j]
    ensures forall x :: x in ks <==> x in m && (x == ks[0] || Lt(ks[0], x))
  {
    forall i, j | 0 <= i < j < |ks| ensures Lt(ks[i], ks[j]) && ks[i] != ks[j] {
      ForwardAscends(m, ks, i, j);
      LtIrreflexive(ks[i]);
    }
    forall x | x in m && (x == ks[0] || Lt(ks[0], x)) ensures x in ks {
      ForwardReaches(m, ks, 0, x);
    }
    forall i | 0 <= i < |ks| ensures ks[i] in m && (ks[i] == ks[0] || Lt(ks[0], ks[i])) {
      if i > 0 {
        assert IsNext(m, ks[i - 1], ks[i - 1 + 1]);
        ForwardAscends(m, ks, 0, i);
      }
    }
  }

  lemma {:induction false} BackwardDescends(m: map<Bytes, Value>, ks: seq<Bytes>, i: nat, j: nat)
    requires BackwardRun(m, ks) && i < j < |ks|
    ensures Lt(ks[j], ks[i])
    decreases j
  {
    if i < j - 1 {
      BackwardDescends(m, ks, i, j - 1);
      assert IsPrev(m, ks[j - 1], ks[j - 1 + 1]);
      LtTransitive(ks[j], ks[j - 1], ks[i]);
    } else {
      assert IsPrev(m, ks[i], ks[i + 1]);
    }
  }

  lemma {:induction false} BackwardReaches(m: map<Bytes, Value>, ks: seq<Bytes>, i: nat, x: Bytes)
    requires BackwardRun(m, ks) && i < |ks| && x in m && (x == ks[i] || Lt(x, ks[i]))
    ensures x in ks
    decreases |ks| - i
  {
    if x != ks[i] {
      assert i < |ks| - 1;
      assert IsPrev(m, ks[i], ks[i + 1]);
      BackwardReaches(m, ks, i + 1, x);
    }
  }

  /** A backward run reports every key up to its first, each once, descending. */
  lemma BackwardRunComplete(m: map<Bytes, Value>, ks: seq<Bytes>)
    requires BackwardRun(m, ks)
    ensures forall i, j :: 0 <= i < j < |ks| ==> Lt(ks[j], ks[i]) && ks[i] != ks[j]
    ensures forall x :: x in ks <==> x in m && (x == ks[0] || Lt(x, ks[0]))
  {
    forall i, j | 0 <= i < j < |ks| ensures Lt(ks[j], ks[i]) && ks[i] != ks[j] {
      BackwardDescends(m, ks, i, j);
      LtIrreflexive(ks[i]);
    }
    forall x | x in m && (x == ks[0] || Lt(x, ks[0])) ensures x in ks {
      BackwardReaches(m, ks, 0, x);
    }
    forall i | 0 <= i < |ks| ensures ks[i] in m && (ks[i] == ks[0] || Lt(ks[i], ks[0])) {
      if i > 0 {
        assert IsPrev(m, ks[i - 1], ks[i - 1 + 1]);
        BackwardDescends(m, ks, 0, i);
      }
    }
  }
}
