/** The local edits of a deletion: dropping edges, dead branches, and merging
    chains of nodes back into one compressed node. */
module RaxRemoval {
  import opened ByteStrings
  import opened RaxTypes
  import opened RaxTree
  import opened RaxEdits

  // ---------- removing an edge

  /** The header once child `i` is gone. A compressed node becomes a plain one
      without children; whether it is a key does not change. */
  function DropHeader(hd: Header, i: nat): Header
    requires hd.iscompr || i < |hd.bytes|
  {
    if hd.iscompr then
      var bare := hd.(isnull := false, iscompr := false, bytes := []);
      if hd.iskey then bare.SetData(hd.GetData()) else bare
    else
      hd.(bytes := hd.bytes[..i] + hd.bytes[i + 1..])
  }

  ghost function DropKid(f: Frame): Tree
    requires FrameOk(f)
  {
    Tree(f.id, DropHeader(f.hd, f.idx), if f.hd.iscompr then [] else Without(f.kids, f.idx))
  }

  /** The bitmap shifts down over the removed bit. */
  function ShiftDown(bm: seq<bool>, pos: nat): seq<bool>
    requires |bm| == INLINE_SLOTS && pos < INLINE_SLOTS
  {
    bm[..pos] + bm[pos + 1..] + [false]
  }

  lemma BitmapRemove(slots: seq<Slot>, pos: nat)
    requires pos < |slots| && forall i :: INLINE_SLOTS <= i < |slots| ==> !slots[i].Inline?
    ensures var bm := BitmapOf(slots);
            BitmapOf(Without(slots, pos)) == if true in bm && pos < INLINE_SLOTS then ShiftDown(bm, pos) else bm
  {
    var bm, r := BitmapOf(slots), Without(slots, pos);
    forall i | 0 <= i < INLINE_SLOTS
      ensures BitmapOf(r)[i] == (if true in bm && pos < INLINE_SLOTS then ShiftDown(bm, pos) else bm)[i]
    {
      if i < |r| {
        assert r[i] == if i < pos then slots[i] else slots[i + 1];
      }
      if i + 1 < |slots| && i + 1 < INLINE_SLOTS && slots[i + 1].Inline? {
        assert bm[i + 1];
      }
    }
  }

  lemma WithoutSorted(bytes: Bytes, i: nat)
    requires StrictlySorted(bytes) && i < |bytes|
    ensures StrictlySorted(Without(bytes, i))
  {
    var r := Without(bytes, i);
    forall a, b | 0 <= a < b < |r| ensures r[a] < r[b] {
      assert r[a] == bytes[if a < i then a else a + 1];
      assert r[b] == bytes[if b < i then b else b + 1];
    }
  }

  lemma DropKidOk(f: Frame)
    requires FrameOk(f)
    ensures ShapeOk(DropKid(f)) && DropKid(f).id == f.id
    ensures DropKid(f).hd.iskey == f.hd.iskey && !DropKid(f).hd.iscompr
    ensures |DropKid(f).kids| == |f.kids| - 1
  {
    var t := DropKid(f);
    if !f.hd.iscompr {
      WithoutSorted(f.hd.bytes, f.idx);
      forall i | 0 <= i < |t.kids| ensures KidOk(t.kids[i], i) {
        var o := if i < f.idx then i else i + 1;
        assert t.kids[i] == f.kids[o];
        assert KidOk(f.kids[o], o);
      }
    }
  }

  lemma IndexWithout(bytes: Bytes, i: nat, d: Byte)
    requires StrictlySorted(bytes) && i < |bytes|
    ensures var r, o := Without(bytes, i), IndexOf(bytes, d);
            IndexOf(r, d) == if o == i then |r| else if o < i then o else o - 1
  {
    var r, o := Without(bytes, i), IndexOf(bytes, d);
    WithoutSorted(bytes, i);
    forall k | 0 <= k < |r| ensures r[k] == bytes[if k < i then k else k + 1] {
    }
    if o < |bytes| && o != i {
      IndexOfUnique(r, d, if o < i then o else o - 1);
    }
  }

  /** Dropping an edge drops the keys below it and no others. */
  lemma GetDropKid(f: Frame, k: Kid, s: Bytes)
    requires FrameOk(f)
    ensures Get(DropKid(f), s) == if Edge(f.hd, f.idx) <= s then None else Get(Fill(f, k), s)
  {
    hide KidOk;
    if s != [] && !f.hd.iscompr {
      DropOther(f, k, s);
    }
  }

  lemma GetEdge(t: Tree, s: Bytes, i: nat)
    requires !t.hd.iscompr && s != [] && IndexOf(t.hd.bytes, s[0]) == i
    ensures Get(t, s) == if i < |t.kids| then GetKid(t.kids[i], s[1..]) else None
  {
  }

  lemma DropOther(f: Frame, k: Kid, s: Bytes)
    requires FrameOk(f) && !f.hd.iscompr && s != []
    ensures Get(DropKid(f), s) == if Edge(f.hd, f.idx) <= s then None else Get(Fill(f, k), s)
  {
    hide KidOk, Get, GetKid, IndexOf;
    assert [s[0]] <= s;
    var o := IndexOf(f.hd.bytes, s[0]);
    HeaderFacts(f.hd, |f.kids|);
    IndexWithout(f.hd.bytes, f.idx, s[0]);
    GetEdge(Fill(f, k), s, o);
    GetEdge(DropKid(f), s, if o == f.idx then |f.kids| - 1 else if o < f.idx then o else o - 1);
    if o < |f.hd.bytes| && o != f.idx {
      assert DropKid(f).kids[if o < f.idx then o else o - 1] == Fill(f, k).kids[o];
    }
  }

  lemma HeaderFacts(hd: Header, n: nat)
    requires HeaderOk(hd, n) && !hd.iscompr
    ensures StrictlySorted(hd.bytes) && |hd.bytes| == n
  {
  }

  /** `k` holds no key. */
  ghost predicate Dead(k: Kid) {
    forall u :: GetKid(k, u) == None
  }

  lemma EmptyDead(id: Addr)
    ensures Dead(Sub(EmptyTree(id)))
  {
    forall u ensures GetKid(Sub(EmptyTree(id)), u) == None {
      EmptyMeans(id, u);
    }
  }

  /** A node without a key and with one dead child is dead. */
  lemma DeadLine(f: Frame, k: Kid)
    requires FrameOk(f) && !f.hd.iskey && |f.kids| == 1 && Dead(k)
    ensures Dead(Sub(Fill(f, k)))
  {
    forall u ensures GetKid(Sub(Fill(f, k)), u) == None {
      GetFill(f, k, u);
      if u != [] && !(Edge(f.hd, f.idx) <= u) && !f.hd.iscompr {
        assert [u[0]] <= u;
        assert f.hd.bytes == [f.hd.bytes[0]];
      }
    }
  }

  lemma DeadMeaning(c: Ctx, k: Kid, k': Kid, m: map<Bytes, Value>)
    requires CtxOk(c) && Dead(k) && Dead(k') && Means(Plug(c, k), m)
    ensures Means(Plug(c, k'), m)
  {
    forall u ensures GetKid(k', u) == GetKid(k, u) {
    }
    SameMeaning(c, k, k', m);
  }

  /** Dropping an edge with a dead child changes no key. */
  lemma DropDeadMeaning(c: Ctx, f: Frame, k: Kid, m: map<Bytes, Value>)
    requires CtxOk(In(c, f)) && Dead(k) && Means(Plug(In(c, f), k), m)
    ensures Means(Plug(c, Sub(DropKid(f))), m)
  {
    forall u ensures GetKid(Sub(DropKid(f)), u) == GetKid(Sub(Fill(f, k)), u) {
      GetDropKid(f, k, u);
      GetFill(f, k, u);
    }
    SameMeaning(c, Sub(Fill(f, k)), Sub(DropKid(f)), m);
  }

  /** Dropping an inline value removes its key. */
  lemma DropLeafMeaning(c: Ctx, f: Frame, v: Value, m: map<Bytes, Value>)
    requires CtxOk(In(c, f)) && Means(Plug(In(c, f), Leaf(v)), m)
    ensures Means(Plug(c, Sub(DropKid(f))), m - {Path(In(c, f))})
  {
    hide DropKid, Get, Means, KidOk;
    var key, e := Path(In(c, f)), Edge(f.hd, f.idx);
    PathIn(c, f);
    assert key[|Path(c)|..] == e;
    forall u ensures GetKid(Sub(DropKid(f)), u) ==
                     if u == key[|Path(c)|..] then None else GetKid(Sub(Fill(f, Leaf(v))), u) {
      GetDropKid(f, Leaf(v), u);
      GetFill(f, Leaf(v), u);
      if e <= u {
        assert u == e + u[|e|..];
      }
    }
    RemoveMeaning(c, Sub(Fill(f, Leaf(v))), Sub(DropKid(f)), m, key);
  }

  /** Node `t`, no longer a key. */
  ghost function WithoutKey(t: Tree): Tree {
    t.(hd := t.hd.(iskey := false))
  }

  lemma WithoutKeyMeaning(c: Ctx, f: Tree, m: map<Bytes, Value>)
    requires CtxOk(c) && Means(Plug(c, Sub(f)), m)
    ensures Means(Plug(c, Sub(WithoutKey(f))), m - {Path(c)})
  {
    var key := Path(c);
    assert key[|key|..] == [];
    forall u ensures GetKid(Sub(WithoutKey(f)), u) == if u == [] then None else GetKid(Sub(f), u) {
    }
    RemoveMeaning(c, Sub(f), Sub(WithoutKey(f)), m, key);
  }

  // ---------- merging a chain of nodes

  /** A node that can join its parent in one compressed node. */
  predicate Joins(hd: Header) {
    !hd.iskey && (hd.iscompr || |hd.bytes| == 1)
  }

  ghost predicate ChainsTo(t: Tree) {
    t.kids != [] && t.kids[0].Sub? && Joins(t.kids[0].tree.hd)
  }

  /** The bytes along the chain of joinable nodes that starts at `t`. */
  ghost function ChainBytes(t: Tree): Bytes
    decreases t
  {
    t.hd.bytes + if ChainsTo(t) then ChainBytes(t.kids[0].tree) else []
  }

  /** What hangs below the chain. */
  ghost function ChainEnd(t: Tree): Kid
    requires t.kids != []
    decreases t
  {
    if ChainsTo(t) && t.kids[0].tree.kids != [] then ChainEnd(t.kids[0].tree) else t.kids[0]
  }

  lemma JoinsSingle(t: Tree)
    requires ShapeOk(t) && Joins(t.hd)
    ensures SingleKid(t) && KidOk(t.kids[0], 0)
  {
  }

  /** The chain means what its merged node means. */
  lemma {:induction false} GetChain(t: Tree, s: Bytes)
    requires ShapeOk(t) && SingleKid(t) && s != []
    ensures Get(t, s) == if ChainBytes(t) <= s then GetKid(ChainEnd(t), s[|ChainBytes(t)|..]) else None
    decreases t
  {
    GetLine(t, s);
    if ChainsTo(t) {
      var t1 := t.kids[0].tree;
      assert KidOk(t.kids[0], 0);
      JoinsSingle(t1);
      PrefixSplit(t.hd.bytes, ChainBytes(t1), s);
      if t.hd.bytes <= s && s[|t.hd.bytes|..] != [] {
        GetChain(t1, s[|t.hd.bytes|..]);
      }
    } else {
      assert ChainBytes(t) == t.hd.bytes;
    }
  }

  lemma {:induction false} ChainOk(t: Tree)
    requires ShapeOk(t) && SingleKid(t)
    ensures KidOk(ChainEnd(t), 0) && |ChainBytes(t)| >= |t.hd.bytes|
    ensures ChainsTo(t) ==> |ChainBytes(t)| > |t.hd.bytes|
    decreases t
  {
    assert KidOk(t.kids[0], 0);
    if ChainsTo(t) {
      JoinsSingle(t.kids[0].tree);
      ChainOk(t.kids[0].tree);
    }
  }

  /** Every live child holds a key. */
  lemma {:induction false} SomeKey(k: Kid, i: nat) returns (u: Bytes)
    requires KidOk(k, i)
    ensures GetKid(k, u).Some?
    decreases k
  {
    match k
    case Leaf(_) => u := [];
    case Sub(t) =>
      if t.hd.iskey {
        u := [];
      } else {
        var u1 := SomeKey(t.kids[0], 0);
        FillSelf(t, 0);
        var fr := Frame(t.id, t.hd, t.kids, 0);
        u := Edge(t.hd, 0) + u1;
        GetFill(fr, t.kids[0], u);
        assert u[|Edge(t.hd, 0)|..] == u1;
      }
  }

  /** A chain is no longer than the longest key. */
  lemma ChainFits(c: Ctx, t: Tree, m: map<Bytes, Value>)
    requires CtxOk(c) && ShapeOk(t) && SingleKid(t) && Means(Plug(c, Sub(t)), m)
    requires forall key :: key in m ==> |key| <= NODE_MAX_SIZE
    ensures |ChainBytes(t)| <= NODE_MAX_SIZE
  {
    hide KidOk, ChainBytes, ChainEnd, Get;
    ChainOk(t);
    var u := SomeKey(ChainEnd(t), 0);
    var s := ChainBytes(t) + u;
    assert s[|ChainBytes(t)|..] == u;
    GetChain(t, s);
    var key := Path(c) + s;
    GetPlug(c, Sub(t), Sub(t), key);
    assert key[|Path(c)|..] == s;
    assert Lookup(m, key).Some?;
  }

  lemma MergeMeaning(c: Ctx, t: Tree, id: Addr, m: map<Bytes, Value>)
    requires CtxOk(c) && ShapeOk(t) && SingleKid(t) && !t.hd.iskey && Means(Plug(c, Sub(t)), m)
    requires |ChainBytes(t)| <= NODE_MAX_SIZE
    ensures Means(Plug(c, Sub(Line(id, PlainHeader(), ChainBytes(t), ChainEnd(t)))), m)
    ensures ShapeOk(Line(id, PlainHeader(), ChainBytes(t), ChainEnd(t)))
  {
    var t' := Line(id, PlainHeader(), ChainBytes(t), ChainEnd(t));
    ChainOk(t);
    LineOk(id, PlainHeader(), ChainBytes(t), ChainEnd(t));
    forall u ensures GetKid(Sub(t'), u) == GetKid(Sub(t), u) {
      if u != [] {
        GetChain(t, u);
        GetLine(t', u);
      }
    }
    SameMeaning(c, Sub(t), Sub(t'), m);
  }

  // ---------- the size limit of a merged node

  /** The size the counting scan allocates: it stops at the node that would make
      the total exceed the largest node. */
  ghost function CountedSize(t: Tree, sofar: nat): nat
    decreases t
  {
    if ChainsTo(t) && sofar + |t.kids[0].tree.hd.bytes| <= NODE_MAX_SIZE then
      CountedSize(t.kids[0].tree, sofar + |t.kids[0].tree.hd.bytes|)
    else
      sofar
  }

  /** The nodes the counting scan passes before it stops. */
  ghost function CountedNodes(t: Tree, sofar: nat): (n: nat)
    ensures n >= 1
    decreases t
  {
    if ChainsTo(t) && sofar + |t.kids[0].tree.hd.bytes| <= NODE_MAX_SIZE then
      1 + CountedNodes(t.kids[0].tree, sofar + |t.kids[0].tree.hd.bytes|)
    else
      1
  }

  /** The scan counts a second node, so the chain is copied into a new one. */
  ghost predicate Merges(t: Tree) {
    CountedNodes(t, |t.hd.bytes|) > 1
  }

  lemma {:induction false} CountedSizeBound(t: Tree, sofar: nat)
    requires sofar <= NODE_MAX_SIZE
    ensures sofar <= CountedSize(t, sofar) <= NODE_MAX_SIZE
    decreases t
  {
    if ChainsTo(t) && sofar + |t.kids[0].tree.hd.bytes| <= NODE_MAX_SIZE {
      CountedSizeBound(t.kids[0].tree, sofar + |t.kids[0].tree.hd.bytes|);
    }
  }

  lemma {:induction false} CountedExactly(t: Tree, sofar: nat)
    requires |t.hd.bytes| <= sofar && sofar + |ChainBytes(t)| - |t.hd.bytes| <= NODE_MAX_SIZE
    ensures CountedSize(t, sofar) == sofar + |ChainBytes(t)| - |t.hd.bytes|
    decreases t
  {
    if ChainsTo(t) {
      CountedExactly(t.kids[0].tree, sofar + |t.kids[0].tree.hd.bytes|);
    }
  }

  /** The copying scan has no such stop: once there is a merge it copies the
      whole chain. It needs more room than was counted exactly when the first two
      nodes fit one node but the chain does not. */
  lemma CopyOverrunsIff(t: Tree)
    requires ShapeOk(t)
    ensures Merges(t) && |ChainBytes(t)| > CountedSize(t, |t.hd.bytes|) <==>
            && ChainsTo(t) && |t.hd.bytes| + |t.kids[0].tree.hd.bytes| <= NODE_MAX_SIZE
            && |ChainBytes(t)| > NODE_MAX_SIZE
  {
    CountedSizeBound(t, |t.hd.bytes|);
    if |ChainBytes(t)| <= NODE_MAX_SIZE {
      CountedExactly(t, |t.hd.bytes|);
    }
  }

  /** A chain that fits one node is counted in full, and merged if it is a chain. */
  lemma FittingChain(t: Tree)
    requires ShapeOk(t) && SingleKid(t) && |ChainBytes(t)| <= NODE_MAX_SIZE
    ensures CountedSize(t, |t.hd.bytes|) == |ChainBytes(t)|
    ensures Merges(t) <==> ChainsTo(t)
  {
    CountedExactly(t, |t.hd.bytes|);
    if ChainsTo(t) {
      assert KidOk(t.kids[0], 0);
      JoinsSingle(t.kids[0].tree);
      ChainOk(t.kids[0].tree);
    }
  }
}
