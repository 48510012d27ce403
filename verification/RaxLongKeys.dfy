/** A run in which a deletion counts room for fewer bytes than it would copy: the
    merge that follows needs every key to fit one node. */
module RaxLongKeys {
  import opened ByteStrings
  import opened RaxTypes
  import opened RaxTree
  import opened RaxEdits
  import opened RaxRemoval
  import opened RaxShapes
  import Rax

  const A: Byte := 97
  const B: Byte := 98

  /** As many bytes as one compressed node holds. */
  function FullNode(): (r: Bytes)
    ensures |r| == NODE_MAX_SIZE && forall i :: 0 <= i < |r| ==> r[i] == A
  {
    seq(NODE_MAX_SIZE, _ => A)
  }

  /** A key one byte longer than a node, alone in the tree. */
  ghost predicate LongAlone(t: Tree) {
    && t.hd == PlainHeader().(iscompr := true, bytes := FullNode())
    && |t.kids| == 1 && LastByte(t.kids[0])
  }

  /** A node for the last byte of the key, its value in the slot. */
  ghost predicate LastByte(k: Kid) {
    k.Sub? && k.tree.hd == PlainHeader().(bytes := [A]) && |k.tree.kids| == 1 && k.tree.kids[0].Leaf?
  }

  /** The head once a second key has split the first byte off the long one. */
  ghost predicate LongAndShort(t: Tree) {
    && t.hd == PlainHeader().(bytes := [A, B])
    && |t.kids| == 2 && t.kids[1].Leaf? && RestOfLong(t.kids[0])
  }

  ghost predicate RestOfLong(k: Kid) {
    k.Sub? && k.tree.hd == PlainHeader().(iscompr := true, bytes := FullNode()[1..])
    && |k.tree.kids| == 1 && LastByte(k.tree.kids[0])
  }

  lemma BareHead(t: Tree, t': Tree)
    requires Bare(Sub(t)) == Bare(Sub(t'))
    ensures t.hd == t'.hd && BareKids(t.kids) == BareKids(t'.kids) && |t.kids| == |t'.kids|
    ensures forall i :: 0 <= i < |t.kids| ==> Bare(t.kids[i]) == Bare(t'.kids[i])
  {
    hide BareKids;
    forall i | 0 <= i < |t.kids| ensures Bare(t.kids[i]) == Bare(t'.kids[i]) {
      assert BareKids(t.kids)[i] == BareKids(t'.kids)[i];
    }
  }

  lemma LastByteBare(k: Kid, k': Kid)
    requires Bare(k) == Bare(k') && LastByte(k')
    ensures LastByte(k)
  {
    if k.Sub? {
      BareHead(k.tree, k'.tree);
    }
  }

  lemma RestOfLongBare(k: Kid, k': Kid)
    requires Bare(k) == Bare(k') && RestOfLong(k')
    ensures RestOfLong(k)
  {
    hide FullNode, LastByte;
    if k.Sub? {
      BareHead(k.tree, k'.tree);
      LastByteBare(k.tree.kids[0], k'.tree.kids[0]);
    }
  }

  lemma LongAloneBare(t: Tree, t': Tree)
    requires Bare(Sub(t)) == Bare(Sub(t')) && LongAlone(t')
    ensures LongAlone(t)
  {
    hide FullNode, LastByte, Bare;
    BareHead(t, t');
    LastByteBare(t.kids[0], t'.kids[0]);
  }

  lemma LongAndShortBare(t: Tree, t': Tree)
    requires Bare(Sub(t)) == Bare(Sub(t')) && LongAndShort(t')
    ensures LongAndShort(t)
  {
    hide FullNode, RestOfLong;
    BareHead(t, t');
    RestOfLongBare(t.kids[0], t'.kids[0]);
  }

  /** The first insertion fills one node and puts the last byte in another. */
  lemma FirstInsert(t: Tree, v: Value)
    requires Bare(Sub(t)) == Bare(Sub(EmptyTree(0)))
    ensures InsKid(Sub(t), FullNode() + [A], v).Sub? && LongAlone(InsKid(Sub(t), FullNode() + [A], v).tree)
  {
    hide Bare, FullNode;
    BareHead(t, EmptyTree(0));
    var s := FullNode() + [A];
    assert s[..NODE_MAX_SIZE] == FullNode() && s[NODE_MAX_SIZE..] == [A];
    assert IndexOf(t.hd.bytes, s[0]) == 0;
    LastGrow(v);
  }

  lemma LastGrow(v: Value)
    ensures LastByte(Sub(Grow(EmptyTree(0), [A], v)))
  {
    assert PosOf([], A) == 0;
  }

  /** The second insertion splits the head at its first byte. */
  lemma SecondInsert(t: Tree, w: Value)
    requires LongAlone(t)
    ensures InsKid(Sub(t), [B], w).Sub? && LongAndShort(InsKid(Sub(t), [B], w).tree)
  {
    hide FullNode, LastByte, Grow, PosOf;
    CommonIs(t.hd.bytes, [B], 0);
    assert [B][0..] == [B] && FullNode()[0..1] == [A] && FullNode()[0 + 1..] == FullNode()[1..];
    assert t.hd.bytes == FullNode();
    assert SplitNode(t, 0, 0, 0).hd.bytes == [A];
    ShortGrow(SplitNode(t, 0, 0, 0), w);
  }

  lemma ShortGrow(t: Tree, w: Value)
    requires t.hd == PlainHeader().(bytes := [A]) && |t.kids| == 1 && RestOfLong(t.kids[0])
    ensures |t.kids| == |t.hd.bytes| && LongAndShort(Grow(t, [B], w))
  {
    hide FullNode, RestOfLong;
    assert PosOf([A], B) == 1 by {
      assert [A][1..] == [];
    }
  }

  /** A walk for the short key ends at the head, on the value in its slot. */
  lemma {:induction false} WalkStaysAtHead(c: Ctx, f: Tree, t: Tree)
    requires CtxOk(c) && Plug(c, Sub(f)) == Sub(t) && LongAndShort(t) && Path(c) <= [B]
    ensures c == Top && f == t
  {
    hide FullNode, RestOfLong, KidOk;
    if c.In? {
      var i := OuterEdge(c, Sub(f));
      assert false;
    }
  }

  /** A path starts with an edge of the head, to a node. */
  lemma {:induction false} OuterEdge(c: Ctx, k: Kid) returns (i: nat)
    requires CtxOk(c) && c.In? && k.Sub?
    ensures Plug(c, k).Sub? && i < |Plug(c, k).tree.kids| && Plug(c, k).tree.kids[i].Sub?
    ensures Edge(Plug(c, k).tree.hd, i) <= Path(c) && |Edge(Plug(c, k).tree.hd, i)| > 0
    decreases c
  {
    hide KidOk;
    PathIn(c.up, c.f);
    PlugIn(c.up, c.f, k);
    if c.up.Top? {
      i := c.f.idx;
    } else {
      i := OuterEdge(c.up, Sub(Fill(c.f, k)));
    }
  }

  /** Without the short key the head starts a chain of 1 + 65534 + 1 bytes, of
      which the scan counts the first two nodes. */
  lemma OverrunAt(t: Tree)
    requires LongAndShort(t)
    ensures FrameOk(Frame(t.id, t.hd, t.kids, 1))
    ensures var r := DropKid(Frame(t.id, t.hd, t.kids, 1));
            && ShapeOk(r) && Joins(r.hd)
            && CountedNodes(r, |r.hd.bytes|) == 2 && CountedSize(r, |r.hd.bytes|) == NODE_MAX_SIZE
            && |ChainBytes(r)| == NODE_MAX_SIZE + 1
  {
    hide FullNode;
    var p := t.kids[0].tree;
    var q := p.kids[0].tree;
    assert KidOk(q.kids[0], 0);
    assert ShapeOk(q) && KidOk(p.kids[0], 0);
    assert ShapeOk(p) && KidOk(t.kids[0], 0);
    var f := Frame(t.id, t.hd, t.kids, 1);
    var r := DropKid(f);
    assert r.hd.bytes == [A] && r.kids == [t.kids[0]];
    assert ChainBytes(q) == q.hd.bytes;
    assert ChainBytes(p) == p.hd.bytes + ChainBytes(q);
    assert ChainBytes(r) == r.hd.bytes + ChainBytes(p);
    assert CountedSize(p, NODE_MAX_SIZE) == NODE_MAX_SIZE && CountedNodes(p, NODE_MAX_SIZE) == 1;
    DropKidOk(f);
  }

  /** Insert 65536 times `a`, insert `b`, and delete `b` up to the merge. The head
      is left with one byte and no key, so a merge is tried, and it starts there,
      for the head has no parent. On the memory that is there the scan finds a
      chain to merge and counts one byte less than the copy would write. */
  method LongKeyRun(v: Value, w: Value) returns (r: Rax.Rax, nodes: nat, comprsize: nat, ghost t: Tree)
    ensures r.Open(Top, Sub(t)) && Merges(t)
    ensures nodes == 2 && comprsize == NODE_MAX_SIZE && |ChainBytes(t)| == comprsize + 1
  {
    r := new Rax.Rax();
    FirstInsert(r.tree, v);
    ghost var t1 := InsKid(Sub(r.tree), FullNode() + [A], v);
    var i1, p1 := r.Insert(FullNode() + [A], v);
    LongAloneBare(r.tree, t1.tree);
    SecondInsert(r.tree, w);
    ghost var t2 := InsKid(Sub(r.tree), [B], w);
    var i2, p2 := r.Insert([B], w);
    LongAndShortBare(r.tree, t2.tree);
    nodes, comprsize, t := ShortKeyRemoval(r);
  }

  method ShortKeyRemoval(r: Rax.Rax) returns (nodes: nat, comprsize: nat, ghost t: Tree)
    requires r.Valid() && LongAndShort(r.tree)
    modifies r
    ensures r.Open(Top, Sub(t)) && Merges(t)
    ensures nodes == 2 && comprsize == NODE_MAX_SIZE && |ChainBytes(t)| == comprsize + 1
  {
    hide FullNode, RestOfLong, ChainBytes, CountedNodes, CountedSize, Plug, CtxCells, Cells, KidOk, Means, DropKid;
    var i, h, plink, splitpos, ts, inlineLeaf, c, f := r.LowWalk([B]);
    WalkStaysAtHead(c, f, r.tree);
    ShortStops(i, plink, splitpos, inlineLeaf, f);
    OverrunAt(f);
    ghost var fr := Frame(f.id, f.hd, f.kids, 1);
    ghost var v := f.kids[1].value;
    FillSelf(f, 1);
    r.OpenAt(c, f);
    r.OpenKid(c, fr, Leaf(v));
    r.DropInline(h, plink.idx, ts, c, fr, v, r.contents);
    t := DropKid(fr);
    nodes, comprsize := r.CountChain(h, c, t);
  }

  lemma ShortStops(i: nat, plink: Link, splitpos: nat, inlineLeaf: bool, f: Tree)
    requires LongAndShort(f) && Rax.Rax.Stops([B], i, plink, splitpos, inlineLeaf, Top, f)
    ensures inlineLeaf && plink.SlotLink? && plink.node == f.id && plink.idx == 1
  {
    hide FullNode, RestOfLong;
    assert RestOfLong(f.kids[0]) ==> f.kids[0].Sub? by {
      RestIsNode(f.kids[0]);
    }
    assert IndexOf([A, B], B) == 1 by {
      assert [A, B][1..] == [B];
    }
  }

  lemma RestIsNode(k: Kid)
    requires RestOfLong(k)
    ensures k.Sub?
  {
  }
}
