/** The tree that an insertion leaves, as a recursion from the head down. The
    walk of Rax.dfy edits nodes in place and moves some of them; whatever their
    addresses, it ends with this tree. */
module RaxShapes {
  import opened ByteStrings
  import opened RaxTypes
  import opened RaxTree
  import opened RaxEdits
  import opened RaxRemoval

  // ---------- trees up to the addresses of their nodes

  ghost function Bare(k: Kid): Kid
    decreases k, 1
  {
    match k
    case Leaf(v) => Leaf(v)
    case Sub(t) => Sub(Tree(0, t.hd, BareKids(t.kids)))
  }

  ghost function BareKids(ks: seq<Kid>): (r: seq<Kid>)
    ensures |r| == |ks|
    ensures forall i :: 0 <= i < |ks| ==> r[i] == Bare(ks[i])
    decreases ks, 2
  {
    seq(|ks|, i requires 0 <= i < |ks| => Bare(ks[i]))
  }

  lemma BareSame(t: Tree, t': Tree)
    requires t.hd == t'.hd && BareKids(t.kids) == BareKids(t'.kids)
    ensures Bare(Sub(t)) == Bare(Sub(t'))
  {
  }

  lemma BareFill(f: Frame, k: Kid, k': Kid)
    requires f.idx < |f.kids| && Bare(k) == Bare(k')
    ensures Bare(Sub(Fill(f, k))) == Bare(Sub(Fill(f, k')))
  {
    hide Bare;
    assert BareKids(f.kids[f.idx := k]) == BareKids(f.kids[f.idx := k']);
    BareSame(Fill(f, k), Fill(f, k'));
  }

  lemma {:induction false} BarePlug(c: Ctx, k: Kid, k': Kid)
    requires CtxOk(c) && Bare(k) == Bare(k')
    ensures Bare(Plug(c, k)) == Bare(Plug(c, k'))
    decreases c
  {
    hide Bare, Fill;
    match c
    case Top =>
    case In(up, f) =>
      PlugIn(up, f, k);
      PlugIn(up, f, k');
      BareFill(f, k, k');
      BarePlug(up, Sub(Fill(f, k)), Sub(Fill(f, k')));
  }

  lemma MovedBare(c: Ctx, t: Tree, id: Addr)
    requires CtxOk(c)
    ensures Bare(Plug(c, Sub(t))) == Bare(Plug(c, Sub(t.(id := id))))
  {
    hide Bare, Plug;
    BareSame(t, t.(id := id));
    BarePlug(c, Sub(t), Sub(t.(id := id)));
  }

  lemma BareLine(id: Addr, id': Addr, hd: Header, bytes: Bytes, k: Kid, k': Kid)
    requires Bare(k) == Bare(k')
    ensures Bare(Sub(Line(id, hd, bytes, k))) == Bare(Sub(Line(id', hd, bytes, k')))
  {
    hide Bare;
    assert BareKids([k]) == BareKids([k']);
    BareSame(Line(id, hd, bytes, k), Line(id', hd, bytes, k'));
  }

  // ---------- insertion, from the head down

  /** How many leading bytes `a` and `b` share. */
  ghost function Common(a: Bytes, b: Bytes): (n: nat)
    ensures n <= |a| && n <= |b|
  {
    if a == [] || b == [] || a[0] != b[0] then 0 else 1 + Common(a[1..], b[1..])
  }

  /** Where edge `c` goes among the edges `bytes`. */
  ghost function PosOf(bytes: Bytes, c: Byte): (pos: nat)
    ensures pos <= |bytes|
  {
    if bytes == [] || bytes[0] > c then 0 else 1 + PosOf(bytes[1..], c)
  }

  ghost function InsKid(k: Kid, s: Bytes, v: Value): Kid
    decreases k, 1
  {
    match k
    case Leaf(w) => if s == [] then Leaf(v) else Sub(Grow(ValueTree(0, w), s, v))
    case Sub(t) => Sub(Ins(t, s, v))
  }

  /** Insert key `s` below `t`: follow its edges, split a compressed node that
      disagrees with it or is longer, and grow what is missing. */
  ghost function Ins(t: Tree, s: Bytes, v: Value): Tree
    decreases t, 0
  {
    if s == [] then
      WithData(t, v)
    else if !HeaderOk(t.hd, |t.kids|) then
      t
    else if t.hd.iscompr then
      var j := Common(t.hd.bytes, s);
      if j == |t.hd.bytes| then
        t.(kids := t.kids[0 := InsKid(t.kids[0], s[j..], v)])
      else
        SplitFor(t, j, s[j..], v)
    else
      var i := IndexOf(t.hd.bytes, s[0]);
      if i < |t.kids| then t.(kids := t.kids[i := InsKid(t.kids[i], s[1..], v)]) else Grow(t, s, v)
  }

  /** Split `t` at byte `j` for a key of which `u` is left. */
  ghost function SplitFor(t: Tree, j: nat, u: Bytes, v: Value): Tree
    requires j < |t.hd.bytes| && t.kids != []
  {
    if u == [] then
      SplitAtKey(t, j, 0, 0, v)
    else
      var g := Grow(SplitNode(t, j, 0, 0), u, v);
      if j == 0 then g else Line(0, t.hd, t.hd.bytes[..j], Sub(g))
  }

  /** `t` lacks the first byte of `s`: add the edges that are missing. A node
      without children takes as much of the key as one compressed node holds. */
  ghost function Grow(t: Tree, s: Bytes, v: Value): Tree
    requires |t.kids| == |t.hd.bytes|
    decreases |s|
  {
    if s == [] then
      WithData(t, v)
    else if t.kids == [] && |s| > 1 then
      if |s| <= NODE_MAX_SIZE then Line(0, t.hd, s, Leaf(v))
      else Line(0, t.hd, s[..NODE_MAX_SIZE], Sub(Grow(EmptyTree(0), s[NODE_MAX_SIZE..], v)))
    else
      var pos := PosOf(t.hd.bytes, s[0]);
      Fill(AddEdge(t, 0, s[0], pos, 0),
           if |s| == 1 && pos < INLINE_SLOTS then Leaf(v) else Sub(Grow(EmptyTree(0), s[1..], v)))
  }

  // ---------- the recursion and the walk agree

  lemma {:induction false} CommonIs(a: Bytes, b: Bytes, j: nat)
    requires j <= |a| && j <= |b| && a[..j] == b[..j]
    requires j < |a| && j < |b| ==> a[j] != b[j]
    ensures Common(a, b) == j
    decreases j
  {
    if j > 0 {
      assert a[0] == a[..j][0] && b[0] == b[..j][0];
      assert a[1..][..j - 1] == a[..j][1..] && b[1..][..j - 1] == b[..j][1..];
      CommonIs(a[1..], b[1..], j - 1);
    }
  }

  lemma {:induction false} PosIs(bytes: Bytes, c: Byte, pos: nat)
    requires IsPos(bytes, c, pos)
    ensures PosOf(bytes, c) == pos
    decreases pos
  {
    if pos > 0 {
      assert bytes[0] <= c;
      PosIs(bytes[1..], c, pos - 1);
    }
  }

  /** Inserting below an edge of a node inserts into that child alone. */
  lemma InsFill(f: Frame, k: Kid, u: Bytes, v: Value)
    requires FrameOk(f) && Edge(f.hd, f.idx) <= u
    ensures InsKid(Sub(Fill(f, k)), u, v) == Sub(Fill(f, InsKid(k, u[|Edge(f.hd, f.idx)|..], v)))
  {
    hide KidOk, Grow, SplitFor;
    var t, b := Fill(f, k), InsKid(k, u[|Edge(f.hd, f.idx)|..], v);
    assert u != [];
    if f.hd.iscompr {
      CommonIs(f.hd.bytes, u, |f.hd.bytes|);
    } else {
      assert u[0] == f.hd.bytes[f.idx];
      IndexOfUnique(f.hd.bytes, u[0], f.idx);
    }
    assert t.kids[f.idx := b] == f.kids[f.idx := b];
  }

  lemma FrameFits(f: Frame)
    requires FrameOk(f)
    ensures f.idx < |f.kids|
  {
  }

  /** So the edit can be made where the walk stops. */
  lemma {:induction false} InsPlug(c: Ctx, k: Kid, s: Bytes, v: Value)
    requires CtxOk(c) && Path(c) <= s
    ensures InsKid(Plug(c, k), s, v) == Plug(c, InsKid(k, s[|Path(c)|..], v))
    decreases c
  {
    hide InsKid, FrameOk, Fill;
    match c
    case Top =>
    case In(up, f) =>
      var e := Edge(f.hd, f.idx);
      PathIn(up, f);
      PrefixSplit(Path(up), e, s);
      PlugIn(up, f, k);
      PlugIn(up, f, InsKid(k, s[|Path(c)|..], v));
      FrameFits(f);
      InsPlug(up, Sub(Fill(f, k)), s, v);
      InsFill(f, k, s[|Path(up)|..], v);
  }

  lemma InsAtEnd(t: Tree, v: Value)
    ensures InsKid(Sub(t), [], v) == Sub(WithData(t, v))
  {
  }

  lemma InsMissing(t: Tree, u: Bytes, v: Value)
    requires ShapeOk(t) && !t.hd.iscompr && u != [] && IndexOf(t.hd.bytes, u[0]) == |t.hd.bytes|
    ensures |t.kids| == |t.hd.bytes| && InsKid(Sub(t), u, v) == Sub(Grow(t, u, v))
  {
    hide KidOk, Grow;
  }

  lemma InsSplit(t: Tree, j: nat, u: Bytes, v: Value)
    requires ShapeOk(t) && t.hd.iscompr && j < |t.hd.bytes| && j <= |u| && u != []
    requires t.hd.bytes[..j] == u[..j] && (j < |u| ==> t.hd.bytes[j] != u[j])
    ensures t.kids != [] && InsKid(Sub(t), u, v) == Sub(SplitFor(t, j, u[j..], v))
  {
    hide KidOk, Grow, SplitFor;
    CommonIs(t.hd.bytes, u, j);
  }

  // ---------- addresses do not matter to the growth

  lemma GrowCompressedBare(t: Tree, id: Addr, u: Bytes, v: Value)
    requires t.kids == [] && t.hd.bytes == [] && 1 < |u| <= NODE_MAX_SIZE
    ensures Bare(Sub(Fill(LineFrame(id, t.hd, u), Leaf(v)))) == Bare(Sub(Grow(t, u, v)))
  {
    hide Bare;
    FillLine(id, t.hd, u, Leaf(v));
    BareLine(id, 0, t.hd, u, Leaf(v), Leaf(v));
  }

  lemma GrowLongBare(t: Tree, id: Addr, child: Addr, u: Bytes, v: Value)
    requires t.kids == [] && t.hd.bytes == [] && |u| > NODE_MAX_SIZE
    ensures Bare(Sub(Fill(LineFrame(id, t.hd, u[..NODE_MAX_SIZE]), Sub(Grow(EmptyTree(child), u[NODE_MAX_SIZE..], v)))))
            == Bare(Sub(Grow(t, u, v)))
  {
    hide Bare;
    var rest := u[NODE_MAX_SIZE..];
    GrowMoved(EmptyTree(child), 0, rest, v);
    var g, g' := Sub(Grow(EmptyTree(child), rest, v)), Sub(Grow(EmptyTree(0), rest, v));
    FillLine(id, t.hd, u[..NODE_MAX_SIZE], g);
    BareLine(id, 0, t.hd, u[..NODE_MAX_SIZE], g, g');
  }

  /** Where the growth starts, the node is moved anyway. */
  lemma GrowMoved(t: Tree, id: Addr, s: Bytes, v: Value)
    requires |t.kids| == |t.hd.bytes|
    ensures Bare(Sub(Grow(t, s, v))) == Bare(Sub(Grow(t.(id := id), s, v)))
  {
    hide Bare;
    if s == [] {
      BareSame(WithData(t, v), WithData(t.(id := id), v));
    } else if t.kids == [] && |s| > 1 {
    } else {
      AddEdgeMoved(t, id, s[0], PosOf(t.hd.bytes, s[0]));
    }
  }

  lemma AddEdgeMoved(t: Tree, id: Addr, c: Byte, pos: nat)
    requires pos <= |t.hd.bytes| && pos <= |t.kids|
    ensures AddEdge(t.(id := id), 0, c, pos, 0) == AddEdge(t, 0, c, pos, 0)
  {
  }

  lemma SpillBare(t: Tree, pos: nat, spill: Addr)
    ensures BareKids(Spilled(t, pos, spill)) == BareKids(Spilled(t, pos, 0))
  {
    hide Bare;
    var a, b := Spilled(t, pos, spill), Spilled(t, pos, 0);
    if Spills(t, pos) {
      BareSame(ValueTree(spill, t.kids[12].value), ValueTree(0, t.kids[12].value));
    }
    forall i | 0 <= i < |a| ensures Bare(a[i]) == Bare(b[i]) {
    }
    assert BareKids(a) == BareKids(b);
  }

  lemma AddEdgeBare(t: Tree, id: Addr, c: Byte, pos: nat, spill: Addr, k: Kid, k': Kid)
    requires pos <= |t.hd.bytes| && pos <= |t.kids| && Bare(k) == Bare(k')
    ensures Bare(Sub(Fill(AddEdge(t, id, c, pos, spill), k))) == Bare(Sub(Fill(AddEdge(t, 0, c, pos, 0), k')))
  {
    hide Bare, Spilled;
    SpilledSize(t, pos, spill);
    SpilledSize(t, pos, 0);
    SpillBare(t, pos, spill);
    var f, g := Fill(AddEdge(t, id, c, pos, spill), k), Fill(AddEdge(t, 0, c, pos, 0), k');
    var ks, ks' := Spilled(t, pos, spill), Spilled(t, pos, 0);
    forall i | 0 <= i < |f.kids| ensures Bare(f.kids[i]) == Bare(g.kids[i]) {
      if i != pos {
        var o := if i < pos then i else i - 1;
        assert f.kids[i] == ks[o] && g.kids[i] == ks'[o];
        assert BareKids(ks)[o] == BareKids(ks')[o];
      }
    }
    assert BareKids(f.kids) == BareKids(g.kids);
    BareSame(f, g);
  }

  /** One step of the growth: an edge whose slot takes the value or a new node. */
  lemma GrowEdgeBare(t: Tree, id: Addr, pos: nat, spill: Addr, child: Addr, u: Bytes, v: Value)
    requires |t.kids| == |t.hd.bytes| && u != [] && !(t.kids == [] && |u| > 1) && IsPos(t.hd.bytes, u[0], pos)
    ensures var k := if |u| == 1 && pos < INLINE_SLOTS then Leaf(v) else Sub(Grow(EmptyTree(child), u[1..], v));
            Bare(Sub(Fill(AddEdge(t, id, u[0], pos, spill), k))) == Bare(Sub(Grow(t, u, v)))
  {
    hide Bare, AddEdge;
    PosIs(t.hd.bytes, u[0], pos);
    GrowMoved(EmptyTree(child), 0, u[1..], v);
    var k := if |u| == 1 && pos < INLINE_SLOTS then Leaf(v) else Sub(Grow(EmptyTree(child), u[1..], v));
    var k' := if |u| == 1 && pos < INLINE_SLOTS then Leaf(v) else Sub(Grow(EmptyTree(0), u[1..], v));
    AddEdgeBare(t, id, u[0], pos, spill, k, k');
  }

  lemma SplitNodeBare(t: Tree, j: nat, id: Addr, postfix: Addr, u: Bytes, v: Value)
    requires j < |t.hd.bytes| && t.kids != []
    ensures Bare(Sub(Grow(SplitNode(t, j, id, postfix), u, v))) == Bare(Sub(Grow(SplitNode(t, j, 0, 0), u, v)))
  {
  }

  lemma SplitAtKeyBare(t: Tree, j: nat, trimmed: Addr, postfix: Addr, v: Value)
    requires j < |t.hd.bytes| && t.kids != []
    ensures Bare(Sub(SplitAtKey(t, j, trimmed, postfix, v))) == Bare(Sub(SplitAtKey(t, j, 0, 0, v)))
  {
    hide Bare;
    var hd, rest := PlainHeader().SetData(v), t.hd.bytes[j..];
    BareLine(postfix, 0, hd, rest, t.kids[0], t.kids[0]);
    BareLine(trimmed, 0, KeyOnly(t.hd), t.hd.bytes[..j],
             Sub(Line(postfix, hd, rest, t.kids[0])), Sub(Line(0, hd, rest, t.kids[0])));
  }

  // ---------- a tree that is still growing

  /** The tree when `f`, below `c`, has been grown by the rest `u` of the key. */
  ghost function GrownTo(c: Ctx, f: Tree, u: Bytes, v: Value): Kid
    requires CtxOk(c) && |f.kids| == |f.hd.bytes|
  {
    Bare(Plug(c, Sub(Grow(f, u, v))))
  }

  ghost predicate GrowsAlike(c: Ctx, f: Tree, u: Bytes, c': Ctx, f': Tree, u': Bytes, v: Value) {
    && CtxOk(c) && |f.kids| == |f.hd.bytes| && CtxOk(c') && |f'.kids| == |f'.hd.bytes|
    && GrownTo(c, f, u, v) == GrownTo(c', f', u', v)
  }

  lemma GrownEnd(c: Ctx, f: Tree, u: Bytes, v: Value)
    requires CtxOk(c) && |f.kids| == |f.hd.bytes| && u == []
    ensures GrownTo(c, f, u, v) == Bare(Plug(c, Sub(WithData(f, v))))
  {
  }

  lemma GrownLine(c: Ctx, f: Tree, id: Addr, u: Bytes, v: Value)
    requires CtxOk(In(c, LineFrame(id, f.hd, u))) && f.hd.bytes == [] && f.kids == []
    requires 1 < |u| <= NODE_MAX_SIZE
    ensures CtxOk(c) && Bare(Plug(In(c, LineFrame(id, f.hd, u)), Leaf(v))) == GrownTo(c, f, u, v)
  {
    hide Bare, KidOk, Fill, LineFrame, Grow;
    var fr := LineFrame(id, f.hd, u);
    PlugIn(c, fr, Leaf(v));
    GrowCompressedBare(f, id, u, v);
    BarePlug(c, Sub(Fill(fr, Leaf(v))), Sub(Grow(f, u, v)));
  }

  lemma GrownInline(c: Ctx, f: Tree, id: Addr, pos: nat, spill: Addr, u: Bytes, v: Value)
    requires |f.kids| == |f.hd.bytes| && |u| == 1 && IsPos(f.hd.bytes, u[0], pos) && pos < INLINE_SLOTS
    requires CtxOk(In(c, AddEdge(f, id, u[0], pos, spill)))
    ensures CtxOk(c) && Bare(Plug(In(c, AddEdge(f, id, u[0], pos, spill)), Leaf(v))) == GrownTo(c, f, u, v)
  {
    hide Bare, KidOk, Fill, AddEdge, Grow;
    var fr := AddEdge(f, id, u[0], pos, spill);
    PlugIn(c, fr, Leaf(v));
    GrowEdgeBare(f, id, pos, spill, 0, u, v);
    BarePlug(c, Sub(Fill(fr, Leaf(v))), Sub(Grow(f, u, v)));
  }

  /** The growth goes on below the new node of a full compressed edge. */
  lemma GrownBelowLine(c: Ctx, f: Tree, id: Addr, child: Addr, s: Bytes, i: nat, v: Value)
    requires i + NODE_MAX_SIZE < |s| && f.hd.bytes == [] && f.kids == []
    requires CtxOk(In(c, LineFrame(id, f.hd, s[i..i + NODE_MAX_SIZE])))
    ensures var k := i + NODE_MAX_SIZE;
            GrowsAlike(In(c, LineFrame(id, f.hd, s[i..k])), EmptyTree(child), s[k..], c, f, s[i..], v)
  {
    hide Bare, KidOk, Fill, LineFrame, Grow;
    var u, n := s[i..], i + NODE_MAX_SIZE;
    assert u[..NODE_MAX_SIZE] == s[i..n] && u[NODE_MAX_SIZE..] == s[n..];
    var fr, k := LineFrame(id, f.hd, s[i..n]), Sub(Grow(EmptyTree(child), s[n..], v));
    PlugIn(c, fr, k);
    GrowLongBare(f, id, child, u, v);
    BarePlug(c, Sub(Fill(fr, k)), Sub(Grow(f, u, v)));
  }

  /** And below the new node of a single edge. */
  lemma GrownBelowEdge(c: Ctx, f: Tree, id: Addr, pos: nat, spill: Addr, child: Addr, s: Bytes, i: nat, v: Value)
    requires i < |s| && |f.kids| == |f.hd.bytes| && !(f.kids == [] && |s| - i > 1)
    requires IsPos(f.hd.bytes, s[i], pos) && !(|s| - i == 1 && pos < INLINE_SLOTS)
    requires CtxOk(In(c, AddEdge(f, id, s[i], pos, spill)))
    ensures GrowsAlike(In(c, AddEdge(f, id, s[i], pos, spill)), EmptyTree(child), s[i + 1..], c, f, s[i..], v)
  {
    hide Bare, KidOk, Fill, AddEdge, Grow;
    var u := s[i..];
    assert u[0] == s[i] && u[1..] == s[i + 1..];
    var fr, k := AddEdge(f, id, s[i], pos, spill), Sub(Grow(EmptyTree(child), s[i + 1..], v));
    PlugIn(c, fr, k);
    GrowEdgeBare(f, id, pos, spill, child, u, v);
    BarePlug(c, Sub(Fill(fr, k)), Sub(Grow(f, u, v)));
  }

  // ---------- the insertion, case by case, where the walk stops

  /** The tree once the rest `u` of the key has been inserted at `k` below `c`. */
  ghost function InsertedAt(c: Ctx, k: Kid, u: Bytes, v: Value): Kid
    requires CtxOk(c)
  {
    Bare(Plug(c, InsKid(k, u, v)))
  }

  /** Inserting from the head is inserting where the walk stops. */
  lemma InsertedHere(c: Ctx, k: Kid, s: Bytes, v: Value)
    requires CtxOk(c) && Path(c) <= s
    ensures Bare(InsKid(Plug(c, k), s, v)) == InsertedAt(c, k, s[|Path(c)|..], v)
  {
    hide Bare, InsKid, Plug;
    InsPlug(c, k, s, v);
  }

  lemma InsertedEnd(c: Ctx, t: Tree, v: Value)
    requires CtxOk(c)
    ensures InsertedAt(c, Sub(t), [], v) == Bare(Plug(c, Sub(WithData(t, v))))
  {
    hide Bare, Plug;
    InsAtEnd(t, v);
  }

  /** Overwriting a value held in a slot. */
  lemma InsertedOver(c: Ctx, f: Frame, w: Value, u: Bytes, v: Value)
    requires CtxOk(In(c, f)) && u == Edge(f.hd, f.idx)
    ensures CtxOk(c) && Bare(Plug(In(c, f), Leaf(v))) == InsertedAt(c, Sub(Fill(f, Leaf(w))), u, v)
  {
    hide Bare, Plug, Fill, KidOk;
    PlugIn(c, f, Leaf(v));
    InsFill(f, Leaf(w), u, v);
  }

  /** Growing below a value that has moved to a node of its own. */
  lemma InsertedBelow(c: Ctx, f: Frame, w: Value, leaf: Addr, u: Bytes, rest: Bytes, v: Value)
    requires CtxOk(In(c, f)) && u == Edge(f.hd, f.idx) + rest && rest != []
    ensures CtxOk(c) && GrownTo(In(c, f), ValueTree(leaf, w), rest, v) == InsertedAt(c, Sub(Fill(f, Leaf(w))), u, v)
  {
    hide Bare, Plug, Fill, KidOk, Grow;
    var k, k' := Sub(Grow(ValueTree(leaf, w), rest, v)), Sub(Grow(ValueTree(0, w), rest, v));
    PlugIn(c, f, k');
    assert u[|Edge(f.hd, f.idx)|..] == rest;
    InsFill(f, Leaf(w), u, v);
    GrowMoved(ValueTree(leaf, w), 0, rest, v);
    BarePlug(In(c, f), k, k');
  }

  /** Growing a node that lacks the next edge. */
  lemma InsertedMissing(c: Ctx, t: Tree, u: Bytes, v: Value)
    requires CtxOk(c) && ShapeOk(t) && !t.hd.iscompr && u != [] && IndexOf(t.hd.bytes, u[0]) == |t.hd.bytes|
    ensures |t.kids| == |t.hd.bytes| && GrownTo(c, t, u, v) == InsertedAt(c, Sub(t), u, v)
  {
    hide Bare, Plug, KidOk, Grow;
    InsMissing(t, u, v);
  }

  /** Growing the node that a split left for the byte that differs. */
  lemma InsertedSplit(c: Ctx, t: Tree, j: nat, top: Addr, id: Addr, postfix: Addr, u: Bytes, v: Value)
    requires CtxOk(c) && ShapeOk(t) && t.hd.iscompr && j < |t.hd.bytes| && j < |u|
    requires t.hd.bytes[..j] == u[..j] && t.hd.bytes[j] != u[j]
    ensures t.kids != [] && |SplitNode(t, j, id, postfix).kids| == |SplitNode(t, j, id, postfix).hd.bytes|
    ensures j == 0 ==> GrownTo(c, SplitNode(t, j, id, postfix), u[j..], v) == InsertedAt(c, Sub(t), u, v)
    ensures j > 0 ==>
              && CtxOk(In(c, LineFrame(top, t.hd, t.hd.bytes[..j])))
              && GrownTo(In(c, LineFrame(top, t.hd, t.hd.bytes[..j])), SplitNode(t, j, id, postfix), u[j..], v)
                 == InsertedAt(c, Sub(t), u, v)
  {
    hide Bare, Plug, KidOk, Grow, SplitNode;
    InsSplit(t, j, u, v);
    SplitNodeFits(t, j, id, postfix);
    SplitNodeFits(t, j, 0, 0);
    SplitNodeBare(t, j, id, postfix, u[j..], v);
    var g, g' := Sub(Grow(SplitNode(t, j, id, postfix), u[j..], v)), Sub(Grow(SplitNode(t, j, 0, 0), u[j..], v));
    if j == 0 {
      BarePlug(c, g, g');
    } else {
      var fr, bytes := LineFrame(top, t.hd, t.hd.bytes[..j]), t.hd.bytes[..j];
      FillLine(top, t.hd, bytes, g);
      PlugIn(c, fr, g);
      BareLine(top, 0, t.hd, bytes, g, g');
      BarePlug(c, Sub(Line(top, t.hd, bytes, g)), Sub(Line(0, t.hd, bytes, g')));
    }
  }

  lemma SplitNodeFits(t: Tree, j: nat, id: Addr, postfix: Addr)
    requires j < |t.hd.bytes| && t.kids != []
    ensures |SplitNode(t, j, id, postfix).kids| == |SplitNode(t, j, id, postfix).hd.bytes|
  {
  }

  /** A key that ends inside a compressed node. */
  lemma InsertedInside(c: Ctx, t: Tree, j: nat, trimmed: Addr, postfix: Addr, u: Bytes, v: Value)
    requires CtxOk(c) && ShapeOk(t) && t.hd.iscompr && 0 < j < |t.hd.bytes| && u == t.hd.bytes[..j]
    ensures t.kids != []
    ensures Bare(Plug(c, Sub(SplitAtKey(t, j, trimmed, postfix, v)))) == InsertedAt(c, Sub(t), u, v)
  {
    hide Bare, Plug, KidOk, Grow, SplitAtKey;
    InsSplit(t, j, u, v);
    SplitAtKeyBare(t, j, trimmed, postfix, v);
    BarePlug(c, Sub(SplitAtKey(t, j, trimmed, postfix, v)), Sub(SplitAtKey(t, j, 0, 0, v)));
  }

  // ---------- deletion, from the head down

  /** What is left of a subtree after a deletion in it; `join` says that its top
      node is the lower part of a chain that is yet to be merged. */
  datatype Rest = Rest(kid: Kid, join: bool)

  /** A node that is no key and leads to none. */
  ghost predicate Useless(k: Kid) {
    k.Sub? && k.tree.kids == [] && !k.tree.hd.iskey
  }

  /** A node that lost its key or an edge: one byte left may join a chain. */
  ghost function Trimmed(t: Tree): Rest {
    Rest(Sub(t), |t.hd.bytes| == 1 && !t.hd.iskey)
  }

  ghost function Gone(): Rest {
    Rest(Sub(EmptyTree(0)), false)
  }

  /** The chain that starts at `k` as one compressed node, if it has two nodes. */
  ghost function Merged(k: Kid): Kid {
    if k.Sub? && Merges(k.tree) then Sub(Line(0, PlainHeader(), ChainBytes(k.tree), ChainEnd(k.tree))) else k
  }

  /** One node up: drop a useless child, or end the chain below the child, or let
      the node join it. */
  ghost function Rise(f: Frame, r: Rest): Rest
    requires FrameOk(f)
  {
    if Useless(r.kid) then Trimmed(DropKid(f))
    else if r.join && !Joins(f.hd) then Rest(Sub(Fill(f, Merged(r.kid))), false)
    else Rest(Sub(Fill(f, r.kid)), r.join)
  }

  /** Delete the stored key `s` below `k`. */
  ghost function DelKid(k: Kid, s: Bytes): Rest
    decreases k
  {
    match k
    case Leaf(_) => Gone()
    case Sub(t) =>
      if s == [] then
        Trimmed(WithoutKey(t))
      else
        var i := if t.hd.iscompr then 0 else IndexOf(t.hd.bytes, s[0]);
        var f := Frame(t.id, t.hd, t.kids, i);
        if FrameOk(f) && Edge(t.hd, i) <= s then Rise(f, DelKid(t.kids[i], s[|Edge(t.hd, i)|..])) else Rest(k, false)
  }

  /** The tree after the deletion of the stored key `s`. */
  ghost function Delete(k: Kid, s: Bytes): Kid {
    Finished(Top, DelKid(k, s))
  }

  ghost function RiseAll(c: Ctx, r: Rest): Rest
    requires CtxOk(c)
  {
    match c
    case Top => r
    case In(up, f) => RiseAll(up, Rise(f, r))
  }

  /** The whole tree once everything above a reduced node has been done. */
  ghost function Finished(c: Ctx, r: Rest): Kid
    requires CtxOk(c)
  {
    var q := RiseAll(c, r);
    if q.join then Merged(q.kid) else q.kid
  }

  /** Deleting below an edge of a node is deleting in that child alone. */
  lemma DelFill(f: Frame, k: Kid, u: Bytes)
    requires FrameOk(f) && Edge(f.hd, f.idx) <= u
    ensures DelKid(Sub(Fill(f, k)), u) == Rise(f, DelKid(k, u[|Edge(f.hd, f.idx)|..]))
  {
    hide KidOk, Merged, Trimmed, Useless, Joins, WithoutKey;
    var t := Fill(f, k);
    assert u != [];
    if !f.hd.iscompr {
      assert u[0] == f.hd.bytes[f.idx];
      IndexOfUnique(f.hd.bytes, u[0], f.idx);
    }
    var g := Frame(t.id, t.hd, t.kids, f.idx);
    assert FrameOk(g);
    RiseSame(f, g, k, DelKid(k, u[|Edge(f.hd, f.idx)|..]));
  }

  /** What the hole of a frame held does not matter. */
  lemma RiseSame(f: Frame, g: Frame, k: Kid, r: Rest)
    requires FrameOk(f) && FrameOk(g) && g == Frame(f.id, f.hd, f.kids[f.idx := k], f.idx)
    ensures Rise(f, r) == Rise(g, r)
  {
    hide KidOk, Merged, Trimmed, Useless, Joins, DropHeader;
    assert Without(f.kids, f.idx) == Without(g.kids, f.idx);
    assert DropKid(f) == DropKid(g);
    forall x ensures Fill(f, x) == Fill(g, x) {
      assert f.kids[f.idx := x] == g.kids[f.idx := x];
    }
  }

  /** So the deletion can be made where the walk stops, and finished upwards. */
  lemma {:induction false} DelPlug(c: Ctx, k: Kid, s: Bytes)
    requires CtxOk(c) && Path(c) <= s
    ensures DelKid(Plug(c, k), s) == RiseAll(c, DelKid(k, s[|Path(c)|..]))
    decreases c
  {
    hide DelKid, Rise, FrameOk, Fill;
    match c
    case Top =>
    case In(up, f) =>
      var e := Edge(f.hd, f.idx);
      PathIn(up, f);
      PrefixSplit(Path(up), e, s);
      PlugIn(up, f, k);
      FrameFits(f);
      DelPlug(up, Sub(Fill(f, k)), s);
      DelFill(f, k, s[|Path(up)|..]);
  }

  lemma DeletePlug(c: Ctx, k: Kid, s: Bytes)
    requires CtxOk(c) && Path(c) <= s
    ensures Delete(Plug(c, k), s) == Finished(c, DelKid(k, s[|Path(c)|..]))
  {
    hide DelKid, Merged, Rise;
    DelPlug(c, k, s);
  }

  lemma FinishedIn(up: Ctx, f: Frame, r: Rest)
    requires CtxOk(In(up, f))
    ensures CtxOk(up) && FrameOk(f) && Finished(In(up, f), r) == Finished(up, Rise(f, r))
  {
    hide Rise, Merged, FrameOk;
  }

  lemma FinishedDrop(up: Ctx, f: Frame, r: Rest)
    requires CtxOk(In(up, f)) && Useless(r.kid)
    ensures Finished(In(up, f), r) == Finished(up, Trimmed(DropKid(f)))
  {
    hide Finished, Trimmed, DropKid, KidOk;
    FinishedIn(up, f, r);
  }

  /** All useless nodes below a frame go the same way. */
  lemma FinishedUseless(c: Ctx, r: Rest, r': Rest)
    requires CtxOk(c) && c.In? && Useless(r.kid) && Useless(r'.kid)
    ensures Finished(c, r) == Finished(c, r')
  {
    hide Finished, Trimmed, DropKid, KidOk;
    FinishedDrop(c.up, c.f, r);
    FinishedDrop(c.up, c.f, r');
  }

  /** A chain goes on through a parent that can join it. */
  lemma FinishedJoin(up: Ctx, f: Frame, k: Kid)
    requires CtxOk(In(up, f)) && !Useless(k) && Joins(f.hd)
    ensures Finished(In(up, f), Rest(k, true)) == Finished(up, Rest(Sub(Fill(f, k)), true))
  {
    hide Finished, Useless, Fill, KidOk, Merged;
    FinishedIn(up, f, Rest(k, true));
  }

  lemma {:induction false} FinishedPlain(c: Ctx, k: Kid)
    requires CtxOk(c) && (c.In? ==> !Useless(k))
    ensures Finished(c, Rest(k, false)) == Plug(c, k)
    decreases c
  {
    hide Merged, KidOk;
    match c
    case Top =>
    case In(up, f) =>
      FinishedIn(up, f, Rest(k, false));
      FinishedPlain(up, Sub(Fill(f, k)));
  }

  /** The chain ends below a parent that cannot join it. */
  lemma FinishedMerge(c: Ctx, t: Tree)
    requires CtxOk(c) && t.kids != [] && (c.In? ==> !Joins(c.f.hd))
    ensures Finished(c, Rest(Sub(t), true)) == Plug(c, Merged(Sub(t)))
  {
    hide Joins, ChainBytes, ChainEnd, Merges, KidOk;
    match c
    case Top =>
    case In(up, f) =>
      FinishedIn(up, f, Rest(Sub(t), true));
      FinishedPlain(up, Sub(Fill(f, Merged(Sub(t)))));
  }

  /** A compressed node that stops being a key is left as it is: recompression is
      tried only around nodes with one byte, so a chain can remain unmerged. */
  lemma CompressedKeyStays(c: Ctx, t: Tree, s: Bytes)
    requires CtxOk(c) && ShapeOk(t) && t.hd.iscompr && s == Path(c)
    ensures Delete(Plug(c, Sub(t)), s) == Plug(c, Sub(WithoutKey(t)))
  {
    hide KidOk, Finished;
    DeletePlug(c, Sub(t), s);
    assert s[|Path(c)|..] == [];
    FinishedPlain(c, Sub(WithoutKey(t)));
  }

  /** A useless node passes on to its parent what it would have been given. */
  lemma FinishedCut(up: Ctx, f: Frame)
    requires CtxOk(In(up, f)) && !f.hd.iskey && |f.kids| == 1
    ensures up.In? ==> CtxOk(up) && Finished(up, Gone()) == Finished(In(up, f), Gone())
  {
    hide Finished, KidOk;
    FinishedDrop(up, f, Gone());
    DropKidOk(f);
    if up.In? {
      FinishedUseless(up, Trimmed(DropKid(f)), Gone());
    }
  }

  lemma FinishedGone(c: Ctx, t: Tree)
    requires CtxOk(c) && ShapeOk(t) && t.kids == [] && !t.hd.iskey
    ensures if c.In? then Finished(c, Gone()) == Finished(c, Trimmed(t)) else !Trimmed(t).join
  {
    hide Finished, KidOk;
    if c.In? {
      FinishedUseless(c, Gone(), Trimmed(t));
    }
  }

  /** Deleting a value in a slot drops the slot's edge. */
  lemma DeleteLeaf(c: Ctx, f: Frame, v: Value, s: Bytes)
    requires CtxOk(In(c, f)) && s == Path(In(c, f))
    ensures CtxOk(c) && Delete(Plug(In(c, f), Leaf(v)), s) == Finished(c, Trimmed(DropKid(f)))
  {
    hide Finished, KidOk, Path, Plug;
    DeletePlug(In(c, f), Leaf(v), s);
    FinishedDrop(c, f, Gone());
  }

  lemma DeleteHere(c: Ctx, t: Tree)
    requires CtxOk(c)
    ensures Delete(Plug(c, Sub(t)), Path(c)) == Finished(c, Trimmed(WithoutKey(t)))
  {
    hide Finished, KidOk, Path, Plug;
    DeletePlug(c, Sub(t), Path(c));
    assert Path(c)[|Path(c)|..] == [];
  }

  /** The merged node, at whatever address, is the tree that was to be left. */
  lemma MergedBare(c: Ctx, t: Tree, id: Addr)
    requires CtxOk(c) && ShapeOk(t) && t.kids != [] && Merges(t) && (c.In? ==> !Joins(c.f.hd))
    ensures Bare(Plug(c, Sub(Line(id, PlainHeader(), ChainBytes(t), ChainEnd(t)))))
            == Bare(Finished(c, Rest(Sub(t), true)))
  {
    hide Finished, Bare, Plug, KidOk, ChainBytes, ChainEnd, Merges, Line;
    FinishedMerge(c, t);
    BareLine(id, 0, PlainHeader(), ChainBytes(t), ChainEnd(t), ChainEnd(t));
    BarePlug(c, Sub(Line(id, PlainHeader(), ChainBytes(t), ChainEnd(t))), Merged(Sub(t)));
  }

  lemma UnmergedPlug(c: Ctx, t: Tree)
    requires CtxOk(c) && t.kids != [] && !Merges(t) && (c.In? ==> !Joins(c.f.hd))
    ensures Plug(c, Sub(t)) == Finished(c, Rest(Sub(t), true))
  {
    hide Finished, Plug, Merges;
    FinishedMerge(c, t);
  }
}
