/** The tree a radix-tree memory represents, and the map that the tree means.
    Nothing here is executed: the class in Rax.dfy keeps such a tree as a ghost
    field and proves that its memory holds exactly the cells of that tree. */
module RaxTree {
  import opened ByteStrings
  import opened RaxTypes

  datatype Tree = Tree(id: Addr, hd: Header, kids: seq<Kid>)
  datatype Kid = Leaf(value: Value) | Sub(tree: Tree)

  // ---------- what the memory must hold

  ghost function SlotOf(k: Kid): Slot {
    match k
    case Leaf(v) => Inline(v)
    case Sub(t) => Child(t.id)
  }

  ghost function SlotsOf(ks: seq<Kid>): (r: seq<Slot>)
    ensures |r| == |ks|
    ensures forall i :: 0 <= i < |ks| ==> r[i] == SlotOf(ks[i])
  {
    seq(|ks|, i requires 0 <= i < |ks| => SlotOf(ks[i]))
  }

  ghost function BitmapOf(slots: seq<Slot>): (r: seq<bool>)
    ensures |r| == INLINE_SLOTS
    ensures forall i :: 0 <= i < INLINE_SLOTS ==> r[i] == (i < |slots| && slots[i].Inline?)
  {
    seq(INLINE_SLOTS, i requires 0 <= i => i < |slots| && slots[i].Inline?)
  }

  ghost function NodeOf(hd: Header, slots: seq<Slot>): Node {
    Node(hd, BitmapOf(slots), slots)
  }

  ghost function Cells(t: Tree): multiset<Cell>
    decreases t, 0
  {
    multiset{(t.id, NodeOf(t.hd, SlotsOf(t.kids)))} + CellsKids(t.kids)
  }

  ghost function CellsKids(ks: seq<Kid>): multiset<Cell>
    decreases ks, 2
  {
    if ks == [] then multiset{} else CellsKid(ks[0]) + CellsKids(ks[1..])
  }

  ghost function CellsKid(k: Kid): multiset<Cell>
    decreases k, 1
  {
    match k
    case Leaf(_) => multiset{}
    case Sub(t) => Cells(t)
  }

  // ---------- shape

  /** The header fits its children: a compressed node has at least two bytes and
      one child; any other node has one child per edge, in strictly rising order. */
  ghost predicate HeaderOk(hd: Header, kids: nat) {
    && |hd.bytes| <= NODE_MAX_SIZE
    && (hd.iscompr ==> |hd.bytes| >= 2 && kids == 1)
    && (!hd.iscompr ==> kids == |hd.bytes| && StrictlySorted(hd.bytes))
  }

  ghost predicate Live(t: Tree) {
    t.hd.iskey || t.kids != []
  }

  ghost predicate ShapeOk(t: Tree)
    decreases t, 0
  {
    && HeaderOk(t.hd, |t.kids|)
    && (forall i :: 0 <= i < |t.kids| ==> KidOk(t.kids[i], i))
  }

  /** Child `i` of a node: values sit below slot 13, and a childless node is a key. */
  ghost predicate KidOk(k: Kid, i: nat)
    decreases k, 1
  {
    match k
    case Leaf(_) => i < INLINE_SLOTS
    case Sub(t) => ShapeOk(t) && Live(t)
  }

  lemma LeafOk(v: Value, i: nat)
    requires i < INLINE_SLOTS
    ensures KidOk(Leaf(v), i)
  {
  }

  lemma SubOk(t: Tree, i: nat)
    requires ShapeOk(t) && Live(t)
    ensures KidOk(Sub(t), i)
  {
  }

  // ---------- meaning

  ghost function Get(t: Tree, s: Bytes): Option<Value>
    decreases t, 0
  {
    if s == [] then
      if t.hd.iskey then Some(t.hd.GetData()) else None
    else if t.hd.iscompr then
      if |t.kids| == 1 && t.hd.bytes <= s then GetKid(t.kids[0], s[|t.hd.bytes|..]) else None
    else
      var i := IndexOf(t.hd.bytes, s[0]);
      if i < |t.kids| then GetKid(t.kids[i], s[1..]) else None
  }

  ghost function GetKid(k: Kid, s: Bytes): Option<Value>
    decreases k, 1
  {
    match k
    case Leaf(v) => if s == [] then Some(v) else None
    case Sub(t) => Get(t, s)
  }

  ghost predicate Means(k: Kid, m: map<Bytes, Value>) {
    forall s :: GetKid(k, s) == Lookup(m, s)
  }

  ghost function Lookup(m: map<Bytes, Value>, s: Bytes): Option<Value> {
    if s in m then Some(m[s]) else None
  }

  // ---------- contexts: a tree with a hole

  /** A node one of whose children, `kids[idx]`, is left open. */
  datatype Frame = Frame(id: Addr, hd: Header, kids: seq<Kid>, idx: nat)

  /** The nodes from the head down to the hole, innermost last. */
  datatype Ctx = Top | In(up: Ctx, f: Frame)

  ghost function Edge(hd: Header, i: nat): Bytes {
    if hd.iscompr then hd.bytes else if i < |hd.bytes| then [hd.bytes[i]] else []
  }

  ghost function Path(c: Ctx): Bytes {
    match c
    case Top => []
    case In(up, f) => Path(up) + Edge(f.hd, f.idx)
  }

  ghost function StackOf(c: Ctx): seq<Addr> {
    match c
    case Top => []
    case In(up, f) => StackOf(up) + [f.id]
  }

  ghost function LinkOf(c: Ctx): Link {
    match c
    case Top => HeadLink
    case In(_, f) => SlotLink(f.id, f.idx)
  }

  ghost predicate FrameOk(f: Frame) {
    && f.idx < |f.kids|
    && HeaderOk(f.hd, |f.kids|)
    && (forall i :: 0 <= i < |f.kids| && i != f.idx ==> KidOk(f.kids[i], i))
  }

  ghost predicate CtxOk(c: Ctx) {
    match c
    case Top => true
    case In(up, f) => FrameOk(f) && CtxOk(up)
  }

  ghost function Fill(f: Frame, k: Kid): Tree
    requires f.idx < |f.kids|
  {
    Tree(f.id, f.hd, f.kids[f.idx := k])
  }

  ghost function Plug(c: Ctx, k: Kid): Kid
    requires CtxOk(c)
  {
    match c
    case Top => k
    case In(up, f) => Plug(up, Sub(Fill(f, k)))
  }

  ghost function CtxCells(c: Ctx, slot: Slot): multiset<Cell>
    requires CtxOk(c)
  {
    match c
    case Top => multiset{}
    case In(up, f) => FrameCells(f, slot) + CtxCells(up, Child(f.id))
  }

  /** The node of the frame, with `slot` in its hole, and its other children. */
  ghost function FrameCells(f: Frame, slot: Slot): multiset<Cell>
    requires f.idx < |f.kids|
  {
    multiset{(f.id, HoleNode(f, slot))} + Siblings(f)
  }

  ghost function HoleNode(f: Frame, slot: Slot): Node
    requires f.idx < |f.kids|
  {
    NodeOf(f.hd, SlotsOf(f.kids)[f.idx := slot])
  }

  ghost function Siblings(f: Frame): multiset<Cell>
    requires f.idx < |f.kids|
  {
    CellsKids(f.kids[..f.idx]) + CellsKids(f.kids[f.idx + 1..])
  }

  lemma PlugIn(up: Ctx, f: Frame, k: Kid)
    requires CtxOk(In(up, f))
    ensures CtxOk(up) && FrameOk(f) && Plug(In(up, f), k) == Plug(up, Sub(Fill(f, k)))
  {
  }

  lemma PathIn(up: Ctx, f: Frame)
    ensures Path(In(up, f)) == Path(up) + Edge(f.hd, f.idx)
  {
  }

  lemma SplitLast(s: Bytes, i: nat)
    requires i < |s|
    ensures s[..i] + [s[i]] == s[..i + 1]
    ensures i + 1 == |s| ==> s[..i + 1] == s
  {
  }

  lemma SplitAll(s: Bytes, i: nat, j: nat)
    requires i <= j <= |s|
    ensures s[..i] + s[i..j] == s[..j]
    ensures s[..i] + s[i..] == s
  {
  }

  // ---------- cells of a plugged context

  lemma CellsNode(t: Tree)
    ensures CellsKid(Sub(t)) == Cells(t) == multiset{(t.id, NodeOf(t.hd, SlotsOf(t.kids)))} + CellsKids(t.kids)
  {
  }

  lemma CtxCellsIn(up: Ctx, f: Frame, slot: Slot)
    requires CtxOk(In(up, f))
    ensures CtxOk(up) && FrameOk(f)
    ensures CtxCells(In(up, f), slot) ==
            multiset{(f.id, HoleNode(f, slot))} + (Siblings(f) + CtxCells(up, Child(f.id)))
  {
  }

  lemma {:induction false} CellsKidsConcat(a: seq<Kid>, b: seq<Kid>)
    ensures CellsKids(a + b) == CellsKids(a) + CellsKids(b)
  {
    if a == [] {
      assert a + b == b;
    } else {
      CellsKidsConcat(a[1..], b);
      assert (a + b)[1..] == a[1..] + b;
    }
  }

  lemma CellsKidsAt(ks: seq<Kid>, i: nat)
    requires i < |ks|
    ensures CellsKids(ks) == CellsKids(ks[..i]) + CellsKid(ks[i]) + CellsKids(ks[i + 1..])
  {
    var tail := ks[i..];
    assert ks == ks[..i] + tail;
    CellsKidsConcat(ks[..i], tail);
    assert tail[0] == ks[i] && tail[1..] == ks[i + 1..];
    assert CellsKids(tail) == CellsKid(ks[i]) + CellsKids(ks[i + 1..]);
  }

  lemma CellsFill(f: Frame, k: Kid)
    requires f.idx < |f.kids|
    ensures Cells(Fill(f, k)) == FrameCells(f, SlotOf(k)) + CellsKid(k)
  {
    var ks := f.kids[f.idx := k];
    CellsKidsAt(ks, f.idx);
    assert ks[..f.idx] == f.kids[..f.idx];
    assert ks[f.idx + 1..] == f.kids[f.idx + 1..];
    assert SlotsOf(ks) == SlotsOf(f.kids)[f.idx := SlotOf(k)];
  }

  lemma {:induction false} CellsPlug(c: Ctx, k: Kid)
    requires CtxOk(c)
    ensures CellsKid(Plug(c, k)) == CtxCells(c, SlotOf(k)) + CellsKid(k)
  {
    match c
    case Top =>
    case In(up, f) =>
      CellsFill(f, k);
      CellsPlug(up, Sub(Fill(f, k)));
  }

  lemma {:induction false} PlugRoot(c: Ctx, k: Kid, k': Kid)
    requires CtxOk(c)
    ensures c.In? ==> SlotOf(Plug(c, k)) == SlotOf(Plug(c, k'))
    decreases c
  {
    if c.In? && c.up.In? {
      PlugRoot(c.up, Sub(Fill(c.f, k)), Sub(Fill(c.f, k')));
    }
  }

  // ---------- shape of a plugged context

  lemma {:induction false} PlugOk(c: Ctx, k: Kid)
    requires CtxOk(c) && c.In? && KidOk(k, c.f.idx)
    ensures Plug(c, k).Sub? && ShapeOk(Plug(c, k).tree)
    decreases c
  {
    var t := Fill(c.f, k);
    assert ShapeOk(t);
    if c.up.In? {
      PlugOk(c.up, Sub(t));
    }
  }

  /** The part in the hole of a well-shaped tree is well shaped itself. */
  lemma {:induction false} UnplugOk(c: Ctx, k: Kid)
    requires CtxOk(c) && c.In? && Plug(c, k).Sub? && ShapeOk(Plug(c, k).tree)
    ensures KidOk(k, c.f.idx)
    decreases c
  {
    var t := Fill(c.f, k);
    if c.up.In? {
      UnplugOk(c.up, Sub(t));
    }
    assert KidOk(t.kids[c.f.idx], c.f.idx);
  }

  // ---------- meaning of a plugged context

  lemma PrefixSplit(a: Bytes, b: Bytes, s: Bytes)
    ensures a + b <= s <==> a <= s && b <= s[|a|..]
    ensures a + b <= s ==> s[|a + b|..] == s[|a|..][|b|..]
  {
    if a <= s && b <= s[|a|..] {
      assert s == a + s[|a|..] == a + (b + s[|a|..][|b|..]);
      assert a + b <= s;
    }
    if a + b <= s {
      assert s == (a + b) + s[|a + b|..] == a + (b + s[|a + b|..]);
      assert s[|a|..] == b + s[|a + b|..];
    }
  }

  lemma GetFill(f: Frame, k: Kid, s: Bytes)
    requires FrameOk(f)
    ensures Edge(f.hd, f.idx) <= s ==> Get(Fill(f, k), s) == GetKid(k, s[|Edge(f.hd, f.idx)|..])
  {
    var t := Fill(f, k);
    if Edge(f.hd, f.idx) <= s && !f.hd.iscompr {
      assert s[0] == f.hd.bytes[f.idx];
      assert IndexOf(f.hd.bytes, s[0]) == f.idx;
    }
  }

  lemma GetFillMiss(f: Frame, k: Kid, k': Kid, s: Bytes)
    requires FrameOk(f)
    ensures !(Edge(f.hd, f.idx) <= s) ==> Get(Fill(f, k), s) == Get(Fill(f, k'), s)
  {
    if !(Edge(f.hd, f.idx) <= s) && s != [] && !f.hd.iscompr {
      assert [s[0]] <= s;
    }
  }

  lemma FillSelf(t: Tree, i: nat)
    requires i < |t.kids|
    ensures Fill(Frame(t.id, t.hd, t.kids, i), t.kids[i]) == t
    ensures ShapeOk(t) ==> FrameOk(Frame(t.id, t.hd, t.kids, i))
  {
    assert t.kids[i := t.kids[i]] == t.kids;
  }

  /** A key below the hole is looked up in the plug; any other key ignores it. */
  lemma {:induction false} GetPlug(c: Ctx, k: Kid, k': Kid, s: Bytes)
    requires CtxOk(c)
    ensures Path(c) <= s ==> GetKid(Plug(c, k), s) == GetKid(k, s[|Path(c)|..])
    ensures !(Path(c) <= s) ==> GetKid(Plug(c, k), s) == GetKid(Plug(c, k'), s)
    decreases c
  {
    match c
    case Top =>
    case In(up, f) =>
      var e := Edge(f.hd, f.idx);
      PrefixSplit(Path(up), e, s);
      GetPlug(up, Sub(Fill(f, k)), Sub(Fill(f, k')), s);
      GetPlug(up, Sub(Fill(f, k')), Sub(Fill(f, k)), s);
      if Path(up) <= s {
        GetFill(f, k, s[|Path(up)|..]);
        GetFillMiss(f, k, k', s[|Path(up)|..]);
      }
  }
}
