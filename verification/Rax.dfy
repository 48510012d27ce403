/** The radix tree itself: nodes live in an explicit memory, and every pointer
    the C code keeps is an address into it. A freed address is gone from the
    memory, so a dangling pointer, a leak or a double free breaks a proof. */
module Rax {
  import opened ByteStrings
  import opened RaxTypes
  import opened RaxTree
  import opened RaxMemory
  import opened RaxEdits
  import opened RaxRemoval
  import opened RaxShapes

  class Rax {
    var head: Addr
    var numele: nat
    var numnodes: nat
    var mem: Memory
    ghost var tree: Tree
    ghost var contents: map<Bytes, Value>

    /** The memory holds exactly the cells of `tree`, each once; the tree means
        `contents`; and both counters are right. */
    ghost predicate Valid()
      reads this
    {
      && Open(Top, Sub(tree))
      && ShapeOk(tree)
      && Means(Sub(tree), contents)
      && numele == |contents|
    }

    /** The memory holds the tree `Plug(c, k)`; `numnodes` counts its nodes. */
    ghost predicate Open(c: Ctx, k: Kid)
      reads this
    {
      && CtxOk(c)
      && SlotOf(Plug(c, k)) == Child(head)
      && CellsOf(mem) == CtxCells(c, SlotOf(k)) + CellsKid(k)
      && numnodes == |mem|
    }

    // ---------- the allocator

    method Malloc(nd: Node) returns (a: Addr)
      modifies this`mem
      ensures CellsOf(mem) == old(CellsOf(mem)) + multiset{(a, nd)} && |mem| == old(|mem|) + 1
      ensures a !in old(mem) && mem.Keys == old(mem.Keys) + {a}
    {
      Unused(mem);
      a :| a !in mem;
      CellsOfAdd(mem, a, nd);
      mem := mem[a := nd];
    }

    lemma CellIn(a: Addr, nd: Node, rest: multiset<Cell>)
      requires CellsOf(mem) == multiset{(a, nd)} + rest
      ensures a in mem && mem[a] == nd
    {
      assert (a, nd) in CellsOf(mem);
      CellsOfAt(mem, a, nd);
    }

    /** Overwrite the node at `a`; `rest` is the memory outside it. */
    method Write(a: Addr, nd: Node, ghost nd0: Node, ghost rest: multiset<Cell>)
      requires CellsOf(mem) == multiset{(a, nd0)} + rest
      modifies this`mem
      ensures CellsOf(mem) == multiset{(a, nd)} + rest
      ensures |mem| == old(|mem|) && mem.Keys == old(mem.Keys)
    {
      CellIn(a, nd0, rest);
      CellsOfWrite(mem, a, nd);
      mem := mem[a := nd];
    }

    method Free(a: Addr, ghost nd0: Node, ghost rest: multiset<Cell>)
      requires CellsOf(mem) == multiset{(a, nd0)} + rest
      modifies this`mem
      ensures CellsOf(mem) == rest && mem.Keys == old(mem.Keys) - {a}
      ensures |mem| == old(|mem|) - 1
    {
      CellIn(a, nd0, rest);
      CellsOfFree(mem, a);
      mem := mem - {a};
    }

    /** Grow or shrink the block at `a`; the block may move. */
    method Realloc(a: Addr, nd: Node, ghost nd0: Node, ghost rest: multiset<Cell>) returns (b: Addr)
      requires CellsOf(mem) == multiset{(a, nd0)} + rest
      modifies this`mem
      ensures CellsOf(mem) == multiset{(b, nd)} + rest
      ensures |mem| == old(|mem|)
    {
      Free(a, nd0, rest);
      b := Malloc(nd);
    }

    // ---------- the walk

    /** The node at `f.id` is the focus of context `c`. */
    ghost predicate At(c: Ctx, f: Tree)
      reads this
    {
      && CtxOk(c)
      && ShapeOk(f)
      && Plug(c, Sub(f)) == Sub(tree)
      && f.id in mem && mem[f.id] == NodeOf(f.hd, SlotsOf(f.kids))
    }

    lemma AtCell(c: Ctx, f: Tree)
      requires CtxOk(c) && CellsOf(mem) == CtxCells(c, Child(f.id)) + Cells(f)
      ensures f.id in mem && mem[f.id] == NodeOf(f.hd, SlotsOf(f.kids))
    {
      assert (f.id, NodeOf(f.hd, SlotsOf(f.kids))) in Cells(f);
      CellsOfAt(mem, f.id, NodeOf(f.hd, SlotsOf(f.kids)));
    }

    lemma AtHead()
      requires Valid()
      ensures At(Top, tree) && tree.id == head
    {
      AtCell(Top, tree);
    }

    lemma Descend(c: Ctx, f: Tree, j: nat)
      requires Valid() && At(c, f) && j < |f.kids| && f.kids[j].Sub?
      ensures At(In(c, Frame(f.id, f.hd, f.kids, j)), f.kids[j].tree)
    {
      var fr := Frame(f.id, f.hd, f.kids, j);
      assert KidOk(f.kids[j], j);
      assert f.kids[j := f.kids[j]] == f.kids;
      assert Fill(fr, f.kids[j]) == f;
      CellsPlug(In(c, fr), f.kids[j]);
      AtCell(In(c, fr), f.kids[j].tree);
    }

    lemma ValidCells(c: Ctx, f: Tree)
      requires Valid() && CtxOk(c) && Plug(c, Sub(f)) == Sub(tree)
      ensures CellsOf(mem) == CtxCells(c, Child(f.id)) + Cells(f)
    {
      hide CellsOf, Means;
      CellsPlug(c, Sub(f));
      CellsNode(f);
      assert CtxCells(Top, Child(head)) == multiset{};
    }

    /** The parent of the node in hand. */
    lemma Ascend(c: Ctx, f: Tree)
      requires Valid() && At(c, f) && c.In? && Live(f)
      ensures At(c.up, Fill(c.f, Sub(f))) && Live(Fill(c.f, Sub(f)))
    {
      hide CtxCells, Cells, CellsOf, KidOk, Means;
      var t := Fill(c.f, Sub(f));
      PlugIn(c.up, c.f, Sub(f));
      FillOk(c.f, Sub(f));
      ValidCells(c.up, t);
      AtCell(c.up, t);
    }

    lemma AtIsHere(c: Ctx, f: Tree)
      requires Valid() && At(c, f)
      ensures CtxOk(c) && ShapeOk(f) && Means(Plug(c, Sub(f)), contents)
      ensures f.id == head <==> c.Top?
    {
      hide CtxCells, CellsOf, Means, Cells, CellsKids;
      if c.In? && f.id == head {
        ValidCells(c, f);
        CellsNode(f);
        RootedPlug(c, Sub(f), f.id);
        HeadIsTop(c, f.id, NodeOf(f.hd, SlotsOf(f.kids)), CellsKids(f.kids));
      }
    }

    /** How many bytes of the compressed edge `v` match `s` from position `i`. */
    static method MatchRun(v: Bytes, s: Bytes, i: nat) returns (j: nat)
      requires i <= |s|
      ensures j <= |v| && i + j <= |s|
      ensures v[..j] == s[i..i + j]
      ensures j < |v| && i + j < |s| ==> v[j] != s[i + j]
    {
      j := 0;
      while j < |v| && i + j < |s|
        invariant j <= |v| && i + j <= |s|
        invariant v[..j] == s[i..i + j]
      {
        if v[j] != s[i + j] { break; }
        assert v[..j + 1] == v[..j] + [v[j]];
        assert s[i..i + j + 1] == s[i..i + j] + [s[i + j]];
        j := j + 1;
      }
    }

    /** Linear scan for an edge byte. */
    static method ScanEdge(v: Bytes, c: Byte) returns (j: nat)
      ensures j == IndexOf(v, c)
    {
      j := 0;
      while j < |v|
        invariant j <= |v|
        invariant IndexOf(v, c) == j + IndexOf(v[j..], c)
      {
        if v[j] == c { break; }
        assert v[j..][1..] == v[j + 1..];
        j := j + 1;
      }
    }

    /** Follow one edge of a node. On a mismatch `j` is the split position. */
    static method MatchEdge(hd: Header, s: Bytes, i0: nat) returns (matched: bool, j: nat, i: nat)
      requires i0 < |s| && hd.bytes != []
      ensures matched ==> i0 < i <= |s| && Edge(hd, j) == s[i0..i] && (if hd.iscompr then j == 0 else j < |hd.bytes|)
      ensures !matched && hd.iscompr ==>
                && i == i0 + j <= |s| && j < |hd.bytes| && hd.bytes[..j] == s[i0..i]
                && (i < |s| ==> hd.bytes[j] != s[i])
      ensures !matched && !hd.iscompr ==> i == i0 && IndexOf(hd.bytes, s[i]) == |hd.bytes|
    {
      if hd.iscompr {
        j := MatchRun(hd.bytes, s, i0);
        i, matched := i0 + j, j == |hd.bytes|;
        j := if matched then 0 else j;
      } else {
        j := ScanEdge(hd.bytes, s[i0]);
        matched := j != |hd.bytes|;
        i := if matched then i0 + 1 else i0;
      }
    }

    /** Where a walk for `s` stops, with `i` bytes consumed at node `f` below
        context `c`: on an inline leaf of `f`, or at `f` itself. */
    static ghost predicate Stops(s: Bytes, i: nat, plink: Link, splitpos: nat, inlineLeaf: bool, c: Ctx, f: Tree)
    {
      && Path(c) <= s && |Path(c)| <= i <= |s|
      && (inlineLeaf ==>
            && plink.SlotLink? && plink.node == f.id && plink.idx < |f.kids| && f.kids[plink.idx].Leaf?
            && Path(c) + Edge(f.hd, plink.idx) == s[..i])
      && (!inlineLeaf ==>
            && plink == LinkOf(c)
            && (f.hd.iscompr ==>
                  && splitpos == i - |Path(c)| < |f.hd.bytes|
                  && f.hd.bytes[..splitpos] == s[|Path(c)|..i]
                  && (i < |s| ==> f.hd.bytes[splitpos] != s[i]))
            && (!f.hd.iscompr ==>
                  && splitpos == 0 && i == |Path(c)|
                  && (i < |s| ==> IndexOf(f.hd.bytes, s[i]) == |f.hd.bytes|)))
    }

    method LowWalk(s: Bytes)
      returns (i: nat, h: Addr, plink: Link, splitpos: nat, ts: seq<Addr>, inlineLeaf: bool, ghost c: Ctx, ghost f: Tree)
      requires Valid()
      ensures At(c, f) && h == f.id && ts == StackOf(c)
      ensures Stops(s, i, plink, splitpos, inlineLeaf, c, f)
    {
      hide Plug, CellsOf, Cells, CtxCells, Means, KidOk, StrictlySorted, Edge, IndexOf;
      h, plink, inlineLeaf, i, ts := head, HeadLink, false, 0, [];
      c, f := Top, tree;
      var j := 0;
      AtHead();
      while mem[h].hd.Size() != 0 && i < |s|
        invariant At(c, f) && h == f.id && ts == StackOf(c) && plink == LinkOf(c)
        invariant i <= |s| && Path(c) == s[..i] && j == 0 && !inlineLeaf
        decreases |s| - i
      {
        var nd := mem[h];
        var matched, k, next := MatchEdge(nd.hd, s, i);
        if !matched {
          i, j := next, k;
          break;
        }
        SplitAll(s, i, next);
        i, j := next, k;
        HighSlots(f);
        if nd.IsInlineLeaf(j) {
          inlineLeaf, plink := true, SlotLink(h, j);
          break;
        }
        ts := ts + [h];
        Descend(c, f, j);
        c, f := In(c, Frame(f.id, f.hd, f.kids, j)), f.kids[j].tree;
        h, plink := nd.slots[j].addr, SlotLink(h, j);
        j := 0;
      }
      splitpos := if mem[h].hd.iscompr then j else 0;
    }

    /** What the stop position says about the map. */
    lemma StopsGet(s: Bytes, i: nat, plink: Link, splitpos: nat, inlineLeaf: bool, c: Ctx, f: Tree)
      requires Valid() && At(c, f) && Stops(s, i, plink, splitpos, inlineLeaf, c, f)
      ensures inlineLeaf && i == |s| ==> Lookup(contents, s) == Some(f.kids[plink.idx].value)
      ensures !inlineLeaf && i == |s| && (f.hd.iscompr ==> splitpos == 0) && f.hd.iskey ==>
                Lookup(contents, s) == Some(f.hd.GetData())
      ensures i != |s| || (!inlineLeaf && ((f.hd.iscompr && splitpos != 0) || !f.hd.iskey)) ==> s !in contents
    {
      GetPlug(c, Sub(f), Sub(f), s);
      var u := s[|Path(c)|..];
      assert s == Path(c) + u;
      assert Lookup(contents, s) == Get(f, u);
      if inlineLeaf {
        StopsInline(s, i, plink, splitpos, c, f);
      } else if f.hd.iscompr && splitpos < |f.hd.bytes| && u != [] {
        assert !(f.hd.bytes <= u) by {
          if i < |s| {
            assert u[splitpos] == s[i];
          }
        }
      }
    }

    lemma StopsInline(s: Bytes, i: nat, plink: Link, splitpos: nat, c: Ctx, f: Tree)
      requires ShapeOk(f) && Stops(s, i, plink, splitpos, true, c, f)
      ensures Get(f, s[|Path(c)|..]) == if i == |s| then Some(f.kids[plink.idx].value) else None
    {
      var fr := Frame(f.id, f.hd, f.kids, plink.idx);
      assert f.kids[plink.idx := f.kids[plink.idx]] == f.kids;
      assert FrameOk(fr);
      var u, e := s[|Path(c)|..], Edge(f.hd, plink.idx);
      PrefixSplit(Path(c), e, s);
      assert Path(c) + e <= s;
      GetFill(fr, f.kids[plink.idx], u);
    }

    method Find(s: Bytes) returns (r: Option<Value>)
      requires Valid()
      ensures r == Lookup(contents, s)
    {
      var i, h, plink, splitpos, ts, inlineLeaf, c, f := LowWalk(s);
      StopsGet(s, i, plink, splitpos, inlineLeaf, c, f);
      if inlineLeaf && i == |s| {
        return Some(mem[plink.node].slots[plink.idx].value);
      }
      if i != |s| || (mem[h].hd.iscompr && splitpos != 0) || !mem[h].hd.iskey {
        return None;
      }
      return Some(mem[h].hd.GetData());
    }

    // ---------- edits of single nodes

    /** Store a node pointer where the old one was. */
    method SetLink(plink: Link, a: Addr, ghost c: Ctx, ghost old_: Addr, ghost rest: multiset<Cell>)
      requires CtxOk(c) && plink == LinkOf(c)
      requires CellsOf(mem) == CtxCells(c, Child(old_)) + rest
      modifies this`mem, this`head
      ensures CellsOf(mem) == CtxCells(c, Child(a)) + rest && |mem| == old(|mem|)
      ensures head == if c.Top? then a else old(head)
    {
      hide Siblings, CellsOf, CtxCells, HoleNode, CtxOk, FrameOk;
      match plink {
        case HeadLink =>
          TopCells(Child(old_), Child(a));
          head := a;
        case SlotLink(p, i) =>
          CtxCellsIn(c.up, c.f, Child(old_));
          CtxCellsIn(c.up, c.f, Child(a));
          ghost var others := Siblings(c.f) + CtxCells(c.up, Child(c.f.id)) + rest;
          ghost var nd, nd1 := HoleNode(c.f, Child(old_)), HoleNode(c.f, Child(a));
          AssocCells(multiset{(p, nd)}, Siblings(c.f) + CtxCells(c.up, Child(c.f.id)), rest);
          AssocCells(multiset{(p, nd1)}, Siblings(c.f) + CtxCells(c.up, Child(c.f.id)), rest);
          CellIn(p, nd, others);
          HoleChild(c.f, old_, a);
          var nd' := mem[p].(slots := mem[p].slots[i := Child(a)]);
          Write(p, nd', nd, others);
      }
    }

    static lemma TopCells(a: Slot, b: Slot)
      ensures CtxCells(Top, a) == CtxCells(Top, b)
    {
    }

    /** Swapping one pointer for another leaves the bitmap alone. */
    static lemma HoleChild(f: Frame, a: Addr, b: Addr)
      requires f.idx < |f.kids|
      ensures f.idx < |HoleNode(f, Child(a)).slots|
      ensures HoleNode(f, Child(a)).(slots := HoleNode(f, Child(a)).slots[f.idx := Child(b)]) == HoleNode(f, Child(b))
    {
      var n, n' := HoleNode(f, Child(a)), HoleNode(f, Child(b));
      assert n.slots[f.idx := Child(b)] == n'.slots;
      assert n.leafbitmap == n'.leafbitmap;
    }

    static method FindChildPos(bytes: Bytes, c: Byte) returns (pos: nat)
      ensures pos <= |bytes|
      ensures forall i :: 0 <= i < pos ==> bytes[i] <= c
      ensures pos < |bytes| ==> bytes[pos] > c
    {
      pos := 0;
      while pos < |bytes|
        invariant pos <= |bytes|
        invariant forall i :: 0 <= i < pos ==> bytes[i] <= c
      {
        if bytes[pos] > c { break; }
        pos := pos + 1;
      }
    }

    static ghost predicate NodeSpills(nd: Node, pos: nat) {
      pos <= 12 < |nd.slots| && nd.slots[12].Inline?
    }

    static ghost function NodeSpill(nd: Node, pos: nat, spill: Addr): multiset<Cell> {
      if NodeSpills(nd, pos) then multiset{(spill, ValueNode(nd.slots[12].value))} else multiset{}
    }

    /** Node `nd` with an unset slot for edge `c` opened at `pos`. */
    static ghost function WithSlot(nd: Node, c: Byte, pos: nat, spill: Addr): Node
      requires pos <= |nd.hd.bytes| && pos <= |nd.slots| && |nd.leafbitmap| == INLINE_SLOTS
    {
      var slots := nd.slots[..pos] + [Unset] + nd.slots[pos..];
      Node(nd.hd.(bytes := nd.hd.bytes[..pos] + [c] + nd.hd.bytes[pos..]),
           if true in nd.leafbitmap && pos < INLINE_SLOTS then ShiftUp(nd.leafbitmap, pos) else nd.leafbitmap,
           if NodeSpills(nd, pos) then slots[13 := Child(spill)] else slots)
    }

    /** Open a slot for edge `c`; an inline value that would leave slot 12 is
        spilled into a node of its own first. */
    method AddChildNoAlloc(n: Addr, c: Byte, ghost nd0: Node, ghost rest: multiset<Cell>)
      returns (newn: Addr, pos: nat, ghost spill: Addr)
      requires |nd0.hd.bytes| == |nd0.slots| && nd0.leafbitmap == BitmapOf(nd0.slots)
      requires CellsOf(mem) == multiset{(n, nd0)} + rest
      modifies this`mem, this`numnodes
      ensures IsPos(nd0.hd.bytes, c, pos)
      ensures CellsOf(mem) == multiset{(newn, WithSlot(nd0, c, pos, spill))} + (rest + NodeSpill(nd0, pos, spill))
      ensures numnodes - |mem| == old(numnodes - |mem|)
    {
      CellIn(n, nd0, rest);
      var nd := mem[n];
      newn := Realloc(n, nd, nd0, rest);
      pos := FindChildPos(nd.hd.bytes, c);
      var slots, bm := nd.slots[..pos] + [Unset] + nd.slots[pos..], nd.leafbitmap;
      if true in bm && pos < INLINE_SLOTS {
        bm := ShiftUp(bm, pos);
      }
      spill := 0;
      if pos <= 12 && nd.IsInlineLeaf(12) {
        var leaf := Malloc(ValueNode(nd.slots[12].value));
        slots := slots[13 := Child(leaf)];
        numnodes := numnodes + 1;
        spill := leaf;
      }
      ghost var others := rest + NodeSpill(nd0, pos, spill);
      Write(newn, Node(nd.hd.(bytes := nd.hd.bytes[..pos] + [c] + nd.hd.bytes[pos..]), bm, slots), nd, others);
    }

    static lemma AddEdgeFrame(t: Tree, id: Addr, c: Byte, pos: nat, spill: Addr)
      requires ShapeOk(t) && !t.hd.iscompr && pos <= |t.kids|
      ensures var nd := NodeOf(t.hd, SlotsOf(t.kids));
              FrameCells(AddEdge(t, id, c, pos, spill), Unset) ==
              multiset{(id, WithSlot(nd, c, pos, spill))} + NodeSpill(nd, pos, spill) + CellsKids(t.kids)
    {
      hide CellsKids, ShiftUp, Spilled;
      var nd := WithSlot(NodeOf(t.hd, SlotsOf(t.kids)), c, pos, spill);
      AddEdgeNode(t, id, c, pos, spill, nd.slots, nd.leafbitmap);
      AddEdgeCells(t, id, c, pos, spill);
    }

    static lemma HighSlots(t: Tree)
      requires ShapeOk(t)
      ensures forall i :: INLINE_SLOTS <= i < |t.kids| ==> !SlotsOf(t.kids)[i].Inline?
    {
      forall i | INLINE_SLOTS <= i < |t.kids| ensures !SlotsOf(t.kids)[i].Inline? {
        assert KidOk(t.kids[i], i);
      }
    }

    static lemma AddEdgeNode(t: Tree, id: Addr, c: Byte, pos: nat, spill: Addr, slots: seq<Slot>, bm: seq<bool>)
      requires ShapeOk(t) && !t.hd.iscompr && pos <= |t.kids|
      requires var s0 := SlotsOf(t.kids); var s1 := s0[..pos] + [Unset] + s0[pos..];
               && slots == (if Spills(t, pos) then s1[13 := Child(spill)] else s1)
               && bm == if true in BitmapOf(s0) && pos < INLINE_SLOTS then ShiftUp(BitmapOf(s0), pos) else BitmapOf(s0)
      ensures var f := AddEdge(t, id, c, pos, spill);
              slots == SlotsOf(f.kids)[pos := Unset] && bm == BitmapOf(slots)
    {
      hide KidOk, StrictlySorted, ShiftUp;
      var s0 := SlotsOf(t.kids);
      HighSlots(t);
      BitmapInsert(s0, pos);
      assert BitmapOf(slots) == BitmapOf(s0[..pos] + [Unset] + s0[pos..]);
      AddEdgeSlots(t, id, c, pos, spill);
    }

    static lemma AddEdgeSlots(t: Tree, id: Addr, c: Byte, pos: nat, spill: Addr)
      requires ShapeOk(t) && !t.hd.iscompr && pos <= |t.kids|
      ensures var s0 := SlotsOf(t.kids); var s1 := s0[..pos] + [Unset] + s0[pos..];
              SlotsOf(AddEdge(t, id, c, pos, spill).kids)[pos := Unset] == if Spills(t, pos) then s1[13 := Child(spill)] else s1
    {
      hide KidOk, StrictlySorted;
      var s0 := SlotsOf(t.kids);
      var s1 := s0[..pos] + [Unset] + s0[pos..];
      var slots := if Spills(t, pos) then s1[13 := Child(spill)] else s1;
      var ks, r := Spilled(t, pos, spill), SlotsOf(AddEdge(t, id, c, pos, spill).kids)[pos := Unset];
      assert |r| == |slots|;
      forall i | 0 <= i < |r| ensures r[i] == slots[i] {
        assert i < pos ==> r[i] == SlotOf(ks[i]);
        assert i > pos ==> r[i] == SlotOf(ks[i - 1]);
      }
    }

    /** Fill slot `i`; storing a value also sets its bit in the bitmap. */
    method FillSlot(p: Addr, i: nat, slot: Slot, ghost f: Frame, ghost old_: Slot, ghost rest: multiset<Cell>)
      requires f.idx < |f.kids| && p == f.id && i == f.idx
      requires (old_.Inline? ==> slot.Inline?) && (slot.Inline? ==> i < INLINE_SLOTS)
      requires CellsOf(mem) == multiset{(p, HoleNode(f, old_))} + rest
      modifies this`mem
      ensures CellsOf(mem) == multiset{(p, HoleNode(f, slot))} + rest && |mem| == old(|mem|)
    {
      CellIn(p, HoleNode(f, old_), rest);
      var nd := mem[p];
      var bm := if slot.Inline? then nd.leafbitmap[i := true] else nd.leafbitmap;
      var nd' := Node(nd.hd, bm, nd.slots[i := slot]);
      assert nd'.slots == HoleNode(f, slot).slots;
      assert nd'.leafbitmap == HoleNode(f, slot).leafbitmap;
      Write(p, nd', HoleNode(f, old_), rest);
    }

    /** Turn the inline value in slot `i` into a leaf node of its own. */
    method MaterializeInlineLeaf(p: Addr, i: nat, ghost f: Frame, ghost v: Value, ghost rest: multiset<Cell>)
      returns (leaf: Addr)
      requires f.idx < |f.kids| && p == f.id && i == f.idx
      requires CellsOf(mem) == multiset{(p, HoleNode(f, Inline(v)))} + rest
      modifies this`mem, this`numnodes
      ensures CellsOf(mem) == multiset{(p, HoleNode(f, Child(leaf)))} + (rest + multiset{(leaf, ValueNode(v))})
      ensures |mem| == old(|mem|) + 1 && numnodes == old(numnodes) + 1
    {
      CellIn(p, HoleNode(f, Inline(v)), rest);
      var nd := mem[p];
      leaf := Malloc(ValueNode(nd.slots[i].value));
      var bm := if i < INLINE_SLOTS then nd.leafbitmap[i := false] else nd.leafbitmap;
      var nd' := Node(nd.hd, bm, nd.slots[i := Child(leaf)]);
      assert nd'.slots == HoleNode(f, Child(leaf)).slots;
      assert nd'.leafbitmap == HoleNode(f, Child(leaf)).leafbitmap;
      Write(p, nd', HoleNode(f, Inline(v)), rest + multiset{(leaf, ValueNode(v))});
      numnodes := numnodes + 1;
    }

    // ---------- opening and closing the tree around the node in hand

    /** The tree is `k`, up to the addresses of its nodes. */
    ghost predicate Shaped(k: Kid)
      reads this
    {
      Bare(Sub(tree)) == Bare(k)
    }

    /** The tree is in hand at `k` below `c` and still means `contents`. */
    ghost predicate Pending(c: Ctx, k: Kid)
      reads this
    {
      && Open(c, k)
      && Means(Plug(c, k), contents)
      && numele == |contents|
    }

    lemma OpenAt(c: Ctx, f: Tree)
      requires Valid() && At(c, f)
      ensures Pending(c, Sub(f))
    {
      CellsPlug(c, Sub(f));
    }

    lemma OpenFill(c: Ctx, fr: Frame, k: Kid)
      requires CtxOk(c) && FrameOk(fr)
      ensures CtxOk(In(c, fr)) && Plug(In(c, fr), k) == Plug(c, Sub(Fill(fr, k)))
      ensures Open(c, Sub(Fill(fr, k))) <==> Open(In(c, fr), k)
    {
      hide CellsKid, Cells, FrameCells, CellsOf, Plug, SlotOf, Fill, KidOk;
      CtxOkIn(c, fr);
      CellsFill(fr, k);
      CellsNode(Fill(fr, k));
      PlugIn(c, fr, k);
      FillSlotOf(fr, k);
    }

    lemma OpenKid(c: Ctx, fr: Frame, k: Kid)
      requires CtxOk(c) && FrameOk(fr)
      ensures Pending(c, Sub(Fill(fr, k))) <==> Pending(In(c, fr), k)
    {
      hide Open, Means, Plug, Fill, CtxOk, FrameOk;
      OpenFill(c, fr, k);
    }

    static lemma FillSlotOf(fr: Frame, k: Kid)
      requires fr.idx < |fr.kids|
      ensures SlotOf(Sub(Fill(fr, k))) == Child(fr.id)
    {
    }

    /** Close the tree around `k`; from now on it means `m`. */
    ghost method Commit(c: Ctx, k: Kid, m: map<Bytes, Value>)
      requires Open(c, k) && Means(Plug(c, k), m) && numele == |m|
      requires if c.Top? then k.Sub? && ShapeOk(k.tree) else KidOk(k, c.f.idx)
      modifies this`tree, this`contents
      ensures Valid() && contents == m && Sub(tree) == Plug(c, k)
    {
      hide CtxCells, CellsKid, CellsOf, Means, KidOk;
      CellsPlug(c, k);
      if c.In? {
        PlugOk(c, k);
      }
      CellsNode(Plug(c, k).tree);
      CellsPlug(Top, Plug(c, k));
      tree := Plug(c, k).tree;
      contents := m;
    }

    /** The cells of the open tree, with those of node `f` itself first. */
    lemma OpenCells(c: Ctx, f: Tree)
      requires Open(c, Sub(f))
      ensures CellsOf(mem) == multiset{(f.id, NodeOf(f.hd, SlotsOf(f.kids)))} + (CellsKids(f.kids) + CtxCells(c, Child(f.id)))
      ensures f.id in mem && mem[f.id] == NodeOf(f.hd, SlotsOf(f.kids))
    {
      hide CellsKid, Cells, CtxCells, CellsOf, Plug, CtxOk, NodeOf;
      CellsNode(f);
      CellIn(f.id, NodeOf(f.hd, SlotsOf(f.kids)), CellsKids(f.kids) + CtxCells(c, Child(f.id)));
    }

    lemma OpenHole(c: Ctx, fr: Frame, k: Kid)
      requires Open(In(c, fr), k)
      ensures CellsOf(mem) == multiset{(fr.id, HoleNode(fr, SlotOf(k)))} + (Siblings(fr) + CtxCells(c, Child(fr.id)) + CellsKid(k))
    {
    }

    /** Store a value over the inline value in the open slot. */
    method SetInlineValue(p: Addr, i: nat, data: Value, ghost c: Ctx, ghost fr: Frame, ghost v: Value)
      requires Open(In(c, fr), Leaf(v)) && p == fr.id && i == fr.idx < INLINE_SLOTS
      modifies this`mem
      ensures Open(In(c, fr), Leaf(data))
    {
      hide CtxCells, Cells, Plug, HoleNode, CellsOf, KidOk, Siblings;
      OpenHole(c, fr, Leaf(v));
      CtxCellsIn(c, fr, Inline(data));
      FillSlot(p, i, Inline(data), fr, Inline(v), Siblings(fr) + CtxCells(c, Child(p)) + multiset{});
      PlugRoot(In(c, fr), Leaf(v), Leaf(data));
    }

    /** Make the node in hand a key with value `data`. */
    method SetData(h: Addr, data: Value, ghost c: Ctx, ghost f: Tree)
      requires Open(c, Sub(f)) && h == f.id
      modifies this`mem
      ensures Open(c, Sub(WithData(f, data)))
    {
      hide CellsKid, CellsKids, Cells, CtxCells, CellsOf, Plug, CtxOk;
      OpenCells(c, f);
      Write(h, mem[h].(hd := mem[h].hd.SetData(data)), mem[h], CellsKids(f.kids) + CtxCells(c, Child(h)));
      ghost var f' := WithData(f, data);
      CellsNode(f');
      RootedPlug(c, Sub(f), h);
      RootedPlug(c, Sub(f'), h);
    }

    /** Reallocate the node in hand and patch the link to it. */
    method ReallocForData(h: Addr, plink: Link, ghost c: Ctx, ghost f: Tree) returns (newh: Addr)
      requires Open(c, Sub(f)) && h == f.id && plink == LinkOf(c)
      modifies this`mem, this`head
      ensures Open(c, Sub(f.(id := newh)))
    {
      hide CellsKid, CellsKids, Cells, CtxCells, CellsOf, Plug, CtxOk, NodeOf;
      OpenCells(c, f);
      RootedPlug(c, Sub(f), h);
      newh := Realloc(h, mem[h], mem[h], CellsKids(f.kids) + CtxCells(c, Child(h)));
      ghost var f' := f.(id := newh);
      CellsNode(f');
      SetLink(plink, newh, c, h, Cells(f'));
      RootedPlug(c, Sub(f'), newh);
    }

    // ---------- insertion

    method InsertOverInline(s: Bytes, p: Addr, i: nat, data: Value, ghost c: Ctx, ghost f: Tree)
      requires Valid() && At(c, f) && p == f.id
      requires Stops(s, |s|, SlotLink(p, i), 0, true, c, f)
      modifies this
      ensures Valid() && contents == old(contents)[s := data]
      ensures Bare(Sub(tree)) == InsertedAt(c, Sub(f), s[|Path(c)|..], data)
    {
      hide Bare, InsertedAt, CtxCells, Cells, Means, Plug, HoleNode, CellsOf, Siblings, Get, GetKid;
      StopsGet(s, |s|, SlotLink(p, i), 0, true, c, f);
      ghost var v := f.kids[i].value;
      ghost var fr := Frame(f.id, f.hd, f.kids, i);
      FillSelf(f, i);
      OpenAt(c, f);
      OpenKid(c, fr, Leaf(v));
      assert KidOk(f.kids[i], i);
      SetInlineValue(p, i, data, c, fr, v);
      SetKidMeaning(c, fr, v, data, contents);
      assert Path(In(c, fr)) == s;
      LeafOk(data, fr.idx);
      Commit(In(c, fr), Leaf(data), contents[s := data]);
      InsertedOver(c, fr, v, s[|Path(c)|..], data);
    }

    /** The node in hand represents the key: store the value in it. */
    method InsertOnNode(h0: Addr, plink: Link, data: Value, overwrite: bool, ghost c: Ctx, ghost f: Tree)
      returns (inserted: bool, previous: Option<Value>)
      requires Pending(c, Sub(f)) && ShapeOk(f) && h0 == f.id && plink == LinkOf(c)
      modifies this
      ensures Valid() && inserted == !f.hd.iskey
      ensures previous == if f.hd.iskey then Some(f.hd.GetData()) else None
      ensures contents == if inserted || overwrite then old(contents)[Path(c) := data] else old(contents)
      ensures Shaped(Plug(c, Sub(if inserted || overwrite then WithData(f, data) else f)))
    {
      hide CtxCells, Cells, CellsKid, Means, Plug, CellsOf, KidOk, StrictlySorted, Bare, CtxOk;
      OpenCells(c, f);
      var h := h0;
      var hd := mem[h].hd;
      ghost var f0 := f;
      if !hd.iskey || (hd.isnull && overwrite) {
        h := ReallocForData(h, plink, c, f);
        f0 := f.(id := h);
        MoveMeaning(c, f, h, contents);
      }
      previous := if hd.iskey then Some(hd.GetData()) else None;
      inserted := !hd.iskey;
      if inserted || overwrite {
        StoreData(h, data, inserted, c, f0);
        MovedBare(c, WithData(f, data), h);
      } else {
        SubOk(f0, if c.Top? then 0 else c.f.idx);
        Commit(c, Sub(f0), contents);
      }
    }

    method StoreData(h: Addr, data: Value, inserted: bool, ghost c: Ctx, ghost f: Tree)
      requires Pending(c, Sub(f)) && ShapeOk(f) && h == f.id && inserted == !f.hd.iskey
      modifies this
      ensures Valid() && contents == old(contents)[Path(c) := data] && Sub(tree) == Plug(c, Sub(WithData(f, data)))
    {
      hide CellsOf, CtxCells, CellsKid, Cells, CtxOk, Plug, Means, ShapeOk, KidOk;
      KeyAt(c, f, contents);
      if inserted {
        numele := numele + 1;
      }
      SetData(h, data, c, f);
      SetDataMeaning(c, f, data, contents);
      ghost var f' := WithData(f, data);
      assert if c.Top? then ShapeOk(f') else KidOk(Sub(f'), c.f.idx) by {
        WithDataOk(f, data, if c.Top? then 0 else c.f.idx);
      }
      Commit(c, Sub(f'), contents[Path(c) := data]);
    }

    /** Allocate a node with the single edge `bytes` above child `k`. */
    method NewLine(hd: Header, bytes: Bytes, slot: Slot, inlineLeaf: bool, ghost k: Kid, ghost rest: multiset<Cell>)
      returns (a: Addr)
      requires slot == SlotOf(k) && inlineLeaf == slot.Inline?
      requires CellsOf(mem) == rest + CellsKid(k)
      modifies this`mem
      ensures CellsOf(mem) == rest + CellsKid(Sub(Line(a, hd, bytes, k)))
      ensures |mem| == old(|mem|) + 1
    {
      a := Malloc(LineNode(hd, bytes, slot, inlineLeaf));
      LineCells(a, hd, bytes, k);
    }

    /** Link the finished subtree `t` in place of node `f` and free that node. */
    method ReplaceNode(h: Addr, a: Addr, plink: Link, ghost c: Ctx, ghost f: Tree, ghost t: Tree)
      requires CtxOk(c) && plink == LinkOf(c) && h == f.id && a == t.id
      requires SlotOf(Plug(c, Sub(f))) == Child(head)
      requires CellsOf(mem) == CtxCells(c, Child(h)) + multiset{(h, NodeOf(f.hd, SlotsOf(f.kids)))} + Cells(t)
      requires numnodes == |mem| - 1
      modifies this`mem, this`head
      ensures Open(c, Sub(t))
    {
      hide Cells, CtxCells, CellsOf, Plug, CtxOk, NodeOf;
      RootedPlug(c, Sub(f), h);
      ghost var nd := NodeOf(f.hd, SlotsOf(f.kids));
      SetLink(plink, a, c, h, multiset{(h, nd)} + Cells(t));
      Free(h, nd, CtxCells(c, Child(a)) + Cells(t));
      RootedPlug(c, Sub(t), a);
    }

    /** ALGO 1: the key leaves compressed node `h` at byte `j`. Returns the
        split node, to which the missing edge can then be added. */
    method SplitOnMismatch(h: Addr, j: nat, plink: Link, ghost c: Ctx, ghost f: Tree)
      returns (a: Addr, top: Addr, ghost postfix: Addr)
      requires Open(c, Sub(f)) && ShapeOk(f) && SingleKid(f) && j < |f.hd.bytes| && h == f.id && plink == LinkOf(c)
      modifies this`mem, this`head, this`numnodes
      ensures Open(c, Sub(Split(f, j, top, a, postfix))) && Split(f, j, top, a, postfix).id == top
    {
      hide Cells, CellsKids, CtxCells, CellsOf, Plug, CtxOk, ShapeOk;
      OpenCells(c, f);
      var nd := mem[h];
      var slot, inlineLeaf := nd.slots[0], nd.leafbitmap[0];
      SingleCells(f.kids);
      ghost var rest := CtxCells(c, Child(h)) + multiset{(h, nd)};
      assert CellsOf(mem) == rest + CellsKid(f.kids[0]);
      postfix := 0;
      if j + 1 < |nd.hd.bytes| {
        var p := NewLine(PlainHeader(), nd.hd.bytes[j + 1..], slot, inlineLeaf, f.kids[0], rest);
        numnodes := numnodes + 1;
        slot, inlineLeaf, postfix := Child(p), false, p;
      }
      a := NewLine(if j == 0 then KeyOnly(nd.hd) else PlainHeader(), nd.hd.bytes[j..j + 1], slot, inlineLeaf,
                   Postfix(f, j, postfix), rest);
      top := a;
      if j != 0 {
        top := NewLine(nd.hd, nd.hd.bytes[..j], Child(a), false, Sub(SplitNode(f, j, a, postfix)), rest);
        numnodes := numnodes + 1;
      }
      ReplaceNode(h, top, plink, c, f, Split(f, j, top, a, postfix));
    }

    /** ALGO 2: the key ends inside compressed node `h`, after `j` bytes. */
    method SplitAtEnd(h: Addr, j: nat, plink: Link, data: Value, ghost c: Ctx, ghost f: Tree)
      returns (top: Addr, ghost postfix: Addr)
      requires Open(c, Sub(f)) && SingleKid(f) && j < |f.hd.bytes| && h == f.id && plink == LinkOf(c)
      modifies this`mem, this`head, this`numnodes
      ensures Open(c, Sub(SplitAtKey(f, j, top, postfix, data)))
    {
      hide Cells, CellsKids, CtxCells, CellsOf, Plug, CtxOk;
      OpenCells(c, f);
      var nd := mem[h];
      SingleCells(f.kids);
      ghost var rest := CtxCells(c, Child(h)) + multiset{(h, nd)};
      assert CellsOf(mem) == rest + CellsKid(f.kids[0]);
      var p := NewLine(PlainHeader().SetData(data), nd.hd.bytes[j..], nd.slots[0], nd.leafbitmap[0], f.kids[0], rest);
      numnodes := numnodes + 1;
      postfix := p;
      ghost var post := Line(p, PlainHeader().SetData(data), f.hd.bytes[j..], f.kids[0]);
      top := NewLine(KeyOnly(nd.hd), nd.hd.bytes[..j], Child(p), false, Sub(post), rest);
      ReplaceNode(h, top, plink, c, f, SplitAtKey(f, j, top, postfix, data));
    }

    // ---------- growing the tree below the node in hand

    /** The head is right once a node at `a` fills the hole of `c`. */
    ghost predicate Rooted(c: Ctx, a: Addr)
      requires CtxOk(c)
      reads this
    {
      if c.Top? then head == a else SlotOf(Plug(c, Leaf(Null))) == Child(head)
    }

    lemma RootedPlug(c: Ctx, k: Kid, a: Addr)
      requires CtxOk(c) && SlotOf(k) == Child(a)
      ensures Rooted(c, a) <==> SlotOf(Plug(c, k)) == Child(head)
    {
      PlugRoot(c, k, Leaf(Null));
    }

    /** The node of frame `fr` is in place below `c`, its slot still unset, and
        `extra` is not linked yet. */
    ghost predicate Unfilled(c: Ctx, fr: Frame, extra: multiset<Cell>)
      reads this
    {
      && CtxOk(In(c, fr))
      && Rooted(c, fr.id)
      && CellsOf(mem) == multiset{(fr.id, HoleNode(fr, Unset))} + (Siblings(fr) + CtxCells(c, Child(fr.id)) + extra)
    }

    static lemma CtxOkIn(c: Ctx, fr: Frame)
      requires CtxOk(c) && FrameOk(fr)
      ensures CtxOk(In(c, fr))
    {
    }

    /** Fill the unset slot with a value or with the node in `extra`. */
    method FillUnset(h: Addr, i: nat, slot: Slot, ghost c: Ctx, ghost fr: Frame, ghost k: Kid)
      requires Unfilled(c, fr, CellsKid(k)) && slot == SlotOf(k) && h == fr.id && i == fr.idx
      requires slot.Inline? ==> i < INLINE_SLOTS
      requires numnodes == |mem|
      modifies this`mem
      ensures Open(In(c, fr), k)
    {
      hide CellsKid, CellsKids, Cells, CtxCells, CellsOf, Plug, HoleNode, Siblings;
      FillSlot(h, i, slot, fr, Unset, Siblings(fr) + CtxCells(c, Child(fr.id)) + CellsKid(k));
      CtxCellsIn(c, fr, slot);
      PlugIn(c, fr, k);
      RootedPlug(c, Sub(Fill(fr, k)), fr.id);
    }

    method CompressNode(h: Addr, bytes: Bytes, plink: Link, ghost c: Ctx, ghost f: Tree, ghost extra: multiset<Cell>)
      returns (newh: Addr)
      requires CtxOk(c) && Rooted(c, h) && CellsOf(mem) == Cells(f) + (CtxCells(c, Child(h)) + extra)
      requires f.kids == [] && h == f.id && plink == LinkOf(c) && 1 < |bytes| <= NODE_MAX_SIZE
      modifies this`mem, this`head
      ensures Unfilled(c, LineFrame(newh, f.hd, bytes), extra) && |mem| == old(|mem|)
    {
      hide Cells, CtxCells, CellsOf, Plug, CtxOk, FrameOk;
      ghost var nd0 := NodeOf(f.hd, []);
      ghost var rest := CtxCells(c, Child(h)) + extra;
      LeafCells(f);
      CellIn(h, nd0, rest);
      var nd := mem[h];
      var nd' := Node(nd.hd.(iscompr := true, bytes := bytes), nd.leafbitmap, [Unset]);
      newh := Realloc(h, nd', nd, rest);
      SetLink(plink, newh, c, h, multiset{(newh, nd')} + extra);
      ghost var fr := LineFrame(newh, f.hd, bytes);
      FillLine(newh, f.hd, bytes, Leaf(Null));
      CtxOkIn(c, fr);
      assert HoleNode(fr, Unset) == nd' by {
        assert HoleNode(fr, Unset).slots == nd'.slots;
        assert HoleNode(fr, Unset).leafbitmap == nd'.leafbitmap;
      }
    }

    static lemma LeafCells(f: Tree)
      requires f.kids == []
      ensures Cells(f) == multiset{(f.id, NodeOf(f.hd, []))}
    {
      assert SlotsOf(f.kids) == [];
    }

    method AddEdgeSlot(h: Addr, b: Byte, plink: Link, ghost c: Ctx, ghost f: Tree, ghost extra: multiset<Cell>)
      returns (newh: Addr, pos: nat, ghost spill: Addr)
      requires CtxOk(c) && Rooted(c, h) && CellsOf(mem) == Cells(f) + (CtxCells(c, Child(h)) + extra)
      requires ShapeOk(f) && !f.hd.iscompr && IndexOf(f.hd.bytes, b) == |f.hd.bytes| && h == f.id && plink == LinkOf(c)
      modifies this`mem, this`head, this`numnodes
      ensures IsPos(f.hd.bytes, b, pos) && Unfilled(c, AddEdge(f, newh, b, pos, spill), extra)
      ensures numnodes - |mem| == old(numnodes - |mem|)
    {
      hide Cells, CellsKids, CtxCells, CellsOf, Plug, WithSlot, NodeSpill, Siblings, HoleNode, AddEdge, KidOk, StrictlySorted, CtxOk, NodeOf;
      ghost var nd := NodeOf(f.hd, SlotsOf(f.kids));
      CellsNode(f);
      NodeIs(f);
      ghost var rest := CellsKids(f.kids) + (CtxCells(c, Child(h)) + extra);
      AssocCells(multiset{(h, nd)}, CellsKids(f.kids), CtxCells(c, Child(h)) + extra);
      newh, pos, spill := AddChildNoAlloc(h, b, nd, rest);
      AddEdgeFrame(f, newh, b, pos, spill);
      AddEdgeOk(f, newh, b, pos, spill);
      ghost var fr := AddEdge(f, newh, b, pos, spill);
      CtxOkIn(c, fr);
      LiftCells(multiset{(newh, WithSlot(nd, b, pos, spill))}, CellsKids(f.kids), CtxCells(c, Child(h)), extra, NodeSpill(nd, pos, spill));
      SetLink(plink, newh, c, h, FrameCells(fr, Unset) + extra);
      LowerCells(multiset{(fr.id, HoleNode(fr, Unset))}, Siblings(fr), CtxCells(c, Child(newh)), extra);
    }

    static lemma NodeIs(f: Tree)
      requires ShapeOk(f) && !f.hd.iscompr
      ensures var nd := NodeOf(f.hd, SlotsOf(f.kids));
              nd.hd == f.hd && |nd.slots| == |f.kids| == |f.hd.bytes| && nd.leafbitmap == BitmapOf(nd.slots)
    {
      hide KidOk, StrictlySorted;
    }

    /** The walk of an insertion has reached node `h`, which lacks the next edge
        of the key (or is the fresh node for the key, not yet a key itself). */
    ghost predicate Growing(s: Bytes, i: nat, h: Addr, plink: Link, c: Ctx, f: Tree)
      reads this
    {
      && Pending(c, Sub(f)) && ShapeOk(f) && !f.hd.iscompr
      && h == f.id && plink == LinkOf(c)
      && i <= |s| && Path(c) == s[..i] && s !in contents
      && (if i < |s| then IndexOf(f.hd.bytes, s[i]) == |f.hd.bytes| else !f.hd.iskey)
    }

    lemma GrowingCells(s: Bytes, i: nat, h: Addr, plink: Link, c: Ctx, f: Tree)
      requires Growing(s, i, h, plink, c, f)
      ensures CtxOk(c) && Rooted(c, h) && CellsOf(mem) == Cells(f) + (CtxCells(c, Child(h)) + multiset{})
      ensures h in mem && mem[h] == NodeOf(f.hd, SlotsOf(f.kids)) && h == f.id
      ensures i <= |s| && (mem[h].hd.Size() == 0 <==> f.kids == [])
    {
      OpenCells(c, f);
      RootedPlug(c, Sub(f), h);
    }

    lemma GrowingMeans(s: Bytes, i: nat, h: Addr, plink: Link, c: Ctx, f: Tree)
      requires Growing(s, i, h, plink, c, f)
      ensures CtxOk(c) && ShapeOk(f) && !f.hd.iscompr && Means(Plug(c, Sub(f)), contents)
      ensures h == f.id && plink == LinkOf(c) && numele == |contents| && numnodes == |mem|
      ensures i <= |s| && Path(c) == s[..i] && s !in contents
      ensures i < |s| ==> IndexOf(f.hd.bytes, s[i]) == |f.hd.bytes|
    {
      hide CtxCells, CellsOf, CellsKid, Plug, Means, KidOk, StrictlySorted, Path;
    }

    /** The new node at the end of the context is where the key grows on. */
    lemma GrowingOn(s: Bytes, k: nat, child: Addr, plink: Link, c: Ctx)
      requires Open(c, Sub(EmptyTree(child))) && Means(Plug(c, Sub(EmptyTree(child))), contents)
      requires numele == |contents| && plink == LinkOf(c) && k <= |s| && Path(c) == s[..k] && s !in contents
      ensures Growing(s, k, child, plink, c, EmptyTree(child))
    {
      hide CtxCells, CellsOf, CellsKid, Plug, Means, Path, Open;
      EmptyCells(child);
    }

    lemma GrowingFits(s: Bytes, i: nat, h: Addr, plink: Link, c: Ctx, f: Tree)
      requires Growing(s, i, h, plink, c, f)
      ensures i <= |s| && CtxOk(c) && ShapeOk(f) && !f.hd.iscompr && |f.kids| == |f.hd.bytes|
    {
      hide CtxCells, CellsOf, Plug, Means, KidOk, StrictlySorted;
    }

    lemma GrowingEnd(s: Bytes, i: nat, h: Addr, plink: Link, c: Ctx, f: Tree)
      requires Growing(s, i, h, plink, c, f) && i == |s|
      ensures Pending(c, Sub(f)) && ShapeOk(f) && h == f.id && plink == LinkOf(c) && !f.hd.iskey
      ensures Path(c) == s
    {
    }

    /** The tree is what growing `f` below `c` by the rest `u` of the key gives. */
    ghost predicate Grown(c: Ctx, f: Tree, u: Bytes, data: Value)
      reads this
    {
      CtxOk(c) && |f.kids| == |f.hd.bytes| && Bare(Sub(tree)) == GrownTo(c, f, u, data)
    }

    /** The rest of the key becomes one compressed edge ending in the value. */
    method GrowCompressedValue(s: Bytes, i: nat, h: Addr, plink: Link, data: Value, ghost c: Ctx, ghost f: Tree)
      requires Growing(s, i, h, plink, c, f) && f.kids == [] && i + 1 < |s| <= i + NODE_MAX_SIZE
      modifies this
      ensures Valid() && contents == old(contents)[s := data]
      ensures Grown(c, f, s[i..], data)
    {
      hide Bare, CtxCells, Cells, Means, Plug, HoleNode, CellsOf, KidOk, Path, NodeOf;
      GrowingCells(s, i, h, plink, c, f);
      numele := numele + 1;
      var newh := CompressNode(h, s[i..], plink, c, f, multiset{});
      ghost var fr := LineFrame(newh, f.hd, s[i..]);
      GrowLine(c, f, newh, s[i..], Leaf(data), contents);
      SplitAll(s, i, |s|);
      FillUnset(newh, 0, Inline(data), c, fr, Leaf(data));
      LeafOk(data, fr.idx);
      Commit(In(c, fr), Leaf(data), contents[s := data]);
      GrownLine(c, f, newh, s[i..], data);
    }

    /** The last byte of the key becomes an edge whose slot holds the value. */
    method GrowInlineValue(s: Bytes, i: nat, h: Addr, plink: Link, data: Value, ghost c: Ctx, ghost f: Tree, ghost p: nat)
      requires Growing(s, i, h, plink, c, f) && i + 1 == |s|
      requires IsPos(f.hd.bytes, s[i], p) && p < INLINE_SLOTS
      modifies this
      ensures Valid() && contents == old(contents)[s := data]
      ensures Grown(c, f, s[i..], data)
    {
      hide Bare, CtxCells, Cells, Means, Plug, HoleNode, CellsOf, KidOk, StrictlySorted, Siblings, IsPos, FrameOk, Path, IndexOf, NodeOf;
      GrowingCells(s, i, h, plink, c, f);
      numele := numele + 1;
      var newh, pos, spill := AddEdgeSlot(h, s[i], plink, c, f, multiset{});
      PosUnique(f.hd.bytes, s[i], p, pos);
      ghost var fr := AddEdge(f, newh, s[i], pos, spill);
      GrowEdge(c, f, newh, s[i], pos, spill, Leaf(data), contents);
      SplitLast(s, i);
      FillUnset(newh, pos, Inline(data), c, fr, Leaf(data));
      LeafOk(data, fr.idx);
      Commit(In(c, fr), Leaf(data), contents[s := data]);
      GrownInline(c, f, newh, pos, spill, s[i..], data);
    }

    /** A maximal stretch of the key becomes a compressed edge to a new node. */
    method GrowCompressedNode(s: Bytes, i: nat, h: Addr, plink: Link, ghost c: Ctx, ghost f: Tree)
      returns (newh: Addr, child: Addr)
      requires Growing(s, i, h, plink, c, f) && f.kids == [] && i + NODE_MAX_SIZE < |s|
      modifies this`mem, this`head, this`numnodes
      ensures var k := i + NODE_MAX_SIZE;
              Growing(s, k, child, SlotLink(newh, 0), In(c, LineFrame(newh, f.hd, s[i..k])), EmptyTree(child))
    {
      hide Growing, CtxCells, Cells, CellsKid, Means, Plug, HoleNode, CellsOf, KidOk, StrictlySorted, Siblings, FrameOk, Path, NodeOf, Open;
      GrowingCells(s, i, h, plink, c, f);
      GrowingMeans(s, i, h, plink, c, f);
      var k := i + NODE_MAX_SIZE;
      child := Malloc(EmptyNode());
      EmptyCells(child);
      newh := CompressNode(h, s[i..k], plink, c, f, CellsKid(Sub(EmptyTree(child))));
      numnodes := numnodes + 1;
      ghost var fr := LineFrame(newh, f.hd, s[i..k]);
      GrowLine(c, f, newh, s[i..k], Sub(EmptyTree(child)), contents);
      FillUnset(newh, 0, Child(child), c, fr, Sub(EmptyTree(child)));
      SplitAll(s, i, k);
      GrowingOn(s, k, child, SlotLink(newh, 0), In(c, fr));
    }

    /** The next byte of the key becomes an edge to a new node. */
    method GrowNode(s: Bytes, i: nat, h: Addr, plink: Link, ghost c: Ctx, ghost f: Tree)
      returns (newh: Addr, pos: nat, child: Addr, ghost spill: Addr)
      requires Growing(s, i, h, plink, c, f) && i < |s|
      modifies this`mem, this`head, this`numnodes
      ensures pos <= |f.hd.bytes| && pos <= |f.kids| && IsPos(f.hd.bytes, s[i], pos)
      ensures Growing(s, i + 1, child, SlotLink(newh, pos), In(c, AddEdge(f, newh, s[i], pos, spill)), EmptyTree(child))
    {
      hide Growing, CtxCells, Cells, CellsKid, Means, Plug, HoleNode, CellsOf, KidOk, StrictlySorted, Siblings, FrameOk, AddEdge, Path, NodeOf, Open;
      GrowingCells(s, i, h, plink, c, f);
      GrowingMeans(s, i, h, plink, c, f);
      child := Malloc(EmptyNode());
      EmptyCells(child);
      newh, pos, spill := AddEdgeSlot(h, s[i], plink, c, f, CellsKid(Sub(EmptyTree(child))));
      numnodes := numnodes + 1;
      AddEdgeOk(f, newh, s[i], pos, spill);
      ghost var fr := AddEdge(f, newh, s[i], pos, spill);
      GrowEdge(c, f, newh, s[i], pos, spill, Sub(EmptyTree(child)), contents);
      FillUnset(newh, pos, Child(child), c, fr, Sub(EmptyTree(child)));
      SplitLast(s, i);
      GrowingOn(s, i + 1, child, SlotLink(newh, pos), In(c, fr));
    }

    static lemma EmptyCells(id: Addr)
      ensures CellsKid(Sub(EmptyTree(id))) == multiset{(id, EmptyNode())}
      ensures ShapeOk(EmptyTree(id))
    {
      LeafCells(EmptyTree(id));
      assert BitmapOf([]) == NoLeaves();
    }

    /** The loop that inserts the missing edges of the key. */
    method InsertRest(s: Bytes, i0: nat, h0: Addr, plink0: Link, data: Value, ghost c0: Ctx, ghost f0: Tree)
      requires Growing(s, i0, h0, plink0, c0, f0)
      modifies this
      ensures Valid() && contents == old(contents)[s := data]
      ensures Grown(c0, f0, s[i0..], data)
    {
      hide Bare, Plug, Grow, GrownTo, Growing, Pending, ShapeOk, CtxOk, AddEdge, LineFrame, EmptyTree, Cells, CtxCells, CellsOf, LinkOf, Path;
      GrowingCells(s, i0, h0, plink0, c0, f0);
      GrowingFits(s, i0, h0, plink0, c0, f0);
      var i, h, plink := i0, h0, plink0;
      ghost var c, f := c0, f0;
      while i < |s|
        invariant Growing(s, i, h, plink, c, f) && i <= |s| && contents == old(contents)
        invariant GrowsAlike(c, f, s[i..], c0, f0, s[i0..], data)
        decreases |s| - i
      {
        GrowingCells(s, i, h, plink, c, f);
        GrowingFits(s, i, h, plink, c, f);
        var hd := mem[h].hd;
        if hd.Size() == 0 && |s| - i > 1 {
          var comprsize := |s| - i;
          if comprsize > NODE_MAX_SIZE {
            comprsize := NODE_MAX_SIZE;
          }
          if comprsize == |s| - i {
            GrowCompressedValue(s, i, h, plink, data, c, f);
            return;
          }
          var newh, child := GrowCompressedNode(s, i, h, plink, c, f);
          GrowingFits(s, i + comprsize, child, SlotLink(newh, 0), In(c, LineFrame(newh, f.hd, s[i..i + comprsize])), EmptyTree(child));
          GrownBelowLine(c, f, newh, child, s, i, data);
          c, f := In(c, LineFrame(newh, f.hd, s[i..i + comprsize])), EmptyTree(child);
          h, plink, i := child, SlotLink(newh, 0), i + comprsize;
        } else {
          var pos := FindChildPos(hd.bytes, s[i]);
          if |s| - i == 1 && pos < INLINE_SLOTS {
            GrowInlineValue(s, i, h, plink, data, c, f, pos);
            return;
          }
          var newh, at, child, spill := GrowNode(s, i, h, plink, c, f);
          PosUnique(hd.bytes, s[i], pos, at);
          GrowingFits(s, i + 1, child, SlotLink(newh, at), In(c, AddEdge(f, newh, s[i], at, spill)), EmptyTree(child));
          GrownBelowEdge(c, f, newh, at, spill, child, s, i, data);
          c, f := In(c, AddEdge(f, newh, s[i], at, spill)), EmptyTree(child);
          h, plink, i := child, SlotLink(newh, at), i + 1;
        }
      }
      GrowingEnd(s, i, h, plink, c, f);
      GrowingFits(s, i, h, plink, c, f);
      GrownEnd(c, f, s[i..], data);
      var inserted, previous := InsertOnNode(h, plink, data, true, c, f);
    }

    /** Insert or update. Returns whether the key was absent, and its old value. */
    method GenericInsert(s: Bytes, data: Value, overwrite: bool) returns (inserted: bool, previous: Option<Value>)
      requires Valid()
      modifies this
      ensures Valid()
      ensures inserted == (s !in old(contents)) && previous == Lookup(old(contents), s)
      ensures contents == if inserted || overwrite then old(contents)[s := data] else old(contents)
      ensures Bare(Sub(tree)) == Bare(if inserted || overwrite then InsKid(Sub(old(tree)), s, data) else Sub(old(tree)))
    {
      hide Bare, InsKid, InsertedAt, GrownTo;
      var i, h, plink, j, ts, inlineLeaf, c, f := LowWalk(s);
      StopsGet(s, i, plink, j, inlineLeaf, c, f);
      InsertedHere(c, Sub(f), s, data);
      if i == |s| && inlineLeaf {
        previous := Some(mem[plink.node].slots[plink.idx].value);
        inserted := false;
        if overwrite {
          InsertOverInline(s, plink.node, plink.idx, data, c, f);
        }
        return;
      }
      if inlineLeaf {
        InsertBelowInline(s, i, plink, data, c, f);
        return true, None;
      }
      OpenAt(c, f);
      if i == |s| && (!mem[h].hd.iscompr || j == 0) {
        assert Path(c) == s;
        InsertedEnd(c, f, data);
        assert s[|Path(c)|..] == [];
        inserted, previous := InsertOnNode(h, plink, data, overwrite, c, f);
      } else if mem[h].hd.iscompr {
        if i < |s| {
          InsertAtMismatch(s, i, h, plink, j, data, c, f);
        } else {
          InsertInside(s, h, plink, j, data, c, f);
        }
        return true, None;
      } else {
        assert Path(c) == s[..i] && s[|Path(c)|..] == s[i..];
        InsertedMissing(c, f, s[i..], data);
        InsertRest(s, i, h, plink, data, c, f);
        return true, None;
      }
    }

    /** Move the value in slot `i` of node `f` to a leaf of its own. */
    method UninlineLeaf(p: Addr, i: nat, ghost c: Ctx, ghost fr: Frame, ghost v: Value) returns (leaf: Addr)
      requires Pending(In(c, fr), Leaf(v)) && p == fr.id && i == fr.idx
      modifies this`mem, this`numnodes
      ensures Pending(In(c, fr), Sub(ValueTree(leaf, v)))
    {
      hide CtxCells, Cells, Means, Plug, HoleNode, CellsOf, Siblings, KidOk;
      OpenHole(c, fr, Leaf(v));
      leaf := MaterializeInlineLeaf(p, i, fr, v, Siblings(fr) + CtxCells(c, Child(p)) + multiset{});
      ValueCells(leaf, v);
      CtxCellsIn(c, fr, Child(leaf));
      PlugRoot(In(c, fr), Leaf(v), Sub(ValueTree(leaf, v)));
      ValueMeaning(In(c, fr), leaf, v, contents);
    }

    /** The walk ran into an inline leaf before the key ended: un-inline it. */
    method InsertBelowInline(s: Bytes, i: nat, plink: Link, data: Value, ghost c: Ctx, ghost f: Tree)
      requires Valid() && At(c, f) && Stops(s, i, plink, 0, true, c, f) && i < |s| && s !in contents
      modifies this
      ensures Valid() && contents == old(contents)[s := data]
      ensures Bare(Sub(tree)) == InsertedAt(c, Sub(f), s[|Path(c)|..], data)
    {
      hide Bare, InsertedAt, GrownTo, CtxCells, Cells, Means, Plug, CellsOf, KidOk, Edge, Open;
      ghost var v := f.kids[plink.idx].value;
      ghost var fr := Frame(f.id, f.hd, f.kids, plink.idx);
      FillSelf(f, plink.idx);
      OpenAt(c, f);
      OpenKid(c, fr, Leaf(v));
      var leaf := UninlineLeaf(plink.node, plink.idx, c, fr, v);
      PathIn(c, fr);
      CtxOkIn(c, fr);
      assert s[|Path(c)|..] == Edge(fr.hd, fr.idx) + s[i..];
      InsertedBelow(c, fr, v, leaf, s[|Path(c)|..], s[i..], data);
      InsertRest(s, i, leaf, plink, data, In(c, fr), ValueTree(leaf, v));
    }

    /** The walk stopped inside a compressed node, at a byte that differs. */
    method InsertAtMismatch(s: Bytes, i: nat, h: Addr, plink: Link, j: nat, data: Value, ghost c: Ctx, ghost f: Tree)
      requires Pending(c, Sub(f)) && ShapeOk(f) && h == f.id && f.hd.iscompr
      requires Stops(s, i, plink, j, false, c, f) && i < |s| && s !in contents
      modifies this
      ensures Valid() && contents == old(contents)[s := data]
      ensures Bare(Sub(tree)) == InsertedAt(c, Sub(f), s[|Path(c)|..], data)
    {
      hide Bare, InsertedAt, GrownTo, SplitNode, Split, CtxCells, Cells, Means, Plug, CellsOf, KidOk, StrictlySorted, Open, IndexOf, Path;
      CompressedSingle(f);
      PendingOpen(c, f);
      var a, top, postfix := SplitOnMismatch(h, j, plink, c, f);
      ghost var u := s[|Path(c)|..];
      assert u[..j] == s[|Path(c)|..i] && u[j..] == s[i..] && u[j] == s[i];
      SplitMeaning(c, f, j, top, a, postfix, contents);
      InsertedSplit(c, f, j, top, a, postfix, u, data);
      ghost var c1 := SplitGrowing(s, i, plink, j, a, top, postfix, c, f);
      InsertRest(s, i, a, if j == 0 then plink else SlotLink(top, 0), data, c1, SplitNode(f, j, a, postfix));
    }

    static lemma CompressedSingle(f: Tree)
      requires ShapeOk(f) && f.hd.iscompr
      ensures SingleKid(f) && f.kids != []
    {
      hide KidOk;
    }

    lemma PendingOpen(c: Ctx, f: Tree)
      requires Pending(c, Sub(f))
      ensures Open(c, Sub(f)) && Means(Plug(c, Sub(f)), contents) && numele == |contents| && CtxOk(c)
    {
      hide Means, Plug, CellsOf, CtxCells, CellsKid;
    }

    /** The node that a split left for byte `j` is where the key grows on. */
    lemma SplitGrowing(s: Bytes, i: nat, plink: Link, j: nat, a: Addr, top: Addr, postfix: Addr, c: Ctx, f: Tree)
      returns (c1: Ctx)
      requires ShapeOk(f) && f.hd.iscompr && f.kids != [] && j < |f.hd.bytes|
      requires Stops(s, i, plink, j, false, c, f) && i < |s| && s !in contents
      requires Pending(c, Sub(Split(f, j, top, a, postfix)))
      ensures c1 == if j == 0 then c else In(c, LineFrame(top, f.hd, f.hd.bytes[..j]))
      ensures Growing(s, i, a, if j == 0 then plink else SlotLink(top, 0), c1, SplitNode(f, j, a, postfix))
    {
      hide Pending, SplitNode, KidOk, Means, Plug, CtxCells, CellsOf, StrictlySorted;
      var sn := SplitNode(f, j, a, postfix);
      CompressedSingle(f);
      SplitOk(f, j, top, a, postfix);
      SplitNodeIs(f, j, a, postfix, s[i]);
      if j == 0 {
        c1 := c;
      } else {
        var fr := LineFrame(top, f.hd, f.hd.bytes[..j]);
        FillLine(top, f.hd, f.hd.bytes[..j], Sub(sn));
        PendingOpen(c, Split(f, j, top, a, postfix));
        OpenKid(c, fr, Sub(sn));
        assert Path(In(c, fr)) == s[..i];
        c1 := In(c, fr);
      }
    }

    static lemma SplitNodeIs(f: Tree, j: nat, id: Addr, postfix: Addr, b: Byte)
      requires f.kids != [] && j < |f.hd.bytes|
      ensures var t := SplitNode(f, j, id, postfix);
              && t.id == id && !t.hd.iscompr && t.hd.bytes == [f.hd.bytes[j]]
              && (b != f.hd.bytes[j] ==> IndexOf(t.hd.bytes, b) == |t.hd.bytes|)
    {
      assert f.hd.bytes[j..j + 1] == [f.hd.bytes[j]];
    }

    /** The key ends inside a compressed node: split it there. */
    method InsertInside(s: Bytes, h: Addr, plink: Link, j: nat, data: Value, ghost c: Ctx, ghost f: Tree)
      requires Pending(c, Sub(f)) && ShapeOk(f) && h == f.id && f.hd.iscompr
      requires Stops(s, |s|, plink, j, false, c, f) && j > 0 && s !in contents
      modifies this
      ensures Valid() && contents == old(contents)[s := data]
      ensures Bare(Sub(tree)) == InsertedAt(c, Sub(f), s[|Path(c)|..], data)
    {
      hide Bare, InsertedAt, SplitAtKey, CtxCells, Cells, CellsKid, Means, Plug, CellsOf, KidOk, StrictlySorted, Path;
      CompressedSingle(f);
      PendingOpen(c, f);
      numele := numele + 1;
      var top, postfix := SplitAtEnd(h, j, plink, data, c, f);
      assert s[|Path(c)|..] == f.hd.bytes[..j] && Path(c) + f.hd.bytes[..j] == s;
      SplitAtKeyMeaning(c, f, j, top, postfix, data, contents);
      SplitAtKeyOk(f, j, top, postfix, data);
      SubOk(SplitAtKey(f, j, top, postfix, data), if c.Top? then 0 else c.f.idx);
      InsertedInside(c, f, j, top, postfix, s[|Path(c)|..], data);
      Commit(c, Sub(SplitAtKey(f, j, top, postfix, data)), contents[s := data]);
    }

    /** An empty tree: one head node without children, which is no key. */
    constructor ()
      ensures Valid() && contents == map[] && numele == 0 && numnodes == 1
      ensures Bare(Sub(tree)) == Bare(Sub(EmptyTree(0)))
    {
      numele, numnodes := 0, 1;
      head := 1;
      mem := map[1 := EmptyNode()];
      tree := EmptyTree(1);
      contents := map[];
      new;
      EmptyCells(1);
      CellsOfAdd(map[], 1, EmptyNode());
      forall s ensures GetKid(Sub(tree), s) == None {
        EmptyMeans(1, s);
      }
    }

    method Insert(s: Bytes, data: Value) returns (inserted: bool, previous: Option<Value>)
      requires Valid()
      modifies this
      ensures Valid() && contents == old(contents)[s := data]
      ensures inserted == (s !in old(contents)) && previous == Lookup(old(contents), s)
      ensures Bare(Sub(tree)) == Bare(InsKid(Sub(old(tree)), s, data))
    {
      inserted, previous := GenericInsert(s, data, true);
    }

    method TryInsert(s: Bytes, data: Value) returns (inserted: bool, previous: Option<Value>)
      requires Valid()
      modifies this
      ensures Valid() && contents == if inserted then old(contents)[s := data] else old(contents)
      ensures inserted == (s !in old(contents)) && previous == Lookup(old(contents), s)
    {
      inserted, previous := GenericInsert(s, data, false);
    }

    // ---------- removal

    static ghost predicate OnlyAt(slots: seq<Slot>, a: Addr, i: nat) {
      i < |slots| && forall k :: 0 <= k < |slots| ==> (slots[k] == Child(a) <==> k == i)
    }

    /** The slot of `p` that points to `child`. */
    method FindParentLink(p: Addr, child: Addr, ghost at: nat) returns (i: nat)
      requires p in mem && OnlyAt(mem[p].slots, child, at)
      ensures i == at
    {
      i := 0;
      while mem[p].slots[i] != Child(child)
        invariant i <= at
        decreases at - i
      {
        i := i + 1;
      }
    }

    /** Siblings of the hole are at addresses other than `a`. */
    lemma OnlyAtHole(fr: Frame, a: Addr, rest: multiset<Cell>)
      requires fr.idx < |fr.kids| && a !in mem
      requires CellsOf(mem) == Siblings(fr) + rest
      ensures OnlyAt(HoleNode(fr, Child(a)).slots, a, fr.idx)
    {
      var slots := HoleNode(fr, Child(a)).slots;
      forall k | 0 <= k < |slots| && k != fr.idx ensures slots[k] != Child(a) {
        if fr.kids[k].Sub? {
          SiblingCell(fr, k);
          var t := fr.kids[k].tree;
          var nd := NodeOf(t.hd, SlotsOf(t.kids));
          assert (t.id, nd) in CellsOf(mem);
          CellsOfAt(mem, t.id, nd);
        }
      }
    }

    static lemma SiblingCell(fr: Frame, k: nat)
      requires fr.idx < |fr.kids| && k < |fr.kids| && k != fr.idx && fr.kids[k].Sub?
      ensures var t := fr.kids[k].tree; (t.id, NodeOf(t.hd, SlotsOf(t.kids))) in Siblings(fr)
    {
      var t := fr.kids[k].tree;
      CellsNode(t);
      if k < fr.idx {
        CellsKidsAt(fr.kids[..fr.idx], k);
      } else {
        CellsKidsAt(fr.kids[fr.idx + 1..], k - fr.idx - 1);
      }
    }

    /** Two different cells are at different addresses. */
    lemma Apart(a: Addr, nd: Node, b: Addr, nd': Node, rest: multiset<Cell>)
      requires CellsOf(mem) == multiset{(a, nd)} + rest && (b, nd') in rest
      ensures a != b
    {
      hide CellsOf;
      if a == b {
        assert (a, nd) in CellsOf(mem) && (b, nd') in CellsOf(mem);
        CellsOfAt(mem, a, nd);
        CellsOfAt(mem, b, nd');
        CellsOfOnce(mem, (a, nd));
      }
    }

    /** In a valid tree no two slots of a node point to the same child. */
    lemma OnlyAtLive(c: Ctx, fr: Frame, t: Tree)
      requires Valid() && CtxOk(In(c, fr)) && Plug(In(c, fr), Sub(t)) == Sub(tree)
      ensures OnlyAt(SlotsOf(Fill(fr, Sub(t)).kids), t.id, fr.idx)
    {
      hide CellsOf, CtxCells, Siblings, Cells, CellsKids, Means, KidOk, NodeOf, Plug;
      var slots, nd := SlotsOf(Fill(fr, Sub(t)).kids), NodeOf(t.hd, SlotsOf(t.kids));
      ValidCells(In(c, fr), t);
      CtxCellsIn(c, fr, Child(t.id));
      CellsNode(t);
      ghost var others := multiset{(fr.id, HoleNode(fr, Child(t.id)))} + CtxCells(c, Child(fr.id)) + CellsKids(t.kids);
      assert CellsOf(mem) == multiset{(t.id, nd)} + (Siblings(fr) + others);
      forall i | 0 <= i < |slots| && i != fr.idx ensures slots[i] != Child(t.id) {
        if fr.kids[i].Sub? {
          SiblingCell(fr, i);
          var t' := fr.kids[i].tree;
          Apart(t.id, nd, t'.id, NodeOf(t'.hd, SlotsOf(t'.kids)), Siblings(fr) + others);
        }
      }
    }

    /** Remove the child in slot `i` of node `p`. */
    method RemoveChildAtPtr(p: Addr, i: nat, ghost fr: Frame, ghost slot: Slot, ghost rest: multiset<Cell>)
      requires FrameOk(fr) && p == fr.id && i == fr.idx && (slot.Inline? ==> i < INLINE_SLOTS)
      requires CellsOf(mem) == multiset{(p, HoleNode(fr, slot))} + (Siblings(fr) + rest)
      modifies this`mem
      ensures CellsOf(mem) == Cells(DropKid(fr)) + rest && |mem| == old(|mem|)
    {
      hide CellsOf, Cells, CellsKids, DropKid, KidOk;
      CellIn(p, HoleNode(fr, slot), Siblings(fr) + rest);
      var nd := mem[p];
      var nd' := nd;
      if nd.hd.iscompr {
        nd' := Node(DropHeader(nd.hd, i), NoLeaves(), []);
      } else {
        var bm := nd.leafbitmap;
        if true in bm && i < INLINE_SLOTS {
          bm := ShiftDown(bm, i);
        }
        nd' := Node(DropHeader(nd.hd, i), bm, nd.slots[..i] + nd.slots[i + 1..]);
      }
      Write(p, nd', HoleNode(fr, slot), Siblings(fr) + rest);
      DropKidCells(fr, slot, nd');
    }

    static lemma DropKidCells(fr: Frame, slot: Slot, nd': Node)
      requires FrameOk(fr) && (slot.Inline? ==> fr.idx < INLINE_SLOTS)
      requires nd'.hd == DropHeader(fr.hd, fr.idx)
      requires var nd := HoleNode(fr, slot);
               if fr.hd.iscompr then nd'.slots == [] && nd'.leafbitmap == NoLeaves()
               else nd'.slots == Without(nd.slots, fr.idx)
                    && nd'.leafbitmap == if true in nd.leafbitmap && fr.idx < INLINE_SLOTS
                                         then ShiftDown(nd.leafbitmap, fr.idx) else nd.leafbitmap
      ensures Cells(DropKid(fr)) == multiset{(fr.id, nd')} + Siblings(fr)
    {
      hide CellsOf, CellsKids, ShiftDown;
      var t, nd := DropKid(fr), HoleNode(fr, slot);
      CellsNode(t);
      DropNode(fr, slot, nd');
      if fr.hd.iscompr {
        assert fr.kids[..fr.idx] == [] && fr.kids[fr.idx + 1..] == [];
        NoCells();
      } else {
        CellsKidsConcat(fr.kids[..fr.idx], fr.kids[fr.idx + 1..]);
      }
    }

    static lemma NoCells()
      ensures CellsKids([]) == multiset{}
    {
    }

    static lemma DropNode(fr: Frame, slot: Slot, nd': Node)
      requires FrameOk(fr) && (slot.Inline? ==> fr.idx < INLINE_SLOTS)
      requires nd'.hd == DropHeader(fr.hd, fr.idx)
      requires var nd := HoleNode(fr, slot);
               if fr.hd.iscompr then nd'.slots == [] && nd'.leafbitmap == NoLeaves()
               else nd'.slots == Without(nd.slots, fr.idx)
                    && nd'.leafbitmap == if true in nd.leafbitmap && fr.idx < INLINE_SLOTS
                                         then ShiftDown(nd.leafbitmap, fr.idx) else nd.leafbitmap
      ensures nd' == NodeOf(DropKid(fr).hd, SlotsOf(DropKid(fr).kids))
    {
      hide CellsKids, ShiftDown;
      var t, nd := DropKid(fr), HoleNode(fr, slot);
      if fr.hd.iscompr {
        assert SlotsOf(t.kids) == [];
        assert BitmapOf([]) == NoLeaves();
      } else {
        forall i | INLINE_SLOTS <= i < |nd.slots| ensures !nd.slots[i].Inline? {
          assert i != fr.idx ==> KidOk(fr.kids[i], i);
        }
        BitmapRemove(nd.slots, fr.idx);
        assert SlotsOf(t.kids) == nd'.slots;
      }
    }

    /** The node at `h` roots a branch without keys; whatever was below it has
        been freed already. */
    ghost predicate Dangling(c: Ctx, h: Addr, nd: Node, m: map<Bytes, Value>)
      reads this
    {
      && CtxOk(c) && Rooted(c, h) && numnodes == |mem|
      && CellsOf(mem) == multiset{(h, nd)} + CtxCells(c, Child(h))
      && Means(Plug(c, Sub(EmptyTree(h))), m)
    }

    /** The freed node `child` is still linked from frame `fr`. */
    ghost predicate Cut(up: Ctx, fr: Frame, child: Addr, m: map<Bytes, Value>)
      reads this
    {
      && CtxOk(In(up, fr)) && Rooted(up, fr.id) && numnodes == |mem| && child !in mem
      && CellsOf(mem) == multiset{(fr.id, HoleNode(fr, Child(child)))} + (Siblings(fr) + CtxCells(up, Child(fr.id)))
      && Means(Plug(In(up, fr), Sub(EmptyTree(child))), m)
    }

    lemma CutIsDangling(up: Ctx, fr: Frame, child: Addr, m: map<Bytes, Value>)
      requires Cut(up, fr, child, m) && !fr.hd.iskey && |fr.kids| == 1
      ensures Dangling(up, fr.id, HoleNode(fr, Child(child)), m)
    {
      hide CellsOf, CtxCells, Means, KidOk;
      var k := Sub(EmptyTree(child));
      PlugIn(up, fr, k);
      EmptyDead(child);
      EmptyDead(fr.id);
      DeadLine(fr, k);
      DeadMeaning(up, Sub(Fill(fr, k)), Sub(EmptyTree(fr.id)), m);
      assert Siblings(fr) == multiset{};
    }

    /** Free the dead node `h`; its parent keeps a pointer to it for now. */
    method FreeDead(h: Addr, ghost up: Ctx, ghost fr: Frame, ghost nd: Node, ghost m: map<Bytes, Value>)
      requires Dangling(In(up, fr), h, nd, m)
      modifies this`mem, this`numnodes
      ensures Cut(up, fr, h, m)
      ensures FrameOk(fr) && fr.id in mem && mem[fr.id].hd == fr.hd
    {
      hide CellsOf, CtxCells, Means, KidOk, Siblings, SlotsOf, BitmapOf, Plug;
      CtxCellsIn(up, fr, Child(h));
      FillSlotOf(fr, Leaf(Null));
      PlugIn(up, fr, Leaf(Null));
      RootedPlug(up, Sub(Fill(fr, Leaf(Null))), fr.id);
      Free(h, nd, CtxCells(In(up, fr), Child(h)));
      numnodes := numnodes - 1;
      CellIn(fr.id, HoleNode(fr, Child(h)), Siblings(fr) + CtxCells(up, Child(fr.id)));
    }

    /** Nothing below the head shares its address. */
    lemma HeadIsTop(c: Ctx, h: Addr, nd: Node, rest: multiset<Cell>)
      requires CtxOk(c) && Rooted(c, h) && h == head
      requires CellsOf(mem) == multiset{(h, nd)} + CtxCells(c, Child(h)) + rest
      ensures c.Top?
    {
      hide CellsOf, CtxCells;
      if c.In? {
        var nd0 := RootCell(c, Child(h));
        PlugRoot(c, Leaf(Null), Leaf(Null));
        assert (h, nd0) in CtxCells(c, Child(h)) && (h, nd0) in CellsOf(mem) && (h, nd) in CellsOf(mem);
        CellsOfAt(mem, h, nd0);
        CellsOfAt(mem, h, nd);
        CellsOfOnce(mem, (h, nd));
      }
    }

    static lemma {:induction false} RootCell(c: Ctx, slot: Slot) returns (nd: Node)
      requires CtxOk(c) && c.In?
      ensures Plug(c, Leaf(Null)).Sub? && (Plug(c, Leaf(Null)).tree.id, nd) in CtxCells(c, slot)
      decreases c
    {
      hide KidOk, FrameOk;
      CtxCellsIn(c.up, c.f, slot);
      PlugIn(c.up, c.f, Leaf(Null));
      if c.up.Top? {
        nd := HoleNode(c.f, slot);
      } else {
        nd := RootCell(c.up, Child(c.f.id));
        PlugRoot(c.up, Leaf(Null), Sub(Fill(c.f, Leaf(Null))));
      }
    }

    /** Unlink the freed `child` from the node of frame `fr`. */
    method RemoveChild(h: Addr, child: Addr, ghost up: Ctx, ghost fr: Frame, ghost m: map<Bytes, Value>)
      requires Cut(up, fr, child, m) && h == fr.id
      modifies this`mem
      ensures Open(up, Sub(DropKid(fr))) && Means(Plug(up, Sub(DropKid(fr))), m)
    {
      hide CellsOf, CtxCells, Means, KidOk, Siblings, Cells, DropKid;
      ghost var rest := CtxCells(up, Child(h));
      CellIn(h, HoleNode(fr, Child(child)), Siblings(fr) + rest);
      OnlyAtHole(fr, child, multiset{(h, HoleNode(fr, Child(child)))} + rest);
      var i := FindParentLink(h, child, fr.idx);
      RemoveChildAtPtr(h, i, fr, Child(child), rest);
      DropKidOk(fr);
      RootedPlug(up, Sub(DropKid(fr)), h);
      EmptyDead(child);
      DropDeadMeaning(up, fr, Sub(EmptyTree(child)), m);
    }

    /** What holds after a deletion and before recompression: the tree is open at
        node `h` and means `m`, in good shape. */
    ghost predicate Reduced(h: Addr, ts: seq<Addr>, c: Ctx, f: Tree, m: map<Bytes, Value>)
      reads this
    {
      && Open(c, Sub(f)) && Means(Plug(c, Sub(f)), m)
      && ShapeOk(f) && (c.In? ==> Live(f))
      && h == f.id && ts == StackOf(c)
    }

    /** Free the useless node `h0` and every ancestor that only led to it, then
        unlink the branch from the first node that stays. */
    method RemoveCleanup(h0: Addr, ts0: seq<Addr>, ghost c0: Ctx, ghost f0: Tree, ghost m: map<Bytes, Value>)
      returns (h: Addr, ts: seq<Addr>, trycompress: bool, ghost c: Ctx, ghost f: Tree)
      requires Open(c0, Sub(f0)) && Means(Plug(c0, Sub(f0)), m) && ShapeOk(f0) && h0 == f0.id && ts0 == StackOf(c0)
      requires f0.kids == [] && !f0.hd.iskey
      modifies this`mem, this`numnodes
      ensures Reduced(h, ts, c, f, m) && (trycompress ==> Joins(f.hd))
      ensures Finished(c, Rest(Sub(f), trycompress)) == Finished(c0, Trimmed(f0))
    {
      hide Finished, CellsOf, CtxCells, Means, KidOk, StrictlySorted, Cells, Plug, Siblings, HoleNode, Cut, DropKid;
      h, ts, trycompress, c, f := h0, ts0, false, c0, f0;
      var child: Option<Addr> := None;
      ghost var nd := NodeOf(f0.hd, []);
      ghost var fr := Frame(0, f0.hd, [], 0);
      StartDangling(c0, f0, m);
      FinishedGone(c0, f0);
      if h == head {
        HeadIsTop(c, h, nd, multiset{});
      }
      while h != head
        invariant ts == StackOf(c) && Dangling(c, h, nd, m)
        invariant child.None? ==> h == h0 && c == c0 && Open(c0, Sub(f0))
        invariant child.Some? ==> Cut(c, fr, child.value, m) && fr.id == h
        invariant child.Some? ==> CtxOk(In(c, fr)) && Finished(In(c, fr), Gone()) == Finished(c0, Trimmed(f0))
        invariant CtxOk(c) && (c.In? ==> Finished(c, Gone()) == Finished(c0, Trimmed(f0)))
        invariant h == head ==> c.Top?
        decreases c
      {
        fr := c.f;
        FreeDead(h, c.up, c.f, nd, m);
        child := Some(h);
        c := c.up;
        h, ts := ts[|ts| - 1], ts[..|ts| - 1];
        var hd := mem[h].hd;
        if hd.iskey || (!hd.iscompr && hd.Size() != 1) { break; }
        CutIsDangling(c, fr, child.value, m);
        FinishedCut(c, fr);
        nd := HoleNode(fr, Child(child.value));
        if h == head {
          HeadIsTop(c, h, nd, multiset{});
        }
      }
      if child.Some? {
        trycompress := UnlinkBranch(h, child.value, c, fr, m);
        f := DropKid(fr);
        FinishedDrop(c, fr, Gone());
      }
    }

    method UnlinkBranch(h: Addr, child: Addr, ghost up: Ctx, ghost fr: Frame, ghost m: map<Bytes, Value>)
      returns (trycompress: bool)
      requires Cut(up, fr, child, m) && h == fr.id
      requires up.In? ==> fr.hd.iskey || |fr.kids| > 1
      modifies this`mem
      ensures FrameOk(fr) && Reduced(h, StackOf(up), up, DropKid(fr), m) && (trycompress ==> Joins(DropKid(fr).hd))
      ensures Rest(Sub(DropKid(fr)), trycompress) == Trimmed(DropKid(fr))
    {
      hide CellsOf, CtxCells, Means, KidOk, StrictlySorted, Cells, Plug, Siblings, HoleNode, DropKid;
      DropKidOk(fr);
      RemoveChild(h, child, up, fr, m);
      OpenCells(up, DropKid(fr));
      trycompress := mem[h].hd.Size() == 1 && !mem[h].hd.iskey;
    }

    lemma StartDangling(c: Ctx, f: Tree, m: map<Bytes, Value>)
      requires Open(c, Sub(f)) && Means(Plug(c, Sub(f)), m) && f.kids == [] && !f.hd.iskey
      ensures Dangling(c, f.id, NodeOf(f.hd, []), m)
    {
      hide CellsOf, CtxCells, Means;
      OpenCells(c, f);
      RootedPlug(c, Sub(f), f.id);
      NoCells();
      assert SlotsOf(f.kids) == [];
      forall u ensures GetKid(Sub(f), u) == None {
      }
      EmptyDead(f.id);
      DeadMeaning(c, Sub(f), Sub(EmptyTree(f.id)), m);
    }

    /** Walk up to the first node of the chain through `h0`; `parent` is the node
        above it, if any. */
    method ClimbChain(h0: Addr, ts0: seq<Addr>, ghost c0: Ctx, ghost f0: Tree, ghost m: map<Bytes, Value>)
      returns (start: Addr, parent: Option<Addr>, ghost c: Ctx, ghost f: Tree)
      requires Reduced(h0, ts0, c0, f0, m) && Joins(f0.hd)
      ensures Reduced(start, StackOf(c), c, f, m) && Joins(f.hd)
      ensures parent == if c.Top? then None else Some(c.f.id)
      ensures c.In? ==> !Joins(c.f.hd)
      ensures Finished(c, Rest(Sub(f), true)) == Finished(c0, Rest(Sub(f0), true))
    {
      hide Finished, CellsOf, CtxCells, Means, KidOk, StrictlySorted, Cells, Plug, Siblings;
      var h, ts := h0, ts0;
      c, f := c0, f0;
      while true
        invariant Reduced(h, ts, c, f, m) && Joins(f.hd)
        invariant CtxOk(c) && Finished(c, Rest(Sub(f), true)) == Finished(c0, Rest(Sub(f0), true))
        decreases c
      {
        JoinsSingle(f);
        if ts == [] {
          return h, None, c, f;
        }
        parent := Some(ts[|ts| - 1]);
        ClimbOne(h, ts, c, f, m);
        var hd := mem[parent.value].hd;
        if !Joins(hd) {
          return h, parent, c, f;
        }
        FinishedJoin(c.up, c.f, Sub(f));
        f := Fill(c.f, Sub(f));
        c, h, ts := c.up, parent.value, ts[..|ts| - 1];
      }
    }

    lemma ClimbOne(h: Addr, ts: seq<Addr>, c: Ctx, f: Tree, m: map<Bytes, Value>)
      requires Reduced(h, ts, c, f, m) && ts != []
      ensures c.In? && ts[|ts| - 1] == c.f.id && ts[..|ts| - 1] == StackOf(c.up) && FrameOk(c.f)
      ensures c.f.id in mem && mem[c.f.id].hd == c.f.hd
      ensures Reduced(c.f.id, StackOf(c.up), c.up, Fill(c.f, Sub(f)), m)
    {
      hide CellsOf, CtxCells, Means, KidOk, Cells, Plug;
      OpenFill(c.up, c.f, Sub(f));
      FillOk(c.f, Sub(f));
      OpenCells(c.up, Fill(c.f, Sub(f)));
    }

    static lemma FillOk(fr: Frame, k: Kid)
      requires FrameOk(fr) && k.Sub? && ShapeOk(k.tree) && Live(k.tree)
      ensures ShapeOk(Fill(fr, k)) && Live(Fill(fr, k))
    {
      assert KidOk(k, fr.idx);
    }

    /** Scan the chain below `start`: how many nodes, how many bytes, as long as
        the bytes fit one node. */
    method CountChain(start: Addr, ghost c: Ctx, ghost f: Tree) returns (nodes: nat, comprsize: nat)
      requires Open(c, Sub(f)) && ShapeOk(f) && SingleKid(f) && start == f.id
      ensures nodes == CountedNodes(f, |f.hd.bytes|) && comprsize == CountedSize(f, |f.hd.bytes|)
    {
      hide CellsOf, CtxCells, KidOk, StrictlySorted, Plug, Cells, CellsKids;
      var h := start;
      ghost var t, above := f, CtxCells(c, Child(f.id));
      OpenCells(c, f);
      CellsNode(f);
      comprsize, nodes := mem[h].hd.Size(), 1;
      while mem[h].hd.Size() != 0
        invariant h == t.id && ShapeOk(t) && SingleKid(t)
        invariant CellsOf(mem) == Cells(t) + above
        invariant h in mem && mem[h] == NodeOf(t.hd, SlotsOf(t.kids))
        invariant CountedNodes(f, |f.hd.bytes|) == nodes - 1 + CountedNodes(t, comprsize)
        invariant CountedSize(f, |f.hd.bytes|) == CountedSize(t, comprsize)
        decreases t
      {
        if mem[h].IsInlineLeaf(0) { break; }
        above := ChainStep(t, above);
        t := t.kids[0].tree;
        h := mem[h].slots[0].addr;
        if !Joins(mem[h].hd) { break; }
        JoinsSingle(t);
        if comprsize + mem[h].hd.Size() > NODE_MAX_SIZE { break; }
        nodes, comprsize := nodes + 1, comprsize + mem[h].hd.Size();
      }
    }

    lemma ChainStep(t: Tree, above: multiset<Cell>) returns (above': multiset<Cell>)
      requires ShapeOk(t) && SingleKid(t) && t.kids[0].Sub?
      requires CellsOf(mem) == Cells(t) + above
      ensures var t1 := t.kids[0].tree;
              && CellsOf(mem) == Cells(t1) + above' && ShapeOk(t1)
              && t1.id in mem && mem[t1.id] == NodeOf(t1.hd, SlotsOf(t1.kids))
    {
      hide CellsOf, Cells, CellsKids;
      var t1 := t.kids[0].tree;
      assert KidOk(t.kids[0], 0);
      CellsNode(t);
      SingleCells(t.kids);
      CellsNode(t1);
      above' := multiset{(t.id, NodeOf(t.hd, SlotsOf(t.kids)))} + above;
      CellIn(t1.id, NodeOf(t1.hd, SlotsOf(t1.kids)), CellsKids(t1.kids) + above');
    }

    /** Replace the chain at `start` by one compressed node: copy the bytes of
        each node and free it, then hang what is left below the new node. */
    method MergeChain(start: Addr, comprsize: nat, parent: Option<Addr>, ghost c: Ctx, ghost f: Tree) returns (new_: Addr)
      requires Open(c, Sub(f)) && ShapeOk(f) && SingleKid(f) && start == f.id && comprsize == |ChainBytes(f)|
      requires parent == if c.Top? then None else Some(c.f.id)
      modifies this`mem, this`numnodes, this`head
      ensures Open(c, Sub(Line(new_, PlainHeader(), ChainBytes(f), ChainEnd(f))))
    {
      hide CellsOf, CtxCells, CellsKid, KidOk, StrictlySorted, Plug, Cells, CellsKids, CtxOk, ChainBytes, ChainEnd, LineNode;
      RootedPlug(c, Sub(f), start);
      CellsNode(f);
      new_ := Malloc(EmptyNode());
      CommCells(CtxCells(c, Child(start)) + Cells(f), multiset{(new_, EmptyNode())});
      numnodes := numnodes + 1;
      ghost var above := CtxCells(c, Child(start));
      var bytes, slot, inlineLeaf := CopyChain(start, new_, comprsize, above, f);
      LineCells(new_, PlainHeader(), bytes, ChainEnd(f));
      ChainOk(f);
      ghost var k := Sub(Line(new_, PlainHeader(), bytes, ChainEnd(f)));
      ghost var nd := LineNode(PlainHeader(), bytes, slot, inlineLeaf);
      Write(new_, LineNode(PlainHeader(), bytes, slot, inlineLeaf), EmptyNode(), above + CellsKid(ChainEnd(f)));
      SwapCells(multiset{(new_, nd)}, above, CellsKid(ChainEnd(f)));
      RelinkParent(start, new_, parent, c, CellsKid(k));
      RootedPlug(c, k, new_);
    }

    /** Point the parent of the freed node `start` (or the head) to `a`. */
    method RelinkParent(start: Addr, a: Addr, parent: Option<Addr>, ghost c: Ctx, ghost rest: multiset<Cell>)
      requires CtxOk(c) && CellsOf(mem) == CtxCells(c, Child(start)) + rest && start !in mem
      requires parent == if c.Top? then None else Some(c.f.id)
      modifies this`mem, this`head
      ensures CellsOf(mem) == CtxCells(c, Child(a)) + rest && |mem| == old(|mem|)
      ensures head == if c.Top? then a else old(head)
    {
      hide CellsOf, CtxCells, KidOk, StrictlySorted, Siblings;
      if parent.Some? {
        CtxCellsIn(c.up, c.f, Child(start));
        ghost var others := multiset{(c.f.id, HoleNode(c.f, Child(start)))} + CtxCells(c.up, Child(c.f.id)) + rest;
        OnlyAtHole(c.f, start, others);
        CellIn(c.f.id, HoleNode(c.f, Child(start)), Siblings(c.f) + CtxCells(c.up, Child(c.f.id)) + rest);
        var i := FindParentLink(parent.value, start, c.f.idx);
        SetLink(SlotLink(parent.value, i), a, c, start, rest);
      } else {
        SetLink(HeadLink, a, c, start, rest);
      }
    }

    /** Copy the chain's bytes into the `room` bytes of the new node and free the
        chain. No copy starts that would go past the room. */
    method CopyChain(start: Addr, new_: Addr, room: nat, ghost above: multiset<Cell>, ghost f: Tree)
      returns (bytes: Bytes, slot: Slot, inlineLeaf: bool)
      requires ShapeOk(f) && SingleKid(f) && start == f.id && |ChainBytes(f)| <= room
      requires CellsOf(mem) == multiset{(new_, EmptyNode())} + (above + Cells(f)) && numnodes == |mem|
      modifies this`mem, this`numnodes
      ensures CellsOf(mem) == multiset{(new_, EmptyNode())} + (above + CellsKid(ChainEnd(f))) && numnodes == |mem|
      ensures bytes == ChainBytes(f) && slot == SlotOf(ChainEnd(f)) && inlineLeaf == slot.Inline? && start !in mem
    {
      hide CellsOf, KidOk, StrictlySorted, Cells, CellsKids, ChainBytes, ChainEnd;
      var h := start;
      ghost var t, rest := f, multiset{(new_, EmptyNode())} + above;
      AssocCells(multiset{(new_, EmptyNode())}, above, Cells(f));
      AssocCells(multiset{(new_, EmptyNode())}, above, CellsKid(ChainEnd(f)));
      bytes, slot, inlineLeaf := [], Unset, false;
      ChainCell(t, rest);
      while mem[h].hd.Size() != 0
        invariant h == t.id && ShapeOk(t) && SingleKid(t) && numnodes == |mem|
        invariant CellsOf(mem) == rest + Cells(t)
        invariant h in mem && mem[h] == NodeOf(t.hd, SlotsOf(t.kids))
        invariant bytes + ChainBytes(t) == ChainBytes(f) && ChainEnd(t) == ChainEnd(f)
        invariant !inlineLeaf && (t == f || start !in mem)
        decreases t
      {
        ChainOk(t);
        assert |bytes| + mem[h].hd.Size() <= room;
        bytes := bytes + mem[h].hd.bytes;
        slot := mem[h].slots[0];
        ghost var t0 := t;
        var isInline := mem[h].IsInlineLeaf(0);
        FreeLink(h, t, rest);
        if isInline {
          inlineLeaf := true;
          LastLink(t0);
          return;
        }
        h := slot.addr;
        t := t.kids[0].tree;
        ChainCell(t, rest);
        if !Joins(mem[h].hd) {
          LastLink(t0);
          return;
        }
        NextLink(t0);
      }
    }

    lemma ChainCell(t: Tree, rest: multiset<Cell>)
      requires CellsOf(mem) == rest + Cells(t)
      ensures t.id in mem && mem[t.id] == NodeOf(t.hd, SlotsOf(t.kids))
    {
      hide CellsOf, Cells, CellsKids;
      CellsNode(t);
      CellIn(t.id, NodeOf(t.hd, SlotsOf(t.kids)), CellsKids(t.kids) + rest);
    }

    static lemma LastLink(t: Tree)
      requires t.kids != [] && !ChainsTo(t)
      ensures ChainBytes(t) == t.hd.bytes && ChainEnd(t) == t.kids[0]
    {
    }

    static lemma NextLink(t: Tree)
      requires ShapeOk(t) && SingleKid(t) && ChainsTo(t)
      ensures var t1 := t.kids[0].tree;
              && ShapeOk(t1) && SingleKid(t1)
              && ChainBytes(t) == t.hd.bytes + ChainBytes(t1) && ChainEnd(t) == ChainEnd(t1)
      ensures forall b: Bytes :: b + ChainBytes(t) == b + t.hd.bytes + ChainBytes(t.kids[0].tree)
    {
      var t1 := t.kids[0].tree;
      assert KidOk(t.kids[0], 0);
      JoinsSingle(t1);
      forall b: Bytes ensures b + ChainBytes(t) == b + t.hd.bytes + ChainBytes(t1) {
        assert b + (t.hd.bytes + ChainBytes(t1)) == b + t.hd.bytes + ChainBytes(t1);
      }
    }

    /** Free one node of the chain, keeping its child. */
    method FreeLink(h: Addr, ghost t: Tree, ghost rest: multiset<Cell>)
      requires h == t.id && SingleKid(t) && CellsOf(mem) == rest + Cells(t) && numnodes == |mem|
      modifies this`mem, this`numnodes
      ensures CellsOf(mem) == rest + CellsKid(t.kids[0]) && numnodes == |mem| && mem.Keys == old(mem.Keys) - {h}
    {
      hide CellsOf, Cells, CellsKids, CellsKid;
      CellsNode(t);
      SingleCells(t.kids);
      Free(h, NodeOf(t.hd, SlotsOf(t.kids)), rest + CellsKid(t.kids[0]));
      numnodes := numnodes - 1;
    }

    /** If the node at `h0` can be merged with its neighbours, merge them. */
    method Recompress(h0: Addr, ts: seq<Addr>, ghost c0: Ctx, ghost f0: Tree, ghost m: map<Bytes, Value>)
      requires Reduced(h0, ts, c0, f0, m) && Joins(f0.hd)
      requires numele == |m| && forall key :: key in m ==> |key| <= NODE_MAX_SIZE
      modifies this
      ensures Valid() && contents == m && CtxOk(c0)
      ensures Bare(Sub(tree)) == Bare(Finished(c0, Rest(Sub(f0), true)))
    {
      hide Bare, Finished, CountedNodes, CountedSize, ChainBytes, ChainEnd, CellsOf, CtxCells, KidOk, StrictlySorted, Plug, Cells, Means;
      var start, parent, c, f := ClimbChain(h0, ts, c0, f0, m);
      JoinsSingle(f);
      ChainFits(c, f, m);
      var nodes, comprsize := CountChain(start, c, f);
      FittingChain(f);
      if nodes > 1 {
        var a := MergeChain(start, comprsize, parent, c, f);
        MergeMeaning(c, f, a, m);
        SubOk(Line(a, PlainHeader(), ChainBytes(f), ChainEnd(f)), if c.Top? then 0 else c.f.idx);
        Commit(c, Sub(Line(a, PlainHeader(), ChainBytes(f), ChainEnd(f))), m);
        MergedBare(c, f, a);
      } else {
        UnmergedPlug(c, f);
        CommitReduced(start, StackOf(c), c, f, m);
      }
    }

    lemma ReducedOpen(h: Addr, ts: seq<Addr>, c: Ctx, f: Tree, m: map<Bytes, Value>)
      requires Reduced(h, ts, c, f, m)
      ensures CtxOk(c)
    {
      hide CtxCells, CellsOf, Plug, Means, KidOk, CtxOk;
    }

    ghost method CommitReduced(h: Addr, ts: seq<Addr>, c: Ctx, f: Tree, m: map<Bytes, Value>)
      requires Reduced(h, ts, c, f, m) && numele == |m|
      modifies this`tree, this`contents
      ensures Valid() && contents == m && CtxOk(c) && Sub(tree) == Plug(c, Sub(f))
    {
      hide Open, KidOk, Plug, Means;
      ReducedOpen(h, ts, c, f, m);
      if c.In? {
        SubOk(f, c.f.idx);
      }
      Commit(c, Sub(f), m);
    }

    /** Remove a key. Returns whether it was there, and its value. */
    method Remove(s: Bytes) returns (removed: bool, previous: Option<Value>)
      requires Valid()
      requires forall key :: key in contents ==> |key| <= NODE_MAX_SIZE
      modifies this
      ensures Valid() && contents == old(contents) - {s}
      ensures removed == (s in old(contents)) && previous == Lookup(old(contents), s)
      ensures Bare(Sub(tree)) == Bare(if removed then Delete(Sub(old(tree)), s) else Sub(old(tree)))
    {
      hide Bare, Delete;
      var i, h, plink, splitpos, ts, inlineLeaf, c, f := LowWalk(s);
      StopsGet(s, i, plink, splitpos, inlineLeaf, c, f);
      if i == |s| && inlineLeaf {
        previous := Some(mem[h].slots[plink.idx].value);
        RemoveInline(s, h, plink.idx, ts, c, f);
        return true, previous;
      }
      if i != |s| || (mem[h].hd.iscompr && splitpos != 0) || !mem[h].hd.iskey {
        assert contents - {s} == contents;
        return false, None;
      }
      previous := Some(mem[h].hd.GetData());
      assert Path(c) == s;
      RemoveNodeKey(h, ts, c, f);
      return true, previous;
    }

    /** Delete an inline value; its node may become useless or joinable. */
    method RemoveInline(s: Bytes, h: Addr, i: nat, ts: seq<Addr>, ghost c: Ctx, ghost f: Tree)
      requires Valid() && At(c, f) && h == f.id && ts == StackOf(c)
      requires Stops(s, |s|, SlotLink(h, i), 0, true, c, f) && s in contents
      requires forall key :: key in contents ==> |key| <= NODE_MAX_SIZE
      modifies this
      ensures Valid() && contents == old(contents) - {s}
      ensures Bare(Sub(tree)) == Bare(Delete(Sub(old(tree)), s))
    {
      hide Bare, Delete, Finished, CellsOf, CtxCells, KidOk, StrictlySorted, Plug, Cells, Means, DropKid, CtxOk;
      ghost var v := f.kids[i].value;
      ghost var fr := Frame(f.id, f.hd, f.kids, i);
      FillSelf(f, i);
      KidFacts(f, i);
      OpenAt(c, f);
      OpenKid(c, fr, Leaf(v));
      numele := numele - 1;
      DropInline(h, i, ts, c, fr, v, contents);
      assert Path(In(c, fr)) == s;
      PlugIn(c, fr, Leaf(v));
      DeleteLeaf(c, fr, v, s);
      FinishRemoval(h, ts, c, DropKid(fr), contents - {s});
    }

    method DropInline(h: Addr, i: nat, ts: seq<Addr>, ghost c: Ctx, ghost fr: Frame, ghost v: Value, ghost m: map<Bytes, Value>)
      requires Open(In(c, fr), Leaf(v)) && Means(Plug(In(c, fr), Leaf(v)), m)
      requires h == fr.id && i == fr.idx < INLINE_SLOTS && ts == StackOf(c)
      modifies this`mem
      ensures var t := DropKid(fr);
              && Open(c, Sub(t)) && Means(Plug(c, Sub(t)), m - {Path(In(c, fr))})
              && ShapeOk(t) && t.id == h
    {
      hide CellsOf, CtxCells, KidOk, StrictlySorted, Plug, Cells, Means, DropKid, HoleNode, Siblings;
      OpenHole(c, fr, Leaf(v));
      PlugIn(c, fr, Leaf(v));
      FillSlotOf(fr, Leaf(v));
      RootedPlug(c, Sub(Fill(fr, Leaf(v))), h);
      RemoveChildAtPtr(h, i, fr, Inline(v), CtxCells(c, Child(h)));
      DropKidOk(fr);
      RootedPlug(c, Sub(DropKid(fr)), h);
      DropLeafMeaning(c, fr, v, m);
    }

    method RemoveNodeKey(h: Addr, ts: seq<Addr>, ghost c: Ctx, ghost f: Tree)
      requires Valid() && At(c, f) && h == f.id && ts == StackOf(c) && f.hd.iskey && Path(c) in contents
      requires forall key :: key in contents ==> |key| <= NODE_MAX_SIZE
      modifies this
      ensures Valid() && contents == old(contents) - {Path(c)}
      ensures Bare(Sub(tree)) == Bare(Delete(Sub(old(tree)), Path(c)))
    {
      hide Bare, Delete, Finished, CellsOf, CtxCells, KidOk, StrictlySorted, Plug, Cells, Means, CtxOk;
      OpenAt(c, f);
      numele := numele - 1;
      ClearKey(h, c, f);
      WithoutKeyMeaning(c, f, contents);
      DeleteHere(c, f);
      FinishRemoval(h, ts, c, WithoutKey(f), contents - {Path(c)});
    }

    method ClearKey(h: Addr, ghost c: Ctx, ghost f: Tree)
      requires Open(c, Sub(f)) && h == f.id
      modifies this`mem
      ensures Open(c, Sub(WithoutKey(f)))
    {
      hide CellsKid, CellsKids, Cells, CtxCells, CellsOf, Plug, CtxOk;
      OpenCells(c, f);
      Write(h, mem[h].(hd := mem[h].hd.(iskey := false)), mem[h], CellsKids(f.kids) + CtxCells(c, Child(h)));
      ghost var f' := WithoutKey(f);
      CellsNode(f');
      RootedPlug(c, Sub(f), h);
      RootedPlug(c, Sub(f'), h);
    }

    /** Clean up or recompress around node `h0` after it lost a key. */
    method FinishRemoval(h0: Addr, ts0: seq<Addr>, ghost c0: Ctx, ghost f0: Tree, ghost m: map<Bytes, Value>)
      requires Open(c0, Sub(f0)) && Means(Plug(c0, Sub(f0)), m) && ShapeOk(f0) && h0 == f0.id && ts0 == StackOf(c0)
      requires numele == |m| && forall key :: key in m ==> |key| <= NODE_MAX_SIZE
      modifies this
      ensures Valid() && contents == m && CtxOk(c0)
      ensures Bare(Sub(tree)) == Bare(Finished(c0, Trimmed(f0)))
    {
      hide Bare, Finished, CellsOf, CtxCells, KidOk, StrictlySorted, Plug, Cells, Means, CtxOk;
      OpenCells(c0, f0);
      var h, ts, trycompress := h0, ts0, false;
      ghost var c, f := c0, f0;
      if mem[h].hd.Size() == 0 && !mem[h].hd.iskey {
        h, ts, trycompress, c, f := RemoveCleanup(h, ts, c, f, m);
      } else if mem[h].hd.Size() == 1 && !mem[h].hd.iskey {
        trycompress := true;
      }
      if trycompress {
        Recompress(h, ts, c, f, m);
      } else {
        FinishedPlain(c, Sub(f));
        CommitReduced(h, ts, c, f, m);
      }
    }

    // ---------- freeing the tree

    static lemma KidFacts(t: Tree, i: nat)
      requires ShapeOk(t) && i < |t.kids|
      ensures NodeOf(t.hd, SlotsOf(t.kids)).IsInlineLeaf(i) <==> t.kids[i].Leaf?
      ensures t.kids[i].Leaf? ==> i < INLINE_SLOTS
      ensures t.kids[i].Sub? ==> ShapeOk(t.kids[i].tree) && Live(t.kids[i].tree) && SlotsOf(t.kids)[i] == Child(t.kids[i].tree.id)
    {
      assert KidOk(t.kids[i], i);
    }

    /** The cells of the first `i` children. */
    static ghost function FirstCells(ks: seq<Kid>, i: nat): multiset<Cell>
      requires i <= |ks|
    {
      CellsKids(ks[..i])
    }

    static lemma FirstCellsEnds(ks: seq<Kid>)
      ensures FirstCells(ks, |ks|) == CellsKids(ks) && FirstCells(ks, 0) == multiset{}
    {
      assert ks[..|ks|] == ks && ks[..0] == [];
    }

    static lemma FirstCellsStep(ks: seq<Kid>, i: nat)
      requires i < |ks|
      ensures FirstCells(ks, i + 1) == FirstCells(ks, i) + CellsKid(ks[i])
    {
      var a := ks[..i + 1];
      CellsKidsAt(a, i);
      assert a[..i] == ks[..i] && a[i + 1..] == [];
    }

    /** Free the subtree at `n`, last child first. */
    method RecursiveFree(n: Addr, ghost t: Tree, ghost rest: multiset<Cell>)
      requires n == t.id && ShapeOk(t) && CellsOf(mem) == rest + Cells(t) && numnodes == |mem|
      modifies this`mem, this`numnodes
      ensures CellsOf(mem) == rest && numnodes == |mem|
      decreases t
    {
      hide CellsOf, Cells, CellsKids, ShapeOk, KidOk, NodeOf, CellsKid, SlotsOf, FirstCells;
      ChainCell(t, rest);
      NodeFacts(t);
      var nd := mem[n];
      var i: nat := if nd.hd.iscompr then 1 else nd.hd.Size();
      ghost var above := rest + multiset{(n, nd)};
      CellsNode(t);
      FirstCellsEnds(t.kids);
      while i > 0
        invariant i <= |t.kids| && CellsOf(mem) == above + FirstCells(t.kids, i) && numnodes == |mem|
      {
        i := i - 1;
        FirstCellsStep(t.kids, i);
        KidFacts(t, i);
        if !nd.IsInlineLeaf(i) {
          SubCells(t.kids[i]);
          RecursiveFree(nd.slots[i].addr, t.kids[i].tree, above + FirstCells(t.kids, i));
        } else {
          LeafNoCells(t.kids[i]);
        }
      }
      Free(n, nd, rest);
      numnodes := numnodes - 1;
    }

    static lemma NodeFacts(t: Tree)
      requires ShapeOk(t)
      ensures var nd := NodeOf(t.hd, SlotsOf(t.kids));
              nd.slots == SlotsOf(t.kids) && |t.kids| == if nd.hd.iscompr then 1 else nd.hd.Size()
    {
    }

    static lemma SubCells(k: Kid)
      requires k.Sub?
      ensures CellsKid(k) == Cells(k.tree)
    {
    }

    static lemma LeafNoCells(k: Kid)
      requires k.Leaf?
      ensures CellsKid(k) == multiset{}
    {
    }

    /** Free the whole tree: every node goes, exactly once. */
    method FreeTree()
      requires Valid()
      modifies this
      ensures mem == map[] && numnodes == 0
    {
      hide CellsKids;
      CellsNode(tree);
      RecursiveFree(head, tree, multiset{});
      NoItems();
    }

    lemma NoItems()
      requires CellsOf(mem) == multiset{}
      ensures mem == map[]
    {
      forall a ensures a !in mem {
        if a in mem {
          CellsOfAt(mem, a, mem[a]);
        }
      }
    }
  }
}
