/** Ordered iteration over a radix tree. A key may have a node of its own or be
    an inline leaf, which is represented by its parent node. */
module RaxIterator {
  import opened ByteStrings
  import opened RaxTypes
  import opened RaxTree
  import opened RaxEdits
  import opened RaxMemory
  import opened RaxOrder
  import opened Rax

  class Iterator {
    const rt: Rax
    var justSeeked: bool
    var eof: bool
    var inlineLeaf: bool
    var key: Bytes
    var data: Value
    var node: Addr
    var nodeChild: int
    var stack: seq<Addr>
    ghost var c: Ctx
    ghost var k: Kid

    constructor (rt: Rax)
      ensures this.rt == rt && eof && !justSeeked
    {
      this.rt := rt;
      justSeeked, eof, inlineLeaf := false, true, false;
      key, data, node, nodeChild, stack := [], Null, 0, -1, [];
      c, k := Top, Leaf(Null);
    }

    /** The cached child index, when known, names the edge `b` of node `f`. */
    static ghost predicate Cached(nodeChild: int, f: Tree, b: Bytes) {
      nodeChild == -1 || (0 <= nodeChild < |f.kids| && Edge(f.hd, nodeChild) == b)
    }

    /** On the real node `k.tree`, whose path is the key. */
    ghost predicate OnNode()
      reads this, rt
    {
      && rt.Valid() && k.Sub? && rt.At(c, k.tree) && (c.In? ==> Live(k.tree))
      && node == k.tree.id && stack == StackOf(c) && key == Path(c) && !inlineLeaf
    }

    /** The cached index of the current node in its parent is right, if known. */
    ghost predicate CacheOk()
      reads this
    {
      if c.In? then c.f.idx < |c.f.kids| && Cached(nodeChild, Fill(c.f, k), Edge(c.f.hd, c.f.idx)) else nodeChild == -1
    }

    /** On the inline value in slot `c.f.idx` of the node `c.f`. */
    ghost predicate OnLeaf()
      reads this, rt
    {
      && rt.Valid() && k.Leaf? && c.In? && FrameOk(c.f) && c.f.kids[c.f.idx] == k
      && rt.At(c.up, Fill(c.f, k)) && (c.up.In? ==> Live(Fill(c.f, k)))
      && node == c.f.id && stack == StackOf(c.up) && key == Path(c) && inlineLeaf
      && Cached(nodeChild, Fill(c.f, k), Edge(c.f.hd, c.f.idx))
    }

    ghost predicate Standing()
      reads this, rt
    {
      (OnNode() && CacheOk()) || OnLeaf()
    }

    /** On node `k.tree`, the key still carrying an edge of it, or a byte that is
        no edge of it. */
    ghost predicate Leaving(e: Bytes)
      reads this, rt
    {
      && rt.Valid() && k.Sub? && rt.At(c, k.tree) && (c.In? ==> Live(k.tree))
      && node == k.tree.id && stack == StackOf(c) && key == Path(c) + e && !inlineLeaf
      && Cached(nodeChild, k.tree, e)
      && (if k.tree.hd.iscompr then e == k.tree.hd.bytes else |e| == 1)
    }

    /** Is the current position a key? */
    predicate AtKey()
      requires node in rt.mem
      reads this, rt
    {
      inlineLeaf || rt.mem[node].hd.iskey
    }

    lemma StandingKey()
      requires Standing()
      ensures node in rt.mem
      ensures AtKey() <==> key in rt.contents
      ensures inlineLeaf ==> k.Leaf? && rt.contents[key] == k.value
      ensures !inlineLeaf && AtKey() ==> rt.contents[key] == rt.mem[node].hd.GetData()
      ensures CtxOk(c) && Means(Plug(c, k), rt.contents)
      ensures k.Sub? ==> Here(c, k.tree, rt.contents)
      ensures k.Sub? && !AtKey() && c.In? ==> k.tree.kids != []
    {
      hide CellsOf, CtxCells, KidOk;
      if k.Sub? {
        rt.AtIsHere(c, k.tree);
      } else {
        rt.AtIsHere(c.up, Fill(c.f, k));
        PlugIn2(c.up, c.f, k);
      }
      GetPlug(c, k, k, key);
      assert key[|key|..] == [];
      assert Lookup(rt.contents, key) == GetKid(k, []);
    }

    static lemma PlugIn2(up: Ctx, f: Frame, k: Kid)
      requires CtxOk(up) && FrameOk(f)
      ensures CtxOk(In(up, f)) && Plug(In(up, f), k) == Plug(up, Sub(Fill(f, k)))
    {
    }

    /** Child `i` of the node in hand, as a position. */
    lemma EnterFacts(i: nat)
      requires OnNode() && i < |k.tree.kids|
      ensures var f := k.tree;
              var c' := In(c, Frame(f.id, f.hd, f.kids, i));
              && node in rt.mem && rt.mem[node] == NodeOf(f.hd, SlotsOf(f.kids))
              && FrameOk(c'.f) && Fill(c'.f, f.kids[i]) == f && Path(c') == key + Edge(f.hd, i)
              && StackOf(c') == stack + [node]
              && (rt.mem[node].IsInlineLeaf(i) <==> f.kids[i].Leaf?)
              && (f.kids[i].Leaf? ==> rt.mem[node].slots[i] == Inline(f.kids[i].value))
              && (f.kids[i].Sub? ==> rt.At(c', f.kids[i].tree) && Live(f.kids[i].tree) && f.kids[i].tree.id in rt.mem
                                     && rt.mem[node].slots[i] == Child(f.kids[i].tree.id))
      ensures Cached(i, k.tree, Edge(k.tree.hd, i)) && Live(k.tree)
      ensures !k.tree.hd.iscompr ==> i < |k.tree.hd.bytes|
    {
      hide CellsOf, CtxCells, KidOk, Means, Plug;
      FillSelf(k.tree, i);
      Rax.KidFacts(k.tree, i);
      if k.tree.kids[i].Sub? {
        rt.Descend(c, k.tree, i);
      }
    }

    static lemma EdgeText(hd: Header, i: nat)
      ensures hd.iscompr ==> Edge(hd, i) == hd.bytes
      ensures !hd.iscompr && i < |hd.bytes| ==> Edge(hd, i) == [hd.bytes[i]]
    {
    }

    /** Descend into child `i` of the current node, or stop on its inline value. */
    method EnterChild(i: nat)
      requires OnNode() && i < |k.tree.kids|
      modifies this
      ensures Standing()
      ensures c == In(old(c), Frame(old(k.tree).id, old(k.tree).hd, old(k.tree).kids, i)) && k == old(k.tree).kids[i]
      ensures eof == old(eof) && justSeeked == old(justSeeked)
      ensures DataOk() && key == old(key) + Edge(old(k.tree).hd, i)
    {
      hide CellsOf, CtxCells, KidOk, Means, Plug, FrameOk, SlotsOf, BitmapOf, Fill, CtxOk, ShapeOk, Path, StackOf, Cached, Live, Edge, Rax.Valid, Rax.At;
      EdgeText(k.tree.hd, i);
      EnterFacts(i);
      ghost var f := k.tree;
      var nd := rt.mem[node];
      key := key + if nd.hd.iscompr then nd.hd.bytes else [nd.hd.bytes[i]];
      c, k := In(c, Frame(f.id, f.hd, f.kids, i)), f.kids[i];
      if nd.IsInlineLeaf(i) {
        data, nodeChild, inlineLeaf := nd.slots[i].value, i, true;
        assert OnLeaf();
      } else {
        stack := stack + [node];
        node, nodeChild := nd.slots[i].addr, i;
        data := if rt.mem[node].hd.iskey then rt.mem[node].hd.GetData() else Null;
        assert OnNode();
      }
    }

    lemma LeaveFacts(noup: bool, e: Bytes)
      requires if noup then Leaving(e) else OnNode() && CacheOk() && c.In? && e == Edge(c.f.hd, c.f.idx)
      ensures e != [] && |key| >= |e| && e[|e| - 1] == key[|key| - 1] && key[..|key| - |e|] + e == key
      ensures noup ==> node in rt.mem && rt.mem[node].hd == k.tree.hd && key[..|key| - |e|] == Path(c)
      ensures !noup ==>
                var t := Fill(c.f, k);
                && rt.At(c.up, t) && Live(t) && stack != [] && stack[|stack| - 1] == t.id && stack[..|stack| - 1] == StackOf(c.up)
                && t.id in rt.mem && rt.mem[t.id].hd == t.hd && key[..|key| - |e|] == Path(c.up)
                && Cached(nodeChild, t, e) && (if t.hd.iscompr then e == t.hd.bytes else |e| == 1)
                && (t.hd.Size() <= 1 ==> t.hd.bytes == e)
    {
      hide CellsOf, CtxCells, KidOk, Means, Plug, Rax.Valid, StrictlySorted, SlotsOf, BitmapOf;
      if noup {
        assert key[..|Path(c)|] == Path(c);
      } else {
        rt.Ascend(c, k.tree);
        PathIn(c.up, c.f);
        EdgeShape(c.f);
        assert key[..|Path(c.up)|] == Path(c.up);
      }
    }

    static lemma EdgeShape(f: Frame)
      requires FrameOk(f)
      ensures var e := Edge(f.hd, f.idx);
              e != [] && (if f.hd.iscompr then e == f.hd.bytes else |e| == 1) && (f.hd.Size() <= 1 ==> f.hd.bytes == e)
    {
    }

    /** Go back to the parent (unless already there) and drop its edge from the
        key. Returns the last byte and the cached index of the edge left. */
    method LeaveChild(noup: bool, ghost e: Bytes) returns (prevchild: Byte, prevchildidx: int)
      requires if noup then Leaving(e) else OnNode() && CacheOk() && c.In? && e == Edge(c.f.hd, c.f.idx)
      modifies this
      ensures OnNode() && (noup || nodeChild == -1)
      ensures if noup then c == old(c) && k == old(k) else c == old(c).up && k == Sub(Fill(old(c).f, old(k)))
      ensures key + e == old(key) && Cached(prevchildidx, k.tree, e)
      ensures if k.tree.hd.iscompr then e == k.tree.hd.bytes else e == [prevchild]
      ensures !noup && k.tree.hd.Size() <= 1 ==> k.tree.hd.bytes == e
      ensures eof == old(eof) && justSeeked == old(justSeeked)
    {
      hide CellsOf, CtxCells, KidOk, Means, Plug, Rax.Valid, Rax.At, Path, StackOf, Edge, FrameOk, Cached, CtxOk, ShapeOk, Live, SlotsOf, BitmapOf, NodeOf;
      LeaveFacts(noup, e);
      prevchild, prevchildidx := key[|key| - 1], nodeChild;
      if !noup {
        node, stack, nodeChild := stack[|stack| - 1], stack[..|stack| - 1], -1;
        k, c := Sub(Fill(c.f, k)), c.up;
      }
      var todel := if rt.mem[node].hd.iscompr then rt.mem[node].hd.Size() else 1;
      key := key[..|key| - todel];
    }

    /** The first edge above `ch`; `idx`, when known, is the edge `ch` itself. */
    static method ScanNext(bytes: Bytes, ch: Byte, idx: int) returns (i: nat)
      requires StrictlySorted(bytes) && (idx == -1 || (0 <= idx < |bytes| && bytes[idx] == ch))
      ensures i <= |bytes| && (forall j :: 0 <= j < i ==> bytes[j] <= ch)
      ensures i < |bytes| ==> bytes[i] > ch
    {
      if idx != -1 {
        i := idx + 1;
      } else {
        i := 0;
        while i < |bytes|
          invariant i <= |bytes| && forall j :: 0 <= j < i ==> bytes[j] <= ch
        {
          if bytes[i] > ch { break; }
          i := i + 1;
        }
      }
    }

    /** The last edge below `ch`, or -1. */
    static method ScanPrev(bytes: Bytes, ch: Byte, idx: int) returns (i: int)
      requires StrictlySorted(bytes) && (idx == -1 || (0 <= idx < |bytes| && bytes[idx] == ch))
      ensures -1 <= i < |bytes| && (forall j :: i < j < |bytes| ==> bytes[j] >= ch)
      ensures i >= 0 ==> bytes[i] < ch
    {
      if idx != -1 {
        i := idx - 1;
      } else {
        i := |bytes| - 1;
        while i >= 0
          invariant -1 <= i < |bytes| && forall j :: i < j < |bytes| ==> bytes[j] >= ch
        {
          if bytes[i] < ch { break; }
          i := i - 1;
        }
      }
    }

    /** What the code can see of the node in hand. */
    lemma NodeView()
      requires OnNode()
      ensures node in rt.mem && rt.mem[node] == NodeOf(k.tree.hd, SlotsOf(k.tree.kids))
      ensures Here(c, k.tree, rt.contents) && (node == rt.head <==> c.Top?)
      ensures k.tree.hd.iscompr ==> |k.tree.kids| == 1 && k.tree.hd.Size() != 0
      ensures !k.tree.hd.iscompr ==> |k.tree.kids| == k.tree.hd.Size() && StrictlySorted(k.tree.hd.bytes)
    {
      hide CellsOf, CtxCells, KidOk, Plug, Rax.Valid, StrictlySorted;
      rt.AtIsHere(c, k.tree);
    }

    static lemma CachedByte(idx: int, f: Tree, ch: Byte)
      requires Cached(idx, f, [ch]) && !f.hd.iscompr && |f.kids| == |f.hd.bytes|
      ensures idx == -1 || (0 <= idx < |f.hd.bytes| && f.hd.bytes[idx] == ch)
    {
    }

    lemma NoCache()
      requires OnNode() && nodeChild == -1
      ensures CacheOk()
    {
    }

    lemma TopPath()
      requires OnNode() && c.Top?
      ensures key == []
    {
    }

    lemma CrossNext(s0: Bytes, ch: Byte, i: nat)
      requires OnNode() && Here(c, k.tree, rt.contents) && !k.tree.hd.iscompr && FirstAbove(k.tree, ch, i)
      requires AfterAll(rt.contents, s0, key + [ch])
      ensures i < |k.tree.hd.bytes| ==> From(rt.contents, s0, key + Edge(k.tree.hd, i))
      ensures i == |k.tree.hd.bytes| ==> AfterAll(rt.contents, s0, key)
    {
      hide CellsOf, CtxCells, KidOk, Means, Plug, Rax.Valid, Rax.At, Here, AfterAll, From, FirstAbove;
      AcrossNext(c, k.tree, rt.contents, s0, ch, i);
    }

    /** The edge just left was the only one, or there is none. */
    lemma CrossOnly(s0: Bytes, e: Bytes, noup: bool, ch: Byte)
      requires OnNode() && Here(c, k.tree, rt.contents)
      requires if k.tree.hd.iscompr then e == k.tree.hd.bytes else e == [ch]
      requires !k.tree.hd.iscompr ==> if noup then k.tree.hd.bytes == [] else k.tree.hd.bytes == [ch]
      requires AfterAll(rt.contents, s0, key + e)
      ensures AfterAll(rt.contents, s0, key)
    {
      hide CellsOf, CtxCells, KidOk, Means, Plug, Rax.Valid, Rax.At, Here, AfterAll, From;
      if k.tree.hd.iscompr {
        AcrossCompressed(c, k.tree, rt.contents, s0);
      } else {
        AcrossNext(c, k.tree, rt.contents, s0, ch, |k.tree.hd.bytes|);
      }
    }

    /** Move up until some ancestor has a later child, and enter it. */
    method ClimbNext(noup0: bool, ghost e0: Bytes, ghost s0: Bytes)
      requires !eof && (if noup0 then Leaving(e0) else OnNode() && CacheOk())
      requires AfterAll(rt.contents, s0, key)
      modifies this
      ensures justSeeked == old(justSeeked)
      ensures eof ==> forall x :: x in rt.contents ==> !Lt(s0, x)
      ensures !eof ==> Standing() && From(rt.contents, s0, key) && DataOk() && c.In?
    {
      hide CellsOf, CtxCells, KidOk, Means, Plug, Rax.Valid, Rax.At, Path, StackOf, Cached, AfterAll, From, Here, DataOk, StrictlySorted, Edge, SlotsOf, BitmapOf;
      var noup := noup0;
      ghost var e := e0;
      while true
        invariant !eof && justSeeked == old(justSeeked) && AfterAll(rt.contents, s0, key)
        invariant if noup then Leaving(e) else OnNode() && CacheOk()
        decreases c, noup
      {
        var oldNoup := noup;
        if !noup {
          NodeView();
          if node == rt.head {
            assert key == [] by { TopPath(); }
            NothingAfter(rt.contents, s0);
            eof := true;
            return;
          }
          e := Edge(c.f.hd, c.f.idx);
        }
        var prevchild, prevchildidx := LeaveChild(noup, e);
        noup := false;
        NodeView();
        var hd := rt.mem[node].hd;
        if !hd.iscompr && hd.Size() > (if oldNoup then 0 else 1) {
          CachedByte(prevchildidx, k.tree, prevchild);
          var i := ScanNext(hd.bytes, prevchild, prevchildidx);
          CrossNext(s0, prevchild, i);
          if i != hd.Size() {
            EnterChild(i);
            return;
          }
        } else {
          CrossOnly(s0, e, oldNoup, prevchild);
        }
        if oldNoup {
          nodeChild := -1;
        }
        NoCache();
      }
    }

    /** Entering a child has set `data`. */
    ghost predicate DataOk()
      reads this, rt
    {
      node in rt.mem && (inlineLeaf ==> k.Leaf? && data == k.value) && (AtKey() && !inlineLeaf ==> data == rt.mem[node].hd.GetData())
    }

    /** Standing on a key, with its value in `data`. */
    ghost predicate OnKey()
      reads this, rt
    {
      Standing() && key in rt.contents && data == rt.contents[key]
    }

    lemma KeyFound()
      requires Standing() && DataOk() && AtKey()
      ensures OnKey()
    {
      hide CellsOf, CtxCells, KidOk, Means, Plug, Rax.Valid, Rax.At, Standing;
      StandingKey();
    }

    /** Not a key yet: the goal lies strictly further, and there is a child. */
    lemma KeyNotYet(s0: Bytes)
      requires Standing() && node in rt.mem && !AtKey() && From(rt.contents, s0, key) && c.In?
      ensures OnNode() && CacheOk() && After(rt.contents, s0, key) && k.tree.kids != []
    {
      hide CellsOf, CtxCells, KidOk, Means, Plug, Rax.Valid, Rax.At, From, After;
      StandingKey();
      FromThenAfter(rt.contents, s0, key);
    }

    /** Step to the least key above `s0`, or to the end. */
    method StepNext(noup0: bool, ghost e: Bytes, ghost s0: Bytes)
      requires !eof
      requires if noup0 then Leaving(e) && AfterAll(rt.contents, s0, key)
               else OnNode() && CacheOk() && After(rt.contents, s0, key)
      modifies this
      ensures justSeeked == old(justSeeked)
      ensures eof ==> forall x :: x in rt.contents ==> !Lt(s0, x)
      ensures !eof ==> OnKey() && From(rt.contents, s0, key)
    {
      hide CellsOf, CtxCells, KidOk, Means, Plug, Rax.Valid, Rax.At, Path, StackOf, Cached, AfterAll, After, From, Here, DataOk, StrictlySorted, Edge, SlotsOf, BitmapOf, Standing, OnKey, CacheOk;
      var noup := noup0;
      ghost var first := true;
      while true
        invariant !eof && justSeeked == old(justSeeked)
        invariant if noup then first && Leaving(e) && AfterAll(rt.contents, s0, key)
                  else OnNode() && CacheOk() && After(rt.contents, s0, key) && (first || k.tree.kids != [])
        decreases first, k
      {
        var children := 0;
        if !noup {
          NodeView();
          children := if rt.mem[node].hd.iscompr then 1 else rt.mem[node].hd.Size();
        }
        if !noup && children != 0 {
          GoDown(s0);
          EnterChild(0);
        } else {
          if !noup {
            Childless(c, k.tree, rt.contents, s0);
          }
          ClimbNext(noup, e, s0);
          if eof { return; }
        }
        noup, first := false, false;
        DataView();
        if AtKey() {
          KeyFound();
          return;
        }
        KeyNotYet(s0);
      }
    }

    lemma DataView()
      requires DataOk()
      ensures node in rt.mem
    {
    }

    lemma GoDown(s0: Bytes)
      requires OnNode() && After(rt.contents, s0, key) && Here(c, k.tree, rt.contents) && k.tree.kids != []
      ensures From(rt.contents, s0, key + Edge(k.tree.hd, 0))
    {
      hide CellsOf, CtxCells, KidOk, Means, Plug, Rax.Valid, Rax.At, Here, After, From;
      DownFirst(c, k.tree, rt.contents, s0);
    }

    // ---------- backwards

    /** Follow the last child down to the greatest key of the subtree. */
    method SeekGreatest(ghost s0: Bytes)
      requires OnNode() && CacheOk() && UpToAll(rt.contents, s0, key)
      modifies this
      ensures if inlineLeaf then OnLeaf() else OnNode() && CacheOk()
      ensures old(c).In? || old(k.tree.kids) != [] ==> c.In?
      ensures eof == old(eof) && justSeeked == old(justSeeked)
      ensures UpTo(rt.contents, s0, key) && (inlineLeaf ==> k.Leaf? && data == k.value)
      ensures node in rt.mem && (!inlineLeaf ==> k.tree.kids == [])
    {
      hide CellsOf, CtxCells, KidOk, Means, Plug, Rax.Valid, Rax.At, Path, StackOf, Cached, UpTo, UpToAll, Here, DataOk, StrictlySorted, Edge, SlotsOf, BitmapOf, CacheOk;
      NodeView();
      while rt.mem[node].hd.Size() != 0
        invariant OnNode() && CacheOk() && node in rt.mem && UpToAll(rt.contents, s0, key)
        invariant c.In? || (c == old(c) && k == old(k))
        invariant eof == old(eof) && justSeeked == old(justSeeked)
        decreases k
      {
        NodeView();
        var lastidx := if rt.mem[node].hd.iscompr then 0 else rt.mem[node].hd.Size() - 1;
        GoDownLast(s0);
        EnterChild(lastidx);
        DataView();
        if inlineLeaf {
          LeafEnd(s0);
          return;
        }
        OnNodeAgain();
      }
      NodeView();
      NodeEnd(s0);
    }

    lemma LeafKey()
      requires OnLeaf() && data == k.value
      ensures OnKey()
    {
      hide CellsOf, CtxCells, KidOk, Means, Plug, Rax.Valid, Rax.At, Cached, FrameOk;
      StandingKey();
    }

    static lemma AnyCache(f: Tree, b: Bytes)
      ensures Cached(-1, f, b)
    {
    }

    /** The last node of a subtree below the head is a key. */
    lemma EndIsKey()
      requires OnNode() && c.In? && k.tree.kids == [] && node in rt.mem
      ensures AtKey()
    {
    }

    lemma OnNodeAgain()
      requires Standing() && !inlineLeaf
      ensures OnNode() && CacheOk()
    {
    }

    lemma GoDownLast(s0: Bytes)
      requires OnNode() && UpToAll(rt.contents, s0, key) && Here(c, k.tree, rt.contents) && k.tree.kids != []
      ensures UpToAll(rt.contents, s0, key + Edge(k.tree.hd, |k.tree.kids| - 1))
    {
      hide CellsOf, CtxCells, KidOk, Means, Plug, Rax.Valid, Rax.At, Here, UpToAll;
      DownLast(c, k.tree, rt.contents, s0);
    }

    lemma LeafEnd(s0: Bytes)
      requires Standing() && inlineLeaf && DataOk() && UpToAll(rt.contents, s0, key)
      ensures OnLeaf() && UpTo(rt.contents, s0, key) && k.Leaf? && data == k.value
    {
      hide CellsOf, CtxCells, KidOk, Means, Plug, Rax.Valid, Rax.At, UpTo, UpToAll;
      StandingKey();
      LastKey(c, k, rt.contents, s0);
    }

    lemma NodeEnd(s0: Bytes)
      requires OnNode() && UpToAll(rt.contents, s0, key) && Here(c, k.tree, rt.contents) && k.tree.kids == []
      ensures UpTo(rt.contents, s0, key)
    {
      hide CellsOf, CtxCells, KidOk, Means, Plug, Rax.Valid, Rax.At, UpTo, UpToAll;
      HereMeans(c, k.tree, rt.contents);
      LastKey(c, k, rt.contents, s0);
    }

    static lemma HereMeans(c: Ctx, f: Tree, m: map<Bytes, Value>)
      requires Here(c, f, m)
      ensures CtxOk(c) && ShapeOk(f) && Means(Plug(c, Sub(f)), m)
    {
    }

    lemma CrossPrev(s0: Bytes, ch: Byte, i: int)
      requires OnNode() && Here(c, k.tree, rt.contents) && !k.tree.hd.iscompr && i >= -1 && LastBelow(k.tree, ch, i + 1)
      requires Before(rt.contents, s0, key + [ch])
      ensures i >= 0 ==> UpToAll(rt.contents, s0, key + Edge(k.tree.hd, i))
      ensures i == -1 ==> UpTo(rt.contents, s0, key)
    {
      hide CellsOf, CtxCells, KidOk, Means, Plug, Rax.Valid, Rax.At, Here, UpTo, UpToAll, Before, LastBelow;
      AcrossPrev(c, k.tree, rt.contents, s0, ch, i + 1);
    }

    lemma CrossPrevOnly(s0: Bytes, e: Bytes, noup: bool, ch: Byte)
      requires OnNode() && Here(c, k.tree, rt.contents)
      requires if k.tree.hd.iscompr then e == k.tree.hd.bytes else e == [ch]
      requires !k.tree.hd.iscompr ==> if noup then k.tree.hd.bytes == [] else k.tree.hd.bytes == [ch]
      requires Before(rt.contents, s0, key + e)
      ensures UpTo(rt.contents, s0, key)
    {
      hide CellsOf, CtxCells, KidOk, Means, Plug, Rax.Valid, Rax.At, Here, UpTo, UpToAll, Before;
      if k.tree.hd.iscompr {
        AcrossPrevCompressed(c, k.tree, rt.contents, s0);
      } else {
        AcrossPrev(c, k.tree, rt.contents, s0, ch, 0);
      }
    }

    /** Step to the greatest key below `s0`, or to the end. */
    method StepPrev(noup0: bool, ghost e0: Bytes, ghost s0: Bytes)
      requires !eof && (if noup0 then Leaving(e0) else OnNode() && CacheOk())
      requires Before(rt.contents, s0, key)
      modifies this
      ensures justSeeked == old(justSeeked)
      ensures eof ==> forall x :: x in rt.contents ==> !Lt(x, s0)
      ensures !eof ==> OnKey() && UpTo(rt.contents, s0, key)
    {
      hide CellsOf, CtxCells, KidOk, Means, Plug, Rax.Valid, Rax.At, Path, StackOf, Cached, Before, UpTo, UpToAll, Here, DataOk, StrictlySorted, Edge, SlotsOf, BitmapOf, Standing, OnKey;
      var noup := noup0;
      ghost var e := e0;
      while true
        invariant !eof && justSeeked == old(justSeeked) && Before(rt.contents, s0, key)
        invariant if noup then Leaving(e) else OnNode() && CacheOk()
        decreases c, noup
      {
        var oldNoup := noup;
        if !noup {
          NodeView();
          if node == rt.head {
            assert key == [] by { TopPath(); }
            NothingBefore(rt.contents, s0);
            eof := true;
            return;
          }
          e := Edge(c.f.hd, c.f.idx);
        }
        var prevchild, prevchildidx := LeaveChild(noup, e);
        noup := false;
        NodeView();
        var hd := rt.mem[node].hd;
        if !hd.iscompr && hd.Size() > (if oldNoup then 0 else 1) {
          CachedByte(prevchildidx, k.tree, prevchild);
          var i := ScanPrev(hd.bytes, prevchild, prevchildidx);
          CrossPrev(s0, prevchild, i);
          if i != -1 {
            EnterGreatest(i, oldNoup, s0);
            return;
          }
        } else {
          CrossPrevOnly(s0, e, oldNoup, prevchild);
        }
        if oldNoup {
          nodeChild := -1;
        }
        NoCache();
        var found := TakeNode(s0);
        if found {
          return;
        }
      }
    }

    /** Stop on the current node if it is a key. */
    method TakeNode(ghost s0: Bytes) returns (found: bool)
      requires OnNode() && CacheOk() && UpTo(rt.contents, s0, key)
      modifies this`data
      ensures found ==> OnKey()
      ensures !found ==> OnNode() && CacheOk() && Before(rt.contents, s0, key)
    {
      hide CellsOf, CtxCells, KidOk, Means, Plug, Rax.Valid, Rax.At, Before, UpTo, Cached;
      StandNode();
      StandingKey();
      found := AtKey();
      if found {
        data := rt.mem[node].hd.GetData();
        KeyHere();
      } else {
        UpToThenBefore(rt.contents, s0, key);
      }
    }

    lemma StandNode()
      requires OnNode() && CacheOk()
      ensures Standing()
    {
    }

    lemma KeyHere()
      requires OnNode() && CacheOk() && node in rt.mem && AtKey() && data == rt.mem[node].hd.GetData()
      ensures OnKey()
    {
      hide CellsOf, CtxCells, KidOk, Means, Plug, Rax.Valid, Rax.At;
      StandingKey();
    }

    /** Enter child `i` and stand on the last key of its subtree. */
    method EnterGreatest(i: nat, oldNoup: bool, ghost s0: Bytes)
      requires OnNode() && i < |k.tree.kids| && UpToAll(rt.contents, s0, key + Edge(k.tree.hd, i))
      modifies this
      ensures eof == old(eof) && justSeeked == old(justSeeked)
      ensures OnKey() && UpTo(rt.contents, s0, key)
    {
      hide CellsOf, CtxCells, KidOk, Means, Plug, Rax.Valid, Rax.At, Path, StackOf, Cached, UpTo, UpToAll, Here, StrictlySorted, Edge, SlotsOf, BitmapOf, OnKey;
      EnterChild(i);
      if inlineLeaf {
        LeafEnd(s0);
        LeafKey();
        return;
      }
      OnNodeAgain();
      SeekGreatest(s0);
      if oldNoup {
        nodeChild := -1;
        if inlineLeaf {
          AnyCache(Fill(c.f, k), Edge(c.f.hd, c.f.idx));
        } else {
          NoCache();
        }
      }
      if inlineLeaf {
        LeafKey();
      } else {
        EndIsKey();
        data := rt.mem[node].hd.GetData();
        KeyHere();
      }
    }

    // ---------- stepping

    /** Where a step may start: at the end, just seeked, or on a position. */
    ghost predicate Placed()
      reads this, rt
    {
      eof || OnKey()
    }

    /** From an inline value, the walk continues at its parent node. */
    method LeaveInline(ghost m: map<Bytes, Value>) returns (noup: bool, ghost e: Bytes)
      requires Standing() && m == rt.contents
      modifies this
      ensures noup == old(inlineLeaf) && key == old(key) && eof == old(eof) && justSeeked == old(justSeeked)
      ensures if noup then Leaving(e) && old(k).Leaf? && old(c).In? && CtxOk(old(c)) && Means(Plug(old(c), old(k)), m) && key == Path(old(c))
              else OnNode() && CacheOk()
    {
      hide CellsOf, CtxCells, KidOk, Means, Plug, Rax.Valid, Rax.At, StrictlySorted;
      StandingKey();
      noup, e := inlineLeaf, [];
      if inlineLeaf {
        e := Edge(c.f.hd, c.f.idx);
        EdgeShape(c.f);
        PathIn(c.up, c.f);
        inlineLeaf := false;
        k, c := Sub(Fill(c.f, k)), c.up;
      }
    }

    /** One step forward from a position whose key is not above any key that
        should still come. At the end, the old position is restored. */
    method NextStep(ghost s0: Bytes)
      requires eof || justSeeked || (Standing() && After(rt.contents, s0, key))
      modifies this
      ensures old(eof) ==> eof && key == old(key) && data == old(data)
      ensures !old(eof) && old(justSeeked) ==>
                !eof && !justSeeked && key == old(key) && data == old(data) && (old(OnKey()) ==> OnKey())
      ensures !old(eof) && !old(justSeeked) ==>
                && !justSeeked
                && (eof ==> key == old(key) && data == old(data) && forall x :: x in rt.contents ==> !Lt(s0, x))
                && (!eof ==> OnKey() && From(rt.contents, s0, key))
    {
      hide CellsOf, CtxCells, KidOk, Means, Plug, Rax.Valid, Rax.At, Path, StackOf, Cached, AfterAll, After, From, StrictlySorted, Edge;
      if eof {
        return;
      }
      if justSeeked {
        justSeeked := false;
        return;
      }
      var key0, stack0, node0, data0, inline0, child0 := key, stack, node, data, inlineLeaf, nodeChild;
      ghost var c0, k0 := c, k;
      var noup, e := LeaveInline(rt.contents);
      if noup {
        PastLeaf(c0, k0.value, rt.contents, s0);
      }
      StepNext(noup, e, s0);
      if eof {
        key, stack, node, data, inlineLeaf, nodeChild := key0, stack0, node0, data0, inline0, child0;
        c, k := c0, k0;
      }
    }

    method PrevStep(ghost s0: Bytes)
      requires eof || justSeeked || (Standing() && Before(rt.contents, s0, key))
      modifies this
      ensures old(eof) ==> eof && key == old(key) && data == old(data)
      ensures !old(eof) && old(justSeeked) ==>
                !eof && !justSeeked && key == old(key) && data == old(data) && (old(OnKey()) ==> OnKey())
      ensures !old(eof) && !old(justSeeked) ==>
                && !justSeeked
                && (eof ==> key == old(key) && data == old(data) && forall x :: x in rt.contents ==> !Lt(x, s0))
                && (!eof ==> OnKey() && UpTo(rt.contents, s0, key))
    {
      hide CellsOf, CtxCells, KidOk, Means, Plug, Rax.Valid, Rax.At, Path, StackOf, Cached, Before, UpTo, StrictlySorted, Edge;
      if eof {
        return;
      }
      if justSeeked {
        justSeeked := false;
        return;
      }
      var key0, stack0, node0, data0, inline0, child0 := key, stack, node, data, inlineLeaf, nodeChild;
      ghost var c0, k0 := c, k;
      var noup, e := LeaveInline(rt.contents);
      StepPrev(noup, e, s0);
      if eof {
        key, stack, node, data, inlineLeaf, nodeChild := key0, stack0, node0, data0, inline0, child0;
        c, k := c0, k0;
      }
    }

    /** Advance to the next key in byte order. */
    method Next() returns (ok: bool)
      requires Placed()
      modifies this
      ensures Placed() && ok == !eof
      ensures old(eof) ==> eof
      ensures !old(eof) && old(justSeeked) ==> ok && !justSeeked && key == old(key)
      ensures !old(eof) && !old(justSeeked) ==>
                if ok then !justSeeked && IsNext(rt.contents, old(key), key) && data == rt.contents[key]
                else forall x :: x in rt.contents ==> !Lt(old(key), x)
    {
      hide Standing, Rax.Valid;
      NextStep(key);
      ok := !eof;
    }

    /** Go back to the previous key in byte order. */
    method Prev() returns (ok: bool)
      requires Placed()
      modifies this
      ensures Placed() && ok == !eof
      ensures old(eof) ==> eof
      ensures !old(eof) && old(justSeeked) ==> ok && !justSeeked && key == old(key)
      ensures !old(eof) && !old(justSeeked) ==>
                if ok then !justSeeked && IsPrev(rt.contents, old(key), key) && data == rt.contents[key]
                else forall x :: x in rt.contents ==> !Lt(x, old(key))
    {
      hide Standing, Rax.Valid;
      PrevStep(key);
      ok := !eof;
    }

    // ---------- seeking

    static ghost predicate Wanted(eq: bool, lt: bool, gt: bool, s: Bytes, x: Bytes) {
      (eq && x == s) || (lt && Lt(x, s)) || (gt && Lt(s, x))
    }

    /** On the wanted key nearest to `s`, or at the end because there is none. */
    ghost predicate Sought(eq: bool, lt: bool, gt: bool, s: Bytes)
      reads this, rt
    {
      && Placed()
      && (eof ==> forall x :: x in rt.contents ==> !Wanted(eq, lt, gt, s, x))
      && (!eof ==>
            && justSeeked && OnKey() && Wanted(eq, lt, gt, s, key)
            && (forall x :: x in rt.contents && Wanted(eq, lt, gt, s, x) ==>
                  x == key || (gt && Lt(key, x)) || (lt && Lt(x, key))))
    }

    lemma ParentFacts(c: Ctx, f: Tree)
      requires rt.Valid() && rt.At(c, f) && c.In? && Live(f)
      ensures c.f.idx < |c.f.kids| && rt.At(c.up, Fill(c.f, Sub(f))) && Live(Fill(c.f, Sub(f)))
      ensures StackOf(c) != [] && StackOf(c)[|StackOf(c)| - 1] == c.f.id && StackOf(c)[..|StackOf(c)| - 1] == StackOf(c.up)
      ensures c.f.id in rt.mem && rt.mem[c.f.id].hd == c.f.hd && Rax.OnlyAt(rt.mem[c.f.id].slots, f.id, c.f.idx)
      ensures !c.f.hd.iscompr ==> c.f.idx < |c.f.hd.bytes| && Path(c) == Path(c.up) + [c.f.hd.bytes[c.f.idx]]
      ensures c.f.hd.iscompr ==> Path(c) == Path(c.up) + c.f.hd.bytes
    {
      hide CellsOf, CtxCells, KidOk, Means, Plug, Rax.Valid, BitmapOf, StrictlySorted, Rax.OnlyAt;
      rt.Ascend(c, f);
      rt.OnlyAtLive(c.up, c.f, f);
      PathIn(c.up, c.f);
    }

    /** Rebuild the path of node `h` from the stack of its ancestors. */
    method RebuildKey(h: Addr, ts: seq<Addr>, ghost c: Ctx, ghost f: Tree) returns (path: Bytes)
      requires rt.Valid() && rt.At(c, f) && h == f.id && ts == StackOf(c) && (c.In? ==> Live(f))
      ensures path == Path(c)
    {
      hide CellsOf, CtxCells, KidOk, Means, Plug, Rax.Valid, SlotsOf, BitmapOf, StrictlySorted, Rax.At, Path, StackOf, Rax.OnlyAt;
      path := [];
      var child, rest := h, ts;
      ghost var c', f' := c, f;
      TopIsEmpty();
      StackEmpty(c);
      while rest != []
        invariant rt.At(c', f') && child == f'.id && rest == StackOf(c') && (c'.In? ==> Live(f'))
        invariant Path(c') + path == Path(c) && (c'.Top? <==> rest == [])
        decreases c'
      {
        var parent := rest[|rest| - 1];
        ParentFacts(c', f');
        var nd := rt.mem[parent];
        var e := nd.hd.bytes;
        if !nd.hd.iscompr {
          var i := rt.FindParentLink(parent, child, c'.f.idx);
          e := [nd.hd.bytes[i]];
        }
        assert Path(c'.up) + (e + path) == Path(c'.up) + e + path;
        path := e + path;
        child, rest := parent, rest[..|rest| - 1];
        c', f' := c'.up, Fill(c'.f, Sub(f'));
        StackEmpty(c');
      }
    }

    static lemma TopIsEmpty()
      ensures Path(Top) == [] && StackOf(Top) == []
    {
    }

    static lemma StackEmpty(c: Ctx)
      ensures c.Top? <==> StackOf(c) == []
    {
    }

    /** Run one step in the wanted direction and keep its result as the seeked
        position; `noup` starts it from the byte `e` of the current node. */
    method StepAndHold(noup: bool, gt: bool, ghost e: Bytes, ghost s0: Bytes)
      requires !eof && !justSeeked
      requires if noup then Leaving(e) else OnNode() && CacheOk()
      requires if gt then (if noup then AfterAll(rt.contents, s0, key) else After(rt.contents, s0, key))
               else Before(rt.contents, s0, key)
      modifies this
      ensures Sought(false, !gt, gt, s0)
    {
      hide CellsOf, CtxCells, KidOk, Means, Plug, Rax.Valid, Rax.At, Path, StackOf, Cached, Standing, Leaving, OnNode, CacheOk;
      if gt {
        StepNext(noup, e, s0);
      } else {
        StepPrev(noup, e, s0);
      }
      Hold();
    }

    /** Mark the position as just seeked: the next step returns it as it is. */
    method Hold()
      modifies this`justSeeked
      ensures justSeeked && (old(OnKey()) ==> OnKey())
    {
      hide CellsOf, CtxCells, KidOk, Means, Plug, Rax.Valid, Rax.At, Path, StackOf, Cached;
      justSeeked := true;
    }

    /** Seek relative to `s`, when no node of the tree is the wanted key itself. */
    method SeekFromNode(s: Bytes, i: nat, splitpos: nat, lt: bool, gt: bool)
      requires OnNode() && nodeChild == -1 && !eof && justSeeked && lt != gt
      requires |key| <= i <= |s| && key == s[..|key|]
      requires k.tree.hd.iscompr ==>
                 && splitpos == i - |key| < |k.tree.hd.bytes| && k.tree.hd.bytes[..splitpos] == s[|key|..i]
                 && (i < |s| ==> k.tree.hd.bytes[splitpos] != s[i])
      requires !k.tree.hd.iscompr ==> splitpos == 0 && i == |key| && (i < |s| ==> IndexOf(k.tree.hd.bytes, s[i]) == |k.tree.hd.bytes|)
      modifies this
      ensures Sought(false, lt, gt, s)
    {
      hide CellsOf, CtxCells, KidOk, Means, Plug, Rax.Valid, Rax.At, Cached, StrictlySorted, Lt, SlotsOf, BitmapOf;
      NodeView();
      NoCache();
      justSeeked := false;
      var nd := rt.mem[node];
      if i != |s| && !nd.hd.iscompr {
        SeekMismatch(c, k.tree, rt.contents, s, i);
        key := key + [s[i]];
        AnyCache(k.tree, [s[i]]);
        StepAndHold(true, gt, [s[i]], s);
      } else if i != |s| {
        SeekInCompressed(c, k.tree, rt.contents, s, splitpos);
        var nodechar, keychar := nd.hd.bytes[splitpos], s[i];
        if (gt && nodechar > keychar) {
          StepAndHold(false, true, [], s);
        } else if lt && nodechar < keychar {
          HoldGreatest(s);
        } else {
          key := key + nd.hd.bytes;
          AnyCache(k.tree, nd.hd.bytes);
          StepAndHold(true, gt, nd.hd.bytes, s);
        }
      } else {
        SeekAtEnd(s, splitpos, lt, gt);
      }
    }

    /** Hold the last key of the subtree in hand. */
    method HoldGreatest(ghost s: Bytes)
      requires OnNode() && CacheOk() && !eof && !justSeeked && k.tree.kids != [] && UpToAll(rt.contents, s, key)
      modifies this
      ensures Sought(false, true, false, s)
    {
      hide CellsOf, CtxCells, KidOk, Means, Plug, Rax.Valid, Rax.At, Path, StackOf, Cached, UpToAll, Lt, SlotsOf, BitmapOf, Standing;
      SeekGreatest(s);
      if !inlineLeaf {
        EndIsKey();
        data := rt.mem[node].hd.GetData();
        KeyHere();
      } else {
        LeafKey();
      }
      Hold();
    }

    /** The string ended at the node in hand, or inside its compressed edge. */
    method SeekAtEnd(s: Bytes, splitpos: nat, lt: bool, gt: bool)
      requires OnNode() && CacheOk() && !eof && !justSeeked && lt != gt
      requires if splitpos == 0 then s == key
               else k.tree.hd.iscompr && splitpos < |k.tree.hd.bytes| && s == key + k.tree.hd.bytes[..splitpos]
      modifies this
      ensures Sought(false, lt, gt, s)
    {
      hide CellsOf, CtxCells, KidOk, Means, Plug, Rax.Valid, Rax.At, Path, StackOf, Cached, StrictlySorted, Lt, SlotsOf, BitmapOf, Standing;
      NodeView();
      if splitpos != 0 {
        EndsInside(s, splitpos);
      }
      var hd := rt.mem[node].hd;
      if hd.iscompr && hd.iskey && splitpos != 0 && lt {
        data := hd.GetData();
        KeyHere();
        Hold();
      } else {
        if splitpos != 0 && lt {
          StandNode();
          StandingKey();
          UpToThenBefore(rt.contents, s, key);
        }
        StepAndHold(false, gt, [], s);
      }
    }

    lemma EndsInside(s: Bytes, j: nat)
      requires OnNode() && Here(c, k.tree, rt.contents)
      requires k.tree.hd.iscompr && 0 < j < |k.tree.hd.bytes| && s == key + k.tree.hd.bytes[..j]
      ensures After(rt.contents, s, key) && UpTo(rt.contents, s, key) && s !in rt.contents
    {
      hide CellsOf, CtxCells, KidOk, Means, Plug, Rax.Valid, Rax.At, Here, After, UpTo;
      SeekEndsInside(c, k.tree, rt.contents, s, j);
    }

    /** The walk stopped on an inline value at `s[..i]`. */
    method SeekFromInline(s: Bytes, i: nat, eq: bool, lt: bool, gt: bool)
      requires OnLeaf() && data == k.value && !eof && justSeeked && !(lt && gt)
      requires i <= |s| && key == s[..i]
      modifies this
      ensures Sought(eq, lt, gt, s)
    {
      hide CellsOf, CtxCells, KidOk, Means, Plug, Rax.Valid, Rax.At, Path, StackOf, Cached, Lt, SlotsOf, BitmapOf, FrameOk;
      LeafKey();
      LtIrreflexive(s);
      if i < |s| {
        PastInline(s);
      } else {
        assert key == s;
      }
      if eq && i == |s| {
        return;
      }
      if lt || gt {
        justSeeked := false;
        if i == |s| || gt {
          if gt {
            NextStep(s);
          } else {
            PrevStep(s);
          }
        }
        Hold();
        return;
      }
      eof := true;
    }

    lemma PastInline(s: Bytes)
      requires OnLeaf() && key <= s && key != s
      ensures After(rt.contents, s, key) && UpTo(rt.contents, s, key) && s !in rt.contents
    {
      hide CellsOf, CtxCells, KidOk, Means, Plug, Rax.Valid, Rax.At, Cached, After, UpTo;
      StandingKey();
      SeekPastLeaf(c, k.value, rt.contents, s);
    }

    lemma WalkIsLive(c: Ctx, f: Tree)
      requires rt.Valid() && rt.At(c, f)
      ensures c.In? ==> Live(f)
    {
      hide CellsOf, CtxCells, Means, Plug;
      if c.In? {
        UnplugOk(c, Sub(f));
        assert KidOk(Sub(f), c.f.idx);
      }
    }

    /** Take the inline value that a walk stopped on as the position. */
    method LandInline(s: Bytes, i: nat, plink: Link, ghost c': Ctx, ghost f: Tree)
      requires rt.Valid() && rt.At(c', f) && (c'.In? ==> Live(f)) && node == f.id && stack == StackOf(c')
      requires Rax.Stops(s, i, plink, 0, true, c', f)
      modifies this
      ensures OnLeaf() && data == k.value && key == s[..i] && eof == old(eof) && justSeeked == old(justSeeked)
    {
      hide CellsOf, CtxCells, KidOk, Means, Plug, Rax.Valid, StrictlySorted;
      var j := plink.idx;
      Rax.KidFacts(f, j);
      FillSelf(f, j);
      data := rt.mem[node].slots[j].value;
      key, nodeChild, inlineLeaf := s[..i], j, true;
      c, k := In(c', Frame(f.id, f.hd, f.kids, j)), f.kids[j];
    }

    /** Take the node of the key itself as the position. */
    method LandExact(s: Bytes, ghost c': Ctx, ghost f: Tree)
      requires rt.Valid() && rt.At(c', f) && (c'.In? ==> Live(f)) && node == f.id && stack == StackOf(c')
      requires Path(c') == s && f.hd.iskey && !eof && justSeeked && !inlineLeaf && nodeChild == -1
      modifies this
      ensures !eof && justSeeked && OnKey() && key == s
    {
      hide CellsOf, CtxCells, KidOk, Means, Plug, Rax.Valid, StrictlySorted;
      key := s;
      data := rt.mem[node].hd.GetData();
      c, k := c', Sub(f);
      NoCache();
      KeyHere();
    }

    method SeekAround(eq: bool, lt: bool, gt: bool, s: Bytes)
      requires rt.Valid() && !(lt && gt) && !eof && justSeeked && !inlineLeaf && key == [] && nodeChild == -1 && stack == []
      modifies this
      ensures Sought(eq, lt, gt, s)
    {
      hide CellsOf, CtxCells, KidOk, Means, Plug, Rax.Valid, Path, StackOf, Cached, Lt, SlotsOf, BitmapOf, StrictlySorted, Standing, ShapeOk, CtxOk;
      var i, h, plink, splitpos, ts, inline, c', f := rt.LowWalk(s);
      rt.StopsGet(s, i, plink, splitpos, inline, c', f);
      WalkIsLive(c', f);
      node, stack := h, ts;
      if inline {
        LandInline(s, i, plink, c', f);
        SeekFromInline(s, i, eq, lt, gt);
        return;
      }
      var hd := rt.mem[node].hd;
      if eq && i == |s| && (!hd.iscompr || splitpos == 0) && hd.iskey {
        assert Path(c') == s;
        LandExact(s, c', f);
      } else if lt || gt {
        var path := RebuildKey(h, ts, c', f);
        key := path;
        c, k := c', Sub(f);
        SeekFromNode(s, i, splitpos, lt, gt);
      } else {
        eof := true;
      }
    }

    /** Position the iterator. The operator is one of ">", ">=", "<", "<=", "=",
        "^" (first key) and "$" (last key); any other string is refused. */
    method Seek(op: string, ele: Bytes) returns (ok: bool)
      requires rt.Valid()
      modifies this
      ensures ok == (op != [] && op[0] in {'>', '<', '=', '^', '$'})
      ensures ok ==> Placed()
      ensures ok && op[0] == '>' ==> Sought(|op| > 1 && op[1] == '=', false, true, ele)
      ensures ok && op[0] == '<' ==> Sought(|op| > 1 && op[1] == '=', true, false, ele)
      ensures ok && op[0] == '=' ==> Sought(true, false, false, ele)
      ensures ok && op[0] in {'^', '$'} ==> (eof <==> rt.contents == map[])
      ensures ok && op[0] == '^' && !eof ==> justSeeked && forall x :: x in rt.contents ==> x == key || Lt(key, x)
      ensures ok && op[0] == '$' && !eof ==> justSeeked && forall x :: x in rt.contents ==> x == key || Lt(x, key)
    {
      hide CellsOf, CtxCells, KidOk, Means, Plug, Rax.At, Path, StackOf, Cached, SlotsOf, BitmapOf, StrictlySorted, Standing;
      stack, justSeeked, eof, inlineLeaf := [], true, false, false;
      key, node, nodeChild := [], 0, -1;
      var eq, lt, gt, first, last := false, false, false, false, false;
      if |op| > 0 && op[0] == '>' {
        gt, eq := true, |op| > 1 && op[1] == '=';
      } else if |op| > 0 && op[0] == '<' {
        lt, eq := true, |op| > 1 && op[1] == '=';
      } else if |op| > 0 && op[0] == '=' {
        eq := true;
      } else if |op| > 0 && op[0] == '^' {
        first := true;
      } else if |op| > 0 && op[0] == '$' {
        last := true;
      } else {
        return false;
      }
      if rt.numele == 0 {
        eof := true;
        assert rt.contents == map[];
        return true;
      }
      assert rt.contents != map[];
      if first {
        SeekAround(true, false, true, []);
        assert forall x :: x in rt.contents ==> Wanted(true, false, true, [], x);
      } else if last {
        SeekLast();
      } else {
        SeekAround(eq, lt, gt, ele);
      }
      return true;
    }

    /** Follow the last children from the head. */
    method SeekLast()
      requires rt.Valid() && rt.contents != map[]
      requires !eof && justSeeked && !inlineLeaf && key == [] && nodeChild == -1 && stack == []
      modifies this
      ensures OnKey() && !eof && justSeeked
      ensures forall x :: x in rt.contents ==> x == key || Lt(x, key)
    {
      hide CellsOf, CtxCells, KidOk, Means, Plug, Rax.Valid, Rax.At, Cached, StrictlySorted, Lt, SlotsOf, BitmapOf, UpToAll;
      ghost var s := AboveAll(rt.contents);
      rt.AtHead();
      node := rt.head;
      c, k := Top, Sub(rt.tree);
      TopIsEmpty();
      assert OnNode();
      SeekGreatest(s);
      if inlineLeaf {
        LeafKey();
      } else {
        LastIsKey(s);
        data := rt.mem[node].hd.GetData();
        KeyHere();
      }
    }

    /** A node without children that ends a non-empty tree is a key. */
    lemma LastIsKey(s: Bytes)
      requires OnNode() && CacheOk() && k.tree.kids == [] && rt.contents != map[] && node in rt.mem
      requires c.Top? ==> UpTo(rt.contents, s, key) && forall x :: x in rt.contents ==> Lt(x, s)
      ensures AtKey()
    {
      hide CellsOf, CtxCells, KidOk, Means, Plug, Rax.Valid, Rax.At, Cached;
      StandNode();
      StandingKey();
      if c.Top? {
        var x :| x in rt.contents;
        assert x == key || Lt(x, key);
        assert !Lt(x, []);
      }
    }
  }
}
