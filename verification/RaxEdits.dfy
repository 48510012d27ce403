/** The local edits of an insertion and what each does to the shape and the
    meaning of the tree. */
module RaxEdits {
  import opened ByteStrings
  import opened RaxTypes
  import opened RaxTree

  // ---------- nodes with one child

  /** A node whose only edge is `bytes`: compressed when longer than one byte. */
  ghost function Line(id: Addr, hd: Header, bytes: Bytes, k: Kid): Tree {
    Tree(id, hd.(iscompr := |bytes| > 1, bytes := bytes), [k])
  }

  /** A line with its one slot open. */
  ghost function LineFrame(id: Addr, hd: Header, bytes: Bytes): Frame {
    Frame(id, hd.(iscompr := |bytes| > 1, bytes := bytes), [Leaf(Null)], 0)
  }

  lemma FillLine(id: Addr, hd: Header, bytes: Bytes, k: Kid)
    ensures Fill(LineFrame(id, hd, bytes), k) == Line(id, hd, bytes, k)
    ensures 0 < |bytes| <= NODE_MAX_SIZE ==> FrameOk(LineFrame(id, hd, bytes))
    ensures 0 < |bytes| ==> Edge(LineFrame(id, hd, bytes).hd, 0) == bytes
    ensures Siblings(LineFrame(id, hd, bytes)) == multiset{}
  {
  }

  ghost predicate SingleKid(t: Tree) {
    |t.kids| == 1 && |t.hd.bytes| > 0
  }

  lemma GetLine(t: Tree, s: Bytes)
    requires ShapeOk(t) && SingleKid(t)
    ensures s != [] ==> Get(t, s) == if t.hd.bytes <= s then GetKid(t.kids[0], s[|t.hd.bytes|..]) else None
  {
    if s != [] && !t.hd.iscompr {
      assert t.hd.bytes == [t.hd.bytes[0]];
      assert [s[0]] <= s;
    }
  }

  lemma SingleCells(ks: seq<Kid>)
    requires |ks| == 1
    ensures CellsKids(ks) == CellsKid(ks[0])
  {
    assert CellsKids(ks[1..]) == multiset{};
  }

  lemma LineOk(id: Addr, hd: Header, bytes: Bytes, k: Kid)
    requires 0 < |bytes| <= NODE_MAX_SIZE && KidOk(k, 0)
    ensures ShapeOk(Line(id, hd, bytes, k)) && SingleKid(Line(id, hd, bytes, k))
  {
  }

  lemma LineCells(id: Addr, hd: Header, bytes: Bytes, k: Kid)
    ensures CellsKid(Sub(Line(id, hd, bytes, k))) ==
            multiset{(id, LineNode(hd, bytes, SlotOf(k), SlotOf(k).Inline?))} + CellsKid(k)
  {
    var t, n := Line(id, hd, bytes, k), LineNode(hd, bytes, SlotOf(k), SlotOf(k).Inline?);
    assert SlotsOf(t.kids) == [SlotOf(k)];
    assert BitmapOf([SlotOf(k)]) == n.leafbitmap;
    CellsKidsAt(t.kids, 0);
    assert Cells(t) == multiset{(id, n)} + CellsKids(t.kids);
  }

  /** Two lines in a row mean what one long line means, unless the second one
      is itself a key. */
  lemma GetTwoLines(t: Tree, t1: Tree, t2: Tree, s: Bytes)
    requires ShapeOk(t) && SingleKid(t) && ShapeOk(t1) && SingleKid(t1) && ShapeOk(t2) && SingleKid(t2)
    requires t1.kids[0] == Sub(t2) && t.kids[0] == t2.kids[0]
    requires t.hd.bytes == t1.hd.bytes + t2.hd.bytes
    requires s != []
    ensures Get(t1, s) == if s == t1.hd.bytes && t2.hd.iskey then Some(t2.hd.GetData()) else Get(t, s)
  {
    GetLine(t, s);
    GetLine(t1, s);
    PrefixSplit(t1.hd.bytes, t2.hd.bytes, s);
    if t1.hd.bytes <= s {
      var u := s[|t1.hd.bytes|..];
      assert s == t1.hd.bytes + u;
      GetLine(t2, u);
    }
  }

  // ---------- splitting a compressed node

  /** What follows the byte at which compressed node `f` is split. */
  ghost function Postfix(f: Tree, j: nat, id: Addr): Kid
    requires j < |f.hd.bytes| && f.kids != []
  {
    if j + 1 < |f.hd.bytes| then Sub(Line(id, PlainHeader(), f.hd.bytes[j + 1..], f.kids[0])) else f.kids[0]
  }

  /** The node left for byte `j` alone; it is the key when nothing precedes it. */
  ghost function SplitNode(f: Tree, j: nat, id: Addr, postfix: Addr): Tree
    requires j < |f.hd.bytes| && f.kids != []
  {
    Line(id, if j == 0 then KeyOnly(f.hd) else PlainHeader(), f.hd.bytes[j..j + 1], Postfix(f, j, postfix))
  }

  /** The whole replacement of `f` when a key mismatches at byte `j`. */
  ghost function Split(f: Tree, j: nat, trimmed: Addr, id: Addr, postfix: Addr): Tree
    requires j < |f.hd.bytes| && f.kids != []
  {
    var s := SplitNode(f, j, id, postfix);
    if j == 0 then s else Line(trimmed, f.hd, f.hd.bytes[..j], Sub(s))
  }

  lemma SplitOk(f: Tree, j: nat, trimmed: Addr, id: Addr, postfix: Addr)
    requires ShapeOk(f) && SingleKid(f) && j < |f.hd.bytes|
    ensures KidOk(Postfix(f, j, postfix), 0)
    ensures ShapeOk(SplitNode(f, j, id, postfix)) && SingleKid(SplitNode(f, j, id, postfix))
    ensures ShapeOk(Split(f, j, trimmed, id, postfix)) && SingleKid(Split(f, j, trimmed, id, postfix))
  {
    assert KidOk(f.kids[0], 0);
    if j + 1 < |f.hd.bytes| {
      LineOk(postfix, PlainHeader(), f.hd.bytes[j + 1..], f.kids[0]);
    }
    LineOk(id, if j == 0 then KeyOnly(f.hd) else PlainHeader(), f.hd.bytes[j..j + 1], Postfix(f, j, postfix));
    if j > 0 {
      LineOk(trimmed, f.hd, f.hd.bytes[..j], Sub(SplitNode(f, j, id, postfix)));
    }
  }

  /** The split node means the rest of the compressed string from byte `j` on. */
  lemma GetSplitNode(f: Tree, j: nat, id: Addr, postfix: Addr, s: Bytes)
    requires ShapeOk(f) && SingleKid(f) && j < |f.hd.bytes| && s != []
    ensures Get(SplitNode(f, j, id, postfix), s) ==
            if f.hd.bytes[j..] <= s then GetKid(f.kids[0], s[|f.hd.bytes| - j..]) else None
  {
    SplitOk(f, j, 0, id, postfix);
    var t := SplitNode(f, j, id, postfix);
    if j + 1 < |f.hd.bytes| {
      var rest := Line(0, t.hd, f.hd.bytes[j..], f.kids[0]);
      assert KidOk(f.kids[0], 0);
      LineOk(0, t.hd, f.hd.bytes[j..], f.kids[0]);
      assert f.hd.bytes[j..] == f.hd.bytes[j..j + 1] + f.hd.bytes[j + 1..];
      GetTwoLines(rest, t, Postfix(f, j, postfix).tree, s);
      GetLine(rest, s);
    } else {
      assert f.hd.bytes[j..] == f.hd.bytes[j..j + 1];
      GetLine(t, s);
    }
  }

  lemma GetSplit(f: Tree, j: nat, trimmed: Addr, id: Addr, postfix: Addr, s: Bytes)
    requires ShapeOk(f) && SingleKid(f) && j < |f.hd.bytes|
    ensures Get(Split(f, j, trimmed, id, postfix), s) == Get(f, s)
  {
    SplitOk(f, j, trimmed, id, postfix);
    if s != [] && j == 0 {
      GetLine(f, s);
      GetSplitNode(f, j, id, postfix, s);
    } else if s != [] {
      var a, b := f.hd.bytes[..j], f.hd.bytes[j..];
      assert f.hd.bytes == a + b;
      GetLine(f, s);
      GetLine(Split(f, j, trimmed, id, postfix), s);
      PrefixSplit(a, b, s);
      if a <= s && s[j..] != [] {
        GetSplitNode(f, j, id, postfix, s[j..]);
      }
    }
  }

  /** The replacement of `f` when a new key with value `v` ends inside it. */
  ghost function SplitAtKey(f: Tree, j: nat, trimmed: Addr, postfix: Addr, v: Value): Tree
    requires j < |f.hd.bytes| && f.kids != []
  {
    Line(trimmed, KeyOnly(f.hd), f.hd.bytes[..j],
         Sub(Line(postfix, PlainHeader().SetData(v), f.hd.bytes[j..], f.kids[0])))
  }

  lemma SplitAtKeyOk(f: Tree, j: nat, trimmed: Addr, postfix: Addr, v: Value)
    requires ShapeOk(f) && SingleKid(f) && 0 < j < |f.hd.bytes|
    ensures ShapeOk(SplitAtKey(f, j, trimmed, postfix, v)) && SingleKid(SplitAtKey(f, j, trimmed, postfix, v))
    ensures ShapeOk(SplitAtKey(f, j, trimmed, postfix, v).kids[0].tree)
  {
    assert KidOk(f.kids[0], 0);
    LineOk(postfix, PlainHeader().SetData(v), f.hd.bytes[j..], f.kids[0]);
    LineOk(trimmed, KeyOnly(f.hd), f.hd.bytes[..j], SplitAtKey(f, j, trimmed, postfix, v).kids[0]);
  }

  lemma GetSplitAtKey(f: Tree, j: nat, trimmed: Addr, postfix: Addr, v: Value, s: Bytes)
    requires ShapeOk(f) && SingleKid(f) && 0 < j < |f.hd.bytes|
    ensures Get(SplitAtKey(f, j, trimmed, postfix, v), s) == if s == f.hd.bytes[..j] then Some(v) else Get(f, s)
  {
    SplitAtKeyOk(f, j, trimmed, postfix, v);
    if s != [] {
      var t := SplitAtKey(f, j, trimmed, postfix, v);
      assert f.hd.bytes == f.hd.bytes[..j] + f.hd.bytes[j..];
      GetTwoLines(f, t, t.kids[0].tree, s);
    }
  }

  // ---------- adding an edge

  ghost predicate IsPos(bytes: Bytes, c: Byte, pos: nat) {
    && pos <= |bytes|
    && (forall i :: 0 <= i < pos ==> bytes[i] <= c)
    && (pos < |bytes| ==> bytes[pos] > c)
  }

  lemma PosUnique(bytes: Bytes, c: Byte, p: nat, q: nat)
    requires IsPos(bytes, c, p) && IsPos(bytes, c, q)
    ensures p == q && p <= |bytes|
  {
  }

  ghost function ValueTree(id: Addr, v: Value): Tree {
    Tree(id, Header(false, false, Null, false, []).SetData(v), [])
  }

  /** An inline value that would be pushed from slot 12 to slot 13. */
  ghost predicate Spills(t: Tree, pos: nat) {
    pos <= 12 < |t.kids| && t.kids[12].Leaf?
  }

  ghost function Spilled(t: Tree, pos: nat, spill: Addr): seq<Kid> {
    if Spills(t, pos) then t.kids[12 := Sub(ValueTree(spill, t.kids[12].value))] else t.kids
  }

  /** `t` moved to `id` with an open slot for edge `c` at `pos`. */
  ghost function AddEdge(t: Tree, id: Addr, c: Byte, pos: nat, spill: Addr): Frame
    requires pos <= |t.hd.bytes| && pos <= |t.kids|
  {
    var ks := Spilled(t, pos, spill);
    Frame(id, t.hd.(bytes := t.hd.bytes[..pos] + [c] + t.hd.bytes[pos..]), ks[..pos] + [Leaf(Null)] + ks[pos..], pos)
  }

  lemma SortedInsert(bytes: Bytes, c: Byte, pos: nat)
    requires StrictlySorted(bytes) && IsPos(bytes, c, pos) && IndexOf(bytes, c) == |bytes|
    ensures StrictlySorted(bytes[..pos] + [c] + bytes[pos..])
  {
    var r := bytes[..pos] + [c] + bytes[pos..];
    forall i, j | 0 <= i < j < |r| ensures r[i] < r[j] {
      assert pos < |bytes| ==> c < bytes[pos];
      assert i < pos ==> r[i] == bytes[i];
      assert j > pos ==> r[j] == bytes[j - 1];
      assert i > pos ==> r[i] == bytes[i - 1];
    }
  }

  /** Strictly sorted bytes fit a byte each, so there are at most 256. */
  lemma {:induction false} SortedIsShort(bytes: Bytes, n: nat)
    requires StrictlySorted(bytes) && n < |bytes|
    ensures bytes[n] >= n
  {
    if n > 0 {
      SortedIsShort(bytes, n - 1);
    }
  }

  lemma AddEdgeOk(t: Tree, id: Addr, c: Byte, pos: nat, spill: Addr)
    requires ShapeOk(t) && !t.hd.iscompr && IsPos(t.hd.bytes, c, pos) && IndexOf(t.hd.bytes, c) == |t.hd.bytes|
    ensures FrameOk(AddEdge(t, id, c, pos, spill))
    ensures AddEdge(t, id, c, pos, spill).id == id && AddEdge(t, id, c, pos, spill).idx == pos
  {
    var f := AddEdge(t, id, c, pos, spill);
    var ks := Spilled(t, pos, spill);
    SortedInsert(t.hd.bytes, c, pos);
    SortedIsShort(f.hd.bytes, |f.hd.bytes| - 1);
    forall i | 0 <= i < |f.kids| && i != pos ensures KidOk(f.kids[i], i) {
      var o := if i < pos then i else i - 1;
      assert f.kids[i] == ks[o];
      assert KidOk(t.kids[o], o);
    }
  }

  lemma IndexOfUnique(bytes: Bytes, c: Byte, i: nat)
    requires StrictlySorted(bytes) && i < |bytes| && bytes[i] == c
    ensures IndexOf(bytes, c) == i
  {
  }

  lemma SpilledSize(t: Tree, pos: nat, spill: Addr)
    ensures |Spilled(t, pos, spill)| == |t.kids|
  {
  }

  lemma SpilledMeans(t: Tree, pos: nat, spill: Addr, o: nat, u: Bytes)
    requires o < |t.kids|
    ensures GetKid(Spilled(t, pos, spill)[o], u) == GetKid(t.kids[o], u)
  {
  }

  /** Where edge `d` sits once `c` has been inserted at `pos`. */
  lemma IndexAfterInsert(bytes: Bytes, c: Byte, pos: nat, d: Byte)
    requires StrictlySorted(bytes) && IsPos(bytes, c, pos) && IndexOf(bytes, c) == |bytes| && d != c
    ensures var r := bytes[..pos] + [c] + bytes[pos..];
            var o := IndexOf(bytes, d);
            IndexOf(r, d) == if o < |bytes| && o < pos then o else o + 1
  {
    var r := bytes[..pos] + [c] + bytes[pos..];
    var o := IndexOf(bytes, d);
    SortedInsert(bytes, c, pos);
    if o < |bytes| {
      IndexOfUnique(r, d, if o < pos then o else o + 1);
    } else {
      forall i | 0 <= i < |r| ensures r[i] != d {
        assert i < pos ==> r[i] == bytes[i];
        assert i > pos ==> r[i] == bytes[i - 1];
      }
    }
  }

  lemma GetAddEdgeMiss(t: Tree, id: Addr, c: Byte, pos: nat, spill: Addr, k: Kid, s: Bytes)
    requires ShapeOk(t) && !t.hd.iscompr && IsPos(t.hd.bytes, c, pos) && IndexOf(t.hd.bytes, c) == |t.hd.bytes|
    requires s != [] && s[0] != c
    ensures Get(Fill(AddEdge(t, id, c, pos, spill), k), s) == Get(t, s)
  {
    hide Spilled, Spills, KidOk, GetKid, IndexOf;
    var f := AddEdge(t, id, c, pos, spill);
    var o := IndexOf(t.hd.bytes, s[0]);
    IndexAfterInsert(t.hd.bytes, c, pos, s[0]);
    SpilledSize(t, pos, spill);
    if o < |t.hd.bytes| {
      var i := if o < pos then o else o + 1;
      assert Fill(f, k).kids[i] == f.kids[i] == Spilled(t, pos, spill)[o];
      SpilledMeans(t, pos, spill, o, s[1..]);
    }
  }

  /** The opened slot is reached by edge `c`; every other key is as before. */
  lemma GetAddEdge(t: Tree, id: Addr, c: Byte, pos: nat, spill: Addr, k: Kid, s: Bytes)
    requires ShapeOk(t) && !t.hd.iscompr && IsPos(t.hd.bytes, c, pos) && IndexOf(t.hd.bytes, c) == |t.hd.bytes|
    ensures var f := AddEdge(t, id, c, pos, spill);
            FrameOk(f) && Edge(f.hd, f.idx) == [c] &&
            Get(Fill(f, k), s) == if [c] <= s then GetKid(k, s[1..]) else Get(t, s)
  {
    AddEdgeOk(t, id, c, pos, spill);
    var f := AddEdge(t, id, c, pos, spill);
    if s != [] && s[0] == c {
      assert [c] <= s;
      GetFill(f, k, s);
    } else if s != [] {
      GetAddEdgeMiss(t, id, c, pos, spill, k, s);
    }
  }

  ghost function SpillCells(t: Tree, pos: nat, spill: Addr): multiset<Cell> {
    if Spills(t, pos) then multiset{(spill, ValueNode(t.kids[12].value))} else multiset{}
  }

  lemma ValueCells(id: Addr, v: Value)
    ensures CellsKid(Sub(ValueTree(id, v))) == multiset{(id, ValueNode(v))}
  {
    assert SlotsOf([]) == [];
    assert BitmapOf([]) == NoLeaves();
    assert Cells(ValueTree(id, v)) == multiset{(id, ValueNode(v))};
  }

  lemma SpilledCells(t: Tree, pos: nat, spill: Addr)
    ensures CellsKids(Spilled(t, pos, spill)) == CellsKids(t.kids) + SpillCells(t, pos, spill)
  {
    hide CellsKids, Cells, ValueTree, ValueNode;
    var ks := Spilled(t, pos, spill);
    if Spills(t, pos) {
      CellsKidsAt(t.kids, 12);
      CellsKidsAt(ks, 12);
      assert ks[..12] == t.kids[..12] && ks[13..] == t.kids[13..];
      ValueCells(spill, t.kids[12].value);
    }
  }

  lemma OpenedCells(ks: seq<Kid>, pos: nat, r: seq<Kid>, x: Kid)
    requires pos <= |ks| && r == ks[..pos] + [x] + ks[pos..]
    ensures CellsKids(r[..pos]) + CellsKids(r[pos + 1..]) == CellsKids(ks)
  {
    hide CellsKids;
    var a, b := ks[..pos], ks[pos..];
    assert r[..pos] == a && r[pos + 1..] == b;
    assert ks == a + b;
    CellsKidsConcat(a, b);
  }

  lemma AddEdgeCells(t: Tree, id: Addr, c: Byte, pos: nat, spill: Addr)
    requires pos <= |t.hd.bytes| && pos <= |t.kids|
    ensures var f := AddEdge(t, id, c, pos, spill);
            CellsKids(f.kids[..pos]) + CellsKids(f.kids[pos + 1..]) == CellsKids(t.kids) + SpillCells(t, pos, spill)
  {
    SpilledCells(t, pos, spill);
    OpenedCells(Spilled(t, pos, spill), pos, AddEdge(t, id, c, pos, spill).kids, Leaf(Null));
  }

  /** One shift of the bitmap above `pos`, the top bit falling off. */
  function ShiftUp(bm: seq<bool>, pos: nat): (r: seq<bool>)
    requires |bm| == INLINE_SLOTS && pos < INLINE_SLOTS
  {
    (bm[..pos] + [false] + bm[pos..])[..INLINE_SLOTS]
  }

  /** Shifting the bits keeps them in step with the shifted slots. */
  lemma BitmapInsert(slots: seq<Slot>, pos: nat)
    requires pos <= |slots| && forall i :: INLINE_SLOTS <= i < |slots| ==> !slots[i].Inline?
    ensures var bm := BitmapOf(slots);
            BitmapOf(slots[..pos] + [Unset] + slots[pos..])
            == if true in bm && pos < INLINE_SLOTS then ShiftUp(bm, pos) else bm
  {
    var bm, r := BitmapOf(slots), slots[..pos] + [Unset] + slots[pos..];
    forall i | 0 <= i < INLINE_SLOTS
      ensures BitmapOf(r)[i] == (if true in bm && pos < INLINE_SLOTS then ShiftUp(bm, pos) else bm)[i]
    {
      if i < |r| {
        assert r[i] == if i < pos then slots[i] else if i == pos then Unset else slots[i - 1];
      }
      if 0 < i && i - 1 < |slots| && slots[i - 1].Inline? {
        assert bm[i - 1];
      }
    }
  }

  // ---------- meaning of a whole tree after a local edit

  lemma SameMeaning(c: Ctx, k: Kid, k': Kid, m: map<Bytes, Value>)
    requires CtxOk(c)
    requires Means(Plug(c, k), m)
    requires forall u :: GetKid(k', u) == GetKid(k, u)
    ensures Means(Plug(c, k'), m)
  {
    forall s ensures GetKid(Plug(c, k'), s) == Lookup(m, s) {
      GetPlug(c, k, k', s);
      GetPlug(c, k', k, s);
    }
  }

  lemma InsertMeaning(c: Ctx, k: Kid, k': Kid, m: map<Bytes, Value>, key: Bytes, v: Value)
    requires CtxOk(c) && Path(c) <= key
    requires Means(Plug(c, k), m)
    requires forall u :: GetKid(k', u) == if u == key[|Path(c)|..] then Some(v) else GetKid(k, u)
    ensures Means(Plug(c, k'), m[key := v])
  {
    forall s ensures GetKid(Plug(c, k'), s) == Lookup(m[key := v], s) {
      GetPlug(c, k, k', s);
      GetPlug(c, k', k, s);
      if Path(c) <= s {
        assert s == Path(c) + s[|Path(c)|..];
        assert key == Path(c) + key[|Path(c)|..];
      }
    }
  }

  lemma RemoveMeaning(c: Ctx, k: Kid, k': Kid, m: map<Bytes, Value>, key: Bytes)
    requires CtxOk(c) && Path(c) <= key
    requires Means(Plug(c, k), m)
    requires forall u :: GetKid(k', u) == if u == key[|Path(c)|..] then None else GetKid(k, u)
    ensures Means(Plug(c, k'), m - {key})
  {
    forall s ensures GetKid(Plug(c, k'), s) == Lookup(m - {key}, s) {
      GetPlug(c, k, k', s);
      GetPlug(c, k', k, s);
      if Path(c) <= s {
        assert s == Path(c) + s[|Path(c)|..];
        assert key == Path(c) + key[|Path(c)|..];
      }
    }
  }

  lemma SetKidMeaning(c: Ctx, f: Frame, v: Value, v': Value, m: map<Bytes, Value>)
    requires CtxOk(In(c, f)) && Means(Plug(In(c, f), Leaf(v)), m)
    ensures Means(Plug(In(c, f), Leaf(v')), m[Path(In(c, f)) := v'])
  {
    var key := Path(In(c, f));
    assert key[|key|..] == [];
    InsertMeaning(In(c, f), Leaf(v), Leaf(v'), m, key, v');
  }

  /** Node `t` as a key with value `v`. */
  ghost function WithData(t: Tree, v: Value): Tree {
    Tree(t.id, t.hd.SetData(v), t.kids)
  }

  lemma SetDataMeaning(c: Ctx, f: Tree, v: Value, m: map<Bytes, Value>)
    requires CtxOk(c) && Means(Plug(c, Sub(f)), m)
    ensures Means(Plug(c, Sub(WithData(f, v))), m[Path(c) := v])
  {
    var key := Path(c);
    assert key[|key|..] == [];
    var f' := WithData(f, v);
    forall u ensures GetKid(Sub(f'), u) == if u == [] then Some(v) else GetKid(Sub(f), u) {
    }
    InsertMeaning(c, Sub(f), Sub(f'), m, key, v);
  }

  lemma WithDataOk(f: Tree, v: Value, i: nat)
    requires ShapeOk(f)
    ensures ShapeOk(WithData(f, v)) && KidOk(Sub(WithData(f, v)), i)
  {
  }

  lemma MoveMeaning(c: Ctx, f: Tree, id: Addr, m: map<Bytes, Value>)
    requires CtxOk(c) && Means(Plug(c, Sub(f)), m)
    ensures Means(Plug(c, Sub(f.(id := id))), m)
  {
    SameMeaning(c, Sub(f), Sub(f.(id := id)), m);
  }

  lemma KeyAt(c: Ctx, f: Tree, m: map<Bytes, Value>)
    requires CtxOk(c) && Means(Plug(c, Sub(f)), m)
    ensures Path(c) in m <==> f.hd.iskey
  {
    hide Plug, CtxOk, Path;
    GetPlug(c, Sub(f), Sub(f), Path(c));
    assert Path(c)[|Path(c)|..] == [];
    assert Lookup(m, Path(c)) == Get(f, []);
  }

  lemma SplitMeaning(c: Ctx, f: Tree, j: nat, trimmed: Addr, id: Addr, postfix: Addr, m: map<Bytes, Value>)
    requires CtxOk(c) && ShapeOk(f) && SingleKid(f) && j < |f.hd.bytes| && Means(Plug(c, Sub(f)), m)
    ensures Means(Plug(c, Sub(Split(f, j, trimmed, id, postfix))), m)
  {
    var f' := Split(f, j, trimmed, id, postfix);
    forall u ensures GetKid(Sub(f'), u) == GetKid(Sub(f), u) {
      GetSplit(f, j, trimmed, id, postfix, u);
    }
    SameMeaning(c, Sub(f), Sub(f'), m);
  }

  lemma SplitAtKeyMeaning(c: Ctx, f: Tree, j: nat, trimmed: Addr, postfix: Addr, v: Value, m: map<Bytes, Value>)
    requires CtxOk(c) && ShapeOk(f) && SingleKid(f) && 0 < j < |f.hd.bytes| && Means(Plug(c, Sub(f)), m)
    ensures Means(Plug(c, Sub(SplitAtKey(f, j, trimmed, postfix, v))), m[Path(c) + f.hd.bytes[..j] := v])
    ensures Path(c) + f.hd.bytes[..j] !in m
  {
    var f', key := SplitAtKey(f, j, trimmed, postfix, v), Path(c) + f.hd.bytes[..j];
    assert key[|Path(c)|..] == f.hd.bytes[..j];
    forall u ensures GetKid(Sub(f'), u) == if u == key[|Path(c)|..] then Some(v) else GetKid(Sub(f), u) {
      GetSplitAtKey(f, j, trimmed, postfix, v, u);
    }
    InsertMeaning(c, Sub(f), Sub(f'), m, key, v);
    GetPlug(c, Sub(f), Sub(f), key);
    GetLine(f, f.hd.bytes[..j]);
    assert Lookup(m, key) == Get(f, f.hd.bytes[..j]);
  }

  // ---------- meaning of the growth steps of an insertion

  ghost function EmptyTree(id: Addr): Tree {
    Tree(id, PlainHeader(), [])
  }

  /** Filling the edge changes the keys below it only. */
  ghost predicate Fills(f: Tree, fr: Frame, k: Kid)
    requires fr.idx < |fr.kids|
  {
    var e := Edge(fr.hd, fr.idx);
    && (forall u :: Get(Fill(fr, k), u) == if e <= u then GetKid(k, u[|e|..]) else Get(f, u))
    && (forall u :: e <= u ==> Get(f, u) == None)
  }

  lemma FillsAt(f: Tree, fr: Frame, k: Kid, u: Bytes)
    requires fr.idx < |fr.kids| && Fills(f, fr, k)
    ensures var e := Edge(fr.hd, fr.idx);
            && GetKid(Sub(Fill(fr, k)), u) == (if e <= u then GetKid(k, u[|e|..]) else GetKid(Sub(f), u))
            && (e <= u ==> GetKid(Sub(f), u) == None)
  {
    hide Edge;
    assert Get(Fill(fr, k), u) == if Edge(fr.hd, fr.idx) <= u then GetKid(k, u[|Edge(fr.hd, fr.idx)|..]) else Get(f, u);
  }

  /** Filling an edge of `f` that had no child with a value adds that one key. */
  lemma GrowLeafMeaning(c: Ctx, f: Tree, fr: Frame, v: Value, m: map<Bytes, Value>)
    requires CtxOk(In(c, fr)) && Means(Plug(c, Sub(f)), m) && Fills(f, fr, Leaf(v))
    ensures Means(Plug(In(c, fr), Leaf(v)), m[Path(In(c, fr)) := v])
  {
    hide Means, Get, Plug, Edge, KidOk, StrictlySorted, Fills, Fill;
    var e, f', key := Edge(fr.hd, fr.idx), Fill(fr, Leaf(v)), Path(In(c, fr));
    PlugIn(c, fr, Leaf(v));
    PathIn(c, fr);
    assert Path(c) <= key && key[|Path(c)|..] == e;
    forall u ensures GetKid(Sub(f'), u) == if u == e then Some(v) else GetKid(Sub(f), u) {
      FillsAt(f, fr, Leaf(v), u);
      if e <= u {
        assert u == e + u[|e|..];
      }
    }
    InsertMeaning(c, Sub(f), Sub(f'), m, key, v);
  }

  /** Filling it with an empty node adds none. */
  lemma GrowEmptyMeaning(c: Ctx, f: Tree, fr: Frame, id: Addr, m: map<Bytes, Value>)
    requires CtxOk(In(c, fr)) && Means(Plug(c, Sub(f)), m) && Fills(f, fr, Sub(EmptyTree(id)))
    ensures Means(Plug(In(c, fr), Sub(EmptyTree(id))), m)
  {
    hide Means, Get, Plug, Edge, KidOk, StrictlySorted, Fills, Fill, EmptyTree;
    var e, k := Edge(fr.hd, fr.idx), Sub(EmptyTree(id));
    PlugIn(c, fr, k);
    forall u ensures GetKid(Sub(Fill(fr, k)), u) == GetKid(Sub(f), u) {
      FillsAt(f, fr, k, u);
      if e <= u {
        EmptyMeans(id, u[|e|..]);
      }
    }
    SameMeaning(c, Sub(f), Sub(Fill(fr, k)), m);
  }

  lemma GrowMeaning(c: Ctx, f: Tree, fr: Frame, k: Kid, m: map<Bytes, Value>)
    requires CtxOk(In(c, fr)) && Means(Plug(c, Sub(f)), m) && Fills(f, fr, k)
    requires k.Leaf? || k == Sub(EmptyTree(k.tree.id))
    ensures Means(Plug(In(c, fr), k), if k.Leaf? then m[Path(In(c, fr)) := k.value] else m)
  {
    hide Means, Get, Plug, Fills, Path, KidOk;
    if k.Leaf? {
      GrowLeafMeaning(c, f, fr, k.value, m);
    } else {
      GrowEmptyMeaning(c, f, fr, k.tree.id, m);
    }
  }

  lemma EmptyMeans(id: Addr, s: Bytes)
    ensures GetKid(Sub(EmptyTree(id)), s) == None
  {
  }

  lemma LineIsPlain(id: Addr, hd: Header, bytes: Bytes)
    ensures LineFrame(id, hd, bytes).idx == 0
  {
  }

  lemma LineFills(f: Tree, id: Addr, bytes: Bytes, k: Kid)
    requires ShapeOk(f) && f.kids == [] && 1 < |bytes| <= NODE_MAX_SIZE
    ensures LineFrame(id, f.hd, bytes).idx < |LineFrame(id, f.hd, bytes).kids|
    ensures Fills(f, LineFrame(id, f.hd, bytes), k)
  {
    hide KidOk, StrictlySorted;
    var fr := LineFrame(id, f.hd, bytes);
    FillLine(id, f.hd, bytes, k);
    LineOk(id, f.hd, bytes, Leaf(Null));
    forall u ensures Get(Fill(fr, k), u) == if bytes <= u then GetKid(k, u[|bytes|..]) else Get(f, u) {
      GetLine(Line(id, f.hd, bytes, Leaf(Null)), u);
      GetFill(fr, k, u);
      GetFillMiss(fr, k, Leaf(Null), u);
    }
  }

  lemma EdgeFills(f: Tree, id: Addr, b: Byte, pos: nat, spill: Addr, k: Kid)
    requires ShapeOk(f) && !f.hd.iscompr && IsPos(f.hd.bytes, b, pos) && IndexOf(f.hd.bytes, b) == |f.hd.bytes|
    ensures var fr := AddEdge(f, id, b, pos, spill);
            fr.idx < |fr.kids| && Edge(fr.hd, fr.idx) == [b] && Fills(f, fr, k)
  {
    hide KidOk, StrictlySorted, AddEdge, Get, Edge;
    var fr := AddEdge(f, id, b, pos, spill);
    AddEdgeOk(f, id, b, pos, spill);
    GetAddEdge(f, id, b, pos, spill, k, []);
    forall u ensures Get(Fill(fr, k), u) == (if [b] <= u then GetKid(k, u[1..]) else Get(f, u))
                     && ([b] <= u ==> Get(f, u) == None) {
      GetAddEdge(f, id, b, pos, spill, k, u);
      if [b] <= u {
        NoSuchEdge(f, b, u);
      }
    }
  }

  lemma NoSuchEdge(f: Tree, b: Byte, u: Bytes)
    requires ShapeOk(f) && !f.hd.iscompr && IndexOf(f.hd.bytes, b) == |f.hd.bytes| && [b] <= u
    ensures Get(f, u) == None
  {
    hide KidOk, StrictlySorted;
  }

  lemma GrowLine(c: Ctx, f: Tree, id: Addr, bytes: Bytes, k: Kid, m: map<Bytes, Value>)
    requires CtxOk(c) && Means(Plug(c, Sub(f)), m)
    requires ShapeOk(f) && f.kids == [] && 1 < |bytes| <= NODE_MAX_SIZE
    requires k.Leaf? || k == Sub(EmptyTree(k.tree.id))
    ensures var fr := LineFrame(id, f.hd, bytes);
            && CtxOk(In(c, fr)) && Path(In(c, fr)) == Path(c) + bytes
            && Means(Plug(In(c, fr), k), if k.Leaf? then m[Path(In(c, fr)) := k.value] else m)
  {
    hide Means, Get, Plug, Fills, KidOk, StrictlySorted, LineFrame;
    var fr := LineFrame(id, f.hd, bytes);
    FillLine(id, f.hd, bytes, k);
    LineIsPlain(id, f.hd, bytes);
    LineFills(f, id, bytes, k);
    PathIn(c, fr);
    GrowMeaning(c, f, fr, k, m);
  }

  lemma GrowEdge(c: Ctx, f: Tree, id: Addr, b: Byte, pos: nat, spill: Addr, k: Kid, m: map<Bytes, Value>)
    requires CtxOk(c) && Means(Plug(c, Sub(f)), m)
    requires ShapeOk(f) && !f.hd.iscompr && IsPos(f.hd.bytes, b, pos) && IndexOf(f.hd.bytes, b) == |f.hd.bytes|
    requires k.Leaf? || k == Sub(EmptyTree(k.tree.id))
    ensures var fr := AddEdge(f, id, b, pos, spill);
            && CtxOk(In(c, fr)) && Path(In(c, fr)) == Path(c) + [b]
            && Means(Plug(In(c, fr), k), if k.Leaf? then m[Path(In(c, fr)) := k.value] else m)
  {
    hide Means, Get, Plug, Fills, KidOk, StrictlySorted, AddEdge;
    var fr := AddEdge(f, id, b, pos, spill);
    AddEdgeOk(f, id, b, pos, spill);
    EdgeFills(f, id, b, pos, spill, k);
    PathIn(c, fr);
    GrowMeaning(c, f, fr, k, m);
  }

  /** A value moved into a leaf node of its own means the same. */
  lemma ValueMeaning(c: Ctx, id: Addr, v: Value, m: map<Bytes, Value>)
    requires CtxOk(c) && Means(Plug(c, Leaf(v)), m)
    ensures Means(Plug(c, Sub(ValueTree(id, v))), m)
    ensures ShapeOk(ValueTree(id, v))
  {
    SameMeaning(c, Leaf(v), Sub(ValueTree(id, v)), m);
  }
}
