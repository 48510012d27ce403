/** Cells of a memory map, and what one allocation, write or free does to them. */
module RaxMemory {
  import opened ByteStrings
  import opened RaxTypes

  type Memory = map<Addr, Node>

  ghost function CellsOf(m: Memory): multiset<Cell> {
    multiset(m.Items)
  }

  lemma CellsOfAt(m: Memory, a: Addr, nd: Node)
    ensures (a, nd) in CellsOf(m) <==> a in m && m[a] == nd
  {
  }

  lemma CellsOfOnce(m: Memory, c: Cell)
    ensures CellsOf(m)[c] <= 1
  {
  }

  lemma CellsOfFree(m: Memory, a: Addr)
    requires a in m
    ensures CellsOf(m - {a}) == CellsOf(m) - multiset{(a, m[a])}
    ensures (a, m[a]) in CellsOf(m)
    ensures |m - {a}| == |m| - 1
  {
    var l, r := (m - {a}).Items, m.Items - {(a, m[a])};
    forall p: Cell ensures p in l <==> p in r {
      assert p == (p.0, p.1);
    }
    assert l == r;
    assert (m - {a}).Keys == m.Keys - {a};
  }

  lemma CellsOfAdd(m: Memory, a: Addr, nd: Node)
    requires a !in m
    ensures CellsOf(m[a := nd]) == CellsOf(m) + multiset{(a, nd)}
    ensures |m[a := nd]| == |m| + 1
  {
    CellsOfFree(m[a := nd], a);
    assert m[a := nd] - {a} == m;
  }

  lemma CellsOfWrite(m: Memory, a: Addr, nd: Node)
    requires a in m
    ensures CellsOf(m[a := nd]) == CellsOf(m) - multiset{(a, m[a])} + multiset{(a, nd)}
    ensures (a, m[a]) in CellsOf(m)
    ensures |m[a := nd]| == |m|
  {
    CellsOfFree(m, a);
    CellsOfAdd(m - {a}, a, nd);
    assert m[a := nd] == (m - {a})[a := nd];
  }

  lemma AssocCells(a: multiset<Cell>, b: multiset<Cell>, c: multiset<Cell>)
    ensures a + b + c == a + (b + c)
  {
  }

  lemma SwapCells(a: multiset<Cell>, b: multiset<Cell>, c: multiset<Cell>)
    ensures a + (b + c) == b + (a + c)
  {
  }

  lemma CommCells(a: multiset<Cell>, b: multiset<Cell>)
    ensures a + b == b + a
  {
  }

  /** The part `c` moves to the front of a node `a` with parts `b`, `d` and `e`. */
  lemma LiftCells(a: multiset<Cell>, b: multiset<Cell>, c: multiset<Cell>, d: multiset<Cell>, e: multiset<Cell>)
    ensures a + ((b + (c + d)) + e) == c + ((a + e + b) + d)
  {
  }

  lemma LowerCells(a: multiset<Cell>, b: multiset<Cell>, c: multiset<Cell>, d: multiset<Cell>)
    ensures c + ((a + b) + d) == a + (b + c + d)
  {
  }

  /** There is always an unused address. */
  lemma Unused(m: Memory)
    ensures exists a: Addr :: a !in m
  {
    var b := Bounded(m.Keys);
    assert b !in m.Keys;
  }
}
