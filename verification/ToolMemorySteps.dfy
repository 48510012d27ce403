/** The invariant of the tool memory on a snapshot of its fields, and why each
    change of the records keeps it. */
module ToolMemorySteps {
  import opened ByteStrings
  import opened ToolMemorySpec
  import opened ToolMemoryLists

  /** The fields of the tool memory; `lru` and `chains` are the two kinds of list
      the records form. */
  datatype View = View(m: Entries, bm: Blocks, byId: map<Bytes, Addr>, byBlock: map<Bytes, Addr>,
                       head: Ptr, tail: Ptr, entries: nat, bytes: nat, clock: nat,
                       scan: nat, lru: seq<Addr>, chains: Chains)

  ghost function Items(v: View): (r: seq<Item>)
    ensures |r| == |v.lru|
  {
    ItemsOf(v.m, v.bm, v.lru)
  }

  /** No block has been marked by a scan that is still to come. */
  ghost predicate SeenOk(bm: Blocks, scan: nat) {
    forall b :: b in bm ==> bm[b].seen <= scan
  }

  ghost predicate Sound(l: Limits, v: View) {
    && ListOk(v.m, v.lru, v.head, v.tail)
    && ChainsOk(v.m, v.bm, v.chains)
    && Shared(v.m, v.bm, v.lru, v.chains)
    && IdsOk(v.m, v.byId)
    && BlocksOk(v.bm, v.byBlock)
    && SizesOk(l, v.m, v.bm)
    && SeenOk(v.bm, v.scan)
    && Totals(l, v.entries, v.bytes, v.clock, v.bm, v.chains, Items(v))
  }

  /** Counters go down to zero and no further. */
  function SaturatingSub(x: nat, y: nat): nat {
    if x >= y then x - y else 0
  }

  // Forgetting the entry at `i` of the recency list and `j` of its block's list

  ghost predicate Position(v: View, i: nat, j: nat) {
    && i < |v.lru| && v.lru[i] in v.m
    && var b := v.m[v.lru[i]].block;
      && b in v.chains && b in v.bm && v.bm[b].refs == |v.chains[b]|
      && j < |v.chains[b]| && v.chains[b][j] == v.lru[i]
      && v.bm[b].dsml in v.byBlock
  }

  lemma {:induction false} FindPosition(l: Limits, v: View, i: nat) returns (j: nat)
    requires Sound(l, v) && i < |v.lru|
    ensures Position(v, i, j) && CanUnlink(v.m, v.lru[i])
  {
    hide Totals, SizesOk, IdsOk, ChainOk;
    Neighbours(v.m, v.lru, v.head, v.tail, i);
    var b := v.m[v.lru[i]].block;
    assert Chained(v.m, v.bm, v.chains, b);
    j :| 0 <= j < |v.chains[b]| && v.chains[b][j] == v.lru[i];
  }

  ghost function ChainsCut(chains: Chains, b: Addr, j: nat): Chains
    requires b in chains && j < |chains[b]|
  {
    if |chains[b]| == 1 then chains - {b} else chains[b := Cut(chains[b], j)]
  }

  ghost function BlocksCut(bm: Blocks, b: Addr, first: Ptr): Blocks
    requires b in bm && bm[b].refs > 0
  {
    if bm[b].refs == 1 then bm - {b} else bm[b := bm[b].(entries := first, refs := bm[b].refs - 1)]
  }

  lemma ChainsCutOk(m: Entries, bm: Blocks, chains: Chains, i: nat, e: Addr, j: nat)
    requires ChainsOk(m, bm, chains) && e in m
    requires m[e].block in chains && m[e].block in bm
    requires j < |chains[m[e].block]| && chains[m[e].block][j] == e
    ensures var b, c := m[e].block, chains[m[e].block];
            && Mapped(m, At(c, j - 1)) && bm[b].refs > 0
            && SameButChain(m, Bypassed(m, At(c, j - 1), e), b)
            && ChainsOk(Bypassed(m, At(c, j - 1), e) - {e},
                        BlocksCut(bm, b, if j == 0 then m[e].blockNext else bm[b].entries), ChainsCut(chains, b, j))
  {
    hide ChainOk;
    var b, c := m[e].block, chains[m[e].block];
    assert Chained(m, bm, chains, b);
    BlockOfChain(m, b, c, bm[b].entries);
    assert j > 0 ==> c[j - 1] in c;
    BypassedSame(m, At(c, j - 1), e);
    var first := if j == 0 then m[e].blockNext else bm[b].entries;
    var m1, bm1 := Bypassed(m, At(c, j - 1), e), bm[b := bm[b].(entries := first, refs := bm[b].refs - 1)];
    BypassedOk(m, b, c, bm[b].entries, j);
    ChainDistinct(m, b, c, bm[b].entries);
    CutElems(c, j);
    assert e !in Cut(c, j);
    ChainSame(m1, m1 - {e}, b, Cut(c, j), first);
    hide Bypassed, Cut;
    ChainsSameButOne(m, m1 - {e}, bm, bm1, chains, b, Cut(c, j));
    if |c| == 1 {
      ChainsDrop(m1 - {e}, bm1, chains[b := Cut(c, j)], b);
      assert chains[b := Cut(c, j)] - {b} == chains - {b};
      assert bm1 - {b} == bm - {b};
    }
  }

  lemma ChainDistinct(m: Entries, b: Addr, c: seq<Addr>, first: Ptr)
    requires ChainOk(m, b, c, first)
    ensures Distinct(c)
  {
  }

  lemma ChainsDrop(m: Entries, bm: Blocks, chains: Chains, b: Addr)
    requires ChainsOk(m, bm, chains)
    ensures ChainsOk(m, bm - {b}, chains - {b})
  {
    hide ChainOk;
    var rest := chains - {b};
    forall d
      ensures Chained(m, bm - {b}, rest, d)
    {
      assert Chained(m, bm, chains, d);
    }
  }

  /** Entries may lose their links and the entry `e`, nothing else. */
  ghost predicate Fewer(m: Entries, n: Entries, e: Addr) {
    && n.Keys == m.Keys - {e}
    && forall x :: x in n ==>
         n[x].(prev := None, next := None, blockNext := None) == m[x].(prev := None, next := None, blockNext := None)
  }

  ghost function Removed(v: View, i: nat, j: nat): View
    requires Position(v, i, j) && CanUnlink(v.m, v.lru[i])
    requires Mapped(v.m, At(v.chains[v.m[v.lru[i]].block], j - 1))
  {
    var e := v.lru[i];
    var x := v.m[e];
    var b, c := x.block, v.chains[x.block];
    var last := v.bm[b].refs == 1;
    var freed := SaturatingSub(v.bytes, x.bytes);
    View(Bypassed(Unlinked(v.m, e), At(c, j - 1), e) - {e},
         BlocksCut(v.bm, b, if j == 0 then x.blockNext else v.bm[b].entries),
         v.byId - {x.id},
         if last then v.byBlock - {v.bm[b].dsml} else v.byBlock,
         if x.prev.Some? then v.head else x.next,
         if x.next.Some? then v.tail else x.prev,
         SaturatingSub(v.entries, 1),
         if last then SaturatingSub(freed, v.bm[b].bytes) else freed,
         v.clock, v.scan, Cut(v.lru, i), ChainsCut(v.chains, b, j))
  }

  lemma RemovedLists(l: Limits, v: View, i: nat, j: nat)
    requires Sound(l, v) && Position(v, i, j)
    ensures CanUnlink(v.m, v.lru[i]) && Mapped(v.m, At(v.chains[v.m[v.lru[i]].block], j - 1))
    ensures var w := Removed(v, i, j);
            && ListOk(w.m, w.lru, w.head, w.tail)
            && ChainsOk(w.m, w.bm, w.chains)
            && Fewer(v.m, w.m, v.lru[i])
  {
    hide ChainOk, LinkedAt, Shared, IdsOk, BlocksOk, SizesOk, SeenOk, Totals, Bypassed, Unlinked, Cut, BlocksCut, ChainsCut, Distinct;
    var e := v.lru[i];
    var b := v.m[e].block;
    var m1 := RemovedLinks(v, i);
    ChainsSameButLinks(v.m, m1, v.bm, v.chains);
    ChainsCutOk(m1, v.bm, v.chains, i, e, j);
    var m2 := Bypassed(m1, At(v.chains[b], j - 1), e);
    var w := Removed(v, i, j);
    assert forall x :: x in m1 ==> m2[x].prev == m1[x].prev && m2[x].next == m1[x].next;
    ListSame(m1, m2, w.lru, w.head, w.tail);
    NotInCut(v, i);
    ListFree(m2, w.lru, w.head, w.tail, e);
  }

  lemma RemovedLinks(v: View, i: nat) returns (m1: Entries)
    requires ListOk(v.m, v.lru, v.head, v.tail) && i < |v.lru| && v.lru[i] in v.m
    ensures CanUnlink(v.m, v.lru[i]) && m1 == Unlinked(v.m, v.lru[i]) && SameButLinks(v.m, m1)
    ensures m1[v.lru[i]].blockNext == v.m[v.lru[i]].blockNext && m1[v.lru[i]].block == v.m[v.lru[i]].block
    ensures ListOk(m1, Cut(v.lru, i), if v.m[v.lru[i]].prev.Some? then v.head else v.m[v.lru[i]].next,
                                      if v.m[v.lru[i]].next.Some? then v.tail else v.m[v.lru[i]].prev)
  {
    hide LinkedAt, Distinct;
    Neighbours(v.m, v.lru, v.head, v.tail, i);
    m1 := Unlinked(v.m, v.lru[i]);
    UnlinkedOk(v.m, v.lru, v.head, v.tail, i);
    UnlinkedSame(v.m, v.lru[i]);
    assert m1[v.lru[i]].(prev := None, next := None) == v.m[v.lru[i]].(prev := None, next := None);
  }

  lemma NotInCut(v: View, i: nat)
    requires ListOk(v.m, v.lru, v.head, v.tail) && i < |v.lru|
    ensures v.lru[i] !in Cut(v.lru, i)
  {
    CutElems(v.lru, i);
    assert v.lru[i] !in Elems(Cut(v.lru, i));
  }

  lemma RemovedIndex(l: Limits, v: View, i: nat, j: nat)
    requires Sound(l, v) && Position(v, i, j)
    ensures CanUnlink(v.m, v.lru[i]) && Mapped(v.m, At(v.chains[v.m[v.lru[i]].block], j - 1))
    ensures var w := Removed(v, i, j);
            && Shared(w.m, w.bm, w.lru, w.chains) && IdsOk(w.m, w.byId) && BlocksOk(w.bm, w.byBlock) && SizesOk(l, w.m, w.bm)
            && SeenOk(w.bm, w.scan)
  {
    hide ListOk, ChainsOk, ChainOk, Totals, Bypassed, Unlinked, Cut, Distinct, Shared, IdsOk, BlocksOk, SizesOk, SeenOk, BlocksCut, ChainsCut;
    RemovedLists(l, v, i, j);
    var e := v.lru[i];
    var b := v.m[e].block;
    var w := Removed(v, i, j);
    CutOfLists(v, i, j);
    SharedRemoved(v.m, w.m, v.bm, v.lru, w.lru, v.chains, e, j, if j == 0 then v.m[e].blockNext else v.bm[b].entries);
    IdsRemoved(v.m, w.m, v.byId, e);
    SeenRemoved(v.bm, b, if j == 0 then v.m[e].blockNext else v.bm[b].entries, v.scan);
    BlocksRemoved(v.bm, v.byBlock, b, if j == 0 then v.m[e].blockNext else v.bm[b].entries);
    SizesRemoved(l, v.m, w.m, v.bm, e, b, if j == 0 then v.m[e].blockNext else v.bm[b].entries);
  }

  lemma SharedRemoved(m: Entries, n: Entries, bm: Blocks, lru: seq<Addr>, rest: seq<Addr>, chains: Chains,
                      e: Addr, j: nat, first: Ptr)
    requires Shared(m, bm, lru, chains) && Fewer(m, n, e) && Elems(rest) == Elems(lru) - {e} && e in m
    requires m[e].block in chains && m[e].block in bm && bm[m[e].block].refs == |chains[m[e].block]|
    requires j < |chains[m[e].block]| && chains[m[e].block][j] == e
    requires forall x :: x in chains[m[e].block] && x != e ==> x in Cut(chains[m[e].block], j)
    ensures Shared(n, BlocksCut(bm, m[e].block, first), rest, ChainsCut(chains, m[e].block, j))
  {
    hide Cut;
    var b := m[e].block;
    if |chains[b]| == 1 {
      assert forall x :: x in chains[b] ==> x == e;
    }
    assert forall x :: x in n ==> n[x].block == m[x].block;
  }

  lemma IdsRemoved(m: Entries, n: Entries, byId: map<Bytes, Addr>, e: Addr)
    requires IdsOk(m, byId) && Fewer(m, n, e) && e in m
    ensures IdsOk(n, byId - {m[e].id})
  {
    assert forall x :: x in n ==> n[x].id == m[x].id;
  }

  lemma BlocksRemoved(bm: Blocks, byBlock: map<Bytes, Addr>, b: Addr, first: Ptr)
    requires BlocksOk(bm, byBlock) && b in bm && bm[b].refs > 0
    ensures BlocksOk(BlocksCut(bm, b, first), if bm[b].refs == 1 then byBlock - {bm[b].dsml} else byBlock)
  {
  }

  lemma SeenRemoved(bm: Blocks, b: Addr, first: Ptr, scan: nat)
    requires SeenOk(bm, scan) && b in bm && bm[b].refs > 0
    ensures SeenOk(BlocksCut(bm, b, first), scan)
  {
  }

  lemma SizesRemoved(l: Limits, m: Entries, n: Entries, bm: Blocks, e: Addr, b: Addr, first: Ptr)
    requires SizesOk(l, m, bm) && b in bm && bm[b].refs > 0 && Fewer(m, n, e)
    ensures SizesOk(l, n, BlocksCut(bm, b, first))
  {
    assert forall x :: x in n ==> n[x].bytes == m[x].bytes && n[x].id == m[x].id;
  }

  lemma CutOfLists(v: View, i: nat, j: nat)
    requires ListOk(v.m, v.lru, v.head, v.tail) && ChainsOk(v.m, v.bm, v.chains) && Position(v, i, j)
    ensures var b := v.m[v.lru[i]].block;
            && Elems(Cut(v.lru, i)) == Elems(v.lru) - {v.lru[i]}
            && forall x :: x in v.chains[b] && x != v.lru[i] ==> x in Cut(v.chains[b], j)
  {
    var b := v.m[v.lru[i]].block;
    assert Chained(v.m, v.bm, v.chains, b);
    ChainDistinct(v.m, b, v.chains[b], v.bm[b].entries);
    hide ChainOk, ChainsOk, Distinct, Cut;
    CutElems(v.lru, i);
    CutElems(v.chains[b], j);
    assert forall x :: x in v.chains[b] && x != v.lru[i] ==> x in Elems(Cut(v.chains[b], j));
  }

  lemma RemovedItem(m: Entries, n: Entries, bm: Blocks, lru: seq<Addr>, chains: Chains, e: Addr, first: Ptr, x: Addr)
    requires Shared(m, bm, lru, chains) && Fewer(m, n, e) && e in m && x in n
    requires bm[m[e].block].refs == |chains[m[e].block]|
    ensures ItemAt(n, BlocksCut(bm, m[e].block, first), x) == ItemAt(m, bm, x)
  {
    assert n[x].block == m[x].block && n[x].id == m[x].id && n[x].source == m[x].source && n[x].stamp == m[x].stamp;
    assert e in chains[m[e].block] && x in chains[m[x].block];
  }

  lemma RemovedItems(l: Limits, v: View, i: nat, j: nat)
    requires Sound(l, v) && Position(v, i, j)
    ensures CanUnlink(v.m, v.lru[i]) && Mapped(v.m, At(v.chains[v.m[v.lru[i]].block], j - 1))
    ensures Items(Removed(v, i, j)) == Without(Items(v), i)
  {
    hide ListOk, ChainsOk, ChainOk, Totals, Bypassed, Unlinked, Cut, Distinct, Shared, IdsOk, BlocksOk, SizesOk, SeenOk, BlocksCut, ChainsCut, ItemAt;
    RemovedLists(l, v, i, j);
    CutOfLists(v, i, j);
    var e := v.lru[i];
    var b := v.m[e].block;
    var w := Removed(v, i, j);
    forall k | 0 <= k < |w.lru|
      ensures Items(w)[k] == Without(Items(v), i)[k]
    {
      assert w.lru[k] in Elems(w.lru);
      InMemory(v, w.lru[k]);
      RemovedItem(v.m, w.m, v.bm, v.lru, v.chains, e, if j == 0 then v.m[e].blockNext else v.bm[b].entries, w.lru[k]);
    }
  }

  lemma InMemory(v: View, x: Addr)
    requires Shared(v.m, v.bm, v.lru, v.chains) && x in Elems(v.lru)
    ensures x in v.m
  {
  }

  lemma RefsCut(bm: Blocks, byBlock: map<Bytes, Addr>, chains: Chains, items: seq<Item>, i: nat, b: Addr, j: nat, first: Ptr)
    requires RefsOk(bm, chains, items) && BlocksOk(bm, byBlock)
    requires i < |items| && b in chains && b in bm && bm[b].refs > 0 && j < |chains[b]| && items[i].dsml == bm[b].dsml
    ensures RefsOk(BlocksCut(bm, b, first), ChainsCut(chains, b, j), Without(items, i))
  {
    hide Without, Uses, Cut;
    var bm1, cut := BlocksCut(bm, b, first), ChainsCut(chains, b, j);
    forall d | d in cut && d in bm1
      ensures |cut[d]| == Uses(Without(items, i), bm1[d].dsml)
    {
      UsesWithout(items, i, bm[d].dsml);
    }
  }

  lemma ChainLength(bm: Blocks, chains: Chains, items: seq<Item>, b: Addr)
    requires RefsOk(bm, chains, items) && b in chains && b in bm
    ensures |chains[b]| == Uses(items, bm[b].dsml)
  {
  }

  lemma TotalsCut(l: Limits, entries: nat, bytes: nat, clock: nat, bm: Blocks, byBlock: map<Bytes, Addr>,
                  chains: Chains, items: seq<Item>, i: nat, b: Addr, j: nat, first: Ptr)
    requires Totals(l, entries, bytes, clock, bm, chains, items) && BlocksOk(bm, byBlock)
    requires i < |items| && b in chains && b in bm && bm[b].refs == |chains[b]| && j < |chains[b]| && items[i].dsml == bm[b].dsml
    ensures entries > 0 && bytes >= l.EntryBytes(items[i].id)
    ensures var rest := bytes - l.EntryBytes(items[i].id);
            var freed := if bm[b].refs == 1 then l.BlockBytes(bm[b].dsml) else 0;
            && rest >= freed
            && Totals(l, entries - 1, rest - freed, clock, BlocksCut(bm, b, first), ChainsCut(chains, b, j), Without(items, i))
  {
    hide Cost, Uses, WellFormed, RefsOk, BlocksOk, Cut, BlocksCut, ChainsCut;
    CostWithout(l, items, i);
    UsesWithout(items, i, bm[b].dsml);
    RefsCut(bm, byBlock, chains, items, i, b, j, first);
    WithoutWellFormed(items, i, clock);
    ChainLength(bm, chains, items, b);
  }

  /** Forgetting an entry keeps the invariant and forgets its item only; no
      subtraction saturates. */
  lemma RemovedSound(l: Limits, v: View, i: nat, j: nat)
    requires Sound(l, v) && Position(v, i, j)
    ensures CanUnlink(v.m, v.lru[i]) && Mapped(v.m, At(v.chains[v.m[v.lru[i]].block], j - 1))
    ensures Sound(l, Removed(v, i, j)) && Items(Removed(v, i, j)) == Without(Items(v), i)
  {
    hide ListOk, ChainsOk, ChainOk, Shared, IdsOk, BlocksOk, SizesOk, SeenOk, Totals, Bypassed, Unlinked, Cut, BlocksCut, ChainsCut, Without;
    RemovedLists(l, v, i, j);
    RemovedIndex(l, v, i, j);
    RemovedItems(l, v, i, j);
    var e := v.lru[i];
    var b := v.m[e].block;
    SizeOf(l, v.m, v.bm, e);
    assert Items(v)[i] == ItemAt(v.m, v.bm, e);
    TotalsCut(l, v.entries, v.bytes, v.clock, v.bm, v.byBlock, v.chains, Items(v), i, b, j,
              if j == 0 then v.m[e].blockNext else v.bm[b].entries);
  }

  lemma RemovedChain(l: Limits, v: View, i: nat, j: nat) returns (c: seq<Addr>)
    requires Sound(l, v) && Position(v, i, j) && CanUnlink(v.m, v.lru[i])
    ensures var e := v.lru[i];
            var b, u := v.m[e].block, Unlinked(v.m, e);
            && c == v.chains[b] && b in v.bm && ChainOk(u, b, c, v.bm[b].entries)
            && u[e].block == b && u[e].bytes == v.m[e].bytes && u[e].blockNext == v.m[e].blockNext
  {
    hide ChainOk, Unlinked, LinkedAt, Distinct;
    var b := v.m[v.lru[i]].block;
    c := v.chains[b];
    var m1 := RemovedLinks(v, i);
    assert m1[v.lru[i]].(prev := None, next := None) == v.m[v.lru[i]].(prev := None, next := None);
    ChainsSameButLinks(v.m, m1, v.bm, v.chains);
    assert Chained(m1, v.bm, v.chains, b);
  }

  lemma SizeOf(l: Limits, m: Entries, bm: Blocks, e: Addr)
    requires SizesOk(l, m, bm) && e in m && m[e].block in bm
    ensures m[e].bytes == l.EntryBytes(m[e].id) && bm[m[e].block].bytes == l.BlockBytes(bm[m[e].block].dsml)
  {
  }

  // Touching the entry at `i`

  function Stamped(m: Entries, e: Addr, stamp: nat, upgrade: bool): (r: Entries)
    requires e in m
    ensures r.Keys == m.Keys
  {
    m[e := m[e].(stamp := stamp, source := if upgrade then Ram else m[e].source)]
  }

  /** Only recency links, stamps and sources differ. */
  ghost predicate SameBut(m: Entries, n: Entries) {
    && n.Keys == m.Keys
    && forall x {:trigger n[x]} :: x in m ==>
         && n[x].id == m[x].id && n[x].block == m[x].block && n[x].bytes == m[x].bytes && n[x].blockNext == m[x].blockNext
  }

  lemma StampedList(v: View, i: nat, stamp: nat, upgrade: bool) returns (m1: Entries)
    requires ListOk(v.m, v.lru, v.head, v.tail) && i < |v.lru| && v.lru[i] in v.m
    ensures m1 == Stamped(v.m, v.lru[i], stamp, upgrade) && CanUnlink(m1, v.lru[i]) && ListOk(m1, v.lru, v.head, v.tail)
    ensures m1[v.lru[i]].prev == v.m[v.lru[i]].prev && m1[v.lru[i]].next == v.m[v.lru[i]].next
  {
    hide Distinct, LinkedAt;
    m1 := Stamped(v.m, v.lru[i], stamp, upgrade);
    ListSame(v.m, m1, v.lru, v.head, v.tail);
    Neighbours(m1, v.lru, v.head, v.tail, i);
  }

  /** The records once `e` has moved to the head of the recency list. */
  function Moved(m: Entries, e: Addr, head: Ptr): (r: Entries)
    requires CanUnlink(m, e) && Mapped(m, head)
    ensures r.Keys == m.Keys
  {
    if head == Some(e) then m else Pushed(Unlinked(m, e), e, if m[e].prev.Some? then head else m[e].next)
  }

  function MovedTail(m: Entries, e: Addr, head: Ptr, tail: Ptr): Ptr
    requires e in m
  {
    if head == Some(e) then tail
    else if (if m[e].prev.Some? then head else m[e].next).None? then Some(e)
    else if m[e].next.Some? then tail else m[e].prev
  }

  lemma MovedOk(m: Entries, s: seq<Addr>, head: Ptr, tail: Ptr, i: nat)
    requires ListOk(m, s, head, tail) && i < |s|
    ensures CanUnlink(m, s[i]) && Mapped(m, head)
    ensures ListOk(Moved(m, s[i], head), [s[i]] + Cut(s, i), Some(s[i]), MovedTail(m, s[i], head, tail))
    ensures SameButLinks(m, Moved(m, s[i], head))
  {
    hide Distinct, LinkedAt, Cut, Unlinked, Pushed, ListOk;
    Neighbours(m, s, head, tail, i);
    HeadMapped(m, s, head, tail);
    if head == Some(s[i]) {
      HeadPosition(m, s, head, tail, i);
    } else {
      var n := MovedToHead(m, s, head, tail, i);
    }
  }

  predicate CanTouch(v: View, i: nat, upgrade: bool) {
    && i < |v.lru| && v.lru[i] in v.m && CanUnlink(v.m, v.lru[i]) && Mapped(v.m, v.head)
    && CanUnlink(Stamped(v.m, v.lru[i], v.clock + 1, upgrade), v.lru[i])
  }

  ghost function Touched(v: View, i: nat, upgrade: bool): View
    requires CanTouch(v, i, upgrade)
  {
    var e := v.lru[i];
    var m1 := Stamped(v.m, e, v.clock + 1, upgrade);
    View(Moved(m1, e, v.head), v.bm, v.byId, v.byBlock, Some(e), MovedTail(m1, e, v.head, v.tail),
         v.entries, v.bytes, v.clock + 1, v.scan, [e] + Cut(v.lru, i), v.chains)
  }

  /** The parts of a state in which an entry has been touched. */
  lemma TouchedIs(v: View, i: nat, upgrade: bool, w: View)
    requires CanTouch(v, i, upgrade)
    requires var e, m1 := v.lru[i], Stamped(v.m, v.lru[i], v.clock + 1, upgrade);
             && w.m == Moved(m1, e, v.head) && w.head == Some(e) && w.tail == MovedTail(m1, e, v.head, v.tail)
             && w.clock == v.clock + 1 && w.lru == [e] + Cut(v.lru, i)
    requires w.bm == v.bm && w.byId == v.byId && w.byBlock == v.byBlock && w.entries == v.entries && w.bytes == v.bytes
    requires w.scan == v.scan && w.chains == v.chains
    ensures w == Touched(v, i, upgrade)
  {
    hide Moved, MovedTail, Stamped, Cut, CanUnlink;
  }

  lemma StampedHead(v: View, i: nat, upgrade: bool)
    requires CanTouch(v, i, upgrade)
    ensures Mapped(Stamped(v.m, v.lru[i], v.clock + 1, upgrade), v.head)
  {
    hide CanUnlink;
  }

  /** Only the stamp and source of `e` are new. */
  ghost predicate Restamped(m: Entries, n: Entries, e: Addr, stamp: nat, upgrade: bool) {
    && SameBut(m, n) && e in m
    && forall x {:trigger n[x]} :: x in m ==>
         && n[x].stamp == (if x == e then stamp else m[x].stamp)
         && n[x].source == (if x == e && upgrade then Ram else m[x].source)
  }

  lemma TouchedList(v: View, i: nat, upgrade: bool)
    requires ListOk(v.m, v.lru, v.head, v.tail) && i < |v.lru|
    ensures CanTouch(v, i, upgrade)
    ensures var w := Touched(v, i, upgrade);
            ListOk(w.m, w.lru, w.head, w.tail) && Restamped(v.m, w.m, v.lru[i], v.clock + 1, upgrade)
  {
    hide Distinct, LinkedAt, Cut, Unlinked, Pushed, Restamped, Stamped, ListOk, Moved, MovedTail;
    var e := v.lru[i];
    Neighbours(v.m, v.lru, v.head, v.tail, i);
    HeadMapped(v.m, v.lru, v.head, v.tail);
    var m1 := StampedList(v, i, v.clock + 1, upgrade);
    MovedOk(m1, v.lru, v.head, v.tail, i);
    RestampedMoved(v.m, m1, Moved(m1, e, v.head), e, v.clock + 1, upgrade);
  }

  lemma RestampedMoved(m: Entries, m1: Entries, m3: Entries, e: Addr, stamp: nat, upgrade: bool)
    requires e in m && m1 == Stamped(m, e, stamp, upgrade) && SameButLinks(m1, m3)
    ensures Restamped(m, m3, e, stamp, upgrade)
  {
    assert forall x :: x in m ==> m3[x].(prev := None, next := None) == m1[x].(prev := None, next := None);
  }

  lemma MovedToHead(m: Entries, s: seq<Addr>, head: Ptr, tail: Ptr, i: nat) returns (n: Entries)
    requires ListOk(m, s, head, tail) && i < |s| && CanUnlink(m, s[i])
    ensures var x := m[s[i]];
            var head1, tail1 := if x.prev.Some? then head else x.next, if x.next.Some? then tail else x.prev;
            && Mapped(m, head1) && n == Pushed(Unlinked(m, s[i]), s[i], head1)
            && ListOk(n, [s[i]] + Cut(s, i), Some(s[i]), if head1.Some? then tail1 else Some(s[i]))
            && SameButLinks(m, n)
  {
    hide Distinct, LinkedAt, Cut, Unlinked, Pushed;
    var e, x := s[i], m[s[i]];
    Neighbours(m, s, head, tail, i);
    HeadMapped(m, s, head, tail);
    UnlinkedOk(m, s, head, tail, i);
    UnlinkedSame(m, e);
    DistinctOf(m, s, head, tail);
    CutElems(s, i);
    assert e !in Elems(Cut(s, i));
    var m2 := Unlinked(m, e);
    var head1, tail1 := if x.prev.Some? then head else x.next, if x.next.Some? then tail else x.prev;
    PushedOk(m2, Cut(s, i), head1, tail1, e);
    PushedSame(m2, e, head1);
    n := Pushed(m2, e, head1);
    hide ListOk;
    SameLinksTwice(m, m2, n);
  }

  lemma DistinctOf(m: Entries, s: seq<Addr>, head: Ptr, tail: Ptr)
    requires ListOk(m, s, head, tail)
    ensures Distinct(s)
  {
  }

  lemma HeadPosition(m: Entries, s: seq<Addr>, head: Ptr, tail: Ptr, i: nat)
    requires ListOk(m, s, head, tail) && i < |s| && head == Some(s[i])
    ensures [s[i]] + Cut(s, i) == s
  {
    Unequal0(s, i);
  }

  lemma Unequal0(s: seq<Addr>, i: nat)
    requires Distinct(s) && i < |s| && s[0] == s[i]
    ensures i == 0
  {
  }

  lemma SameLinksTwice(m: Entries, n: Entries, o: Entries)
    requires SameButLinks(m, n) && SameButLinks(n, o)
    ensures SameButLinks(m, o)
  {
    assert forall x :: x in m ==> n[x].(prev := None, next := None) == m[x].(prev := None, next := None);
  }

  lemma RestampedChains(m: Entries, n: Entries, bm: Blocks, chains: Chains)
    requires ChainsOk(m, bm, chains) && SameBut(m, n)
    ensures ChainsOk(n, bm, chains)
  {
    hide ChainOk;
    forall b
      ensures Chained(n, bm, chains, b)
    {
      assert Chained(m, bm, chains, b);
      if b in chains {
        ChainSame(m, n, b, chains[b], bm[b].entries);
      }
    }
  }

  lemma RestampedIndex(l: Limits, m: Entries, n: Entries, bm: Blocks, lru: seq<Addr>, moved: seq<Addr>, chains: Chains, byId: map<Bytes, Addr>)
    requires Shared(m, bm, lru, chains) && IdsOk(m, byId) && SizesOk(l, m, bm)
    requires SameBut(m, n) && Elems(moved) == Elems(lru)
    ensures Shared(n, bm, moved, chains) && IdsOk(n, byId) && SizesOk(l, n, bm)
  {
    assert forall x :: x in m ==> n[x].id == m[x].id && n[x].block == m[x].block && n[x].bytes == m[x].bytes;
  }

  lemma FrontWellFormed(items: seq<Item>, i: nat, item: Item, clock: nat)
    requires WellFormed(items, clock) && i < |items|
    requires item.id == items[i].id && item.dsml == items[i].dsml && item.stamp == clock + 1
    ensures WellFormed([item] + Without(items, i), clock + 1)
  {
    WithoutWellFormed(items, i, clock);
    PushWellFormed(Without(items, i), item, clock);
  }

  lemma TotalsMoved(l: Limits, entries: nat, bytes: nat, clock: nat, bm: Blocks, chains: Chains,
                    items: seq<Item>, i: nat, item: Item)
    requires Totals(l, entries, bytes, clock, bm, chains, items) && i < |items|
    requires item.id == items[i].id && item.dsml == items[i].dsml && item.stamp == clock + 1
    ensures Totals(l, entries, bytes, clock + 1, bm, chains, [item] + Without(items, i))
  {
    hide Cost, Uses, WellFormed;
    FrontCost(l, items, i, item);
    FrontWellFormed(items, i, item, clock);
    var moved := [item] + Without(items, i);
    forall b | b in chains && b in bm
      ensures |chains[b]| == Uses(moved, bm[b].dsml)
    {
      FrontUses(items, i, item, bm[b].dsml);
    }
  }

  lemma TouchedItems(v: View, i: nat, upgrade: bool)
    requires ListOk(v.m, v.lru, v.head, v.tail) && Shared(v.m, v.bm, v.lru, v.chains) && i < |v.lru|
    ensures CanTouch(v, i, upgrade)
    ensures var item := Items(v)[i];
            Items(Touched(v, i, upgrade))
            == [item.(stamp := v.clock + 1, source := if upgrade then Ram else item.source)] + Without(Items(v), i)
  {
    hide ListOk, Unlinked, Pushed, Stamped, Cut, Distinct, Without, Touched, Moved, MovedTail, Restamped;
    TouchedList(v, i, upgrade);
    TouchedRest(v, i, upgrade);
    var w, e := Touched(v, i, upgrade), v.lru[i];
    DistinctOf(v.m, v.lru, v.head, v.tail);
    assert e in Elems(v.lru);
    forall k | 0 < k < |v.lru|
      ensures Items(w)[k] == Items(v)[if k <= i then k - 1 else k]
    {
      var o := if k <= i then k - 1 else k;
      assert w.lru[k] == v.lru[o];
      Unequal(v.lru, i, o);
      RestampedItem(v.m, w.m, v.bm, v.lru, v.chains, e, v.clock + 1, upgrade, v.lru[o]);
    }
    RestampedItem(v.m, w.m, v.bm, v.lru, v.chains, e, v.clock + 1, upgrade, e);
    FrontItems(Items(v), Items(w), i);
  }

  lemma RestampedItem(m: Entries, n: Entries, bm: Blocks, lru: seq<Addr>, chains: Chains,
                      e: Addr, stamp: nat, upgrade: bool, x: Addr)
    requires Restamped(m, n, e, stamp, upgrade) && Shared(m, bm, lru, chains) && x in lru
    ensures x == e ==> var item := ItemAt(m, bm, e);
                       ItemAt(n, bm, e) == item.(stamp := stamp, source := if upgrade then Ram else item.source)
    ensures x != e ==> ItemAt(n, bm, x) == ItemAt(m, bm, x)
  {
    assert x in Elems(lru) && x in n && m[x].block in bm;
  }

  lemma FrontItems(items: seq<Item>, moved: seq<Item>, i: nat)
    requires i < |items| && |moved| == |items|
    requires forall k :: 0 < k < |items| ==> moved[k] == items[if k <= i then k - 1 else k]
    ensures moved == [moved[0]] + Without(items, i)
  {
  }

  /** Touching an entry keeps the invariant and moves its item to the front. */
  lemma TouchedSound(l: Limits, v: View, i: nat, upgrade: bool)
    requires Sound(l, v) && i < |v.lru|
    ensures CanTouch(v, i, upgrade)
    ensures var w, item := Touched(v, i, upgrade), Items(v)[i];
            && Sound(l, w)
            && Items(w) == [item.(stamp := v.clock + 1, source := if upgrade then Ram else item.source)] + Without(Items(v), i)
  {
    hide ListOk, ChainsOk, Shared, IdsOk, SizesOk, SeenOk, Totals, BlocksOk, Restamped, Cut, Unlinked, Pushed, Stamped;
    hide Moved, MovedTail, SameBut, Touched;
    TouchedList(v, i, upgrade);
    TouchedItems(v, i, upgrade);
    var w, item := Touched(v, i, upgrade), Items(v)[i];
    RestampedSame(v.m, w.m, v.lru[i], v.clock + 1, upgrade);
    RestampedChains(v.m, w.m, v.bm, v.chains);
    DistinctOf(v.m, v.lru, v.head, v.tail);
    CutElems(v.lru, i);
    FrontElems(v.lru, i);
    RestampedIndex(l, v.m, w.m, v.bm, v.lru, [v.lru[i]] + Cut(v.lru, i), v.chains, v.byId);
    TotalsMoved(l, v.entries, v.bytes, v.clock, v.bm, v.chains, Items(v), i,
                item.(stamp := v.clock + 1, source := if upgrade then Ram else item.source));
    TouchedRest(v, i, upgrade);
  }

  lemma RestampedSame(m: Entries, n: Entries, e: Addr, stamp: nat, upgrade: bool)
    requires Restamped(m, n, e, stamp, upgrade)
    ensures SameBut(m, n)
  {
  }

  lemma TouchedRest(v: View, i: nat, upgrade: bool)
    requires CanTouch(v, i, upgrade)
    ensures var w := Touched(v, i, upgrade);
            && w.bm == v.bm && w.byId == v.byId && w.byBlock == v.byBlock && w.entries == v.entries && w.bytes == v.bytes
            && w.scan == v.scan
            && w.clock == v.clock + 1 && w.lru == [v.lru[i]] + Cut(v.lru, i) && w.chains == v.chains
  {
  }

  lemma FrontElems(s: seq<Addr>, i: nat)
    requires i < |s| && Elems(Cut(s, i)) == Elems(s) - {s[i]}
    ensures Elems([s[i]] + Cut(s, i)) == Elems(s)
  {
    hide Cut;
    assert forall x :: x in [s[i]] + Cut(s, i) <==> x == s[i] || x in Elems(Cut(s, i));
  }

  // Adding an entry at `a` under the block at `b`

  ghost function BlocksWith(l: Limits, bm: Blocks, b: Addr, dsml: Bytes): Blocks {
    if b in bm then bm else bm[b := Block(dsml, l.BlockBytes(dsml), 0, 0, None)]
  }

  ghost function ChainsWith(chains: Chains, b: Addr): Chains {
    if b in chains then chains else chains[b := []]
  }

  ghost function BlocksUsed(bm: Blocks, b: Addr, a: Addr): Blocks
    requires b in bm
  {
    bm[b := bm[b].(entries := Some(a), refs := bm[b].refs + 1)]
  }

  ghost function EntriesWith(m: Entries, a: Addr, x: Entry, first: Ptr, head: Ptr): Entries
    requires Mapped(m, head)
  {
    Pushed(ChainPushed(m[a := x], a, first), a, head)
  }

  ghost function Added(l: Limits, v: View, a: Addr, b: Addr, id: Bytes, dsml: Bytes, source: Source): View
    requires Mapped(v.m, v.head) && (b in v.bm <==> b in v.chains)
  {
    var x := Entry(id, b, l.EntryBytes(id), v.clock + 1, source, None, None, None);
    var bm, chains := BlocksWith(l, v.bm, b, dsml), ChainsWith(v.chains, b);
    View(EntriesWith(v.m, a, x, bm[b].entries, v.head),
         BlocksUsed(bm, b, a),
         v.byId[id := a], v.byBlock[dsml := b],
         Some(a), if v.head.Some? then v.tail else Some(a),
         v.entries + 1, v.bytes + (if b in v.bm then 0 else l.BlockBytes(dsml)) + l.EntryBytes(id), v.clock + 1,
         v.scan, [a] + v.lru, chains[b := [a] + chains[b]])
  }

  /** `b` is the block of the text, or unused when the text has none. */
  ghost predicate CanAdd(v: View, a: Addr, b: Addr, id: Bytes, dsml: Bytes) {
    && a !in v.m && id !in v.byId && id != [] && dsml != []
    && (if dsml in v.byBlock then b == v.byBlock[dsml] else b !in v.bm)
  }

  lemma BlockPresent(v: View, b: Addr)
    requires Shared(v.m, v.bm, v.lru, v.chains) && ChainsOk(v.m, v.bm, v.chains)
    ensures b in v.bm <==> b in v.chains
    ensures b in v.bm ==> v.bm[b].refs == |v.chains[b]| > 0 && ChainOk(v.m, b, v.chains[b], v.bm[b].entries)
  {
    assert Chained(v.m, v.bm, v.chains, b);
  }

  /** Nothing but recency links differs, and `a` is new. */
  ghost predicate Grown(m: Entries, n: Entries, a: Addr, x: Entry) {
    && a !in m && n.Keys == m.Keys + {a}
    && n[a].(prev := None, next := None, blockNext := None) == x
    && forall y {:trigger n[y]} :: y in m ==> n[y].(prev := None, next := None) == m[y].(prev := None, next := None)
  }

  lemma AddedEntries(m: Entries, s: seq<Addr>, head: Ptr, tail: Ptr, a: Addr, x: Entry, c: seq<Addr>, first: Ptr)
    requires ListOk(m, s, head, tail) && m.Keys == Elems(s) && a !in m
    requires ChainOk(m, x.block, c, first) && x.prev == x.next == x.blockNext == None
    ensures Mapped(m, head)
    ensures var n := EntriesWith(m, a, x, first, head);
            && ListOk(n, [a] + s, Some(a), if head.Some? then tail else Some(a))
            && ChainOk(n, x.block, [a] + c, Some(a))
            && Grown(m, n, a, x)
  {
    hide ListOk, ChainOk, Pushed, LinkedAt;
    HeadMapped(m, s, head, tail);
    var m0 := m[a := x];
    assert a !in Elems(s);
    ListSame(m, m0, s, head, tail);
    BlockOfChain(m, x.block, c, first);
    ChainSame(m, m0, x.block, c, first);
    ChainPushedOk(m0, x.block, c, first, a);
    var m1 := ChainPushed(m0, a, first);
    ListSame(m0, m1, s, head, tail);
    PushedOk(m1, s, head, tail, a);
    PushedSame(m1, a, head);
    var n := Pushed(m1, a, head);
    assert forall y :: y in m1 ==> n[y].(prev := None, next := None) == m1[y].(prev := None, next := None);
    ChainSame(m1, n, x.block, [a] + c, Some(a));
  }

  lemma AddedLists(l: Limits, v: View, a: Addr, b: Addr, id: Bytes, dsml: Bytes, source: Source)
    requires Sound(l, v) && CanAdd(v, a, b, id, dsml)
    ensures Mapped(v.m, v.head) && (b in v.bm <==> b in v.chains)
    ensures var w := Added(l, v, a, b, id, dsml, source);
            && ListOk(w.m, w.lru, w.head, w.tail)
            && ChainsOk(w.m, w.bm, w.chains)
            && Grown(v.m, w.m, a, Entry(id, b, l.EntryBytes(id), v.clock + 1, source, None, None, None))
  {
    hide ListOk, ChainOk, ChainsOk, LinkedAt, IdsOk, BlocksOk, SizesOk, SeenOk, Totals, EntriesWith;
    HeadMapped(v.m, v.lru, v.head, v.tail);
    BlockPresent(v, b);
    var x := Entry(id, b, l.EntryBytes(id), v.clock + 1, source, None, None, None);
    var bm, chains := BlocksWith(l, v.bm, b, dsml), ChainsWith(v.chains, b);
    NoChain(v.m, b);
    AddedEntries(v.m, v.lru, v.head, v.tail, a, x, chains[b], bm[b].entries);
    var n := EntriesWith(v.m, a, x, bm[b].entries, v.head);
    AddedChains(v.m, n, v.bm, v.chains, a, x, BlocksUsed(bm, b, a), [a] + chains[b]);
    assert v.chains[b := [a] + chains[b]] == chains[b := [a] + chains[b]];
  }

  lemma NoChain(m: Entries, b: Addr)
    ensures ChainOk(m, b, [], None)
  {
  }

  lemma AddedChains(m: Entries, n: Entries, bm: Blocks, chains: Chains, a: Addr, x: Entry, cm: Blocks, c: seq<Addr>)
    requires ChainsOk(m, bm, chains) && Grown(m, n, a, x)
    requires x.block in cm && cm[x.block].refs == |c| && ChainOk(n, x.block, c, cm[x.block].entries)
    requires forall d :: d != x.block && d in bm ==> d in cm && cm[d] == bm[d]
    ensures ChainsOk(n, cm, chains[x.block := c])
  {
    hide ChainsOk, ChainOk;
    assert forall y :: y in m ==> n[y].(prev := None, next := None) == m[y].(prev := None, next := None);
    ChainsSameButOne(m, n, bm, cm, chains, x.block, c);
  }

  lemma GrownFields(m: Entries, n: Entries, a: Addr, x: Entry)
    requires Grown(m, n, a, x)
    ensures n[a].id == x.id && n[a].block == x.block && n[a].bytes == x.bytes && n[a].source == x.source && n[a].stamp == x.stamp
    ensures forall y {:trigger n[y]} :: y in m ==>
              && n[y].id == m[y].id && n[y].block == m[y].block && n[y].bytes == m[y].bytes
              && n[y].source == m[y].source && n[y].stamp == m[y].stamp
  {
  }

  lemma AddedShared(l: Limits, m: Entries, n: Entries, bm: Blocks, lru: seq<Addr>, chains: Chains, a: Addr, x: Entry, dsml: Bytes)
    requires Shared(m, bm, lru, chains) && Grown(m, n, a, x)
    ensures var b, bm1, chains1 := x.block, BlocksWith(l, bm, x.block, dsml), ChainsWith(chains, x.block);
            Shared(n, BlocksUsed(bm1, b, a), [a] + lru, chains1[b := [a] + chains1[b]])
  {
    GrownFields(m, n, a, x);
    hide Grown;
    assert n.Keys == Elems([a] + lru) by {
      GrownKeys(m, n, a, x);
      assert forall y :: y in [a] + lru <==> y == a || y in Elems(lru);
    }
  }

  lemma GrownKeys(m: Entries, n: Entries, a: Addr, x: Entry)
    requires Grown(m, n, a, x)
    ensures n.Keys == m.Keys + {a} && a !in m
  {
  }

  lemma AddedIds(m: Entries, n: Entries, byId: map<Bytes, Addr>, a: Addr, x: Entry)
    requires IdsOk(m, byId) && Grown(m, n, a, x) && x.id !in byId
    ensures IdsOk(n, byId[x.id := a])
  {
    GrownFields(m, n, a, x);
  }

  lemma AddedBlocks(l: Limits, bm: Blocks, byBlock: map<Bytes, Addr>, a: Addr, b: Addr, dsml: Bytes)
    requires BlocksOk(bm, byBlock)
    requires if dsml in byBlock then b == byBlock[dsml] else b !in bm
    ensures BlocksOk(BlocksUsed(BlocksWith(l, bm, b, dsml), b, a), byBlock[dsml := b])
  {
  }

  lemma AddedSizes(l: Limits, m: Entries, n: Entries, bm: Blocks, a: Addr, x: Entry, dsml: Bytes)
    requires SizesOk(l, m, bm) && Grown(m, n, a, x) && x.bytes == l.EntryBytes(x.id)
    ensures SizesOk(l, n, BlocksUsed(BlocksWith(l, bm, x.block, dsml), x.block, a))
  {
    GrownFields(m, n, a, x);
  }

  lemma AddedSeen(l: Limits, bm: Blocks, scan: nat, a: Addr, b: Addr, dsml: Bytes)
    requires SeenOk(bm, scan)
    ensures SeenOk(BlocksUsed(BlocksWith(l, bm, b, dsml), b, a), scan)
  {
  }

  lemma TotalsPush(l: Limits, entries: nat, bytes: nat, clock: nat, bm: Blocks, byBlock: map<Bytes, Addr>,
                   chains: Chains, items: seq<Item>, a: Addr, b: Addr, item: Item)
    requires Totals(l, entries, bytes, clock, bm, chains, items) && BlocksOk(bm, byBlock) && bm.Keys == chains.Keys
    requires item.id != [] && item.dsml != [] && item.stamp == clock + 1
    requires forall i :: 0 <= i < |items| ==> items[i].id != item.id && items[i].dsml in byBlock
    requires if item.dsml in byBlock then b == byBlock[item.dsml] else b !in bm
    requires forall b :: b in chains ==> |chains[b]| > 0
    ensures var bm1, chains1 := BlocksWith(l, bm, b, item.dsml), ChainsWith(chains, b);
            Totals(l, entries + 1, bytes + (if b in bm then 0 else l.BlockBytes(item.dsml)) + l.EntryBytes(item.id),
                   clock + 1, BlocksUsed(bm1, b, a), chains1[b := [a] + chains1[b]], [item] + items)
  {
    hide Cost, Uses, WellFormed;
    UsesNone(items, item.dsml);
    PushCost(l, items, item);
    PushWellFormed(items, item, clock);
    if b in bm {
      ChainLength(bm, chains, items, b);
    }
    var bm2, chains1 := BlocksUsed(BlocksWith(l, bm, b, item.dsml), b, a), ChainsWith(chains, b);
    var chains2 := chains1[b := [a] + chains1[b]];
    forall d | d in chains2 && d in bm2
      ensures |chains2[d]| == Uses([item] + items, bm2[d].dsml)
    {
      PushUses(items, item, bm2[d].dsml);
    }
  }

  lemma AddedItems(m: Entries, n: Entries, bm: Blocks, cm: Blocks, lru: seq<Addr>, chains: Chains, a: Addr, x: Entry)
    requires Shared(m, bm, lru, chains) && Grown(m, n, a, x) && x.block in cm
    requires forall d :: d in bm ==> d in cm && cm[d].dsml == bm[d].dsml
    ensures ItemsOf(n, cm, [a] + lru) == [Item(x.id, cm[x.block].dsml, x.source, x.stamp)] + ItemsOf(m, bm, lru)
  {
    GrownFields(m, n, a, x);
    GrownKeys(m, n, a, x);
    hide Grown;
    forall k | 0 <= k < |lru|
      ensures ItemAt(n, cm, lru[k]) == ItemAt(m, bm, lru[k])
    {
      assert lru[k] in Elems(lru);
    }
  }

  lemma ItemIndexed(v: View, id: Bytes)
    requires Shared(v.m, v.bm, v.lru, v.chains) && IdsOk(v.m, v.byId) && BlocksOk(v.bm, v.byBlock)
    ensures forall i :: 0 <= i < |v.lru| ==> Items(v)[i].dsml in v.byBlock
    ensures forall i :: 0 <= i < |v.lru| ==> v.lru[i] in v.m && Items(v)[i].id == v.m[v.lru[i]].id && v.byId[v.m[v.lru[i]].id] == v.lru[i]
    ensures id !in v.byId ==> forall i :: 0 <= i < |v.lru| ==> Items(v)[i].id != id
  {
    forall i | 0 <= i < |v.lru|
      ensures Items(v)[i].dsml in v.byBlock && v.lru[i] in v.m && Items(v)[i].id == v.m[v.lru[i]].id
    {
      assert v.lru[i] in Elems(v.lru);
    }
  }

  /** Entering an unknown id keeps the invariant and adds its item in front. */
  lemma AddedSound(l: Limits, v: View, a: Addr, b: Addr, id: Bytes, dsml: Bytes, source: Source)
    requires Sound(l, v) && CanAdd(v, a, b, id, dsml)
    ensures Mapped(v.m, v.head) && (b in v.bm <==> b in v.chains)
    ensures var w := Added(l, v, a, b, id, dsml, source);
            Sound(l, w) && Items(w) == [Item(id, dsml, source, v.clock + 1)] + Items(v)
  {
    hide ListOk, ChainsOk, ChainOk, IdsOk, SizesOk, SeenOk, Totals, BlocksOk, EntriesWith, Grown, BlocksUsed, BlocksWith, ChainsWith;
    AddedLists(l, v, a, b, id, dsml, source);
    var x := Entry(id, b, l.EntryBytes(id), v.clock + 1, source, None, None, None);
    var w := Added(l, v, a, b, id, dsml, source);
    AddedShared(l, v.m, w.m, v.bm, v.lru, v.chains, a, x, dsml);
    AddedIds(v.m, w.m, v.byId, a, x);
    AddedBlocks(l, v.bm, v.byBlock, a, b, dsml);
    AddedSizes(l, v.m, w.m, v.bm, a, x, dsml);
    AddedSeen(l, v.bm, v.scan, a, b, dsml);
    BlocksKept(l, v, a, b, id, dsml);
    AddedItems(v.m, w.m, v.bm, w.bm, v.lru, v.chains, a, x);
    ItemIndexed(v, id);
    TotalsPush(l, v.entries, v.bytes, v.clock, v.bm, v.byBlock, v.chains, Items(v), a, b, Item(id, dsml, source, v.clock + 1));
  }

  lemma BlocksKept(l: Limits, v: View, a: Addr, b: Addr, id: Bytes, dsml: Bytes)
    requires BlocksOk(v.bm, v.byBlock) && CanAdd(v, a, b, id, dsml)
    ensures var cm := BlocksUsed(BlocksWith(l, v.bm, b, dsml), b, a);
            && b in cm && cm[b].dsml == dsml
            && forall d :: d in v.bm ==> d in cm && cm[d].dsml == v.bm[d].dsml
  {
  }

  // Reading the invariant

  lemma FoundEntry(l: Limits, v: View, id: Bytes)
    requires Sound(l, v)
    ensures id in v.byId <==> Known(Items(v), id)
    ensures Known(Items(v), id) ==> v.lru[Find(Items(v), id)] == v.byId[id]
    ensures id == [] ==> !Known(Items(v), id)
  {
    hide ListOk, ChainsOk, ItemsOf;
    ItemIndexed(v, id);
    if id in v.byId {
      var e := v.byId[id];
      assert e in Elems(v.lru);
      var k :| 0 <= k < |v.lru| && v.lru[k] == e;
      assert Items(v)[k].id == id;
    }
  }

  lemma EntryItem(l: Limits, v: View, i: nat)
    requires Sound(l, v) && i < |v.lru|
    ensures var e := v.lru[i];
            && e in v.m && v.m[e].block in v.bm
            && Items(v)[i] == Item(v.m[e].id, v.bm[v.m[e].block].dsml, v.m[e].source, v.m[e].stamp)
  {
    assert v.lru[i] in Elems(v.lru);
  }

  lemma TotalsOf(l: Limits, v: View)
    requires Sound(l, v)
    ensures v.entries == |v.lru| && v.bytes == Cost(l, Items(v)) && WellFormed(Items(v), v.clock)
    ensures Fits(l, Items(v)) <==> v.entries <= l.Entries() && v.bytes <= l.Budget()
    ensures v.tail == At(v.lru, |v.lru| - 1)
  {
  }

  lemma NothingLeft(l: Limits, v: View)
    requires Sound(l, v) && v.lru == []
    ensures v.m == map[] && v.bm == map[] && v.byId == map[] && v.byBlock == map[] && v.entries == 0 && v.bytes == 0
  {
    assert v.m.Keys == {};
    forall b
      ensures b !in v.bm
    {
      if b in v.bm {
        BlockInUse(l, v, b);
      }
    }
  }

  lemma BlockInUse(l: Limits, v: View, b: Addr)
    requires Sound(l, v) && b in v.bm
    ensures v.m.Keys != {}
  {
    assert Chained(v.m, v.bm, v.chains, b);
    var c := v.chains[b];
    BlockOfChain(v.m, b, c, v.bm[b].entries);
    assert c[0] in c;
  }

  lemma BlockKnown(l: Limits, v: View, dsml: Bytes)
    requires Sound(l, v)
    ensures dsml in v.byBlock ==> v.byBlock[dsml] in v.bm && v.bm[v.byBlock[dsml]].dsml == dsml
    ensures v.bm.Keys == v.chains.Keys
    ensures Mapped(v.m, v.head)
  {
    HeadMapped(v.m, v.lru, v.head, v.tail);
  }

  lemma GoneAfterRemoval(l: Limits, v: View, items: seq<Item>, i: nat, clock: nat)
    requires i < |items| && WellFormed(items, clock) && Items(v) == Without(items, i)
    ensures !Known(Items(v), items[i].id)
  {
    WithoutWellFormed(items, i, clock);
  }

  lemma BlockOfEntry(l: Limits, v: View, e: Addr)
    requires Sound(l, v) && e in v.m && v.m[e].block in v.bm
    ensures v.bm[v.m[e].block].dsml in v.byBlock && v.byBlock[v.bm[v.m[e].block].dsml] == v.m[e].block
  {
  }

  // Scanning marks blocks as seen

  ghost predicate SameButSeen(bm: Blocks, cm: Blocks) {
    bm.Keys == cm.Keys && forall b {:trigger cm[b]} :: b in bm ==> cm[b].(seen := 0) == bm[b].(seen := 0)
  }

  ghost function Marked(v: View, cm: Blocks, scan: nat): View {
    View(v.m, cm, v.byId, v.byBlock, v.head, v.tail, v.entries, v.bytes, v.clock, scan, v.lru, v.chains)
  }

  lemma MarkedChains(m: Entries, bm: Blocks, cm: Blocks, chains: Chains)
    requires ChainsOk(m, bm, chains) && SameButSeen(bm, cm)
    ensures ChainsOk(m, cm, chains)
  {
    hide ChainOk;
    forall b
      ensures Chained(m, cm, chains, b)
    {
      assert Chained(m, bm, chains, b);
    }
  }

  lemma MarkedItems(m: Entries, bm: Blocks, cm: Blocks, lru: seq<Addr>)
    requires SameButSeen(bm, cm)
    ensures ItemsOf(m, cm, lru) == ItemsOf(m, bm, lru)
  {
    assert forall b :: b in bm ==> cm[b].dsml == bm[b].dsml;
  }

  lemma MarkedIndex(l: Limits, m: Entries, bm: Blocks, cm: Blocks, lru: seq<Addr>, chains: Chains, byBlock: map<Bytes, Addr>, items: seq<Item>)
    requires SameButSeen(bm, cm) && Shared(m, bm, lru, chains) && BlocksOk(bm, byBlock) && SizesOk(l, m, bm) && RefsOk(bm, chains, items)
    ensures Shared(m, cm, lru, chains) && BlocksOk(cm, byBlock) && SizesOk(l, m, cm) && RefsOk(cm, chains, items)
  {
    hide Uses;
    assert forall b :: b in bm ==> cm[b].dsml == bm[b].dsml && cm[b].bytes == bm[b].bytes;
  }

  lemma MarkedSound(l: Limits, v: View, cm: Blocks, scan: nat)
    requires Sound(l, v) && SameButSeen(v.bm, cm) && SeenOk(cm, scan)
    ensures Sound(l, Marked(v, cm, scan)) && Items(Marked(v, cm, scan)) == Items(v)
  {
    hide ListOk, ChainsOk, Shared, IdsOk, BlocksOk, SizesOk, SameButSeen, WellFormed, Cost, RefsOk;
    MarkedChains(v.m, v.bm, cm, v.chains);
    MarkedItems(v.m, v.bm, cm, v.lru);
    MarkedIndex(l, v.m, v.bm, cm, v.lru, v.chains, v.byBlock, Items(v));
  }
}
