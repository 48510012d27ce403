/** The linked records of the tool memory in explicit memory: entries on a doubly
    linked recency list, each also on the singly linked list of its block. */
module ToolMemoryLists {
  import opened ByteStrings
  import opened ToolMemorySpec

  type Addr = nat
  type Ptr = Option<Addr>

  datatype Entry = Entry(id: Bytes, block: Addr, bytes: nat, stamp: nat, source: Source,
                         prev: Ptr, next: Ptr, blockNext: Ptr)

  datatype Block = Block(dsml: Bytes, bytes: nat, refs: nat, seen: nat, entries: Ptr)

  type Entries = map<Addr, Entry>
  type Blocks = map<Addr, Block>
  type Chains = map<Addr, seq<Addr>>

  // Sequences of addresses

  ghost predicate Distinct(s: seq<Addr>) {
    forall i, j :: 0 <= i < j < |s| ==> s[i] != s[j]
  }

  ghost function At(s: seq<Addr>, i: int): Ptr {
    if 0 <= i < |s| then Some(s[i]) else None
  }

  ghost function Elems(s: seq<Addr>): set<Addr> {
    set a | a in s
  }

  ghost function Cut(s: seq<Addr>, i: nat): (r: seq<Addr>)
    requires i < |s|
    ensures |r| == |s| - 1 && forall k :: 0 <= k < |r| ==> r[k] == s[if k < i then k else k + 1]
  {
    s[..i] + s[i + 1..]
  }

  lemma CutElems(s: seq<Addr>, i: nat)
    requires Distinct(s) && i < |s|
    ensures Distinct(Cut(s, i)) && Elems(Cut(s, i)) == Elems(s) - {s[i]}
  {
    forall a | a in s && a != s[i]
      ensures a in Cut(s, i)
    {
      var k :| 0 <= k < |s| && s[k] == a;
      assert Cut(s, i)[if k < i then k else k - 1] == a;
    }
  }

  // The recency list

  ghost predicate LinkedAt(m: Entries, s: seq<Addr>, i: int) {
    0 <= i < |s| ==> s[i] in m && m[s[i]].prev == At(s, i - 1) && m[s[i]].next == At(s, i + 1)
  }

  ghost predicate ListOk(m: Entries, s: seq<Addr>, head: Ptr, tail: Ptr) {
    && Distinct(s)
    && head == At(s, 0) && tail == At(s, |s| - 1)
    && forall i :: LinkedAt(m, s, i)
  }

  predicate Mapped(m: Entries, p: Ptr) {
    p.Some? ==> p.value in m
  }

  predicate CanUnlink(m: Entries, e: Addr) {
    e in m && Mapped(m, m[e].prev) && Mapped(m, m[e].next)
  }

  function Unlinked(m: Entries, e: Addr): (r: Entries)
    requires CanUnlink(m, e)
    ensures r.Keys == m.Keys
  {
    var p, n := m[e].prev, m[e].next;
    var m1 := if p.Some? then m[p.value := m[p.value].(next := n)] else m;
    var m2 := if n.Some? then m1[n.value := m1[n.value].(prev := p)] else m1;
    m2[e := m2[e].(prev := None, next := None)]
  }

  lemma Neighbours(m: Entries, s: seq<Addr>, head: Ptr, tail: Ptr, i: nat)
    requires ListOk(m, s, head, tail) && i < |s|
    ensures s[i] in m && m[s[i]].prev == At(s, i - 1) && m[s[i]].next == At(s, i + 1)
    ensures CanUnlink(m, s[i])
  {
    assert LinkedAt(m, s, i) && LinkedAt(m, s, i - 1) && LinkedAt(m, s, i + 1);
  }

  lemma Unequal(s: seq<Addr>, i: nat, j: nat)
    requires Distinct(s) && i < |s| && j < |s| && i != j
    ensures s[i] != s[j]
  {
  }

  /** The links of an entry other than the one taken out. */
  lemma UnlinkedAt(m: Entries, s: seq<Addr>, head: Ptr, tail: Ptr, i: nat, k: nat)
    requires ListOk(m, s, head, tail) && i < |s| && k < |s| && k != i
    ensures CanUnlink(m, s[i]) && s[k] in m
    ensures var e := Unlinked(m, s[i])[s[k]];
            && e.prev == (if k == i + 1 then At(s, i - 1) else At(s, k - 1))
            && e.next == (if k + 1 == i then At(s, i + 1) else At(s, k + 1))
  {
    Neighbours(m, s, head, tail, i);
    Neighbours(m, s, head, tail, k);
    Unequal(s, i, k);
    if k != i + 1 && i < |s| - 1 {
      Unequal(s, k, i + 1);
    }
    if i > 0 && k != i - 1 {
      Unequal(s, k, i - 1);
    }
    if 0 < i < |s| - 1 {
      Unequal(s, i - 1, i + 1);
    }
    hide ListOk, Distinct;
  }

  /** Taking the entry at `i` out leaves the list without it. */
  lemma UnlinkedOk(m: Entries, s: seq<Addr>, head: Ptr, tail: Ptr, i: nat)
    requires ListOk(m, s, head, tail) && i < |s|
    ensures CanUnlink(m, s[i])
    ensures ListOk(Unlinked(m, s[i]), Cut(s, i),
                   if i == 0 then At(s, 1) else head, if i == |s| - 1 then At(s, |s| - 2) else tail)
  {
    hide Distinct, Unlinked, Elems, Cut, LinkedAt;
    Neighbours(m, s, head, tail, i);
    CutElems(s, i);
    var c, u := Cut(s, i), Unlinked(m, s[i]);
    forall j
      ensures LinkedAt(u, c, j)
    {
      UnlinkedCutAt(m, s, head, tail, i, j);
    }
  }

  lemma UnlinkedCutAt(m: Entries, s: seq<Addr>, head: Ptr, tail: Ptr, i: nat, j: int)
    requires ListOk(m, s, head, tail) && i < |s|
    requires CanUnlink(m, s[i])
    ensures LinkedAt(Unlinked(m, s[i]), Cut(s, i), j)
  {
    if 0 <= j < |s| - 1 {
      var k := if j < i then j else j + 1;
      UnlinkedAt(m, s, head, tail, i, k);
      Unequal(s, i, k);
      hide ListOk, Distinct, Unlinked;
    }
  }

  lemma ListFree(m: Entries, s: seq<Addr>, head: Ptr, tail: Ptr, e: Addr)
    requires ListOk(m, s, head, tail) && e !in s
    ensures ListOk(m - {e}, s, head, tail)
  {
    forall j
      ensures LinkedAt(m - {e}, s, j)
    {
      assert LinkedAt(m, s, j);
    }
  }

  function Pushed(m: Entries, e: Addr, head: Ptr): (r: Entries)
    requires e in m && Mapped(m, head)
    ensures r.Keys == m.Keys
  {
    var m1 := m[e := m[e].(prev := None, next := head)];
    if head.Some? then m1[head.value := m1[head.value].(prev := Some(e))] else m1
  }

  lemma HeadMapped(m: Entries, s: seq<Addr>, head: Ptr, tail: Ptr)
    requires ListOk(m, s, head, tail)
    ensures Mapped(m, head) && Mapped(m, tail) && (tail.None? <==> s == [])
  {
    assert LinkedAt(m, s, 0) && LinkedAt(m, s, |s| - 1);
  }

  lemma PushedOk(m: Entries, s: seq<Addr>, head: Ptr, tail: Ptr, e: Addr)
    requires ListOk(m, s, head, tail) && e in m && e !in s && Mapped(m, head)
    ensures ListOk(Pushed(m, e, head), [e] + s, Some(e), if head.Some? then tail else Some(e))
  {
    hide LinkedAt, Pushed;
    forall j
      ensures LinkedAt(Pushed(m, e, head), [e] + s, j)
    {
      PushedAt(m, s, head, tail, e, j);
    }
  }

  lemma PushedAt(m: Entries, s: seq<Addr>, head: Ptr, tail: Ptr, e: Addr, j: int)
    requires ListOk(m, s, head, tail) && e in m && e !in s && Mapped(m, head)
    ensures LinkedAt(Pushed(m, e, head), [e] + s, j)
  {
    if 0 < j <= |s| {
      Neighbours(m, s, head, tail, j - 1);
      if j > 1 {
        Unequal(s, 0, j - 1);
      }
      hide ListOk, Distinct;
    }
  }

  // The list of a block

  ghost predicate ChainedAt(m: Entries, b: Addr, c: seq<Addr>, i: int) {
    0 <= i < |c| ==> c[i] in m && m[c[i]].block == b && m[c[i]].blockNext == At(c, i + 1)
  }

  ghost predicate ChainOk(m: Entries, b: Addr, c: seq<Addr>, first: Ptr) {
    Distinct(c) && first == At(c, 0) && forall i :: ChainedAt(m, b, c, i)
  }

  /** The list with the entry at `j` taken out: `before` then points past it. */
  function Bypassed(m: Entries, before: Ptr, e: Addr): (r: Entries)
    requires e in m && Mapped(m, before)
    ensures r.Keys == m.Keys
  {
    var m1 := if before.Some? then m[before.value := m[before.value].(blockNext := m[e].blockNext)] else m;
    m1[e := m1[e].(blockNext := None)]
  }

  lemma ChainedNext(m: Entries, b: Addr, c: seq<Addr>, first: Ptr, i: nat)
    requires ChainOk(m, b, c, first) && i < |c|
    ensures c[i] in m && m[c[i]].block == b && m[c[i]].blockNext == At(c, i + 1)
  {
    assert ChainedAt(m, b, c, i);
  }

  lemma BypassedOk(m: Entries, b: Addr, c: seq<Addr>, first: Ptr, j: nat)
    requires ChainOk(m, b, c, first) && j < |c| && c[j] in m && Mapped(m, At(c, j - 1))
    ensures ChainOk(Bypassed(m, At(c, j - 1), c[j]), b, Cut(c, j), if j == 0 then m[c[j]].blockNext else first)
  {
    hide ChainedAt, Bypassed, Cut, Distinct;
    CutElems(c, j);
    ChainedNext(m, b, c, first, j);
    var m1, d := Bypassed(m, At(c, j - 1), c[j]), Cut(c, j);
    forall k
      ensures ChainedAt(m1, b, d, k)
    {
      BypassedAt(m, b, c, first, j, k);
    }
  }

  lemma BypassedAt(m: Entries, b: Addr, c: seq<Addr>, first: Ptr, j: nat, k: int)
    requires ChainOk(m, b, c, first) && j < |c| && c[j] in m && Mapped(m, At(c, j - 1))
    ensures ChainedAt(Bypassed(m, At(c, j - 1), c[j]), b, Cut(c, j), k)
  {
    if 0 <= k < |c| - 1 {
      var i := if k < j then k else k + 1;
      ChainedNext(m, b, c, first, i);
      ChainedNext(m, b, c, first, j);
      Unequal(c, i, j);
      if j > 0 {
        Unequal(c, j, j - 1);
        if i != j - 1 {
          Unequal(c, i, j - 1);
        }
      }
      hide ChainOk, Distinct;
    }
  }

  function ChainPushed(m: Entries, e: Addr, first: Ptr): (r: Entries)
    requires e in m
    ensures r.Keys == m.Keys
  {
    m[e := m[e].(blockNext := first)]
  }

  lemma ChainPushedOk(m: Entries, b: Addr, c: seq<Addr>, first: Ptr, e: Addr)
    requires ChainOk(m, b, c, first) && e in m && e !in c && m[e].block == b
    ensures ChainOk(ChainPushed(m, e, first), b, [e] + c, Some(e))
  {
    forall k
      ensures ChainedAt(ChainPushed(m, e, first), b, [e] + c, k)
    {
      if 0 < k <= |c| {
        ChainedNext(m, b, c, first, k - 1);
      }
    }
  }

  /** Nothing but the recency links differs. */
  ghost predicate SameButLinks(m: Entries, n: Entries) {
    m.Keys == n.Keys
    && forall x {:trigger n[x]} :: x in m ==> n[x].(prev := None, next := None) == m[x].(prev := None, next := None)
  }

  /** Nothing but the block links of entries of block `b` differs. */
  ghost predicate SameButChain(m: Entries, n: Entries, b: Addr) {
    m.Keys == n.Keys
    && forall x {:trigger n[x]} :: x in m ==>
         n[x] == m[x] || (m[x].block == b && n[x].(blockNext := None) == m[x].(blockNext := None))
  }

  lemma UnlinkedSame(m: Entries, e: Addr)
    requires CanUnlink(m, e)
    ensures SameButLinks(m, Unlinked(m, e))
  {
  }

  lemma PushedSame(m: Entries, e: Addr, head: Ptr)
    requires e in m && Mapped(m, head)
    ensures SameButLinks(m, Pushed(m, e, head))
  {
  }

  lemma BypassedSame(m: Entries, before: Ptr, e: Addr)
    requires e in m && Mapped(m, before) && (before.Some? ==> m[before.value].block == m[e].block)
    ensures SameButChain(m, Bypassed(m, before, e), m[e].block)
  {
  }

  lemma ListSame(m: Entries, n: Entries, s: seq<Addr>, head: Ptr, tail: Ptr)
    requires ListOk(m, s, head, tail)
    requires forall e :: e in s && e in m ==> e in n && n[e].prev == m[e].prev && n[e].next == m[e].next
    ensures ListOk(n, s, head, tail)
  {
    forall j
      ensures LinkedAt(n, s, j)
    {
      assert LinkedAt(m, s, j);
    }
  }

  lemma ChainSame(m: Entries, n: Entries, b: Addr, c: seq<Addr>, first: Ptr)
    requires ChainOk(m, b, c, first)
    requires forall e :: e in c && e in m ==> e in n && n[e].block == m[e].block && n[e].blockNext == m[e].blockNext
    ensures ChainOk(n, b, c, first)
  {
    forall k
      ensures ChainedAt(n, b, c, k)
    {
      assert ChainedAt(m, b, c, k);
    }
  }

  // All blocks

  ghost predicate Chained(m: Entries, bm: Blocks, chains: Chains, b: Addr) {
    b in chains ==> b in bm && bm[b].refs == |chains[b]| && ChainOk(m, b, chains[b], bm[b].entries)
  }

  ghost predicate ChainsOk(m: Entries, bm: Blocks, chains: Chains) {
    forall b :: Chained(m, bm, chains, b)
  }

  lemma ChainsSameButLinks(m: Entries, n: Entries, bm: Blocks, chains: Chains)
    requires ChainsOk(m, bm, chains) && SameButLinks(m, n)
    ensures ChainsOk(n, bm, chains)
  {
    hide ChainOk;
    forall b
      ensures Chained(n, bm, chains, b)
    {
      assert Chained(m, bm, chains, b);
      if b in chains {
        ChainSame(m, n, b, chains[b], bm[b].entries);
      }
    }
  }

  /** A change of one block leaves the other lists as they were. */
  lemma ChainsSameButOne(m: Entries, n: Entries, bm: Blocks, cm: Blocks, chains: Chains, b: Addr, c: seq<Addr>)
    requires ChainsOk(m, bm, chains)
    requires forall x :: x in m && m[x].block != b ==> x in n && n[x].block == m[x].block && n[x].blockNext == m[x].blockNext
    requires b in cm && cm[b].refs == |c| && ChainOk(n, b, c, cm[b].entries)
    requires forall d :: d != b && d in bm ==> d in cm && cm[d] == bm[d]
    ensures ChainsOk(n, cm, chains[b := c])
  {
    hide ChainOk;
    var changed := chains[b := c];
    forall d
      ensures Chained(n, cm, changed, d)
    {
      assert Chained(m, bm, chains, d);
      if d in chains && d != b {
        BlockOfChain(m, d, chains[d], bm[d].entries);
        ChainSame(m, n, d, chains[d], bm[d].entries);
      }
    }
  }

  lemma BlockOfChain(m: Entries, b: Addr, c: seq<Addr>, first: Ptr)
    requires ChainOk(m, b, c, first)
    ensures forall e :: e in c ==> e in m && m[e].block == b
  {
    forall e | e in c
      ensures e in m && m[e].block == b
    {
      var i :| 0 <= i < |c| && c[i] == e;
      ChainedNext(m, b, c, first, i);
    }
  }

  // The index of entries and blocks

  /** Every entry is on the recency list and on the list of its block, and
      nothing else is allocated. */
  ghost predicate Shared(m: Entries, bm: Blocks, lru: seq<Addr>, chains: Chains) {
    && m.Keys == Elems(lru) && bm.Keys == chains.Keys
    && (forall e :: e in m ==> m[e].block in chains && e in chains[m[e].block])
    && (forall b :: b in chains ==> chains[b] != [])
  }

  ghost predicate IdsOk(m: Entries, byId: map<Bytes, Addr>) {
    && (forall e :: e in m ==> m[e].id in byId && byId[m[e].id] == e)
    && (forall k :: k in byId ==> byId[k] in m && m[byId[k]].id == k)
  }

  ghost predicate BlocksOk(bm: Blocks, byBlock: map<Bytes, Addr>) {
    && (forall b :: b in bm ==> bm[b].dsml in byBlock && byBlock[bm[b].dsml] == b)
    && (forall k :: k in byBlock ==> byBlock[k] in bm && bm[byBlock[k]].dsml == k)
  }

  ghost predicate SizesOk(l: Limits, m: Entries, bm: Blocks) {
    && (forall e :: e in m ==> m[e].bytes == l.EntryBytes(m[e].id))
    && (forall b :: b in bm ==> bm[b].bytes == l.BlockBytes(bm[b].dsml))
  }

  ghost function ItemAt(m: Entries, bm: Blocks, e: Addr): Item {
    if e in m && m[e].block in bm then Item(m[e].id, bm[m[e].block].dsml, m[e].source, m[e].stamp)
    else Item([], [], Ram, 0)
  }

  ghost function ItemsOf(m: Entries, bm: Blocks, s: seq<Addr>): (r: seq<Item>)
    ensures |r| == |s|
  {
    seq(|s|, i requires 0 <= i < |s| => ItemAt(m, bm, s[i]))
  }

  /** Reference counts agree with the items. */
  ghost predicate RefsOk(bm: Blocks, chains: Chains, items: seq<Item>) {
    forall b :: b in chains && b in bm ==> |chains[b]| == Uses(items, bm[b].dsml)
  }

  /** Counters, byte total, reference counts and stamps agree with the items. */
  ghost predicate Totals(l: Limits, entries: nat, bytes: nat, clock: nat, bm: Blocks, chains: Chains, items: seq<Item>) {
    && entries == |items|
    && bytes == Cost(l, items)
    && RefsOk(bm, chains, items)
    && WellFormed(items, clock)
  }
}
