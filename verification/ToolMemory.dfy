/** The tool memory of the server: an LRU of call ids over shared,
    reference-counted text blocks. */
module ToolMemory {
  import opened ByteStrings
  import opened ToolMemorySpec
  import opened ToolMemoryLists
  import opened ToolMemorySteps

  class ToolMemory {
    const limits: Limits
    /** The allocated entries and blocks. */
    var entryMem: Entries
    var blockMem: Blocks
    var byId: map<Bytes, Addr>
    var byBlock: map<Bytes, Addr>
    var head: Ptr
    var tail: Ptr
    var entries: nat
    var bytes: nat
    var clock: nat
    var scanClock: nat
    /** The recency list, and the list of each block. */
    ghost var lru: seq<Addr>
    ghost var chains: Chains

    ghost function Now(): View
      reads this
    {
      View(entryMem, blockMem, byId, byBlock, head, tail, entries, bytes, clock, scanClock, lru, chains)
    }

    ghost predicate Valid()
      reads this
    {
      Sound(limits, Now())
    }

    /** What is remembered, most recently used first. */
    ghost function Contents(): seq<Item>
      reads this
    {
      Items(Now())
    }

    constructor (limits: Limits)
      ensures Valid() && Contents() == [] && this.limits == limits && clock == 0
    {
      this.limits := limits;
      entryMem, blockMem, byId, byBlock := map[], map[], map[], map[];
      head, tail, entries, bytes, clock, scanClock := None, None, 0, 0, 0, 0;
      lru, chains := [], map[];
    }

    // The recency list

    method LinkHead(e: Addr)
      requires e in entryMem && Mapped(entryMem, head)
      modifies this`entryMem, this`head, this`tail
      ensures entryMem == Pushed(old(entryMem), e, old(head)) && head == Some(e)
      ensures tail == if old(head).Some? then old(tail) else Some(e)
    {
      entryMem := entryMem[e := entryMem[e].(prev := None, next := head)];
      if head.Some? {
        entryMem := entryMem[head.value := entryMem[head.value].(prev := Some(e))];
      } else {
        tail := Some(e);
      }
      head := Some(e);
    }

    method Unlink(e: Addr)
      requires CanUnlink(entryMem, e)
      modifies this`entryMem, this`head, this`tail
      ensures entryMem == Unlinked(old(entryMem), e)
      ensures head == if old(entryMem[e]).prev.Some? then old(head) else old(entryMem[e]).next
      ensures tail == if old(entryMem[e]).next.Some? then old(tail) else old(entryMem[e]).prev
    {
      var p, n := entryMem[e].prev, entryMem[e].next;
      if p.Some? {
        entryMem := entryMem[p.value := entryMem[p.value].(next := n)];
      } else {
        head := n;
      }
      if n.Some? {
        entryMem := entryMem[n.value := entryMem[n.value].(prev := p)];
      } else {
        tail := p;
      }
      entryMem := entryMem[e := entryMem[e].(prev := None, next := None)];
    }

    method MoveToHead(e: Addr)
      requires CanUnlink(entryMem, e) && Mapped(entryMem, head)
      modifies this`entryMem, this`head, this`tail
      ensures entryMem == Moved(old(entryMem), e, old(head)) && head == Some(e)
      ensures tail == MovedTail(old(entryMem), e, old(head), old(tail))
    {
      hide Unlinked, Pushed;
      if head == Some(e) {
        return;
      }
      Unlink(e);
      LinkHead(e);
    }

    /** Make an entry the most recently used, and its source `Ram` on request. */
    method TouchEntry(e: Addr, upgrade: bool, ghost i: nat)
      requires Valid() && i < |lru| && lru[i] == e
      modifies this`entryMem, this`head, this`tail, this`clock, this`lru
      ensures Valid() && clock == old(clock) + 1 && lru == [e] + Cut(old(lru), i)
      ensures var item := old(Contents()[i]);
              Contents() == [item.(stamp := clock, source := if upgrade then Ram else item.source)]
                            + Without(old(Contents()), i)
    {
      hide Sound, Items, Moved, MovedTail, Cut, Without, CanUnlink, Mapped, Touched;
      ghost var v := Now();
      TouchedSound(limits, v, i, upgrade);
      StampedHead(v, i, upgrade);
      clock := clock + 1;
      entryMem := entryMem[e := entryMem[e].(stamp := clock, source := if upgrade then Ram else entryMem[e].source)];
      lru := [e] + Cut(lru, i);
      MoveToHead(e);
      TouchedIs(v, i, upgrade, Now());
    }

    // Blocks

    /** Take an entry off the list of its block. */
    method UnlinkFromBlock(b: Addr, e: Addr, ghost c: seq<Addr>, ghost j: nat)
      requires b in blockMem && ChainOk(entryMem, b, c, blockMem[b].entries) && j < |c| && c[j] == e
      modifies this`entryMem, this`blockMem
      ensures e in old(entryMem) && Mapped(old(entryMem), At(c, j - 1))
      ensures entryMem == Bypassed(old(entryMem), At(c, j - 1), e)
      ensures blockMem == old(blockMem)[b := old(blockMem)[b].(entries :=
                if j == 0 then old(entryMem[e]).blockNext else old(blockMem)[b].entries)]
    {
      var before, p := None, blockMem[b].entries;
      ghost var k := 0;
      ChainedNext(entryMem, b, c, p, j);
      if j > 0 {
        ChainedNext(entryMem, b, c, p, j - 1);
      }
      while p.Some?
        invariant k <= j && p == Some(c[k]) && before == At(c, k - 1)
        invariant entryMem == old(entryMem) && blockMem == old(blockMem)
        decreases j - k
      {
        ChainedNext(entryMem, b, c, blockMem[b].entries, k);
        if p.value == e {
          SamePlace(entryMem, b, c, blockMem[b].entries, k, j);
          if before.Some? {
            entryMem := entryMem[before.value := entryMem[before.value].(blockNext := entryMem[e].blockNext)];
          } else {
            blockMem := blockMem[b := blockMem[b].(entries := entryMem[e].blockNext)];
          }
          entryMem := entryMem[e := entryMem[e].(blockNext := None)];
          return;
        }
        before, p := p, entryMem[p.value].blockNext;
        k := k + 1;
      }
    }

    static lemma SamePlace(m: Entries, b: Addr, c: seq<Addr>, first: Ptr, k: nat, j: nat)
      requires ChainOk(m, b, c, first) && k < |c| && j < |c| && c[k] == c[j]
      ensures k == j
    {
    }

    /** Drop one use of a block, and the block with its last use. */
    method ReleaseBlock(b: Addr)
      requires b in blockMem && blockMem[b].refs > 0
      modifies this`blockMem, this`byBlock, this`bytes
      ensures var x := old(blockMem)[b];
              if x.refs == 1 then
                && blockMem == old(blockMem) - {b} && byBlock == old(byBlock) - {x.dsml}
                && bytes == SaturatingSub(old(bytes), x.bytes)
              else
                && blockMem == old(blockMem)[b := x.(refs := x.refs - 1)]
                && byBlock == old(byBlock) && bytes == old(bytes)
    {
      blockMem := blockMem[b := blockMem[b].(refs := blockMem[b].refs - 1)];
      if blockMem[b].refs > 0 {
        return;
      }
      byBlock := byBlock - {blockMem[b].dsml};
      bytes := SaturatingSub(bytes, blockMem[b].bytes);
      blockMem := blockMem - {b};
    }

    /** Take an entry out of its block and out of the totals. */
    method LeaveBlock(b: Addr, e: Addr, ghost c: seq<Addr>, ghost j: nat)
      requires b in blockMem && ChainOk(entryMem, b, c, blockMem[b].entries) && j < |c| && c[j] == e
      requires e in entryMem && blockMem[b].refs > 0
      modifies this`entryMem, this`blockMem, this`byBlock, this`bytes, this`entries
      ensures Mapped(old(entryMem), At(c, j - 1)) && entryMem == Bypassed(old(entryMem), At(c, j - 1), e)
      ensures var x, y := old(blockMem)[b], old(entryMem)[e];
              var rest := SaturatingSub(old(bytes), y.bytes);
              && blockMem == BlocksCut(old(blockMem), b, if j == 0 then y.blockNext else x.entries)
              && byBlock == (if x.refs == 1 then old(byBlock) - {x.dsml} else old(byBlock))
              && bytes == (if x.refs == 1 then SaturatingSub(rest, x.bytes) else rest)
              && entries == SaturatingSub(old(entries), 1)
    {
      hide ChainOk, Bypassed;
      var size := entryMem[e].bytes;
      ghost var bm0 := blockMem;
      UnlinkFromBlock(b, e, c, j);
      bytes := SaturatingSub(bytes, size);
      entries := SaturatingSub(entries, 1);
      ghost var bm1 := blockMem;
      ReleaseBlock(b);
      assert bm1 - {b} == bm0 - {b};
    }

    /** Forget an entry, and its block when this was the last use. */
    method RemoveEntry(e: Addr, ghost i: nat)
      requires Valid() && i < |lru| && lru[i] == e
      modifies this
      ensures Valid() && Contents() == Without(old(Contents()), i) && lru == Cut(old(lru), i)
      ensures clock == old(clock)
    {
      hide Sound, Items, Unlinked, Bypassed, Cut, Without, ChainOk, ChainsCut, BlocksCut;
      ghost var v := Now();
      ghost var j := FindPosition(limits, v, i);
      RemovedSound(limits, v, i, j);
      ghost var c := RemovedChain(limits, v, i, j);
      var b := entryMem[e].block;
      byId := byId - {entryMem[e].id};
      Unlink(e);
      LeaveBlock(b, e, c, j);
      entryMem := entryMem - {e};
      lru, chains := Cut(lru, i), ChainsCut(chains, b, j);
      assert Now() == Removed(v, i, j);
    }

    // Adding

    method FindBlock(dsml: Bytes) returns (b: Ptr)
      ensures b == if dsml == [] || dsml !in byBlock then None else Some(byBlock[dsml])
    {
      b := if dsml == [] || dsml !in byBlock then None else Some(byBlock[dsml]);
    }

    /** The block of a text, made when there is none. */
    method GetBlock(dsml: Bytes) returns (b: Addr)
      requires dsml != [] && blockMem.Keys == chains.Keys
      requires dsml in byBlock ==> byBlock[dsml] in blockMem
      modifies this`blockMem, this`byBlock, this`bytes, this`chains
      ensures if dsml in old(byBlock) then b == old(byBlock)[dsml] else b !in old(blockMem)
      ensures b in blockMem && blockMem == BlocksWith(limits, old(blockMem), b, dsml)
      ensures b in chains && chains == ChainsWith(old(chains), b)
      ensures byBlock == old(byBlock)[dsml := b]
      ensures bytes == old(bytes) + if b in old(blockMem) then 0 else limits.BlockBytes(dsml)
    {
      var found := FindBlock(dsml);
      if found.Some? {
        return found.value;
      }
      ghost var bound := Bounded(blockMem.Keys);
      assert bound !in blockMem;
      b :| b !in blockMem;
      blockMem := blockMem[b := Block(dsml, |dsml| + 1 + limits.blockSize, 0, 0, None)];
      byBlock := byBlock[dsml := b];
      bytes := bytes + blockMem[b].bytes;
      chains := chains[b := []];
    }

    /** Put a new record on the list of its block and on the recency list. */
    method LinkEntry(e: Addr, b: Addr, x: Entry)
      requires e !in entryMem && b in blockMem && Mapped(entryMem, head)
      requires x.prev == x.next == x.blockNext == None
      modifies this`entryMem, this`blockMem, this`head, this`tail
      ensures entryMem == EntriesWith(old(entryMem), e, x, old(blockMem)[b].entries, old(head))
      ensures blockMem == BlocksUsed(old(blockMem), b, e)
      ensures head == Some(e) && tail == if old(head).Some? then old(tail) else Some(e)
    {
      hide Pushed;
      entryMem := entryMem[e := x];
      entryMem := entryMem[e := entryMem[e].(blockNext := blockMem[b].entries)];
      blockMem := blockMem[b := blockMem[b].(entries := Some(e), refs := blockMem[b].refs + 1)];
      LinkHead(e);
    }

    /** A new entry for a block that is in place. */
    method EnterEntry(id: Bytes, b: Addr, source: Source) returns (e: Addr)
      requires b in blockMem && b in chains && Mapped(entryMem, head)
      modifies this`entryMem, this`blockMem, this`head, this`tail, this`byId, this`clock, this`entries, this`bytes
      modifies this`lru, this`chains
      ensures e !in old(entryMem)
      ensures var x := Entry(id, b, limits.EntryBytes(id), old(clock) + 1, source, None, None, None);
              entryMem == EntriesWith(old(entryMem), e, x, old(blockMem)[b].entries, old(head))
      ensures blockMem == BlocksUsed(old(blockMem), b, e) && byId == old(byId)[id := e]
      ensures head == Some(e) && tail == if old(head).Some? then old(tail) else Some(e)
      ensures entries == old(entries) + 1 && bytes == old(bytes) + limits.EntryBytes(id) && clock == old(clock) + 1
      ensures lru == [e] + old(lru) && chains == old(chains)[b := [e] + old(chains)[b]]
    {
      hide EntriesWith, BlocksUsed;
      ghost var bound := Bounded(entryMem.Keys);
      assert bound !in entryMem;
      e :| e !in entryMem;
      LinkEntry(e, b, Entry(id, b, |id| + 1 + limits.entrySize, clock + 1, source, None, None, None));
      byId := byId[id := e];
      clock, entries, bytes := clock + 1, entries + 1, bytes + (|id| + 1 + limits.entrySize);
      lru, chains := [e] + lru, chains[b := [e] + chains[b]];
    }

    /** Enter an unknown id at the head, before pruning. */
    method AddEntry(id: Bytes, dsml: Bytes, source: Source)
      requires Valid() && id != [] && dsml != [] && id !in byId
      modifies this
      ensures Valid() && clock == old(clock) + 1
      ensures Contents() == [Item(id, dsml, source, clock)] + old(Contents())
    {
      hide Sound, Items, EntriesWith, BlocksUsed, BlocksWith, ChainsWith;
      ghost var v := Now();
      BlockKnown(limits, v, dsml);
      var b := GetBlock(dsml);
      var e := EnterEntry(id, b, source);
      AddedSound(limits, v, e, b, id, dsml, source);
      assert Now() == Added(limits, v, e, b, id, dsml, source);
    }

    // The operations of the server

    /** Evict from the tail until both limits hold. */
    method Prune()
      requires Valid()
      modifies this
      ensures Valid() && clock == old(clock)
      ensures Contents() == Pruned(limits, old(Contents()))
    {
      hide Sound, Items, Without, Cut, Cost;
      TotalsOf(limits, Now());
      while (entries > limits.Entries() || bytes > limits.Budget()) && tail.Some?
        invariant Valid() && clock == old(clock)
        invariant Pruned(limits, Contents()) == Pruned(limits, old(Contents()))
        invariant tail == At(lru, |lru| - 1)
        invariant Fits(limits, Contents()) <==> entries <= limits.Entries() && bytes <= limits.Budget()
        decreases |lru|
      {
        PrunedStep(limits, Contents());
        RemoveEntry(tail.value, |lru| - 1);
        TotalsOf(limits, Now());
      }
      PrunedStop(limits, Contents());
    }

    method FindEntry(id: Bytes) returns (e: Ptr)
      requires Valid()
      ensures e.Some? <==> Known(Contents(), id)
      ensures e.Some? ==> lru[Find(Contents(), id)] == e.value && id in byId
      ensures e.None? && id != [] ==> id !in byId
    {
      hide Sound, Items;
      FoundEntry(limits, Now(), id);
      e := if id == [] || id !in byId then None else Some(byId[id]);
    }

    /** Remember a text under an id, without pruning. */
    method Store(id: Bytes, dsml: Bytes, source: Source)
      requires Valid() && id != [] && dsml != []
      modifies this
      ensures Valid() && clock == old(clock) + 1
      ensures Contents() == Remember(old(Contents()), id, dsml, source, clock)
    {
      hide Sound, Items, Without, Cut;
      ghost var items := Contents();
      ghost var i := Find(items, id);
      var e := FindEntry(id);
      if e.Some? {
        EntryItem(limits, Now(), i);
        if blockMem[entryMem[e.value].block].dsml == dsml {
          TouchEntry(e.value, source == Ram, i);
          return;
        }
        TotalsOf(limits, Now());
        RemoveEntry(e.value, i);
        GoneAfterRemoval(limits, Now(), items, i, clock);
      }
      FoundEntry(limits, Now(), id);
      AddEntry(id, dsml, source);
    }

    /** Remember the text of a call id. */
    method Put(id: Bytes, dsml: Bytes, source: Source)
      requires Valid()
      modifies this
      ensures Valid() && clock == old(clock) + if id == [] || dsml == [] then 0 else 1
      ensures Contents() == ToolMemorySpec.Put(limits, old(Contents()), id, dsml, source, old(clock) + 1)
    {
      hide Sound, Items, Remember, Pruned;
      if id == [] || dsml == [] {
        return;
      }
      Store(id, dsml, source);
      Prune();
    }

    /** The remembered text of an id, which becomes the most recently used. */
    method Lookup(id: Bytes) returns (r: Option<(Item, Addr)>)
      requires Valid()
      modifies this`entryMem, this`head, this`tail, this`clock, this`lru
      ensures Valid() && clock == old(clock) + if r.Some? then 1 else 0
      ensures r.Some? <==> Known(old(Contents()), id)
      ensures r.Some? ==> r.value.0 == old(Contents())[Find(old(Contents()), id)].(stamp := clock)
      ensures r.Some? ==> r.value.0.dsml in byBlock && byBlock[r.value.0.dsml] == r.value.1
      ensures Contents() == ToolMemorySpec.Lookup(old(Contents()), id, old(clock) + 1)
    {
      hide Sound, Items, Without;
      ghost var i := Find(Contents(), id);
      var e := FindEntry(id);
      if e.None? {
        return None;
      }
      TouchEntry(e.value, false, i);
      EntryItem(limits, Now(), 0);
      FoundEntry(limits, Now(), id);
      var x := entryMem[e.value];
      BlockOfEntry(limits, Now(), e.value);
      r := Some((Item(x.id, blockMem[x.block].dsml, x.source, x.stamp), x.block));
    }

    /** Give everything back. */
    method FreeAll()
      requires Valid()
      modifies this
      ensures Valid() && Contents() == []
      ensures entryMem == map[] && blockMem == map[] && byId == map[] && byBlock == map[] && entries == 0 && bytes == 0
    {
      hide Sound, Items, Without, Cut;
      TotalsOf(limits, Now());
      while tail.Some?
        invariant Valid() && tail == At(lru, |lru| - 1)
        decreases |lru|
      {
        RemoveEntry(tail.value, |lru| - 1);
        TotalsOf(limits, Now());
      }
      NothingLeft(limits, Now());
    }

    /** Different texts have different blocks. */
    lemma BlocksDiffer(d0: Bytes, d1: Bytes)
      requires Valid() && d0 in byBlock && d1 in byBlock
      ensures byBlock[d0] == byBlock[d1] <==> d0 == d1
    {
    }

    // Exact replay

    /** The text shared by all calls of a message, when every id is known and all
        share one block. */
    method MatchCalls(ids: seq<Bytes>) returns (text: Option<Bytes>, source: Source, missing: nat)
      requires Valid()
      modifies this`entryMem, this`head, this`tail, this`clock, this`lru
      ensures Valid()
      ensures text == ExactText(old(Contents()), ids)
      ensures text.Some? ==> (source == Ram <==> AnyRam(old(Contents()), ids))
      ensures missing == Missing(old(Contents()), ids)
      ensures Contents() == Looked(old(Contents()), ids, old(clock)) && clock == old(clock) + |ids| - missing
    {
      hide Sound, Items, Find, Looked, Missing, WellFormed, MatchedSoFar, ExactText, ToolMemorySpec.Lookup;
      ghost var items := Contents();
      TotalsOf(limits, Now());
      LookedStart(items, ids, clock);
      var matched: Option<(Bytes, Addr)> := None;
      var exact := true;
      source, missing := Disk, 0;
      for j := 0 to |ids|
        invariant Valid() && byBlock == old(byBlock)
        invariant Contents() == Looked(items, ids[..j], old(clock)) && clock == old(clock) + j - missing
        invariant missing == Missing(items, ids[..j])
        invariant matched.Some? ==> matched.value.0 in byBlock && byBlock[matched.value.0] == matched.value.1
        invariant MatchedSoFar(items, ids[..j], exact, TextIn(matched), source)
        invariant matched.None? ==> source == Disk
      {
        LookedStep(items, ids, j, old(clock));
        MatchStep(items, ids, j, exact, TextIn(matched), source);
        var found := Lookup(ids[j]);
        if found.None? {
          exact := false;
          missing := missing + 1;
        } else {
          var (item, block) := found.value;
          assert TextOf(items, ids[j]) == Some(item.dsml) && SourceOf(items, ids[j]) == Some(item.source);
          if matched.None? {
            matched := Some((item.dsml, block));
            source := item.source;
          } else {
            BlocksDiffer(matched.value.0, item.dsml);
            if matched.value.1 != block {
              exact := false;
            }
          }
          if item.source == Ram {
            source := Ram;
          }
        }
      }
      assert ids[..|ids|] == ids;
      MatchEnd(items, ids, exact, TextIn(matched), source);
      text := if exact && matched.Some? then Some(matched.value.0) else None;
    }
  }

  function TextIn(matched: Option<(Bytes, Addr)>): Option<Bytes> {
    if matched.Some? then Some(matched.value.0) else None
  }
}
