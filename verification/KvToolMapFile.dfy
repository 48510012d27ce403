/** Writing the tool-id map of a text from the tool memory, and loading it back. */
module KvToolMapFile {
  import opened ByteStrings
  import opened ToolMemorySpec
  import opened ToolMemoryLists
  import opened ToolMemorySteps
  import opened ToolMemory
  import opened KvToolBlocks
  import opened KvToolMap
  import ToolReplay

  /** Lengths that do not fit 32 bits are not stored. */
  predicate Storable(id: Bytes, dsml: Bytes) {
    |id| < WORD32 && |dsml| < WORD32
  }

  /** The records of the entries `c`, all with the text `dsml`. */
  ghost function ChainRecords(m: Entries, c: seq<Addr>, dsml: Bytes): seq<Record> {
    if c == [] then []
    else
      (if c[0] in m && Storable(m[c[0]].id, dsml) then [Record(m[c[0]].id, dsml)] else [])
      + ChainRecords(m, c[1..], dsml)
  }

  /** The records of a list of texts: each known text once, at its first place. */
  ghost function TextRecords(v: View, texts: seq<Bytes>, seen: set<Bytes>): seq<Record> {
    if texts == [] then []
    else
      var d := texts[0];
      if d in v.byBlock && d !in seen && v.byBlock[d] in v.chains then
        ChainRecords(v.m, v.chains[v.byBlock[d]], d) + TextRecords(v, texts[1..], seen + {d})
      else TextRecords(v, texts[1..], seen)
  }

  /** The blocks marked by the current scan are exactly those of the texts seen. */
  ghost predicate MarkedExactly(bm: Blocks, scan: nat, seen: set<Bytes>) {
    forall b :: b in bm ==> (bm[b].seen == scan <==> bm[b].dsml in seen)
  }

  /** Scanning a text from `v`: only marks have changed. */
  ghost predicate Scanning(memory: ToolMemory, v: View, scan: nat, seen: set<Bytes>)
    reads memory
  {
    && memory.Valid()
    && memory.Now() == Marked(v, memory.blockMem, scan) && SameButSeen(v.bm, memory.blockMem)
    && MarkedExactly(memory.blockMem, scan, seen)
  }

  /** Begin a scan with a mark no block carries. */
  method StartScan(memory: ToolMemory)
    requires memory.Valid()
    modifies memory`scanClock
    ensures memory.scanClock == old(memory.scanClock) + 1
    ensures Scanning(memory, old(memory.Now()), memory.scanClock, {})
  {
    hide Sound;
    ghost var v := memory.Now();
    SeenBound(memory.limits, v);
    MarkedSound(memory.limits, v, v.bm, v.scan + 1);
    memory.scanClock := memory.scanClock + 1;
  }

  lemma SeenBound(l: Limits, v: View)
    requires Sound(l, v)
    ensures SeenOk(v.bm, v.scan)
  {
  }

  /** Look a text up; the block is returned, and marked, on its first visit only. */
  method Visit(memory: ToolMemory, dsml: Bytes, ghost v: View, ghost seen: set<Bytes>) returns (b: Ptr)
    requires Scanning(memory, v, memory.scanClock, seen) && dsml != []
    modifies memory`blockMem
    ensures Scanning(memory, v, memory.scanClock, seen + if b.Some? then {dsml} else {})
    ensures b.Some? <==> dsml in v.byBlock && dsml !in seen
    ensures b.Some? ==> b.value == v.byBlock[dsml] && b.value in memory.blockMem && b.value in v.chains
    ensures b.Some? ==> ChainOk(memory.entryMem, b.value, v.chains[b.value], memory.blockMem[b.value].entries)
    ensures b.Some? ==> memory.blockMem[b.value].dsml == dsml
  {
    hide Sound, ChainOk, SameButSeen, MarkedExactly;
    assert seen + {} == seen;
    BlockKnown(memory.limits, memory.Now(), dsml);
    b := memory.FindBlock(dsml);
    if b.None? {
      return;
    }
    SeenText(memory.blockMem, memory.scanClock, seen, b.value);
    if memory.blockMem[b.value].seen == memory.scanClock {
      return None;
    }
    MarkedOne(memory.limits, v, memory.Now(), b.value, seen);
    memory.blockMem := memory.blockMem[b.value := memory.blockMem[b.value].(seen := memory.scanClock)];
  }

  lemma SeenText(bm: Blocks, scan: nat, seen: set<Bytes>, b: Addr)
    requires MarkedExactly(bm, scan, seen) && b in bm
    ensures bm[b].seen == scan <==> bm[b].dsml in seen
  {
  }

  lemma MarkedOne(l: Limits, v: View, w: View, b: Addr, seen: set<Bytes>)
    requires Sound(l, w) && w == Marked(v, w.bm, w.scan) && SameButSeen(v.bm, w.bm)
    requires MarkedExactly(w.bm, w.scan, seen) && b in w.bm
    ensures var cm := w.bm[b := w.bm[b].(seen := w.scan)];
            && Sound(l, Marked(v, cm, w.scan)) && SameButSeen(v.bm, cm)
            && MarkedExactly(cm, w.scan, seen + {w.bm[b].dsml})
            && b in v.chains && ChainOk(v.m, b, v.chains[b], cm[b].entries)
  {
    hide Sound, ChainOk;
    var cm := w.bm[b := w.bm[b].(seen := w.scan)];
    SeenBound(l, w);
    TextsDiffer(l, w);
    MarkedSound(l, w, cm, w.scan);
    BlockChain(l, w, b);
    assert forall d :: d in v.bm ==> w.bm[d].(seen := 0) == v.bm[d].(seen := 0);
  }

  lemma TextsDiffer(l: Limits, v: View)
    requires Sound(l, v)
    ensures forall b, d :: b in v.bm && d in v.bm && v.bm[b].dsml == v.bm[d].dsml ==> b == d
  {
  }

  lemma BlockChain(l: Limits, v: View, b: Addr)
    requires Sound(l, v) && b in v.bm
    ensures b in v.chains && ChainOk(v.m, b, v.chains[b], v.bm[b].entries)
  {
    assert Chained(v.m, v.bm, v.chains, b);
  }

  /** Count the records of one block and their bytes. */
  method CountChain(memory: ToolMemory, b: Addr, ghost c: seq<Addr>) returns (count: nat, bytes: nat)
    requires b in memory.blockMem && ChainOk(memory.entryMem, b, c, memory.blockMem[b].entries)
    ensures var rs := ChainRecords(memory.entryMem, c, memory.blockMem[b].dsml);
            count == |rs| && bytes == |RecordsBytes(rs)|
  {
    hide ChainOk, RecordBytes, RecordsBytes;
    var dsml := memory.blockMem[b].dsml;
    var e := memory.blockMem[b].entries;
    count, bytes := 0, 0;
    ghost var k := 0;
    ghost var all := ChainRecords(memory.entryMem, c, dsml);
    ChainStart(memory.entryMem, b, c, e);
    while e.Some?
      invariant k <= |c| && e == At(c, k)
      invariant count + |ChainRecords(memory.entryMem, c[k..], dsml)| == |all|
      invariant bytes + |RecordsBytes(ChainRecords(memory.entryMem, c[k..], dsml))| == |RecordsBytes(all)|
      decreases |c| - k
    {
      ChainedNext(memory.entryMem, b, c, memory.blockMem[b].entries, k);
      assert c[k..][1..] == c[k + 1..];
      var id := memory.entryMem[e.value].id;
      FirstRecord(memory.entryMem, c[k..], dsml);
      if Storable(id, dsml) {
        count := count + 1;
        RecordLength(Record(id, dsml));
        bytes := bytes + 8 + |id| + |dsml|;
      }
      e := memory.entryMem[e.value].blockNext;
      k := k + 1;
    }
    assert c[k..] == [];
    NoBytes();
  }

  lemma RecordLength(r: Record)
    ensures |RecordBytes(r)| == 8 + |r.id| + |r.dsml|
  {
  }

  lemma ChainStart(m: Entries, b: Addr, c: seq<Addr>, first: Ptr)
    requires ChainOk(m, b, c, first)
    ensures first == At(c, 0) && c[0..] == c
  {
  }

  lemma FirstRecord(m: Entries, c: seq<Addr>, dsml: Bytes)
    requires c != [] && c[0] in m
    ensures var id, rest := m[c[0]].id, ChainRecords(m, c[1..], dsml);
            && ChainRecords(m, c, dsml) == (if Storable(id, dsml) then [Record(id, dsml)] else []) + rest
            && RecordsBytes(ChainRecords(m, c, dsml))
               == (if Storable(id, dsml) then RecordBytes(Record(id, dsml)) else []) + RecordsBytes(rest)
  {
    var id, rest := m[c[0]].id, ChainRecords(m, c[1..], dsml);
    if Storable(id, dsml) {
      var one := [Record(id, dsml)];
      assert (one + rest)[1..] == rest;
    } else {
      assert [] + rest == rest;
    }
  }

  /** Write the records of one block. */
  method WriteChain(memory: ToolMemory, b: Addr, ghost c: seq<Addr>) returns (out: Bytes)
    requires b in memory.blockMem && ChainOk(memory.entryMem, b, c, memory.blockMem[b].entries)
    ensures out == RecordsBytes(ChainRecords(memory.entryMem, c, memory.blockMem[b].dsml))
  {
    hide ChainOk, RecordBytes, RecordsBytes;
    var dsml := memory.blockMem[b].dsml;
    var e := memory.blockMem[b].entries;
    out := [];
    ghost var k := 0;
    ghost var all := RecordsBytes(ChainRecords(memory.entryMem, c, dsml));
    ChainStart(memory.entryMem, b, c, e);
    while e.Some?
      invariant k <= |c| && e == At(c, k)
      invariant out + RecordsBytes(ChainRecords(memory.entryMem, c[k..], dsml)) == all
      decreases |c| - k
    {
      ChainedNext(memory.entryMem, b, c, memory.blockMem[b].entries, k);
      assert c[k..][1..] == c[k + 1..];
      var id := memory.entryMem[e.value].id;
      FirstRecord(memory.entryMem, c[k..], dsml);
      if Storable(id, dsml) {
        out := out + RecordBytes(Record(id, dsml));
      }
      e := memory.entryMem[e.value].blockNext;
      k := k + 1;
    }
    assert c[k..] == [];
    NoBytes();
  }

  lemma NoBytes()
    ensures RecordsBytes([]) == []
  {
  }

  /** How far a scan of a text has come. */
  ghost predicate Progress(v: View, text: Bytes, p: nat, seen: set<Bytes>, done: seq<Record>) {
    TextRecords(v, BlocksIn(text, 0), {}) == done + TextRecords(v, BlocksIn(text, p), seen)
  }

  lemma ProgressStart(v: View, text: Bytes)
    ensures Progress(v, text, 0, {}, [])
  {
  }

  lemma TextRecordsStep(v: View, d: Bytes, rest: seq<Bytes>, seen: set<Bytes>)
    ensures TextRecords(v, [d] + rest, seen)
            == if d in v.byBlock && d !in seen && v.byBlock[d] in v.chains then
                 ChainRecords(v.m, v.chains[v.byBlock[d]], d) + TextRecords(v, rest, seen + {d})
               else TextRecords(v, rest, seen)
  {
    hide ChainRecords;
    assert ([d] + rest)[1..] == rest;
  }

  lemma ProgressStep(v: View, text: Bytes, p: nat, seen: set<Bytes>, done: seq<Record>) returns (more: seq<Record>)
    requires Progress(v, text, p, seen, done) && NextBlock(text, p).Some?
    ensures var (s, e) := NextBlock(text, p).value;
            var d := text[s..e];
            if d in v.byBlock && d !in seen && v.byBlock[d] in v.chains then
              more == ChainRecords(v.m, v.chains[v.byBlock[d]], d) && Progress(v, text, e, seen + {d}, done + more)
            else more == [] && Progress(v, text, e, seen, done)
  {
    var (s, e) := NextBlock(text, p).value;
    var d, rest := text[s..e], BlocksIn(text, e);
    hide NextBlock, ChainRecords, BlocksIn, TextRecords;
    BlocksStep(text, p);
    TextRecordsStep(v, d, rest, seen);
    if d in v.byBlock && d !in seen && v.byBlock[d] in v.chains {
      more := ChainRecords(v.m, v.chains[v.byBlock[d]], d);
      Assoc(done, more, TextRecords(v, rest, seen + {d}));
    } else {
      more := [];
    }
  }

  lemma ProgressEnd(v: View, text: Bytes, p: nat, seen: set<Bytes>, done: seq<Record>)
    requires Progress(v, text, p, seen, done) && NextBlock(text, p).None?
    ensures done == TextRecords(v, BlocksIn(text, 0), {})
  {
    assert done + [] == done;
  }

  /** The counting pass. */
  method CountPass(memory: ToolMemory, text: Bytes) returns (count: nat, bytes: nat)
    requires memory.Valid()
    modifies memory`scanClock, memory`blockMem
    ensures memory.Valid() && memory.Now() == Marked(old(memory.Now()), memory.blockMem, memory.scanClock)
    ensures SameButSeen(old(memory.blockMem), memory.blockMem)
    ensures var rs := TextRecords(old(memory.Now()), BlocksIn(text, 0), {});
            count == |rs| && bytes == 8 + |RecordsBytes(rs)|
  {
    hide Sound, ChainOk, SameButSeen, MarkedExactly, Progress, NextBlock, BlocksIn, TextRecords, RecordsBytes, ChainRecords;
    ghost var v := memory.Now();
    StartScan(memory);
    var p := 0;
    count, bytes := 0, 8;
    ghost var seen, done: seq<Record> := {}, [];
    ProgressStart(v, text);
    NoBytes();
    while true
      invariant Scanning(memory, v, memory.scanClock, seen)
      invariant p <= |text| && Progress(v, text, p, seen, done)
      invariant count == |done| && bytes == 8 + |RecordsBytes(done)|
      decreases |text| - p
    {
      var next := NextBlock(text, p);
      if next.None? {
        ProgressEnd(v, text, p, seen, done);
        break;
      }
      var dsml := text[next.value.0..next.value.1];
      ghost var more := ProgressStep(v, text, p, seen, done);
      assert seen + {} == seen;
      var b := Visit(memory, dsml, v, seen);
      if b.Some? {
        var n, size := CountChain(memory, b.value, v.chains[b.value]);
        count, bytes := count + n, bytes + size;
        seen := seen + {dsml};
      }
      assert seen + {} == seen && done + [] == done;
      RecordsBytesAppend(done, more);
      done := done + more;
      NoBytes();
      p := next.value.1;
    }
  }

  /** The writing pass. */
  method WritePass(memory: ToolMemory, text: Bytes) returns (out: Bytes)
    requires memory.Valid()
    modifies memory`scanClock, memory`blockMem
    ensures memory.Valid() && memory.Now() == Marked(old(memory.Now()), memory.blockMem, memory.scanClock)
    ensures SameButSeen(old(memory.blockMem), memory.blockMem)
    ensures out == RecordsBytes(TextRecords(old(memory.Now()), BlocksIn(text, 0), {}))
  {
    hide Sound, ChainOk, SameButSeen, MarkedExactly, Progress, NextBlock, BlocksIn, TextRecords, RecordsBytes, ChainRecords;
    ghost var v := memory.Now();
    StartScan(memory);
    var p := 0;
    out := [];
    ghost var seen, done: seq<Record> := {}, [];
    ProgressStart(v, text);
    NoBytes();
    while true
      invariant Scanning(memory, v, memory.scanClock, seen)
      invariant p <= |text| && Progress(v, text, p, seen, done)
      invariant out == RecordsBytes(done)
      decreases |text| - p
    {
      var next := NextBlock(text, p);
      if next.None? {
        ProgressEnd(v, text, p, seen, done);
        break;
      }
      var dsml := text[next.value.0..next.value.1];
      ghost var more := ProgressStep(v, text, p, seen, done);
      assert seen + {} == seen;
      var b := Visit(memory, dsml, v, seen);
      if b.Some? {
        var bytes := WriteChain(memory, b.value, v.chains[b.value]);
        out := out + bytes;
        seen := seen + {dsml};
      }
      assert seen + {} == seen && done + [] == done;
      RecordsBytesAppend(done, more);
      done := done + more;
      NoBytes();
      p := next.value.1;
    }
  }

  /** Write the map of a text. The count in the header and the reported size come
      from the first pass, the records from the second. */
  method WriteMap(memory: ToolMemory, disabled: bool, text: Bytes) returns (image: Bytes, written: nat)
    requires memory.Valid()
    modifies memory`scanClock, memory`blockMem
    ensures memory.Valid() && memory.Contents() == old(memory.Contents())
    ensures var rs := if disabled then [] else TextRecords(old(memory.Now()), BlocksIn(text, 0), {});
            image == Image(rs) && written == |image|
  {
    hide Sound, SameButSeen, BlocksIn, TextRecords, RecordsBytes, Items;
    image, written := [], 0;
    if disabled || text == [] {
      NoBlocks();
      return;
    }
    ghost var v := memory.Now();
    var count, bytes := CountPass(memory, text);
    SeenBound(memory.limits, memory.Now());
    MarkedSound(memory.limits, v, memory.blockMem, memory.scanClock);
    ghost var w := memory.Now();
    if count == 0 {
      return;
    }
    var out := WritePass(memory, text);
    SeenBound(memory.limits, memory.Now());
    MarkedSound(memory.limits, w, memory.blockMem, memory.scanClock);
    MarkedRecords(v, w, BlocksIn(text, 0), {});
    image, written := HEADER + Put32(count) + out, bytes;
  }

  lemma NoBlocks()
    ensures BlocksIn([], 0) == []
    ensures forall v: View :: TextRecords(v, [], {}) == []
  {
  }

  lemma {:induction false} MarkedRecords(v: View, w: View, texts: seq<Bytes>, seen: set<Bytes>)
    requires w == Marked(v, w.bm, w.scan)
    ensures TextRecords(w, texts, seen) == TextRecords(v, texts, seen)
  {
    if texts != [] {
      MarkedRecords(v, w, texts[1..], seen + {texts[0]});
      MarkedRecords(v, w, texts[1..], seen);
    }
  }

  // What the map holds

  lemma {:induction false} ChainRecordsHold(m: Entries, c: seq<Addr>, dsml: Bytes, r: Record)
    ensures r in ChainRecords(m, c, dsml) <==>
            r.dsml == dsml && exists e :: e in c && e in m && m[e].id == r.id && Storable(r.id, dsml)
  {
    if c != [] {
      ChainRecordsHold(m, c[1..], dsml, r);
      assert forall e :: e in c <==> e == c[0] || e in c[1..];
    }
  }

  lemma {:induction false} TextRecordsHold(v: View, texts: seq<Bytes>, seen: set<Bytes>, r: Record)
    ensures r in TextRecords(v, texts, seen) <==>
            && r.dsml in texts && r.dsml !in seen && r.dsml in v.byBlock && v.byBlock[r.dsml] in v.chains
            && r in ChainRecords(v.m, v.chains[v.byBlock[r.dsml]], r.dsml)
  {
    if texts != [] {
      var d := texts[0];
      TextRecordsHold(v, texts[1..], seen + {d}, r);
      TextRecordsHold(v, texts[1..], seen, r);
      if d in v.byBlock && d !in seen && v.byBlock[d] in v.chains {
        ChainRecordsHold(v.m, v.chains[v.byBlock[d]], d, r);
      }
    }
  }

  /** The stored records are exactly the remembered ids whose block occurs in the
      text, each id once. */
  lemma RecordsAreMappings(l: Limits, v: View, text: Bytes, r: Record)
    requires Sound(l, v) && Storable(r.id, r.dsml)
    ensures r in TextRecords(v, BlocksIn(text, 0), {})
            <==> r.dsml in BlocksIn(text, 0) && TextOf(Items(v), r.id) == Some(r.dsml)
  {
    hide Sound, BlocksIn, TextRecords, ChainRecords, Items;
    var texts := BlocksIn(text, 0);
    TextRecordsHold(v, texts, {}, r);
    if r.dsml in texts {
      MappingIffEntry(l, v, r);
    }
  }

  lemma MappingIffEntry(l: Limits, v: View, r: Record)
    requires Sound(l, v) && Storable(r.id, r.dsml)
    ensures TextOf(Items(v), r.id) == Some(r.dsml)
            <==> && r.dsml in v.byBlock && v.byBlock[r.dsml] in v.chains
                 && r in ChainRecords(v.m, v.chains[v.byBlock[r.dsml]], r.dsml)
  {
    hide ListOk, ChainsOk, ChainRecords, SizesOk, Totals, Find;
    FoundEntry(l, v, r.id);
    if Known(Items(v), r.id) {
      var i := Find(Items(v), r.id);
      EntryItem(l, v, i);
      var e := v.lru[i];
      if Items(v)[i].dsml == r.dsml {
        BlockOfEntry(l, v, e);
        ChainRecordsHold(v.m, v.chains[v.byBlock[r.dsml]], r.dsml, r);
      }
    }
    if r.dsml in v.byBlock && v.byBlock[r.dsml] in v.chains && r in ChainRecords(v.m, v.chains[v.byBlock[r.dsml]], r.dsml) {
      var b := v.byBlock[r.dsml];
      ChainRecordsHold(v.m, v.chains[b], r.dsml, r);
      var e :| e in v.chains[b] && e in v.m && v.m[e].id == r.id;
      ChainBlock(l, v, b, e);
    }
  }

  lemma ChainBlock(l: Limits, v: View, b: Addr, e: Addr)
    requires Sound(l, v) && b in v.chains && e in v.chains[b]
    ensures e in v.m && v.m[e].block == b
  {
    assert Chained(v.m, v.bm, v.chains, b);
    BlockOfChain(v.m, b, v.chains[b], v.bm[b].entries);
  }

  /** For a text that is cut into blocks: the records are the remembered mappings of the
      blocks that stand in it. */
  lemma RecordsOfCut(l: Limits, v: View, parts: seq<Stretch>, tail: Bytes, r: Record)
    requires Sound(l, v) && Storable(r.id, r.dsml) && WellCut(parts, tail)
    ensures r in TextRecords(v, BlocksIn(Joined(parts, tail), 0), {})
            <==> r.dsml in BlocksOf(parts) && TextOf(Items(v), r.id) == Some(r.dsml)
  {
    hide Sound, BlocksIn, TextRecords, Items, WellCut, BlocksOf, Joined;
    CutBlocks(parts, tail);
    RecordsAreMappings(l, v, Joined(parts, tail), r);
  }

  /** No id is stored twice. */
  ghost predicate EachOnce(rs: seq<Record>) {
    forall i, j :: 0 <= i < j < |rs| ==> rs[i].id != rs[j].id
  }

  lemma OnceAppend(a: seq<Record>, b: seq<Record>)
    requires EachOnce(a) && EachOnce(b) && forall r, q :: r in a && q in b ==> r.id != q.id
    ensures EachOnce(a + b)
  {
    var c := a + b;
    forall i, j | 0 <= i < j < |c|
      ensures c[i].id != c[j].id
    {
      if i < |a| <= j {
        assert c[i] == a[i] && c[j] == b[j - |a|] && a[i] in a && b[j - |a|] in b;
      }
    }
  }

  lemma {:induction false} ChainOnce(m: Entries, byId: map<Bytes, Addr>, c: seq<Addr>, dsml: Bytes)
    requires IdsOk(m, byId) && Distinct(c)
    ensures EachOnce(ChainRecords(m, c, dsml))
  {
    hide EachOnce, IdsOk;
    if c == [] {
      NoneTwice();
    } else {
      DistinctRest(c);
      ChainOnce(m, byId, c[1..], dsml);
      if c[0] in m && Storable(m[c[0]].id, dsml) {
        var one, rest := [Record(m[c[0]].id, dsml)], ChainRecords(m, c[1..], dsml);
        forall r, q | r in one && q in rest
          ensures r.id != q.id
        {
          ChainRecordsHold(m, c[1..], dsml, q);
          var e :| e in c[1..] && e in m && m[e].id == q.id;
          if r.id == q.id {
            OneEntry(m, byId, c[0], e);
          }
        }
        NoneTwice();
        OnceAppend(one, rest);
      } else {
        assert [] + ChainRecords(m, c[1..], dsml) == ChainRecords(m, c[1..], dsml);
      }
    }
  }

  lemma DistinctRest(c: seq<Addr>)
    requires Distinct(c) && c != []
    ensures Distinct(c[1..]) && c[0] !in c[1..]
  {
    assert forall i :: 0 <= i < |c| - 1 ==> c[1..][i] == c[i + 1];
  }

  lemma NoneTwice()
    ensures EachOnce([]) && forall r: Record :: EachOnce([r])
  {
  }

  lemma OneEntry(m: Entries, byId: map<Bytes, Addr>, d: Addr, e: Addr)
    requires IdsOk(m, byId) && d in m && e in m && m[d].id == m[e].id
    ensures d == e
  {
  }

  /** Every id is stored at most once, whatever the text repeats. */
  lemma {:induction false} RecordsOnce(l: Limits, v: View, texts: seq<Bytes>, seen: set<Bytes>)
    requires Sound(l, v)
    ensures EachOnce(TextRecords(v, texts, seen))
    decreases |texts|
  {
    hide Sound, ChainRecords, EachOnce, TextRecords, Items, TextOf;
    if texts == [] {
      NoRecords(v, seen);
      NoneTwice();
      return;
    }
    var d, rest := texts[0], texts[1..];
    assert texts == [d] + rest;
    TextRecordsStep(v, d, rest, seen);
    if d in v.byBlock && d !in seen && v.byBlock[d] in v.chains {
      var first, more := ChainRecords(v.m, v.chains[v.byBlock[d]], d), TextRecords(v, rest, seen + {d});
      ChainIsOnce(l, v, d);
      RecordsOnce(l, v, rest, seen + {d});
      forall r, q | r in first && q in more
        ensures r.id != q.id
      {
        ChainRecordsHold(v.m, v.chains[v.byBlock[d]], d, r);
        RecordsStorable(v, rest, seen + {d}, q);
        TextRecordsHold(v, rest, seen + {d}, q);
        MappingIffEntry(l, v, r);
        MappingIffEntry(l, v, q);
      }
      OnceAppend(first, more);
    } else {
      RecordsOnce(l, v, rest, seen);
    }
  }

  lemma NoRecords(v: View, seen: set<Bytes>)
    ensures TextRecords(v, [], seen) == []
  {
  }

  lemma ChainIsOnce(l: Limits, v: View, d: Bytes)
    requires Sound(l, v) && d in v.byBlock && v.byBlock[d] in v.chains
    ensures EachOnce(ChainRecords(v.m, v.chains[v.byBlock[d]], d))
  {
    hide ChainRecords, EachOnce;
    var b := v.byBlock[d];
    assert Chained(v.m, v.bm, v.chains, b);
    ChainOnce(v.m, v.byId, v.chains[b], d);
  }

  // Loading

  predicate Wanted(wanted: Option<seq<Bytes>>, id: Bytes) {
    wanted.None? || id in wanted.value
  }

  function Selected(rs: seq<Record>, wanted: Option<seq<Bytes>>): seq<Record> {
    if rs == [] then []
    else (if Wanted(wanted, rs[0].id) then [rs[0]] else []) + Selected(rs[1..], wanted)
  }

  /** Remember the records in turn. */
  function PutAll(l: Limits, items: seq<Item>, clock: nat, rs: seq<Record>): seq<Item>
    decreases |rs|
  {
    if rs == [] then items
    else PutAll(l, ToolMemorySpec.Put(l, items, rs[0].id, rs[0].dsml, Disk, clock + 1), clock + 1, rs[1..])
  }

  lemma SelectedStep(rs: seq<Record>, wanted: Option<seq<Bytes>>, r: Record, rest: seq<Record>)
    requires rs == [r] + rest
    ensures Selected(rs, wanted) == if Wanted(wanted, r.id) then [r] + Selected(rest, wanted) else Selected(rest, wanted)
  {
  }

  lemma PutAllStep(l: Limits, items: seq<Item>, clock: nat, r: Record, rest: seq<Record>)
    ensures PutAll(l, items, clock, [r] + rest)
            == PutAll(l, ToolMemorySpec.Put(l, items, r.id, r.dsml, Disk, clock + 1), clock + 1, rest)
  {
    assert ([r] + rest)[1..] == rest;
  }

  lemma NoneSelected(wanted: Option<seq<Bytes>>)
    ensures Selected([], wanted) == []
  {
  }

  /** Read one record: its lengths, which are checked, then its two texts. */
  method ReadRecord(image: Bytes, p: nat) returns (r: Option<(Record, nat)>)
    requires p <= |image|
    ensures r == RecordAt(image, p)
  {
    if p + 8 > |image| {
      return None;
    }
    var idLen, dsmlLen := Get32(image[p..p + 4]), Get32(image[p + 4..p + 8]);
    if !Loadable(idLen, dsmlLen) {
      return None;
    }
    var q := p + 8;
    if q + idLen + dsmlLen > |image| {
      return None;
    }
    r := Some((Record(image[q..q + idLen], image[q + idLen..q + idLen + dsmlLen]), q + idLen + dsmlLen));
  }

  /** Load a stored map, stopping at the first record that cannot be read. */
  method LoadMap(memory: ToolMemory, disabled: bool, image: Bytes, wanted: Option<seq<Bytes>>) returns (loaded: nat)
    requires memory.Valid()
    modifies memory
    ensures memory.Valid()
    ensures var rs := if disabled then [] else Selected(Parse(image, 4 * memory.limits.Entries()), wanted);
            && loaded == |rs|
            && memory.Contents() == PutAll(memory.limits, old(memory.Contents()), old(memory.clock), rs)
  {
    hide ToolMemory.Valid, ToolMemory.Contents, ToolMemorySpec.Put, PutAll, Put32, Get32, RecordAt, Selected;
    NoneSelected(wanted);
    NothingToPut(memory.limits, memory.Contents(), memory.clock);
    if disabled || |image| < 8 || image[..4] != HEADER {
      return 0;
    }
    var count := Get32(image[4..8]);
    if count > memory.limits.Entries() * 4 {
      return 0;
    }
    ghost var l, all := memory.limits, Selected(ReadRecords(image, 8, count), wanted);
    ghost var goal := PutAll(l, memory.Contents(), memory.clock, all);
    var p := 8;
    loaded := 0;
    for i := 0 to count
      invariant memory.Valid() && i <= count && 0 <= p <= |image|
      invariant loaded + |Selected(ReadRecords(image, p, count - i), wanted)| == |all|
      invariant PutAll(l, memory.Contents(), memory.clock, Selected(ReadRecords(image, p, count - i), wanted)) == goal
    {
      NothingToPut(l, memory.Contents(), memory.clock);
      var next := ReadRecord(image, p);
      if next.None? {
        return;
      }
      var (r, q) := next.value;
      ghost var rest := ReadRecords(image, q, count - i - 1);
      SelectedStep(ReadRecords(image, p, count - i), wanted, r, rest);
      if Wanted(wanted, r.id) {
        PutAllStep(l, memory.Contents(), memory.clock, r, Selected(rest, wanted));
        memory.Put(r.id, r.dsml, Disk);
        loaded := loaded + 1;
      }
      p := q;
    }
    NothingToPut(l, memory.Contents(), memory.clock);
  }

  lemma NothingToPut(l: Limits, items: seq<Item>, clock: nat)
    ensures PutAll(l, items, clock, []) == items
  {
  }

  /** No id has two texts. */
  ghost predicate Consistent(rs: seq<Record>) {
    forall i, j :: 0 <= i < |rs| && 0 <= j < |rs| && rs[i].id == rs[j].id ==> rs[i].dsml == rs[j].dsml
  }

  function RecordsCost(l: Limits, rs: seq<Record>): nat {
    if rs == [] then 0 else l.EntryBytes(rs[0].id) + l.BlockBytes(rs[0].dsml) + RecordsCost(l, rs[1..])
  }

  lemma RememberCost(l: Limits, items: seq<Item>, id: Bytes, dsml: Bytes, source: Source, stamp: nat)
    ensures var after := Remember(items, id, dsml, source, stamp);
            |after| <= |items| + 1 && Cost(l, after) <= Cost(l, items) + l.EntryBytes(id) + l.BlockBytes(dsml)
  {
    hide Cost, Uses;
    var i := Find(items, id);
    var rest := if i < |items| then Without(items, i) else items;
    if i < |items| {
      CostWithout(l, items, i);
    }
    PushCost(l, rest, Remember(items, id, dsml, source, stamp)[0]);
  }

  /** Remembering all records within large enough limits evicts nothing. */
  lemma {:induction false} PutAllTexts(l: Limits, items: seq<Item>, clock: nat, rs: seq<Record>, x: Bytes)
    requires WellFormed(items, clock) && AllLoadable(rs) && Consistent(rs)
    requires |items| + |rs| <= l.Entries() && Cost(l, items) + RecordsCost(l, rs) <= l.Budget()
    ensures var after := PutAll(l, items, clock, rs);
            && (forall d :: Record(x, d) in rs ==> TextOf(after, x) == Some(d))
            && ((forall d :: Record(x, d) !in rs) ==> TextOf(after, x) == TextOf(items, x))
    decreases |rs|
  {
    hide WellFormed, Cost, TextOf, Remember, PutAll, RecordsCost, AllLoadable, Consistent, ToolMemorySpec.Put, Fits, DistinctIds;
    if rs != [] {
      var r, rest := rs[0], rs[1..];
      var next := Remember(items, r.id, r.dsml, Disk, clock + 1);
      LoadedOne(l, rs);
      RememberCost(l, items, r.id, r.dsml, Disk, clock + 1);
      PutWithinLimits(l, items, r, clock + 1);
      RememberWellFormed(items, r.id, r.dsml, Disk, clock);
      DistinctOfItems(items, clock);
      ToolReplay.RememberText(items, r.id, r.dsml, Disk, clock + 1, x);
      PutAllTexts(l, next, clock + 1, rest, x);
      assert rs == [r] + rest;
      PutAllStep(l, items, clock, r, rest);
      SameText(rs);
    }
    NothingToPut(l, items, clock);
  }

  lemma PutWithinLimits(l: Limits, items: seq<Item>, r: Record, stamp: nat)
    requires r.id != [] && r.dsml != [] && Fits(l, Remember(items, r.id, r.dsml, Disk, stamp))
    ensures ToolMemorySpec.Put(l, items, r.id, r.dsml, Disk, stamp) == Remember(items, r.id, r.dsml, Disk, stamp)
  {
    PrunedStop(l, Remember(items, r.id, r.dsml, Disk, stamp));
  }

  lemma DistinctOfItems(items: seq<Item>, clock: nat)
    requires WellFormed(items, clock)
    ensures DistinctIds(items)
  {
  }

  lemma LoadedOne(l: Limits, rs: seq<Record>)
    requires rs != [] && AllLoadable(rs) && Consistent(rs)
    ensures rs[0].id != [] && rs[0].dsml != [] && AllLoadable(rs[1..]) && Consistent(rs[1..])
    ensures RecordsCost(l, rs) == l.EntryBytes(rs[0].id) + l.BlockBytes(rs[0].dsml) + RecordsCost(l, rs[1..])
  {
  }

  lemma SameText(rs: seq<Record>)
    requires rs != [] && Consistent(rs)
    ensures forall e :: Record(rs[0].id, e) in rs ==> e == rs[0].dsml
  {
  }

  /** Every remembered mapping is short enough to be read back. */
  ghost predicate AllShort(items: seq<Item>) {
    forall i :: 0 <= i < |items| ==> Loadable(|items[i].id|, |items[i].dsml|)
  }

  lemma ShortMapping(items: seq<Item>, r: Record)
    requires AllShort(items) && TextOf(items, r.id) == Some(r.dsml)
    ensures Loadable(|r.id|, |r.dsml|)
  {
  }

  lemma {:induction false} RecordsStorable(v: View, texts: seq<Bytes>, seen: set<Bytes>, r: Record)
    requires r in TextRecords(v, texts, seen)
    ensures Storable(r.id, r.dsml)
  {
    TextRecordsHold(v, texts, seen, r);
    ChainRecordsHold(v.m, v.chains[v.byBlock[r.dsml]], r.dsml, r);
  }

  /** The records of a sound memory can all be read back, one text per id. */
  lemma TextRecordsGood(l: Limits, v: View, text: Bytes)
    requires Sound(l, v) && AllShort(Items(v))
    ensures AllLoadable(TextRecords(v, BlocksIn(text, 0), {})) && Consistent(TextRecords(v, BlocksIn(text, 0), {}))
  {
    hide Sound, BlocksIn, TextRecords, Items, AllShort, TextOf, Loadable;
    var rs := TextRecords(v, BlocksIn(text, 0), {});
    forall i | 0 <= i < |rs|
      ensures TextOf(Items(v), rs[i].id) == Some(rs[i].dsml) && Loadable(|rs[i].id|, |rs[i].dsml|)
    {
      assert rs[i] in rs;
      RecordsStorable(v, BlocksIn(text, 0), {}, rs[i]);
      RecordsAreMappings(l, v, text, rs[i]);
      ShortMapping(Items(v), rs[i]);
    }
  }

  /** Write, then load into an empty memory with large enough limits: the new
      memory holds exactly the source mappings whose block the scan of the text finds. */
  lemma StoredThenLoaded(l: Limits, v: View, text: Bytes, l2: Limits, id: Bytes, dsml: Bytes)
    requires Sound(l, v) && AllShort(Items(v))
    requires var rs := TextRecords(v, BlocksIn(text, 0), {});
             |rs| <= l2.Entries() && |rs| < WORD32 && RecordsCost(l2, rs) <= l2.Budget()
    ensures var image := Image(TextRecords(v, BlocksIn(text, 0), {}));
            var after := PutAll(l2, [], 0, Selected(Parse(image, 4 * l2.Entries()), None));
            TextOf(after, id) == Some(dsml) <==> TextOf(Items(v), id) == Some(dsml) && dsml in BlocksIn(text, 0)
  {
    hide Sound, BlocksIn, TextRecords, Items, AllShort, Loadable, PutAll, Image, Parse, Find;
    var rs := TextRecords(v, BlocksIn(text, 0), {});
    TextRecordsGood(l, v, text);
    ParseImage(rs, 4 * l2.Entries());
    AllSelected(rs);
    var after := PutAll(l2, [], 0, rs);
    PutAllTexts(l2, [], 0, rs, id);
    if TextOf(Items(v), id) == Some(dsml) && dsml in BlocksIn(text, 0) {
      ShortMapping(Items(v), Record(id, dsml));
      ShortStorable(Record(id, dsml));
      RecordsAreMappings(l, v, text, Record(id, dsml));
    }
    if TextOf(after, id) == Some(dsml) {
      assert TextOf([], id) == None;
      var d :| Record(id, d) in rs;
      RecordsStorable(v, BlocksIn(text, 0), {}, Record(id, d));
      RecordsAreMappings(l, v, text, Record(id, d));
    }
  }

  /** The same for a text that is cut into blocks: exactly the source mappings of the
      blocks that stand in it arrive. */
  lemma SavedThenLoaded(l: Limits, v: View, parts: seq<Stretch>, tail: Bytes, l2: Limits, id: Bytes, dsml: Bytes)
    requires Sound(l, v) && AllShort(Items(v)) && WellCut(parts, tail)
    requires var rs := TextRecords(v, BlocksIn(Joined(parts, tail), 0), {});
             |rs| <= l2.Entries() && |rs| < WORD32 && RecordsCost(l2, rs) <= l2.Budget()
    ensures var image := Image(TextRecords(v, BlocksIn(Joined(parts, tail), 0), {}));
            var after := PutAll(l2, [], 0, Selected(Parse(image, 4 * l2.Entries()), None));
            TextOf(after, id) == Some(dsml) <==> TextOf(Items(v), id) == Some(dsml) && dsml in BlocksOf(parts)
  {
    hide Sound, BlocksIn, TextRecords, Items, AllShort, PutAll, Image, Parse, WellCut, BlocksOf, Joined, TextOf, Selected, RecordsCost;
    CutBlocks(parts, tail);
    StoredThenLoaded(l, v, Joined(parts, tail), l2, id, dsml);
  }

  lemma ShortStorable(r: Record)
    requires Loadable(|r.id|, |r.dsml|)
    ensures Storable(r.id, r.dsml)
  {
  }

  lemma {:induction false} AllSelected(rs: seq<Record>)
    ensures Selected(rs, None) == rs
  {
    if rs != [] {
      AllSelected(rs[1..]);
    }
  }
}
