/** Replaying remembered tool calls into the messages of a request, and what runs
    of the tool memory guarantee. */
module ToolReplay {
  import opened ByteStrings
  import opened ToolMemorySpec
  import opened ToolMemory

  /** The ids of a message's calls, and the exact text to replay for them. */
  datatype Message = Message(ids: seq<Bytes>, rawDsml: Option<Bytes>)

  datatype Stats = Stats(mem: nat, disk: nat, canonical: nat, missingIds: nat) {
    function Plus(o: Stats): Stats {
      Stats(mem + o.mem, disk + o.disk, canonical + o.canonical, missingIds + o.missingIds)
    }
  }

  const NO_STATS := Stats(0, 0, 0, 0)

  predicate Pending(m: Message) {
    m.ids != [] && m.rawDsml.None?
  }

  ghost function Replayed(items: seq<Item>, m: Message): Message {
    if Pending(m) then m.(rawDsml := ExactText(items, m.ids)) else m
  }

  ghost function StatsOf(items: seq<Item>, m: Message): Stats {
    if !Pending(m) then NO_STATS
    else if ExactText(items, m.ids).None? then Stats(0, 0, 1, Missing(items, m.ids))
    else if AnyRam(items, m.ids) then Stats(1, 0, 0, 0)
    else Stats(0, 1, 0, 0)
  }

  ghost function TotalStats(items: seq<Item>, msgs: seq<Message>): Stats {
    if msgs == [] then NO_STATS
    else TotalStats(items, msgs[..|msgs| - 1]).Plus(StatsOf(items, msgs[|msgs| - 1]))
  }

  /** The same facts about every id, up to recency. */
  ghost predicate SameFacts(a: seq<Item>, b: seq<Item>) {
    DistinctIds(a) && DistinctIds(b) && forall x :: FactOf(a, x) == FactOf(b, x)
  }

  lemma SameReplay(a: seq<Item>, b: seq<Item>, m: Message)
    requires SameFacts(a, b)
    ensures ExactText(a, m.ids) == ExactText(b, m.ids)
    ensures AnyRam(a, m.ids) <==> AnyRam(b, m.ids)
    ensures Missing(a, m.ids) == Missing(b, m.ids)
  {
    forall x
      ensures TextOf(a, x) == TextOf(b, x) && SourceOf(a, x) == SourceOf(b, x) && Known(a, x) == Known(b, x)
    {
      FactDetermines(a, b, x);
    }
    hide TextOf, SourceOf, Known;
    SameMissing(a, b, m.ids);
  }

  lemma {:induction false} SameMissing(a: seq<Item>, b: seq<Item>, ids: seq<Bytes>)
    requires forall x :: Known(a, x) == Known(b, x)
    ensures Missing(a, ids) == Missing(b, ids)
  {
    if ids != [] {
      SameMissing(a, b, ids[..|ids| - 1]);
    }
  }

  lemma LookedSame(a: seq<Item>, b: seq<Item>, ids: seq<Bytes>, clock: nat)
    requires SameFacts(a, b)
    ensures SameFacts(a, Looked(b, ids, clock))
  {
    hide FactOf, DistinctIds, Looked;
    forall x
      ensures FactOf(a, x) == FactOf(Looked(b, ids, clock), x) && DistinctIds(Looked(b, ids, clock))
    {
      LookedKeeps(b, ids, clock, x);
    }
    LookedKeeps(b, ids, clock, []);
  }

  /** Look up one message. */
  method ReplayOne(memory: ToolMemory, m: Message, ghost items: seq<Item>) returns (r: Message, stat: Stats)
    requires memory.Valid() && SameFacts(items, memory.Contents())
    modifies memory
    ensures memory.Valid() && SameFacts(items, memory.Contents())
    ensures r == Replayed(items, m) && stat == StatsOf(items, m)
  {
    hide ExactText, AnyRam, Missing, SameFacts, ToolMemory.Valid, ToolMemory.Contents;
    r, stat := m, NO_STATS;
    if Pending(m) {
      SameReplay(items, memory.Contents(), m);
      LookedSame(items, memory.Contents(), m.ids, memory.clock);
      var text, source, missing := memory.MatchCalls(m.ids);
      if text.Some? {
        r := m.(rawDsml := text);
        stat := if source == Ram then Stats(1, 0, 0, 0) else Stats(0, 1, 0, 0);
      } else {
        stat := Stats(0, 0, 1, missing);
      }
    }
  }

  /** With replay disabled, every message with calls is rendered canonically. */
  method CountCanonical(msgs: array<Message>) returns (stats: Stats)
    ensures stats == TotalStats([], msgs[..])
  {
    hide StatsOf, TotalStats;
    NoStatsYet();
    stats := NO_STATS;
    for i := 0 to msgs.Length
      invariant stats == TotalStats([], msgs[..i])
    {
      assert msgs[..i + 1] == msgs[..i] + [msgs[i]];
      MoreStats(msgs[..i], msgs[i]);
      NothingKnown(msgs[i]);
      if Pending(msgs[i]) {
        stats := stats.Plus(Stats(0, 0, 1, |msgs[i].ids|));
      }
    }
    assert msgs[..msgs.Length] == msgs[..];
  }

  lemma NoStatsYet()
    ensures TotalStats([], []) == NO_STATS
  {
  }

  lemma MoreStats(msgs: seq<Message>, m: Message)
    ensures TotalStats([], msgs + [m]) == TotalStats([], msgs).Plus(StatsOf([], m))
  {
    hide StatsOf;
    assert (msgs + [m])[..|msgs|] == msgs;
  }

  lemma NothingKnown(m: Message)
    ensures StatsOf([], m) == if Pending(m) then Stats(0, 0, 1, |m.ids|) else NO_STATS
  {
    NothingKnownIds(m.ids);
  }

  lemma {:induction false} NothingKnownIds(ids: seq<Bytes>)
    ensures Missing([], ids) == |ids|
  {
    if ids != [] {
      NothingKnownIds(ids[..|ids| - 1]);
    }
  }

  /** Attach the remembered texts to the messages of a request. Lookups change
      only the recency order, so every message is judged against the memory as it
      was before the call. */
  method AttachToMessages(memory: ToolMemory, disabled: bool, msgs: array<Message>) returns (stats: Stats)
    requires memory.Valid()
    modifies memory, msgs
    ensures memory.Valid()
    ensures disabled ==> memory.Contents() == old(memory.Contents()) && msgs[..] == old(msgs[..])
    ensures !disabled ==> SameFacts(old(memory.Contents()), memory.Contents())
    ensures !disabled ==> forall i :: 0 <= i < msgs.Length ==> msgs[i] == Replayed(old(memory.Contents()), old(msgs[i]))
    ensures stats == TotalStats(if disabled then [] else old(memory.Contents()), old(msgs[..]))
  {
    hide ExactText, SameFacts, StatsOf, Replayed, ToolMemory.Valid, ToolMemory.Contents;
    if disabled {
      stats := CountCanonical(msgs);
      return;
    }
    stats := NO_STATS;
    ghost var items, msgs0 := memory.Contents(), msgs[..];
    DistinctContents(memory);
    for i := 0 to msgs.Length
      invariant memory.Valid() && SameFacts(items, memory.Contents())
      invariant msgs[i..] == msgs0[i..]
      invariant forall k :: 0 <= k < i ==> msgs[k] == Replayed(items, msgs0[k])
      invariant stats == TotalStats(items, msgs0[..i])
    {
      assert msgs[i] == msgs0[i] && msgs0[..i + 1][..i] == msgs0[..i];
      var m, stat := ReplayOne(memory, msgs[i], items);
      msgs[i] := m;
      stats := stats.Plus(stat);
    }
    assert msgs0[..msgs.Length] == msgs0;
  }

  lemma DistinctContents(memory: ToolMemory)
    requires memory.Valid()
    ensures SameFacts(memory.Contents(), memory.Contents())
  {
  }

  // Runs

  datatype Op = PutOp(id: Bytes, dsml: Bytes, source: Source) | LookupOp(id: Bytes)

  datatype State = State(items: seq<Item>, clock: nat)

  function Step(l: Limits, s: State, op: Op): State {
    match op
    case PutOp(id, dsml, source) =>
      if id == [] || dsml == [] then s else State(Put(l, s.items, id, dsml, source, s.clock + 1), s.clock + 1)
    case LookupOp(id) =>
      if Known(s.items, id) then State(Lookup(s.items, id, s.clock + 1), s.clock + 1) else s
  }

  function Run(l: Limits, ops: seq<Op>): State {
    if ops == [] then State([], 0) else Step(l, Run(l, ops[..|ops| - 1]), ops[|ops| - 1])
  }

  /** The text last put for an id. */
  function LastPut(ops: seq<Op>, id: Bytes): Option<Bytes> {
    if ops == [] then None
    else
      var op := ops[|ops| - 1];
      if op.PutOp? && op.id == id && op.id != [] && op.dsml != [] then Some(op.dsml)
      else LastPut(ops[..|ops| - 1], id)
  }

  lemma {:induction false} TouchFits(l: Limits, items: seq<Item>, i: nat, stamp: nat)
    requires i < |items| && Fits(l, items)
    ensures Fits(l, Touch(items, i, stamp))
  {
    hide Cost;
    FrontCost(l, items, i, items[i].(stamp := stamp));
  }

  lemma StepKeepsLimits(l: Limits, s: State, op: Op)
    requires WellFormed(s.items, s.clock) && Fits(l, s.items)
    ensures WellFormed(Step(l, s, op).items, Step(l, s, op).clock) && Fits(l, Step(l, s, op).items)
  {
    hide WellFormed, Fits, Remember, Touch, Find, Pruned;
    match op {
      case PutOp(id, dsml, source) =>
        if id != [] && dsml != [] {
          var all := Remember(s.items, id, dsml, source, s.clock + 1);
          RememberWellFormed(s.items, id, dsml, source, s.clock);
          PrunedIsLongestFit(l, all);
          assert Pruned(l, all) == all[..|Pruned(l, all)|];
          PrefixWellFormed(all, |Pruned(l, all)|, s.clock + 1);
        }
      case LookupOp(id) =>
        if Known(s.items, id) {
          TouchWellFormed(s.items, Find(s.items, id), s.clock);
          TouchFits(l, s.items, Find(s.items, id), s.clock + 1);
        }
    }
  }

  lemma NothingYet(l: Limits)
    ensures WellFormed([], 0) && Fits(l, [])
  {
  }

  /** Both limits hold after every run, ids stay distinct and stamps descend. */
  lemma {:induction false} RunKeepsLimits(l: Limits, ops: seq<Op>)
    ensures WellFormed(Run(l, ops).items, Run(l, ops).clock) && Fits(l, Run(l, ops).items)
  {
    hide WellFormed, Fits, Step;
    if ops == [] {
      NothingYet(l);
    } else {
      RunKeepsLimits(l, ops[..|ops| - 1]);
      StepKeepsLimits(l, Run(l, ops[..|ops| - 1]), ops[|ops| - 1]);
    }
  }

  lemma PrefixText(items: seq<Item>, k: nat, id: Bytes)
    requires k <= |items| && Known(items[..k], id)
    ensures TextOf(items[..k], id) == TextOf(items, id)
  {
    FindPrefix(items, k, id);
  }

  lemma {:induction false} FindPrefix(items: seq<Item>, k: nat, id: Bytes)
    requires k <= |items| && Find(items[..k], id) < k
    ensures Find(items, id) == Find(items[..k], id)
  {
    if items[0].id != id {
      assert items[..k][1..] == items[1..][..k - 1];
      FindPrefix(items[1..], k - 1, id);
    }
  }

  lemma RememberText(items: seq<Item>, id: Bytes, dsml: Bytes, source: Source, stamp: nat, x: Bytes)
    requires DistinctIds(items)
    ensures TextOf(Remember(items, id, dsml, source, stamp), x) == if x == id then Some(dsml) else TextOf(items, x)
  {
    hide Find, TextOf, Remember, Touch, FactOf, DistinctIds, Without;
    var i := Find(items, id);
    var head := RememberIs(items, id, dsml, source, stamp);
    if i < |items| {
      TouchIs(items, i, stamp);
      HeadText(head, Without(items, i), x);
      HeadText(items[i].(stamp := stamp), Without(items, i), x);
      TouchKeeps(items, i, stamp, x);
      FactDetermines(items, Touch(items, i, stamp), x);
    } else {
      HeadText(head, items, x);
    }
  }

  lemma HeadText(head: Item, tail: seq<Item>, x: Bytes)
    ensures TextOf([head] + tail, x) == if head.id == x then Some(head.dsml) else TextOf(tail, x)
  {
    assert ([head] + tail)[1..] == tail;
  }

  lemma TouchIs(items: seq<Item>, i: nat, stamp: nat)
    requires i < |items|
    ensures Touch(items, i, stamp) == [items[i].(stamp := stamp)] + Without(items, i)
  {
  }

  /** A put text goes to the front, under its id. */
  lemma RememberIs(items: seq<Item>, id: Bytes, dsml: Bytes, source: Source, stamp: nat) returns (head: Item)
    ensures head.id == id && head.dsml == dsml
    ensures var i := Find(items, id);
            Remember(items, id, dsml, source, stamp) == [head] + if i < |items| then Without(items, i) else items
  {
    hide Find, Without;
    var i := Find(items, id);
    head := Item(id, dsml, if i < |items| && items[i].dsml == dsml && source != Ram then items[i].source else source, stamp);
  }

  /** What a step leaves known is the text it put, or what was known before. */
  lemma StepText(l: Limits, s: State, op: Op, id: Bytes)
    requires DistinctIds(s.items)
    ensures var after := Step(l, s, op).items;
            Known(after, id) ==>
              if op.PutOp? && op.id == id && op.id != [] && op.dsml != [] then TextOf(after, id) == Some(op.dsml)
              else Known(s.items, id) && TextOf(after, id) == TextOf(s.items, id)
  {
    hide TextOf, Known, Put, Lookup, FactOf, DistinctIds;
    match op {
      case PutOp(x, dsml, source) =>
        if x != [] && dsml != [] {
          PutText(l, s.items, x, dsml, source, s.clock + 1, id);
        }
      case LookupOp(x) =>
        LookupKeeps(s.items, x, s.clock + 1, id);
        FactDetermines(Lookup(s.items, x, s.clock + 1), s.items, id);
    }
  }

  /** Whatever is still known after a run is known with the text last put for it. */
  lemma {:induction false} RunRemembersLastPut(l: Limits, ops: seq<Op>, id: Bytes)
    ensures Known(Run(l, ops).items, id) ==> TextOf(Run(l, ops).items, id) == LastPut(ops, id)
  {
    hide Step, WellFormed, Fits, TextOf, Known;
    if ops == [] {
      NothingKnownAtFirst(id);
    } else {
      var before := Run(l, ops[..|ops| - 1]);
      RunKeepsLimits(l, ops[..|ops| - 1]);
      RunRemembersLastPut(l, ops[..|ops| - 1], id);
      IdsDistinct(before);
      StepText(l, before, ops[|ops| - 1], id);
    }
  }

  lemma NothingKnownAtFirst(id: Bytes)
    ensures !Known([], id)
  {
  }

  lemma IdsDistinct(s: State)
    requires WellFormed(s.items, s.clock)
    ensures DistinctIds(s.items)
  {
  }

  lemma PutText(l: Limits, items: seq<Item>, id: Bytes, dsml: Bytes, source: Source, stamp: nat, x: Bytes)
    requires DistinctIds(items) && id != [] && dsml != []
    ensures var after := Put(l, items, id, dsml, source, stamp);
            Known(after, x) ==> TextOf(after, x) == (if x == id then Some(dsml) else TextOf(items, x)) && (x != id ==> Known(items, x))
  {
    hide Fits, TextOf, Remember;
    var all := Remember(items, id, dsml, source, stamp);
    PrunedIsLongestFit(l, all);
    RememberText(items, id, dsml, source, stamp, x);
    var k := |Pruned(l, all)|;
    assert Pruned(l, all) == all[..k];
    if Known(all[..k], x) {
      PrefixText(all, k, x);
      TextKnown(all[..k], x);
      TextKnown(items, x);
    }
  }

  lemma TextKnown(items: seq<Item>, x: Bytes)
    ensures Known(items, x) <==> TextOf(items, x).Some?
  {
  }
}
