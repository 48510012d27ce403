/** What the tool memory of the server holds, as plain values: the remembered
    calls, most recently used first. */
module ToolMemorySpec {
  import opened ByteStrings

  datatype Source = Ram | Disk

  datatype Item = Item(id: Bytes, dsml: Bytes, source: Source, stamp: nat)

  const DEFAULT_MAX_IDS := 100000
  const DEFAULT_MAX_BYTES := 512 * 1024 * 1024

  /** The configured limits (zero or less means the default) and the fixed sizes
      of the two record types. */
  datatype Limits = Limits(maxEntries: int, maxBytes: int, entrySize: nat, blockSize: nat) {
    function Entries(): (n: nat)
      ensures n > 0
    {
      if maxEntries > 0 then maxEntries else DEFAULT_MAX_IDS
    }

    function Budget(): (n: nat)
      ensures n > 0
    {
      if maxBytes > 0 then maxBytes else DEFAULT_MAX_BYTES
    }

    function EntryBytes(id: Bytes): nat {
      |id| + 1 + entrySize
    }

    function BlockBytes(dsml: Bytes): nat {
      |dsml| + 1 + blockSize
    }
  }

  /** How many of the items share this text. */
  function Uses(items: seq<Item>, dsml: Bytes): nat {
    if items == [] then 0 else (if items[0].dsml == dsml then 1 else 0) + Uses(items[1..], dsml)
  }

  /** Every item costs its entry, every distinct text costs one block. */
  function Cost(l: Limits, items: seq<Item>): nat {
    if items == [] then 0
    else
      l.EntryBytes(items[0].id)
      + (if Uses(items[1..], items[0].dsml) == 0 then l.BlockBytes(items[0].dsml) else 0)
      + Cost(l, items[1..])
  }

  ghost predicate DistinctIds(items: seq<Item>) {
    forall i, j :: 0 <= i < j < |items| ==> items[i].id != items[j].id
  }

  ghost predicate StampsDescend(items: seq<Item>, clock: nat) {
    && (forall i :: 0 <= i < |items| ==> items[i].stamp <= clock)
    && (forall i, j :: 0 <= i < j < |items| ==> items[i].stamp > items[j].stamp)
  }

  ghost predicate NonEmptyTexts(items: seq<Item>) {
    forall i :: 0 <= i < |items| ==> items[i].id != [] && items[i].dsml != []
  }

  ghost predicate WellFormed(items: seq<Item>, clock: nat) {
    DistinctIds(items) && StampsDescend(items, clock) && NonEmptyTexts(items)
  }

  /** Where an id stands, or the length when it is unknown. */
  function Find(items: seq<Item>, id: Bytes): (i: nat)
    ensures i <= |items|
    ensures i < |items| ==> items[i].id == id
    ensures forall j :: 0 <= j < i ==> items[j].id != id
  {
    if items == [] then 0 else if items[0].id == id then 0 else 1 + Find(items[1..], id)
  }

  predicate Known(items: seq<Item>, id: Bytes) {
    Find(items, id) < |items|
  }

  function TextOf(items: seq<Item>, id: Bytes): Option<Bytes> {
    var i := Find(items, id);
    if i < |items| then Some(items[i].dsml) else None
  }

  function Touch(items: seq<Item>, i: nat, stamp: nat): seq<Item>
    requires i < |items|
  {
    [items[i].(stamp := stamp)] + Without(items, i)
  }

  predicate Fits(l: Limits, items: seq<Item>) {
    |items| <= l.Entries() && Cost(l, items) <= l.Budget()
  }

  /** Drop the least recently used items until both limits hold. */
  function Pruned(l: Limits, items: seq<Item>): seq<Item> {
    if items == [] || Fits(l, items) then items else Pruned(l, items[..|items| - 1])
  }

  /** Remember a text under an id, before pruning: a known id with the same text
      is only touched (and upgraded to `Ram`), one with another text is replaced. */
  function Remember(items: seq<Item>, id: Bytes, dsml: Bytes, source: Source, stamp: nat): seq<Item> {
    var i := Find(items, id);
    if i == |items| then [Item(id, dsml, source, stamp)] + items
    else if items[i].dsml == dsml then
      [Item(id, dsml, if source == Ram then Ram else items[i].source, stamp)] + Without(items, i)
    else [Item(id, dsml, source, stamp)] + Without(items, i)
  }

  function Put(l: Limits, items: seq<Item>, id: Bytes, dsml: Bytes, source: Source, stamp: nat): seq<Item> {
    if id == [] || dsml == [] then items else Pruned(l, Remember(items, id, dsml, source, stamp))
  }

  /** A lookup makes a known id the most recently used. */
  function Lookup(items: seq<Item>, id: Bytes, stamp: nat): seq<Item> {
    if Known(items, id) then Touch(items, Find(items, id), stamp) else items
  }

  // Removal

  lemma {:induction false} UsesWithout(items: seq<Item>, i: nat, dsml: Bytes)
    requires i < |items|
    ensures Uses(items, dsml) == Uses(Without(items, i), dsml) + (if items[i].dsml == dsml then 1 else 0)
  {
    if i == 0 {
      assert Without(items, 0) == items[1..];
    } else {
      UsesWithout(items[1..], i - 1, dsml);
      assert Without(items, i)[1..] == Without(items[1..], i - 1);
    }
  }

  lemma {:induction false} CostWithout(l: Limits, items: seq<Item>, i: nat)
    requires i < |items|
    ensures Cost(l, items) == Cost(l, Without(items, i)) + l.EntryBytes(items[i].id)
                              + (if Uses(Without(items, i), items[i].dsml) == 0 then l.BlockBytes(items[i].dsml) else 0)
  {
    if i == 0 {
      assert Without(items, 0) == items[1..];
    } else {
      var rest := items[1..];
      CostWithout(l, rest, i - 1);
      assert Without(items, i)[1..] == Without(rest, i - 1);
      UsesWithout(rest, i - 1, items[0].dsml);
    }
  }

  lemma {:induction false} UsesNone(items: seq<Item>, dsml: Bytes)
    ensures Uses(items, dsml) == 0 <==> forall i :: 0 <= i < |items| ==> items[i].dsml != dsml
  {
    if items != [] {
      UsesNone(items[1..], dsml);
      assert forall i :: 0 < i < |items| ==> items[i] == items[1..][i - 1];
    }
  }

  /** Moving an item to the front costs nothing. */
  lemma FrontCost(l: Limits, items: seq<Item>, i: nat, item: Item)
    requires i < |items| && item.id == items[i].id && item.dsml == items[i].dsml
    ensures Cost(l, [item] + Without(items, i)) == Cost(l, items)
  {
    hide Uses;
    CostWithout(l, items, i);
    assert ([item] + Without(items, i))[1..] == Without(items, i);
  }

  lemma FrontUses(items: seq<Item>, i: nat, item: Item, dsml: Bytes)
    requires i < |items| && item.dsml == items[i].dsml
    ensures Uses([item] + Without(items, i), dsml) == Uses(items, dsml)
  {
    UsesWithout(items, i, dsml);
    assert ([item] + Without(items, i))[1..] == Without(items, i);
  }

  lemma PushUses(items: seq<Item>, item: Item, dsml: Bytes)
    ensures Uses([item] + items, dsml) == Uses(items, dsml) + (if item.dsml == dsml then 1 else 0)
  {
    assert ([item] + items)[1..] == items;
  }

  lemma PushCost(l: Limits, items: seq<Item>, item: Item)
    ensures Cost(l, [item] + items) == Cost(l, items) + l.EntryBytes(item.id)
                                       + (if Uses(items, item.dsml) == 0 then l.BlockBytes(item.dsml) else 0)
  {
    assert ([item] + items)[1..] == items;
  }

  lemma FindUnique(items: seq<Item>, id: Bytes, i: nat)
    requires DistinctIds(items) && i < |items| && items[i].id == id
    ensures Find(items, id) == i
  {
  }

  // The shape of the list

  lemma WithoutWellFormed(items: seq<Item>, i: nat, clock: nat)
    requires WellFormed(items, clock) && i < |items|
    ensures WellFormed(Without(items, i), clock)
    ensures forall j :: 0 <= j < |items| - 1 ==> Without(items, i)[j].id != items[i].id
  {
  }

  lemma PushWellFormed(items: seq<Item>, item: Item, clock: nat)
    requires WellFormed(items, clock) && clock < item.stamp && item.id != [] && item.dsml != []
    requires forall j :: 0 <= j < |items| ==> items[j].id != item.id
    ensures WellFormed([item] + items, item.stamp)
  {
    hide NonEmptyTexts;
    assert NonEmptyTexts([item] + items) by {
      PushNonEmpty(items, item);
    }
  }

  lemma PushNonEmpty(items: seq<Item>, item: Item)
    requires NonEmptyTexts(items) && item.id != [] && item.dsml != []
    ensures NonEmptyTexts([item] + items)
  {
  }

  lemma TouchWellFormed(items: seq<Item>, i: nat, clock: nat)
    requires WellFormed(items, clock) && i < |items|
    ensures WellFormed(Touch(items, i, clock + 1), clock + 1)
  {
    WithoutWellFormed(items, i, clock);
    assert items[i].id != [] && items[i].dsml != [];
    PushWellFormed(Without(items, i), items[i].(stamp := clock + 1), clock);
  }

  lemma RememberWellFormed(items: seq<Item>, id: Bytes, dsml: Bytes, source: Source, clock: nat)
    requires WellFormed(items, clock) && id != [] && dsml != []
    ensures WellFormed(Remember(items, id, dsml, source, clock + 1), clock + 1)
  {
    var i := Find(items, id);
    if i < |items| {
      WithoutWellFormed(items, i, clock);
      PushWellFormed(Without(items, i), Remember(items, id, dsml, source, clock + 1)[0], clock);
    } else {
      PushWellFormed(items, Item(id, dsml, source, clock + 1), clock);
    }
  }

  // Pruning

  /** Pruning keeps the longest prefix, most recent first, that meets both limits. */
  lemma {:induction false} PrunedIsLongestFit(l: Limits, items: seq<Item>)
    ensures Fits(l, Pruned(l, items)) && Pruned(l, items) <= items
    ensures forall k :: |Pruned(l, items)| < k <= |items| ==> !Fits(l, items[..k])
  {
    if items != [] && !Fits(l, items) {
      var shorter := items[..|items| - 1];
      PrunedIsLongestFit(l, shorter);
      forall k | |Pruned(l, items)| < k <= |items|
        ensures !Fits(l, items[..k])
      {
        if k == |items| {
          assert items[..k] == items;
        } else {
          assert items[..k] == shorter[..k];
        }
      }
    }
  }

  lemma PrunedStep(l: Limits, items: seq<Item>)
    requires items != [] && !Fits(l, items)
    ensures Pruned(l, items) == Pruned(l, Without(items, |items| - 1))
  {
    assert Without(items, |items| - 1) == items[..|items| - 1];
  }

  lemma PrunedStop(l: Limits, items: seq<Item>)
    requires items == [] || Fits(l, items)
    ensures Pruned(l, items) == items
  {
  }

  lemma PrefixWellFormed(items: seq<Item>, k: nat, clock: nat)
    requires WellFormed(items, clock) && k <= |items|
    ensures WellFormed(items[..k], clock)
  {
  }

  lemma {:induction false} PrefixIsCheaper(l: Limits, items: seq<Item>, k: nat)
    requires k <= |items|
    ensures Cost(l, items[..k]) <= Cost(l, items)
    decreases |items|
  {
    if k < |items| {
      var n := |items| - 1;
      CostWithout(l, items, n);
      assert Without(items, n) == items[..n] && items[..k] == items[..n][..k];
      PrefixIsCheaper(l, items[..n], k);
    } else {
      assert items[..k] == items;
    }
  }

  /** The id just put is found with exactly its text, unless that one entry and
      its block alone exceed the byte budget. */
  lemma PutThenFound(l: Limits, items: seq<Item>, id: Bytes, dsml: Bytes, source: Source, stamp: nat)
    requires id != [] && dsml != [] && DistinctIds(items)
    ensures var after := Put(l, items, id, dsml, source, stamp);
            if l.EntryBytes(id) + l.BlockBytes(dsml) <= l.Budget()
            then after != [] && after[0].id == id && TextOf(after, id) == Some(dsml)
            else after == []
  {
    var all := Remember(items, id, dsml, source, stamp);
    PrunedIsLongestFit(l, all);
    var one := all[..1];
    assert one == [all[0]];
    assert Cost(l, one) == l.EntryBytes(id) + l.BlockBytes(dsml);
    var after := Pruned(l, all);
    if |after| > 0 {
      assert after[..1] == one;
      PrefixIsCheaper(l, after, 1);
    }
  }

  /** Where a put comes from is remembered, and memory wins over disk for the same text. */
  lemma PutSource(l: Limits, items: seq<Item>, id: Bytes, dsml: Bytes, source: Source, stamp: nat)
    requires id != [] && dsml != [] && Put(l, items, id, dsml, source, stamp) != []
    ensures SourceOf(Put(l, items, id, dsml, source, stamp), id)
         == Some(if TextOf(items, id) == Some(dsml) && SourceOf(items, id) == Some(Ram) then Ram else source)
  {
    var all := Remember(items, id, dsml, source, stamp);
    PrunedIsLongestFit(l, all);
    var after := Pruned(l, all);
    assert after[0] == all[0] && all[0].id == id;
    assert Find(after, id) == 0 && SourceOf(after, id) == Some(all[0].source);
    var i := Find(items, id);
    if i < |items| && items[i].source != Ram {
      assert items[i].source == Disk;
    }
    assert source == Ram || source == Disk;
  }

  /** What was just looked up outlives everything else that was not used since. */
  lemma LookedUpSurvives(l: Limits, items: seq<Item>, x: Bytes, stamp: nat, id: Bytes, dsml: Bytes, source: Source, next: nat)
    requires id != [] && dsml != [] && Known(items, x) && x != id
    ensures var after := Put(l, Lookup(items, x, stamp), id, dsml, source, next);
            |after| > 1 ==> after[1].id == x && TextOf(after, x) == TextOf(items, x)
  {
    var touched := Lookup(items, x, stamp);
    var all := Remember(touched, id, dsml, source, next);
    PrunedIsLongestFit(l, all);
    var after := Pruned(l, all);
    assert touched[0].id == x && touched[0].dsml == items[Find(items, x)].dsml;
    var i := Find(touched, id);
    if i < |touched| {
      assert Without(touched, i)[0] == touched[0];
    }
    assert all[1] == touched[0];
    if |after| > 1 {
      assert after[1] == all[1] && after[0] == all[0];
      assert Find(after, x) == 1;
    }
  }

  // Exact replay of the calls of a message

  function SourceOf(items: seq<Item>, id: Bytes): Option<Source> {
    var i := Find(items, id);
    if i < |items| then Some(items[i].source) else None
  }

  ghost predicate AllHave(items: seq<Item>, ids: seq<Bytes>, dsml: Bytes) {
    forall i :: 0 <= i < |ids| ==> TextOf(items, ids[i]) == Some(dsml)
  }

  ghost predicate AnyRam(items: seq<Item>, ids: seq<Bytes>) {
    exists i :: 0 <= i < |ids| && SourceOf(items, ids[i]) == Some(Ram)
  }

  /** The text to replay for the calls of a message, if any. */
  ghost function ExactText(items: seq<Item>, ids: seq<Bytes>): Option<Bytes> {
    if ids != [] && Known(items, ids[0]) && AllHave(items, ids, TextOf(items, ids[0]).value) then TextOf(items, ids[0])
    else None
  }

  /** A text is replayed exactly when there is a call and every call has it. */
  lemma ExactTextIff(items: seq<Item>, ids: seq<Bytes>, dsml: Bytes)
    ensures ExactText(items, ids) == Some(dsml) <==> ids != [] && AllHave(items, ids, dsml)
  {
    if ids != [] && AllHave(items, ids, dsml) {
      assert TextOf(items, ids[0]) == Some(dsml);
    }
  }

  function Missing(items: seq<Item>, ids: seq<Bytes>): (n: nat)
    ensures n <= |ids|
  {
    if ids == [] then 0
    else Missing(items, ids[..|ids| - 1]) + if Known(items, ids[|ids| - 1]) then 0 else 1
  }

  /** The items after looking up the ids in turn. */
  function Looked(items: seq<Item>, ids: seq<Bytes>, clock: nat): seq<Item> {
    if ids == [] then items
    else
      var before := ids[..|ids| - 1];
      Lookup(Looked(items, before, clock), ids[|ids| - 1], clock + |before| - Missing(items, before) + 1)
  }

  /** What is known about an id, but for its stamp. */
  function FactOf(items: seq<Item>, id: Bytes): Option<Item> {
    var i := Find(items, id);
    if i < |items| then Some(items[i].(stamp := 0)) else None
  }

  lemma FactDetermines(items: seq<Item>, other: seq<Item>, id: Bytes)
    requires FactOf(items, id) == FactOf(other, id)
    ensures TextOf(items, id) == TextOf(other, id) && SourceOf(items, id) == SourceOf(other, id)
    ensures Known(items, id) == Known(other, id)
  {
  }

  /** Where the item at `k` stands after the one at `i` has been touched. */
  lemma TouchMoves(items: seq<Item>, i: nat, stamp: nat, k: nat)
    requires i < |items| && k < |items|
    ensures var after := Touch(items, i, stamp);
            |after| == |items| && after[if k == i then 0 else if k < i then k + 1 else k].(stamp := 0) == items[k].(stamp := 0)
  {
  }

  lemma TouchFrom(items: seq<Item>, i: nat, stamp: nat, k: nat)
    requires i < |items| && k < |items|
    ensures |Touch(items, i, stamp)| == |items|
    ensures Touch(items, i, stamp)[k].id == items[if k == 0 then i else if k <= i then k - 1 else k].id
  {
  }

  lemma TouchDistinct(items: seq<Item>, i: nat, stamp: nat)
    requires DistinctIds(items) && i < |items|
    ensures DistinctIds(Touch(items, i, stamp))
  {
    hide Touch;
    var after := Touch(items, i, stamp);
    TouchFrom(items, i, stamp, 0);
    forall j, k | 0 <= j < k < |after|
      ensures after[j].id != after[k].id
    {
      TouchFrom(items, i, stamp, j);
      TouchFrom(items, i, stamp, k);
    }
  }

  lemma TouchKeeps(items: seq<Item>, i: nat, stamp: nat, x: Bytes)
    requires DistinctIds(items) && i < |items|
    ensures FactOf(Touch(items, i, stamp), x) == FactOf(items, x)
  {
    TouchDistinct(items, i, stamp);
    var after, k := Touch(items, i, stamp), Find(items, x);
    hide DistinctIds, Touch;
    if k < |items| {
      TouchMoves(items, i, stamp, k);
      FindUnique(after, x, if k == i then 0 else if k < i then k + 1 else k);
    } else {
      TouchFrom(items, i, stamp, 0);
      forall n | 0 <= n < |after|
        ensures after[n].id != x
      {
        TouchFrom(items, i, stamp, n);
        FindAbsent(items, x, if n == 0 then i else if n <= i then n - 1 else n);
      }
      FindNone(after, x);
    }
  }

  lemma FindAbsent(items: seq<Item>, x: Bytes, k: nat)
    requires Find(items, x) == |items| && k < |items|
    ensures items[k].id != x
  {
  }

  lemma FindNone(items: seq<Item>, x: Bytes)
    requires forall k :: 0 <= k < |items| ==> items[k].id != x
    ensures Find(items, x) == |items|
  {
  }

  lemma LookupKeeps(items: seq<Item>, id: Bytes, stamp: nat, x: Bytes)
    requires DistinctIds(items)
    ensures DistinctIds(Lookup(items, id, stamp)) && FactOf(Lookup(items, id, stamp), x) == FactOf(items, x)
  {
    hide DistinctIds, FactOf, Touch;
    if Known(items, id) {
      TouchDistinct(items, Find(items, id), stamp);
      TouchKeeps(items, Find(items, id), stamp, x);
    }
  }

  lemma {:induction false} LookedKeeps(items: seq<Item>, ids: seq<Bytes>, clock: nat, x: Bytes)
    requires DistinctIds(items)
    ensures DistinctIds(Looked(items, ids, clock)) && FactOf(Looked(items, ids, clock), x) == FactOf(items, x)
  {
    hide DistinctIds, FactOf, Lookup;
    if ids != [] {
      var before := ids[..|ids| - 1];
      LookedKeeps(items, before, clock, x);
      LookupKeeps(Looked(items, before, clock), ids[|ids| - 1], clock + |before| - Missing(items, before) + 1, x);
    }
  }

  lemma LookedStart(items: seq<Item>, ids: seq<Bytes>, clock: nat)
    ensures Looked(items, ids[..0], clock) == items && Missing(items, ids[..0]) == 0
    ensures MatchedSoFar(items, ids[..0], true, None, Disk)
  {
  }

  lemma LookedStep(items: seq<Item>, ids: seq<Bytes>, j: nat, clock: nat)
    requires DistinctIds(items) && j < |ids|
    ensures var before := Looked(items, ids[..j], clock);
            && Looked(items, ids[..j + 1], clock) == Lookup(before, ids[j], clock + j - Missing(items, ids[..j]) + 1)
            && TextOf(before, ids[j]) == TextOf(items, ids[j])
            && SourceOf(before, ids[j]) == SourceOf(items, ids[j])
            && Known(before, ids[j]) == Known(items, ids[j])
    ensures Missing(items, ids[..j + 1]) == Missing(items, ids[..j]) + if Known(items, ids[j]) then 0 else 1
  {
    hide DistinctIds, FactOf, Lookup, TextOf, SourceOf, Known;
    LookedKeeps(items, ids[..j], clock, ids[j]);
    FactDetermines(Looked(items, ids[..j], clock), items, ids[j]);
    assert ids[..j + 1][..j] == ids[..j];
  }

  /** What the matching loop knows after some ids. */
  ghost predicate MatchedSoFar(items: seq<Item>, ids: seq<Bytes>, exact: bool, text: Option<Bytes>, source: Source) {
    && (exact ==> if ids == [] then text.None? else text.Some? && AllHave(items, ids, text.value))
    && (!exact ==> forall d :: !AllHave(items, ids, d))
    && (source == Ram <==> AnyRam(items, ids))
    && (text.None? ==> source == Disk)
  }

  lemma TextWithSource(items: seq<Item>, id: Bytes)
    ensures TextOf(items, id).Some? <==> SourceOf(items, id).Some?
  {
  }

  lemma MatchStep(items: seq<Item>, ids: seq<Bytes>, j: nat, exact: bool, text: Option<Bytes>, source: Source)
    requires j < |ids| && MatchedSoFar(items, ids[..j], exact, text, source)
    ensures var found := TextOf(items, ids[j]);
            MatchedSoFar(items, ids[..j + 1], exact && found.Some? && (text.None? || text == found),
                         if text.None? then found else text,
                         if SourceOf(items, ids[j]) == Some(Ram) then Ram else source)
  {
    TextWithSource(items, ids[j]);
    hide TextOf, SourceOf;
    var more, less := ids[..j + 1], ids[..j];
    assert more == less + [ids[j]];
    assert j > 0 ==> forall d :: AllHave(items, less, d) ==> TextOf(items, less[0]) == Some(d);
    forall d
      ensures AllHave(items, more, d) <==> AllHave(items, less, d) && TextOf(items, ids[j]) == Some(d)
    {
      assert forall i :: 0 <= i < j ==> more[i] == less[i];
      assert more[j] == ids[j];
    }
    assert AnyRam(items, more) <==> AnyRam(items, less) || SourceOf(items, ids[j]) == Some(Ram) by {
      assert forall i :: 0 <= i < j ==> more[i] == less[i];
      assert more[j] == ids[j];
    }
  }

  lemma MatchEnd(items: seq<Item>, ids: seq<Bytes>, exact: bool, text: Option<Bytes>, source: Source)
    requires MatchedSoFar(items, ids, exact, text, source)
    ensures ExactText(items, ids) == if exact then text else None
    ensures source == Ram <==> AnyRam(items, ids)
  {
    hide TextOf;
    if exact && ids != [] {
      ExactTextIff(items, ids, text.value);
    } else if ExactText(items, ids).Some? {
      ExactTextIff(items, ids, ExactText(items, ids).value);
    }
  }
}
