/** The tool-id map stored beside a cached prompt: which remembered calls occur in
    the text, written as one block of length-prefixed records. */
module KvToolMap {
  import opened ByteStrings
  import opened ToolMemorySpec
  import opened Dsml

  /** A call id and its text. */
  datatype Record = Record(id: Bytes, dsml: Bytes)

  const WORD32 := 0x1_0000_0000

  const HEADER := Ascii("KTM") + [1]

  const BLANK_LINE: Bytes := [10, 10]

  /** Opening and closing text of every form of tool block. */
  const FORMS: seq<(Bytes, Bytes)> := [
    (BLANK_LINE + FULL.toolStart, FULL.toolEnd), (FULL.toolStart, FULL.toolEnd),
    (BLANK_LINE + SHORT.toolStart, SHORT.toolEnd), (SHORT.toolStart, SHORT.toolEnd),
    (BLANK_LINE + PLAIN.toolStart, PLAIN.toolEnd), (PLAIN.toolStart, PLAIN.toolEnd)]

  function Put32(n: nat): (r: Bytes)
    ensures |r| == 4
  {
    [n % 256, n / 256 % 256, n / 65536 % 256, n / 16777216 % 256]
  }

  function Get32(b: Bytes): (n: nat)
    requires |b| == 4
    ensures n < WORD32
  {
    (b[0] as int) + 256 * (b[1] as int) + 65536 * (b[2] as int) + 16777216 * (b[3] as int)
  }

  lemma Get32Put32(n: nat)
    requires n < WORD32
    ensures Get32(Put32(n)) == n
  {
    var a, b, c := n / 256, n / 65536, n / 16777216;
    assert b == a / 256 && c == b / 256;
  }

  function RecordBytes(r: Record): Bytes {
    Put32(|r.id|) + Put32(|r.dsml|) + r.id + r.dsml
  }

  function RecordsBytes(rs: seq<Record>): Bytes {
    if rs == [] then [] else RecordBytes(rs[0]) + RecordsBytes(rs[1..])
  }

  /** The stored map: nothing at all when there is nothing to store. */
  function Image(rs: seq<Record>): Bytes {
    if rs == [] then [] else HEADER + Put32(|rs|) + RecordsBytes(rs)
  }

  /** A record the loader accepts. */
  predicate Loadable(idLen: nat, dsmlLen: nat) {
    0 < idLen <= 256 && 0 < dsmlLen <= DEFAULT_MAX_BYTES
  }

  /** The record at `p` and where it ends, unless it is cut off or not acceptable. */
  function RecordAt(image: Bytes, p: nat): (r: Option<(Record, nat)>)
    requires p <= |image|
    ensures r.Some? ==> p < r.value.1 <= |image| && r.value.0.id != [] && r.value.0.dsml != []
  {
    if p + 8 > |image| then None
    else
      var idLen, dsmlLen := Get32(image[p..p + 4]), Get32(image[p + 4..p + 8]);
      var q := p + 8;
      if !Loadable(idLen, dsmlLen) || q + idLen + dsmlLen > |image| then None
      else Some((Record(image[q..q + idLen], image[q + idLen..q + idLen + dsmlLen]), q + idLen + dsmlLen))
  }

  /** The records of `count` that can be read from position `p`. */
  function ReadRecords(image: Bytes, p: nat, count: nat): seq<Record>
    requires p <= |image|
    decreases count
  {
    if count == 0 then []
    else
      var r := RecordAt(image, p);
      if r.None? then [] else [r.value.0] + ReadRecords(image, r.value.1, count - 1)
  }

  /** What a loader that accepts up to `limit` records reads. */
  function Parse(image: Bytes, limit: nat): seq<Record> {
    if |image| < 8 || image[..4] != HEADER || Get32(image[4..8]) > limit then []
    else ReadRecords(image, 8, Get32(image[4..8]))
  }

  lemma ReadOne(image: Bytes, p: nat, r: Record, rest: Bytes, count: nat)
    requires p <= |image| && image[p..] == RecordBytes(r) + rest && count > 0
    requires Loadable(|r.id|, |r.dsml|)
    ensures p + |RecordBytes(r)| <= |image| && image[p + |RecordBytes(r)|..] == rest
    ensures ReadRecords(image, p, count) == [r] + ReadRecords(image, p + |RecordBytes(r)|, count - 1)
  {
    hide Put32, Get32, ReadRecords;
    var q, n, m := p + 8, |r.id|, |r.dsml|;
    Get32Put32(n);
    Get32Put32(m);
    FieldsAt(image, p, Put32(n), Put32(m), r.id, r.dsml, rest);
    RecordIs(image, p, r);
    ReadMore(image, p, r, q + n + m, count);
  }

  /** Where the fields of a record stand. */
  lemma FieldsAt(image: Bytes, p: nat, a: Bytes, b: Bytes, id: Bytes, dsml: Bytes, rest: Bytes)
    requires p <= |image| && image[p..] == a + b + id + dsml + rest && |a| == 4 && |b| == 4
    ensures var q, n, m := p + 8, |id|, |dsml|;
            && q + n + m <= |image|
            && image[p..p + 4] == a && image[p + 4..q] == b && image[q..q + n] == id
            && image[q + n..q + n + m] == dsml && image[q + n + m..] == rest
  {
    var tail := image[p..];
    var q, n, m := p + 8, |id|, |dsml|;
    assert image[p..p + 4] == tail[..4] == a;
    assert image[p + 4..p + 8] == tail[4..8] == b;
    assert image[q..q + n] == tail[8..8 + n] == id;
    assert image[q + n..q + n + m] == tail[8 + n..8 + n + m] == dsml;
    assert image[q + n + m..] == tail[8 + n + m..] == rest;
  }

  lemma RecordIs(image: Bytes, p: nat, r: Record)
    requires var q, n, m := p + 8, |r.id|, |r.dsml|;
             && q + n + m <= |image| && Loadable(n, m)
             && Get32(image[p..p + 4]) == n && Get32(image[p + 4..q]) == m
             && image[q..q + n] == r.id && image[q + n..q + n + m] == r.dsml
    ensures RecordAt(image, p) == Some((r, p + 8 + |r.id| + |r.dsml|))
  {
    hide Get32, Loadable;
  }

  lemma ReadMore(image: Bytes, p: nat, r: Record, next: nat, count: nat)
    requires p <= |image| && next <= |image| && count > 0 && RecordAt(image, p) == Some((r, next))
    ensures ReadRecords(image, p, count) == [r] + ReadRecords(image, next, count - 1)
  {
    hide RecordAt;
  }

  ghost predicate AllLoadable(rs: seq<Record>) {
    forall i :: 0 <= i < |rs| ==> Loadable(|rs[i].id|, |rs[i].dsml|)
  }

  lemma {:induction false} ReadAll(image: Bytes, p: nat, rs: seq<Record>)
    requires p <= |image| && image[p..] == RecordsBytes(rs) && AllLoadable(rs)
    ensures ReadRecords(image, p, |rs|) == rs
    decreases |rs|
  {
    hide RecordBytes, ReadRecords, Loadable;
    ReadNone(image, p);
    if rs != [] {
      var rest := rs[1..];
      AllLoadableTail(rs);
      ReadOne(image, p, rs[0], RecordsBytes(rest), |rs|);
      ReadAll(image, p + |RecordBytes(rs[0])|, rest);
      assert rs == [rs[0]] + rest;
    }
  }

  lemma ReadNone(image: Bytes, p: nat)
    requires p <= |image|
    ensures ReadRecords(image, p, 0) == []
  {
  }

  lemma AllLoadableTail(rs: seq<Record>)
    requires AllLoadable(rs) && rs != []
    ensures Loadable(|rs[0].id|, |rs[0].dsml|) && AllLoadable(rs[1..])
  {
  }

  /** Of a damaged map the records before the damage are read. */
  lemma {:induction false} ReadUpTo(image: Bytes, p: nat, rs: seq<Record>, junk: Bytes, count: nat)
    requires p <= |image| && image[p..] == RecordsBytes(rs) + junk && AllLoadable(rs) && |rs| <= count
    requires RecordAt(junk, 0).None?
    ensures ReadRecords(image, p, count) == rs
    decreases |rs|
  {
    hide RecordBytes, ReadRecords, Loadable, RecordAt;
    if rs == [] {
      assert image[p..] == junk;
      JunkAt(image, p, junk);
      if count > 0 {
        ReadNothing(image, p, count);
      } else {
        ReadNone(image, p);
      }
    } else {
      var rest := rs[1..];
      AllLoadableTail(rs);
      assert RecordsBytes(rs) + junk == RecordBytes(rs[0]) + (RecordsBytes(rest) + junk);
      ReadOne(image, p, rs[0], RecordsBytes(rest) + junk, count);
      ReadUpTo(image, p + |RecordBytes(rs[0])|, rest, junk, count - 1);
      assert rs == [rs[0]] + rest;
    }
  }

  lemma ReadNothing(image: Bytes, p: nat, count: nat)
    requires p <= |image| && count > 0 && RecordAt(image, p).None?
    ensures ReadRecords(image, p, count) == []
  {
    hide RecordAt;
  }

  lemma JunkAt(image: Bytes, p: nat, junk: Bytes)
    requires p <= |image| && image[p..] == junk && RecordAt(junk, 0).None?
    ensures RecordAt(image, p).None?
  {
    hide Get32;
    if |junk| >= 8 {
      assert image[p..p + 4] == junk[0..4] && image[p + 4..p + 8] == junk[4..8];
    }
  }

  /** Reading an image back gives exactly the records written. */
  lemma ParseImage(rs: seq<Record>, limit: nat)
    requires |rs| <= limit && |rs| < WORD32
    requires AllLoadable(rs)
    ensures Parse(Image(rs), limit) == rs
  {
    if rs != [] {
      hide RecordsBytes, Put32;
      var image := Image(rs);
      Get32Put32(|rs|);
      assert image[..4] == HEADER && image[4..8] == Put32(|rs|) && image[8..] == RecordsBytes(rs);
      ReadAll(image, 8, rs);
    }
  }

  // Tool blocks in a text

  /** The next tool block of one of the first `k` forms, as start and end: the
      form whose opening tag comes first among those that are closed. */
  function BestBlock(text: Bytes, p: nat, k: nat): (r: Option<(nat, nat)>)
    requires k <= |FORMS|
    ensures r.Some? ==> p <= r.value.0 < r.value.1 <= |text|
  {
    if k == 0 then None
    else
      var best, form := BestBlock(text, p, k - 1), FORMS[k - 1];
      FormNotEmpty(k - 1);
      var s := FindFrom(text, form.0, p);
      if s.None? || (best.Some? && s.value >= best.value.0) then best
      else
        var e := FindFrom(text, form.1, s.value);
        if e.None? then best else Some((s.value, e.value + |form.1|))
  }

  lemma FormNotEmpty(k: nat)
    requires k < |FORMS|
    ensures FORMS[k].1 != []
  {
  }

  function NextBlock(text: Bytes, p: nat): (r: Option<(nat, nat)>)
    ensures r.Some? ==> p <= r.value.0 < r.value.1 <= |text|
  {
    BestBlock(text, p, |FORMS|)
  }

  /** A form is open and then closed at its first opening tag. */
  ghost predicate Closed(text: Bytes, p: nat, k: nat)
    requires k < |FORMS|
  {
    var s := FindFrom(text, FORMS[k].0, p);
    s.Some? && FindFrom(text, FORMS[k].1, s.value).Some?
  }

  /** No closed form starts before the block found. */
  lemma {:induction false} BestBlockIsFirst(text: Bytes, p: nat, k: nat, j: nat)
    requires j < k <= |FORMS| && Closed(text, p, j)
    ensures BestBlock(text, p, k).Some?
    ensures BestBlock(text, p, k).value.0 <= FindFrom(text, FORMS[j].0, p).value
  {
    hide FORMS;
    if j < k - 1 {
      BestBlockIsFirst(text, p, k - 1, j);
    }
  }

  /** All tool blocks of a text from `p` on. */
  function BlocksIn(text: Bytes, p: nat): seq<Bytes>
    decreases |text| - p
  {
    var next := NextBlock(text, p);
    if next.None? then []
    else [text[next.value.0..next.value.1]] + BlocksIn(text, next.value.1)
  }

  lemma {:induction false} RecordsBytesAppend(a: seq<Record>, b: seq<Record>)
    ensures RecordsBytes(a + b) == RecordsBytes(a) + RecordsBytes(b)
  {
    if a == [] {
      assert a + b == b;
    } else {
      assert (a + b)[1..] == a[1..] + b;
      RecordsBytesAppend(a[1..], b);
    }
  }
}
