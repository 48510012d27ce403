/** How much of an unfinished parameter value can be streamed: nothing that could
    be the start of the closing tag, of an entity, or of a character. */
module StreamHold {
  import opened ByteStrings
  import opened Dsml
  import opened Utf8

  /** The last position of `b` in `s[lo..hi]`. */
  function LastIndex(s: Bytes, b: Byte, lo: nat, hi: nat): (r: Option<nat>)
    requires hi <= |s|
    ensures r.Some? ==> lo <= r.value < hi && s[r.value] == b
    ensures forall i :: lo <= i < hi && (r.Some? ==> r.value < i) ==> s[i] != b
    decreases hi
  {
    if hi <= lo then None else if s[hi - 1] == b then Some(hi - 1) else LastIndex(s, b, lo, hi - 1)
  }

  method FindLast(s: Bytes, b: Byte, lo: nat, hi: nat) returns (r: Option<nat>)
    requires hi <= |s|
    ensures r == LastIndex(s, b, lo, hi)
  {
    var i: nat := hi;
    while i > lo
      invariant i <= hi && LastIndex(s, b, lo, hi) == LastIndex(s, b, lo, i)
    {
      if s[i - 1] == b {
        return Some(i - 1);
      }
      i := i - 1;
    }
    r := None;
  }

  /** Hold an unfinished closing tag at the end of the text. */
  function TagHold(s: Bytes, start: nat, t: Bytes): (r: nat)
    requires start <= |s|
    ensures start <= r <= |s|
  {
    var scan := if |s| > start + |t| then |s| - |t| else start;
    var m := LastIndex(s, LT, scan, |s|);
    if m.Some? && |s| - m.value < |t| && s[m.value..] == t[..|s| - m.value] then m.value else |s|
  }

  predicate UnfinishedEntity(t: Bytes) {
    t < AMP_ENTITY || t < LT_ENTITY || t < GT_ENTITY || t < QUOT_ENTITY || t < APOS_ENTITY
  }

  /** Hold an unfinished entity before `limit`. */
  function EntityHold(s: Bytes, start: nat, limit: nat): (r: nat)
    requires start <= limit <= |s|
    ensures start <= r <= limit
  {
    var scan := if limit > start + 6 then limit - 6 else start;
    var m := LastIndex(s, AMP, scan, limit);
    if m.Some? && UnfinishedEntity(s[m.value..limit]) then m.value else limit
  }

  function ValueLimit(s: Bytes, start: nat, t: Bytes, isString: bool): (r: nat)
    requires start <= |s|
    ensures start <= r <= |s|
  {
    var limit := TagHold(s, start, t);
    SafeLen(s, start, if isString then EntityHold(s, start, limit) else limit, false)
  }

  method ComputeTagHold(s: Bytes, start: nat, t: Bytes) returns (r: nat)
    requires start <= |s|
    ensures r == TagHold(s, start, t)
  {
    hide LastIndex;
    var m := FindLast(s, LT, if |s| > start + |t| then |s| - |t| else start, |s|);
    r := if m.Some? && |s| - m.value < |t| && s[m.value..] == t[..|s| - m.value] then m.value else |s|;
  }

  method ComputeEntityHold(s: Bytes, start: nat, limit: nat) returns (r: nat)
    requires start <= limit <= |s|
    ensures r == EntityHold(s, start, limit)
  {
    hide LastIndex, UnfinishedEntity;
    var m := FindLast(s, AMP, if limit > start + 6 then limit - 6 else start, limit);
    r := if m.Some? && UnfinishedEntity(s[m.value..limit]) then m.value else limit;
  }

  method ComputeValueLimit(s: Bytes, start: nat, t: Bytes, isString: bool) returns (r: nat)
    requires start <= |s|
    ensures r == ValueLimit(s, start, t, isString)
  {
    hide TagHold, EntityHold, SafeLen;
    r := ComputeTagHold(s, start, t);
    if isString {
      r := ComputeEntityHold(s, start, r);
    }
    r := ComputeSafeLen(s, start, r, false);
  }

  /** However the text goes on, no closing tag begins before the held position. */
  lemma TagHoldOk(p: Bytes, s: Bytes, start: nat, t: Bytes, e: nat)
    requires start <= |p| && p <= s && TagShape(t) && FindFrom(p, t, start).None?
    requires start <= e && IsAt(s, t, e)
    ensures TagHold(p, start, t) <= e
  {
    if e < |p| {
      assert e + |t| > |p| by {
        if e + |t| <= |p| {
          IsAtShrinks(p, s, t, e);
        }
      }
      assert s[e..e + |t|][..|p| - e] == t[..|p| - e] == p[e..];
      assert p[e] == t[0];
      forall i | e < i < |p|
        ensures p[i] != LT
      {
        assert p[e..][i - e] == t[i - e];
      }
    }
  }

  lemma EntityBytes(s: Bytes, a: nat, k: nat)
    requires EntityAt(s, a).Some? && a < k < a + EntityAt(s, a).value.0
    ensures s[a] == AMP && s[k] != AMP && s[k] < 0x80
  {
    hide IsAt;
    EntityText(s, a);
    var t := EntityName(s, a);
    ByteAt(s, t, a, 0);
    ByteAt(s, t, a, k - a);
  }

  /** The spelling of the entity at `a`. */
  function EntityName(s: Bytes, a: nat): Bytes {
    if IsAt(s, AMP_ENTITY, a) then AMP_ENTITY
    else if IsAt(s, LT_ENTITY, a) then LT_ENTITY
    else if IsAt(s, GT_ENTITY, a) then GT_ENTITY
    else if IsAt(s, QUOT_ENTITY, a) then QUOT_ENTITY
    else APOS_ENTITY
  }

  lemma EntityText(s: Bytes, a: nat)
    requires EntityAt(s, a).Some?
    ensures var t := EntityName(s, a);
            && IsAt(s, t, a) && |t| == EntityAt(s, a).value.0 && |t| <= 6
            && t[0] == AMP && (forall i :: 0 < i < |t| ==> t[i] != AMP && t[i] < 0x80)
            && (forall i :: 0 <= i < |t| ==> t[i] != LT)
            && (forall u :: u < t ==> UnfinishedEntity(u))
  {
  }

  /** No entity of the text runs across a cut. */
  ghost predicate CleanCut(s: Bytes, start: nat, k: nat) {
    forall a :: start <= a < k && EntityAt(s, a).Some? ==> a + EntityAt(s, a).value.0 <= k
  }

  lemma EntityHoldOk(p: Bytes, s: Bytes, start: nat, limit: nat)
    requires start <= limit <= |p| && p <= s
    ensures CleanCut(s, start, EntityHold(p, start, limit))
  {
    var k := EntityHold(p, start, limit);
    forall a | start <= a < k && EntityAt(s, a).Some?
      ensures a + EntityAt(s, a).value.0 <= k
    {
      NoEntityAcross(p, s, start, limit, a);
    }
  }

  lemma NoEntityAcross(p: Bytes, s: Bytes, start: nat, limit: nat, a: nat)
    requires start <= limit <= |p| && p <= s && start <= a < EntityHold(p, start, limit) && EntityAt(s, a).Some?
    ensures a + EntityAt(s, a).value.0 <= EntityHold(p, start, limit)
  {
    hide EntityAt, UnfinishedEntity;
    var k := EntityHold(p, start, limit);
    if k < limit && k < a + EntityAt(s, a).value.0 {
      EntityBytes(s, a, k);
    } else if limit < a + EntityAt(s, a).value.0 {
      UnfinishedAt(p, s, limit, a);
      LastIndexIs(p, AMP, if limit > start + 6 then limit - 6 else start, limit, a);
    }
  }

  lemma UnfinishedAt(p: Bytes, s: Bytes, limit: nat, a: nat)
    requires p <= s && limit <= |p| && EntityAt(s, a).Some? && a < limit < a + EntityAt(s, a).value.0
    ensures p[a] == AMP && UnfinishedEntity(p[a..limit]) && limit - a < 6
    ensures forall i :: a < i < limit ==> p[i] != AMP
  {
    forall i | a < i < limit
      ensures p[i] != AMP
    {
      EntityBytes(s, a, i);
    }
    EntityText(s, a);
    var t := EntityName(s, a);
    ByteAt(s, t, a, 0);
    PartOf(p, s, t, a, limit);
  }

  lemma PartOf(p: Bytes, s: Bytes, t: Bytes, a: nat, limit: nat)
    requires p <= s && IsAt(s, t, a) && a <= limit <= |p| && limit < a + |t|
    ensures p[a..limit] < t
  {
    assert s[a..a + |t|][..limit - a] == p[a..limit];
    assert t[..limit - a] < t;
  }

  lemma LastIndexIs(s: Bytes, b: Byte, lo: nat, hi: nat, a: nat)
    requires lo <= a < hi <= |s| && s[a] == b && forall i :: a < i < hi ==> s[i] != b
    ensures LastIndex(s, b, lo, hi) == Some(a)
  {
  }

  /** A cut before a byte above ASCII crosses no entity. */
  lemma CutBeforeHighByte(s: Bytes, start: nat, k: nat)
    requires k < |s| && s[k] >= 0x80
    ensures CleanCut(s, start, k)
  {
    forall a | start <= a < k && EntityAt(s, a).Some?
      ensures a + EntityAt(s, a).value.0 <= k
    {
      if k < a + EntityAt(s, a).value.0 {
        EntityBytes(s, a, k);
      }
    }
  }

  /** The cut is never inside an entity nor past the start of the closing tag. */
  lemma ValueLimitOk(p: Bytes, s: Bytes, start: nat, t: Bytes, isString: bool, e: nat)
    requires start <= |p| && p <= s && TagShape(t) && FindFrom(p, t, start).None?
    requires start <= e && IsAt(s, t, e)
    ensures ValueLimit(p, start, t, isString) <= e
    ensures isString ==> CleanCut(s, start, ValueLimit(p, start, t, isString))
  {
    hide TagHold, EntityHold, SafeLen, CleanCut;
    TagHoldOk(p, s, start, t, e);
    if isString {
      var limit := TagHold(p, start, t);
      EntityHoldOk(p, s, start, limit);
      var k := ValueLimit(p, start, t, isString);
      if k < EntityHold(p, start, limit) {
        CutBeforeHighByte(s, start, k);
      }
    }
  }

  // Nothing is held back without need

  /** The text ends here, or in an unfinished `t`. */
  predicate TagBegins(s: Bytes, m: nat, t: Bytes) {
    m == |s| || (m < |s| < m + |t| && s[m..] == t[..|s| - m])
  }

  /** An entity begins at `k` and is not finished at `e`. */
  predicate EntityBegins(s: Bytes, k: nat, e: nat) {
    k <= e <= |s| && UnfinishedEntity(s[k..e])
  }

  /** A value waits for at most an unfinished character, an unfinished entity when it is
      a string, and an unfinished closing tag. */
  ghost predicate ValueHeld(s: Bytes, pos: nat, t: Bytes, isString: bool) {
    exists k: nat, e: nat ::
      CharHeld(s, pos, k) && (k == e || (isString && EntityBegins(s, k, e))) && TagBegins(s, e, t)
  }

  lemma ValueLimitHeld(s: Bytes, start: nat, t: Bytes, isString: bool)
    requires start <= |s|
    ensures ValueHeld(s, ValueLimit(s, start, t, isString), t, isString)
  {
    hide SafeLen, LastIndex, UnfinishedEntity;
    var e := TagHold(s, start, t);
    var k := if isString then EntityHold(s, start, e) else e;
    SafeLenHeld(s, start, k);
    assert CharHeld(s, ValueLimit(s, start, t, isString), k) && TagBegins(s, e, t) && (k == e || EntityBegins(s, k, e));
  }

  /** Without a `<` and a `&` among the bytes searched all whole characters of a value are
      sent. */
  lemma PlainValueIsSent(s: Bytes, start: nat, t: Bytes, isString: bool, b: nat, c: Bytes)
    requires start <= b <= |s| && Chars(s, start, b) && Begins(s[b..], c)
    requires forall i :: start <= i < |s| && |s| <= i + |t| ==> s[i] != LT
    requires isString ==> forall i :: start <= i < |s| && |s| <= i + 6 ==> s[i] != AMP
    ensures ValueLimit(s, start, t, isString) == b
  {
    hide SafeLen, LastIndex, UnfinishedEntity, Chars, Begins;
    assert s[b..|s|] == s[b..];
    SafeLenIsBoundary(s, start, b, |s|, c);
  }

  // Unescaping in two parts

  lemma EntityInSlice(s: Bytes, lo: nat, hi: nat, a: nat)
    requires lo <= hi <= |s| && EntityAt(s[lo..hi], a).Some?
    ensures EntityAt(s, lo + a) == EntityAt(s[lo..hi], a)
  {
    hide IsAt;
    EntityText(s[lo..hi], a);
    var t := EntityName(s[lo..hi], a);
    IsAtSlice(s, lo, hi, t, a);
    EntityFrom(s, lo + a, t);
    EntityFrom(s[lo..hi], a, t);
  }

  lemma IsAtSlice(s: Bytes, lo: nat, hi: nat, t: Bytes, a: nat)
    requires lo <= hi <= |s| && IsAt(s[lo..hi], t, a)
    ensures IsAt(s, t, lo + a)
  {
    var u := s[lo..hi];
    assert a + |t| <= |u|;
    hide IsAt;
    forall i: nat | i < |t|
      ensures lo + a + i < |s| && s[lo + a + i] == t[i]
    {
      ByteAt(s[lo..hi], t, a, i);
    }
    IsAtBytes(s, t, lo + a);
  }

  /** The entity at a place is determined by its spelling. */
  lemma EntityFrom(s: Bytes, a: nat, t: Bytes)
    requires IsAt(s, t, a) && (t == AMP_ENTITY || t == LT_ENTITY || t == GT_ENTITY || t == QUOT_ENTITY || t == APOS_ENTITY)
    ensures EntityAt(s, a) == Some((|t|, if t == AMP_ENTITY then AMP else if t == LT_ENTITY then LT
                                         else if t == GT_ENTITY then GT else if t == QUOT_ENTITY then QUOTE else APOS))
  {
    hide IsAt;
    ByteAt(s, t, a, 1);
    ByteAt(s, t, a, 2);
    if IsAt(s, AMP_ENTITY, a) {
      ByteAt(s, AMP_ENTITY, a, 1);
      ByteAt(s, AMP_ENTITY, a, 2);
    }
    if IsAt(s, LT_ENTITY, a) {
      ByteAt(s, LT_ENTITY, a, 1);
    }
    if IsAt(s, GT_ENTITY, a) {
      ByteAt(s, GT_ENTITY, a, 1);
    }
    if IsAt(s, QUOT_ENTITY, a) {
      ByteAt(s, QUOT_ENTITY, a, 1);
    }
  }

  lemma UnescapedStep(s: Bytes)
    requires s != []
    ensures var e := EntityAt(s, 0);
            Unescaped(s) == if e.Some? then [e.value.1] + Unescaped(s[e.value.0..]) else [s[0]] + Unescaped(s[1..])
  {
    hide EntityAt;
  }

  lemma {:induction false} UnescapedSplit(s: Bytes, k: nat)
    requires k <= |s| && CleanCut(s, 0, k)
    ensures Unescaped(s) == Unescaped(s[..k]) + Unescaped(s[k..])
    decreases k
  {
    hide EntityAt, CleanCut, Unescaped;
    if k == 0 {
      assert s[0..] == s && s[..0] == [];
      UnescapedNothing();
    } else {
      var e := EntityAt(s, 0);
      var n := if e.Some? then e.value.0 else 1;
      EntityInPrefix(s, k);
      Slices(s, k, n);
      UnescapedStep(s);
      UnescapedStep(s[..k]);
      CleanCutRest(s, k, n);
      UnescapedSplit(s[n..], k - n);
      JoinFirst(if e.Some? then e.value.1 else s[0], Unescaped(s[n..][..k - n]), Unescaped(s[k..]));
    }
  }

  lemma Slices(s: Bytes, k: nat, n: nat)
    requires 0 < n <= k <= |s|
    ensures s[..k][n..] == s[n..][..k - n] && s[n..][k - n..] == s[k..] && s[..k] != [] && s[..k][0] == s[0]
  {
  }

  lemma JoinFirst(b: Byte, s: Bytes, t: Bytes)
    ensures [b] + (s + t) == [b] + s + t
  {
  }

  lemma UnescapedNothing()
    ensures Unescaped([]) == []
  {
  }

  lemma EntityInPrefix(s: Bytes, k: nat)
    requires 0 < k <= |s| && CleanCut(s, 0, k)
    ensures EntityAt(s[..k], 0) == EntityAt(s, 0)
    ensures EntityAt(s, 0).Some? ==> EntityAt(s, 0).value.0 <= k
  {
    hide IsAt;
    if EntityAt(s[..k], 0).Some? {
      EntityInSlice(s, 0, k, 0);
    } else if EntityAt(s, 0).Some? {
      EntityText(s, 0);
      var t := EntityName(s, 0);
      PrefixIsAt(s, k, t);
      EntityFrom(s[..k], 0, t);
    }
  }

  lemma PrefixIsAt(s: Bytes, k: nat, t: Bytes)
    requires k <= |s| && IsAt(s, t, 0) && |t| <= k
    ensures IsAt(s[..k], t, 0)
  {
    assert s[..k][0..|t|] == s[0..|t|];
  }

  lemma CleanCutRest(s: Bytes, k: nat, n: nat)
    requires n <= k <= |s| && CleanCut(s, 0, k)
    ensures CleanCut(s[n..], 0, k - n)
  {
    forall a | 0 <= a < k - n && EntityAt(s[n..], a).Some?
      ensures a + EntityAt(s[n..], a).value.0 <= k - n
    {
      assert s[n..] == s[n..|s|];
      EntityInSlice(s, n, |s|, a);
    }
  }

  lemma CleanCutSlice(s: Bytes, lo: nat, hi: nat, k: nat)
    requires lo <= k <= hi <= |s| && CleanCut(s, lo, k)
    ensures CleanCut(s[lo..hi], 0, k - lo)
  {
    forall a | 0 <= a < k - lo && EntityAt(s[lo..hi], a).Some?
      ensures a + EntityAt(s[lo..hi], a).value.0 <= k - lo
    {
      EntityInSlice(s, lo, hi, a);
    }
  }
}
