/** Holding back an incomplete character at the end of a stream fragment. */
module Utf8 {
  import opened ByteStrings

  predicate Continuation(b: Byte) {
    0x80 <= b < 0xc0
  }

  function ExpectedLen(b: Byte): (n: nat)
    ensures 1 <= n <= 4
  {
    if b < 0x80 then 1
    else if 0xc2 <= b <= 0xdf then 2
    else if 0xe0 <= b <= 0xef then 3
    else if 0xf0 <= b <= 0xf4 then 4
    else 1
  }

  /** A character as section 4 of RFC 3629 defines it. */
  predicate IsChar(c: Bytes) {
    && c != [] && (c[0] < 0x80 || 0xc2 <= c[0] <= 0xf4) && |c| == ExpectedLen(c[0])
    && (forall i :: 0 < i < |c| ==> Continuation(c[i]))
    && (c[0] == 0xe0 ==> c[1] >= 0xa0) && (c[0] == 0xed ==> c[1] <= 0x9f)
    && (c[0] == 0xf0 ==> c[1] >= 0x90) && (c[0] == 0xf4 ==> c[1] <= 0x8f)
  }

  /** Whole characters from `i` to `k`. */
  ghost predicate Chars(s: Bytes, i: nat, k: nat)
    decreases k - i
  {
    i == k || exists n :: i < n <= k && n <= |s| && IsChar(s[i..n]) && Chars(s, n, k)
  }

  /** How many of the last bytes before `limit`, at most four, continue a character. */
  function Trailing(s: Bytes, start: nat, limit: nat, most: nat): (n: nat)
    requires start <= limit <= |s|
    ensures n <= most && n <= limit - start
    ensures forall i :: limit - n <= i < limit ==> Continuation(s[i])
    ensures n < most && n < limit - start ==> !Continuation(s[limit - n - 1])
  {
    if most == 0 || limit == start || !Continuation(s[limit - 1]) then 0
    else 1 + Trailing(s, start, limit - 1, most - 1)
  }

  /** The part of `s[start..limit]` that can be sent now. */
  function SafeLen(s: Bytes, start: nat, limit: nat, final: bool): (r: nat)
    requires start <= limit <= |s|
    ensures start <= r <= limit
    ensures r < limit ==> s[r] >= 0x80
  {
    if final || limit == start then limit
    else
      var n := Trailing(s, start, limit, 4);
      var p := limit - n;
      if n == 0 then (if ExpectedLen(s[limit - 1]) > 1 then limit - 1 else limit)
      else if p == start then start
      else if limit - (p - 1) < ExpectedLen(s[p - 1]) then p - 1 else limit
  }

  /** At most four bytes, none of them ASCII: what an unfinished character can be. */
  predicate CharHeld(s: Bytes, i: nat, k: nat) {
    i <= k <= |s| && k - i <= 4 && forall j :: i <= j < k ==> s[j] >= 0x80
  }

  /** No more than that is held back. */
  lemma SafeLenHeld(s: Bytes, start: nat, limit: nat)
    requires start <= limit <= |s|
    ensures CharHeld(s, SafeLen(s, start, limit, false), limit)
  {
    hide Trailing;
  }

  method ComputeSafeLen(s: Bytes, start: nat, limit: nat, final: bool) returns (r: nat)
    requires start <= limit <= |s|
    ensures r == SafeLen(s, start, limit, final)
  {
    if final || limit <= start {
      return limit;
    }
    var p, cont := limit, 0;
    while p > start && cont < 4 && Continuation(s[p - 1])
      invariant start <= p && 0 <= cont <= 4 && p + cont == limit
      invariant Trailing(s, start, limit, 4) == cont + Trailing(s, start, p, 4 - cont)
      decreases p
    {
      p, cont := p - 1, cont + 1;
    }
    if p == limit {
      return if ExpectedLen(s[limit - 1]) > 1 then limit - 1 else limit;
    }
    if p == start && Continuation(s[p]) {
      return start;
    }
    var lead := p - 1;
    r := if limit - lead < ExpectedLen(s[lead]) then lead else limit;
  }

  /** A proper, possibly empty, beginning of a character. */
  predicate Begins(t: Bytes, c: Bytes) {
    IsChar(c) && t < c
  }

  lemma {:induction false} LastChar(s: Bytes, i: nat, k: nat) returns (j: nat)
    requires Chars(s, i, k) && i < k <= |s|
    ensures i <= j < k && IsChar(s[j..k])
    decreases k - i
  {
    var n :| i < n <= k && n <= |s| && IsChar(s[i..n]) && Chars(s, n, k);
    if n == k {
      j := i;
    } else {
      j := LastChar(s, n, k);
    }
  }

  lemma TrailingIs(s: Bytes, start: nat, limit: nat, most: nat, n: nat)
    requires start <= limit <= |s| && n <= most && n <= limit - start
    requires forall i :: limit - n <= i < limit ==> Continuation(s[i])
    requires n < limit - start && !Continuation(s[limit - n - 1])
    ensures Trailing(s, start, limit, most) == n
  {
  }

  lemma CharBytes(s: Bytes, i: nat, k: nat)
    requires i < k <= |s| && IsChar(s[i..k])
    ensures k - i == ExpectedLen(s[i]) && !Continuation(s[i])
    ensures forall m :: i < m < k ==> Continuation(s[m])
  {
    assert s[i..k][0] == s[i];
    forall m | i < m < k
      ensures Continuation(s[m])
    {
      assert s[i..k][m - i] == s[m];
    }
  }

  /** The bytes of an unfinished character. */
  lemma UnfinishedBytes(s: Bytes, b: nat, limit: nat, c: Bytes)
    requires b < limit <= |s| && Begins(s[b..limit], c)
    ensures limit - b < ExpectedLen(s[b]) && !Continuation(s[b])
    ensures forall i :: b < i < limit ==> Continuation(s[i])
  {
    hide ExpectedLen;
    assert s[b..limit][0] == s[b] == c[0];
    forall i | b < i < limit
      ensures Continuation(s[i])
    {
      assert s[i] == s[b..limit][i - b] == c[i - b];
    }
  }

  /** The cut depends on the last byte that does not continue a character. */
  lemma CutAtLead(s: Bytes, start: nat, limit: nat, lead: nat)
    requires start <= lead < limit <= |s| && Trailing(s, start, limit, 4) == limit - lead - 1
    ensures SafeLen(s, start, limit, false) == if limit - lead < ExpectedLen(s[lead]) then lead else limit
  {
    hide Trailing, ExpectedLen;
  }

  lemma NothingToCut(s: Bytes, start: nat)
    requires start <= |s|
    ensures SafeLen(s, start, start, false) == start
  {
  }

  /** On valid text the cut is the last character boundary: everything is sent up to
      `b`, where an unfinished character, if any, begins. */
  lemma SafeLenIsBoundary(s: Bytes, start: nat, b: nat, limit: nat, c: Bytes)
    requires start <= b <= limit <= |s| && Chars(s, start, b) && Begins(s[b..limit], c)
    ensures SafeLen(s, start, limit, false) == b
  {
    hide Chars, Trailing, ExpectedLen, Continuation, SafeLen, Begins, IsChar;
    if b < limit {
      UnfinishedBytes(s, b, limit, c);
      TrailingIs(s, start, limit, 4, limit - b - 1);
      CutAtLead(s, start, limit, b);
    } else if start < b {
      var j := LastChar(s, start, b);
      CharBytes(s, j, b);
      TrailingIs(s, start, limit, 4, b - j - 1);
      CutAtLead(s, start, limit, j);
    } else {
      NothingToCut(s, start);
    }
  }
}
