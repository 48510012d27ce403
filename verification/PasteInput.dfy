/** Reading a bracketed paste: its terminator and its line ends. */
module PasteInput {
  import opened ByteStrings

  /** `ESC [ 2 0 1 ~`. */
  const PASTE_END: Bytes := [0x1b, 0x5b, 0x32, 0x30, 0x31, 0x7e]

  const CR: Byte := 13
  const LF: Byte := 10

  /** How many of the last bytes begin a terminator. */
  predicate EndsIn(s: Bytes, m: nat) {
    m < |PASTE_END| && m <= |s| && s[|s| - m..] == PASTE_END[..m]
  }

  /** What a paste consists of: the bytes before the first terminator, or, when the
      input ends without one, all but an unfinished terminator. */
  ghost predicate IsPaste(input: Bytes, text: Bytes, taken: nat) {
    var e := FindFrom(input, PASTE_END, 0);
    if e.Some? then text == input[..e.value] && taken == e.value + |PASTE_END|
    else
      && taken == |input| && |text| <= |input| && text == input[..|text|]
      && EndsIn(input, |input| - |text|)
      && forall m :: |input| - |text| < m ==> !EndsIn(input, m)
  }

  /** The bytes collected from `input[..n]` while `match` bytes may begin a terminator:
      no terminator is complete, and no longer beginning is possible. */
  ghost predicate Matching(input: Bytes, n: nat, m: nat) {
    && n <= |input| && m <= n && EndsIn(input[..n], m)
    && (forall k :: m < k ==> !EndsIn(input[..n], k))
    && (forall i :: 0 <= i ==> !IsAt(input[..n], PASTE_END, i))
  }

  lemma EndBytes(i: nat)
    requires 0 < i < |PASTE_END|
    ensures PASTE_END[i] != PASTE_END[0]
  {
  }

  lemma EndsInByte(s: Bytes, m: nat, i: nat)
    requires EndsIn(s, m) && i < m
    ensures s[|s| - m + i] == PASTE_END[i]
  {
    assert s[|s| - m..][i] == PASTE_END[..m][i];
  }

  lemma EndsInIs(s: Bytes, m: nat)
    requires m < |PASTE_END| && m <= |s| && forall i :: 0 <= i < m ==> s[|s| - m + i] == PASTE_END[i]
    ensures EndsIn(s, m)
  {
    assert s[|s| - m..] == PASTE_END[..m];
  }

  lemma ShorterBeginning(s: Bytes, m: nat, k: nat)
    requires 0 < k < m && EndsIn(s, m)
    ensures !EndsIn(s, k)
  {
    EndBytes(m - k);
    EndsInByte(s, m, m - k);
    assert s[|s| - k..][0] == s[|s| - k] && PASTE_END[..k][0] == PASTE_END[0];
  }

  /** Only one beginning at a time is possible: the terminator does not overlap itself. */
  lemma OneBeginning(s: Bytes, m: nat, k: nat)
    requires EndsIn(s, m) && EndsIn(s, k) && 0 < m
    ensures k == 0 || k == m
  {
    if 0 < k < m {
      ShorterBeginning(s, m, k);
    } else if k > m {
      ShorterBeginning(s, k, m);
    }
  }

  lemma BeginningWithout(s: Bytes, b: Byte, m: nat)
    requires EndsIn(s + [b], m) && m > 0
    ensures EndsIn(s, m - 1) && PASTE_END[m - 1] == b
  {
    var t := s + [b];
    EndsInByte(t, m, m - 1);
    forall i | 0 <= i < m - 1
      ensures s[|s| - (m - 1) + i] == PASTE_END[i]
    {
      EndsInByte(t, m, i);
    }
    EndsInIs(s, m - 1);
  }

  lemma BeginningWith(s: Bytes, b: Byte, m: nat)
    requires EndsIn(s, m) && m + 1 < |PASTE_END| && PASTE_END[m] == b
    ensures EndsIn(s + [b], m + 1)
  {
    var t := s + [b];
    forall i | 0 <= i < m + 1
      ensures t[|t| - (m + 1) + i] == PASTE_END[i]
    {
      if i < m {
        EndsInByte(s, m, i);
      }
    }
    EndsInIs(t, m + 1);
  }

  lemma AtInPrefix(s: Bytes, b: Byte, t: Bytes, i: nat)
    requires i + |t| <= |s|
    ensures IsAt(s + [b], t, i) <==> IsAt(s, t, i)
  {
    assert (s + [b])[i..i + |t|] == s[i..i + |t|];
  }

  /** A terminator that ends with the next byte. */
  lemma CompleteEnd(s: Bytes, b: Byte, i: nat)
    requires IsAt(s + [b], PASTE_END, i) && !IsAt(s, PASTE_END, i)
    ensures i + |PASTE_END| == |s| + 1 && EndsIn(s, |PASTE_END| - 1) && b == PASTE_END[|PASTE_END| - 1]
  {
    var t, n := s + [b], |PASTE_END|;
    if i + n <= |s| {
      AtInPrefix(s, b, PASTE_END, i);
      assert false;
    }
    forall k | 0 <= k < n - 1
      ensures s[|s| - (n - 1) + k] == PASTE_END[k]
    {
      ByteAt(t, PASTE_END, i, k);
    }
    EndsInIs(s, n - 1);
    ByteAt(t, PASTE_END, i, n - 1);
  }

  lemma StillNoEnd(s: Bytes, b: Byte, m: nat, i: nat)
    requires EndsIn(s, m) && (forall k :: m < k ==> !EndsIn(s, k))
    requires b != PASTE_END[m] || m + 1 < |PASTE_END|
    requires !IsAt(s, PASTE_END, i)
    ensures !IsAt(s + [b], PASTE_END, i)
  {
    if IsAt(s + [b], PASTE_END, i) {
      CompleteEnd(s, b, i);
    }
  }

  /** The matcher's next state; six when the terminator is complete. */
  function NextMatch(m: nat, b: Byte): (r: nat)
    requires m < |PASTE_END|
    ensures r <= m + 1
  {
    if b == PASTE_END[m] then m + 1 else if b == PASTE_END[0] then 1 else 0
  }

  lemma NoLonger(s: Bytes, b: Byte, m: nat, k: nat)
    requires EndsIn(s, m) && (forall j :: m < j ==> !EndsIn(s, j)) && NextMatch(m, b) < k
    ensures !EndsIn(s + [b], k)
  {
    if EndsIn(s + [b], k) {
      BeginningWithout(s, b, k);
      if 0 < k - 1 {
        OneBeginning(s, m, k - 1);
      }
    }
  }

  /** One byte more. */
  lemma MatchStep(input: Bytes, n: nat, m: nat)
    requires n < |input| && Matching(input, n, m)
    ensures NextMatch(m, input[n]) < |PASTE_END| ==> Matching(input, n + 1, NextMatch(m, input[n]))
  {
    var s, b := input[..n], input[n];
    var r := NextMatch(m, b);
    assert input[..n + 1] == s + [b];
    if r < |PASTE_END| {
      if r > 0 {
        BeginningWith(s, b, r - 1);
      }
      forall k | r < k
        ensures !EndsIn(s + [b], k)
      {
        NoLonger(s, b, m, k);
      }
      forall i: nat
        ensures !IsAt(s + [b], PASTE_END, i)
      {
        StillNoEnd(s, b, m, i);
      }
    }
  }

  /** The terminator is complete: it is the first. */
  lemma MatchDone(input: Bytes, n: nat)
    requires n < |input| && Matching(input, n, |PASTE_END| - 1) && input[n] == PASTE_END[|PASTE_END| - 1]
    ensures FindFrom(input, PASTE_END, 0) == Some(n + 1 - |PASTE_END|)
  {
    hide IsAt, EndsIn;
    var m := |PASTE_END| - 1;
    var s, e := input[..n], n - m;
    forall i: nat | i < |PASTE_END|
      ensures input[e + i] == PASTE_END[i]
    {
      if i < m {
        EndsInByte(s, m, i);
        assert s[e + i] == input[e + i];
      }
    }
    IsAtBytes(input, PASTE_END, e);
    forall k | 0 <= k < e
      ensures !IsAt(input, PASTE_END, k)
    {
      assert !IsAt(s, PASTE_END, k);
      NotInWhole(input, n, PASTE_END, k);
    }
    FoundAt(input, PASTE_END, 0, e);
  }

  lemma NotInWhole(input: Bytes, n: nat, t: Bytes, k: nat)
    requires n <= |input| && !IsAt(input[..n], t, k) && k + |t| <= n
    ensures !IsAt(input, t, k)
  {
    assert input[..n][k..k + |t|] == input[k..k + |t|];
  }

  lemma MatchBegins(input: Bytes)
    ensures Matching(input, 0, 0)
  {
    assert input[..0] == [];
  }

  /** The bytes held back while they may begin a terminator. */
  lemma PartIs(input: Bytes, n: nat, m: nat)
    requires Matching(input, n, m)
    ensures input[..n] == input[..n - m] + PASTE_END[..m]
  {
    assert input[..n][n - m..] == PASTE_END[..m];
    assert input[..n] == input[..n][..n - m] + input[..n][n - m..];
  }

  lemma FoundPaste(input: Bytes, e: nat)
    requires FindFrom(input, PASTE_END, 0) == Some(e)
    ensures e + |PASTE_END| <= |input| && IsPaste(input, input[..e], e + |PASTE_END|)
  {
    Within(input, PASTE_END, e);
  }

  lemma UnfinishedPaste(input: Bytes, m: nat)
    requires Matching(input, |input|, m)
    ensures m <= |input| && IsPaste(input, input[..|input| - m], |input|)
  {
    assert input[..|input|] == input;
  }

  // Line ends

  /** One newline for every CR, LF or CR LF. */
  function Normalized(s: Bytes): (r: Bytes)
    ensures |r| <= |s|
  {
    if s == [] then []
    else if s[0] != CR then [s[0]] + Normalized(s[1..])
    else if |s| > 1 && s[1] == LF then [LF] + Normalized(s[2..])
    else [LF] + Normalized(s[1..])
  }

  /** Normal text has no CR and does not change. */
  lemma {:induction false} NormalizedTwice(s: Bytes)
    ensures CR !in Normalized(s)
    ensures CR !in s ==> Normalized(s) == s
    decreases |s|
  {
    if s != [] {
      NormalizedTwice(s[1..]);
      if s[0] == CR && |s| > 1 && s[1] == LF {
        NormalizedTwice(s[2..]);
      }
      assert s == [s[0]] + s[1..];
    }
  }

  /** A line and how it ends. */
  datatype LineEnd = Lf | CrLf | Cr

  datatype Line = Line(text: Bytes, end: LineEnd)

  function EndText(e: LineEnd): Bytes {
    match e
    case Lf => [LF]
    case CrLf => [CR, LF]
    case Cr => [CR]
  }

  /** Lines with the ends they have, and then an unfinished line. */
  function Written(lines: seq<Line>, last: Bytes): Bytes {
    if lines == [] then last else lines[0].text + EndText(lines[0].end) + Written(lines[1..], last)
  }

  function WithLf(lines: seq<Line>): seq<Line> {
    seq(|lines|, i requires 0 <= i < |lines| => Line(lines[i].text, Lf))
  }

  /** No line holds a line end, and no CR is followed by a LF that ends an empty line. */
  ghost predicate LinesOk(lines: seq<Line>, last: Bytes) {
    && (forall i :: 0 <= i < |lines| ==> CR !in lines[i].text && LF !in lines[i].text)
    && CR !in last && LF !in last
    && forall i :: 0 <= i < |lines| - 1 && lines[i].end == Cr ==> lines[i + 1] != Line([], Lf)
  }

  lemma {:induction false} TextNormalized(t: Bytes, rest: Bytes)
    requires CR !in t
    ensures Normalized(t + rest) == t + Normalized(rest)
  {
    hide Normalized;
    if t == [] {
      assert t + rest == rest;
    } else {
      TextNormalized(t[1..], rest);
      assert t + rest == [t[0]] + (t[1..] + rest);
      ByteNormalized(t[0], t[1..] + rest);
      Assoc([t[0]], t[1..], Normalized(rest));
      assert t == [t[0]] + t[1..];
    }
  }

  lemma ByteNormalized(b: Byte, rest: Bytes)
    requires b != CR
    ensures Normalized([b] + rest) == [b] + Normalized(rest)
  {
    assert ([b] + rest)[1..] == rest;
  }

  lemma EndNormalized(e: LineEnd, rest: Bytes)
    requires e == Cr && rest != [] ==> rest[0] != LF
    ensures Normalized(EndText(e) + rest) == [LF] + Normalized(rest)
  {
    var s := EndText(e) + rest;
    assert s[|EndText(e)|..] == rest;
    if e == CrLf {
      assert s[0] == CR && s[1] == LF && s[2..] == rest;
    } else {
      assert s[1..] == rest;
    }
  }

  lemma FirstOfWritten(lines: seq<Line>, last: Bytes)
    requires LinesOk(lines, last) && Written(lines, last) != [] && (lines != [] ==> lines[0] != Line([], Lf))
    ensures Written(lines, last)[0] != LF
  {
    if lines != [] && lines[0].text != [] {
      assert Written(lines, last)[0] == lines[0].text[0];
    }
  }

  /** Normal text has the same lines, each ended by one newline. */
  lemma {:induction false} LinesNormalized(lines: seq<Line>, last: Bytes)
    requires LinesOk(lines, last)
    ensures Normalized(Written(lines, last)) == Written(WithLf(lines), last)
  {
    hide Normalized;
    if lines == [] {
      NormalizedTwice(last);
    } else {
      var l, rest := lines[0], Written(lines[1..], last);
      LinesOkRest(lines, last);
      LinesNormalized(lines[1..], last);
      if l.end == Cr && rest != [] {
        FirstOfWritten(lines[1..], last);
      }
      TextNormalized(l.text, EndText(l.end) + rest);
      EndNormalized(l.end, rest);
      Assoc(l.text, EndText(l.end), rest);
      assert WithLf(lines)[1..] == WithLf(lines[1..]);
      Assoc(l.text, [LF], Written(WithLf(lines[1..]), last));
    }
  }

  lemma LinesOkRest(lines: seq<Line>, last: Bytes)
    requires LinesOk(lines, last) && lines != []
    ensures LinesOk(lines[1..], last) && CR !in lines[0].text && LF !in lines[0].text
    ensures lines[0].end == Cr && |lines| > 1 ==> lines[1..][0] != Line([], Lf)
  {
    assert forall i :: 0 <= i < |lines| - 1 ==> lines[1..][i] == lines[i + 1];
  }

  /** How many bytes the next newline or other byte takes. */
  function Width(s: Bytes, r: nat): (n: nat)
    requires r < |s|
    ensures 1 <= n <= |s| - r
  {
    if s[r] == CR && r + 1 < |s| && s[r + 1] == LF then 2 else 1
  }

  lemma NormalStep(s: Bytes, r: nat)
    requires r < |s|
    ensures Normalized(s[r..]) == [if s[r] == CR then LF else s[r]] + Normalized(s[r + Width(s, r)..])
  {
    var rest := s[r..];
    assert rest[1..] == s[r + 1..];
    if Width(s, r) == 2 {
      assert rest[2..] == s[r + 2..];
    }
  }

  /** The pass over the first `len` bytes of a buffer, in place. */
  method NormalizeInPlace(buf: array<Byte>, len: nat) returns (w: nat)
    requires len <= buf.Length
    modifies buf
    ensures w <= len && buf[..w] == Normalized(old(buf[..len]))
  {
    hide Normalized;
    ghost var s, done: Bytes := buf[..len], [];
    var r := 0;
    w := 0;
    assert s[0..] == s;
    while r < len
      invariant w == |done| <= r <= len == |s| && buf[..w] == done
      invariant forall i :: r <= i < len ==> buf[i] == s[i]
      invariant done + Normalized(s[r..]) == Normalized(s)
    {
      NormalStep(s, r);
      var b, step := buf[r], if buf[r] == CR && r + 1 < len && buf[r + 1] == LF then 2 else 1;
      assert step == Width(s, r) && b == s[r];
      b := if b == CR then LF else b;
      buf[w] := b;
      done := done + [b];
      r, w := r + step, w + 1;
    }
    NothingLeft(s);
    assert s[len..] == [] && done + [] == done;
  }

  lemma NothingLeft(s: Bytes)
    ensures Normalized([]) == []
  {
  }
}
