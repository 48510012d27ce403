/** Moving by one visible character: a code point with what extends it. */
module TextSteps {
  import opened ByteStrings
  import opened Utf8

  /** A byte of the buffer, or the terminator behind it. */
  function At(s: Bytes, i: nat): nat {
    if i < |s| then s[i] else 0
  }

  /** The length that a first byte announces. */
  function LeadLen(b: nat): (n: nat)
    ensures 1 <= n <= 4
  {
    if 0xc0 <= b < 0xe0 then 2 else if 0xe0 <= b < 0xf0 then 3 else if 0xf0 <= b < 0xf8 then 4 else 1
  }

  /** The code point at `i`, whether or not its bytes are well formed. */
  function CodePoint(s: Bytes, i: nat): nat {
    var b := At(s, i);
    match LeadLen(b)
    case 2 => b % 32 * 64 + At(s, i + 1) % 64
    case 3 => b % 16 * 4096 + At(s, i + 1) % 64 * 64 + At(s, i + 2) % 64
    case 4 => b % 8 * 262144 + At(s, i + 1) % 64 * 4096 + At(s, i + 2) % 64 * 64 + At(s, i + 3) % 64
    case _ => b
  }

  predicate Joiner(cp: nat) {
    cp == 0x200d
  }

  predicate Flag(cp: nat) {
    0x1f1e6 <= cp <= 0x1f1ff
  }

  /** Variation selectors, skin tones, the joiner and combining marks. */
  predicate Extends(cp: nat) {
    || cp == 0xfe0e || cp == 0xfe0f || 0x1f3fb <= cp <= 0x1f3ff || Joiner(cp)
    || 0x0300 <= cp <= 0x036f || 0x1ab0 <= cp <= 0x1aff || 0x1dc0 <= cp <= 0x1dff
    || 0x20d0 <= cp <= 0x20ff || 0xfe20 <= cp <= 0xfe2f
  }

  // Forward

  /** How many bytes from `i` on belong to the character before. */
  function Extension(s: Bytes, i: nat, flag: bool): nat
    decreases |s| - i
  {
    if i >= |s| then 0
    else
      var cp, n := CodePoint(s, i), LeadLen(s[i]);
      if Joiner(cp) && i + n < |s| then
        var m := LeadLen(s[i + n]);
        n + m + Extension(s, i + n + m, flag)
      else if Extends(cp) then n + Extension(s, i + n, flag)
      else if flag && Flag(cp) then n + Extension(s, i + n, false)
      else 0
  }

  /** The length of the character at `pos`. */
  function NextCharLen(s: Bytes, pos: nat): nat {
    if pos >= |s| then 0
    else
      var n := LeadLen(s[pos]);
      n + Extension(s, pos + n, Flag(CodePoint(s, pos)))
  }

  method ComputeNextCharLen(s: Bytes, pos: nat) returns (total: nat)
    ensures total == NextCharLen(s, pos)
  {
    hide CodePoint, LeadLen;
    if pos >= |s| {
      return 0;
    }
    total := LeadLen(s[pos]);
    var cur, flag := pos + total, Flag(CodePoint(s, pos));
    while cur < |s|
      invariant cur == pos + total && NextCharLen(s, pos) == total + Extension(s, cur, flag)
      decreases |s| - cur
    {
      var cp, n := CodePoint(s, cur), LeadLen(s[cur]);
      if Joiner(cp) && cur + n < |s| {
        n := n + LeadLen(s[cur + n]);
      } else if Extends(cp) {
      } else if flag && Flag(cp) {
        flag := false;
      } else {
        break;
      }
      total, cur := total + n, cur + n;
    }
  }

  // Backward

  /** Back over at most `most` continuation bytes, not past the first byte. */
  function BackFrom(s: Bytes, i: nat, most: nat): (r: nat)
    requires i < |s|
    ensures r <= i
  {
    if i > 0 && most > 0 && Continuation(s[i]) then BackFrom(s, i - 1, most - 1) else i
  }

  /** Where the code point that ends at `pos` starts. */
  function PrevStart(s: Bytes, pos: nat): (r: nat)
    requires 0 < pos <= |s|
    ensures r < pos
  {
    BackFrom(s, pos - 1, 3)
  }

  /** How many bytes before `i` belong to the character whose earliest code point so
      far is `cp`. */
  function Beginning(s: Bytes, i: nat, cp: nat): (r: nat)
    requires i <= |s|
    ensures r <= i
    decreases i
  {
    if i == 0 then 0
    else
      var j := PrevStart(s, i);
      var prev := CodePoint(s, j);
      if Joiner(prev) then
        if j == 0 then i
        else
          var k := PrevStart(s, j);
          i - k + Beginning(s, k, CodePoint(s, k))
      else if Extends(cp) then i - j + Beginning(s, j, prev)
      else if Flag(cp) && Flag(prev) then i - j
      else 0
  }

  /** The length of the character before `pos`. */
  function PrevCharLen(s: Bytes, pos: nat): (r: nat)
    requires pos <= |s|
    ensures r <= pos && (pos > 0 ==> r > 0)
  {
    if pos == 0 then 0
    else
      var j := PrevStart(s, pos);
      pos - j + Beginning(s, j, CodePoint(s, j))
  }

  method ComputePrevStart(s: Bytes, pos: nat) returns (i: nat)
    requires 0 < pos <= |s|
    ensures i == PrevStart(s, pos)
  {
    i := pos - 1;
    while i > 0 && pos - i < 4 && Continuation(s[i])
      invariant i < pos <= i + 4 && PrevStart(s, pos) == BackFrom(s, i, 4 - (pos - i))
    {
      i := i - 1;
    }
  }

  method ComputePrevCharLen(s: Bytes, pos: nat) returns (total: nat)
    requires pos <= |s|
    ensures total == PrevCharLen(s, pos)
  {
    hide CodePoint, PrevStart, BackFrom;
    if pos == 0 {
      return 0;
    }
    var cur: nat := ComputePrevStart(s, pos);
    var cp: nat := CodePoint(s, cur);
    while cur > 0
      invariant cur <= pos && PrevCharLen(s, pos) == pos - cur + Beginning(s, cur, cp)
      decreases cur
    {
      var j := ComputePrevStart(s, cur);
      var prev := CodePoint(s, j);
      if Joiner(prev) {
        cur := j;
        if cur == 0 {
          break;
        }
        cur := ComputePrevStart(s, cur);
        cp := CodePoint(s, cur);
      } else if Extends(cp) {
        cur, cp := j, prev;
      } else {
        if Flag(cp) && Flag(prev) {
          cur := j;
        }
        break;
      }
    }
    total := pos - cur;
  }

  // Steps in valid text

  lemma CharIsLead(s: Bytes, i: nat, n: nat)
    requires i < n <= |s| && IsChar(s[i..n])
    ensures n == i + LeadLen(s[i])
  {
    assert s[i..n][0] == s[i];
  }

  lemma FirstChar(s: Bytes, i: nat)
    requires i < |s| && Chars(s, i, |s|)
    ensures i + LeadLen(s[i]) <= |s| && Chars(s, i + LeadLen(s[i]), |s|) && IsChar(s[i..i + LeadLen(s[i])])
  {
    var n :| i < n <= |s| && IsChar(s[i..n]) && Chars(s, n, |s|);
    CharIsLead(s, i, n);
  }

  lemma {:induction false} ExtensionStays(s: Bytes, i: nat, flag: bool)
    requires i <= |s| && Chars(s, i, |s|)
    ensures i + Extension(s, i, flag) <= |s| && Chars(s, i + Extension(s, i, flag), |s|)
    decreases |s| - i
  {
    hide Chars, CodePoint, LeadLen;
    if i < |s| {
      FirstChar(s, i);
      var cp, n := CodePoint(s, i), LeadLen(s[i]);
      if Joiner(cp) && i + n < |s| {
        FirstChar(s, i + n);
        ExtensionStays(s, i + n + LeadLen(s[i + n]), flag);
      } else if Extends(cp) {
        ExtensionStays(s, i + n, flag);
      } else if flag && Flag(cp) {
        ExtensionStays(s, i + n, false);
      }
    }
  }

  /** From a character boundary of valid text a step leads to another one. */
  lemma StepStaysInText(s: Bytes, pos: nat)
    requires pos < |s| && Chars(s, pos, |s|)
    ensures pos < pos + NextCharLen(s, pos) <= |s| && Chars(s, pos + NextCharLen(s, pos), |s|)
  {
    hide Chars, CodePoint, LeadLen;
    FirstChar(s, pos);
    ExtensionStays(s, pos + LeadLen(s[pos]), Flag(CodePoint(s, pos)));
  }

  // Steps in ASCII text

  /** An ASCII character that no other follows directly is one byte long. */
  lemma AsciiNext(s: Bytes, i: nat)
    requires i < |s| && s[i] < 0x80 && (i + 1 < |s| ==> s[i + 1] < 0x80)
    ensures NextCharLen(s, i) == 1
  {
  }

  lemma AsciiPrev(s: Bytes, i: nat)
    requires 0 < i <= |s| && s[i - 1] < 0x80 && (i > 1 ==> s[i - 2] < 0x80)
    ensures PrevCharLen(s, i) == 1
  {
    assert PrevStart(s, i) == i - 1;
    if i > 1 {
      assert PrevStart(s, i - 1) == i - 2;
    }
  }

  // A step takes what extends its character

  lemma {:induction false} ExtensionEnds(s: Bytes, i: nat, flag: bool)
    requires i <= |s|
    ensures var q := i + Extension(s, i, flag); q < |s| ==> !Extends(CodePoint(s, q))
    decreases |s| - i
  {
    hide CodePoint, LeadLen;
    if i < |s| {
      var cp, n := CodePoint(s, i), LeadLen(s[i]);
      if Joiner(cp) && i + n < |s| {
        var k := i + n + LeadLen(s[i + n]);
        if k <= |s| {
          ExtensionEnds(s, k, flag);
        }
      } else if Extends(cp) {
        if i + n <= |s| {
          ExtensionEnds(s, i + n, flag);
        }
      } else if flag && Flag(cp) {
        if i + n <= |s| {
          ExtensionEnds(s, i + n, false);
        }
      }
    }
  }

  /** Behind a step no mark is left that extends the character, and only then does a
      character have more bytes than its first byte announces. */
  lemma StepTakesMarks(s: Bytes, pos: nat)
    requires pos < |s|
    ensures var q := pos + NextCharLen(s, pos); q < |s| ==> !Extends(CodePoint(s, q))
    ensures var n := LeadLen(s[pos]);
            && NextCharLen(s, pos) >= n
            && (pos + n < |s| && !Extends(CodePoint(s, pos + n)) && !Flag(CodePoint(s, pos + n)) ==> NextCharLen(s, pos) == n)
  {
    hide CodePoint, LeadLen;
    var n := LeadLen(s[pos]);
    if pos + n <= |s| {
      ExtensionEnds(s, pos + n, Flag(CodePoint(s, pos)));
    }
  }

  // A step back undoes a step

  lemma PrevStartIs(s: Bytes, j: nat, k: nat)
    requires j < k <= |s| && IsChar(s[j..k])
    ensures PrevStart(s, k) == j
  {
    CharBytes(s, j, k);
    BackToLead(s, j, k - 1, 3);
  }

  lemma {:induction false} BackToLead(s: Bytes, j: nat, i: nat, most: nat)
    requires j <= i < |s| && i - j <= most && !Continuation(s[j]) && forall m :: j < m <= i ==> Continuation(s[m])
    ensures BackFrom(s, i, most) == j
  {
    hide Continuation;
    if j < i {
      BackToLead(s, j, i - 1, most - 1);
    }
  }

  /** From the code point at `j` the way back leads to `pos`. */
  ghost predicate LeadsBack(s: Bytes, pos: nat, j: nat) {
    pos <= j < |s| && Beginning(s, j, CodePoint(s, j)) == j - pos
  }

  /** The last code point before `i`, and the one before that, lead back to `pos`. */
  ghost predicate BackFromHere(s: Bytes, pos: nat, i: nat) {
    pos < i <= |s|
    && LeadsBack(s, pos, PrevStart(s, i))
    && (PrevStart(s, i) > pos ==> LeadsBack(s, pos, PrevStart(s, PrevStart(s, i))))
  }

  /** One more mark leads back, too. */
  lemma MarkLeadsBack(s: Bytes, pos: nat, i: nat)
    requires BackFromHere(s, pos, i) && i < |s| && Extends(CodePoint(s, i)) && !Joiner(CodePoint(s, pos))
    ensures LeadsBack(s, pos, i)
  {
    hide CodePoint, PrevStart;
  }

  /** And so does what a joiner joins. */
  lemma JoinedLeadsBack(s: Bytes, pos: nat, i: nat, k: nat)
    requires BackFromHere(s, pos, i) && i < k < |s| && Joiner(CodePoint(s, i)) && PrevStart(s, k) == i
    ensures LeadsBack(s, pos, k)
  {
    hide CodePoint, PrevStart;
  }

  lemma {:induction false} ExtensionLeadsBack(s: Bytes, pos: nat, i: nat)
    requires i <= |s| && Chars(s, i, |s|) && BackFromHere(s, pos, i) && !Joiner(CodePoint(s, pos))
    ensures i + Extension(s, i, false) <= |s| && BackFromHere(s, pos, i + Extension(s, i, false))
    decreases |s| - i
  {
    hide Chars, CodePoint, LeadLen, PrevStart, Beginning, IsChar, BackFromHere, Extends;
    JoinersExtend();
    if i < |s| {
      FirstChar(s, i);
      var cp, n := CodePoint(s, i), LeadLen(s[i]);
      PrevStartIs(s, i, i + n);
      if Joiner(cp) && i + n < |s| {
        FirstChar(s, i + n);
        var k := i + n + LeadLen(s[i + n]);
        PrevStartIs(s, i + n, k);
        MarkLeadsBack(s, pos, i);
        JoinedLeadsBack(s, pos, i, i + n);
        BackFromBoth(s, pos, i + n, k);
        ExtensionLeadsBack(s, pos, k);
      } else if Extends(cp) {
        MarkLeadsBack(s, pos, i);
        BeforeLeadsBack(s, pos, i);
        BackFromBoth(s, pos, i, i + n);
        ExtensionLeadsBack(s, pos, i + n);
      }
    }
  }

  lemma JoinersExtend()
    ensures forall cp :: Joiner(cp) ==> Extends(cp)
  {
  }

  lemma BeforeLeadsBack(s: Bytes, pos: nat, i: nat)
    requires BackFromHere(s, pos, i)
    ensures pos < i <= |s| && LeadsBack(s, pos, PrevStart(s, i))
  {
    hide PrevStart, LeadsBack;
  }

  lemma BackFromBoth(s: Bytes, pos: nat, j: nat, k: nat)
    requires pos < j < k <= |s| && PrevStart(s, k) == j && LeadsBack(s, pos, j) && LeadsBack(s, pos, PrevStart(s, j))
    ensures BackFromHere(s, pos, k)
  {
    hide PrevStart, LeadsBack;
  }

  /** In valid text a step back undoes a step, when the character is no flag, is not itself
      a mark, and does not stand behind a joiner. */
  lemma BackAgain(s: Bytes, pos: nat)
    requires pos < |s| && Chars(s, pos, |s|)
    requires !Extends(CodePoint(s, pos)) && !Flag(CodePoint(s, pos))
    requires pos > 0 ==> !Joiner(CodePoint(s, PrevStart(s, pos)))
    ensures var q := pos + NextCharLen(s, pos); q <= |s| && PrevCharLen(s, q) == NextCharLen(s, pos)
  {
    hide Chars, CodePoint, LeadLen, PrevStart, IsChar, Extension;
    FirstChar(s, pos);
    var n := LeadLen(s[pos]);
    PrevStartIs(s, pos, pos + n);
    assert LeadsBack(s, pos, pos);
    assert BackFromHere(s, pos, pos + n);
    ExtensionLeadsBack(s, pos, pos + n);
  }
}
