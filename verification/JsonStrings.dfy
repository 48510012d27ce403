/** Where a JSON text is inside a string, said without a scan: after an odd number of
    quotes that no backslash escapes. */
module JsonStrings {
  import opened ByteStrings
  import opened Dsml
  import opened JsonMinify
  import opened JsonText
  import opened JsonValue

  /** How many backslashes stand right before `k`. */
  function Backslashes(w: Bytes, k: nat): nat
    requires k <= |w|
  {
    if k > 0 && w[k - 1] == BACKSLASH then 1 + Backslashes(w, k - 1) else 0
  }

  /** How many of the first `k` bytes are quotes that are not escaped. */
  function Quotes(w: Bytes, k: nat): nat
    requires k <= |w|
  {
    if k == 0 then 0
    else Quotes(w, k - 1) + if w[k - 1] == QUOTE && Backslashes(w, k - 1) % 2 == 0 then 1 else 0
  }

  /** Is the place after `k` bytes inside a string? */
  predicate InString(w: Bytes, k: nat)
    requires k <= |w|
  {
    Quotes(w, k) % 2 == 1
  }

  /** The next byte is escaped. */
  predicate Escaping(w: Bytes, k: nat)
    requires k <= |w|
  {
    InString(w, k) && Backslashes(w, k) % 2 == 1
  }

  /** Strings are closed, and backslashes stand only in them. */
  ghost predicate Strung(w: Bytes) {
    !InString(w, |w|) && forall i :: 0 <= i < |w| && w[i] == BACKSLASH ==> InString(w, i)
  }

  /** One more byte. */
  lemma OneMore(w: Bytes, k: nat)
    requires Strung(w) && k < |w|
    ensures InString(w, k) ==>
              InString(w, k + 1) == (Escaping(w, k) || w[k] != QUOTE) && Escaping(w, k + 1) == (!Escaping(w, k) && w[k] == BACKSLASH)
    ensures !InString(w, k) ==> InString(w, k + 1) == (w[k] == QUOTE) && !Escaping(w, k + 1)
  {
    if !InString(w, k) {
      OutsideNoBackslash(w, k);
    }
  }

  lemma InStringAt(w: Bytes, k: nat)
    requires Strung(w) && k < |w| && w[k] == BACKSLASH
    ensures InString(w, k)
  {
  }

  /** Outside strings no backslash precedes. */
  lemma OutsideNoBackslash(w: Bytes, k: nat)
    requires Strung(w) && k <= |w| && !InString(w, k)
    ensures Backslashes(w, k) == 0
  {
    hide Strung;
    if k > 0 && w[k - 1] == BACKSLASH {
      InStringAt(w, k - 1);
    }
  }

  // Strings as the server writes them

  /** Inside a string, whatever came before. */
  lemma OneStays(w: Bytes, k: nat)
    requires k < |w| && InString(w, k)
    ensures InString(w, k + 1) == (Escaping(w, k) || w[k] != QUOTE)
    ensures InString(w, k + 1) ==> Escaping(w, k + 1) == (!Escaping(w, k) && w[k] == BACKSLASH)
  {
  }

  ghost predicate AllInside(w: Bytes, p: nat, e: nat) {
    e <= |w| && forall k :: p <= k <= e ==> InString(w, k)
  }

  /** Bytes that are neither quotes nor backslashes do not leave the string. */
  lemma {:induction false} PlainStays(w: Bytes, p: nat, e: nat)
    requires p <= e <= |w| && InString(w, p) && !Escaping(w, p)
    requires forall k :: p <= k < e ==> w[k] != QUOTE && w[k] != BACKSLASH
    ensures AllInside(w, p, e) && !Escaping(w, e)
    decreases e - p
  {
    hide Quotes, Backslashes;
    if p < e {
      OneStays(w, p);
      PlainStays(w, p + 1, e);
    }
  }

  lemma EscapedBytes(b: Byte)
    ensures var e := EscapedByte(b);
            if |e| == 1 then e[0] != QUOTE && e[0] != BACKSLASH
            else e[0] == BACKSLASH && forall i :: 2 <= i < |e| ==> e[i] != QUOTE && e[i] != BACKSLASH
  {
  }

  /** Neither does the escape of a byte. */
  lemma ByteStays(w: Bytes, p: nat, b: Byte)
    requires IsAt(w, EscapedByte(b), p) && p <= |w| && InString(w, p) && !Escaping(w, p)
    ensures var e := p + |EscapedByte(b)|; AllInside(w, p, e) && !Escaping(w, e)
  {
    hide IsAt, EscapedByte, Quotes, Backslashes;
    EscapedBytes(b);
    var e := EscapedByte(b);
    Within(w, e, p);
    ByteAt(w, e, p, 0);
    OneStays(w, p);
    if |e| > 1 {
      ByteAt(w, e, p, 1);
      OneStays(w, p + 1);
      forall k | p + 2 <= k < p + |e|
        ensures w[k] != QUOTE && w[k] != BACKSLASH
      {
        ByteAt(w, e, p, k - p);
      }
      PlainStays(w, p + 2, p + |e|);
    }
  }

  /** An escaped text stays inside the string up to its end. */
  lemma {:induction false} EscapedStays(w: Bytes, p: nat, s: Bytes)
    requires IsAt(w, Escaped(s), p) && p <= |w| && InString(w, p) && !Escaping(w, p)
    ensures var e := p + |Escaped(s)|; AllInside(w, p, e) && !Escaping(w, e)
    decreases |s|
  {
    hide IsAt, EscapedByte, Quotes, Backslashes;
    if s != [] {
      var b, rest := EscapedByte(s[0]), Escaped(s[1..]);
      IsAtSplit(w, b, rest, p);
      ByteStays(w, p, s[0]);
      EscapedStays(w, p + |b|, s[1..]);
    }
  }

  /** The quoted text of `s`: everything between the two quotes is inside the string,
      and nothing else is. */
  lemma QuotedIsString(s: Bytes)
    ensures forall k :: 0 <= k <= |Quoted(s)| ==> (InString(Quoted(s), k) <==> 0 < k < |Quoted(s)|)
    ensures Strung(Quoted(s))
  {
    hide Escaped, IsAt, Quotes, Backslashes;
    var w, e := Quoted(s), 1 + |Escaped(s)|;
    FirstQuote(w);
    InnerText(s);
    EscapedStays(w, 1, s);
    OneStays(w, e);
  }

  lemma FirstQuote(w: Bytes)
    requires w != [] && w[0] == QUOTE
    ensures !InString(w, 0) && InString(w, 1) && !Escaping(w, 1)
  {
    assert Quotes(w, 0) == 0 && Quotes(w, 1) == 1 && Backslashes(w, 1) == 0;
  }

  lemma InnerText(s: Bytes)
    ensures IsAt(Quoted(s), Escaped(s), 1)
  {
    hide Escaped;
    assert Quoted(s)[1..1 + |Escaped(s)|] == Escaped(s);
  }

  // JSON values

  /** Outside strings, and not behind a backslash. */
  ghost predicate Calm(text: Bytes, k: nat) {
    k <= |text| && !InString(text, k) && Backslashes(text, k) == 0
  }

  /** From `i` to `e` backslashes stand only in strings, and the strings are closed. */
  ghost predicate Woven(text: Bytes, i: nat, e: nat) {
    i <= e && Calm(text, e) && forall k :: i <= k < e && text[k] == BACKSLASH ==> InString(text, k)
  }

  lemma WovenAppend(text: Bytes, i: nat, m: nat, e: nat)
    requires Woven(text, i, m) && Woven(text, m, e)
    ensures Woven(text, i, e)
  {
    hide InString, Calm;
  }

  lemma NothingWoven(text: Bytes, i: nat)
    requires Calm(text, i)
    ensures Woven(text, i, i)
  {
  }

  lemma {:induction false} PlainWoven(text: Bytes, i: nat, e: nat)
    requires Calm(text, i) && i <= e <= |text| && forall k :: i <= k < e ==> text[k] != QUOTE && text[k] != BACKSLASH
    ensures Woven(text, i, e)
    decreases e - i
  {
    if i < e {
      PlainWoven(text, i, e - 1);
    }
  }

  lemma ByteWoven(text: Bytes, i: nat)
    requires Calm(text, i) && i < |text| && text[i] != QUOTE && text[i] != BACKSLASH
    ensures Woven(text, i, i + 1)
  {
    PlainWoven(text, i, i + 1);
  }

  lemma {:induction false} SpaceWoven(text: Bytes, i: nat)
    requires Calm(text, i)
    ensures Woven(text, i, SkipSpace(text, i))
    decreases |text| - i
  {
    hide Calm, Woven;
    CalmInside(text, i);
    if i < |text| && IsSpace(text[i]) {
      ByteWoven(text, i);
      WovenCalm(text, i, i + 1);
      SpaceWoven(text, i + 1);
      WovenAppend(text, i, i + 1, SkipSpace(text, i));
    } else {
      NothingWoven(text, i);
    }
  }

  lemma CalmInside(text: Bytes, i: nat)
    requires Calm(text, i)
    ensures i <= |text|
  {
  }

  lemma WovenCalm(text: Bytes, i: nat, e: nat)
    requires Woven(text, i, e)
    ensures i <= e <= |text| && Calm(text, e)
  {
  }

  /** The rest of a string: inside up to its closing quote. */
  ghost predicate RestWoven(text: Bytes, i: nat, e: nat) {
    i < e && Calm(text, e) && forall k :: i <= k < e ==> InString(text, k)
  }

  /** The escapes of the rest of a string are passed one by one. */
  lemma {:induction false} DecodedWoven(text: Bytes, i: nat)
    requires i <= |text| && Decoded(text, i).Some? && InString(text, i) && !Escaping(text, i)
    ensures RestWoven(text, i, Decoded(text, i).value.1)
    decreases |text| - i
  {
    hide Quotes, Backslashes, CodePoint, SimpleEscape, Utf8;
    OneStays(text, i);
    if text[i] == QUOTE {
      QuoteCloses(text, i);
    } else {
      var n := if text[i] != BACKSLASH then i + 1 else if SimpleEscape(text[i + 1]).Some? then i + 2 else CodePoint(text, i).value.1;
      if text[i] == BACKSLASH {
        OneStays(text, i + 1);
        if SimpleEscape(text[i + 1]).None? {
          PointStays(text, i);
        }
      }
      DecodedWoven(text, n);
    }
  }

  lemma QuoteCloses(text: Bytes, i: nat)
    requires i < |text| && text[i] == QUOTE && InString(text, i) && !Escaping(text, i)
    ensures Calm(text, i + 1)
  {
  }

  lemma HexIsPlain(b: Byte)
    requires HexValue(b).Some?
    ensures b != QUOTE && b != BACKSLASH
  {
  }

  lemma UnitStays(text: Bytes, i: nat)
    requires i <= |text| && CodeUnit(text, i).Some? && InString(text, i) && !Escaping(text, i)
    ensures i + 6 <= |text| && AllInside(text, i, i + 6) && !Escaping(text, i + 6)
  {
    hide Quotes, Backslashes, HexValue;
    OneStays(text, i);
    OneStays(text, i + 1);
    HexIsPlain(text[i + 2]);
    HexIsPlain(text[i + 3]);
    HexIsPlain(text[i + 4]);
    HexIsPlain(text[i + 5]);
    PlainStays(text, i + 2, i + 6);
  }

  lemma PointStays(text: Bytes, i: nat)
    requires i <= |text| && CodePoint(text, i).Some? && InString(text, i) && !Escaping(text, i)
    ensures var n := CodePoint(text, i).value.1; AllInside(text, i, n) && !Escaping(text, n)
  {
    hide Quotes, Backslashes, CodeUnit;
    UnitStays(text, i);
    if CodePoint(text, i).value.1 != i + 6 {
      UnitStays(text, i + 6);
    }
  }

  /** A whole string. */
  lemma StringWoven(text: Bytes, i: nat)
    requires Calm(text, i) && StringAt(text, i).Some?
    ensures Woven(text, i, StringAt(text, i).value.1)
  {
    hide Quotes, Backslashes, Decoded, SkipSpace, Woven;
    CalmInside(text, i);
    SpaceWoven(text, i);
    var q := SkipSpace(text, i);
    WovenCalm(text, i, q);
    QuoteEnters(text, q);
    DecodedWoven(text, q + 1);
    RestIsWoven(text, q, StringAt(text, i).value.1);
    WovenAppend(text, i, q, StringAt(text, i).value.1);
  }

  lemma QuoteEnters(text: Bytes, q: nat)
    requires Calm(text, q) && q < |text| && text[q] == QUOTE
    ensures InString(text, q + 1) && !Escaping(text, q + 1)
  {
  }

  lemma RestIsWoven(text: Bytes, q: nat, e: nat)
    requires q < |text| && text[q] == QUOTE && RestWoven(text, q + 1, e)
    ensures Woven(text, q, e)
  {
    hide InString, Calm;
  }

  lemma ScalarWoven(text: Bytes, q: nat)
    requires Calm(text, q) && ScalarEnd(text, q).Some?
    ensures Woven(text, q, ScalarEnd(text, q).value)
  {
    hide ScalarEnd;
    ScalarBytes(text, q);
    PlainWoven(text, q, ScalarEnd(text, q).value);
  }

  /** A JSON value leads from outside strings to outside, and so do the rest of an
      object and of an array. */
  lemma {:induction false} ValueWoven(text: Bytes, i: nat, depth: nat)
    requires Calm(text, i) && ValueEnd(text, i, depth).Some?
    ensures Woven(text, i, ValueEnd(text, i, depth).value)
    decreases |text| - i, 1
  {
    hide Calm, Woven, StringAt, ScalarEnd, SkipSpace, MembersEnd, ElementsEnd, ValueEnd, IsSpace;
    CalmInside(text, i);
    var q, e := SkipSpace(text, i), ValueEnd(text, i, depth).value;
    ValueIs(text, i, q, depth);
    if text[q] == QUOTE {
      StringWoven(text, i);
      return;
    }
    SpaceWoven(text, i);
    WovenCalm(text, i, q);
    if text[q] == BRACE_OPEN || text[q] == BRACKET_OPEN {
      var close := if text[q] == BRACE_OPEN then BRACE_CLOSE else BRACKET_CLOSE;
      ByteWoven(text, q);
      WovenCalm(text, q, q + 1);
      SpaceWoven(text, q + 1);
      var a := SkipSpace(text, q + 1);
      WovenAppend(text, i, q, q + 1);
      WovenAppend(text, i, q + 1, a);
      WovenCalm(text, i, a);
      if Has(text, a, close) {
        ByteWoven(text, a);
      } else if text[q] == BRACE_OPEN {
        MembersWoven(text, a, depth);
      } else {
        ElementsWoven(text, a, depth);
      }
      WovenAppend(text, i, a, e);
    } else {
      ScalarWoven(text, q);
      WovenAppend(text, i, q, e);
    }
  }

  lemma {:induction false} MembersWoven(text: Bytes, i: nat, depth: nat)
    requires Calm(text, i) && MembersEnd(text, i, depth).Some?
    ensures Woven(text, i, MembersEnd(text, i, depth).value)
    decreases |text| - i, 2
  {
    hide Calm, Woven, StringAt, SkipSpace, ValueEnd, MembersEnd;
    CalmInside(text, i);
    var k := if StringAt(text, i).Some? then StringAt(text, i).value.1 else 0;
    var c := if StringAt(text, i).Some? then SkipSpace(text, k) else 0;
    MemberIs(text, i, k, c, depth);
    StringWoven(text, i);
    WovenCalm(text, i, k);
    SpaceWoven(text, k);
    WovenAppend(text, i, k, c);
    WovenCalm(text, i, c);
    ByteWoven(text, c);
    WovenAppend(text, i, c, c + 1);
    RestMore(text, i, c + 1, depth + 1);
    var e := SkipSpace(text, ValueEnd(text, c + 1, depth + 1).value);
    WovenCalm(text, i, e);
    ByteWoven(text, e);
    WovenAppend(text, i, e, e + 1);
    if text[e] == COMMA {
      WovenCalm(text, i, e + 1);
      MembersWoven(text, e + 1, depth);
      WovenAppend(text, i, e + 1, MembersEnd(text, i, depth).value);
    }
  }

  /** A value and the whitespace behind it. */
  lemma {:induction false} RestMore(text: Bytes, i: nat, v: nat, depth: nat)
    requires Woven(text, i, v) && i < v <= |text| && ValueEnd(text, v, depth).Some?
    ensures Woven(text, i, SkipSpace(text, ValueEnd(text, v, depth).value))
    decreases |text| - v, 2
  {
    hide Calm, Woven, SkipSpace, ValueEnd;
    WovenCalm(text, i, v);
    ValueWoven(text, v, depth);
    var e := ValueEnd(text, v, depth).value;
    WovenCalm(text, v, e);
    SpaceWoven(text, e);
    WovenAppend(text, i, v, e);
    WovenAppend(text, i, e, SkipSpace(text, e));
  }

  lemma {:induction false} ElementsWoven(text: Bytes, i: nat, depth: nat)
    requires Calm(text, i) && ElementsEnd(text, i, depth).Some?
    ensures Woven(text, i, ElementsEnd(text, i, depth).value)
    decreases |text| - i, 2
  {
    hide Calm, Woven, SkipSpace, ValueEnd;
    CalmInside(text, i);
    ValueWoven(text, i, depth + 1);
    var v := ValueEnd(text, i, depth + 1).value;
    WovenCalm(text, i, v);
    SpaceWoven(text, v);
    var e := SkipSpace(text, v);
    WovenAppend(text, i, v, e);
    WovenCalm(text, i, e);
    ByteWoven(text, e);
    WovenAppend(text, i, e, e + 1);
    if text[e] == COMMA {
      WovenCalm(text, i, e + 1);
      ElementsWoven(text, e + 1, depth);
      WovenAppend(text, i, e + 1, ElementsEnd(text, i, depth).value);
    }
  }

  /** A text that is one JSON value has its strings closed and backslashes only in
      them. */
  lemma ValueIsStrung(text: Bytes)
    requires ValueEnd(text, 0, 0) == Some(|text|)
    ensures Strung(text)
  {
    hide ValueEnd;
    ValueWoven(text, 0, 0);
  }
}
