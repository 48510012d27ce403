/** Bytes, byte strings and searching in them. */
module ByteStrings {
  type Byte = b: int | 0 <= b < 256
  type Bytes = seq<Byte>

  datatype Option<+T> = None | Some(value: T)

  /** The bytes of an ASCII text. */
  function Ascii(s: string): (r: Bytes)
    requires forall i :: 0 <= i < |s| ==> s[i] < 128 as char
    ensures |r| == |s|
  {
    seq(|s|, i requires 0 <= i < |s| => s[i] as int)
  }

  /** A number in decimal digits. */
  function Decimal(n: nat): Bytes {
    if n < 10 then [0x30 + n] else Decimal(n / 10) + [0x30 + n % 10]
  }

  /** `needle` stands at position `i`. */
  predicate IsAt(text: Bytes, needle: Bytes, i: int) {
    0 <= i && i + |needle| <= |text| && text[i..i + |needle|] == needle
  }

  /** The first occurrence at or after `from`, as `strstr` finds it. */
  function FindFrom(text: Bytes, needle: Bytes, from: nat): (r: Option<nat>)
    ensures r.Some? ==> from <= r.value && IsAt(text, needle, r.value)
    ensures r.Some? ==> forall k :: from <= k < r.value ==> !IsAt(text, needle, k)
    ensures r.None? ==> forall k :: from <= k ==> !IsAt(text, needle, k)
    decreases |text| - from
  {
    if from + |needle| > |text| then None
    else if IsAt(text, needle, from) then Some(from)
    else FindFrom(text, needle, from + 1)
  }

  /** What determines the result of a search. */
  lemma FoundAt(text: Bytes, needle: Bytes, from: nat, i: nat)
    requires from <= i && IsAt(text, needle, i) && forall k :: from <= k < i ==> !IsAt(text, needle, k)
    ensures FindFrom(text, needle, from) == Some(i)
  {
  }

  lemma Within(text: Bytes, needle: Bytes, i: nat)
    requires IsAt(text, needle, i)
    ensures i + |needle| <= |text|
  {
  }

  lemma IsAtBytes(s: Bytes, t: Bytes, a: nat)
    requires a + |t| <= |s| && forall i: nat :: i < |t| ==> s[a + i] == t[i]
    ensures IsAt(s, t, a)
  {
    assert s[a..a + |t|] == t;
  }

  lemma ByteAt(text: Bytes, needle: Bytes, i: nat, k: nat)
    requires IsAt(text, needle, i) && k < |needle|
    ensures i + k < |text| && text[i + k] == needle[k]
  {
    assert text[i..i + |needle|][k] == needle[k];
  }

  lemma IsAtSplit(text: Bytes, a: Bytes, b: Bytes, i: nat)
    requires IsAt(text, a + b, i)
    ensures IsAt(text, a, i) && IsAt(text, b, i + |a|)
  {
    var whole := text[i..i + |a + b|];
    assert text[i..i + |a|] == whole[..|a|] && text[i + |a|..i + |a| + |b|] == whole[|a|..];
  }

  // Searching in longer texts

  lemma IsAtExtends(p: Bytes, raw: Bytes, t: Bytes, i: nat)
    requires p <= raw && IsAt(p, t, i)
    ensures IsAt(raw, t, i)
  {
    assert raw[i..i + |t|] == p[i..i + |t|];
  }

  lemma IsAtShrinks(p: Bytes, raw: Bytes, t: Bytes, i: nat)
    requires p <= raw && IsAt(raw, t, i) && i + |t| <= |p|
    ensures IsAt(p, t, i)
  {
    assert raw[i..i + |t|] == p[i..i + |t|];
  }

  lemma FindExtends(p: Bytes, raw: Bytes, t: Bytes, from: nat)
    requires p <= raw && FindFrom(p, t, from).Some? && t != []
    ensures FindFrom(raw, t, from) == FindFrom(p, t, from)
  {
    var i := FindFrom(p, t, from).value;
    IsAtExtends(p, raw, t, i);
    forall k | from <= k < i
      ensures !IsAt(raw, t, k)
    {
      if IsAt(raw, t, k) {
        IsAtShrinks(p, raw, t, k);
      }
    }
    FoundAt(raw, t, from, i);
  }

  // Sequences and sets

  lemma Assoc<T>(a: seq<T>, b: seq<T>, c: seq<T>)
    ensures a + b + c == a + (b + c)
  {
  }

  function Without<T>(s: seq<T>, i: nat): seq<T>
    requires i < |s|
  {
    s[..i] + s[i + 1..]
  }

  lemma {:induction false} Bounded(s: set<nat>) returns (b: nat)
    ensures forall a :: a in s ==> a < b
  {
    if s == {} {
      b := 0;
    } else {
      var x :| x in s;
      var c := Bounded(s - {x});
      b := if x < c then c else x + 1;
      assert s == s - {x} + {x};
    }
  }
}
