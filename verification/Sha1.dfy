/** The incremental SHA-1 of the server: a block buffer in front of the
    compression function. */
module Sha1 {
  import opened Sha1Spec

  const WORD64 := 0x1_0000_0000_0000_0000

  lemma OrChIsCh(x: Word, y: Word, z: Word)
    ensures (x & y) | ((!x) & z) == Ch(x, y, z)
  {
  }

  lemma OrMajIsMaj(x: Word, y: Word, z: Word)
    ensures (x & y) | (x & z) | (y & z) == Maj(x, y, z)
  {
  }

  /** The round function and constant by the ranges of the round number. */
  function StepFunction(i: nat, b: Word, c: Word, d: Word): (r: (Word, Word))
    ensures r == (F(i, b, c, d), K(i))
  {
    hide Ch, Maj, Parity;
    OrChIsCh(b, c, d);
    OrMajIsMaj(b, c, d);
    if i < 20 then ((b & c) | ((!b) & d), 0x5a827999)
    else if i < 40 then (Parity(b, c, d), 0x6ed9eba1)
    else if i < 60 then ((b & c) | (b & d) | (c & d), 0x8f1bbcdc)
    else (Parity(b, c, d), 0xca62c1d6)
  }

  /** `h` covers all whole blocks of `fed`, and `rest` is what follows them. */
  ghost predicate Covers(h: Digest, rest: seq<Octet>, fed: seq<Octet>) {
    && |rest| == |fed| % 64
    && rest == fed[|fed| - |rest|..]
    && h == HashBlocks(fed[..|fed| - |rest|])
  }

  lemma CoversNothing()
    ensures Covers(INITIAL, [], [])
  {
  }

  lemma CoversMore(h: Digest, rest: seq<Octet>, fed: seq<Octet>, q: seq<Octet>)
    requires Covers(h, rest, fed) && |rest| + |q| < 64
    ensures Covers(h, rest + q, fed + q)
  {
    assert (fed + q)[|fed| - |rest|..] == fed[|fed| - |rest|..] + q;
    assert (fed + q)[..|fed| - |rest|] == fed[..|fed| - |rest|];
  }

  lemma CoversBlock(h: Digest, rest: seq<Octet>, fed: seq<Octet>, q: seq<Octet>)
    requires Covers(h, rest, fed) && |rest| + |q| == 64
    ensures Covers(Compress(h, rest + q), [], fed + q)
  {
    hide Compress;
    var whole, all := |fed| - |rest|, fed + q;
    assert all[whole..] == rest + q && all[..whole] == fed[..whole];
    assert all[..|all|] == all && all[|all|..] == [];
  }

  /** Two zero counts that both reach 56 used bytes are ordered. */
  lemma UsedAfterZeros(msg: seq<Octet>, z: nat)
    requires z <= ZeroCount(|msg|)
    ensures |msg + [0x80] + Zeros(z)| % 64 == 56 <==> z == ZeroCount(|msg|)
  {
    if (|msg| + 1 + z) % 64 == 56 {
      ZeroCountIsLeast(|msg|, z);
    }
  }

  class Context {
    var h: Digest
    var bytes: nat
    const block: array<Octet>
    var used: nat
    ghost var fed: seq<Octet>

    ghost predicate Buffered()
      reads this, block
    {
      block.Length == 64 && used < 64 && Covers(h, block[..used], fed)
    }

    /** The state reflects everything fed so far. */
    ghost predicate Valid()
      reads this, block
    {
      Buffered() && bytes == |fed| % WORD64
    }

    constructor ()
      ensures Valid() && fed == [] && fresh(block)
    {
      h, bytes, used, fed := INITIAL, 0, 0, [];
      block := new Octet[64](_ => 0);
      new;
      CoversNothing();
      hide Covers;
      assert block[..0] == [];
    }

    /** Expand a block into the 80 words of its schedule. */
    static method Expand(block: array<Octet>) returns (w: array<Word>)
      requires block.Length == 64
      ensures fresh(w) && w.Length == 80
      ensures forall j :: 0 <= j < 80 ==> w[j] == Schedule(block[..], j)
    {
      hide Mix, BigEndian, Rotl, Schedule;
      w := new Word[80](_ => 0);
      ghost var b := block[..];
      for i := 0 to 16
        invariant forall j :: 0 <= j < i ==> w[j] == Schedule(b, j)
      {
        ScheduleStart(b, i);
        w[i] := BigEndian(block[i * 4], block[i * 4 + 1], block[i * 4 + 2], block[i * 4 + 3]);
      }
      for i := 16 to 80
        invariant forall j :: 0 <= j < i ==> w[j] == Schedule(b, j)
      {
        ScheduleNext(b, i);
        w[i] := Mix(w[i - 3], w[i - 8], w[i - 14], w[i - 16]);
      }
    }

    /** Fold the full buffer into the hash value. */
    method Transform()
      requires block.Length == 64
      modifies this`h
      ensures h == Compress(old(h), block[..])
    {
      hide F, K, Mix, BigEndian, Rotl, Add, Round, StepFunction, Schedule;
      var w := Expand(block);
      var v := h;
      for i := 0 to 80
        invariant v == Rounds(h, block[..], i) && h == old(h)
      {
        var fk := StepFunction(i, v.b, v.c, v.d);
        v := Round(v, fk.0, fk.1, w[i]);
      }
      h := Add(h, v);
    }

    /** Copy into the free part of the buffer, and compress it when full. */
    method Absorb(q: seq<Octet>)
      requires Buffered() && |q| <= 64 - used
      modifies this`h, this`used, this`fed, block
      ensures Buffered() && fed == old(fed) + q
    {
      hide Compress, Covers;
      ghost var rest := block[..used];
      for i := 0 to |q|
        invariant used == old(used) && h == old(h) && fed == old(fed)
        invariant block[..used] == rest && block[used..used + i] == q[..i]
      {
        block[used + i] := q[i];
      }
      assert block[..used + |q|] == rest + q;
      used := used + |q|;
      if used == 64 {
        CoversBlock(h, rest, fed, q);
        assert block[..] == rest + q;
        Transform();
        used := 0;
        assert block[..0] == [];
      } else {
        CoversMore(h, rest, fed, q);
      }
      fed := fed + q;
    }

    /** Feed more bytes, a block at a time. */
    method Update(p: seq<Octet>)
      requires Valid()
      modifies this, block
      ensures Valid() && fed == old(fed) + p
    {
      hide Covers;
      bytes := (bytes + |p|) % WORD64;
      ghost var fed0 := fed;
      var off := 0;
      while off != |p|
        invariant off <= |p|
        invariant fed == fed0 + p[..off] && Buffered()
        invariant bytes == (|fed0| + |p|) % WORD64
        decreases |p| - off
      {
        var n := 64 - used;
        if n > |p| - off {
          n := |p| - off;
        }
        Absorb(p[off..off + n]);
        assert p[..off] + p[off..off + n] == p[..off + n];
        off := off + n;
      }
      assert p[..off] == p;
    }

    /** `used` is the length fed so far modulo 64. */
    lemma UsedIs()
      requires Buffered()
      ensures used == |fed| % 64
    {
    }

    lemma AtBlockEnd(msg: seq<Octet>)
      requires Buffered() && fed == Pad(msg)
      ensures h == HashBlocks(Pad(msg))
    {
      assert fed[..|fed|] == fed;
    }

    /** Pad, append the bit length and read out the digest. */
    method Final() returns (digest: seq<Octet>)
      requires Valid() && |fed| < 0x2000_0000_0000_0000
      modifies this, block
      ensures digest == Sha1(old(fed))
    {
      hide Covers, LengthField, ZeroCount, HashBlocks;
      ghost var msg := fed;
      var bits := (bytes * 8) % WORD64;
      assert bits == 8 * |msg|;
      Update([0x80]);
      ghost var z := 0;
      assert fed == msg + [0x80] + Zeros(0);
      UsedIs();
      UsedAfterZeros(msg, z);
      while used != 56
        invariant Valid() && z <= ZeroCount(|msg|)
        invariant fed == msg + [0x80] + Zeros(z)
        invariant used == 56 <==> z == ZeroCount(|msg|)
        decreases ZeroCount(|msg|) - z
      {
        Update([0]);
        assert Zeros(z + 1) == Zeros(z) + [0];
        z := z + 1;
        UsedIs();
        UsedAfterZeros(msg, z);
      }
      Update(LengthField(bits));
      assert fed == Pad(msg);
      AtBlockEnd(msg);
      digest := DigestBytes(h);
    }
  }

  /** Hashing in pieces is hashing the concatenation. */
  method HashPieces(pieces: seq<seq<Octet>>) returns (digest: seq<Octet>)
    requires |Concat(pieces)| < 0x2000_0000_0000_0000
    ensures digest == Sha1(Concat(pieces))
  {
    var c := new Context();
    for i := 0 to |pieces|
      invariant c.Valid() && fresh(c) && fresh(c.block) && c.fed == Concat(pieces[..i])
    {
      c.Update(pieces[i]);
      assert pieces[..i + 1][..i] == pieces[..i];
    }
    assert pieces[..|pieces|] == pieces;
    digest := c.Final();
  }

  ghost function Concat(pieces: seq<seq<Octet>>): seq<Octet> {
    if pieces == [] then [] else Concat(pieces[..|pieces| - 1]) + pieces[|pieces| - 1]
  }
}
