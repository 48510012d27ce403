/** SHA-1 as sections 4.1.1, 4.2.1, 5.1.1, 5.3.1 and 6.1 of FIPS 180-4 define it,
    on whole messages. */
module Sha1Spec {
  type Octet = bv8
  type Word = bv32

  datatype Digest = Digest(a: Word, b: Word, c: Word, d: Word, e: Word)

  function Rotl(x: Word, n: nat): Word
    requires 0 < n < 32
  {
    (x << n) | (x >> (32 - n))
  }

  function Ch(x: Word, y: Word, z: Word): Word {
    (x & y) ^ ((!x) & z)
  }

  function Parity(x: Word, y: Word, z: Word): Word {
    x ^ y ^ z
  }

  function Maj(x: Word, y: Word, z: Word): Word {
    (x & y) ^ (x & z) ^ (y & z)
  }

  function F(t: nat, x: Word, y: Word, z: Word): Word {
    if t < 20 then Ch(x, y, z) else if t < 40 then Parity(x, y, z) else if t < 60 then Maj(x, y, z) else Parity(x, y, z)
  }

  function K(t: nat): Word {
    if t < 20 then 0x5a827999 else if t < 40 then 0x6ed9eba1 else if t < 60 then 0x8f1bbcdc else 0xca62c1d6
  }

  function BigEndian(b0: Octet, b1: Octet, b2: Octet, b3: Octet): Word {
    ((b0 as Word) << 24) | ((b1 as Word) << 16) | ((b2 as Word) << 8) | (b3 as Word)
  }

  function Mix(x: Word, y: Word, z: Word, w: Word): Word {
    Rotl(x ^ y ^ z ^ w, 1)
  }

  /** The message schedule of a block. */
  function Schedule(block: seq<Octet>, t: nat): Word
    requires |block| == 64
  {
    if t < 16 then BigEndian(block[4 * t], block[4 * t + 1], block[4 * t + 2], block[4 * t + 3])
    else Mix(Schedule(block, t - 3), Schedule(block, t - 8), Schedule(block, t - 14), Schedule(block, t - 16))
  }

  lemma ScheduleStart(block: seq<Octet>, t: nat)
    requires |block| == 64 && t < 16
    ensures Schedule(block, t) == BigEndian(block[4 * t], block[4 * t + 1], block[4 * t + 2], block[4 * t + 3])
  {
    hide BigEndian;
  }

  lemma ScheduleNext(block: seq<Octet>, t: nat)
    requires |block| == 64 && t >= 16
    ensures Schedule(block, t)
         == Mix(Schedule(block, t - 3), Schedule(block, t - 8), Schedule(block, t - 14), Schedule(block, t - 16))
  {
    hide Mix;
  }

  function Round(v: Digest, f: Word, k: Word, w: Word): Digest {
    Digest(Rotl(v.a, 5) + f + v.e + k + w, v.a, Rotl(v.b, 30), v.c, v.d)
  }

  /** The working variables after `t` rounds. */
  function Rounds(h: Digest, block: seq<Octet>, t: nat): Digest
    requires |block| == 64
  {
    if t == 0 then h
    else
      var v := Rounds(h, block, t - 1);
      Round(v, F(t - 1, v.b, v.c, v.d), K(t - 1), Schedule(block, t - 1))
  }

  function Add(x: Digest, y: Digest): Digest {
    Digest(x.a + y.a, x.b + y.b, x.c + y.c, x.d + y.d, x.e + y.e)
  }

  function Compress(h: Digest, block: seq<Octet>): Digest
    requires |block| == 64
  {
    Add(h, Rounds(h, block, 80))
  }

  const INITIAL := Digest(0x67452301, 0xefcdab89, 0x98badcfe, 0x10325476, 0xc3d2e1f0)

  /** The hash value after all blocks of a message of whole blocks. */
  function HashBlocks(msg: seq<Octet>): Digest
    requires |msg| % 64 == 0
  {
    if msg == [] then INITIAL
    else Compress(HashBlocks(msg[..|msg| - 64]), msg[|msg| - 64..])
  }

  function Zeros(n: nat): seq<Octet> {
    seq(n, _ => 0)
  }

  /** The least number of zero bytes that brings the padded length, before the
      length field, to 56 modulo 64. */
  function ZeroCount(n: nat): (z: nat)
    ensures z < 64 && (n + 1 + z) % 64 == 56
  {
    (55 - n) % 64
  }

  lemma ZeroCountIsLeast(n: nat, y: nat)
    requires (n + 1 + y) % 64 == 56
    ensures ZeroCount(n) <= y
  {
  }

  function LengthByte(bits: nat, i: nat): Octet
    requires i < 8
  {
    ((bits / Pow256(7 - i)) % 256) as Octet
  }

  function Pow256(i: nat): (p: nat)
    ensures p > 0
  {
    if i == 0 then 1 else 256 * Pow256(i - 1)
  }

  function LengthField(bits: nat): (r: seq<Octet>)
    ensures |r| == 8
  {
    seq(8, i requires 0 <= i < 8 => LengthByte(bits, i))
  }

  function Padding(n: nat): seq<Octet> {
    [0x80] + Zeros(ZeroCount(n)) + LengthField(8 * n)
  }

  function Pad(msg: seq<Octet>): (r: seq<Octet>)
    ensures |r| % 64 == 0
  {
    msg + Padding(|msg|)
  }

  function WordByte(w: Word, i: nat): Octet
    requires i < 4
  {
    ((w >> (24 - 8 * i)) & 0xff) as Octet
  }

  function WordBytes(w: Word): seq<Octet> {
    [WordByte(w, 0), WordByte(w, 1), WordByte(w, 2), WordByte(w, 3)]
  }

  function DigestBytes(d: Digest): seq<Octet> {
    WordBytes(d.a) + WordBytes(d.b) + WordBytes(d.c) + WordBytes(d.d) + WordBytes(d.e)
  }

  /** The SHA-1 of a message. */
  function Sha1(msg: seq<Octet>): seq<Octet> {
    DigestBytes(HashBlocks(Pad(msg)))
  }
}
