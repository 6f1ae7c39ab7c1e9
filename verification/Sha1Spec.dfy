/** The Secure Hash Algorithm SHA-1 as sections 5 and 6.1 of FIPS 180-4 define it. */
module Sha1Spec {

  type Word = bv32
  type Byte = bv8

  // -------------------------------------------------- sections 3.2, 4.1.1 and 4.2.1

  function Rotl(x: Word, n: bv6): Word
    requires 0 < n < 32
  {
    (x << n) | (x >> (32 - n))
  }

  function Ch(x: Word, y: Word, z: Word): Word { (x & y) ^ (!x & z) }

  function Parity(x: Word, y: Word, z: Word): Word { x ^ y ^ z }

  function Maj(x: Word, y: Word, z: Word): Word { (x & y) ^ (x & z) ^ (y & z) }

  function F(t: nat, x: Word, y: Word, z: Word): Word {
    if t < 20 then Ch(x, y, z) else if t < 40 then Parity(x, y, z) else if t < 60 then Maj(x, y, z) else Parity(x, y, z)
  }

  function K(t: nat): Word {
    if t < 20 then 0x5a82_7999 else if t < 40 then 0x6ed9_eba1 else if t < 60 then 0x8f1b_bcdc else 0xca62_c1d6
  }

  // ---------------------------------------------------------------- section 6.1.2

  type Block = b: seq<Word> | |b| == 16 witness seq(16, i => 0)

  /** The message schedule, with one word for each of the eighty rounds. */
  function W(m: Block, t: nat): Word {
    if t < 16 then m[t] else Rotl(W(m, t - 3) ^ W(m, t - 8) ^ W(m, t - 14) ^ W(m, t - 16), 1)
  }

  datatype State = State(a: Word, b: Word, c: Word, d: Word, e: Word)

  const InitialHash := State(0x6745_2301, 0xefcd_ab89, 0x98ba_dcfe, 0x1032_5476, 0xc3d2_e1f0)

  /** T of step 3; addition is modulo 2^32. */
  function Temporary(rotated: Word, f: Word, e: Word, k: Word, w: Word): Word {
    rotated + f + e + k + w
  }

  /** Step 3: the five working variables are assigned at once. */
  function Round(s: State, t: nat, w: Word): State {
    State(Temporary(Rotl(s.a, 5), F(t, s.b, s.c, s.d), s.e, K(t), w), s.a, Rotl(s.b, 30), s.c, s.d)
  }

  function Rounds(h: State, m: Block, t: nat): State {
    if t == 0 then h else Round(Rounds(h, m, t - 1), t - 1, W(m, t - 1))
  }

  function Plus(x: Word, y: Word): Word { x + y }

  function Add(h: State, s: State): State {
    State(Plus(h.a, s.a), Plus(h.b, s.b), Plus(h.c, s.c), Plus(h.d, s.d), Plus(h.e, s.e))
  }

  function Compress(h: State, m: Block): State {
    Add(h, Rounds(h, m, 80))
  }

  // --------------------------------------------------- sections 5.1.1, 5.2.1 and 6.1.2

  function WordOf(b0: Byte, b1: Byte, b2: Byte, b3: Byte): Word {
    (b0 as Word << 24) | (b1 as Word << 16) | (b2 as Word << 8) | b3 as Word
  }

  function BytesOf(w: Word): (bs: seq<Byte>)
    ensures |bs| == 4
  {
    [(w >> 24) as Byte, ((w >> 16) & 0xff) as Byte, ((w >> 8) & 0xff) as Byte, (w & 0xff) as Byte]
  }

  function BlockOf(bytes: seq<Byte>): Block
    requires |bytes| == 64
  {
    seq(16, i requires 0 <= i < 16 => WordOf(bytes[4 * i], bytes[4 * i + 1], bytes[4 * i + 2], bytes[4 * i + 3]))
  }

  function Zeros(n: nat): (z: seq<Byte>)
    ensures |z| == n && forall i :: 0 <= i < n ==> z[i] == 0
  {
    seq(n, i => 0)
  }

  /** Zero bytes that bring message, marker byte and eight length bytes to a multiple of the block size. */
  function ZeroCount(n: nat): (k: nat)
    ensures k < 64 && (n + 1 + k + 8) % 64 == 0
  {
    (119 - n % 64) % 64
  }

  /** The length in bits. The standard knows messages of fewer than 2^64 bits; longer ones wrap around. */
  function BitLength(n: nat): (bits: nat)
    ensures bits < 0x1_0000_0000_0000_0000
  {
    8 * n % 0x1_0000_0000_0000_0000
  }

  function High32(bits: nat): Word
    requires bits < 0x1_0000_0000_0000_0000
  {
    (bits / 0x1_0000_0000) as Word
  }

  function Low32(bits: nat): Word {
    (bits % 0x1_0000_0000) as Word
  }

  function LengthBytes(bits: nat): (bs: seq<Byte>)
    requires bits < 0x1_0000_0000_0000_0000
    ensures |bs| == 8
  {
    BytesOf(High32(bits)) + BytesOf(Low32(bits))
  }

  function Padded(m: seq<Byte>): (p: seq<Byte>)
    ensures |p| % 64 == 0
  {
    m + [0x80] + Zeros(ZeroCount(|m|)) + LengthBytes(BitLength(|m|))
  }

  /** The hash value after every block of `bytes`. */
  function HashBlocks(bytes: seq<Byte>): State
    requires |bytes| % 64 == 0
  {
    if bytes == [] then InitialHash
    else Compress(HashBlocks(bytes[..|bytes| - 64]), BlockOf(bytes[|bytes| - 64..]))
  }

  function WordBytes(words: seq<Word>): seq<Byte> {
    if words == [] then [] else WordBytes(words[..|words| - 1]) + BytesOf(words[|words| - 1])
  }

  function DigestBytes(h: State): seq<Byte> {
    WordBytes([h.a, h.b, h.c, h.d, h.e])
  }

  function Sha1(m: seq<Byte>): seq<Byte> {
    DigestBytes(HashBlocks(Padded(m)))
  }
}
