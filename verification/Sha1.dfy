/** The streaming hash object: partial-block buffer, in-place circular schedule, in-place padding. */
module Sha1 {
  import Common
  import opened Sha1Spec

  // -------------------------------------------------------------- one block

  /** The `rol` macro. */
  function Rol(value: Word, bits: bv6): Word
    requires 0 < bits < 32
  {
    (value << bits) | ((value & 0xffff_ffff) >> (32 - bits))
  }

  lemma RolIsRotl(value: Word, bits: bv6)
    requires 0 < bits < 32
    ensures Rol(value, bits) == Rotl(value, bits)
  {
    assert value & 0xffff_ffff == value;
  }

  lemma ChooseRewritten(x: Word, y: Word, z: Word)
    ensures (x & (y ^ z)) ^ z == Ch(x, y, z)
  {
  }

  lemma MajorityRewritten(x: Word, y: Word, z: Word)
    ensures ((x | y) & z) | (x & y) == Maj(x, y, z)
  {
  }

  /** The right-hand side of `z += ...` in the macros. */
  function Updated(z: Word, mix: Word, word: Word, k: Word, rotated: Word): Word {
    z + (mix + word + k + rotated)
  }

  lemma UpdatedIsTemporary(z: Word, mix: Word, word: Word, k: Word, rotated: Word)
    ensures Updated(z, mix, word, k, rotated) == Temporary(rotated, mix, z, k, word)
  {
  }

  /** The sixteen slots hold the last sixteen words of the schedule: W(t - 16) to W(t - 1) once t >= 16. */
  ghost predicate Schedule(slots: seq<Word>, m: Block, t: nat) {
    && |slots| == 16
    && forall j :: (if t < 16 then 0 else t - 16) <= j < (if t < 16 then 16 else t) ==> slots[j % 16] == W(m, j)
  }

  /** The four slots that `blk` reads. */
  lemma SlotsRead(slots: seq<Word>, m: Block, i: nat)
    requires 16 <= i && Schedule(slots, m, i)
    ensures |slots| == 16
    ensures slots[(i + 13) % 16] == W(m, i - 3) && slots[(i + 8) % 16] == W(m, i - 8)
    ensures slots[(i + 2) % 16] == W(m, i - 14) && slots[i % 16] == W(m, i - 16)
  {
    hide W;
    SlotAgain(i - 3);
    SlotAgain(i - 8);
    SlotAgain(i - 14);
    SlotAgain(i - 16);
  }

  lemma SlotAgain(j: nat)
    ensures (j + 16) % 16 == j % 16
  {
    assert j + 16 == 16 * (j / 16 + 1) + j % 16;
  }

  /** The slot that `blk` overwrites holds the only word that no later round reads. */
  lemma SlotWritten(slots: seq<Word>, m: Block, i: nat)
    requires 16 <= i && Schedule(slots, m, i)
    ensures Schedule(slots[i % 16 := W(m, i)], m, i + 1)
  {
    hide W;
    forall j | i - 15 <= j < i ensures j % 16 != i % 16 {
      SlotsDiffer(j, i);
    }
  }

  lemma SlotsDiffer(j: nat, i: nat)
    requires i - 15 <= j < i
    ensures j % 16 != i % 16
  {
    var q, r := i / 16, j / 16;
    assert i == 16 * q + i % 16 && j == 16 * r + j % 16;
  }

  function RolXor(a: Word, b: Word, c: Word, d: Word): Word {
    Rol(a ^ b ^ c ^ d, 1)
  }

  lemma NextWord(m: Block, i: nat)
    requires 16 <= i
    ensures RolXor(W(m, i - 3), W(m, i - 8), W(m, i - 14), W(m, i - 16)) == W(m, i)
  {
    RolIsRotl(W(m, i - 3) ^ W(m, i - 8) ^ W(m, i - 14) ^ W(m, i - 16), 1);
  }

  /** The `blk` macro: the next word of the schedule, written over the oldest one. */
  method Blk(block: array<Word>, i: nat, ghost m: Block) returns (w: Word)
    requires 16 <= i && Schedule(block[..], m, i)
    modifies block
    ensures w == W(m, i) && Schedule(block[..], m, i + 1)
  {
    hide Schedule, W, RolXor;
    ghost var slots := block[..];
    SlotsRead(slots, m, i);
    NextWord(m, i);
    w := RolXor(block[(i + 13) % 16], block[(i + 8) % 16], block[(i + 2) % 16], block[i % 16]);
    SlotWritten(slots, m, i);
    block[i % 16] := w;
    assert block[..] == slots[i % 16 := w];
  }

  /** The function of the round as the macros R0 to R4 write it. */
  function Mix(i: nat, w: Word, x: Word, y: Word): Word {
    if i < 20 then (w & (x ^ y)) ^ y
    else if i < 40 then w ^ x ^ y
    else if i < 60 then ((w | x) & y) | (w & x)
    else w ^ x ^ y
  }

  /** The constant in the macros R0 to R4. */
  function Magic(i: nat): Word {
    if i < 20 then 0x5a82_7999 else if i < 40 then 0x6ed9_eba1 else if i < 60 then 0x8f1b_bcdc else 0xca62_c1d6
  }

  lemma MixIsF(i: nat, w: Word, x: Word, y: Word)
    ensures Mix(i, w, x, y) == F(i, w, x, y) && Magic(i) == K(i)
  {
    ChooseRewritten(w, x, y);
    MajorityRewritten(w, x, y);
  }

  lemma MacroIsRound(v: Word, w: Word, x: Word, y: Word, z: Word, i: nat, word: Word)
    ensures State(Updated(z, Mix(i, w, x, y), word, Magic(i), Rol(v, 5)), v, Rol(w, 30), x, y)
         == Round(State(v, w, x, y, z), i, word)
  {
    MixIsF(i, w, x, y);
    RolIsRotl(v, 5);
    RolIsRotl(w, 30);
    hide Mix, F, K, Magic, Rol, Rotl, Updated, Temporary;
    UpdatedIsTemporary(z, Mix(i, w, x, y), word, Magic(i), Rol(v, 5));
  }

  /** The macros R0 to R4: instead of shifting five registers, `z` and `w` are updated and the
      caller renames. */
  method R(block: array<Word>, v: Word, w: Word, x: Word, y: Word, z: Word, i: nat, ghost m: Block)
    returns (w': Word, z': Word)
    requires i < 80 && Schedule(block[..], m, i)
    modifies block
    ensures Schedule(block[..], m, i + 1)
    ensures State(z', v, w', x, y) == Round(State(v, w, x, y, z), i, W(m, i))
  {
    hide Schedule, W, Mix, Magic, Rol, Round, Updated;
    var word: Word;
    if i < 16 {
      SlotUnwritten(block[..], m, i);
      word := block[i];
    } else {
      word := Blk(block, i, m);
    }
    MacroIsRound(v, w, x, y, z, i, word);
    z' := Updated(z, Mix(i, w, x, y), word, Magic(i), Rol(v, 5));
    w' := Rol(w, 30);
  }

  lemma SlotUnwritten(slots: seq<Word>, m: Block, i: nat)
    requires i < 16 && Schedule(slots, m, i)
    ensures |slots| == 16 && slots[i] == W(m, i) && Schedule(slots, m, i + 1)
  {
    hide W;
    assert i % 16 == i;
  }

  function FiveRounds(s: State, m: Block, t: nat): State {
    var s1 := Round(s, t, W(m, t));
    var s2 := Round(s1, t + 1, W(m, t + 1));
    var s3 := Round(s2, t + 2, W(m, t + 2));
    var s4 := Round(s3, t + 3, W(m, t + 3));
    Round(s4, t + 4, W(m, t + 4))
  }

  lemma RoundsByFive(h: State, m: Block, t: nat)
    ensures Rounds(h, m, t + 5) == FiveRounds(Rounds(h, m, t), m, t)
  {
    hide Round, W;
    assert Rounds(h, m, t + 2) == Round(Rounds(h, m, t + 1), t + 1, W(m, t + 1));
    assert Rounds(h, m, t + 4) == Round(Rounds(h, m, t + 3), t + 3, W(m, t + 3));
  }

  /** Five macro calls bring the register names back to where they were. */
  method FiveMacros(block: array<Word>, s: State, t: nat, ghost m: Block) returns (r: State)
    requires t <= 75 && Schedule(block[..], m, t)
    modifies block
    ensures Schedule(block[..], m, t + 5)
    ensures r == FiveRounds(s, m, t)
  {
    hide Round, W, Schedule;
    var a, b, c, d, e := s.a, s.b, s.c, s.d, s.e;
    b, e := R(block, a, b, c, d, e, t, m);
    a, d := R(block, e, a, b, c, d, t + 1, m);
    e, c := R(block, d, e, a, b, c, t + 2, m);
    d, b := R(block, c, d, e, a, b, t + 3, m);
    c, a := R(block, b, c, d, e, a, t + 4, m);
    r := State(a, b, c, d, e);
  }

  lemma Start(h: State, m: Block)
    ensures Schedule(m, m, 0) && Rounds(h, m, 0) == h
  {
  }

  /** The eighty macro calls of `transform`. */
  method EightyMacros(block: array<Word>, h: State, ghost m: Block) returns (s: State)
    requires block.Length == 16 && block[..] == m
    modifies block
    ensures s == Rounds(h, m, 80)
  {
    hide FiveRounds, Schedule, Rounds;
    Start(h, m);
    s := h;
    var t := 0;
    while t < 80
      invariant t <= 80 && t % 5 == 0
      invariant Schedule(block[..], m, t)
      invariant s == Rounds(h, m, t)
    {
      s := FiveMacros(block, s, t, m);
      RoundsByFive(h, m, t);
      t := t + 5;
    }
  }

  // ------------------------------------------------------------- the input stream

  /** An input stream: a short read leaves it failed. */
  class InputStream {
    const data: seq<Byte>
    var pos: nat
    var good: bool

    constructor (data: seq<Byte>)
      ensures this.data == data && good && pos == 0 && Valid()
    {
      this.data := data;
      pos, good := 0, true;
    }

    ghost predicate Valid()
      reads this
    {
      pos <= |data|
    }

    ghost function Remaining(): seq<Byte>
      reads this
      requires Valid()
    {
      if good then data[pos..] else []
    }

    method Read(max: nat) returns (s: seq<Byte>)
      requires Valid()
      modifies this
      ensures Valid() && s + Remaining() == old(Remaining())
      ensures pos >= old(pos)
      ensures good ==> old(good) && |s| == max && pos == old(pos) + max
      ensures !good ==> |s| == 0 || |s| < max
      ensures !good ==> Remaining() == []
    {
      if !good {
        return [];
      }
      if |data| - pos < max {
        s := data[pos..];
        pos := |data|;
        good := false;
      } else {
        s := data[pos..pos + max];
        pos := pos + max;
      }
    }
  }

  // ---------------------------------------------------------------- the object

  method BufferToBlock(buffer: seq<Byte>, block: array<Word>)
    requires |buffer| == 64 && block.Length == 16
    modifies block
    ensures block[..] == BlockOf(buffer)
  {
    for i := 0 to 16
      invariant forall j :: 0 <= j < i ==>
        block[j] == WordOf(buffer[4 * j], buffer[4 * j + 1], buffer[4 * j + 2], buffer[4 * j + 3])
    {
      block[i] := WordOf(buffer[4 * i], buffer[4 * i + 1], buffer[4 * i + 2], buffer[4 * i + 3]);
    }
  }

  const Uint64: nat := 0x1_0000_0000_0000_0000

  class SHA1 {
    const digest: array<Word>
    var buffer: seq<Byte>
    var transforms: nat

    /** The blocks hashed so far, as bytes. */
    ghost var hashed: seq<Byte>

    /** Everything `update` has been given since construction or the last reset. */
    ghost function Absorbed(): seq<Byte>
      reads this
    {
      hashed + buffer
    }

    ghost function HashState(): State
      reads this, digest
      requires digest.Length == 5
    {
      State(digest[0], digest[1], digest[2], digest[3], digest[4])
    }

    ghost predicate Consistent()
      reads this, digest
    {
      && digest.Length == 5
      && |hashed| % 64 == 0
      && HashState() == HashBlocks(hashed)
      && transforms == |hashed| / 64 % Uint64
    }

    ghost predicate Valid()
      reads this, digest
    {
      Consistent() && |buffer| < 64
    }

    constructor ()
      ensures Valid() && fresh(digest) && Absorbed() == []
    {
      digest := new Word[5];
      buffer, transforms := [], 0;
      new;
      Reset();
    }

    method Reset()
      requires digest.Length == 5
      modifies this, digest
      ensures Valid() && Absorbed() == []
    {
      digest[0] := 0x6745_2301;
      digest[1] := 0xefcd_ab89;
      digest[2] := 0x98ba_dcfe;
      digest[3] := 0x1032_5476;
      digest[4] := 0xc3d2_e1f0;
      transforms := 0;
      buffer := [];
      hashed := [];
    }

    method AddBack(s: State)
      requires digest.Length == 5
      modifies digest
      ensures HashState() == Add(old(HashState()), s)
    {
      hide Plus;
      digest[0] := Plus(digest[0], s.a);
      digest[1] := Plus(digest[1], s.b);
      digest[2] := Plus(digest[2], s.c);
      digest[3] := Plus(digest[3], s.d);
      digest[4] := Plus(digest[4], s.e);
    }

    /** Hashes one block, given as words; `bytes` are the bytes it stands for. */
    method Transform(block: array<Word>, ghost bytes: seq<Byte>)
      requires Consistent() && block.Length == 16 && block != digest
      requires |bytes| == 64 && block[..] == BlockOf(bytes)
      modifies `transforms, `hashed, digest, block
      ensures Consistent() && hashed == old(hashed) + bytes
    {
      hide Rounds, HashBlocks, BlockOf, Add;
      var h := State(digest[0], digest[1], digest[2], digest[3], digest[4]);
      ghost var m := block[..];
      var s := EightyMacros(block, h, m);
      AddBack(s);
      transforms := (transforms + 1) % Uint64;
      HashOneMore(hashed, bytes);
      CountOneMore(|hashed|);
      hashed := hashed + bytes;
    }

    /** The body of the loop of `update`, up to the next read. */
    method HashBuffer()
      requires Consistent() && |buffer| == 64
      modifies `transforms, `hashed, digest
      ensures Consistent() && hashed == old(hashed) + buffer
    {
      hide HashBlocks, BlockOf;
      var block := new Word[16];
      BufferToBlock(buffer, block);
      Transform(block, buffer);
    }

    method Update(input: InputStream)
      requires Valid() && input.Valid()
      modifies this, digest, input
      ensures Valid() && input.Valid()
      ensures Absorbed() == old(Absorbed() + input.Remaining())
    {
      hide HashBlocks;
      ghost var all := Absorbed() + input.Remaining();
      ghost var partial := buffer;
      var rest := input.Read(64 - |buffer|);
      Common.Associative(hashed, partial, rest);
      Common.Associative(hashed + partial, rest, input.Remaining());
      buffer := buffer + rest;
      while input.good
        invariant input.Valid() && Consistent()
        invariant if input.good then |buffer| == 64 else |buffer| < 64 && input.Remaining() == []
        invariant all == hashed + buffer + input.Remaining()
        decreases |input.data| - input.pos, input.good
      {
        HashBuffer();
        buffer := input.Read(64);
        Common.Associative(hashed, buffer, input.Remaining());
      }
    }

    /** The length over the last eight bytes of a block, and the block itself. */
    method HashLastBlock(block: array<Word>, totalBits: nat, ghost last: seq<Byte>)
      requires Consistent() && block.Length == 16 && block != digest && totalBits < Uint64
      requires |last| == 64 && forall j :: 0 <= j < 14 ==> block[j] == BlockOf(last)[j]
      modifies `transforms, `hashed, digest, block
      ensures Consistent() && hashed == old(hashed) + (last[..56] + LengthBytes(totalBits))
    {
      hide HashBlocks, BlockOf, LengthBytes, High32, Low32;
      ghost var words := block[..];
      LengthInBlock(last, totalBits, words);
      block[16 - 1] := Low32(totalBits);
      block[16 - 2] := High32(totalBits);
      assert block[..] == words[15 := Low32(totalBits)][14 := High32(totalBits)];
      Transform(block, last[..56] + LengthBytes(totalBits));
    }

    /** The marker byte, and zeros up to a whole block. */
    method FillBuffer() returns (origSize: nat)
      requires |buffer| < 64
      modifies `buffer
      ensures origSize == old(|buffer|) + 1 && buffer == Filled(old(buffer))
    {
      ghost var tail := buffer;
      buffer := buffer + [0x80];
      origSize := |buffer|;
      while |buffer| < 64
        modifies `buffer
        invariant origSize <= |buffer| <= 64
        invariant buffer == tail + [0x80] + Zeros(|buffer| - origSize)
      {
        buffer := buffer + [0x00];
      }
    }

    /** Padding and the last one or two blocks; the buffer is left for `Reset`. */
    method ComputeDigest()
      requires Valid()
      modifies this, digest
      ensures digest.Length == 5 && HashState() == HashBlocks(Padded(old(Absorbed())))
    {
      hide HashBlocks, BlockOf, LengthBytes, BitLength, Padded;
      ghost var before, tail := hashed, buffer;
      PaddingBlocks(before, tail);
      var totalBits := (transforms * 64 + |buffer|) * 8 % Uint64;
      TotalBits(|hashed|, |buffer|);
      var origSize := FillBuffer();
      var block := new Word[16];
      BufferToBlock(buffer, block);
      if origSize > 64 - 8 {
        Transform(block, buffer);
        for i := 0 to 16 - 2
          modifies block
          invariant forall j :: 0 <= j < i ==> block[j] == 0
        {
          block[i] := 0;
        }
        ZeroBlock();
        HashLastBlock(block, totalBits, Zeros(64));
      } else {
        HashLastBlock(block, totalBits, buffer);
      }
    }

    method Digest() returns (result: seq<Byte>)
      requires Valid()
      modifies this, digest
      ensures result == Sha1(old(Absorbed()))
      ensures Valid() && Absorbed() == []
    {
      hide HashBlocks, Padded, BytesOf;
      ComputeDigest();
      result := [];
      for i := 0 to 5
        modifies {}
        invariant result == WordBytes(digest[..i])
      {
        assert digest[..i + 1][..i] == digest[..i];
        result := result + BytesOf(digest[i]);
      }
      assert digest[..5] == [digest[0], digest[1], digest[2], digest[3], digest[4]];
      Reset();
    }
  }

  lemma HashOneMore(hashed: seq<Byte>, bytes: seq<Byte>)
    requires |hashed| % 64 == 0 && |bytes| == 64
    ensures HashBlocks(hashed + bytes) == Compress(HashBlocks(hashed), BlockOf(bytes))
  {
    hide Compress, BlockOf;
    var all := hashed + bytes;
    assert all[..|all| - 64] == hashed && all[|all| - 64..] == bytes;
  }

  lemma CountOneMore(n: nat)
    requires n % 64 == 0
    ensures (n / 64 % Uint64 + 1) % Uint64 == (n + 64) / 64 % Uint64
  {
    var blocks := n / 64;
    assert (n + 64) / 64 == blocks + 1;
    assert blocks + 1 == blocks % Uint64 + 1 + Uint64 * (blocks / Uint64);
    Wraps(blocks % Uint64 + 1, blocks / Uint64);
  }

  lemma TotalBits(hashed: nat, buffered: nat)
    requires hashed % 64 == 0
    ensures (hashed / 64 % Uint64 * 64 + buffered) * 8 % Uint64 == BitLength(hashed + buffered)
  {
    var blocks := hashed / 64;
    var bits := (blocks % Uint64 * 64 + buffered) * 8;
    assert hashed == 64 * blocks && blocks == Uint64 * (blocks / Uint64) + blocks % Uint64;
    assert 8 * (hashed + buffered) == bits + Uint64 * (512 * (blocks / Uint64));
    Wraps(bits, 512 * (blocks / Uint64));
  }

  lemma Wraps(n: nat, k: nat)
    ensures (n + Uint64 * k) % Uint64 == n % Uint64
  {
    assert n == Uint64 * (n / Uint64) + n % Uint64;
    assert n + Uint64 * k == Uint64 * (n / Uint64 + k) + n % Uint64;
  }

  /** The partial block with its marker byte, filled up with zeros. */
  ghost function Filled(tail: seq<Byte>): (b: seq<Byte>)
    requires |tail| < 64
    ensures |b| == 64
  {
    tail + [0x80] + Zeros(63 - |tail|)
  }

  /** The padding of the standard is one block where the length still fits, and two where it does not. */
  lemma PaddingBlocks(before: seq<Byte>, tail: seq<Byte>)
    requires |before| % 64 == 0 && |tail| < 64
    ensures var length := LengthBytes(BitLength(|before + tail|));
            Padded(before + tail)
            == if |tail| < 56 then before + (Filled(tail)[..56] + length)
               else before + Filled(tail) + (Zeros(64)[..56] + length)
  {
    hide LengthBytes, BitLength;
    var n := |before + tail|;
    var length := LengthBytes(BitLength(n));
    assert n % 64 == |tail|;
    if |tail| < 56 {
      assert ZeroCount(n) == 55 - |tail|;
      assert Filled(tail)[..56] == tail + [0x80] + Zeros(55 - |tail|);
    } else {
      assert ZeroCount(n) == 119 - |tail|;
      assert Zeros(119 - |tail|) == Zeros(63 - |tail|) + Zeros(64)[..56];
    }
  }

  lemma WordOfBytes(w: Word)
    ensures var b := BytesOf(w); WordOf(b[0], b[1], b[2], b[3]) == w
  {
  }

  lemma BlockAt(bytes: seq<Byte>, j: nat)
    requires |bytes| == 64 && j < 16
    ensures BlockOf(bytes)[j] == WordOf(bytes[4 * j], bytes[4 * j + 1], bytes[4 * j + 2], bytes[4 * j + 3])
  {
  }

  /** The two length words, written over whatever the block held, are the eight length bytes. */
  lemma LengthInBlock(last: seq<Byte>, bits: nat, block: seq<Word>)
    requires |last| == 64 && bits < Uint64 && |block| == 16
    requires forall j :: 0 <= j < 14 ==> block[j] == BlockOf(last)[j]
    ensures block[15 := Low32(bits)][14 := High32(bits)] == BlockOf(last[..56] + LengthBytes(bits))
  {
    hide WordOf, BytesOf, BlockOf, High32, Low32;
    var bytes := last[..56] + LengthBytes(bits);
    var written := block[15 := Low32(bits)][14 := High32(bits)];
    forall j | 0 <= j < 16 ensures written[j] == BlockOf(bytes)[j] {
      BlockAt(bytes, j);
      if j < 14 {
        BlockAt(last, j);
      } else {
        WordOfBytes(written[j]);
      }
    }
  }

  lemma ZeroBlock()
    ensures forall j :: 0 <= j < 14 ==> BlockOf(Zeros(64))[j] == 0
  {
  }

  // ------------------------------------------------------------ any way of cutting

  function Concat(pieces: seq<seq<Byte>>): seq<Byte> {
    if pieces == [] then [] else Concat(pieces[..|pieces| - 1]) + pieces[|pieces| - 1]
  }

  /** However a message is cut into successive updates, of a fresh object or of one that was used before
      and reset, the digest is SHA-1 of the whole message. */
  method DigestOfPieces(hash: SHA1, pieces: seq<seq<Byte>>) returns (result: seq<Byte>)
    requires hash.Valid() && hash.Absorbed() == []
    modifies hash, hash.digest
    ensures result == Sha1(Concat(pieces))
    ensures hash.Valid() && hash.Absorbed() == []
  {
    for i := 0 to |pieces|
      invariant hash.Valid() && hash.Absorbed() == Concat(pieces[..i])
    {
      var input := new InputStream(pieces[i]);
      hash.Update(input);
      assert pieces[..i + 1][..i] == pieces[..i];
    }
    assert pieces[..|pieces|] == pieces;
    result := hash.Digest();
  }

  /** One object for any number of messages, each in pieces of its own: every digest is that of its message. */
  method DigestsOfMessages(messages: seq<seq<seq<Byte>>>) returns (digests: seq<seq<Byte>>)
    ensures |digests| == |messages|
    ensures forall k :: 0 <= k < |messages| ==> digests[k] == Sha1(Concat(messages[k]))
  {
    hide Sha1;
    var hash := new SHA1();
    digests := [];
    for i := 0 to |messages|
      invariant fresh(hash) && fresh(hash.digest) && hash.Valid() && hash.Absorbed() == []
      invariant |digests| == i && forall k :: 0 <= k < i ==> digests[k] == Sha1(Concat(messages[k]))
    {
      var digest := DigestOfPieces(hash, messages[i]);
      digests := digests + [digest];
    }
  }
}
