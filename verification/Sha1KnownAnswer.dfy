/** A known answer, to guard the transcription of the standard: the digest of the three bytes "abc" that the
    standard's example gives. The words of the schedule and the values of the first working variable are kept in rows
    of eight. */
module Sha1KnownAnswer {
  import opened Sha1Spec

  const Abc: seq<Byte> := [0x61, 0x62, 0x63]

  type Row = r: seq<Word> | |r| == 8 witness seq(8, i => 0)

  const W0: Row :=
    [0x6162_6380, 0x0000_0000, 0x0000_0000, 0x0000_0000,
     0x0000_0000, 0x0000_0000, 0x0000_0000, 0x0000_0000]
  const W1: Row :=
    [0x0000_0000, 0x0000_0000, 0x0000_0000, 0x0000_0000,
     0x0000_0000, 0x0000_0000, 0x0000_0000, 0x0000_0018]
  const W2: Row :=
    [0xc2c4_c700, 0x0000_0000, 0x0000_0030, 0x8589_8e01,
     0x0000_0000, 0x0000_0060, 0x0b13_1c03, 0x0000_0030]
  const W3: Row :=
    [0x8589_8ec1, 0x1626_3806, 0x0000_0000, 0x0000_0180,
     0x2c4c_700c, 0x0000_00f0, 0x93af_b507, 0x5898_e048]
  const W4: Row :=
    [0x8e9a_9202, 0x0000_0600, 0xb131_c0f0, 0x1626_3bc6,
     0x4ebe_d41e, 0x6263_80a1, 0x1626_3806, 0x0000_18c0]
  const W5: Row :=
    [0xd2e1_38c4, 0x0000_0f00, 0x3afb_5079, 0x898e_04e5,
     0xe2ba_3c2b, 0x0000_60c0, 0x053a_37cd, 0x7445_8547]
  const W6: Row :=
    [0xda94_15ed, 0x2638_0a16, 0x6263_83a1, 0x4ebf_54de,
     0x3835_b44b, 0x0000_f600, 0x1e84_c7a3, 0x98e0_4d98]
  const W7: Row :=
    [0x651d_16a0, 0x6265_8ca1, 0x4585_44d6, 0x4458_4cb7,
     0x7ba0_6619, 0x6380_aea2, 0x0ae5_5269, 0x627b_49a1]
  const W8: Row :=
    [0x7cd4_5c9d, 0x000f_0000, 0xfb50_753a, 0xec67_65e8,
     0xba3c_2be2, 0x0060_c000, 0x3a37_cd05, 0x4585_46f4]
  const W9: Row :=
    [0xb859_9dd6, 0x380a_1a26, 0x01e0_2203, 0xe7cc_3456,
     0xe6e6_0b69, 0x00f6_0a00, 0x5795_ef4f, 0x822e_0879]

  const A0: Row :=
    [0x0000_0000, 0x0000_0000, 0x0000_0000, 0x0f4b_87c3,
     0x40c9_51d8, 0x62eb_73fa, 0xefcd_ab89, 0x6745_2301]
  const A1: Row :=
    [0x0116_fc33, 0x8990_536d, 0xa139_0f08, 0xcdd8_e11b,
     0xcfd4_99de, 0x3fc7_ca40, 0x993e_30c1, 0x9e8c_07d4]
  const A2: Row :=
    [0x4b6a_e328, 0x8351_f929, 0xfbda_9e89, 0x6318_8fe4,
     0x4607_b664, 0x9128_f695, 0x196b_ee77, 0x20bd_d62f]
  const A3: Row :=
    [0x4e92_5823, 0x82aa_6728, 0xdc64_901d, 0xfd9e_1d7d,
     0x1a37_b0ca, 0x33a2_3bfc, 0x2128_3486, 0xd541_f12d]
  const A4: Row :=
    [0xc756_7dc6, 0x4841_3ba4, 0xbe35_fbd5, 0x4aa8_4d97,
     0x8370_b52e, 0xc5fb_af5d, 0x1267_b407, 0x3b84_5d33]
  const A5: Row :=
    [0x046f_aa0a, 0x2c0e_bc11, 0x2179_6ad4, 0xdcbb_b0cb,
     0x0f51_1fd8, 0xdc63_973f, 0x4c98_6405, 0x32de_1cba]
  const A6: Row :=
    [0xfc87_dedf, 0x970a_0d5c, 0x7f19_3dc5, 0xee1b_1aaf,
     0x40f2_8e09, 0x1c51_e1f2, 0xa01b_846c, 0xbead_02ca]
  const A7: Row :=
    [0xbaf3_9337, 0x1207_31c5, 0x641d_b2ce, 0x3847_ad66,
     0xe490_436d, 0x27e9_f1d8, 0x7b71_f76d, 0x5e64_56af]
  const A8: Row :=
    [0xc846_093f, 0xd262_ff50, 0x09d7_85fd, 0x3f52_de5a,
     0xd756_c147, 0x548c_9cb2, 0xb66c_020b, 0x6b61_c9e1]
  const A9: Row :=
    [0x19df_a7ac, 0x1016_55f9, 0x0c3d_f2b4, 0x78dd_4d2b,
     0x4970_93c0, 0x3f25_88c2, 0xc199_f8c7, 0x3985_9de7]
  const A10: Row :=
    [0xedb4_2de4, 0x1179_3f6f, 0x5ee7_6897, 0x63f7_dab7,
     0xa079_b7d9, 0x860d_21cc, 0x5738_d5e1, 0x4254_1b35]

  function Next(w3: Word, w8: Word, w14: Word, w16: Word): Word {
    Rotl(w3 ^ w8 ^ w14 ^ w16, 1)
  }

  /** The recurrence for the word at `i` of the row `r`, which follows the rows `u` and `v`. */
  predicate WordFollows(u: Row, v: Row, r: Row, i: nat)
    requires i < 8
  {
    r[i] == Next(if i >= 3 then r[i - 3] else v[i + 5], v[i], if i >= 6 then v[i - 6] else u[i + 2], u[i])
  }

  predicate WordsFollow(u: Row, v: Row, r: Row) {
    && WordFollows(u, v, r, 0) && WordFollows(u, v, r, 1) && WordFollows(u, v, r, 2) && WordFollows(u, v, r, 3)
    && WordFollows(u, v, r, 4) && WordFollows(u, v, r, 5) && WordFollows(u, v, r, 6) && WordFollows(u, v, r, 7)
  }

  /** The first working variable after a round, from its last five values, the latest first. */
  function Turn(t: nat, a: Word, b: Word, c: Word, d: Word, e: Word, w: Word): Word {
    Temporary(Rotl(a, 5), F(t, b, Rotl(c, 30), Rotl(d, 30)), Rotl(e, 30), K(t), w)
  }

  /** The values `r` follow the values `p` over the rounds from `t` with the words `w`. */
  predicate TurnsFollow(t: nat, p: Row, r: Row, w: Row) {
    && r[0] == Turn(t, p[7], p[6], p[5], p[4], p[3], w[0])
    && r[1] == Turn(t + 1, r[0], p[7], p[6], p[5], p[4], w[1])
    && r[2] == Turn(t + 2, r[1], r[0], p[7], p[6], p[5], w[2])
    && r[3] == Turn(t + 3, r[2], r[1], r[0], p[7], p[6], w[3])
    && r[4] == Turn(t + 4, r[3], r[2], r[1], r[0], p[7], w[4])
    && r[5] == Turn(t + 5, r[4], r[3], r[2], r[1], r[0], w[5])
    && r[6] == Turn(t + 6, r[5], r[4], r[3], r[2], r[1], w[6])
    && r[7] == Turn(t + 7, r[6], r[5], r[4], r[3], r[2], w[7])
  }

  /** The five working variables are five values of the first one. */
  function Registers(a: Word, b: Word, c: Word, d: Word, e: Word): State {
    State(a, b, Rotl(c, 30), Rotl(d, 30), Rotl(e, 30))
  }

  function Last(p: Row): State {
    Registers(p[7], p[6], p[5], p[4], p[3])
  }

  ghost predicate HasWords(m: Block, t: nat, r: Row) {
    forall i :: 0 <= i < 8 ==> W(m, t + i) == r[i]
  }

  lemma WordRow2()
    ensures WordsFollow(W0, W1, W2)
  {
  }

  lemma WordRow3()
    ensures WordsFollow(W1, W2, W3)
  {
  }

  lemma WordRow4()
    ensures WordsFollow(W2, W3, W4)
  {
  }

  lemma WordRow5()
    ensures WordsFollow(W3, W4, W5)
  {
  }

  lemma WordRow6()
    ensures WordsFollow(W4, W5, W6)
  {
  }

  lemma WordRow7()
    ensures WordsFollow(W5, W6, W7)
  {
  }

  lemma WordRow8()
    ensures WordsFollow(W6, W7, W8)
  {
  }

  lemma WordRow9()
    ensures WordsFollow(W7, W8, W9)
  {
  }

  lemma Turns0()
    ensures TurnsFollow(0, A0, A1, W0)
  {
  }

  lemma Turns1()
    ensures TurnsFollow(8, A1, A2, W1)
  {
  }

  lemma Turns2()
    ensures TurnsFollow(16, A2, A3, W2)
  {
  }

  lemma Turns3()
    ensures TurnsFollow(24, A3, A4, W3)
  {
  }

  lemma Turns4()
    ensures TurnsFollow(32, A4, A5, W4)
  {
  }

  lemma Turns5()
    ensures TurnsFollow(40, A5, A6, W5)
  {
  }

  lemma Turns6()
    ensures TurnsFollow(48, A6, A7, W6)
  {
  }

  lemma Turns7()
    ensures TurnsFollow(56, A7, A8, W7)
  {
  }

  lemma Turns8()
    ensures TurnsFollow(64, A8, A9, W8)
  {
  }

  lemma Turns9()
    ensures TurnsFollow(72, A9, A10, W9)
  {
  }

  lemma WordsAre(m: Block, t: nat, u: Row, v: Row, r: Row)
    requires t >= 16 && HasWords(m, t - 16, u) && HasWords(m, t - 8, v) && WordsFollow(u, v, r)
    ensures HasWords(m, t, r)
  {
    hide Rotl;
    forall i | 0 <= i < 8 ensures W(m, t + i) == r[i] {
      WordsUpTo(m, t, u, v, r, i);
    }
  }

  lemma {:induction false} WordsUpTo(m: Block, t: nat, u: Row, v: Row, r: Row, i: nat)
    requires t >= 16 && HasWords(m, t - 16, u) && HasWords(m, t - 8, v) && WordsFollow(u, v, r) && i < 8
    ensures W(m, t + i) == r[i]
  {
    hide Rotl, HasWords, WordsFollow, W;
    if i >= 3 {
      WordsUpTo(m, t, u, v, r, i - 3);
    } else {
      WordAt(m, t - 8, v, i + 5);
    }
    WordAt(m, t - 8, v, i);
    WordAt(m, if i >= 6 then t - 8 else t - 16, if i >= 6 then v else u, if i >= 6 then i - 6 else i + 2);
    WordAt(m, t - 16, u, i);
    WordUnfolds(m, t + i);
    WordOfRow(u, v, r, i);
  }

  lemma WordAt(m: Block, t: nat, r: Row, i: nat)
    requires HasWords(m, t, r) && i < 8
    ensures W(m, t + i) == r[i]
  {
    hide W;
  }

  lemma WordOfRow(u: Row, v: Row, r: Row, i: nat)
    requires WordsFollow(u, v, r) && i < 8
    ensures WordFollows(u, v, r, i)
  {
    hide WordFollows;
  }

  lemma WordUnfolds(m: Block, t: nat)
    requires t >= 16
    ensures W(m, t) == Next(W(m, t - 3), W(m, t - 8), W(m, t - 14), W(m, t - 16))
  {
  }

  lemma RoundIs(m: Block, t: nat, a: Word, b: Word, c: Word, d: Word, e: Word, w: Word)
    requires Rounds(InitialHash, m, t) == Registers(a, b, c, d, e) && W(m, t) == w
    ensures Rounds(InitialHash, m, t + 1) == Registers(Turn(t, a, b, c, d, e, w), a, b, c, d)
  {
    hide Rotl, F, K, Temporary, W;
  }

  lemma RoundsAre(m: Block, t: nat, p: Row, r: Row, w: Row)
    requires Rounds(InitialHash, m, t) == Last(p) && HasWords(m, t, w) && TurnsFollow(t, p, r, w)
    ensures Rounds(InitialHash, m, t + 8) == Last(r)
  {
    hide Turn, Registers, Rounds, W;
    RoundIs(m, t, p[7], p[6], p[5], p[4], p[3], w[0]);
    RoundIs(m, t + 1, r[0], p[7], p[6], p[5], p[4], w[1]);
    RoundIs(m, t + 2, r[1], r[0], p[7], p[6], p[5], w[2]);
    RoundIs(m, t + 3, r[2], r[1], r[0], p[7], p[6], w[3]);
    RoundIs(m, t + 4, r[3], r[2], r[1], r[0], p[7], w[4]);
    RoundIs(m, t + 5, r[4], r[3], r[2], r[1], r[0], w[5]);
    RoundIs(m, t + 6, r[5], r[4], r[3], r[2], r[1], w[6]);
    RoundIs(m, t + 7, r[6], r[5], r[4], r[3], r[2], w[7]);
  }

  lemma ExampleBlock()
    ensures |Padded(Abc)| == 64
    ensures HasWords(BlockOf(Padded(Abc)), 0, W0) && HasWords(BlockOf(Padded(Abc)), 8, W1)
  {
    PaddedAbc();
    var p := Padded(Abc);
    hide Padded;
    BlockWords(p);
    hide BlockOf;
    var m := BlockOf(p);
    forall i | 0 <= i < 8 ensures W(m, 0 + i) == W0[i] && W(m, 8 + i) == W1[i] {
      FirstRows(i);
    }
    hide W;
  }

  lemma FirstRows(i: nat)
    requires i < 8
    ensures W0[i] == (if i == 0 then 0x6162_6380 else 0) && W1[i] == if i == 7 then 0x18 else 0
  {
  }

  lemma PaddedAbc()
    ensures Padded(Abc) == Abc + [0x80] + Zeros(52) + [0, 0, 0, 0, 0, 0, 0, 0x18]
  {
    assert ZeroCount(3) == 52 && BitLength(3) == 24;
    LengthOfAbc();
    hide LengthBytes, ZeroCount, BitLength;
  }

  lemma BlockWords(p: seq<Byte>)
    requires p == Abc + [0x80] + Zeros(52) + [0, 0, 0, 0, 0, 0, 0, 0x18]
    ensures |p| == 64
    ensures forall i :: 0 <= i < 16 ==> BlockOf(p)[i] == if i == 0 then 0x6162_6380 else if i == 15 then 0x18 else 0
  {
    PaddedBytes(p);
    FourBytes();
    hide WordOf, Zeros;
    forall i | 0 <= i < 16
      ensures BlockOf(p)[i] == if i == 0 then 0x6162_6380 else if i == 15 then 0x18 else 0
    {
      assert BlockOf(p)[i] == WordOf(p[4 * i], p[4 * i + 1], p[4 * i + 2], p[4 * i + 3]);
    }
  }

  lemma PaddedBytes(p: seq<Byte>)
    requires p == Abc + [0x80] + Zeros(52) + [0, 0, 0, 0, 0, 0, 0, 0x18]
    ensures |p| == 64 && p[0] == 0x61 && p[1] == 0x62 && p[2] == 0x63 && p[3] == 0x80 && p[63] == 0x18
    ensures forall i :: 4 <= i < 63 ==> p[i] == 0
  {
  }

  lemma LengthOfAbc()
    ensures LengthBytes(24) == [0, 0, 0, 0, 0, 0, 0, 0x18]
  {
  }

  lemma FourBytes()
    ensures WordOf(0x61, 0x62, 0x63, 0x80) == 0x6162_6380 && WordOf(0, 0, 0, 0x18) == 0x18 && WordOf(0, 0, 0, 0) == 0
  {
  }

  lemma EveryWord(m: Block)
    requires HasWords(m, 0, W0) && HasWords(m, 8, W1)
    ensures HasWords(m, 0, W0) && HasWords(m, 8, W1) && HasWords(m, 16, W2) && HasWords(m, 24, W3)
            && HasWords(m, 32, W4) && HasWords(m, 40, W5) && HasWords(m, 48, W6) && HasWords(m, 56, W7)
            && HasWords(m, 64, W8) && HasWords(m, 72, W9)
  {
    hide HasWords, WordsFollow;
    WordRow2();
    WordsAre(m, 16, W0, W1, W2);
    WordRow3();
    WordsAre(m, 24, W1, W2, W3);
    WordRow4();
    WordsAre(m, 32, W2, W3, W4);
    WordRow5();
    WordsAre(m, 40, W3, W4, W5);
    WordRow6();
    WordsAre(m, 48, W4, W5, W6);
    WordRow7();
    WordsAre(m, 56, W5, W6, W7);
    WordRow8();
    WordsAre(m, 64, W6, W7, W8);
    WordRow9();
    WordsAre(m, 72, W7, W8, W9);
  }

  lemma StartIs(m: Block)
    ensures Rounds(InitialHash, m, 0) == Last(A0)
  {
  }

  lemma EveryRound(m: Block)
    requires HasWords(m, 0, W0) && HasWords(m, 8, W1)
    ensures Rounds(InitialHash, m, 80) == Last(A10)
  {
    hide HasWords, TurnsFollow, Last, Rounds;
    EveryWord(m);
    StartIs(m);
    Turns0();
    RoundsAre(m, 0, A0, A1, W0);
    Turns1();
    RoundsAre(m, 8, A1, A2, W1);
    Turns2();
    RoundsAre(m, 16, A2, A3, W2);
    Turns3();
    RoundsAre(m, 24, A3, A4, W3);
    Turns4();
    RoundsAre(m, 32, A4, A5, W4);
    Turns5();
    RoundsAre(m, 40, A5, A6, W5);
    Turns6();
    RoundsAre(m, 48, A6, A7, W6);
    Turns7();
    RoundsAre(m, 56, A7, A8, W7);
    Turns8();
    RoundsAre(m, 64, A8, A9, W8);
    Turns9();
    RoundsAre(m, 72, A9, A10, W9);
  }

  lemma Added()
    ensures Add(InitialHash, Last(A10))
         == State(0xa999_3e36, 0x4706_816a, 0xba3e_2571, 0x7850_c26c, 0x9cd0_d89d)
  {
  }

  /** SHA-1 of "abc" is a9993e36 4706816a ba3e2571 7850c26c 9cd0d89d. */
  lemma DigestOfAbc()
    ensures Sha1(Abc) == [0xa9, 0x99, 0x3e, 0x36, 0x47, 0x06, 0x81, 0x6a, 0xba, 0x3e,
                          0x25, 0x71, 0x78, 0x50, 0xc2, 0x6c, 0x9c, 0xd0, 0xd8, 0x9d]
  {
    ExampleBlock();
    hide Rounds, W, Last, BlockOf, Add, Padded, BytesOf, HasWords;
    var p := Padded(Abc);
    assert p[..|p| - 64] == [] && p[|p| - 64..] == p;
    EveryRound(BlockOf(p));
    Added();
    assert HashBlocks([]) == InitialHash;
    assert HashBlocks(p) == Add(InitialHash, Last(A10));
    FiveWords(0xa999_3e36, 0x4706_816a, 0xba3e_2571, 0x7850_c26c, 0x9cd0_d89d);
    DigestParts();
  }

  lemma DigestParts()
    ensures BytesOf(0xa999_3e36) == [0xa9, 0x99, 0x3e, 0x36]
            && BytesOf(0x4706_816a) == [0x47, 0x06, 0x81, 0x6a]
            && BytesOf(0xba3e_2571) == [0xba, 0x3e, 0x25, 0x71]
            && BytesOf(0x7850_c26c) == [0x78, 0x50, 0xc2, 0x6c]
            && BytesOf(0x9cd0_d89d) == [0x9c, 0xd0, 0xd8, 0x9d]
  {
  }

  lemma FiveWords(a: Word, b: Word, c: Word, d: Word, e: Word)
    ensures DigestBytes(State(a, b, c, d, e)) == BytesOf(a) + BytesOf(b) + BytesOf(c) + BytesOf(d) + BytesOf(e)
  {
    hide BytesOf, WordBytes;
    ThreeWords(a, b, c);
    Snoc([a, b, c], d, [a, b, c, d]);
    Snoc([a, b, c, d], e, [a, b, c, d, e]);
  }

  lemma ThreeWords(a: Word, b: Word, c: Word)
    ensures WordBytes([a, b, c]) == BytesOf(a) + BytesOf(b) + BytesOf(c)
  {
    hide BytesOf, WordBytes;
    Snoc([], a, [a]);
    Snoc([a], b, [a, b]);
    Snoc([a, b], c, [a, b, c]);
    assert [] + BytesOf(a) == BytesOf(a);
  }

  lemma Snoc(words: seq<Word>, w: Word, more: seq<Word>)
    requires more == words + [w]
    ensures WordBytes([]) == [] && WordBytes(more) == WordBytes(words) + BytesOf(w)
  {
    hide BytesOf;
    assert more[..|words|] == words;
  }
}
