/**
  The published test vector for "abc" (FIPS 180-4, and tests/test_crypto.cpp), worked through schedule and
  rounds: it fixes what the other laws leave open, how the parts of a round are put together.
*/
module Sha256Vector {
  import opened Sha256
  import opened Sha256Words

  const ABC: Bytes := [0x61, 0x62, 0x63]

  /** The one padded block. */
  const BLOCK: Bytes := ABC + [0x80] + Zeros(52) + [0, 0, 0, 0, 0, 0, 0, 0x18]

  // ---------------------------------------------------------------- the schedule

  const WORDS: seq<seq<bv32>> := [
    [0x61626380, 0x00000000, 0x00000000, 0x00000000, 0x00000000, 0x00000000, 0x00000000, 0x00000000],
    [0x00000000, 0x00000000, 0x00000000, 0x00000000, 0x00000000, 0x00000000, 0x00000000, 0x00000018],
    [0x61626380, 0x000f0000, 0x7da86405, 0x600003c6, 0x3e9d7b78, 0x0183fc00, 0x12dcbfdb, 0xe2e2c38e],
    [0xc8215c1a, 0xb73679a2, 0xe5bc3909, 0x32663c5b, 0x9d209d67, 0xec8726cb, 0x702138a4, 0xd3b7973b],
    [0x93f5997f, 0x3b68ba73, 0xaff4ffc1, 0xf10a5c62, 0x0a8b3996, 0x72af830a, 0x9409e33e, 0x24641522],
    [0x9f47bf94, 0xf0a64f5a, 0x3e246a79, 0x27333ba3, 0x0c4763f2, 0x840abf27, 0x7a290d5d, 0x065c43da],
    [0xfb3e89cb, 0xcc7617db, 0xb9e66c34, 0xa9993667, 0x84badedd, 0xc21462bc, 0x1487472c, 0xb20f7a99],
    [0xef57b9cd, 0xebe6b238, 0x9fe3095e, 0x78bc8d4b, 0xa43fcf15, 0x668b2ff8, 0xeeaba2cc, 0x12b1edeb]]

  /** Words 8i to 8i + 7 of the schedule are `w`. */
  ghost predicate Scheduled(b: Bytes, i: nat, w: seq<bv32>)
    requires |b| == 64 && i < 8 && |w| == 8
  {
    && Schedule(b, 8 * i) == w[0] && Schedule(b, 8 * i + 1) == w[1]
    && Schedule(b, 8 * i + 2) == w[2] && Schedule(b, 8 * i + 3) == w[3]
    && Schedule(b, 8 * i + 4) == w[4] && Schedule(b, 8 * i + 5) == w[5]
    && Schedule(b, 8 * i + 6) == w[6] && Schedule(b, 8 * i + 7) == w[7]
  }

  ghost predicate RowIs(i: nat)
    requires i < 8
  {
    |BLOCK| == 64 && Scheduled(BLOCK, i, WORDS[i])
  }

  lemma FirstRows()
    ensures RowIs(0) && RowIs(1)
  {
  }

  lemma Row2()
    requires RowIs(0) && RowIs(1)
    ensures RowIs(2)
  {
    hide Schedule;
    ScheduleStep(BLOCK, 16);
    ScheduleStep(BLOCK, 17);
    ScheduleStep(BLOCK, 18);
    ScheduleStep(BLOCK, 19);
    ScheduleStep(BLOCK, 20);
    ScheduleStep(BLOCK, 21);
    ScheduleStep(BLOCK, 22);
    ScheduleStep(BLOCK, 23);
  }

  lemma Row3()
    requires RowIs(1) && RowIs(2)
    ensures RowIs(3)
  {
    hide Schedule;
    ScheduleStep(BLOCK, 24);
    ScheduleStep(BLOCK, 25);
    ScheduleStep(BLOCK, 26);
    ScheduleStep(BLOCK, 27);
    ScheduleStep(BLOCK, 28);
    ScheduleStep(BLOCK, 29);
    ScheduleStep(BLOCK, 30);
    ScheduleStep(BLOCK, 31);
  }

  lemma Row4()
    requires RowIs(2) && RowIs(3)
    ensures RowIs(4)
  {
    hide Schedule;
    ScheduleStep(BLOCK, 32);
    ScheduleStep(BLOCK, 33);
    ScheduleStep(BLOCK, 34);
    ScheduleStep(BLOCK, 35);
    ScheduleStep(BLOCK, 36);
    ScheduleStep(BLOCK, 37);
    ScheduleStep(BLOCK, 38);
    ScheduleStep(BLOCK, 39);
  }

  lemma Row5()
    requires RowIs(3) && RowIs(4)
    ensures RowIs(5)
  {
    hide Schedule;
    ScheduleStep(BLOCK, 40);
    ScheduleStep(BLOCK, 41);
    ScheduleStep(BLOCK, 42);
    ScheduleStep(BLOCK, 43);
    ScheduleStep(BLOCK, 44);
    ScheduleStep(BLOCK, 45);
    ScheduleStep(BLOCK, 46);
    ScheduleStep(BLOCK, 47);
  }

  lemma Row6()
    requires RowIs(4) && RowIs(5)
    ensures RowIs(6)
  {
    hide Schedule;
    ScheduleStep(BLOCK, 48);
    ScheduleStep(BLOCK, 49);
    ScheduleStep(BLOCK, 50);
    ScheduleStep(BLOCK, 51);
    ScheduleStep(BLOCK, 52);
    ScheduleStep(BLOCK, 53);
    ScheduleStep(BLOCK, 54);
    ScheduleStep(BLOCK, 55);
  }

  lemma Row7()
    requires RowIs(5) && RowIs(6)
    ensures RowIs(7)
  {
    hide Schedule;
    ScheduleStep(BLOCK, 56);
    ScheduleStep(BLOCK, 57);
    ScheduleStep(BLOCK, 58);
    ScheduleStep(BLOCK, 59);
    ScheduleStep(BLOCK, 60);
    ScheduleStep(BLOCK, 61);
    ScheduleStep(BLOCK, 62);
    ScheduleStep(BLOCK, 63);
  }

  // ---------------------------------------------------------------- the rounds

  function Two(r: Regs, k: seq<bv32>, w: seq<bv32>, j: nat): Regs
    requires |k| == |w| == 8 && j + 2 <= 8
  {
    Round(Round(r, k[j], w[j]), k[j + 1], w[j + 1])
  }

  /** The working variables before every second round, eight rounds in a row. */
  const STATES: seq<seq<Regs>> := [
    [Regs(0x6a09e667, 0xbb67ae85, 0x3c6ef372, 0xa54ff53a, 0x510e527f, 0x9b05688c, 0x1f83d9ab, 0x5be0cd19),
     Regs(0x5a6ad9ad, 0x5d6aebcd, 0x6a09e667, 0xbb67ae85, 0x78ce7989, 0xfa2a4622, 0x510e527f, 0x9b05688c),
     Regs(0xd550f666, 0xc8c347a7, 0x5a6ad9ad, 0x5d6aebcd, 0x24e00850, 0xf92939eb, 0x78ce7989, 0xfa2a4622),
     Regs(0x2b4209f5, 0x04409a6a, 0xd550f666, 0xc8c347a7, 0x714260ad, 0x43ada245, 0x24e00850, 0xf92939eb)],
    [Regs(0x85a07b5f, 0xe5030380, 0x2b4209f5, 0x04409a6a, 0x0c657a79, 0x9b27a401, 0x714260ad, 0x43ada245),
     Regs(0x8c87346b, 0x8e04ecb9, 0x85a07b5f, 0xe5030380, 0x1cc92596, 0x32ca2d8c, 0x0c657a79, 0x9b27a401),
     Regs(0xf71fc5a9, 0x4798a3f4, 0x8c87346b, 0x8e04ecb9, 0x816fd6e9, 0x436b23e8, 0x1cc92596, 0x32ca2d8c),
     Regs(0xd932eb16, 0x87912990, 0xf71fc5a9, 0x4798a3f4, 0x745a48de, 0x1e578218, 0x816fd6e9, 0x436b23e8)],
    [Regs(0xb0fa238e, 0xc0645fde, 0xd932eb16, 0x87912990, 0x07590dcd, 0x0b92f20c, 0x745a48de, 0x1e578218),
     Regs(0xc2fbd9d1, 0x21da9a9b, 0xb0fa238e, 0xc0645fde, 0x846ee454, 0x8034229c, 0x07590dcd, 0x0b92f20c),
     Regs(0xe1f20c33, 0xfe777bbf, 0xc2fbd9d1, 0x21da9a9b, 0xb0638179, 0xcc899961, 0x846ee454, 0x8034229c),
     Regs(0xc2606d6d, 0x9dc68b63, 0xe1f20c33, 0xfe777bbf, 0xe1257970, 0x8ada8930, 0xb0638179, 0xcc899961)],
    [Regs(0xc5d53d8d, 0xa7a3623f, 0xc2606d6d, 0x9dc68b63, 0xaa47c347, 0x49f5114a, 0xe1257970, 0x8ada8930),
     Regs(0xcde8037d, 0x1c2c2838, 0xc5d53d8d, 0xa7a3623f, 0x14383d8e, 0x2823ef91, 0xaa47c347, 0x49f5114a),
     Regs(0x77d37528, 0xb62ec4bc, 0xcde8037d, 0x1c2c2838, 0xedffbff8, 0xc74c6516, 0x14383d8e, 0x2823ef91),
     Regs(0xa0060b30, 0x363482c9, 0x77d37528, 0xb62ec4bc, 0xade79437, 0x6112a3b7, 0xedffbff8, 0xc74c6516)],
    [Regs(0x73b33bf5, 0xea992a22, 0xa0060b30, 0x363482c9, 0xba591112, 0x0109ab3a, 0xade79437, 0x6112a3b7),
     Regs(0xfe604df5, 0x98e12507, 0x73b33bf5, 0xea992a22, 0x59249dd3, 0x9cd9f5f6, 0xba591112, 0x0109ab3a),
     Regs(0x65a0cfe4, 0xa9a7738c, 0xfe604df5, 0x98e12507, 0xf4b002d6, 0x085f3833, 0x59249dd3, 0x9cd9f5f6),
     Regs(0x34df1604, 0x41a65cb1, 0x65a0cfe4, 0xa9a7738c, 0xa507a53d, 0x0772a26b, 0xf4b002d6, 0x085f3833)],
    [Regs(0x79ea687a, 0x6dc57a8a, 0x34df1604, 0x41a65cb1, 0x1efbc0a0, 0xf0781bc8, 0xa507a53d, 0x0772a26b),
     Regs(0xdf46652f, 0xd6670766, 0x79ea687a, 0x6dc57a8a, 0x838b2711, 0x26352d63, 0x1efbc0a0, 0xf0781bc8),
     Regs(0x9d4baf93, 0x17aa0dfe, 0xdf46652f, 0xd6670766, 0xfda24c2e, 0xdecd4715, 0x838b2711, 0x26352d63),
     Regs(0x72ab4b91, 0x26628815, 0x9d4baf93, 0x17aa0dfe, 0xb7755da1, 0xa80f11f0, 0xfda24c2e, 0xdecd4715)],
    [Regs(0x4172328d, 0xa14c14b0, 0x72ab4b91, 0x26628815, 0xfecf0bc6, 0xd57b94a9, 0xb7755da1, 0xa80f11f0),
     Regs(0xf11bfaa8, 0x05757ceb, 0x4172328d, 0xa14c14b0, 0x6e5c390c, 0xbd714038, 0xfecf0bc6, 0xd57b94a9),
     Regs(0x886e7a22, 0x7a0508a1, 0xf11bfaa8, 0x05757ceb, 0x49231c1e, 0x52f1ccf7, 0x6e5c390c, 0xbd714038),
     Regs(0xf5702fdb, 0x101fd28f, 0x886e7a22, 0x7a0508a1, 0x9f4787c3, 0x529e7d00, 0x49231c1e, 0x52f1ccf7)],
    [Regs(0x38cc9913, 0x3ec45cdb, 0xf5702fdb, 0x101fd28f, 0x54cb266b, 0xe50e1b4f, 0x9f4787c3, 0x529e7d00),
     Regs(0xc062d46f, 0xfcd1887b, 0x38cc9913, 0x3ec45cdb, 0x7e44008e, 0x9b5e906c, 0x54cb266b, 0xe50e1b4f),
     Regs(0xb6ae8fff, 0xffb70472, 0xc062d46f, 0xfcd1887b, 0xb21bad3d, 0x6d83bfc6, 0x7e44008e, 0x9b5e906c),
     Regs(0x04d24d6c, 0xb85e2ce9, 0xb6ae8fff, 0xffb70472, 0x948d25b6, 0x961f4894, 0xb21bad3d, 0x6d83bfc6)],
    [Regs(0x506e3058, 0xd39a2165, 0x04d24d6c, 0xb85e2ce9, 0x5ef50f24, 0xfb121210, 0x948d25b6, 0x961f4894)]]

  ghost predicate Early(i: nat)
    requires i < 8
  {
    var s, k, w := STATES[i], K[i], WORDS[i];
    Two(s[0], k, w, 0) == s[1] && Two(s[1], k, w, 2) == s[2]
  }

  ghost predicate Late(i: nat)
    requires i < 8
  {
    var s, k, w := STATES[i], K[i], WORDS[i];
    Two(s[2], k, w, 4) == s[3] && Two(s[3], k, w, 6) == STATES[i + 1][0]
  }

  lemma Early0()
    ensures Early(0)
  {
  }

  lemma Late0()
    ensures Late(0)
  {
  }

  lemma Early1()
    ensures Early(1)
  {
  }

  lemma Late1()
    ensures Late(1)
  {
  }

  lemma Early2()
    ensures Early(2)
  {
  }

  lemma Late2()
    ensures Late(2)
  {
  }

  lemma Early3()
    ensures Early(3)
  {
  }

  lemma Late3()
    ensures Late(3)
  {
  }

  lemma Early4()
    ensures Early(4)
  {
  }

  lemma Late4()
    ensures Late(4)
  {
  }

  lemma Early5()
    ensures Early(5)
  {
  }

  lemma Late5()
    ensures Late(5)
  {
  }

  lemma Early6()
    ensures Early(6)
  {
  }

  lemma Late6()
    ensures Late(6)
  {
  }

  lemma Early7()
    ensures Early(7)
  {
  }

  lemma Late7()
    ensures Late(7)
  {
  }

  // ---------------------------------------------------------------- put together

  lemma Shapes(i: nat)
    requires i < 8
    ensures |STATES| == 9 && |STATES[i]| == 4 && |STATES[i + 1]| > 0 && |WORDS| == |K| == 8 && |WORDS[i]| == |K[i]| == 8
  {
  }

  lemma TwoRounds(r: Regs, b: Bytes, t: nat, k: seq<bv32>, w: seq<bv32>, j: nat)
    requires |b| == 64 && t + 2 <= 64 && |k| == |w| == 8 && j + 2 <= 8
    requires RoundConstant(t) == k[j] && RoundConstant(t + 1) == k[j + 1]
    requires Schedule(b, t) == w[j] && Schedule(b, t + 1) == w[j + 1]
    ensures Rounds(r, b, t + 2) == Two(Rounds(r, b, t), k, w, j)
  {
    hide Schedule, Round, Rounds, RoundConstant;
    RoundsStep(r, b, t);
    RoundsStep(r, b, t + 1);
  }

  ghost predicate Constants(i: nat, k: seq<bv32>)
    requires i < 8 && |k| == 8
  {
    && RoundConstant(8 * i) == k[0] && RoundConstant(8 * i + 1) == k[1]
    && RoundConstant(8 * i + 2) == k[2] && RoundConstant(8 * i + 3) == k[3]
    && RoundConstant(8 * i + 4) == k[4] && RoundConstant(8 * i + 5) == k[5]
    && RoundConstant(8 * i + 6) == k[6] && RoundConstant(8 * i + 7) == k[7]
  }

  lemma ConstantsAre(i: nat)
    requires i < 8
    ensures |K| == 8 && |K[i]| == 8 && Constants(i, K[i])
  {
    hide K;
    Shapes(i);
  }

  lemma EightRounds(r: Regs, b: Bytes, i: nat, s: seq<Regs>, k: seq<bv32>, w: seq<bv32>, last: Regs)
    requires |b| == 64 && i < 8 && |s| == 4 && |k| == |w| == 8
    requires Scheduled(b, i, w) && Constants(i, k) && Rounds(r, b, 8 * i) == s[0]
    requires Two(s[0], k, w, 0) == s[1] && Two(s[1], k, w, 2) == s[2] && Two(s[2], k, w, 4) == s[3]
    requires Two(s[3], k, w, 6) == last
    ensures Rounds(r, b, 8 * i + 8) == last
  {
    hide Schedule, Rounds, RoundConstant, Two;
    TwoRounds(r, b, 8 * i, k, w, 0);
    TwoRounds(r, b, 8 * i + 2, k, w, 2);
    TwoRounds(r, b, 8 * i + 4, k, w, 4);
    TwoRounds(r, b, 8 * i + 6, k, w, 6);
  }

  /** After 8i rounds the working variables are those of row `i`. */
  ghost predicate Reached(i: nat)
    requires i <= 8
  {
    |BLOCK| == 64 && Rounds(Load(H0), BLOCK, 8 * i) == STATES[i][0]
  }

  lemma Advance(i: nat)
    requires i < 8 && RowIs(i) && Early(i) && Late(i) && Reached(i)
    ensures Reached(i + 1)
  {
    hide WORDS, STATES, K, BLOCK, Scheduled, Constants, Rounds, Two;
    Shapes(i);
    ConstantsAre(i);
    EightRounds(Load(H0), BLOCK, i, STATES[i], K[i], WORDS[i], STATES[i + 1][0]);
  }

  lemma Begun()
    ensures Reached(0)
  {
    hide Round, Schedule, RoundConstant;
    assert |BLOCK| == 64;
    RoundsStep(Load(H0), BLOCK, 0);
  }

  lemma AllRounds()
    ensures Reached(8)
  {
    hide RowIs, Early, Late, Reached;
    Begun();
    FirstRows();
    Early0();
    Late0();
    Advance(0);
    Early1();
    Late1();
    Advance(1);
    Row2();
    Early2();
    Late2();
    Advance(2);
    Row3();
    Early3();
    Late3();
    Advance(3);
    Row4();
    Early4();
    Late4();
    Advance(4);
    Row5();
    Early5();
    Late5();
    Advance(5);
    Row6();
    Early6();
    Late6();
    Advance(6);
    Row7();
    Early7();
    Late7();
    Advance(7);
  }

  lemma {:induction false} SmallByte(n: nat, i: nat)
    requires n < 256 && i > 0
    ensures ByteOf(n, i) == 0
  {
    assert Pow256(i) >= 256 * Pow256(i - 1) >= 256;
    SmallQuotient(n, Pow256(i));
  }

  lemma Padded()
    ensures Pad(ABC) == BLOCK
  {
    assert ByteOf(24, 0) == 0x18 by {
      assert Pow256(0) == 1;
    }
    hide ByteOf;
    forall i | 0 < i < 8
      ensures ByteOf(24, i) == 0
    {
      SmallByte(24, i);
    }
    assert BigEndian64(24) == [0, 0, 0, 0, 0, 0, 0, 0x18];
  }

  const DIGEST: seq<bv32> := [0xba7816bf, 0x8f01cfea, 0x414140de, 0x5dae2223,
                              0xb00361a3, 0x96177a9c, 0xb410ff61, 0xf20015ad]

  lemma Summed()
    ensures Sum(H0, STATES[8][0]) == DIGEST
  {
  }

  /** SHA-256 of "abc" is ba7816bf 8f01cfea 414140de 5dae2223 b00361a3 96177a9c b410ff61 f20015ad. */
  lemma AbcVector(i: nat)
    requires i < 8
    ensures |Hash(ABC)| == 32 && Word(Hash(ABC), i) == DIGEST[i]
  {
    hide Rounds, Sum, DigestOf, Pad, BLOCK, STATES, Word;
    Padded();
    AllRounds();
    OneBlock(H0, BLOCK);
    Summed();
    DigestReadsBack(DIGEST, i);
  }
}
