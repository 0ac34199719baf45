/**
 The known answer of FIPS 180-4 for the message "abc", worked out step by step.  It pins the digest, and with it the
 functions of section 4.1.2, to literal words.
 */
module Sha256Example {
  import opened Fips180
  import opened Sha256Context
  import opened Shared

  // Section 4.1.2 with the rotations written out

  lemma Rotations(x: bv32)
    ensures Rotr(x, 2) == (x >> 2) | (x << 30) && Rotr(x, 13) == (x >> 13) | (x << 19)
    ensures Rotr(x, 22) == (x >> 22) | (x << 10) && Rotr(x, 6) == (x >> 6) | (x << 26)
    ensures Rotr(x, 11) == (x >> 11) | (x << 21) && Rotr(x, 25) == (x >> 25) | (x << 7)
    ensures Rotr(x, 7) == (x >> 7) | (x << 25) && Rotr(x, 18) == (x >> 18) | (x << 14)
    ensures Rotr(x, 17) == (x >> 17) | (x << 15) && Rotr(x, 19) == (x >> 19) | (x << 13)
  {
  }

  lemma SectionFourKnownAnswers()
    ensures BigSigma0(0x6a09e667) == 0xce20b47e && BigSigma1(0x510e527f) == 0x3587272b
    ensures SmallSigma0(0x61626380) == 0x940e90ef && SmallSigma1(0x000f0000) == 0x600003c6
    ensures Ch(0x510e527f, 0x9b05688c, 0x1f83d9ab) == 0x1f85c98c
    ensures Maj(0x6a09e667, 0xbb67ae85, 0x3c6ef372) == 0x3a6fe667
  {
    hide Rotr;
    Rotations(0x6a09e667);
    Rotations(0x510e527f);
    Rotations(0x61626380);
    Rotations(0x000f0000);
  }

  /** Ch takes each bit from y where x has a one and from z where it has a zero. */
  lemma ChChooses(x: bv32, y: bv32, z: bv32)
    ensures x & Ch(x, y, z) == x & y && !x & Ch(x, y, z) == !x & z
  {
  }

  /** Maj takes each bit on which two of the three agree. */
  lemma MajAgrees(x: bv32, y: bv32, z: bv32)
    ensures Maj(x, y, z) == Maj(y, z, x) == Maj(y, x, z)
    ensures !(x ^ y) & Maj(x, y, z) == !(x ^ y) & x
  {
  }

  // The block

  const ABC: Bytes := [0x61, 0x62, 0x63]

  const ABC_BLOCK: Block := ABC + [0x80] + Zeros(52) + [0, 0, 0, 0, 0, 0, 0, 24]

  lemma PaddedAbc()
    ensures Pad(ABC) == ABC_BLOCK
  {
    assert BigEndian(24, 8) == [0, 0, 0, 0, 0, 0, 0, 24] by { LengthOfAbc(); }
    hide BigEndian;
    assert ZeroBytes(3) == 52;
  }

  lemma LengthOfAbc()
    ensures BigEndian(24, 8) == [0, 0, 0, 0, 0, 0, 0, 24]
  {
    hide LowByte, BigEndian;
    BigEndianOf64(24);
    LowBytes();
  }

  lemma LowBytes()
    ensures LowByte(0) == 0 && LowByte(24) == 24
  {
  }

  lemma OneBlock(b: Block)
    ensures Parse(b) == [b]
  {
    assert b[..64] == b && b[64..] == [];
  }

  // The schedule

  lemma NextWord(t: nat, w2: bv32, w7: bv32, w15: bv32, w16: bv32, w: bv32)
    requires 16 <= t < 64 && W(ABC_BLOCK, t - 2) == w2 && W(ABC_BLOCK, t - 7) == w7
    requires W(ABC_BLOCK, t - 15) == w15 && W(ABC_BLOCK, t - 16) == w16
    requires w == Plus(Plus(Plus(SmallSigma1(w2), w7), SmallSigma0(w15)), w16)
    ensures W(ABC_BLOCK, t) == w
  {
    hide Plus, W, SmallSigma0, SmallSigma1;
    ScheduleStep(ABC_BLOCK, t);
  }

  lemma FirstWords()
    ensures W(ABC_BLOCK, 0) == 0x61626380 && W(ABC_BLOCK, 15) == 24
    ensures forall t | 1 <= t < 15 :: W(ABC_BLOCK, t) == 0
  {
    hide W;
    forall t: nat | t < 16 ensures W(ABC_BLOCK, t) == WordAt(ABC_BLOCK, t) {
      ScheduleStep(ABC_BLOCK, t);
    }
  }

  lemma Words16()
    ensures W(ABC_BLOCK, 16) == 0x61626380 && W(ABC_BLOCK, 17) == 0x000f0000
    ensures W(ABC_BLOCK, 18) == 0x7da86405 && W(ABC_BLOCK, 19) == 0x600003c6
    ensures W(ABC_BLOCK, 20) == 0x3e9d7b78 && W(ABC_BLOCK, 21) == 0x0183fc00
    ensures W(ABC_BLOCK, 22) == 0x12dcbfdb && W(ABC_BLOCK, 23) == 0xe2e2c38e
  {
    hide W, Rotr;
    FirstWords();
    forall x { Rotations(x); }
    NextWord(16, 0x00000000, 0x00000000, 0x00000000, 0x61626380, 0x61626380);
    NextWord(17, 0x00000018, 0x00000000, 0x00000000, 0x00000000, 0x000f0000);
    NextWord(18, 0x61626380, 0x00000000, 0x00000000, 0x00000000, 0x7da86405);
    NextWord(19, 0x000f0000, 0x00000000, 0x00000000, 0x00000000, 0x600003c6);
    NextWord(20, 0x7da86405, 0x00000000, 0x00000000, 0x00000000, 0x3e9d7b78);
    NextWord(21, 0x600003c6, 0x00000000, 0x00000000, 0x00000000, 0x0183fc00);
    NextWord(22, 0x3e9d7b78, 0x00000018, 0x00000000, 0x00000000, 0x12dcbfdb);
    NextWord(23, 0x0183fc00, 0x61626380, 0x00000000, 0x00000000, 0xe2e2c38e);
  }

  lemma Words24()
    ensures W(ABC_BLOCK, 24) == 0xc8215c1a && W(ABC_BLOCK, 25) == 0xb73679a2
    ensures W(ABC_BLOCK, 26) == 0xe5bc3909 && W(ABC_BLOCK, 27) == 0x32663c5b
    ensures W(ABC_BLOCK, 28) == 0x9d209d67 && W(ABC_BLOCK, 29) == 0xec8726cb
    ensures W(ABC_BLOCK, 30) == 0x702138a4 && W(ABC_BLOCK, 31) == 0xd3b7973b
  {
    hide W, Rotr;
    FirstWords();
    Words16();
    forall x { Rotations(x); }
    NextWord(24, 0x12dcbfdb, 0x000f0000, 0x00000000, 0x00000000, 0xc8215c1a);
    NextWord(25, 0xe2e2c38e, 0x7da86405, 0x00000000, 0x00000000, 0xb73679a2);
    NextWord(26, 0xc8215c1a, 0x600003c6, 0x00000000, 0x00000000, 0xe5bc3909);
    NextWord(27, 0xb73679a2, 0x3e9d7b78, 0x00000000, 0x00000000, 0x32663c5b);
    NextWord(28, 0xe5bc3909, 0x0183fc00, 0x00000000, 0x00000000, 0x9d209d67);
    NextWord(29, 0x32663c5b, 0x12dcbfdb, 0x00000000, 0x00000000, 0xec8726cb);
    NextWord(30, 0x9d209d67, 0xe2e2c38e, 0x00000018, 0x00000000, 0x702138a4);
    NextWord(31, 0xec8726cb, 0xc8215c1a, 0x61626380, 0x00000018, 0xd3b7973b);
  }

  lemma Words32()
    ensures W(ABC_BLOCK, 32) == 0x93f5997f && W(ABC_BLOCK, 33) == 0x3b68ba73
    ensures W(ABC_BLOCK, 34) == 0xaff4ffc1 && W(ABC_BLOCK, 35) == 0xf10a5c62
    ensures W(ABC_BLOCK, 36) == 0x0a8b3996 && W(ABC_BLOCK, 37) == 0x72af830a
    ensures W(ABC_BLOCK, 38) == 0x9409e33e && W(ABC_BLOCK, 39) == 0x24641522
  {
    hide W, Rotr;
    Words16();
    Words24();
    forall x { Rotations(x); }
    NextWord(32, 0x702138a4, 0xb73679a2, 0x000f0000, 0x61626380, 0x93f5997f);
    NextWord(33, 0xd3b7973b, 0xe5bc3909, 0x7da86405, 0x000f0000, 0x3b68ba73);
    NextWord(34, 0x93f5997f, 0x32663c5b, 0x600003c6, 0x7da86405, 0xaff4ffc1);
    NextWord(35, 0x3b68ba73, 0x9d209d67, 0x3e9d7b78, 0x600003c6, 0xf10a5c62);
    NextWord(36, 0xaff4ffc1, 0xec8726cb, 0x0183fc00, 0x3e9d7b78, 0x0a8b3996);
    NextWord(37, 0xf10a5c62, 0x702138a4, 0x12dcbfdb, 0x0183fc00, 0x72af830a);
    NextWord(38, 0x0a8b3996, 0xd3b7973b, 0xe2e2c38e, 0x12dcbfdb, 0x9409e33e);
    NextWord(39, 0x72af830a, 0x93f5997f, 0xc8215c1a, 0xe2e2c38e, 0x24641522);
  }

  lemma Words40()
    ensures W(ABC_BLOCK, 40) == 0x9f47bf94 && W(ABC_BLOCK, 41) == 0xf0a64f5a
    ensures W(ABC_BLOCK, 42) == 0x3e246a79 && W(ABC_BLOCK, 43) == 0x27333ba3
    ensures W(ABC_BLOCK, 44) == 0x0c4763f2 && W(ABC_BLOCK, 45) == 0x840abf27
    ensures W(ABC_BLOCK, 46) == 0x7a290d5d && W(ABC_BLOCK, 47) == 0x065c43da
  {
    hide W, Rotr;
    Words24();
    Words32();
    forall x { Rotations(x); }
    NextWord(40, 0x9409e33e, 0x3b68ba73, 0xb73679a2, 0xc8215c1a, 0x9f47bf94);
    NextWord(41, 0x24641522, 0xaff4ffc1, 0xe5bc3909, 0xb73679a2, 0xf0a64f5a);
    NextWord(42, 0x9f47bf94, 0xf10a5c62, 0x32663c5b, 0xe5bc3909, 0x3e246a79);
    NextWord(43, 0xf0a64f5a, 0x0a8b3996, 0x9d209d67, 0x32663c5b, 0x27333ba3);
    NextWord(44, 0x3e246a79, 0x72af830a, 0xec8726cb, 0x9d209d67, 0x0c4763f2);
    NextWord(45, 0x27333ba3, 0x9409e33e, 0x702138a4, 0xec8726cb, 0x840abf27);
    NextWord(46, 0x0c4763f2, 0x24641522, 0xd3b7973b, 0x702138a4, 0x7a290d5d);
    NextWord(47, 0x840abf27, 0x9f47bf94, 0x93f5997f, 0xd3b7973b, 0x065c43da);
  }

  lemma Words48()
    ensures W(ABC_BLOCK, 48) == 0xfb3e89cb && W(ABC_BLOCK, 49) == 0xcc7617db
    ensures W(ABC_BLOCK, 50) == 0xb9e66c34 && W(ABC_BLOCK, 51) == 0xa9993667
    ensures W(ABC_BLOCK, 52) == 0x84badedd && W(ABC_BLOCK, 53) == 0xc21462bc
    ensures W(ABC_BLOCK, 54) == 0x1487472c && W(ABC_BLOCK, 55) == 0xb20f7a99
  {
    hide W, Rotr;
    Words32();
    Words40();
    forall x { Rotations(x); }
    NextWord(48, 0x7a290d5d, 0xf0a64f5a, 0x3b68ba73, 0x93f5997f, 0xfb3e89cb);
    NextWord(49, 0x065c43da, 0x3e246a79, 0xaff4ffc1, 0x3b68ba73, 0xcc7617db);
    NextWord(50, 0xfb3e89cb, 0x27333ba3, 0xf10a5c62, 0xaff4ffc1, 0xb9e66c34);
    NextWord(51, 0xcc7617db, 0x0c4763f2, 0x0a8b3996, 0xf10a5c62, 0xa9993667);
    NextWord(52, 0xb9e66c34, 0x840abf27, 0x72af830a, 0x0a8b3996, 0x84badedd);
    NextWord(53, 0xa9993667, 0x7a290d5d, 0x9409e33e, 0x72af830a, 0xc21462bc);
    NextWord(54, 0x84badedd, 0x065c43da, 0x24641522, 0x9409e33e, 0x1487472c);
    NextWord(55, 0xc21462bc, 0xfb3e89cb, 0x9f47bf94, 0x24641522, 0xb20f7a99);
  }

  lemma Words56()
    ensures W(ABC_BLOCK, 56) == 0xef57b9cd && W(ABC_BLOCK, 57) == 0xebe6b238
    ensures W(ABC_BLOCK, 58) == 0x9fe3095e && W(ABC_BLOCK, 59) == 0x78bc8d4b
    ensures W(ABC_BLOCK, 60) == 0xa43fcf15 && W(ABC_BLOCK, 61) == 0x668b2ff8
    ensures W(ABC_BLOCK, 62) == 0xeeaba2cc && W(ABC_BLOCK, 63) == 0x12b1edeb
  {
    hide W, Rotr;
    Words40();
    Words48();
    forall x { Rotations(x); }
    NextWord(56, 0x1487472c, 0xcc7617db, 0xf0a64f5a, 0x9f47bf94, 0xef57b9cd);
    NextWord(57, 0xb20f7a99, 0xb9e66c34, 0x3e246a79, 0xf0a64f5a, 0xebe6b238);
    NextWord(58, 0xef57b9cd, 0xa9993667, 0x27333ba3, 0x3e246a79, 0x9fe3095e);
    NextWord(59, 0xebe6b238, 0x84badedd, 0x0c4763f2, 0x27333ba3, 0x78bc8d4b);
    NextWord(60, 0x9fe3095e, 0xc21462bc, 0x840abf27, 0x0c4763f2, 0xa43fcf15);
    NextWord(61, 0x78bc8d4b, 0x1487472c, 0x7a290d5d, 0x840abf27, 0x668b2ff8);
    NextWord(62, 0xa43fcf15, 0xb20f7a99, 0x065c43da, 0x7a290d5d, 0xeeaba2cc);
    NextWord(63, 0x668b2ff8, 0xef57b9cd, 0xfb3e89cb, 0x065c43da, 0x12b1edeb);
  }

  // The sixty-four passes

  lemma Pass(t: nat, v: Working, k: bv32, w: bv32, a: bv32, e: bv32) returns (v': Working)
    requires t < 64 && Rounds(InitialHash(), ABC_BLOCK, t) == v && RoundConstant(t) == k && W(ABC_BLOCK, t) == w
    requires Round(v, k, w) == Working(a, v.a, v.b, v.c, e, v.e, v.f, v.g)
    ensures v' == Working(a, v.a, v.b, v.c, e, v.e, v.f, v.g) && Rounds(InitialHash(), ABC_BLOCK, t + 1) == v'
  {
    hide Rounds, Round, RoundConstant, W, InitialHash;
    v' := Round(v, k, w);
    RoundsStep(InitialHash(), ABC_BLOCK, t);
  }

  lemma WordRoundTrip(w: bv32)
    ensures (w as int) as bv32 == w
  {
  }

  lemma ConstantIs(t: nat, k: bv32)
    requires t < 64 && ROUND_CONSTANTS[t / 8][t % 8] == k as int
    ensures RoundConstant(t) == k
  {
    WordRoundTrip(k);
  }

  lemma Constants0()
    ensures RoundConstant(0) == 0x428a2f98 && RoundConstant(1) == 0x71374491
    ensures RoundConstant(2) == 0xb5c0fbcf && RoundConstant(3) == 0xe9b5dba5
    ensures RoundConstant(4) == 0x3956c25b && RoundConstant(5) == 0x59f111f1
    ensures RoundConstant(6) == 0x923f82a4 && RoundConstant(7) == 0xab1c5ed5
  {
    hide RoundConstant;
    ConstantIs(0, 0x428a2f98);
    ConstantIs(1, 0x71374491);
    ConstantIs(2, 0xb5c0fbcf);
    ConstantIs(3, 0xe9b5dba5);
    ConstantIs(4, 0x3956c25b);
    ConstantIs(5, 0x59f111f1);
    ConstantIs(6, 0x923f82a4);
    ConstantIs(7, 0xab1c5ed5);
  }

  lemma Constants8()
    ensures RoundConstant(8) == 0xd807aa98 && RoundConstant(9) == 0x12835b01
    ensures RoundConstant(10) == 0x243185be && RoundConstant(11) == 0x550c7dc3
    ensures RoundConstant(12) == 0x72be5d74 && RoundConstant(13) == 0x80deb1fe
    ensures RoundConstant(14) == 0x9bdc06a7 && RoundConstant(15) == 0xc19bf174
  {
    hide RoundConstant;
    ConstantIs(8, 0xd807aa98);
    ConstantIs(9, 0x12835b01);
    ConstantIs(10, 0x243185be);
    ConstantIs(11, 0x550c7dc3);
    ConstantIs(12, 0x72be5d74);
    ConstantIs(13, 0x80deb1fe);
    ConstantIs(14, 0x9bdc06a7);
    ConstantIs(15, 0xc19bf174);
  }

  lemma Constants16()
    ensures RoundConstant(16) == 0xe49b69c1 && RoundConstant(17) == 0xefbe4786
    ensures RoundConstant(18) == 0x0fc19dc6 && RoundConstant(19) == 0x240ca1cc
    ensures RoundConstant(20) == 0x2de92c6f && RoundConstant(21) == 0x4a7484aa
    ensures RoundConstant(22) == 0x5cb0a9dc && RoundConstant(23) == 0x76f988da
  {
    hide RoundConstant;
    ConstantIs(16, 0xe49b69c1);
    ConstantIs(17, 0xefbe4786);
    ConstantIs(18, 0x0fc19dc6);
    ConstantIs(19, 0x240ca1cc);
    ConstantIs(20, 0x2de92c6f);
    ConstantIs(21, 0x4a7484aa);
    ConstantIs(22, 0x5cb0a9dc);
    ConstantIs(23, 0x76f988da);
  }

  lemma Constants24()
    ensures RoundConstant(24) == 0x983e5152 && RoundConstant(25) == 0xa831c66d
    ensures RoundConstant(26) == 0xb00327c8 && RoundConstant(27) == 0xbf597fc7
    ensures RoundConstant(28) == 0xc6e00bf3 && RoundConstant(29) == 0xd5a79147
    ensures RoundConstant(30) == 0x06ca6351 && RoundConstant(31) == 0x14292967
  {
    hide RoundConstant;
    ConstantIs(24, 0x983e5152);
    ConstantIs(25, 0xa831c66d);
    ConstantIs(26, 0xb00327c8);
    ConstantIs(27, 0xbf597fc7);
    ConstantIs(28, 0xc6e00bf3);
    ConstantIs(29, 0xd5a79147);
    ConstantIs(30, 0x06ca6351);
    ConstantIs(31, 0x14292967);
  }

  lemma Constants32()
    ensures RoundConstant(32) == 0x27b70a85 && RoundConstant(33) == 0x2e1b2138
    ensures RoundConstant(34) == 0x4d2c6dfc && RoundConstant(35) == 0x53380d13
    ensures RoundConstant(36) == 0x650a7354 && RoundConstant(37) == 0x766a0abb
    ensures RoundConstant(38) == 0x81c2c92e && RoundConstant(39) == 0x92722c85
  {
    hide RoundConstant;
    ConstantIs(32, 0x27b70a85);
    ConstantIs(33, 0x2e1b2138);
    ConstantIs(34, 0x4d2c6dfc);
    ConstantIs(35, 0x53380d13);
    ConstantIs(36, 0x650a7354);
    ConstantIs(37, 0x766a0abb);
    ConstantIs(38, 0x81c2c92e);
    ConstantIs(39, 0x92722c85);
  }

  lemma Constants40()
    ensures RoundConstant(40) == 0xa2bfe8a1 && RoundConstant(41) == 0xa81a664b
    ensures RoundConstant(42) == 0xc24b8b70 && RoundConstant(43) == 0xc76c51a3
    ensures RoundConstant(44) == 0xd192e819 && RoundConstant(45) == 0xd6990624
    ensures RoundConstant(46) == 0xf40e3585 && RoundConstant(47) == 0x106aa070
  {
    hide RoundConstant;
    ConstantIs(40, 0xa2bfe8a1);
    ConstantIs(41, 0xa81a664b);
    ConstantIs(42, 0xc24b8b70);
    ConstantIs(43, 0xc76c51a3);
    ConstantIs(44, 0xd192e819);
    ConstantIs(45, 0xd6990624);
    ConstantIs(46, 0xf40e3585);
    ConstantIs(47, 0x106aa070);
  }

  lemma Constants48()
    ensures RoundConstant(48) == 0x19a4c116 && RoundConstant(49) == 0x1e376c08
    ensures RoundConstant(50) == 0x2748774c && RoundConstant(51) == 0x34b0bcb5
    ensures RoundConstant(52) == 0x391c0cb3 && RoundConstant(53) == 0x4ed8aa4a
    ensures RoundConstant(54) == 0x5b9cca4f && RoundConstant(55) == 0x682e6ff3
  {
    hide RoundConstant;
    ConstantIs(48, 0x19a4c116);
    ConstantIs(49, 0x1e376c08);
    ConstantIs(50, 0x2748774c);
    ConstantIs(51, 0x34b0bcb5);
    ConstantIs(52, 0x391c0cb3);
    ConstantIs(53, 0x4ed8aa4a);
    ConstantIs(54, 0x5b9cca4f);
    ConstantIs(55, 0x682e6ff3);
  }

  lemma Constants56()
    ensures RoundConstant(56) == 0x748f82ee && RoundConstant(57) == 0x78a5636f
    ensures RoundConstant(58) == 0x84c87814 && RoundConstant(59) == 0x8cc70208
    ensures RoundConstant(60) == 0x90befffa && RoundConstant(61) == 0xa4506ceb
    ensures RoundConstant(62) == 0xbef9a3f7 && RoundConstant(63) == 0xc67178f2
  {
    hide RoundConstant;
    ConstantIs(56, 0x748f82ee);
    ConstantIs(57, 0x78a5636f);
    ConstantIs(58, 0x84c87814);
    ConstantIs(59, 0x8cc70208);
    ConstantIs(60, 0x90befffa);
    ConstantIs(61, 0xa4506ceb);
    ConstantIs(62, 0xbef9a3f7);
    ConstantIs(63, 0xc67178f2);
  }

  lemma InitialIs(i: nat, h: bv32)
    requires i < 8 && INITIAL_WORDS[i] == h as int
    ensures InitialHash()[i] == h
  {
    WordRoundTrip(h);
  }

  lemma InitialHashIs()
    ensures InitialHash() == [
      0x6a09e667, 0xbb67ae85, 0x3c6ef372, 0xa54ff53a,
      0x510e527f, 0x9b05688c, 0x1f83d9ab, 0x5be0cd19]
  {
    hide InitialHash;
    InitialIs(0, 0x6a09e667);
    InitialIs(1, 0xbb67ae85);
    InitialIs(2, 0x3c6ef372);
    InitialIs(3, 0xa54ff53a);
    InitialIs(4, 0x510e527f);
    InitialIs(5, 0x9b05688c);
    InitialIs(6, 0x1f83d9ab);
    InitialIs(7, 0x5be0cd19);
  }

  lemma PassesBegin()
    ensures Rounds(InitialHash(), ABC_BLOCK, 0) == Working(
              0x6a09e667, 0xbb67ae85, 0x3c6ef372, 0xa54ff53a,
              0x510e527f, 0x9b05688c, 0x1f83d9ab, 0x5be0cd19)
  {
    InitialHashIs();
    hide InitialHash, Rounds;
    RoundsAtZero(InitialHash(), ABC_BLOCK);
  }

  lemma Passes8()
    ensures Rounds(InitialHash(), ABC_BLOCK, 8) == Working(
              0x85a07b5f, 0xe5030380, 0x2b4209f5, 0x04409a6a,
              0x0c657a79, 0x9b27a401, 0x714260ad, 0x43ada245)
  {
    hide W, Rounds, InitialHash, RoundConstant, Rotr;
    PassesBegin();
    FirstWords();
    Constants0();
    forall x { Rotations(x); }
    var v := Working(
              0x6a09e667, 0xbb67ae85, 0x3c6ef372, 0xa54ff53a,
              0x510e527f, 0x9b05688c, 0x1f83d9ab, 0x5be0cd19);
    v := Pass(0, v, 0x428a2f98, 0x61626380, 0x5d6aebcd, 0xfa2a4622);
    v := Pass(1, v, 0x71374491, 0x00000000, 0x5a6ad9ad, 0x78ce7989);
    v := Pass(2, v, 0xb5c0fbcf, 0x00000000, 0xc8c347a7, 0xf92939eb);
    v := Pass(3, v, 0xe9b5dba5, 0x00000000, 0xd550f666, 0x24e00850);
    v := Pass(4, v, 0x3956c25b, 0x00000000, 0x04409a6a, 0x43ada245);
    v := Pass(5, v, 0x59f111f1, 0x00000000, 0x2b4209f5, 0x714260ad);
    v := Pass(6, v, 0x923f82a4, 0x00000000, 0xe5030380, 0x9b27a401);
    v := Pass(7, v, 0xab1c5ed5, 0x00000000, 0x85a07b5f, 0x0c657a79);
  }

  lemma Passes16()
    ensures Rounds(InitialHash(), ABC_BLOCK, 16) == Working(
              0xb0fa238e, 0xc0645fde, 0xd932eb16, 0x87912990,
              0x07590dcd, 0x0b92f20c, 0x745a48de, 0x1e578218)
  {
    hide W, Rounds, InitialHash, RoundConstant, Rotr;
    Passes8();
    FirstWords();
    Constants8();
    forall x { Rotations(x); }
    var v := Working(
              0x85a07b5f, 0xe5030380, 0x2b4209f5, 0x04409a6a,
              0x0c657a79, 0x9b27a401, 0x714260ad, 0x43ada245);
    v := Pass(8, v, 0xd807aa98, 0x00000000, 0x8e04ecb9, 0x32ca2d8c);
    v := Pass(9, v, 0x12835b01, 0x00000000, 0x8c87346b, 0x1cc92596);
    v := Pass(10, v, 0x243185be, 0x00000000, 0x4798a3f4, 0x436b23e8);
    v := Pass(11, v, 0x550c7dc3, 0x00000000, 0xf71fc5a9, 0x816fd6e9);
    v := Pass(12, v, 0x72be5d74, 0x00000000, 0x87912990, 0x1e578218);
    v := Pass(13, v, 0x80deb1fe, 0x00000000, 0xd932eb16, 0x745a48de);
    v := Pass(14, v, 0x9bdc06a7, 0x00000000, 0xc0645fde, 0x0b92f20c);
    v := Pass(15, v, 0xc19bf174, 0x00000018, 0xb0fa238e, 0x07590dcd);
  }

  lemma Passes24()
    ensures Rounds(InitialHash(), ABC_BLOCK, 24) == Working(
              0xc5d53d8d, 0xa7a3623f, 0xc2606d6d, 0x9dc68b63,
              0xaa47c347, 0x49f5114a, 0xe1257970, 0x8ada8930)
  {
    hide W, Rounds, InitialHash, RoundConstant, Rotr;
    Passes16();
    Words16();
    Constants16();
    forall x { Rotations(x); }
    var v := Working(
              0xb0fa238e, 0xc0645fde, 0xd932eb16, 0x87912990,
              0x07590dcd, 0x0b92f20c, 0x745a48de, 0x1e578218);
    v := Pass(16, v, 0xe49b69c1, 0x61626380, 0x21da9a9b, 0x8034229c);
    v := Pass(17, v, 0xefbe4786, 0x000f0000, 0xc2fbd9d1, 0x846ee454);
    v := Pass(18, v, 0x0fc19dc6, 0x7da86405, 0xfe777bbf, 0xcc899961);
    v := Pass(19, v, 0x240ca1cc, 0x600003c6, 0xe1f20c33, 0xb0638179);
    v := Pass(20, v, 0x2de92c6f, 0x3e9d7b78, 0x9dc68b63, 0x8ada8930);
    v := Pass(21, v, 0x4a7484aa, 0x0183fc00, 0xc2606d6d, 0xe1257970);
    v := Pass(22, v, 0x5cb0a9dc, 0x12dcbfdb, 0xa7a3623f, 0x49f5114a);
    v := Pass(23, v, 0x76f988da, 0xe2e2c38e, 0xc5d53d8d, 0xaa47c347);
  }

  lemma Passes32()
    ensures Rounds(InitialHash(), ABC_BLOCK, 32) == Working(
              0x73b33bf5, 0xea992a22, 0xa0060b30, 0x363482c9,
              0xba591112, 0x0109ab3a, 0xade79437, 0x6112a3b7)
  {
    hide W, Rounds, InitialHash, RoundConstant, Rotr;
    Passes24();
    Words24();
    Constants24();
    forall x { Rotations(x); }
    var v := Working(
              0xc5d53d8d, 0xa7a3623f, 0xc2606d6d, 0x9dc68b63,
              0xaa47c347, 0x49f5114a, 0xe1257970, 0x8ada8930);
    v := Pass(24, v, 0x983e5152, 0xc8215c1a, 0x1c2c2838, 0x2823ef91);
    v := Pass(25, v, 0xa831c66d, 0xb73679a2, 0xcde8037d, 0x14383d8e);
    v := Pass(26, v, 0xb00327c8, 0xe5bc3909, 0xb62ec4bc, 0xc74c6516);
    v := Pass(27, v, 0xbf597fc7, 0x32663c5b, 0x77d37528, 0xedffbff8);
    v := Pass(28, v, 0xc6e00bf3, 0x9d209d67, 0x363482c9, 0x6112a3b7);
    v := Pass(29, v, 0xd5a79147, 0xec8726cb, 0xa0060b30, 0xade79437);
    v := Pass(30, v, 0x06ca6351, 0x702138a4, 0xea992a22, 0x0109ab3a);
    v := Pass(31, v, 0x14292967, 0xd3b7973b, 0x73b33bf5, 0xba591112);
  }

  lemma Passes40()
    ensures Rounds(InitialHash(), ABC_BLOCK, 40) == Working(
              0x79ea687a, 0x6dc57a8a, 0x34df1604, 0x41a65cb1,
              0x1efbc0a0, 0xf0781bc8, 0xa507a53d, 0x0772a26b)
  {
    hide W, Rounds, InitialHash, RoundConstant, Rotr;
    Passes32();
    Words32();
    Constants32();
    forall x { Rotations(x); }
    var v := Working(
              0x73b33bf5, 0xea992a22, 0xa0060b30, 0x363482c9,
              0xba591112, 0x0109ab3a, 0xade79437, 0x6112a3b7);
    v := Pass(32, v, 0x27b70a85, 0x93f5997f, 0x98e12507, 0x9cd9f5f6);
    v := Pass(33, v, 0x2e1b2138, 0x3b68ba73, 0xfe604df5, 0x59249dd3);
    v := Pass(34, v, 0x4d2c6dfc, 0xaff4ffc1, 0xa9a7738c, 0x085f3833);
    v := Pass(35, v, 0x53380d13, 0xf10a5c62, 0x65a0cfe4, 0xf4b002d6);
    v := Pass(36, v, 0x650a7354, 0x0a8b3996, 0x41a65cb1, 0x0772a26b);
    v := Pass(37, v, 0x766a0abb, 0x72af830a, 0x34df1604, 0xa507a53d);
    v := Pass(38, v, 0x81c2c92e, 0x9409e33e, 0x6dc57a8a, 0xf0781bc8);
    v := Pass(39, v, 0x92722c85, 0x24641522, 0x79ea687a, 0x1efbc0a0);
  }

  lemma Passes48()
    ensures Rounds(InitialHash(), ABC_BLOCK, 48) == Working(
              0x4172328d, 0xa14c14b0, 0x72ab4b91, 0x26628815,
              0xfecf0bc6, 0xd57b94a9, 0xb7755da1, 0xa80f11f0)
  {
    hide W, Rounds, InitialHash, RoundConstant, Rotr;
    Passes40();
    Words40();
    Constants40();
    forall x { Rotations(x); }
    var v := Working(
              0x79ea687a, 0x6dc57a8a, 0x34df1604, 0x41a65cb1,
              0x1efbc0a0, 0xf0781bc8, 0xa507a53d, 0x0772a26b);
    v := Pass(40, v, 0xa2bfe8a1, 0x9f47bf94, 0xd6670766, 0x26352d63);
    v := Pass(41, v, 0xa81a664b, 0xf0a64f5a, 0xdf46652f, 0x838b2711);
    v := Pass(42, v, 0xc24b8b70, 0x3e246a79, 0x17aa0dfe, 0xdecd4715);
    v := Pass(43, v, 0xc76c51a3, 0x27333ba3, 0x9d4baf93, 0xfda24c2e);
    v := Pass(44, v, 0xd192e819, 0x0c4763f2, 0x26628815, 0xa80f11f0);
    v := Pass(45, v, 0xd6990624, 0x840abf27, 0x72ab4b91, 0xb7755da1);
    v := Pass(46, v, 0xf40e3585, 0x7a290d5d, 0xa14c14b0, 0xd57b94a9);
    v := Pass(47, v, 0x106aa070, 0x065c43da, 0x4172328d, 0xfecf0bc6);
  }

  lemma Passes56()
    ensures Rounds(InitialHash(), ABC_BLOCK, 56) == Working(
              0x38cc9913, 0x3ec45cdb, 0xf5702fdb, 0x101fd28f,
              0x54cb266b, 0xe50e1b4f, 0x9f4787c3, 0x529e7d00)
  {
    hide W, Rounds, InitialHash, RoundConstant, Rotr;
    Passes48();
    Words48();
    Constants48();
    forall x { Rotations(x); }
    var v := Working(
              0x4172328d, 0xa14c14b0, 0x72ab4b91, 0x26628815,
              0xfecf0bc6, 0xd57b94a9, 0xb7755da1, 0xa80f11f0);
    v := Pass(48, v, 0x19a4c116, 0xfb3e89cb, 0x05757ceb, 0xbd714038);
    v := Pass(49, v, 0x1e376c08, 0xcc7617db, 0xf11bfaa8, 0x6e5c390c);
    v := Pass(50, v, 0x2748774c, 0xb9e66c34, 0x7a0508a1, 0x52f1ccf7);
    v := Pass(51, v, 0x34b0bcb5, 0xa9993667, 0x886e7a22, 0x49231c1e);
    v := Pass(52, v, 0x391c0cb3, 0x84badedd, 0x101fd28f, 0x529e7d00);
    v := Pass(53, v, 0x4ed8aa4a, 0xc21462bc, 0xf5702fdb, 0x9f4787c3);
    v := Pass(54, v, 0x5b9cca4f, 0x1487472c, 0x3ec45cdb, 0xe50e1b4f);
    v := Pass(55, v, 0x682e6ff3, 0xb20f7a99, 0x38cc9913, 0x54cb266b);
  }

  lemma Passes64()
    ensures Rounds(InitialHash(), ABC_BLOCK, 64) == Working(
              0x506e3058, 0xd39a2165, 0x04d24d6c, 0xb85e2ce9,
              0x5ef50f24, 0xfb121210, 0x948d25b6, 0x961f4894)
  {
    hide W, Rounds, InitialHash, RoundConstant, Rotr;
    Passes56();
    Words56();
    Constants56();
    forall x { Rotations(x); }
    var v := Working(
              0x38cc9913, 0x3ec45cdb, 0xf5702fdb, 0x101fd28f,
              0x54cb266b, 0xe50e1b4f, 0x9f4787c3, 0x529e7d00);
    v := Pass(56, v, 0x748f82ee, 0xef57b9cd, 0xfcd1887b, 0x9b5e906c);
    v := Pass(57, v, 0x78a5636f, 0xebe6b238, 0xc062d46f, 0x7e44008e);
    v := Pass(58, v, 0x84c87814, 0x9fe3095e, 0xffb70472, 0x6d83bfc6);
    v := Pass(59, v, 0x8cc70208, 0x78bc8d4b, 0xb6ae8fff, 0xb21bad3d);
    v := Pass(60, v, 0x90befffa, 0xa43fcf15, 0xb85e2ce9, 0x961f4894);
    v := Pass(61, v, 0xa4506ceb, 0x668b2ff8, 0x04d24d6c, 0x948d25b6);
    v := Pass(62, v, 0xbef9a3f7, 0xeeaba2cc, 0xd39a2165, 0xfb121210);
    v := Pass(63, v, 0xc67178f2, 0x12b1edeb, 0x506e3058, 0x5ef50f24);
  }

  lemma HashOfBlock()
    ensures HashBlocks([ABC_BLOCK]) == [
      0xba7816bf, 0x8f01cfea, 0x414140de, 0x5dae2223,
      0xb00361a3, 0x96177a9c, 0xb410ff61, 0xf20015ad]
  {
    hide Rounds, InitialHash;
    InitialHashIs();
    Passes64();
    CompressIs(InitialHash(), ABC_BLOCK);
    assert [ABC_BLOCK][..0] == [];
  }

  lemma {:induction false} BytesUpTo(h: Words, n: nat)
    requires n < |h|
    ensures WordsBytes(h[..n + 1]) == WordsBytes(h[..n]) + WordBytes(h[n])
  {
    hide WordBytes;
    assert h[..n + 1][..n] == h[..n];
  }

  lemma FourWords(h: Words)
    requires |h| >= 4
    ensures WordsBytes(h[..4]) == WordBytes(h[0]) + WordBytes(h[1]) + WordBytes(h[2]) + WordBytes(h[3])
  {
    assert WordsBytes(h[..0]) == [];
    hide WordsBytes, WordBytes;
    BytesUpTo(h, 0);
    BytesUpTo(h, 1);
    BytesUpTo(h, 2);
    BytesUpTo(h, 3);
  }

  lemma EightWords(h: Words)
    requires |h| == 8
    ensures WordsBytes(h) ==
            WordBytes(h[0]) + WordBytes(h[1]) + WordBytes(h[2]) + WordBytes(h[3]) +
            WordBytes(h[4]) + WordBytes(h[5]) + WordBytes(h[6]) + WordBytes(h[7])
  {
    hide WordsBytes, WordBytes;
    FourWords(h);
    BytesUpTo(h, 4);
    BytesUpTo(h, 5);
    BytesUpTo(h, 6);
    BytesUpTo(h, 7);
    assert h[..8] == h;
  }

  lemma DigestBytes()
    ensures
      && WordBytes(0xba7816bf) == [0xba, 0x78, 0x16, 0xbf]
      && WordBytes(0x8f01cfea) == [0x8f, 0x01, 0xcf, 0xea]
      && WordBytes(0x414140de) == [0x41, 0x41, 0x40, 0xde]
      && WordBytes(0x5dae2223) == [0x5d, 0xae, 0x22, 0x23]
      && WordBytes(0xb00361a3) == [0xb0, 0x03, 0x61, 0xa3]
      && WordBytes(0x96177a9c) == [0x96, 0x17, 0x7a, 0x9c]
      && WordBytes(0xb410ff61) == [0xb4, 0x10, 0xff, 0x61]
      && WordBytes(0xf20015ad) == [0xf2, 0x00, 0x15, 0xad]
  {
  }

  /** The digest of "abc". */
  lemma DigestOfAbc()
    ensures Sha256(ABC) == [
      0xba, 0x78, 0x16, 0xbf, 0x8f, 0x01, 0xcf, 0xea, 0x41, 0x41, 0x40, 0xde, 0x5d, 0xae, 0x22, 0x23,
      0xb0, 0x03, 0x61, 0xa3, 0x96, 0x17, 0x7a, 0x9c, 0xb4, 0x10, 0xff, 0x61, 0xf2, 0x00, 0x15, 0xad]
  {
    hide HashBlocks, Parse, Pad, WordsBytes, WordBytes;
    EightWords(HashBlocks([ABC_BLOCK]));
    DigestBytes();
    PaddedAbc();
    OneBlock(ABC_BLOCK);
    HashOfBlock();
  }
}
