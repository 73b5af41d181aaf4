/**
  The digest of the three letters `abc`, worked through word by word and round by round.
 */
module FipsExample {
  import opened Fips180

  function Abc(): seq<Byte> { [0x61, 0x62, 0x63] }

  // ----- the padded message is one block

  lemma Length24()
    ensures BigEndian(24, 8) == [0, 0, 0, 0, 0, 0, 0, 0x18]
  {
    assert BigEndian(0, 7) == [0, 0, 0, 0, 0, 0, 0] by {
      assert BigEndian(0, 3) == [0, 0, 0];
      assert BigEndian(0, 5) == [0, 0, 0, 0, 0];
    }
  }

  ghost predicate IsAbcBlock(block: seq<Byte>) {
    && |block| == BLOCK && block[0] == 0x61 && block[1] == 0x62 && block[2] == 0x63 && block[3] == 0x80
    && (forall k :: 4 <= k < 63 ==> block[k] == 0) && block[63] == 0x18
  }

  lemma AbcPadded()
    ensures IsAbcBlock(Pad(Abc())) && |Pad(Abc())| == BLOCK
  {
    Length24();
    hide BigEndian;
    var p := Pad(Abc());
    assert ZeroCount(3) == 52;
    assert |p| == 64 && p[..56] == Abc() + [0x80] + Zeros(52) && p[56..] == BigEndian(24, 8);
    forall k | 4 <= k < 63 ensures p[k] == 0 {
      if k < 56 { assert p[k] == p[..56][k]; } else { assert p[k] == p[56..][k - 56]; }
    }
    assert p[63] == p[56..][7];
  }

  // ----- the message schedule

  lemma FirstWords(block: seq<Byte>, t: nat)
    requires IsAbcBlock(block) && t < 16
    ensures W(block, t) == if t == 0 then 0x61626380 else if t < 15 then 0 else 0x00000018
  {
    if 0 < t < 15 {
      assert block[4 * t] == 0 && block[4 * t + 1] == 0 && block[4 * t + 2] == 0 && block[4 * t + 3] == 0;
    }
  }

  /** The recurrence on known words. */
  lemma NextWord(block: seq<Byte>, t: nat, w2: Word, w7: Word, w15: Word, w16: Word, w: Word)
    requires |block| == BLOCK && 16 <= t < 64
    requires W(block, t - 2) == w2 && W(block, t - 7) == w7 && W(block, t - 15) == w15 && W(block, t - 16) == w16
    requires Plus(Plus(Plus(SmallSigma1(w2), w7), SmallSigma0(w15)), w16) == w
    ensures W(block, t) == w
  {
  }

  lemma Schedule0(block: seq<Byte>)
    requires IsAbcBlock(block)
    ensures W(block, 0) == 0x61626380 && W(block, 1) == 0x00000000 && W(block, 2) == 0x00000000 && W(block, 3) == 0x00000000
    ensures W(block, 4) == 0x00000000 && W(block, 5) == 0x00000000 && W(block, 6) == 0x00000000 && W(block, 7) == 0x00000000
  {
    hide W, IsAbcBlock;
    FirstWords(block, 0);
    FirstWords(block, 1);
    FirstWords(block, 2);
    FirstWords(block, 3);
    FirstWords(block, 4);
    FirstWords(block, 5);
    FirstWords(block, 6);
    FirstWords(block, 7);
  }

  lemma Schedule1(block: seq<Byte>)
    requires IsAbcBlock(block)
    ensures W(block, 8) == 0x00000000 && W(block, 9) == 0x00000000 && W(block, 10) == 0x00000000 && W(block, 11) == 0x00000000
    ensures W(block, 12) == 0x00000000 && W(block, 13) == 0x00000000 && W(block, 14) == 0x00000000 && W(block, 15) == 0x00000018
  {
    hide W, IsAbcBlock;
    FirstWords(block, 8);
    FirstWords(block, 9);
    FirstWords(block, 10);
    FirstWords(block, 11);
    FirstWords(block, 12);
    FirstWords(block, 13);
    FirstWords(block, 14);
    FirstWords(block, 15);
  }

  lemma Schedule2(block: seq<Byte>)
    requires IsAbcBlock(block)
    ensures W(block, 16) == 0x61626380 && W(block, 17) == 0x000f0000 && W(block, 18) == 0x7da86405 && W(block, 19) == 0x600003c6
    ensures W(block, 20) == 0x3e9d7b78 && W(block, 21) == 0x0183fc00 && W(block, 22) == 0x12dcbfdb && W(block, 23) == 0xe2e2c38e
  {
    Schedule1(block);
    Schedule0(block);
    hide W;
    NextWord(block, 16, 0x00000000, 0x00000000, 0x00000000, 0x61626380, 0x61626380);
    NextWord(block, 17, 0x00000018, 0x00000000, 0x00000000, 0x00000000, 0x000f0000);
    NextWord(block, 18, 0x61626380, 0x00000000, 0x00000000, 0x00000000, 0x7da86405);
    NextWord(block, 19, 0x000f0000, 0x00000000, 0x00000000, 0x00000000, 0x600003c6);
    NextWord(block, 20, 0x7da86405, 0x00000000, 0x00000000, 0x00000000, 0x3e9d7b78);
    NextWord(block, 21, 0x600003c6, 0x00000000, 0x00000000, 0x00000000, 0x0183fc00);
    NextWord(block, 22, 0x3e9d7b78, 0x00000018, 0x00000000, 0x00000000, 0x12dcbfdb);
    NextWord(block, 23, 0x0183fc00, 0x61626380, 0x00000000, 0x00000000, 0xe2e2c38e);
  }

  lemma Schedule3(block: seq<Byte>)
    requires IsAbcBlock(block)
    ensures W(block, 24) == 0xc8215c1a && W(block, 25) == 0xb73679a2 && W(block, 26) == 0xe5bc3909 && W(block, 27) == 0x32663c5b
    ensures W(block, 28) == 0x9d209d67 && W(block, 29) == 0xec8726cb && W(block, 30) == 0x702138a4 && W(block, 31) == 0xd3b7973b
  {
    Schedule2(block);
    Schedule1(block);
    hide W;
    NextWord(block, 24, 0x12dcbfdb, 0x000f0000, 0x00000000, 0x00000000, 0xc8215c1a);
    NextWord(block, 25, 0xe2e2c38e, 0x7da86405, 0x00000000, 0x00000000, 0xb73679a2);
    NextWord(block, 26, 0xc8215c1a, 0x600003c6, 0x00000000, 0x00000000, 0xe5bc3909);
    NextWord(block, 27, 0xb73679a2, 0x3e9d7b78, 0x00000000, 0x00000000, 0x32663c5b);
    NextWord(block, 28, 0xe5bc3909, 0x0183fc00, 0x00000000, 0x00000000, 0x9d209d67);
    NextWord(block, 29, 0x32663c5b, 0x12dcbfdb, 0x00000000, 0x00000000, 0xec8726cb);
    NextWord(block, 30, 0x9d209d67, 0xe2e2c38e, 0x00000018, 0x00000000, 0x702138a4);
    NextWord(block, 31, 0xec8726cb, 0xc8215c1a, 0x61626380, 0x00000018, 0xd3b7973b);
  }

  lemma Schedule4(block: seq<Byte>)
    requires IsAbcBlock(block)
    ensures W(block, 32) == 0x93f5997f && W(block, 33) == 0x3b68ba73 && W(block, 34) == 0xaff4ffc1 && W(block, 35) == 0xf10a5c62
    ensures W(block, 36) == 0x0a8b3996 && W(block, 37) == 0x72af830a && W(block, 38) == 0x9409e33e && W(block, 39) == 0x24641522
  {
    Schedule3(block);
    Schedule2(block);
    hide W;
    NextWord(block, 32, 0x702138a4, 0xb73679a2, 0x000f0000, 0x61626380, 0x93f5997f);
    NextWord(block, 33, 0xd3b7973b, 0xe5bc3909, 0x7da86405, 0x000f0000, 0x3b68ba73);
    NextWord(block, 34, 0x93f5997f, 0x32663c5b, 0x600003c6, 0x7da86405, 0xaff4ffc1);
    NextWord(block, 35, 0x3b68ba73, 0x9d209d67, 0x3e9d7b78, 0x600003c6, 0xf10a5c62);
    NextWord(block, 36, 0xaff4ffc1, 0xec8726cb, 0x0183fc00, 0x3e9d7b78, 0x0a8b3996);
    NextWord(block, 37, 0xf10a5c62, 0x702138a4, 0x12dcbfdb, 0x0183fc00, 0x72af830a);
    NextWord(block, 38, 0x0a8b3996, 0xd3b7973b, 0xe2e2c38e, 0x12dcbfdb, 0x9409e33e);
    NextWord(block, 39, 0x72af830a, 0x93f5997f, 0xc8215c1a, 0xe2e2c38e, 0x24641522);
  }

  lemma Schedule5(block: seq<Byte>)
    requires IsAbcBlock(block)
    ensures W(block, 40) == 0x9f47bf94 && W(block, 41) == 0xf0a64f5a && W(block, 42) == 0x3e246a79 && W(block, 43) == 0x27333ba3
    ensures W(block, 44) == 0x0c4763f2 && W(block, 45) == 0x840abf27 && W(block, 46) == 0x7a290d5d && W(block, 47) == 0x065c43da
  {
    Schedule4(block);
    Schedule3(block);
    hide W;
    NextWord(block, 40, 0x9409e33e, 0x3b68ba73, 0xb73679a2, 0xc8215c1a, 0x9f47bf94);
    NextWord(block, 41, 0x24641522, 0xaff4ffc1, 0xe5bc3909, 0xb73679a2, 0xf0a64f5a);
    NextWord(block, 42, 0x9f47bf94, 0xf10a5c62, 0x32663c5b, 0xe5bc3909, 0x3e246a79);
    NextWord(block, 43, 0xf0a64f5a, 0x0a8b3996, 0x9d209d67, 0x32663c5b, 0x27333ba3);
    NextWord(block, 44, 0x3e246a79, 0x72af830a, 0xec8726cb, 0x9d209d67, 0x0c4763f2);
    NextWord(block, 45, 0x27333ba3, 0x9409e33e, 0x702138a4, 0xec8726cb, 0x840abf27);
    NextWord(block, 46, 0x0c4763f2, 0x24641522, 0xd3b7973b, 0x702138a4, 0x7a290d5d);
    NextWord(block, 47, 0x840abf27, 0x9f47bf94, 0x93f5997f, 0xd3b7973b, 0x065c43da);
  }

  lemma Schedule6(block: seq<Byte>)
    requires IsAbcBlock(block)
    ensures W(block, 48) == 0xfb3e89cb && W(block, 49) == 0xcc7617db && W(block, 50) == 0xb9e66c34 && W(block, 51) == 0xa9993667
    ensures W(block, 52) == 0x84badedd && W(block, 53) == 0xc21462bc && W(block, 54) == 0x1487472c && W(block, 55) == 0xb20f7a99
  {
    Schedule5(block);
    Schedule4(block);
    hide W;
    NextWord(block, 48, 0x7a290d5d, 0xf0a64f5a, 0x3b68ba73, 0x93f5997f, 0xfb3e89cb);
    NextWord(block, 49, 0x065c43da, 0x3e246a79, 0xaff4ffc1, 0x3b68ba73, 0xcc7617db);
    NextWord(block, 50, 0xfb3e89cb, 0x27333ba3, 0xf10a5c62, 0xaff4ffc1, 0xb9e66c34);
    NextWord(block, 51, 0xcc7617db, 0x0c4763f2, 0x0a8b3996, 0xf10a5c62, 0xa9993667);
    NextWord(block, 52, 0xb9e66c34, 0x840abf27, 0x72af830a, 0x0a8b3996, 0x84badedd);
    NextWord(block, 53, 0xa9993667, 0x7a290d5d, 0x9409e33e, 0x72af830a, 0xc21462bc);
    NextWord(block, 54, 0x84badedd, 0x065c43da, 0x24641522, 0x9409e33e, 0x1487472c);
    NextWord(block, 55, 0xc21462bc, 0xfb3e89cb, 0x9f47bf94, 0x24641522, 0xb20f7a99);
  }

  lemma Schedule7(block: seq<Byte>)
    requires IsAbcBlock(block)
    ensures W(block, 56) == 0xef57b9cd && W(block, 57) == 0xebe6b238 && W(block, 58) == 0x9fe3095e && W(block, 59) == 0x78bc8d4b
    ensures W(block, 60) == 0xa43fcf15 && W(block, 61) == 0x668b2ff8 && W(block, 62) == 0xeeaba2cc && W(block, 63) == 0x12b1edeb
  {
    Schedule6(block);
    Schedule5(block);
    hide W;
    NextWord(block, 56, 0x1487472c, 0xcc7617db, 0xf0a64f5a, 0x9f47bf94, 0xef57b9cd);
    NextWord(block, 57, 0xb20f7a99, 0xb9e66c34, 0x3e246a79, 0xf0a64f5a, 0xebe6b238);
    NextWord(block, 58, 0xef57b9cd, 0xa9993667, 0x27333ba3, 0x3e246a79, 0x9fe3095e);
    NextWord(block, 59, 0xebe6b238, 0x84badedd, 0x0c4763f2, 0x27333ba3, 0x78bc8d4b);
    NextWord(block, 60, 0x9fe3095e, 0xc21462bc, 0x840abf27, 0x0c4763f2, 0xa43fcf15);
    NextWord(block, 61, 0x78bc8d4b, 0x1487472c, 0x7a290d5d, 0x840abf27, 0x668b2ff8);
    NextWord(block, 62, 0xa43fcf15, 0xb20f7a99, 0x065c43da, 0x7a290d5d, 0xeeaba2cc);
    NextWord(block, 63, 0x668b2ff8, 0xef57b9cd, 0xfb3e89cb, 0x065c43da, 0x12b1edeb);
  }

  // ----- the rounds

  lemma KIs(i: nat, j: nat)
    requires i < 8 && j < 8
    ensures K()[8 * i + j] == KRow(i)[j]
  {
    hide KRow;
    assert (8 * i + j) / 8 == i && (8 * i + j) % 8 == j;
  }

  lemma NextRound(block: seq<Byte>, t: nat, i: nat, j: nat, v: Working, w: Word, v': Working)
    requires |block| == BLOCK && i < 8 && j < 8 && t == 8 * i + j && Rounds(H0(), block, t) == v
    requires W(block, t) == w && Round(v, KRow(i)[j], w) == v'
    ensures Rounds(H0(), block, t + 1) == v'
  {
    KIs(i, j);
    hide Round, KRow, W, K;
  }

  lemma Values0()
    ensures Round(Working(0x6a09e667, 0xbb67ae85, 0x3c6ef372, 0xa54ff53a, 0x510e527f, 0x9b05688c, 0x1f83d9ab, 0x5be0cd19),
                  KRow(0)[0], 0x61626380) ==
            Working(0x5d6aebcd, 0x6a09e667, 0xbb67ae85, 0x3c6ef372, 0xfa2a4622, 0x510e527f, 0x9b05688c, 0x1f83d9ab)
    ensures Round(Working(0x5d6aebcd, 0x6a09e667, 0xbb67ae85, 0x3c6ef372, 0xfa2a4622, 0x510e527f, 0x9b05688c, 0x1f83d9ab),
                  KRow(0)[1], 0x00000000) ==
            Working(0x5a6ad9ad, 0x5d6aebcd, 0x6a09e667, 0xbb67ae85, 0x78ce7989, 0xfa2a4622, 0x510e527f, 0x9b05688c)
    ensures Round(Working(0x5a6ad9ad, 0x5d6aebcd, 0x6a09e667, 0xbb67ae85, 0x78ce7989, 0xfa2a4622, 0x510e527f, 0x9b05688c),
                  KRow(0)[2], 0x00000000) ==
            Working(0xc8c347a7, 0x5a6ad9ad, 0x5d6aebcd, 0x6a09e667, 0xf92939eb, 0x78ce7989, 0xfa2a4622, 0x510e527f)
    ensures Round(Working(0xc8c347a7, 0x5a6ad9ad, 0x5d6aebcd, 0x6a09e667, 0xf92939eb, 0x78ce7989, 0xfa2a4622, 0x510e527f),
                  KRow(0)[3], 0x00000000) ==
            Working(0xd550f666, 0xc8c347a7, 0x5a6ad9ad, 0x5d6aebcd, 0x24e00850, 0xf92939eb, 0x78ce7989, 0xfa2a4622)
  {
  }

  lemma Rounds0(block: seq<Byte>)
    requires IsAbcBlock(block)
    ensures Rounds(H0(), block, 4) == Working(0xd550f666, 0xc8c347a7, 0x5a6ad9ad, 0x5d6aebcd, 0x24e00850, 0xf92939eb, 0x78ce7989, 0xfa2a4622)
  {
    Schedule0(block);
    Values0();
    assert Rounds(H0(), block, 0) == Working(0x6a09e667, 0xbb67ae85, 0x3c6ef372, 0xa54ff53a, 0x510e527f, 0x9b05688c, 0x1f83d9ab, 0x5be0cd19);
    hide *;
    NextRound(block, 0, 0, 0, Working(0x6a09e667, 0xbb67ae85, 0x3c6ef372, 0xa54ff53a, 0x510e527f, 0x9b05688c, 0x1f83d9ab, 0x5be0cd19), 0x61626380,
      Working(0x5d6aebcd, 0x6a09e667, 0xbb67ae85, 0x3c6ef372, 0xfa2a4622, 0x510e527f, 0x9b05688c, 0x1f83d9ab));
    NextRound(block, 1, 0, 1, Working(0x5d6aebcd, 0x6a09e667, 0xbb67ae85, 0x3c6ef372, 0xfa2a4622, 0x510e527f, 0x9b05688c, 0x1f83d9ab), 0x00000000,
      Working(0x5a6ad9ad, 0x5d6aebcd, 0x6a09e667, 0xbb67ae85, 0x78ce7989, 0xfa2a4622, 0x510e527f, 0x9b05688c));
    NextRound(block, 2, 0, 2, Working(0x5a6ad9ad, 0x5d6aebcd, 0x6a09e667, 0xbb67ae85, 0x78ce7989, 0xfa2a4622, 0x510e527f, 0x9b05688c), 0x00000000,
      Working(0xc8c347a7, 0x5a6ad9ad, 0x5d6aebcd, 0x6a09e667, 0xf92939eb, 0x78ce7989, 0xfa2a4622, 0x510e527f));
    NextRound(block, 3, 0, 3, Working(0xc8c347a7, 0x5a6ad9ad, 0x5d6aebcd, 0x6a09e667, 0xf92939eb, 0x78ce7989, 0xfa2a4622, 0x510e527f), 0x00000000,
      Working(0xd550f666, 0xc8c347a7, 0x5a6ad9ad, 0x5d6aebcd, 0x24e00850, 0xf92939eb, 0x78ce7989, 0xfa2a4622));
  }

  lemma Values1()
    ensures Round(Working(0xd550f666, 0xc8c347a7, 0x5a6ad9ad, 0x5d6aebcd, 0x24e00850, 0xf92939eb, 0x78ce7989, 0xfa2a4622),
                  KRow(0)[4], 0x00000000) ==
            Working(0x04409a6a, 0xd550f666, 0xc8c347a7, 0x5a6ad9ad, 0x43ada245, 0x24e00850, 0xf92939eb, 0x78ce7989)
    ensures Round(Working(0x04409a6a, 0xd550f666, 0xc8c347a7, 0x5a6ad9ad, 0x43ada245, 0x24e00850, 0xf92939eb, 0x78ce7989),
                  KRow(0)[5], 0x00000000) ==
            Working(0x2b4209f5, 0x04409a6a, 0xd550f666, 0xc8c347a7, 0x714260ad, 0x43ada245, 0x24e00850, 0xf92939eb)
    ensures Round(Working(0x2b4209f5, 0x04409a6a, 0xd550f666, 0xc8c347a7, 0x714260ad, 0x43ada245, 0x24e00850, 0xf92939eb),
                  KRow(0)[6], 0x00000000) ==
            Working(0xe5030380, 0x2b4209f5, 0x04409a6a, 0xd550f666, 0x9b27a401, 0x714260ad, 0x43ada245, 0x24e00850)
    ensures Round(Working(0xe5030380, 0x2b4209f5, 0x04409a6a, 0xd550f666, 0x9b27a401, 0x714260ad, 0x43ada245, 0x24e00850),
                  KRow(0)[7], 0x00000000) ==
            Working(0x85a07b5f, 0xe5030380, 0x2b4209f5, 0x04409a6a, 0x0c657a79, 0x9b27a401, 0x714260ad, 0x43ada245)
  {
  }

  lemma Rounds1(block: seq<Byte>)
    requires IsAbcBlock(block)
    ensures Rounds(H0(), block, 8) == Working(0x85a07b5f, 0xe5030380, 0x2b4209f5, 0x04409a6a, 0x0c657a79, 0x9b27a401, 0x714260ad, 0x43ada245)
  {
    Schedule0(block);
    Values1();
    Rounds0(block);
    hide *;
    NextRound(block, 4, 0, 4, Working(0xd550f666, 0xc8c347a7, 0x5a6ad9ad, 0x5d6aebcd, 0x24e00850, 0xf92939eb, 0x78ce7989, 0xfa2a4622), 0x00000000,
      Working(0x04409a6a, 0xd550f666, 0xc8c347a7, 0x5a6ad9ad, 0x43ada245, 0x24e00850, 0xf92939eb, 0x78ce7989));
    NextRound(block, 5, 0, 5, Working(0x04409a6a, 0xd550f666, 0xc8c347a7, 0x5a6ad9ad, 0x43ada245, 0x24e00850, 0xf92939eb, 0x78ce7989), 0x00000000,
      Working(0x2b4209f5, 0x04409a6a, 0xd550f666, 0xc8c347a7, 0x714260ad, 0x43ada245, 0x24e00850, 0xf92939eb));
    NextRound(block, 6, 0, 6, Working(0x2b4209f5, 0x04409a6a, 0xd550f666, 0xc8c347a7, 0x714260ad, 0x43ada245, 0x24e00850, 0xf92939eb), 0x00000000,
      Working(0xe5030380, 0x2b4209f5, 0x04409a6a, 0xd550f666, 0x9b27a401, 0x714260ad, 0x43ada245, 0x24e00850));
    NextRound(block, 7, 0, 7, Working(0xe5030380, 0x2b4209f5, 0x04409a6a, 0xd550f666, 0x9b27a401, 0x714260ad, 0x43ada245, 0x24e00850), 0x00000000,
      Working(0x85a07b5f, 0xe5030380, 0x2b4209f5, 0x04409a6a, 0x0c657a79, 0x9b27a401, 0x714260ad, 0x43ada245));
  }

  lemma Values2()
    ensures Round(Working(0x85a07b5f, 0xe5030380, 0x2b4209f5, 0x04409a6a, 0x0c657a79, 0x9b27a401, 0x714260ad, 0x43ada245),
                  KRow(1)[0], 0x00000000) ==
            Working(0x8e04ecb9, 0x85a07b5f, 0xe5030380, 0x2b4209f5, 0x32ca2d8c, 0x0c657a79, 0x9b27a401, 0x714260ad)
    ensures Round(Working(0x8e04ecb9, 0x85a07b5f, 0xe5030380, 0x2b4209f5, 0x32ca2d8c, 0x0c657a79, 0x9b27a401, 0x714260ad),
                  KRow(1)[1], 0x00000000) ==
            Working(0x8c87346b, 0x8e04ecb9, 0x85a07b5f, 0xe5030380, 0x1cc92596, 0x32ca2d8c, 0x0c657a79, 0x9b27a401)
    ensures Round(Working(0x8c87346b, 0x8e04ecb9, 0x85a07b5f, 0xe5030380, 0x1cc92596, 0x32ca2d8c, 0x0c657a79, 0x9b27a401),
                  KRow(1)[2], 0x00000000) ==
            Working(0x4798a3f4, 0x8c87346b, 0x8e04ecb9, 0x85a07b5f, 0x436b23e8, 0x1cc92596, 0x32ca2d8c, 0x0c657a79)
    ensures Round(Working(0x4798a3f4, 0x8c87346b, 0x8e04ecb9, 0x85a07b5f, 0x436b23e8, 0x1cc92596, 0x32ca2d8c, 0x0c657a79),
                  KRow(1)[3], 0x00000000) ==
            Working(0xf71fc5a9, 0x4798a3f4, 0x8c87346b, 0x8e04ecb9, 0x816fd6e9, 0x436b23e8, 0x1cc92596, 0x32ca2d8c)
  {
  }

  lemma Rounds2(block: seq<Byte>)
    requires IsAbcBlock(block)
    ensures Rounds(H0(), block, 12) == Working(0xf71fc5a9, 0x4798a3f4, 0x8c87346b, 0x8e04ecb9, 0x816fd6e9, 0x436b23e8, 0x1cc92596, 0x32ca2d8c)
  {
    Schedule1(block);
    Values2();
    Rounds1(block);
    hide *;
    NextRound(block, 8, 1, 0, Working(0x85a07b5f, 0xe5030380, 0x2b4209f5, 0x04409a6a, 0x0c657a79, 0x9b27a401, 0x714260ad, 0x43ada245), 0x00000000,
      Working(0x8e04ecb9, 0x85a07b5f, 0xe5030380, 0x2b4209f5, 0x32ca2d8c, 0x0c657a79, 0x9b27a401, 0x714260ad));
    NextRound(block, 9, 1, 1, Working(0x8e04ecb9, 0x85a07b5f, 0xe5030380, 0x2b4209f5, 0x32ca2d8c, 0x0c657a79, 0x9b27a401, 0x714260ad), 0x00000000,
      Working(0x8c87346b, 0x8e04ecb9, 0x85a07b5f, 0xe5030380, 0x1cc92596, 0x32ca2d8c, 0x0c657a79, 0x9b27a401));
    NextRound(block, 10, 1, 2, Working(0x8c87346b, 0x8e04ecb9, 0x85a07b5f, 0xe5030380, 0x1cc92596, 0x32ca2d8c, 0x0c657a79, 0x9b27a401), 0x00000000,
      Working(0x4798a3f4, 0x8c87346b, 0x8e04ecb9, 0x85a07b5f, 0x436b23e8, 0x1cc92596, 0x32ca2d8c, 0x0c657a79));
    NextRound(block, 11, 1, 3, Working(0x4798a3f4, 0x8c87346b, 0x8e04ecb9, 0x85a07b5f, 0x436b23e8, 0x1cc92596, 0x32ca2d8c, 0x0c657a79), 0x00000000,
      Working(0xf71fc5a9, 0x4798a3f4, 0x8c87346b, 0x8e04ecb9, 0x816fd6e9, 0x436b23e8, 0x1cc92596, 0x32ca2d8c));
  }

  lemma Values3()
    ensures Round(Working(0xf71fc5a9, 0x4798a3f4, 0x8c87346b, 0x8e04ecb9, 0x816fd6e9, 0x436b23e8, 0x1cc92596, 0x32ca2d8c),
                  KRow(1)[4], 0x00000000) ==
            Working(0x87912990, 0xf71fc5a9, 0x4798a3f4, 0x8c87346b, 0x1e578218, 0x816fd6e9, 0x436b23e8, 0x1cc92596)
    ensures Round(Working(0x87912990, 0xf71fc5a9, 0x4798a3f4, 0x8c87346b, 0x1e578218, 0x816fd6e9, 0x436b23e8, 0x1cc92596),
                  KRow(1)[5], 0x00000000) ==
            Working(0xd932eb16, 0x87912990, 0xf71fc5a9, 0x4798a3f4, 0x745a48de, 0x1e578218, 0x816fd6e9, 0x436b23e8)
    ensures Round(Working(0xd932eb16, 0x87912990, 0xf71fc5a9, 0x4798a3f4, 0x745a48de, 0x1e578218, 0x816fd6e9, 0x436b23e8),
                  KRow(1)[6], 0x00000000) ==
            Working(0xc0645fde, 0xd932eb16, 0x87912990, 0xf71fc5a9, 0x0b92f20c, 0x745a48de, 0x1e578218, 0x816fd6e9)
    ensures Round(Working(0xc0645fde, 0xd932eb16, 0x87912990, 0xf71fc5a9, 0x0b92f20c, 0x745a48de, 0x1e578218, 0x816fd6e9),
                  KRow(1)[7], 0x00000018) ==
            Working(0xb0fa238e, 0xc0645fde, 0xd932eb16, 0x87912990, 0x07590dcd, 0x0b92f20c, 0x745a48de, 0x1e578218)
  {
  }

  lemma Rounds3(block: seq<Byte>)
    requires IsAbcBlock(block)
    ensures Rounds(H0(), block, 16) == Working(0xb0fa238e, 0xc0645fde, 0xd932eb16, 0x87912990, 0x07590dcd, 0x0b92f20c, 0x745a48de, 0x1e578218)
  {
    Schedule1(block);
    Values3();
    Rounds2(block);
    hide *;
    NextRound(block, 12, 1, 4, Working(0xf71fc5a9, 0x4798a3f4, 0x8c87346b, 0x8e04ecb9, 0x816fd6e9, 0x436b23e8, 0x1cc92596, 0x32ca2d8c), 0x00000000,
      Working(0x87912990, 0xf71fc5a9, 0x4798a3f4, 0x8c87346b, 0x1e578218, 0x816fd6e9, 0x436b23e8, 0x1cc92596));
    NextRound(block, 13, 1, 5, Working(0x87912990, 0xf71fc5a9, 0x4798a3f4, 0x8c87346b, 0x1e578218, 0x816fd6e9, 0x436b23e8, 0x1cc92596), 0x00000000,
      Working(0xd932eb16, 0x87912990, 0xf71fc5a9, 0x4798a3f4, 0x745a48de, 0x1e578218, 0x816fd6e9, 0x436b23e8));
    NextRound(block, 14, 1, 6, Working(0xd932eb16, 0x87912990, 0xf71fc5a9, 0x4798a3f4, 0x745a48de, 0x1e578218, 0x816fd6e9, 0x436b23e8), 0x00000000,
      Working(0xc0645fde, 0xd932eb16, 0x87912990, 0xf71fc5a9, 0x0b92f20c, 0x745a48de, 0x1e578218, 0x816fd6e9));
    NextRound(block, 15, 1, 7, Working(0xc0645fde, 0xd932eb16, 0x87912990, 0xf71fc5a9, 0x0b92f20c, 0x745a48de, 0x1e578218, 0x816fd6e9), 0x00000018,
      Working(0xb0fa238e, 0xc0645fde, 0xd932eb16, 0x87912990, 0x07590dcd, 0x0b92f20c, 0x745a48de, 0x1e578218));
  }

  lemma Values4()
    ensures Round(Working(0xb0fa238e, 0xc0645fde, 0xd932eb16, 0x87912990, 0x07590dcd, 0x0b92f20c, 0x745a48de, 0x1e578218),
                  KRow(2)[0], 0x61626380) ==
            Working(0x21da9a9b, 0xb0fa238e, 0xc0645fde, 0xd932eb16, 0x8034229c, 0x07590dcd, 0x0b92f20c, 0x745a48de)
    ensures Round(Working(0x21da9a9b, 0xb0fa238e, 0xc0645fde, 0xd932eb16, 0x8034229c, 0x07590dcd, 0x0b92f20c, 0x745a48de),
                  KRow(2)[1], 0x000f0000) ==
            Working(0xc2fbd9d1, 0x21da9a9b, 0xb0fa238e, 0xc0645fde, 0x846ee454, 0x8034229c, 0x07590dcd, 0x0b92f20c)
    ensures Round(Working(0xc2fbd9d1, 0x21da9a9b, 0xb0fa238e, 0xc0645fde, 0x846ee454, 0x8034229c, 0x07590dcd, 0x0b92f20c),
                  KRow(2)[2], 0x7da86405) ==
            Working(0xfe777bbf, 0xc2fbd9d1, 0x21da9a9b, 0xb0fa238e, 0xcc899961, 0x846ee454, 0x8034229c, 0x07590dcd)
    ensures Round(Working(0xfe777bbf, 0xc2fbd9d1, 0x21da9a9b, 0xb0fa238e, 0xcc899961, 0x846ee454, 0x8034229c, 0x07590dcd),
                  KRow(2)[3], 0x600003c6) ==
            Working(0xe1f20c33, 0xfe777bbf, 0xc2fbd9d1, 0x21da9a9b, 0xb0638179, 0xcc899961, 0x846ee454, 0x8034229c)
  {
  }

  lemma Rounds4(block: seq<Byte>)
    requires IsAbcBlock(block)
    ensures Rounds(H0(), block, 20) == Working(0xe1f20c33, 0xfe777bbf, 0xc2fbd9d1, 0x21da9a9b, 0xb0638179, 0xcc899961, 0x846ee454, 0x8034229c)
  {
    Schedule2(block);
    Values4();
    Rounds3(block);
    hide *;
    NextRound(block, 16, 2, 0, Working(0xb0fa238e, 0xc0645fde, 0xd932eb16, 0x87912990, 0x07590dcd, 0x0b92f20c, 0x745a48de, 0x1e578218), 0x61626380,
      Working(0x21da9a9b, 0xb0fa238e, 0xc0645fde, 0xd932eb16, 0x8034229c, 0x07590dcd, 0x0b92f20c, 0x745a48de));
    NextRound(block, 17, 2, 1, Working(0x21da9a9b, 0xb0fa238e, 0xc0645fde, 0xd932eb16, 0x8034229c, 0x07590dcd, 0x0b92f20c, 0x745a48de), 0x000f0000,
      Working(0xc2fbd9d1, 0x21da9a9b, 0xb0fa238e, 0xc0645fde, 0x846ee454, 0x8034229c, 0x07590dcd, 0x0b92f20c));
    NextRound(block, 18, 2, 2, Working(0xc2fbd9d1, 0x21da9a9b, 0xb0fa238e, 0xc0645fde, 0x846ee454, 0x8034229c, 0x07590dcd, 0x0b92f20c), 0x7da86405,
      Working(0xfe777bbf, 0xc2fbd9d1, 0x21da9a9b, 0xb0fa238e, 0xcc899961, 0x846ee454, 0x8034229c, 0x07590dcd));
    NextRound(block, 19, 2, 3, Working(0xfe777bbf, 0xc2fbd9d1, 0x21da9a9b, 0xb0fa238e, 0xcc899961, 0x846ee454, 0x8034229c, 0x07590dcd), 0x600003c6,
      Working(0xe1f20c33, 0xfe777bbf, 0xc2fbd9d1, 0x21da9a9b, 0xb0638179, 0xcc899961, 0x846ee454, 0x8034229c));
  }

  lemma Values5()
    ensures Round(Working(0xe1f20c33, 0xfe777bbf, 0xc2fbd9d1, 0x21da9a9b, 0xb0638179, 0xcc899961, 0x846ee454, 0x8034229c),
                  KRow(2)[4], 0x3e9d7b78) ==
            Working(0x9dc68b63, 0xe1f20c33, 0xfe777bbf, 0xc2fbd9d1, 0x8ada8930, 0xb0638179, 0xcc899961, 0x846ee454)
    ensures Round(Working(0x9dc68b63, 0xe1f20c33, 0xfe777bbf, 0xc2fbd9d1, 0x8ada8930, 0xb0638179, 0xcc899961, 0x846ee454),
                  KRow(2)[5], 0x0183fc00) ==
            Working(0xc2606d6d, 0x9dc68b63, 0xe1f20c33, 0xfe777bbf, 0xe1257970, 0x8ada8930, 0xb0638179, 0xcc899961)
    ensures Round(Working(0xc2606d6d, 0x9dc68b63, 0xe1f20c33, 0xfe777bbf, 0xe1257970, 0x8ada8930, 0xb0638179, 0xcc899961),
                  KRow(2)[6], 0x12dcbfdb) ==
            Working(0xa7a3623f, 0xc2606d6d, 0x9dc68b63, 0xe1f20c33, 0x49f5114a, 0xe1257970, 0x8ada8930, 0xb0638179)
    ensures Round(Working(0xa7a3623f, 0xc2606d6d, 0x9dc68b63, 0xe1f20c33, 0x49f5114a, 0xe1257970, 0x8ada8930, 0xb0638179),
                  KRow(2)[7], 0xe2e2c38e) ==
            Working(0xc5d53d8d, 0xa7a3623f, 0xc2606d6d, 0x9dc68b63, 0xaa47c347, 0x49f5114a, 0xe1257970, 0x8ada8930)
  {
  }

  lemma Rounds5(block: seq<Byte>)
    requires IsAbcBlock(block)
    ensures Rounds(H0(), block, 24) == Working(0xc5d53d8d, 0xa7a3623f, 0xc2606d6d, 0x9dc68b63, 0xaa47c347, 0x49f5114a, 0xe1257970, 0x8ada8930)
  {
    Schedule2(block);
    Values5();
    Rounds4(block);
    hide *;
    NextRound(block, 20, 2, 4, Working(0xe1f20c33, 0xfe777bbf, 0xc2fbd9d1, 0x21da9a9b, 0xb0638179, 0xcc899961, 0x846ee454, 0x8034229c), 0x3e9d7b78,
      Working(0x9dc68b63, 0xe1f20c33, 0xfe777bbf, 0xc2fbd9d1, 0x8ada8930, 0xb0638179, 0xcc899961, 0x846ee454));
    NextRound(block, 21, 2, 5, Working(0x9dc68b63, 0xe1f20c33, 0xfe777bbf, 0xc2fbd9d1, 0x8ada8930, 0xb0638179, 0xcc899961, 0x846ee454), 0x0183fc00,
      Working(0xc2606d6d, 0x9dc68b63, 0xe1f20c33, 0xfe777bbf, 0xe1257970, 0x8ada8930, 0xb0638179, 0xcc899961));
    NextRound(block, 22, 2, 6, Working(0xc2606d6d, 0x9dc68b63, 0xe1f20c33, 0xfe777bbf, 0xe1257970, 0x8ada8930, 0xb0638179, 0xcc899961), 0x12dcbfdb,
      Working(0xa7a3623f, 0xc2606d6d, 0x9dc68b63, 0xe1f20c33, 0x49f5114a, 0xe1257970, 0x8ada8930, 0xb0638179));
    NextRound(block, 23, 2, 7, Working(0xa7a3623f, 0xc2606d6d, 0x9dc68b63, 0xe1f20c33, 0x49f5114a, 0xe1257970, 0x8ada8930, 0xb0638179), 0xe2e2c38e,
      Working(0xc5d53d8d, 0xa7a3623f, 0xc2606d6d, 0x9dc68b63, 0xaa47c347, 0x49f5114a, 0xe1257970, 0x8ada8930));
  }

  lemma Values6()
    ensures Round(Working(0xc5d53d8d, 0xa7a3623f, 0xc2606d6d, 0x9dc68b63, 0xaa47c347, 0x49f5114a, 0xe1257970, 0x8ada8930),
                  KRow(3)[0], 0xc8215c1a) ==
            Working(0x1c2c2838, 0xc5d53d8d, 0xa7a3623f, 0xc2606d6d, 0x2823ef91, 0xaa47c347, 0x49f5114a, 0xe1257970)
    ensures Round(Working(0x1c2c2838, 0xc5d53d8d, 0xa7a3623f, 0xc2606d6d, 0x2823ef91, 0xaa47c347, 0x49f5114a, 0xe1257970),
                  KRow(3)[1], 0xb73679a2) ==
            Working(0xcde8037d, 0x1c2c2838, 0xc5d53d8d, 0xa7a3623f, 0x14383d8e, 0x2823ef91, 0xaa47c347, 0x49f5114a)
    ensures Round(Working(0xcde8037d, 0x1c2c2838, 0xc5d53d8d, 0xa7a3623f, 0x14383d8e, 0x2823ef91, 0xaa47c347, 0x49f5114a),
                  KRow(3)[2], 0xe5bc3909) ==
            Working(0xb62ec4bc, 0xcde8037d, 0x1c2c2838, 0xc5d53d8d, 0xc74c6516, 0x14383d8e, 0x2823ef91, 0xaa47c347)
    ensures Round(Working(0xb62ec4bc, 0xcde8037d, 0x1c2c2838, 0xc5d53d8d, 0xc74c6516, 0x14383d8e, 0x2823ef91, 0xaa47c347),
                  KRow(3)[3], 0x32663c5b) ==
            Working(0x77d37528, 0xb62ec4bc, 0xcde8037d, 0x1c2c2838, 0xedffbff8, 0xc74c6516, 0x14383d8e, 0x2823ef91)
  {
  }

  lemma Rounds6(block: seq<Byte>)
    requires IsAbcBlock(block)
    ensures Rounds(H0(), block, 28) == Working(0x77d37528, 0xb62ec4bc, 0xcde8037d, 0x1c2c2838, 0xedffbff8, 0xc74c6516, 0x14383d8e, 0x2823ef91)
  {
    Schedule3(block);
    Values6();
    Rounds5(block);
    hide *;
    NextRound(block, 24, 3, 0, Working(0xc5d53d8d, 0xa7a3623f, 0xc2606d6d, 0x9dc68b63, 0xaa47c347, 0x49f5114a, 0xe1257970, 0x8ada8930), 0xc8215c1a,
      Working(0x1c2c2838, 0xc5d53d8d, 0xa7a3623f, 0xc2606d6d, 0x2823ef91, 0xaa47c347, 0x49f5114a, 0xe1257970));
    NextRound(block, 25, 3, 1, Working(0x1c2c2838, 0xc5d53d8d, 0xa7a3623f, 0xc2606d6d, 0x2823ef91, 0xaa47c347, 0x49f5114a, 0xe1257970), 0xb73679a2,
      Working(0xcde8037d, 0x1c2c2838, 0xc5d53d8d, 0xa7a3623f, 0x14383d8e, 0x2823ef91, 0xaa47c347, 0x49f5114a));
    NextRound(block, 26, 3, 2, Working(0xcde8037d, 0x1c2c2838, 0xc5d53d8d, 0xa7a3623f, 0x14383d8e, 0x2823ef91, 0xaa47c347, 0x49f5114a), 0xe5bc3909,
      Working(0xb62ec4bc, 0xcde8037d, 0x1c2c2838, 0xc5d53d8d, 0xc74c6516, 0x14383d8e, 0x2823ef91, 0xaa47c347));
    NextRound(block, 27, 3, 3, Working(0xb62ec4bc, 0xcde8037d, 0x1c2c2838, 0xc5d53d8d, 0xc74c6516, 0x14383d8e, 0x2823ef91, 0xaa47c347), 0x32663c5b,
      Working(0x77d37528, 0xb62ec4bc, 0xcde8037d, 0x1c2c2838, 0xedffbff8, 0xc74c6516, 0x14383d8e, 0x2823ef91));
  }

  lemma Values7()
    ensures Round(Working(0x77d37528, 0xb62ec4bc, 0xcde8037d, 0x1c2c2838, 0xedffbff8, 0xc74c6516, 0x14383d8e, 0x2823ef91),
                  KRow(3)[4], 0x9d209d67) ==
            Working(0x363482c9, 0x77d37528, 0xb62ec4bc, 0xcde8037d, 0x6112a3b7, 0xedffbff8, 0xc74c6516, 0x14383d8e)
    ensures Round(Working(0x363482c9, 0x77d37528, 0xb62ec4bc, 0xcde8037d, 0x6112a3b7, 0xedffbff8, 0xc74c6516, 0x14383d8e),
                  KRow(3)[5], 0xec8726cb) ==
            Working(0xa0060b30, 0x363482c9, 0x77d37528, 0xb62ec4bc, 0xade79437, 0x6112a3b7, 0xedffbff8, 0xc74c6516)
    ensures Round(Working(0xa0060b30, 0x363482c9, 0x77d37528, 0xb62ec4bc, 0xade79437, 0x6112a3b7, 0xedffbff8, 0xc74c6516),
                  KRow(3)[6], 0x702138a4) ==
            Working(0xea992a22, 0xa0060b30, 0x363482c9, 0x77d37528, 0x0109ab3a, 0xade79437, 0x6112a3b7, 0xedffbff8)
    ensures Round(Working(0xea992a22, 0xa0060b30, 0x363482c9, 0x77d37528, 0x0109ab3a, 0xade79437, 0x6112a3b7, 0xedffbff8),
                  KRow(3)[7], 0xd3b7973b) ==
            Working(0x73b33bf5, 0xea992a22, 0xa0060b30, 0x363482c9, 0xba591112, 0x0109ab3a, 0xade79437, 0x6112a3b7)
  {
  }

  lemma Rounds7(block: seq<Byte>)
    requires IsAbcBlock(block)
    ensures Rounds(H0(), block, 32) == Working(0x73b33bf5, 0xea992a22, 0xa0060b30, 0x363482c9, 0xba591112, 0x0109ab3a, 0xade79437, 0x6112a3b7)
  {
    Schedule3(block);
    Values7();
    Rounds6(block);
    hide *;
    NextRound(block, 28, 3, 4, Working(0x77d37528, 0xb62ec4bc, 0xcde8037d, 0x1c2c2838, 0xedffbff8, 0xc74c6516, 0x14383d8e, 0x2823ef91), 0x9d209d67,
      Working(0x363482c9, 0x77d37528, 0xb62ec4bc, 0xcde8037d, 0x6112a3b7, 0xedffbff8, 0xc74c6516, 0x14383d8e));
    NextRound(block, 29, 3, 5, Working(0x363482c9, 0x77d37528, 0xb62ec4bc, 0xcde8037d, 0x6112a3b7, 0xedffbff8, 0xc74c6516, 0x14383d8e), 0xec8726cb,
      Working(0xa0060b30, 0x363482c9, 0x77d37528, 0xb62ec4bc, 0xade79437, 0x6112a3b7, 0xedffbff8, 0xc74c6516));
    NextRound(block, 30, 3, 6, Working(0xa0060b30, 0x363482c9, 0x77d37528, 0xb62ec4bc, 0xade79437, 0x6112a3b7, 0xedffbff8, 0xc74c6516), 0x702138a4,
      Working(0xea992a22, 0xa0060b30, 0x363482c9, 0x77d37528, 0x0109ab3a, 0xade79437, 0x6112a3b7, 0xedffbff8));
    NextRound(block, 31, 3, 7, Working(0xea992a22, 0xa0060b30, 0x363482c9, 0x77d37528, 0x0109ab3a, 0xade79437, 0x6112a3b7, 0xedffbff8), 0xd3b7973b,
      Working(0x73b33bf5, 0xea992a22, 0xa0060b30, 0x363482c9, 0xba591112, 0x0109ab3a, 0xade79437, 0x6112a3b7));
  }

  lemma Values8()
    ensures Round(Working(0x73b33bf5, 0xea992a22, 0xa0060b30, 0x363482c9, 0xba591112, 0x0109ab3a, 0xade79437, 0x6112a3b7),
                  KRow(4)[0], 0x93f5997f) ==
            Working(0x98e12507, 0x73b33bf5, 0xea992a22, 0xa0060b30, 0x9cd9f5f6, 0xba591112, 0x0109ab3a, 0xade79437)
    ensures Round(Working(0x98e12507, 0x73b33bf5, 0xea992a22, 0xa0060b30, 0x9cd9f5f6, 0xba591112, 0x0109ab3a, 0xade79437),
                  KRow(4)[1], 0x3b68ba73) ==
            Working(0xfe604df5, 0x98e12507, 0x73b33bf5, 0xea992a22, 0x59249dd3, 0x9cd9f5f6, 0xba591112, 0x0109ab3a)
    ensures Round(Working(0xfe604df5, 0x98e12507, 0x73b33bf5, 0xea992a22, 0x59249dd3, 0x9cd9f5f6, 0xba591112, 0x0109ab3a),
                  KRow(4)[2], 0xaff4ffc1) ==
            Working(0xa9a7738c, 0xfe604df5, 0x98e12507, 0x73b33bf5, 0x085f3833, 0x59249dd3, 0x9cd9f5f6, 0xba591112)
    ensures Round(Working(0xa9a7738c, 0xfe604df5, 0x98e12507, 0x73b33bf5, 0x085f3833, 0x59249dd3, 0x9cd9f5f6, 0xba591112),
                  KRow(4)[3], 0xf10a5c62) ==
            Working(0x65a0cfe4, 0xa9a7738c, 0xfe604df5, 0x98e12507, 0xf4b002d6, 0x085f3833, 0x59249dd3, 0x9cd9f5f6)
  {
  }

  lemma Rounds8(block: seq<Byte>)
    requires IsAbcBlock(block)
    ensures Rounds(H0(), block, 36) == Working(0x65a0cfe4, 0xa9a7738c, 0xfe604df5, 0x98e12507, 0xf4b002d6, 0x085f3833, 0x59249dd3, 0x9cd9f5f6)
  {
    Schedule4(block);
    Values8();
    Rounds7(block);
    hide *;
    NextRound(block, 32, 4, 0, Working(0x73b33bf5, 0xea992a22, 0xa0060b30, 0x363482c9, 0xba591112, 0x0109ab3a, 0xade79437, 0x6112a3b7), 0x93f5997f,
      Working(0x98e12507, 0x73b33bf5, 0xea992a22, 0xa0060b30, 0x9cd9f5f6, 0xba591112, 0x0109ab3a, 0xade79437));
    NextRound(block, 33, 4, 1, Working(0x98e12507, 0x73b33bf5, 0xea992a22, 0xa0060b30, 0x9cd9f5f6, 0xba591112, 0x0109ab3a, 0xade79437), 0x3b68ba73,
      Working(0xfe604df5, 0x98e12507, 0x73b33bf5, 0xea992a22, 0x59249dd3, 0x9cd9f5f6, 0xba591112, 0x0109ab3a));
    NextRound(block, 34, 4, 2, Working(0xfe604df5, 0x98e12507, 0x73b33bf5, 0xea992a22, 0x59249dd3, 0x9cd9f5f6, 0xba591112, 0x0109ab3a), 0xaff4ffc1,
      Working(0xa9a7738c, 0xfe604df5, 0x98e12507, 0x73b33bf5, 0x085f3833, 0x59249dd3, 0x9cd9f5f6, 0xba591112));
    NextRound(block, 35, 4, 3, Working(0xa9a7738c, 0xfe604df5, 0x98e12507, 0x73b33bf5, 0x085f3833, 0x59249dd3, 0x9cd9f5f6, 0xba591112), 0xf10a5c62,
      Working(0x65a0cfe4, 0xa9a7738c, 0xfe604df5, 0x98e12507, 0xf4b002d6, 0x085f3833, 0x59249dd3, 0x9cd9f5f6));
  }

  lemma Values9()
    ensures Round(Working(0x65a0cfe4, 0xa9a7738c, 0xfe604df5, 0x98e12507, 0xf4b002d6, 0x085f3833, 0x59249dd3, 0x9cd9f5f6),
                  KRow(4)[4], 0x0a8b3996) ==
            Working(0x41a65cb1, 0x65a0cfe4, 0xa9a7738c, 0xfe604df5, 0x0772a26b, 0xf4b002d6, 0x085f3833, 0x59249dd3)
    ensures Round(Working(0x41a65cb1, 0x65a0cfe4, 0xa9a7738c, 0xfe604df5, 0x0772a26b, 0xf4b002d6, 0x085f3833, 0x59249dd3),
                  KRow(4)[5], 0x72af830a) ==
            Working(0x34df1604, 0x41a65cb1, 0x65a0cfe4, 0xa9a7738c, 0xa507a53d, 0x0772a26b, 0xf4b002d6, 0x085f3833)
    ensures Round(Working(0x34df1604, 0x41a65cb1, 0x65a0cfe4, 0xa9a7738c, 0xa507a53d, 0x0772a26b, 0xf4b002d6, 0x085f3833),
                  KRow(4)[6], 0x9409e33e) ==
            Working(0x6dc57a8a, 0x34df1604, 0x41a65cb1, 0x65a0cfe4, 0xf0781bc8, 0xa507a53d, 0x0772a26b, 0xf4b002d6)
    ensures Round(Working(0x6dc57a8a, 0x34df1604, 0x41a65cb1, 0x65a0cfe4, 0xf0781bc8, 0xa507a53d, 0x0772a26b, 0xf4b002d6),
                  KRow(4)[7], 0x24641522) ==
            Working(0x79ea687a, 0x6dc57a8a, 0x34df1604, 0x41a65cb1, 0x1efbc0a0, 0xf0781bc8, 0xa507a53d, 0x0772a26b)
  {
  }

  lemma Rounds9(block: seq<Byte>)
    requires IsAbcBlock(block)
    ensures Rounds(H0(), block, 40) == Working(0x79ea687a, 0x6dc57a8a, 0x34df1604, 0x41a65cb1, 0x1efbc0a0, 0xf0781bc8, 0xa507a53d, 0x0772a26b)
  {
    Schedule4(block);
    Values9();
    Rounds8(block);
    hide *;
    NextRound(block, 36, 4, 4, Working(0x65a0cfe4, 0xa9a7738c, 0xfe604df5, 0x98e12507, 0xf4b002d6, 0x085f3833, 0x59249dd3, 0x9cd9f5f6), 0x0a8b3996,
      Working(0x41a65cb1, 0x65a0cfe4, 0xa9a7738c, 0xfe604df5, 0x0772a26b, 0xf4b002d6, 0x085f3833, 0x59249dd3));
    NextRound(block, 37, 4, 5, Working(0x41a65cb1, 0x65a0cfe4, 0xa9a7738c, 0xfe604df5, 0x0772a26b, 0xf4b002d6, 0x085f3833, 0x59249dd3), 0x72af830a,
      Working(0x34df1604, 0x41a65cb1, 0x65a0cfe4, 0xa9a7738c, 0xa507a53d, 0x0772a26b, 0xf4b002d6, 0x085f3833));
    NextRound(block, 38, 4, 6, Working(0x34df1604, 0x41a65cb1, 0x65a0cfe4, 0xa9a7738c, 0xa507a53d, 0x0772a26b, 0xf4b002d6, 0x085f3833), 0x9409e33e,
      Working(0x6dc57a8a, 0x34df1604, 0x41a65cb1, 0x65a0cfe4, 0xf0781bc8, 0xa507a53d, 0x0772a26b, 0xf4b002d6));
    NextRound(block, 39, 4, 7, Working(0x6dc57a8a, 0x34df1604, 0x41a65cb1, 0x65a0cfe4, 0xf0781bc8, 0xa507a53d, 0x0772a26b, 0xf4b002d6), 0x24641522,
      Working(0x79ea687a, 0x6dc57a8a, 0x34df1604, 0x41a65cb1, 0x1efbc0a0, 0xf0781bc8, 0xa507a53d, 0x0772a26b));
  }

  lemma Values10()
    ensures Round(Working(0x79ea687a, 0x6dc57a8a, 0x34df1604, 0x41a65cb1, 0x1efbc0a0, 0xf0781bc8, 0xa507a53d, 0x0772a26b),
                  KRow(5)[0], 0x9f47bf94) ==
            Working(0xd6670766, 0x79ea687a, 0x6dc57a8a, 0x34df1604, 0x26352d63, 0x1efbc0a0, 0xf0781bc8, 0xa507a53d)
    ensures Round(Working(0xd6670766, 0x79ea687a, 0x6dc57a8a, 0x34df1604, 0x26352d63, 0x1efbc0a0, 0xf0781bc8, 0xa507a53d),
                  KRow(5)[1], 0xf0a64f5a) ==
            Working(0xdf46652f, 0xd6670766, 0x79ea687a, 0x6dc57a8a, 0x838b2711, 0x26352d63, 0x1efbc0a0, 0xf0781bc8)
    ensures Round(Working(0xdf46652f, 0xd6670766, 0x79ea687a, 0x6dc57a8a, 0x838b2711, 0x26352d63, 0x1efbc0a0, 0xf0781bc8),
                  KRow(5)[2], 0x3e246a79) ==
            Working(0x17aa0dfe, 0xdf46652f, 0xd6670766, 0x79ea687a, 0xdecd4715, 0x838b2711, 0x26352d63, 0x1efbc0a0)
    ensures Round(Working(0x17aa0dfe, 0xdf46652f, 0xd6670766, 0x79ea687a, 0xdecd4715, 0x838b2711, 0x26352d63, 0x1efbc0a0),
                  KRow(5)[3], 0x27333ba3) ==
            Working(0x9d4baf93, 0x17aa0dfe, 0xdf46652f, 0xd6670766, 0xfda24c2e, 0xdecd4715, 0x838b2711, 0x26352d63)
  {
  }

  lemma Rounds10(block: seq<Byte>)
    requires IsAbcBlock(block)
    ensures Rounds(H0(), block, 44) == Working(0x9d4baf93, 0x17aa0dfe, 0xdf46652f, 0xd6670766, 0xfda24c2e, 0xdecd4715, 0x838b2711, 0x26352d63)
  {
    Schedule5(block);
    Values10();
    Rounds9(block);
    hide *;
    NextRound(block, 40, 5, 0, Working(0x79ea687a, 0x6dc57a8a, 0x34df1604, 0x41a65cb1, 0x1efbc0a0, 0xf0781bc8, 0xa507a53d, 0x0772a26b), 0x9f47bf94,
      Working(0xd6670766, 0x79ea687a, 0x6dc57a8a, 0x34df1604, 0x26352d63, 0x1efbc0a0, 0xf0781bc8, 0xa507a53d));
    NextRound(block, 41, 5, 1, Working(0xd6670766, 0x79ea687a, 0x6dc57a8a, 0x34df1604, 0x26352d63, 0x1efbc0a0, 0xf0781bc8, 0xa507a53d), 0xf0a64f5a,
      Working(0xdf46652f, 0xd6670766, 0x79ea687a, 0x6dc57a8a, 0x838b2711, 0x26352d63, 0x1efbc0a0, 0xf0781bc8));
    NextRound(block, 42, 5, 2, Working(0xdf46652f, 0xd6670766, 0x79ea687a, 0x6dc57a8a, 0x838b2711, 0x26352d63, 0x1efbc0a0, 0xf0781bc8), 0x3e246a79,
      Working(0x17aa0dfe, 0xdf46652f, 0xd6670766, 0x79ea687a, 0xdecd4715, 0x838b2711, 0x26352d63, 0x1efbc0a0));
    NextRound(block, 43, 5, 3, Working(0x17aa0dfe, 0xdf46652f, 0xd6670766, 0x79ea687a, 0xdecd4715, 0x838b2711, 0x26352d63, 0x1efbc0a0), 0x27333ba3,
      Working(0x9d4baf93, 0x17aa0dfe, 0xdf46652f, 0xd6670766, 0xfda24c2e, 0xdecd4715, 0x838b2711, 0x26352d63));
  }

  lemma Values11()
    ensures Round(Working(0x9d4baf93, 0x17aa0dfe, 0xdf46652f, 0xd6670766, 0xfda24c2e, 0xdecd4715, 0x838b2711, 0x26352d63),
                  KRow(5)[4], 0x0c4763f2) ==
            Working(0x26628815, 0x9d4baf93, 0x17aa0dfe, 0xdf46652f, 0xa80f11f0, 0xfda24c2e, 0xdecd4715, 0x838b2711)
    ensures Round(Working(0x26628815, 0x9d4baf93, 0x17aa0dfe, 0xdf46652f, 0xa80f11f0, 0xfda24c2e, 0xdecd4715, 0x838b2711),
                  KRow(5)[5], 0x840abf27) ==
            Working(0x72ab4b91, 0x26628815, 0x9d4baf93, 0x17aa0dfe, 0xb7755da1, 0xa80f11f0, 0xfda24c2e, 0xdecd4715)
    ensures Round(Working(0x72ab4b91, 0x26628815, 0x9d4baf93, 0x17aa0dfe, 0xb7755da1, 0xa80f11f0, 0xfda24c2e, 0xdecd4715),
                  KRow(5)[6], 0x7a290d5d) ==
            Working(0xa14c14b0, 0x72ab4b91, 0x26628815, 0x9d4baf93, 0xd57b94a9, 0xb7755da1, 0xa80f11f0, 0xfda24c2e)
    ensures Round(Working(0xa14c14b0, 0x72ab4b91, 0x26628815, 0x9d4baf93, 0xd57b94a9, 0xb7755da1, 0xa80f11f0, 0xfda24c2e),
                  KRow(5)[7], 0x065c43da) ==
            Working(0x4172328d, 0xa14c14b0, 0x72ab4b91, 0x26628815, 0xfecf0bc6, 0xd57b94a9, 0xb7755da1, 0xa80f11f0)
  {
  }

  lemma Rounds11(block: seq<Byte>)
    requires IsAbcBlock(block)
    ensures Rounds(H0(), block, 48) == Working(0x4172328d, 0xa14c14b0, 0x72ab4b91, 0x26628815, 0xfecf0bc6, 0xd57b94a9, 0xb7755da1, 0xa80f11f0)
  {
    Schedule5(block);
    Values11();
    Rounds10(block);
    hide *;
    NextRound(block, 44, 5, 4, Working(0x9d4baf93, 0x17aa0dfe, 0xdf46652f, 0xd6670766, 0xfda24c2e, 0xdecd4715, 0x838b2711, 0x26352d63), 0x0c4763f2,
      Working(0x26628815, 0x9d4baf93, 0x17aa0dfe, 0xdf46652f, 0xa80f11f0, 0xfda24c2e, 0xdecd4715, 0x838b2711));
    NextRound(block, 45, 5, 5, Working(0x26628815, 0x9d4baf93, 0x17aa0dfe, 0xdf46652f, 0xa80f11f0, 0xfda24c2e, 0xdecd4715, 0x838b2711), 0x840abf27,
      Working(0x72ab4b91, 0x26628815, 0x9d4baf93, 0x17aa0dfe, 0xb7755da1, 0xa80f11f0, 0xfda24c2e, 0xdecd4715));
    NextRound(block, 46, 5, 6, Working(0x72ab4b91, 0x26628815, 0x9d4baf93, 0x17aa0dfe, 0xb7755da1, 0xa80f11f0, 0xfda24c2e, 0xdecd4715), 0x7a290d5d,
      Working(0xa14c14b0, 0x72ab4b91, 0x26628815, 0x9d4baf93, 0xd57b94a9, 0xb7755da1, 0xa80f11f0, 0xfda24c2e));
    NextRound(block, 47, 5, 7, Working(0xa14c14b0, 0x72ab4b91, 0x26628815, 0x9d4baf93, 0xd57b94a9, 0xb7755da1, 0xa80f11f0, 0xfda24c2e), 0x065c43da,
      Working(0x4172328d, 0xa14c14b0, 0x72ab4b91, 0x26628815, 0xfecf0bc6, 0xd57b94a9, 0xb7755da1, 0xa80f11f0));
  }

  lemma Values12()
    ensures Round(Working(0x4172328d, 0xa14c14b0, 0x72ab4b91, 0x26628815, 0xfecf0bc6, 0xd57b94a9, 0xb7755da1, 0xa80f11f0),
                  KRow(6)[0], 0xfb3e89cb) ==
            Working(0x05757ceb, 0x4172328d, 0xa14c14b0, 0x72ab4b91, 0xbd714038, 0xfecf0bc6, 0xd57b94a9, 0xb7755da1)
    ensures Round(Working(0x05757ceb, 0x4172328d, 0xa14c14b0, 0x72ab4b91, 0xbd714038, 0xfecf0bc6, 0xd57b94a9, 0xb7755da1),
                  KRow(6)[1], 0xcc7617db) ==
            Working(0xf11bfaa8, 0x05757ceb, 0x4172328d, 0xa14c14b0, 0x6e5c390c, 0xbd714038, 0xfecf0bc6, 0xd57b94a9)
    ensures Round(Working(0xf11bfaa8, 0x05757ceb, 0x4172328d, 0xa14c14b0, 0x6e5c390c, 0xbd714038, 0xfecf0bc6, 0xd57b94a9),
                  KRow(6)[2], 0xb9e66c34) ==
            Working(0x7a0508a1, 0xf11bfaa8, 0x05757ceb, 0x4172328d, 0x52f1ccf7, 0x6e5c390c, 0xbd714038, 0xfecf0bc6)
    ensures Round(Working(0x7a0508a1, 0xf11bfaa8, 0x05757ceb, 0x4172328d, 0x52f1ccf7, 0x6e5c390c, 0xbd714038, 0xfecf0bc6),
                  KRow(6)[3], 0xa9993667) ==
            Working(0x886e7a22, 0x7a0508a1, 0xf11bfaa8, 0x05757ceb, 0x49231c1e, 0x52f1ccf7, 0x6e5c390c, 0xbd714038)
  {
  }

  lemma Rounds12(block: seq<Byte>)
    requires IsAbcBlock(block)
    ensures Rounds(H0(), block, 52) == Working(0x886e7a22, 0x7a0508a1, 0xf11bfaa8, 0x05757ceb, 0x49231c1e, 0x52f1ccf7, 0x6e5c390c, 0xbd714038)
  {
    Schedule6(block);
    Values12();
    Rounds11(block);
    hide *;
    NextRound(block, 48, 6, 0, Working(0x4172328d, 0xa14c14b0, 0x72ab4b91, 0x26628815, 0xfecf0bc6, 0xd57b94a9, 0xb7755da1, 0xa80f11f0), 0xfb3e89cb,
      Working(0x05757ceb, 0x4172328d, 0xa14c14b0, 0x72ab4b91, 0xbd714038, 0xfecf0bc6, 0xd57b94a9, 0xb7755da1));
    NextRound(block, 49, 6, 1, Working(0x05757ceb, 0x4172328d, 0xa14c14b0, 0x72ab4b91, 0xbd714038, 0xfecf0bc6, 0xd57b94a9, 0xb7755da1), 0xcc7617db,
      Working(0xf11bfaa8, 0x05757ceb, 0x4172328d, 0xa14c14b0, 0x6e5c390c, 0xbd714038, 0xfecf0bc6, 0xd57b94a9));
    NextRound(block, 50, 6, 2, Working(0xf11bfaa8, 0x05757ceb, 0x4172328d, 0xa14c14b0, 0x6e5c390c, 0xbd714038, 0xfecf0bc6, 0xd57b94a9), 0xb9e66c34,
      Working(0x7a0508a1, 0xf11bfaa8, 0x05757ceb, 0x4172328d, 0x52f1ccf7, 0x6e5c390c, 0xbd714038, 0xfecf0bc6));
    NextRound(block, 51, 6, 3, Working(0x7a0508a1, 0xf11bfaa8, 0x05757ceb, 0x4172328d, 0x52f1ccf7, 0x6e5c390c, 0xbd714038, 0xfecf0bc6), 0xa9993667,
      Working(0x886e7a22, 0x7a0508a1, 0xf11bfaa8, 0x05757ceb, 0x49231c1e, 0x52f1ccf7, 0x6e5c390c, 0xbd714038));
  }

  lemma Values13()
    ensures Round(Working(0x886e7a22, 0x7a0508a1, 0xf11bfaa8, 0x05757ceb, 0x49231c1e, 0x52f1ccf7, 0x6e5c390c, 0xbd714038),
                  KRow(6)[4], 0x84badedd) ==
            Working(0x101fd28f, 0x886e7a22, 0x7a0508a1, 0xf11bfaa8, 0x529e7d00, 0x49231c1e, 0x52f1ccf7, 0x6e5c390c)
    ensures Round(Working(0x101fd28f, 0x886e7a22, 0x7a0508a1, 0xf11bfaa8, 0x529e7d00, 0x49231c1e, 0x52f1ccf7, 0x6e5c390c),
                  KRow(6)[5], 0xc21462bc) ==
            Working(0xf5702fdb, 0x101fd28f, 0x886e7a22, 0x7a0508a1, 0x9f4787c3, 0x529e7d00, 0x49231c1e, 0x52f1ccf7)
    ensures Round(Working(0xf5702fdb, 0x101fd28f, 0x886e7a22, 0x7a0508a1, 0x9f4787c3, 0x529e7d00, 0x49231c1e, 0x52f1ccf7),
                  KRow(6)[6], 0x1487472c) ==
            Working(0x3ec45cdb, 0xf5702fdb, 0x101fd28f, 0x886e7a22, 0xe50e1b4f, 0x9f4787c3, 0x529e7d00, 0x49231c1e)
    ensures Round(Working(0x3ec45cdb, 0xf5702fdb, 0x101fd28f, 0x886e7a22, 0xe50e1b4f, 0x9f4787c3, 0x529e7d00, 0x49231c1e),
                  KRow(6)[7], 0xb20f7a99) ==
            Working(0x38cc9913, 0x3ec45cdb, 0xf5702fdb, 0x101fd28f, 0x54cb266b, 0xe50e1b4f, 0x9f4787c3, 0x529e7d00)
  {
  }

  lemma Rounds13(block: seq<Byte>)
    requires IsAbcBlock(block)
    ensures Rounds(H0(), block, 56) == Working(0x38cc9913, 0x3ec45cdb, 0xf5702fdb, 0x101fd28f, 0x54cb266b, 0xe50e1b4f, 0x9f4787c3, 0x529e7d00)
  {
    Schedule6(block);
    Values13();
    Rounds12(block);
    hide *;
    NextRound(block, 52, 6, 4, Working(0x886e7a22, 0x7a0508a1, 0xf11bfaa8, 0x05757ceb, 0x49231c1e, 0x52f1ccf7, 0x6e5c390c, 0xbd714038), 0x84badedd,
      Working(0x101fd28f, 0x886e7a22, 0x7a0508a1, 0xf11bfaa8, 0x529e7d00, 0x49231c1e, 0x52f1ccf7, 0x6e5c390c));
    NextRound(block, 53, 6, 5, Working(0x101fd28f, 0x886e7a22, 0x7a0508a1, 0xf11bfaa8, 0x529e7d00, 0x49231c1e, 0x52f1ccf7, 0x6e5c390c), 0xc21462bc,
      Working(0xf5702fdb, 0x101fd28f, 0x886e7a22, 0x7a0508a1, 0x9f4787c3, 0x529e7d00, 0x49231c1e, 0x52f1ccf7));
    NextRound(block, 54, 6, 6, Working(0xf5702fdb, 0x101fd28f, 0x886e7a22, 0x7a0508a1, 0x9f4787c3, 0x529e7d00, 0x49231c1e, 0x52f1ccf7), 0x1487472c,
      Working(0x3ec45cdb, 0xf5702fdb, 0x101fd28f, 0x886e7a22, 0xe50e1b4f, 0x9f4787c3, 0x529e7d00, 0x49231c1e));
    NextRound(block, 55, 6, 7, Working(0x3ec45cdb, 0xf5702fdb, 0x101fd28f, 0x886e7a22, 0xe50e1b4f, 0x9f4787c3, 0x529e7d00, 0x49231c1e), 0xb20f7a99,
      Working(0x38cc9913, 0x3ec45cdb, 0xf5702fdb, 0x101fd28f, 0x54cb266b, 0xe50e1b4f, 0x9f4787c3, 0x529e7d00));
  }

  lemma Values14()
    ensures Round(Working(0x38cc9913, 0x3ec45cdb, 0xf5702fdb, 0x101fd28f, 0x54cb266b, 0xe50e1b4f, 0x9f4787c3, 0x529e7d00),
                  KRow(7)[0], 0xef57b9cd) ==
            Working(0xfcd1887b, 0x38cc9913, 0x3ec45cdb, 0xf5702fdb, 0x9b5e906c, 0x54cb266b, 0xe50e1b4f, 0x9f4787c3)
    ensures Round(Working(0xfcd1887b, 0x38cc9913, 0x3ec45cdb, 0xf5702fdb, 0x9b5e906c, 0x54cb266b, 0xe50e1b4f, 0x9f4787c3),
                  KRow(7)[1], 0xebe6b238) ==
            Working(0xc062d46f, 0xfcd1887b, 0x38cc9913, 0x3ec45cdb, 0x7e44008e, 0x9b5e906c, 0x54cb266b, 0xe50e1b4f)
    ensures Round(Working(0xc062d46f, 0xfcd1887b, 0x38cc9913, 0x3ec45cdb, 0x7e44008e, 0x9b5e906c, 0x54cb266b, 0xe50e1b4f),
                  KRow(7)[2], 0x9fe3095e) ==
            Working(0xffb70472, 0xc062d46f, 0xfcd1887b, 0x38cc9913, 0x6d83bfc6, 0x7e44008e, 0x9b5e906c, 0x54cb266b)
    ensures Round(Working(0xffb70472, 0xc062d46f, 0xfcd1887b, 0x38cc9913, 0x6d83bfc6, 0x7e44008e, 0x9b5e906c, 0x54cb266b),
                  KRow(7)[3], 0x78bc8d4b) ==
            Working(0xb6ae8fff, 0xffb70472, 0xc062d46f, 0xfcd1887b, 0xb21bad3d, 0x6d83bfc6, 0x7e44008e, 0x9b5e906c)
  {
  }

  lemma Rounds14(block: seq<Byte>)
    requires IsAbcBlock(block)
    ensures Rounds(H0(), block, 60) == Working(0xb6ae8fff, 0xffb70472, 0xc062d46f, 0xfcd1887b, 0xb21bad3d, 0x6d83bfc6, 0x7e44008e, 0x9b5e906c)
  {
    Schedule7(block);
    Values14();
    Rounds13(block);
    hide *;
    NextRound(block, 56, 7, 0, Working(0x38cc9913, 0x3ec45cdb, 0xf5702fdb, 0x101fd28f, 0x54cb266b, 0xe50e1b4f, 0x9f4787c3, 0x529e7d00), 0xef57b9cd,
      Working(0xfcd1887b, 0x38cc9913, 0x3ec45cdb, 0xf5702fdb, 0x9b5e906c, 0x54cb266b, 0xe50e1b4f, 0x9f4787c3));
    NextRound(block, 57, 7, 1, Working(0xfcd1887b, 0x38cc9913, 0x3ec45cdb, 0xf5702fdb, 0x9b5e906c, 0x54cb266b, 0xe50e1b4f, 0x9f4787c3), 0xebe6b238,
      Working(0xc062d46f, 0xfcd1887b, 0x38cc9913, 0x3ec45cdb, 0x7e44008e, 0x9b5e906c, 0x54cb266b, 0xe50e1b4f));
    NextRound(block, 58, 7, 2, Working(0xc062d46f, 0xfcd1887b, 0x38cc9913, 0x3ec45cdb, 0x7e44008e, 0x9b5e906c, 0x54cb266b, 0xe50e1b4f), 0x9fe3095e,
      Working(0xffb70472, 0xc062d46f, 0xfcd1887b, 0x38cc9913, 0x6d83bfc6, 0x7e44008e, 0x9b5e906c, 0x54cb266b));
    NextRound(block, 59, 7, 3, Working(0xffb70472, 0xc062d46f, 0xfcd1887b, 0x38cc9913, 0x6d83bfc6, 0x7e44008e, 0x9b5e906c, 0x54cb266b), 0x78bc8d4b,
      Working(0xb6ae8fff, 0xffb70472, 0xc062d46f, 0xfcd1887b, 0xb21bad3d, 0x6d83bfc6, 0x7e44008e, 0x9b5e906c));
  }

  lemma Values15()
    ensures Round(Working(0xb6ae8fff, 0xffb70472, 0xc062d46f, 0xfcd1887b, 0xb21bad3d, 0x6d83bfc6, 0x7e44008e, 0x9b5e906c),
                  KRow(7)[4], 0xa43fcf15) ==
            Working(0xb85e2ce9, 0xb6ae8fff, 0xffb70472, 0xc062d46f, 0x961f4894, 0xb21bad3d, 0x6d83bfc6, 0x7e44008e)
    ensures Round(Working(0xb85e2ce9, 0xb6ae8fff, 0xffb70472, 0xc062d46f, 0x961f4894, 0xb21bad3d, 0x6d83bfc6, 0x7e44008e),
                  KRow(7)[5], 0x668b2ff8) ==
            Working(0x04d24d6c, 0xb85e2ce9, 0xb6ae8fff, 0xffb70472, 0x948d25b6, 0x961f4894, 0xb21bad3d, 0x6d83bfc6)
    ensures Round(Working(0x04d24d6c, 0xb85e2ce9, 0xb6ae8fff, 0xffb70472, 0x948d25b6, 0x961f4894, 0xb21bad3d, 0x6d83bfc6),
                  KRow(7)[6], 0xeeaba2cc) ==
            Working(0xd39a2165, 0x04d24d6c, 0xb85e2ce9, 0xb6ae8fff, 0xfb121210, 0x948d25b6, 0x961f4894, 0xb21bad3d)
    ensures Round(Working(0xd39a2165, 0x04d24d6c, 0xb85e2ce9, 0xb6ae8fff, 0xfb121210, 0x948d25b6, 0x961f4894, 0xb21bad3d),
                  KRow(7)[7], 0x12b1edeb) ==
            Working(0x506e3058, 0xd39a2165, 0x04d24d6c, 0xb85e2ce9, 0x5ef50f24, 0xfb121210, 0x948d25b6, 0x961f4894)
  {
  }

  lemma Rounds15(block: seq<Byte>)
    requires IsAbcBlock(block)
    ensures Rounds(H0(), block, 64) == Working(0x506e3058, 0xd39a2165, 0x04d24d6c, 0xb85e2ce9, 0x5ef50f24, 0xfb121210, 0x948d25b6, 0x961f4894)
  {
    Schedule7(block);
    Values15();
    Rounds14(block);
    hide *;
    NextRound(block, 60, 7, 4, Working(0xb6ae8fff, 0xffb70472, 0xc062d46f, 0xfcd1887b, 0xb21bad3d, 0x6d83bfc6, 0x7e44008e, 0x9b5e906c), 0xa43fcf15,
      Working(0xb85e2ce9, 0xb6ae8fff, 0xffb70472, 0xc062d46f, 0x961f4894, 0xb21bad3d, 0x6d83bfc6, 0x7e44008e));
    NextRound(block, 61, 7, 5, Working(0xb85e2ce9, 0xb6ae8fff, 0xffb70472, 0xc062d46f, 0x961f4894, 0xb21bad3d, 0x6d83bfc6, 0x7e44008e), 0x668b2ff8,
      Working(0x04d24d6c, 0xb85e2ce9, 0xb6ae8fff, 0xffb70472, 0x948d25b6, 0x961f4894, 0xb21bad3d, 0x6d83bfc6));
    NextRound(block, 62, 7, 6, Working(0x04d24d6c, 0xb85e2ce9, 0xb6ae8fff, 0xffb70472, 0x948d25b6, 0x961f4894, 0xb21bad3d, 0x6d83bfc6), 0xeeaba2cc,
      Working(0xd39a2165, 0x04d24d6c, 0xb85e2ce9, 0xb6ae8fff, 0xfb121210, 0x948d25b6, 0x961f4894, 0xb21bad3d));
    NextRound(block, 63, 7, 7, Working(0xd39a2165, 0x04d24d6c, 0xb85e2ce9, 0xb6ae8fff, 0xfb121210, 0x948d25b6, 0x961f4894, 0xb21bad3d), 0x12b1edeb,
      Working(0x506e3058, 0xd39a2165, 0x04d24d6c, 0xb85e2ce9, 0x5ef50f24, 0xfb121210, 0x948d25b6, 0x961f4894));
  }

  // ----- the digest

  lemma AbcHash(block: seq<Byte>)
    requires IsAbcBlock(block)
    ensures Compress(H0(), block) == [0xba7816bf, 0x8f01cfea, 0x414140de, 0x5dae2223, 0xb00361a3, 0x96177a9c, 0xb410ff61, 0xf20015ad]
  {
    Rounds15(block);
    hide Rounds;
  }

  lemma OneBlock(p: seq<Byte>)
    requires |p| == BLOCK
    ensures HashBlocks(p) == Compress(H0(), p)
  {
    assert p[..0] == [] && p[0..] == p;
    hide Compress;
  }

  lemma LastWord(h: seq<Word>, w: Word)
    ensures WordsToBytes(h + [w]) == WordsToBytes(h) + FromWord(w)
  {
    assert (h + [w])[..|h|] == h;
  }

  lemma FourWords(h: seq<Word>, a: Word, b: Word, c: Word, d: Word)
    ensures WordsToBytes(h + [a, b, c, d]) == WordsToBytes(h) + (FromWord(a) + FromWord(b) + FromWord(c) + FromWord(d))
  {
    hide FromWord, WordsToBytes;
    LastWord(h, a);
    LastWord(h + [a], b);
    LastWord(h + [a] + [b], c);
    LastWord(h + [a] + [b] + [c], d);
    assert h + [a] + [b] + [c] + [d] == h + [a, b, c, d];
  }

  lemma EightWords(a: Word, b: Word, c: Word, d: Word, e: Word, f: Word, g: Word, h: Word)
    ensures WordsToBytes([a, b, c, d, e, f, g, h]) ==
      (FromWord(a) + FromWord(b) + FromWord(c) + FromWord(d)) + (FromWord(e) + FromWord(f) + FromWord(g) + FromWord(h))
  {
    assert WordsToBytes([]) == [];
    hide FromWord, WordsToBytes;
    FourWords([], a, b, c, d);
    FourWords([a, b, c, d], e, f, g, h);
    assert [] + [a, b, c, d] == [a, b, c, d] && [a, b, c, d] + [e, f, g, h] == [a, b, c, d, e, f, g, h];
  }

  lemma DigestOf(msg: seq<Byte>, h: seq<Word>)
    requires HashBlocks(Pad(msg)) == h
    ensures Digest(msg) == WordsToBytes(h)
  {
  }

  /** The known answer of the standard. */
  lemma AbcDigest()
    ensures Digest(Abc()) ==
      (FromWord(0xba7816bf) + FromWord(0x8f01cfea) + FromWord(0x414140de) + FromWord(0x5dae2223)) +
      (FromWord(0xb00361a3) + FromWord(0x96177a9c) + FromWord(0xb410ff61) + FromWord(0xf20015ad))
  {
    var p, h := Pad(Abc()), [0xba7816bf, 0x8f01cfea, 0x414140de, 0x5dae2223, 0xb00361a3, 0x96177a9c, 0xb410ff61, 0xf20015ad];
    hide *;
    AbcPadded();
    OneBlock(p);
    AbcHash(p);
    DigestOf(Abc(), h);
    EightWords(0xba7816bf, 0x8f01cfea, 0x414140de, 0x5dae2223, 0xb00361a3, 0x96177a9c, 0xb410ff61, 0xf20015ad);
  }

  /** The first four bytes of it. */
  lemma FirstBytes()
    ensures FromWord(0xba7816bf) == [0xba, 0x78, 0x16, 0xbf]
  {
  }
}
