/** The first block of the CBC-AES128 example in appendix F.2.1 of NIST SP 800-38A. */
module AesCbcVector {
  import opened AesTables
  import opened AesField
  import opened AesCipher
  import opened Aes
  import opened AesKeys
  import opened AesVector
  import opened AesCbc

  function ChainedKey(): (k: seq<bv8>)
    ensures |k| == 16
  {
    [0x2b, 0x7e, 0x15, 0x16, 0x28, 0xae, 0xd2, 0xa6, 0xab, 0xf7, 0x15, 0x88, 0x09, 0xcf, 0x4f, 0x3c]
  }

  function ChainedBlock(): Block {
    [0x6b, 0xc0, 0xbc, 0xe1, 0x2a, 0x45, 0x99, 0x91, 0xe1, 0x34, 0x74, 0x1a, 0x7f, 0x9e, 0x19, 0x25]
  }

  /** Round key r. */
  function ChainedRoundKey(r: nat): State {
    if r == 0 then State(0x2b7e1516, 0x28aed2a6, 0xabf71588, 0x09cf4f3c)
    else if r == 1 then State(0xa0fafe17, 0x88542cb1, 0x23a33939, 0x2a6c7605)
    else if r == 2 then State(0xf2c295f2, 0x7a96b943, 0x5935807a, 0x7359f67f)
    else if r == 3 then State(0x3d80477d, 0x4716fe3e, 0x1e237e44, 0x6d7a883b)
    else if r == 4 then State(0xef44a541, 0xa8525b7f, 0xb671253b, 0xdb0bad00)
    else if r == 5 then State(0xd4d1c6f8, 0x7c839d87, 0xcaf2b8bc, 0x11f915bc)
    else if r == 6 then State(0x6d88a37a, 0x110b3efd, 0xdbf98641, 0xca0093fd)
    else if r == 7 then State(0x4e54f70e, 0x5f5fc9f3, 0x84a64fb2, 0x4ea6dc4f)
    else if r == 8 then State(0xead27321, 0xb58dbad2, 0x312bf560, 0x7f8d292f)
    else if r == 9 then State(0xac7766f3, 0x19fadc21, 0x28d12941, 0x575c006e)
    else State(0xd014f9a8, 0xc9ee2589, 0xe13f0cc8, 0xb6630ca6)
  }

  /** The state after round r. */
  function ChainedState(r: nat): State {
    if r == 0 then State(0x40bea9f7, 0x02eb4b37, 0x4ac36192, 0x76515619)
    else if r == 1 then State(0xa9c4bcb9, 0xcddfb467, 0xb5383675, 0x4f924cce)
    else if r == 2 then State(0x78b2540a, 0x6d08ab1d, 0xd9544425, 0x54f4d358)
    else if r == 3 then State(0x7f1b435d, 0x5ea787f2, 0x2ab743d7, 0x29ad1a70)
    else if r == 4 then State(0xff51ecc8, 0x16f22104, 0x5002e189, 0x79dc9b50)
    else if r == 5 then State(0xd38e4715, 0x97fea6e6, 0xc10de7fe, 0x544d6104)
    else if r == 6 then State(0x11d64000, 0xce454ff4, 0x3b29cf8d, 0x3ec534cd)
    else if r == 7 then State(0xd432c816, 0xddce720e, 0x1cb7c345, 0xe9296c4a)
    else if r == 8 then State(0x04338deb, 0xdbb2bbfd, 0xa56ee1df, 0x087b26b2)
    else State(0xc5cf115f, 0xd48d2f50, 0x4e26489f, 0x1d4a8530)
  }

  lemma ChainedStart(ks: seq<State>)
    requires ks == seq(11, (r: nat) => ChainedRoundKey(r))
    ensures StartsWith(ChainedKey(), 4, ks)
  {
    hide KeyBytes, ChainedKey;
    ChainedKeyWord0();
    ChainedKeyWord1();
    ChainedKeyWord2();
    ChainedKeyWord3();
  }

  lemma ChainedKeyWord0()
    ensures KeyBytes(ChainedKey(), 0) == 0x2b7e1516
  {
    var k := ChainedKey();
    assert k[0] == 0x2b && k[1] == 0x7e && k[2] == 0x15 && k[3] == 0x16;
  }

  lemma ChainedKeyWord1()
    ensures KeyBytes(ChainedKey(), 1) == 0x28aed2a6
  {
    var k := ChainedKey();
    assert k[4] == 0x28 && k[5] == 0xae && k[6] == 0xd2 && k[7] == 0xa6;
  }

  lemma ChainedKeyWord2()
    ensures KeyBytes(ChainedKey(), 2) == 0xabf71588
  {
    var k := ChainedKey();
    assert k[8] == 0xab && k[9] == 0xf7 && k[10] == 0x15 && k[11] == 0x88;
  }

  lemma ChainedKeyWord3()
    ensures KeyBytes(ChainedKey(), 3) == 0x09cf4f3c
  {
    var k := ChainedKey();
    assert k[12] == 0x09 && k[13] == 0xcf && k[14] == 0x4f && k[15] == 0x3c;
  }

  lemma ChainedRow1Core()
    ensures AddW(SubWord(RotWord(0x09cf4f3c)), Rcon(1)) == 0x8b84eb01
  {
  }

  lemma ChainedRow1()
    ensures Follows(4, 1, State(0x2b7e1516, 0x28aed2a6, 0xabf71588, 0x09cf4f3c),
                    State(0x2b7e1516, 0x28aed2a6, 0xabf71588, 0x09cf4f3c),
                    State(0xa0fafe17, 0x88542cb1, 0x23a33939, 0x2a6c7605))
  {
    hide SubWord, RotWord, Rcon;
    ChainedRow1Core();
  }

  lemma ChainedRow2Core()
    ensures AddW(SubWord(RotWord(0x2a6c7605)), Rcon(2)) == 0x52386be5
  {
  }

  lemma ChainedRow2()
    ensures Follows(4, 2, State(0x2b7e1516, 0x28aed2a6, 0xabf71588, 0x09cf4f3c),
                    State(0xa0fafe17, 0x88542cb1, 0x23a33939, 0x2a6c7605),
                    State(0xf2c295f2, 0x7a96b943, 0x5935807a, 0x7359f67f))
  {
    hide SubWord, RotWord, Rcon;
    ChainedRow2Core();
  }

  lemma ChainedRow3Core()
    ensures AddW(SubWord(RotWord(0x7359f67f)), Rcon(3)) == 0xcf42d28f
  {
  }

  lemma ChainedRow3()
    ensures Follows(4, 3, State(0xa0fafe17, 0x88542cb1, 0x23a33939, 0x2a6c7605),
                    State(0xf2c295f2, 0x7a96b943, 0x5935807a, 0x7359f67f),
                    State(0x3d80477d, 0x4716fe3e, 0x1e237e44, 0x6d7a883b))
  {
    hide SubWord, RotWord, Rcon;
    ChainedRow3Core();
  }

  lemma ChainedRow4Core()
    ensures AddW(SubWord(RotWord(0x6d7a883b)), Rcon(4)) == 0xd2c4e23c
  {
  }

  lemma ChainedRow4()
    ensures Follows(4, 4, State(0xf2c295f2, 0x7a96b943, 0x5935807a, 0x7359f67f),
                    State(0x3d80477d, 0x4716fe3e, 0x1e237e44, 0x6d7a883b),
                    State(0xef44a541, 0xa8525b7f, 0xb671253b, 0xdb0bad00))
  {
    hide SubWord, RotWord, Rcon;
    ChainedRow4Core();
  }

  lemma ChainedRow5Core()
    ensures AddW(SubWord(RotWord(0xdb0bad00)), Rcon(5)) == 0x3b9563b9
  {
  }

  lemma ChainedRow5()
    ensures Follows(4, 5, State(0x3d80477d, 0x4716fe3e, 0x1e237e44, 0x6d7a883b),
                    State(0xef44a541, 0xa8525b7f, 0xb671253b, 0xdb0bad00),
                    State(0xd4d1c6f8, 0x7c839d87, 0xcaf2b8bc, 0x11f915bc))
  {
    hide SubWord, RotWord, Rcon;
    ChainedRow5Core();
  }

  lemma ChainedRow6Core()
    ensures AddW(SubWord(RotWord(0x11f915bc)), Rcon(6)) == 0xb9596582
  {
  }

  lemma ChainedRow6()
    ensures Follows(4, 6, State(0xef44a541, 0xa8525b7f, 0xb671253b, 0xdb0bad00),
                    State(0xd4d1c6f8, 0x7c839d87, 0xcaf2b8bc, 0x11f915bc),
                    State(0x6d88a37a, 0x110b3efd, 0xdbf98641, 0xca0093fd))
  {
    hide SubWord, RotWord, Rcon;
    ChainedRow6Core();
  }

  lemma ChainedRow7Core()
    ensures AddW(SubWord(RotWord(0xca0093fd)), Rcon(7)) == 0x23dc5474
  {
  }

  lemma ChainedRow7()
    ensures Follows(4, 7, State(0xd4d1c6f8, 0x7c839d87, 0xcaf2b8bc, 0x11f915bc),
                    State(0x6d88a37a, 0x110b3efd, 0xdbf98641, 0xca0093fd),
                    State(0x4e54f70e, 0x5f5fc9f3, 0x84a64fb2, 0x4ea6dc4f))
  {
    hide SubWord, RotWord, Rcon;
    ChainedRow7Core();
  }

  lemma ChainedRow8Core()
    ensures AddW(SubWord(RotWord(0x4ea6dc4f)), Rcon(8)) == 0xa486842f
  {
  }

  lemma ChainedRow8()
    ensures Follows(4, 8, State(0x6d88a37a, 0x110b3efd, 0xdbf98641, 0xca0093fd),
                    State(0x4e54f70e, 0x5f5fc9f3, 0x84a64fb2, 0x4ea6dc4f),
                    State(0xead27321, 0xb58dbad2, 0x312bf560, 0x7f8d292f))
  {
    hide SubWord, RotWord, Rcon;
    ChainedRow8Core();
  }

  lemma ChainedRow9Core()
    ensures AddW(SubWord(RotWord(0x7f8d292f)), Rcon(9)) == 0x46a515d2
  {
  }

  lemma ChainedRow9()
    ensures Follows(4, 9, State(0x4e54f70e, 0x5f5fc9f3, 0x84a64fb2, 0x4ea6dc4f),
                    State(0xead27321, 0xb58dbad2, 0x312bf560, 0x7f8d292f),
                    State(0xac7766f3, 0x19fadc21, 0x28d12941, 0x575c006e))
  {
    hide SubWord, RotWord, Rcon;
    ChainedRow9Core();
  }

  lemma ChainedRow10Core()
    ensures AddW(SubWord(RotWord(0x575c006e)), Rcon(10)) == 0x7c639f5b
  {
  }

  lemma ChainedRow10()
    ensures Follows(4, 10, State(0xead27321, 0xb58dbad2, 0x312bf560, 0x7f8d292f),
                    State(0xac7766f3, 0x19fadc21, 0x28d12941, 0x575c006e),
                    State(0xd014f9a8, 0xc9ee2589, 0xe13f0cc8, 0xb6630ca6))
  {
    hide SubWord, RotWord, Rcon;
    ChainedRow10Core();
  }

  lemma ChainedRound1()
    ensures FullRound(State(0x40bea9f7, 0x02eb4b37, 0x4ac36192, 0x76515619),
                      State(0xa0fafe17, 0x88542cb1, 0x23a33939, 0x2a6c7605)) ==
            State(0xa9c4bcb9, 0xcddfb467, 0xb5383675, 0x4f924cce)
  {
  }

  lemma ChainedRound2()
    ensures FullRound(State(0xa9c4bcb9, 0xcddfb467, 0xb5383675, 0x4f924cce),
                      State(0xf2c295f2, 0x7a96b943, 0x5935807a, 0x7359f67f)) ==
            State(0x78b2540a, 0x6d08ab1d, 0xd9544425, 0x54f4d358)
  {
  }

  lemma ChainedRound3()
    ensures FullRound(State(0x78b2540a, 0x6d08ab1d, 0xd9544425, 0x54f4d358),
                      State(0x3d80477d, 0x4716fe3e, 0x1e237e44, 0x6d7a883b)) ==
            State(0x7f1b435d, 0x5ea787f2, 0x2ab743d7, 0x29ad1a70)
  {
  }

  lemma ChainedRound4()
    ensures FullRound(State(0x7f1b435d, 0x5ea787f2, 0x2ab743d7, 0x29ad1a70),
                      State(0xef44a541, 0xa8525b7f, 0xb671253b, 0xdb0bad00)) ==
            State(0xff51ecc8, 0x16f22104, 0x5002e189, 0x79dc9b50)
  {
  }

  lemma ChainedRound5()
    ensures FullRound(State(0xff51ecc8, 0x16f22104, 0x5002e189, 0x79dc9b50),
                      State(0xd4d1c6f8, 0x7c839d87, 0xcaf2b8bc, 0x11f915bc)) ==
            State(0xd38e4715, 0x97fea6e6, 0xc10de7fe, 0x544d6104)
  {
  }

  lemma ChainedRound6()
    ensures FullRound(State(0xd38e4715, 0x97fea6e6, 0xc10de7fe, 0x544d6104),
                      State(0x6d88a37a, 0x110b3efd, 0xdbf98641, 0xca0093fd)) ==
            State(0x11d64000, 0xce454ff4, 0x3b29cf8d, 0x3ec534cd)
  {
  }

  lemma ChainedRound7()
    ensures FullRound(State(0x11d64000, 0xce454ff4, 0x3b29cf8d, 0x3ec534cd),
                      State(0x4e54f70e, 0x5f5fc9f3, 0x84a64fb2, 0x4ea6dc4f)) ==
            State(0xd432c816, 0xddce720e, 0x1cb7c345, 0xe9296c4a)
  {
  }

  lemma ChainedRound8()
    ensures FullRound(State(0xd432c816, 0xddce720e, 0x1cb7c345, 0xe9296c4a),
                      State(0xead27321, 0xb58dbad2, 0x312bf560, 0x7f8d292f)) ==
            State(0x04338deb, 0xdbb2bbfd, 0xa56ee1df, 0x087b26b2)
  {
  }

  lemma ChainedRound9()
    ensures FullRound(State(0x04338deb, 0xdbb2bbfd, 0xa56ee1df, 0x087b26b2),
                      State(0xac7766f3, 0x19fadc21, 0x28d12941, 0x575c006e)) ==
            State(0xc5cf115f, 0xd48d2f50, 0x4e26489f, 0x1d4a8530)
  {
  }

  lemma ChainedRows(ks: seq<State>)
    requires ks == seq(11, (r: nat) => ChainedRoundKey(r))
    ensures Expands(ChainedKey(), 4, ks)
  {
    hide Follows, StartsWith, ChainedKey;
    ChainedStart(ks);
    forall r | 1 <= r < 11 ensures Follows(4, r, ks[if r >= 2 then r - 2 else 0], ks[r - 1], ks[r]) {
      if r == 1 {
        ChainedRow1();
      } else if r == 2 {
        ChainedRow2();
      } else if r == 3 {
        ChainedRow3();
      } else if r == 4 {
        ChainedRow4();
      } else if r == 5 {
        ChainedRow5();
      } else if r == 6 {
        ChainedRow6();
      } else if r == 7 {
        ChainedRow7();
      } else if r == 8 {
        ChainedRow8();
      } else if r == 9 {
        ChainedRow9();
      } else if r == 10 {
        ChainedRow10();
      }
    }
  }

  lemma ChainedAllRounds(ks: seq<State>, ss: seq<State>)
    requires ks == seq(11, (r: nat) => ChainedRoundKey(r)) && ss == seq(10, (r: nat) => ChainedState(r))
    ensures Goes(Load(ChainedBlock()), ks, ss)
  {
    hide FullRound, Load, AddRoundKey, ChainedBlock;
    ChainedRound0();
    forall r | 1 <= r < 10 ensures FullRound(ss[r - 1], ks[r]) == ss[r] {
      if r == 1 {
        ChainedRound1();
      } else if r == 2 {
        ChainedRound2();
      } else if r == 3 {
        ChainedRound3();
      } else if r == 4 {
        ChainedRound4();
      } else if r == 5 {
        ChainedRound5();
      } else if r == 6 {
        ChainedRound6();
      } else if r == 7 {
        ChainedRound7();
      } else if r == 8 {
        ChainedRound8();
      } else if r == 9 {
        ChainedRound9();
      }
    }
  }

  lemma ChainedRound0()
    ensures AddRoundKey(Load(ChainedBlock()), ChainedRoundKey(0)) == ChainedState(0)
  {
  }

  lemma ChainedLast()
    ensures LastRound(State(0xc5cf115f, 0xd48d2f50, 0x4e26489f, 0x1d4a8530),
                      State(0xd014f9a8, 0xc9ee2589, 0xe13f0cc8, 0xb6630ca6)) ==
            State(0x7649abac, 0x8119b246, 0xcee98e9b, 0x12e9197d)
  {
  }

  lemma ChainedOut()
    ensures Store(State(0x7649abac, 0x8119b246, 0xcee98e9b, 0x12e9197d)) ==
            [0x76, 0x49, 0xab, 0xac, 0x81, 0x19, 0xb2, 0x46, 0xce, 0xe9, 0x8e, 0x9b, 0x12, 0xe9, 0x19, 0x7d]
  {
  }

  /** The cipher on the input block the standard prints. */
  lemma InputBlockVector(w: seq<bv32>)
    requires w == KeySchedule(ChainedKey(), 4, 44)
    ensures Rounds(10) && |w| == 44
    ensures EncryptBlock(w, 10, ChainedBlock()) ==
            [0x76, 0x49, 0xab, 0xac, 0x81, 0x19, 0xb2, 0x46, 0xce, 0xe9, 0x8e, 0x9b, 0x12, 0xe9, 0x19, 0x7d]
  {
    hide Expands, Goes, LastRound, Store, ChainedKey, ChainedBlock, EncryptBlock, KeySchedule;
    var ks, ss := seq(11, (r: nat) => ChainedRoundKey(r)), seq(10, (r: nat) => ChainedState(r));
    ChainedRows(ks);
    ChainedAllRounds(ks, ss);
    ChainedLast();
    ChainedOut();
    Works(ChainedKey(), 4, ChainedBlock(), ks, ss,
          State(0x7649abac, 0x8119b246, 0xcee98e9b, 0x12e9197d));
  }

  function InitVector(): Block {
    [0x00, 0x01, 0x02, 0x03, 0x04, 0x05, 0x06, 0x07, 0x08, 0x09, 0x0a, 0x0b, 0x0c, 0x0d, 0x0e, 0x0f]
  }

  function Plaintext(): Block {
    [0x6b, 0xc1, 0xbe, 0xe2, 0x2e, 0x40, 0x9f, 0x96, 0xe9, 0x3d, 0x7e, 0x11, 0x73, 0x93, 0x17, 0x2a]
  }

  /** The plaintext xored with the initial vector is the input block the standard prints. */
  lemma InputBlock()
    ensures XorInto(Plaintext(), InitVector()) == ChainedBlock()
  {
    hide Add, Plaintext, InitVector, ChainedBlock;
    var p, iv, x := Plaintext(), InitVector(), ChainedBlock();
    forall i | 0 <= i < 16 ensures Add(p[i], iv[i]) == x[i] {
      InputByte(i);
    }
  }

  lemma InputByte(i: nat)
    requires i < 16
    ensures Add(Plaintext()[i], InitVector()[i]) == ChainedBlock()[i]
  {
    hide Add;
    InputBytes();
  }

  lemma InputBytes()
    ensures Add(0x6b, 0x00) == 0x6b && Add(0xc1, 0x01) == 0xc0 && Add(0xbe, 0x02) == 0xbc && Add(0xe2, 0x03) == 0xe1
    ensures Add(0x2e, 0x04) == 0x2a && Add(0x40, 0x05) == 0x45 && Add(0x9f, 0x06) == 0x99 && Add(0x96, 0x07) == 0x91
    ensures Add(0xe9, 0x08) == 0xe1 && Add(0x3d, 0x09) == 0x34 && Add(0x7e, 0x0a) == 0x74 && Add(0x11, 0x0b) == 0x1a
    ensures Add(0x73, 0x0c) == 0x7f && Add(0x93, 0x0d) == 0x9e && Add(0x17, 0x0e) == 0x19 && Add(0x2a, 0x0f) == 0x25
  {
  }

  /** CBC under the example key: first plaintext block in, first ciphertext block out. */
  lemma CbcVector(w: seq<bv32>)
    requires w == KeySchedule(ChainedKey(), 4, 44)
    ensures Rounds(10) && |w| == 44
    ensures CbcEnc(AesKeyed(w, 10), InitVector(), Plaintext()) ==
            [0x76, 0x49, 0xab, 0xac, 0x81, 0x19, 0xb2, 0x46, 0xce, 0xe9, 0x8e, 0x9b, 0x12, 0xe9, 0x19, 0x7d]
  {
    hide KeySchedule, ChainedKey, ChainedBlock, EncryptBlock, XorInto, CbcEnc, InitVector, Plaintext;
    InputBlockVector(w);
    InputBlock();
    OneBlock(AesKeyed(w, 10), InitVector(), Plaintext());
  }
}
