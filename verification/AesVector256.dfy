/** The vector of appendix C.3 of FIPS 197: a 256-bit key. */
module AesVector256 {
  import opened AesTables
  import opened AesField
  import opened AesCipher
  import opened Aes
  import opened AesKeys
  import opened AesVector

  function Vec256Key(): (k: seq<bv8>)
    ensures |k| == 32
  {
    [0x00, 0x01, 0x02, 0x03, 0x04, 0x05, 0x06, 0x07, 0x08, 0x09, 0x0a, 0x0b, 0x0c, 0x0d, 0x0e, 0x0f,
     0x10, 0x11, 0x12, 0x13, 0x14, 0x15, 0x16, 0x17, 0x18, 0x19, 0x1a, 0x1b, 0x1c, 0x1d, 0x1e, 0x1f]
  }

  function Vec256Block(): Block {
    [0x00, 0x11, 0x22, 0x33, 0x44, 0x55, 0x66, 0x77, 0x88, 0x99, 0xaa, 0xbb, 0xcc, 0xdd, 0xee, 0xff]
  }

  /** Round key r. */
  function Vec256RoundKey(r: nat): State {
    if r == 0 then State(0x00010203, 0x04050607, 0x08090a0b, 0x0c0d0e0f)
    else if r == 1 then State(0x10111213, 0x14151617, 0x18191a1b, 0x1c1d1e1f)
    else if r == 2 then State(0xa573c29f, 0xa176c498, 0xa97fce93, 0xa572c09c)
    else if r == 3 then State(0x1651a8cd, 0x0244beda, 0x1a5da4c1, 0x0640bade)
    else if r == 4 then State(0xae87dff0, 0x0ff11b68, 0xa68ed5fb, 0x03fc1567)
    else if r == 5 then State(0x6de1f148, 0x6fa54f92, 0x75f8eb53, 0x73b8518d)
    else if r == 6 then State(0xc656827f, 0xc9a79917, 0x6f294cec, 0x6cd5598b)
    else if r == 7 then State(0x3de23a75, 0x524775e7, 0x27bf9eb4, 0x5407cf39)
    else if r == 8 then State(0x0bdc905f, 0xc27b0948, 0xad5245a4, 0xc1871c2f)
    else if r == 9 then State(0x45f5a660, 0x17b2d387, 0x300d4d33, 0x640a820a)
    else if r == 10 then State(0x7ccff71c, 0xbeb4fe54, 0x13e6bbf0, 0xd261a7df)
    else if r == 11 then State(0xf01afafe, 0xe7a82979, 0xd7a5644a, 0xb3afe640)
    else if r == 12 then State(0x2541fe71, 0x9bf50025, 0x8813bbd5, 0x5a721c0a)
    else if r == 13 then State(0x4e5a6699, 0xa9f24fe0, 0x7e572baa, 0xcdf8cdea)
    else State(0x24fc79cc, 0xbf0979e9, 0x371ac23c, 0x6d68de36)
  }

  /** The state after round r. */
  function Vec256State(r: nat): State {
    if r == 0 then State(0x00102030, 0x40506070, 0x8090a0b0, 0xc0d0e0f0)
    else if r == 1 then State(0x4f637606, 0x43e0aa85, 0xefa72132, 0x01a4e705)
    else if r == 2 then State(0x1859fbc2, 0x8a1c00a0, 0x78ed8aad, 0xc42f6109)
    else if r == 3 then State(0x975c66c1, 0xcb9f3fa8, 0xa93a28df, 0x8ee10f63)
    else if r == 4 then State(0x1c05f271, 0xa417e04f, 0xf921c5c1, 0x04701554)
    else if r == 5 then State(0xc357aae1, 0x1b45b7b0, 0xa2c7bd28, 0xa8dc99fa)
    else if r == 6 then State(0x7f074143, 0xcb4e243e, 0xc10c815d, 0x8375d54c)
    else if r == 7 then State(0xd653a469, 0x6ca0bc0f, 0x5acaab5d, 0xb96c5e7d)
    else if r == 8 then State(0x5aa85839, 0x5fd28d7d, 0x05e1a388, 0x68f3b9c5)
    else if r == 9 then State(0x4a824851, 0xc57e7e47, 0x643de50c, 0x2af3e8c9)
    else if r == 10 then State(0xc14907f6, 0xca3b3aa0, 0x70e9aa31, 0x3b52b5ec)
    else if r == 11 then State(0x5f9c6abf, 0xbac634aa, 0x50409fa7, 0x66677653)
    else if r == 12 then State(0x51660495, 0x43539503, 0x14fb86e4, 0x01922521)
    else State(0x627bceb9, 0x999d5aaa, 0xc945ecf4, 0x23f56da5)
  }

  lemma Vec256Start(ks: seq<State>)
    requires ks == seq(15, (r: nat) => Vec256RoundKey(r))
    ensures StartsWith(Vec256Key(), 8, ks)
  {
    hide KeyBytes, Vec256Key;
    Vec256KeyWord0();
    Vec256KeyWord1();
    Vec256KeyWord2();
    Vec256KeyWord3();
    Vec256KeyWord4();
    Vec256KeyWord5();
    Vec256KeyWord6();
    Vec256KeyWord7();
  }

  lemma Vec256KeyWord0()
    ensures KeyBytes(Vec256Key(), 0) == 0x00010203
  {
    var k := Vec256Key();
    assert k[0] == 0x00 && k[1] == 0x01 && k[2] == 0x02 && k[3] == 0x03;
  }

  lemma Vec256KeyWord1()
    ensures KeyBytes(Vec256Key(), 1) == 0x04050607
  {
    var k := Vec256Key();
    assert k[4] == 0x04 && k[5] == 0x05 && k[6] == 0x06 && k[7] == 0x07;
  }

  lemma Vec256KeyWord2()
    ensures KeyBytes(Vec256Key(), 2) == 0x08090a0b
  {
    var k := Vec256Key();
    assert k[8] == 0x08 && k[9] == 0x09 && k[10] == 0x0a && k[11] == 0x0b;
  }

  lemma Vec256KeyWord3()
    ensures KeyBytes(Vec256Key(), 3) == 0x0c0d0e0f
  {
    var k := Vec256Key();
    assert k[12] == 0x0c && k[13] == 0x0d && k[14] == 0x0e && k[15] == 0x0f;
  }

  lemma Vec256KeyWord4()
    ensures KeyBytes(Vec256Key(), 4) == 0x10111213
  {
    var k := Vec256Key();
    assert k[16] == 0x10 && k[17] == 0x11 && k[18] == 0x12 && k[19] == 0x13;
  }

  lemma Vec256KeyWord5()
    ensures KeyBytes(Vec256Key(), 5) == 0x14151617
  {
    var k := Vec256Key();
    assert k[20] == 0x14 && k[21] == 0x15 && k[22] == 0x16 && k[23] == 0x17;
  }

  lemma Vec256KeyWord6()
    ensures KeyBytes(Vec256Key(), 6) == 0x18191a1b
  {
    var k := Vec256Key();
    assert k[24] == 0x18 && k[25] == 0x19 && k[26] == 0x1a && k[27] == 0x1b;
  }

  lemma Vec256KeyWord7()
    ensures KeyBytes(Vec256Key(), 7) == 0x1c1d1e1f
  {
    var k := Vec256Key();
    assert k[28] == 0x1c && k[29] == 0x1d && k[30] == 0x1e && k[31] == 0x1f;
  }

  lemma Vec256Row1()
    ensures Follows(8, 1, State(0x00010203, 0x04050607, 0x08090a0b, 0x0c0d0e0f),
                    State(0x00010203, 0x04050607, 0x08090a0b, 0x0c0d0e0f),
                    State(0x10111213, 0x14151617, 0x18191a1b, 0x1c1d1e1f))
  {
    hide SubWord, RotWord, Rcon;
  }

  lemma Vec256Row2Core()
    ensures AddW(SubWord(RotWord(0x1c1d1e1f)), Rcon(1)) == 0xa572c09c
  {
  }

  lemma Vec256Row2()
    ensures Follows(8, 2, State(0x00010203, 0x04050607, 0x08090a0b, 0x0c0d0e0f),
                    State(0x10111213, 0x14151617, 0x18191a1b, 0x1c1d1e1f),
                    State(0xa573c29f, 0xa176c498, 0xa97fce93, 0xa572c09c))
  {
    hide SubWord, RotWord, Rcon;
    Vec256Row2Core();
  }

  lemma Vec256Row3Core()
    ensures SubWord(0xa572c09c) == 0x0640bade
  {
  }

  lemma Vec256Row3()
    ensures Follows(8, 3, State(0x10111213, 0x14151617, 0x18191a1b, 0x1c1d1e1f),
                    State(0xa573c29f, 0xa176c498, 0xa97fce93, 0xa572c09c),
                    State(0x1651a8cd, 0x0244beda, 0x1a5da4c1, 0x0640bade))
  {
    hide SubWord, RotWord, Rcon;
    Vec256Row3Core();
  }

  lemma Vec256Row4Core()
    ensures AddW(SubWord(RotWord(0x0640bade)), Rcon(2)) == 0x0bf41d6f
  {
  }

  lemma Vec256Row4()
    ensures Follows(8, 4, State(0xa573c29f, 0xa176c498, 0xa97fce93, 0xa572c09c),
                    State(0x1651a8cd, 0x0244beda, 0x1a5da4c1, 0x0640bade),
                    State(0xae87dff0, 0x0ff11b68, 0xa68ed5fb, 0x03fc1567))
  {
    hide SubWord, RotWord, Rcon;
    Vec256Row4Core();
  }

  lemma Vec256Row5Core()
    ensures SubWord(0x03fc1567) == 0x7bb05985
  {
  }

  lemma Vec256Row5()
    ensures Follows(8, 5, State(0x1651a8cd, 0x0244beda, 0x1a5da4c1, 0x0640bade),
                    State(0xae87dff0, 0x0ff11b68, 0xa68ed5fb, 0x03fc1567),
                    State(0x6de1f148, 0x6fa54f92, 0x75f8eb53, 0x73b8518d))
  {
    hide SubWord, RotWord, Rcon;
    Vec256Row5Core();
  }

  lemma Vec256Row6Core()
    ensures AddW(SubWord(RotWord(0x73b8518d)), Rcon(3)) == 0x68d15d8f
  {
  }

  lemma Vec256Row6()
    ensures Follows(8, 6, State(0xae87dff0, 0x0ff11b68, 0xa68ed5fb, 0x03fc1567),
                    State(0x6de1f148, 0x6fa54f92, 0x75f8eb53, 0x73b8518d),
                    State(0xc656827f, 0xc9a79917, 0x6f294cec, 0x6cd5598b))
  {
    hide SubWord, RotWord, Rcon;
    Vec256Row6Core();
  }

  lemma Vec256Row7Core()
    ensures SubWord(0x6cd5598b) == 0x5003cb3d
  {
  }

  lemma Vec256Row7()
    ensures Follows(8, 7, State(0x6de1f148, 0x6fa54f92, 0x75f8eb53, 0x73b8518d),
                    State(0xc656827f, 0xc9a79917, 0x6f294cec, 0x6cd5598b),
                    State(0x3de23a75, 0x524775e7, 0x27bf9eb4, 0x5407cf39))
  {
    hide SubWord, RotWord, Rcon;
    Vec256Row7Core();
  }

  lemma Vec256Row8Core()
    ensures AddW(SubWord(RotWord(0x5407cf39)), Rcon(4)) == 0xcd8a1220
  {
  }

  lemma Vec256Row8()
    ensures Follows(8, 8, State(0xc656827f, 0xc9a79917, 0x6f294cec, 0x6cd5598b),
                    State(0x3de23a75, 0x524775e7, 0x27bf9eb4, 0x5407cf39),
                    State(0x0bdc905f, 0xc27b0948, 0xad5245a4, 0xc1871c2f))
  {
    hide SubWord, RotWord, Rcon;
    Vec256Row8Core();
  }

  lemma Vec256Row9Core()
    ensures SubWord(0xc1871c2f) == 0x78179c15
  {
  }

  lemma Vec256Row9()
    ensures Follows(8, 9, State(0x3de23a75, 0x524775e7, 0x27bf9eb4, 0x5407cf39),
                    State(0x0bdc905f, 0xc27b0948, 0xad5245a4, 0xc1871c2f),
                    State(0x45f5a660, 0x17b2d387, 0x300d4d33, 0x640a820a))
  {
    hide SubWord, RotWord, Rcon;
    Vec256Row9Core();
  }

  lemma Vec256Row10Core()
    ensures AddW(SubWord(RotWord(0x640a820a)), Rcon(5)) == 0x77136743
  {
  }

  lemma Vec256Row10()
    ensures Follows(8, 10, State(0x0bdc905f, 0xc27b0948, 0xad5245a4, 0xc1871c2f),
                    State(0x45f5a660, 0x17b2d387, 0x300d4d33, 0x640a820a),
                    State(0x7ccff71c, 0xbeb4fe54, 0x13e6bbf0, 0xd261a7df))
  {
    hide SubWord, RotWord, Rcon;
    Vec256Row10Core();
  }

  lemma Vec256Row11Core()
    ensures SubWord(0xd261a7df) == 0xb5ef5c9e
  {
  }

  lemma Vec256Row11()
    ensures Follows(8, 11, State(0x45f5a660, 0x17b2d387, 0x300d4d33, 0x640a820a),
                    State(0x7ccff71c, 0xbeb4fe54, 0x13e6bbf0, 0xd261a7df),
                    State(0xf01afafe, 0xe7a82979, 0xd7a5644a, 0xb3afe640))
  {
    hide SubWord, RotWord, Rcon;
    Vec256Row11Core();
  }

  lemma Vec256Row12Core()
    ensures AddW(SubWord(RotWord(0xb3afe640)), Rcon(6)) == 0x598e096d
  {
  }

  lemma Vec256Row12()
    ensures Follows(8, 12, State(0x7ccff71c, 0xbeb4fe54, 0x13e6bbf0, 0xd261a7df),
                    State(0xf01afafe, 0xe7a82979, 0xd7a5644a, 0xb3afe640),
                    State(0x2541fe71, 0x9bf50025, 0x8813bbd5, 0x5a721c0a))
  {
    hide SubWord, RotWord, Rcon;
    Vec256Row12Core();
  }

  lemma Vec256Row13Core()
    ensures SubWord(0x5a721c0a) == 0xbe409c67
  {
  }

  lemma Vec256Row13()
    ensures Follows(8, 13, State(0xf01afafe, 0xe7a82979, 0xd7a5644a, 0xb3afe640),
                    State(0x2541fe71, 0x9bf50025, 0x8813bbd5, 0x5a721c0a),
                    State(0x4e5a6699, 0xa9f24fe0, 0x7e572baa, 0xcdf8cdea))
  {
    hide SubWord, RotWord, Rcon;
    Vec256Row13Core();
  }

  lemma Vec256Row14Core()
    ensures AddW(SubWord(RotWord(0xcdf8cdea)), Rcon(7)) == 0x01bd87bd
  {
  }

  lemma Vec256Row14()
    ensures Follows(8, 14, State(0x2541fe71, 0x9bf50025, 0x8813bbd5, 0x5a721c0a),
                    State(0x4e5a6699, 0xa9f24fe0, 0x7e572baa, 0xcdf8cdea),
                    State(0x24fc79cc, 0xbf0979e9, 0x371ac23c, 0x6d68de36))
  {
    hide SubWord, RotWord, Rcon;
    Vec256Row14Core();
  }

  lemma Vec256Round1()
    ensures FullRound(State(0x00102030, 0x40506070, 0x8090a0b0, 0xc0d0e0f0),
                      State(0x10111213, 0x14151617, 0x18191a1b, 0x1c1d1e1f)) ==
            State(0x4f637606, 0x43e0aa85, 0xefa72132, 0x01a4e705)
  {
  }

  lemma Vec256Round2()
    ensures FullRound(State(0x4f637606, 0x43e0aa85, 0xefa72132, 0x01a4e705),
                      State(0xa573c29f, 0xa176c498, 0xa97fce93, 0xa572c09c)) ==
            State(0x1859fbc2, 0x8a1c00a0, 0x78ed8aad, 0xc42f6109)
  {
  }

  lemma Vec256Round3()
    ensures FullRound(State(0x1859fbc2, 0x8a1c00a0, 0x78ed8aad, 0xc42f6109),
                      State(0x1651a8cd, 0x0244beda, 0x1a5da4c1, 0x0640bade)) ==
            State(0x975c66c1, 0xcb9f3fa8, 0xa93a28df, 0x8ee10f63)
  {
  }

  lemma Vec256Round4()
    ensures FullRound(State(0x975c66c1, 0xcb9f3fa8, 0xa93a28df, 0x8ee10f63),
                      State(0xae87dff0, 0x0ff11b68, 0xa68ed5fb, 0x03fc1567)) ==
            State(0x1c05f271, 0xa417e04f, 0xf921c5c1, 0x04701554)
  {
  }

  lemma Vec256Round5()
    ensures FullRound(State(0x1c05f271, 0xa417e04f, 0xf921c5c1, 0x04701554),
                      State(0x6de1f148, 0x6fa54f92, 0x75f8eb53, 0x73b8518d)) ==
            State(0xc357aae1, 0x1b45b7b0, 0xa2c7bd28, 0xa8dc99fa)
  {
  }

  lemma Vec256Round6()
    ensures FullRound(State(0xc357aae1, 0x1b45b7b0, 0xa2c7bd28, 0xa8dc99fa),
                      State(0xc656827f, 0xc9a79917, 0x6f294cec, 0x6cd5598b)) ==
            State(0x7f074143, 0xcb4e243e, 0xc10c815d, 0x8375d54c)
  {
  }

  lemma Vec256Round7()
    ensures FullRound(State(0x7f074143, 0xcb4e243e, 0xc10c815d, 0x8375d54c),
                      State(0x3de23a75, 0x524775e7, 0x27bf9eb4, 0x5407cf39)) ==
            State(0xd653a469, 0x6ca0bc0f, 0x5acaab5d, 0xb96c5e7d)
  {
  }

  lemma Vec256Round8()
    ensures FullRound(State(0xd653a469, 0x6ca0bc0f, 0x5acaab5d, 0xb96c5e7d),
                      State(0x0bdc905f, 0xc27b0948, 0xad5245a4, 0xc1871c2f)) ==
            State(0x5aa85839, 0x5fd28d7d, 0x05e1a388, 0x68f3b9c5)
  {
  }

  lemma Vec256Round9()
    ensures FullRound(State(0x5aa85839, 0x5fd28d7d, 0x05e1a388, 0x68f3b9c5),
                      State(0x45f5a660, 0x17b2d387, 0x300d4d33, 0x640a820a)) ==
            State(0x4a824851, 0xc57e7e47, 0x643de50c, 0x2af3e8c9)
  {
  }

  lemma Vec256Round10()
    ensures FullRound(State(0x4a824851, 0xc57e7e47, 0x643de50c, 0x2af3e8c9),
                      State(0x7ccff71c, 0xbeb4fe54, 0x13e6bbf0, 0xd261a7df)) ==
            State(0xc14907f6, 0xca3b3aa0, 0x70e9aa31, 0x3b52b5ec)
  {
  }

  lemma Vec256Round11()
    ensures FullRound(State(0xc14907f6, 0xca3b3aa0, 0x70e9aa31, 0x3b52b5ec),
                      State(0xf01afafe, 0xe7a82979, 0xd7a5644a, 0xb3afe640)) ==
            State(0x5f9c6abf, 0xbac634aa, 0x50409fa7, 0x66677653)
  {
  }

  lemma Vec256Round12()
    ensures FullRound(State(0x5f9c6abf, 0xbac634aa, 0x50409fa7, 0x66677653),
                      State(0x2541fe71, 0x9bf50025, 0x8813bbd5, 0x5a721c0a)) ==
            State(0x51660495, 0x43539503, 0x14fb86e4, 0x01922521)
  {
  }

  lemma Vec256Round13()
    ensures FullRound(State(0x51660495, 0x43539503, 0x14fb86e4, 0x01922521),
                      State(0x4e5a6699, 0xa9f24fe0, 0x7e572baa, 0xcdf8cdea)) ==
            State(0x627bceb9, 0x999d5aaa, 0xc945ecf4, 0x23f56da5)
  {
  }

  lemma Vec256Rows(ks: seq<State>)
    requires ks == seq(15, (r: nat) => Vec256RoundKey(r))
    ensures Expands(Vec256Key(), 8, ks)
  {
    hide Follows, StartsWith, Vec256Key;
    Vec256Start(ks);
    forall r | 1 <= r < 15 ensures Follows(8, r, ks[if r >= 2 then r - 2 else 0], ks[r - 1], ks[r]) {
      if r == 1 {
        Vec256Row1();
      } else if r == 2 {
        Vec256Row2();
      } else if r == 3 {
        Vec256Row3();
      } else if r == 4 {
        Vec256Row4();
      } else if r == 5 {
        Vec256Row5();
      } else if r == 6 {
        Vec256Row6();
      } else if r == 7 {
        Vec256Row7();
      } else if r == 8 {
        Vec256Row8();
      } else if r == 9 {
        Vec256Row9();
      } else if r == 10 {
        Vec256Row10();
      } else if r == 11 {
        Vec256Row11();
      } else if r == 12 {
        Vec256Row12();
      } else if r == 13 {
        Vec256Row13();
      } else if r == 14 {
        Vec256Row14();
      }
    }
  }

  lemma Vec256AllRounds(ks: seq<State>, ss: seq<State>)
    requires ks == seq(15, (r: nat) => Vec256RoundKey(r)) && ss == seq(14, (r: nat) => Vec256State(r))
    ensures Goes(Load(Vec256Block()), ks, ss)
  {
    hide FullRound, Load, AddRoundKey, Vec256Block;
    Vec256Round0();
    forall r | 1 <= r < 14 ensures FullRound(ss[r - 1], ks[r]) == ss[r] {
      if r == 1 {
        Vec256Round1();
      } else if r == 2 {
        Vec256Round2();
      } else if r == 3 {
        Vec256Round3();
      } else if r == 4 {
        Vec256Round4();
      } else if r == 5 {
        Vec256Round5();
      } else if r == 6 {
        Vec256Round6();
      } else if r == 7 {
        Vec256Round7();
      } else if r == 8 {
        Vec256Round8();
      } else if r == 9 {
        Vec256Round9();
      } else if r == 10 {
        Vec256Round10();
      } else if r == 11 {
        Vec256Round11();
      } else if r == 12 {
        Vec256Round12();
      } else if r == 13 {
        Vec256Round13();
      }
    }
  }

  lemma Vec256Round0()
    ensures AddRoundKey(Load(Vec256Block()), Vec256RoundKey(0)) == Vec256State(0)
  {
  }

  lemma Vec256Last()
    ensures LastRound(State(0x627bceb9, 0x999d5aaa, 0xc945ecf4, 0x23f56da5),
                      State(0x24fc79cc, 0xbf0979e9, 0x371ac23c, 0x6d68de36)) ==
            State(0x8ea2b7ca, 0x516745bf, 0xeafc4990, 0x4b496089)
  {
  }

  lemma Vec256Out()
    ensures Store(State(0x8ea2b7ca, 0x516745bf, 0xeafc4990, 0x4b496089)) ==
            [0x8e, 0xa2, 0xb7, 0xca, 0x51, 0x67, 0x45, 0xbf, 0xea, 0xfc, 0x49, 0x90, 0x4b, 0x49, 0x60, 0x89]
  {
  }

  /** The ciphertext the standard prints for its 256-bit key. */
  lemma CipherVector(w: seq<bv32>)
    requires w == KeySchedule(Vec256Key(), 8, 60)
    ensures Rounds(14) && |w| == 60
    ensures EncryptBlock(w, 14, Vec256Block()) ==
            [0x8e, 0xa2, 0xb7, 0xca, 0x51, 0x67, 0x45, 0xbf, 0xea, 0xfc, 0x49, 0x90, 0x4b, 0x49, 0x60, 0x89]
  {
    hide Expands, Goes, LastRound, Store, Vec256Key, Vec256Block, EncryptBlock, KeySchedule;
    var ks, ss := seq(15, (r: nat) => Vec256RoundKey(r)), seq(14, (r: nat) => Vec256State(r));
    Vec256Rows(ks);
    Vec256AllRounds(ks, ss);
    Vec256Last();
    Vec256Out();
    Works(Vec256Key(), 8, Vec256Block(), ks, ss,
          State(0x8ea2b7ca, 0x516745bf, 0xeafc4990, 0x4b496089));
  }
}
