/** The vector of appendix C.2 of FIPS 197: a 192-bit key. */
module AesVector192 {
  import opened AesTables
  import opened AesField
  import opened AesCipher
  import opened Aes
  import opened AesKeys
  import opened AesVector

  function Vec192Key(): (k: seq<bv8>)
    ensures |k| == 24
  {
    [0x00, 0x01, 0x02, 0x03, 0x04, 0x05, 0x06, 0x07, 0x08, 0x09, 0x0a, 0x0b, 0x0c, 0x0d, 0x0e, 0x0f,
     0x10, 0x11, 0x12, 0x13, 0x14, 0x15, 0x16, 0x17]
  }

  function Vec192Block(): Block {
    [0x00, 0x11, 0x22, 0x33, 0x44, 0x55, 0x66, 0x77, 0x88, 0x99, 0xaa, 0xbb, 0xcc, 0xdd, 0xee, 0xff]
  }

  /** Round key r. */
  function Vec192RoundKey(r: nat): State {
    if r == 0 then State(0x00010203, 0x04050607, 0x08090a0b, 0x0c0d0e0f)
    else if r == 1 then State(0x10111213, 0x14151617, 0x5846f2f9, 0x5c43f4fe)
    else if r == 2 then State(0x544afef5, 0x5847f0fa, 0x4856e2e9, 0x5c43f4fe)
    else if r == 3 then State(0x40f949b3, 0x1cbabd4d, 0x48f043b8, 0x10b7b342)
    else if r == 4 then State(0x58e151ab, 0x04a2a555, 0x7effb541, 0x6245080c)
    else if r == 5 then State(0x2ab54bb4, 0x3a02f8f6, 0x62e3a95d, 0x66410c08)
    else if r == 6 then State(0xf5018572, 0x97448d7e, 0xbdf1c6ca, 0x87f33e3c)
    else if r == 7 then State(0xe5109761, 0x83519b69, 0x34157c9e, 0xa351f1e0)
    else if r == 8 then State(0x1ea0372a, 0x99530916, 0x7c439e77, 0xff12051e)
    else if r == 9 then State(0xdd7e0e88, 0x7e2fff68, 0x608fc842, 0xf9dcc154)
    else if r == 10 then State(0x859f5f23, 0x7a8d5a3d, 0xc0c02952, 0xbeefd63a)
    else if r == 11 then State(0xde601e78, 0x27bcdf2c, 0xa223800f, 0xd8aeda32)
    else State(0xa4970a33, 0x1a78dc09, 0xc418c271, 0xe3a41d5d)
  }

  /** The state after round r. */
  function Vec192State(r: nat): State {
    if r == 0 then State(0x00102030, 0x40506070, 0x8090a0b0, 0xc0d0e0f0)
    else if r == 1 then State(0x4f637606, 0x43e0aa85, 0xaff8c9d0, 0x41fa0de4)
    else if r == 2 then State(0xcb02818c, 0x17d2af9c, 0x62aa6442, 0x8bb25fd7)
    else if r == 3 then State(0xf75c7778, 0xa327c8ed, 0x8cfebfc1, 0xa6c37f53)
    else if r == 4 then State(0x22ffc916, 0xa8147441, 0x6496f19c, 0x64ae2532)
    else if r == 5 then State(0x80121e07, 0x76fd1d8a, 0x8d8c31bc, 0x965d1fee)
    else if r == 6 then State(0x671ef1fd, 0x4e2a1e03, 0xdfdcb1ef, 0x3d789b30)
    else if r == 7 then State(0x0c0370d0, 0x0c01e622, 0x166b8acc, 0xd6db3a2c)
    else if r == 8 then State(0x7255dad3, 0x0fb80310, 0xe00d6c6b, 0x40d0527c)
    else if r == 9 then State(0xa906b254, 0x968af4e9, 0xb4bdb2d2, 0xf0c44336)
    else if r == 10 then State(0x88ec930e, 0xf5e7e4b6, 0xcc32f4c9, 0x06d29414)
    else State(0xafb73eeb, 0x1cd1b851, 0x62280f27, 0xfb20d585)
  }

  lemma Vec192Start(ks: seq<State>)
    requires ks == seq(13, (r: nat) => Vec192RoundKey(r))
    ensures StartsWith(Vec192Key(), 6, ks)
  {
    hide KeyBytes, Vec192Key;
    Vec192KeyWord0();
    Vec192KeyWord1();
    Vec192KeyWord2();
    Vec192KeyWord3();
    Vec192KeyWord4();
    Vec192KeyWord5();
  }

  lemma Vec192KeyWord0()
    ensures KeyBytes(Vec192Key(), 0) == 0x00010203
  {
    var k := Vec192Key();
    assert k[0] == 0x00 && k[1] == 0x01 && k[2] == 0x02 && k[3] == 0x03;
  }

  lemma Vec192KeyWord1()
    ensures KeyBytes(Vec192Key(), 1) == 0x04050607
  {
    var k := Vec192Key();
    assert k[4] == 0x04 && k[5] == 0x05 && k[6] == 0x06 && k[7] == 0x07;
  }

  lemma Vec192KeyWord2()
    ensures KeyBytes(Vec192Key(), 2) == 0x08090a0b
  {
    var k := Vec192Key();
    assert k[8] == 0x08 && k[9] == 0x09 && k[10] == 0x0a && k[11] == 0x0b;
  }

  lemma Vec192KeyWord3()
    ensures KeyBytes(Vec192Key(), 3) == 0x0c0d0e0f
  {
    var k := Vec192Key();
    assert k[12] == 0x0c && k[13] == 0x0d && k[14] == 0x0e && k[15] == 0x0f;
  }

  lemma Vec192KeyWord4()
    ensures KeyBytes(Vec192Key(), 4) == 0x10111213
  {
    var k := Vec192Key();
    assert k[16] == 0x10 && k[17] == 0x11 && k[18] == 0x12 && k[19] == 0x13;
  }

  lemma Vec192KeyWord5()
    ensures KeyBytes(Vec192Key(), 5) == 0x14151617
  {
    var k := Vec192Key();
    assert k[20] == 0x14 && k[21] == 0x15 && k[22] == 0x16 && k[23] == 0x17;
  }

  lemma Vec192Row1Core()
    ensures AddW(SubWord(RotWord(0x14151617)), Rcon(1)) == 0x5847f0fa
  {
  }

  lemma Vec192Row1()
    ensures Follows(6, 1, State(0x00010203, 0x04050607, 0x08090a0b, 0x0c0d0e0f),
                    State(0x00010203, 0x04050607, 0x08090a0b, 0x0c0d0e0f),
                    State(0x10111213, 0x14151617, 0x5846f2f9, 0x5c43f4fe))
  {
    hide SubWord, RotWord, Rcon;
    Vec192Row1Core();
  }

  lemma Vec192Row2()
    ensures Follows(6, 2, State(0x00010203, 0x04050607, 0x08090a0b, 0x0c0d0e0f),
                    State(0x10111213, 0x14151617, 0x5846f2f9, 0x5c43f4fe),
                    State(0x544afef5, 0x5847f0fa, 0x4856e2e9, 0x5c43f4fe))
  {
    hide SubWord, RotWord, Rcon;
  }

  lemma Vec192Row3Core()
    ensures AddW(SubWord(RotWord(0x5c43f4fe)), Rcon(2)) == 0x18bfbb4a
  {
  }

  lemma Vec192Row3()
    ensures Follows(6, 3, State(0x10111213, 0x14151617, 0x5846f2f9, 0x5c43f4fe),
                    State(0x544afef5, 0x5847f0fa, 0x4856e2e9, 0x5c43f4fe),
                    State(0x40f949b3, 0x1cbabd4d, 0x48f043b8, 0x10b7b342))
  {
    hide SubWord, RotWord, Rcon;
    Vec192Row3Core();
  }

  lemma Vec192Row4Core()
    ensures AddW(SubWord(RotWord(0x04a2a555)), Rcon(3)) == 0x3e06fcf2
  {
  }

  lemma Vec192Row4()
    ensures Follows(6, 4, State(0x544afef5, 0x5847f0fa, 0x4856e2e9, 0x5c43f4fe),
                    State(0x40f949b3, 0x1cbabd4d, 0x48f043b8, 0x10b7b342),
                    State(0x58e151ab, 0x04a2a555, 0x7effb541, 0x6245080c))
  {
    hide SubWord, RotWord, Rcon;
    Vec192Row4Core();
  }

  lemma Vec192Row5()
    ensures Follows(6, 5, State(0x40f949b3, 0x1cbabd4d, 0x48f043b8, 0x10b7b342),
                    State(0x58e151ab, 0x04a2a555, 0x7effb541, 0x6245080c),
                    State(0x2ab54bb4, 0x3a02f8f6, 0x62e3a95d, 0x66410c08))
  {
    hide SubWord, RotWord, Rcon;
  }

  lemma Vec192Row6Core()
    ensures AddW(SubWord(RotWord(0x66410c08)), Rcon(4)) == 0x8bfe3033
  {
  }

  lemma Vec192Row6()
    ensures Follows(6, 6, State(0x58e151ab, 0x04a2a555, 0x7effb541, 0x6245080c),
                    State(0x2ab54bb4, 0x3a02f8f6, 0x62e3a95d, 0x66410c08),
                    State(0xf5018572, 0x97448d7e, 0xbdf1c6ca, 0x87f33e3c))
  {
    hide SubWord, RotWord, Rcon;
    Vec192Row6Core();
  }

  lemma Vec192Row7Core()
    ensures AddW(SubWord(RotWord(0x83519b69)), Rcon(5)) == 0xc114f9ec
  {
  }

  lemma Vec192Row7()
    ensures Follows(6, 7, State(0x2ab54bb4, 0x3a02f8f6, 0x62e3a95d, 0x66410c08),
                    State(0xf5018572, 0x97448d7e, 0xbdf1c6ca, 0x87f33e3c),
                    State(0xe5109761, 0x83519b69, 0x34157c9e, 0xa351f1e0))
  {
    hide SubWord, RotWord, Rcon;
    Vec192Row7Core();
  }

  lemma Vec192Row8()
    ensures Follows(6, 8, State(0xf5018572, 0x97448d7e, 0xbdf1c6ca, 0x87f33e3c),
                    State(0xe5109761, 0x83519b69, 0x34157c9e, 0xa351f1e0),
                    State(0x1ea0372a, 0x99530916, 0x7c439e77, 0xff12051e))
  {
    hide SubWord, RotWord, Rcon;
  }

  lemma Vec192Row9Core()
    ensures AddW(SubWord(RotWord(0xff12051e)), Rcon(6)) == 0xe96b7216
  {
  }

  lemma Vec192Row9()
    ensures Follows(6, 9, State(0xe5109761, 0x83519b69, 0x34157c9e, 0xa351f1e0),
                    State(0x1ea0372a, 0x99530916, 0x7c439e77, 0xff12051e),
                    State(0xdd7e0e88, 0x7e2fff68, 0x608fc842, 0xf9dcc154))
  {
    hide SubWord, RotWord, Rcon;
    Vec192Row9Core();
  }

  lemma Vec192Row10Core()
    ensures AddW(SubWord(RotWord(0x7a8d5a3d)), Rcon(7)) == 0x1dbe27da
  {
  }

  lemma Vec192Row10()
    ensures Follows(6, 10, State(0x1ea0372a, 0x99530916, 0x7c439e77, 0xff12051e),
                    State(0xdd7e0e88, 0x7e2fff68, 0x608fc842, 0xf9dcc154),
                    State(0x859f5f23, 0x7a8d5a3d, 0xc0c02952, 0xbeefd63a))
  {
    hide SubWord, RotWord, Rcon;
    Vec192Row10Core();
  }

  lemma Vec192Row11()
    ensures Follows(6, 11, State(0xdd7e0e88, 0x7e2fff68, 0x608fc842, 0xf9dcc154),
                    State(0x859f5f23, 0x7a8d5a3d, 0xc0c02952, 0xbeefd63a),
                    State(0xde601e78, 0x27bcdf2c, 0xa223800f, 0xd8aeda32))
  {
    hide SubWord, RotWord, Rcon;
  }

  lemma Vec192Row12Core()
    ensures AddW(SubWord(RotWord(0xd8aeda32)), Rcon(8)) == 0x64572361
  {
  }

  lemma Vec192Row12()
    ensures Follows(6, 12, State(0x859f5f23, 0x7a8d5a3d, 0xc0c02952, 0xbeefd63a),
                    State(0xde601e78, 0x27bcdf2c, 0xa223800f, 0xd8aeda32),
                    State(0xa4970a33, 0x1a78dc09, 0xc418c271, 0xe3a41d5d))
  {
    hide SubWord, RotWord, Rcon;
    Vec192Row12Core();
  }

  lemma Vec192Round1()
    ensures FullRound(State(0x00102030, 0x40506070, 0x8090a0b0, 0xc0d0e0f0),
                      State(0x10111213, 0x14151617, 0x5846f2f9, 0x5c43f4fe)) ==
            State(0x4f637606, 0x43e0aa85, 0xaff8c9d0, 0x41fa0de4)
  {
  }

  lemma Vec192Round2()
    ensures FullRound(State(0x4f637606, 0x43e0aa85, 0xaff8c9d0, 0x41fa0de4),
                      State(0x544afef5, 0x5847f0fa, 0x4856e2e9, 0x5c43f4fe)) ==
            State(0xcb02818c, 0x17d2af9c, 0x62aa6442, 0x8bb25fd7)
  {
  }

  lemma Vec192Round3()
    ensures FullRound(State(0xcb02818c, 0x17d2af9c, 0x62aa6442, 0x8bb25fd7),
                      State(0x40f949b3, 0x1cbabd4d, 0x48f043b8, 0x10b7b342)) ==
            State(0xf75c7778, 0xa327c8ed, 0x8cfebfc1, 0xa6c37f53)
  {
  }

  lemma Vec192Round4()
    ensures FullRound(State(0xf75c7778, 0xa327c8ed, 0x8cfebfc1, 0xa6c37f53),
                      State(0x58e151ab, 0x04a2a555, 0x7effb541, 0x6245080c)) ==
            State(0x22ffc916, 0xa8147441, 0x6496f19c, 0x64ae2532)
  {
  }

  lemma Vec192Round5()
    ensures FullRound(State(0x22ffc916, 0xa8147441, 0x6496f19c, 0x64ae2532),
                      State(0x2ab54bb4, 0x3a02f8f6, 0x62e3a95d, 0x66410c08)) ==
            State(0x80121e07, 0x76fd1d8a, 0x8d8c31bc, 0x965d1fee)
  {
  }

  lemma Vec192Round6()
    ensures FullRound(State(0x80121e07, 0x76fd1d8a, 0x8d8c31bc, 0x965d1fee),
                      State(0xf5018572, 0x97448d7e, 0xbdf1c6ca, 0x87f33e3c)) ==
            State(0x671ef1fd, 0x4e2a1e03, 0xdfdcb1ef, 0x3d789b30)
  {
  }

  lemma Vec192Round7()
    ensures FullRound(State(0x671ef1fd, 0x4e2a1e03, 0xdfdcb1ef, 0x3d789b30),
                      State(0xe5109761, 0x83519b69, 0x34157c9e, 0xa351f1e0)) ==
            State(0x0c0370d0, 0x0c01e622, 0x166b8acc, 0xd6db3a2c)
  {
  }

  lemma Vec192Round8()
    ensures FullRound(State(0x0c0370d0, 0x0c01e622, 0x166b8acc, 0xd6db3a2c),
                      State(0x1ea0372a, 0x99530916, 0x7c439e77, 0xff12051e)) ==
            State(0x7255dad3, 0x0fb80310, 0xe00d6c6b, 0x40d0527c)
  {
  }

  lemma Vec192Round9()
    ensures FullRound(State(0x7255dad3, 0x0fb80310, 0xe00d6c6b, 0x40d0527c),
                      State(0xdd7e0e88, 0x7e2fff68, 0x608fc842, 0xf9dcc154)) ==
            State(0xa906b254, 0x968af4e9, 0xb4bdb2d2, 0xf0c44336)
  {
  }

  lemma Vec192Round10()
    ensures FullRound(State(0xa906b254, 0x968af4e9, 0xb4bdb2d2, 0xf0c44336),
                      State(0x859f5f23, 0x7a8d5a3d, 0xc0c02952, 0xbeefd63a)) ==
            State(0x88ec930e, 0xf5e7e4b6, 0xcc32f4c9, 0x06d29414)
  {
  }

  lemma Vec192Round11()
    ensures FullRound(State(0x88ec930e, 0xf5e7e4b6, 0xcc32f4c9, 0x06d29414),
                      State(0xde601e78, 0x27bcdf2c, 0xa223800f, 0xd8aeda32)) ==
            State(0xafb73eeb, 0x1cd1b851, 0x62280f27, 0xfb20d585)
  {
  }

  lemma Vec192Rows(ks: seq<State>)
    requires ks == seq(13, (r: nat) => Vec192RoundKey(r))
    ensures Expands(Vec192Key(), 6, ks)
  {
    hide Follows, StartsWith, Vec192Key;
    Vec192Start(ks);
    forall r | 1 <= r < 13 ensures Follows(6, r, ks[if r >= 2 then r - 2 else 0], ks[r - 1], ks[r]) {
      if r == 1 {
        Vec192Row1();
      } else if r == 2 {
        Vec192Row2();
      } else if r == 3 {
        Vec192Row3();
      } else if r == 4 {
        Vec192Row4();
      } else if r == 5 {
        Vec192Row5();
      } else if r == 6 {
        Vec192Row6();
      } else if r == 7 {
        Vec192Row7();
      } else if r == 8 {
        Vec192Row8();
      } else if r == 9 {
        Vec192Row9();
      } else if r == 10 {
        Vec192Row10();
      } else if r == 11 {
        Vec192Row11();
      } else if r == 12 {
        Vec192Row12();
      }
    }
  }

  lemma Vec192AllRounds(ks: seq<State>, ss: seq<State>)
    requires ks == seq(13, (r: nat) => Vec192RoundKey(r)) && ss == seq(12, (r: nat) => Vec192State(r))
    ensures Goes(Load(Vec192Block()), ks, ss)
  {
    hide FullRound, Load, AddRoundKey, Vec192Block;
    Vec192Round0();
    forall r | 1 <= r < 12 ensures FullRound(ss[r - 1], ks[r]) == ss[r] {
      if r == 1 {
        Vec192Round1();
      } else if r == 2 {
        Vec192Round2();
      } else if r == 3 {
        Vec192Round3();
      } else if r == 4 {
        Vec192Round4();
      } else if r == 5 {
        Vec192Round5();
      } else if r == 6 {
        Vec192Round6();
      } else if r == 7 {
        Vec192Round7();
      } else if r == 8 {
        Vec192Round8();
      } else if r == 9 {
        Vec192Round9();
      } else if r == 10 {
        Vec192Round10();
      } else if r == 11 {
        Vec192Round11();
      }
    }
  }

  lemma Vec192Round0()
    ensures AddRoundKey(Load(Vec192Block()), Vec192RoundKey(0)) == Vec192State(0)
  {
  }

  lemma Vec192Last()
    ensures LastRound(State(0xafb73eeb, 0x1cd1b851, 0x62280f27, 0xfb20d585),
                      State(0xa4970a33, 0x1a78dc09, 0xc418c271, 0xe3a41d5d)) ==
            State(0xdda97ca4, 0x864cdfe0, 0x6eaf70a0, 0xec0d7191)
  {
  }

  lemma Vec192Out()
    ensures Store(State(0xdda97ca4, 0x864cdfe0, 0x6eaf70a0, 0xec0d7191)) ==
            [0xdd, 0xa9, 0x7c, 0xa4, 0x86, 0x4c, 0xdf, 0xe0, 0x6e, 0xaf, 0x70, 0xa0, 0xec, 0x0d, 0x71, 0x91]
  {
  }

  /** The ciphertext the standard prints for its 192-bit key. */
  lemma CipherVector(w: seq<bv32>)
    requires w == KeySchedule(Vec192Key(), 6, 52)
    ensures Rounds(12) && |w| == 52
    ensures EncryptBlock(w, 12, Vec192Block()) ==
            [0xdd, 0xa9, 0x7c, 0xa4, 0x86, 0x4c, 0xdf, 0xe0, 0x6e, 0xaf, 0x70, 0xa0, 0xec, 0x0d, 0x71, 0x91]
  {
    hide Expands, Goes, LastRound, Store, Vec192Key, Vec192Block, EncryptBlock, KeySchedule;
    var ks, ss := seq(13, (r: nat) => Vec192RoundKey(r)), seq(12, (r: nat) => Vec192State(r));
    Vec192Rows(ks);
    Vec192AllRounds(ks, ss);
    Vec192Last();
    Vec192Out();
    Works(Vec192Key(), 6, Vec192Block(), ks, ss,
          State(0xdda97ca4, 0x864cdfe0, 0x6eaf70a0, 0xec0d7191));
  }
}
