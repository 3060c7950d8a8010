/** Example vectors worked through the model: what it takes for a list of round keys and a list of round states to be
    those of a key and a block, and the vector of appendix C.1 of FIPS 197. */
module AesVector {
  import opened AesTables
  import opened AesField
  import opened AesCipher
  import opened Aes
  import opened AesKeys

  // ---- Key expansion (section 5.2 of FIPS 197), a round key at a time ----

  /** Word i of the expanded key, from the word before it and the word nk before it. */
  function NextWord(nk: nat, i: nat, before: bv32, back: bv32): bv32
    requires KeyLength(nk) && i >= nk
  {
    AddW(back, if i % nk == 0 then AddW(SubWord(RotWord(before)), Rcon(i / nk))
               else if nk == 8 && i % nk == 4 then SubWord(before)
               else before)
  }

  /** Round key c follows from the two before it, a and b, where its words do not come from the user key. */
  predicate Follows(nk: nat, r: nat, a: State, b: State, c: State)
    requires KeyLength(nk)
  {
    && (4 * r >= nk ==> NextWord(nk, 4 * r, b.c3, if nk == 4 then b.c0 else if nk == 6 then a.c2 else a.c0) == c.c0)
    && (4 * r + 1 >= nk ==>
          NextWord(nk, 4 * r + 1, c.c0, if nk == 4 then b.c1 else if nk == 6 then a.c3 else a.c1) == c.c1)
    && (4 * r + 2 >= nk ==>
          NextWord(nk, 4 * r + 2, c.c1, if nk == 4 then b.c2 else if nk == 6 then b.c0 else a.c2) == c.c2)
    && (4 * r + 3 >= nk ==>
          NextWord(nk, 4 * r + 3, c.c2, if nk == 4 then b.c3 else if nk == 6 then b.c1 else a.c3) == c.c3)
  }

  function WordOf(ks: seq<State>, i: nat): bv32
    requires i < 4 * |ks|
  {
    var k := ks[i / 4];
    if i % 4 == 0 then k.c0 else if i % 4 == 1 then k.c1 else if i % 4 == 2 then k.c2 else k.c3
  }

  ghost predicate StartsWith(key: seq<bv8>, nk: nat, ks: seq<State>) {
    KeyLength(nk) && |key| >= 4 * nk && nk <= 4 * |ks| && forall i :: 0 <= i < nk ==> KeyBytes(key, i) == WordOf(ks, i)
  }

  /** ks are the round keys of a key of nk words. */
  ghost predicate Expands(key: seq<bv8>, nk: nat, ks: seq<State>) {
    && StartsWith(key, nk, ks)
    && forall r :: 1 <= r < |ks| ==> Follows(nk, r, ks[if r >= 2 then r - 2 else 0], ks[r - 1], ks[r])
  }

  lemma FollowsWord(nk: nat, ks: seq<State>, i: nat)
    requires KeyLength(nk) && nk <= i < 4 * |ks|
    requires var r := i / 4; Follows(nk, r, ks[if r >= 2 then r - 2 else 0], ks[r - 1], ks[r])
    ensures NextWord(nk, i, WordOf(ks, i - 1), WordOf(ks, i - nk)) == WordOf(ks, i)
  {
    hide NextWord;
    var r := i / 4;
    assert i == 4 * r + i % 4;
    if i % 4 == 0 {
      assert (i - 1) / 4 == r - 1 && (i - 1) % 4 == 3;
    } else {
      assert (i - 1) / 4 == r && (i - 1) % 4 == i % 4 - 1;
    }
    BackAt(nk, i);
  }

  /** Where the word nk back lies. */
  lemma BackAt(nk: nat, i: nat)
    requires KeyLength(nk) && nk <= i
    ensures nk == 4 ==> (i - nk) / 4 == i / 4 - 1 && (i - nk) % 4 == i % 4
    ensures nk == 8 ==> (i - nk) / 4 == i / 4 - 2 && (i - nk) % 4 == i % 4
    ensures nk == 6 ==> if i % 4 < 2 then (i - nk) / 4 == i / 4 - 2 && (i - nk) % 4 == i % 4 + 2
                        else (i - nk) / 4 == i / 4 - 1 && (i - nk) % 4 == i % 4 - 2
  {
  }

  lemma {:induction false} ExpandsWord(key: seq<bv8>, nk: nat, ks: seq<State>, i: nat)
    requires Expands(key, nk, ks) && i < 4 * |ks|
    ensures KeyWord(key, nk, i) == WordOf(ks, i)
    decreases i
  {
    hide Follows, WordOf, SubWord, RotWord, Rcon, AddW, KeyBytes;
    if i >= nk {
      ExpandsWord(key, nk, ks, i - 1);
      ExpandsWord(key, nk, ks, i - nk);
      FollowsWord(nk, ks, i);
      KeyWordUnfolds(key, nk, i);
    }
  }

  lemma ExpandsKey(key: seq<bv8>, nk: nat, ks: seq<State>, r: nat)
    requires Expands(key, nk, ks) && r < |ks|
    ensures RoundKey(KeySchedule(key, nk, 4 * |ks|), r) == ks[r]
  {
    hide Expands, KeyWord;
    ExpandsWord(key, nk, ks, 4 * r);
    ExpandsWord(key, nk, ks, 4 * r + 1);
    ExpandsWord(key, nk, ks, 4 * r + 2);
    ExpandsWord(key, nk, ks, 4 * r + 3);
  }

  // ---- The rounds of Cipher (section 5.1) ----

  function FullRound(s: State, k: State): State {
    AddRoundKey(MixColumns(ShiftRows(SubBytes(s))), k)
  }

  function LastRound(s: State, k: State): State {
    AddRoundKey(ShiftRows(SubBytes(s)), k)
  }

  /** ss are the states after the rounds before the last one. */
  ghost predicate Goes(x: State, ks: seq<State>, ss: seq<State>) {
    && 1 <= |ss| < |ks| && AddRoundKey(x, ks[0]) == ss[0]
    && forall r :: 1 <= r < |ss| ==> FullRound(ss[r - 1], ks[r]) == ss[r]
  }

  lemma {:induction false} GoesRound(x: State, w: seq<bv32>, ks: seq<State>, ss: seq<State>, r: nat)
    requires Goes(x, ks, ss) && r < |ss| && 4 * |ks| <= |w| && forall j :: 0 <= j < |ks| ==> RoundKey(w, j) == ks[j]
    ensures AfterRound(x, w, r) == ss[r]
  {
    hide AddRoundKey, MixColumns, ShiftRows, SubBytes, RoundKey;
    if r > 0 {
      GoesRound(x, w, ks, ss, r - 1);
      AfterUnfolds(x, w, r);
    }
  }

  lemma AfterUnfolds(x: State, w: seq<bv32>, r: nat)
    requires r > 0 && 4 * r + 4 <= |w|
    ensures AfterRound(x, w, r) == FullRound(AfterRound(x, w, r - 1), RoundKey(w, r))
  {
    hide AddRoundKey, MixColumns, ShiftRows, SubBytes, RoundKey;
  }

  /** A worked example: the code's block in, the standard's block out. */
  lemma Works(key: seq<bv8>, nk: nat, b: Block, ks: seq<State>, ss: seq<State>, y: State)
    requires KeyLength(nk) && |key| >= 4 * nk && Expands(key, nk, ks)
    requires |ks| == nk + 7 && |ss| == nk + 6 && Goes(Load(b), ks, ss)
    requires LastRound(ss[nk + 5], ks[nk + 6]) == y
    ensures var w := KeySchedule(key, nk, 4 * nk + 28);
            Rounds(nk + 6) && |w| == 4 * nk + 28 && EncryptBlock(w, nk + 6, b) == Store(y)
  {
    hide Expands, AddRoundKey, MixColumns, ShiftRows, SubBytes, RoundKey, KeyWord, Load, Store, AfterRound, Goes;
    var w := KeySchedule(key, nk, 4 * nk + 28);
    forall j | 0 <= j < |ks| ensures RoundKey(w, j) == ks[j] {
      ExpandsKey(key, nk, ks, j);
    }
    GoesRound(Load(b), w, ks, ss, nk + 5);
  }

  // ---- Appendix C.1: a 128-bit key ----

  function VectorKey(): (k: seq<bv8>)
    ensures |k| == 16
  {
    [0x00, 0x01, 0x02, 0x03, 0x04, 0x05, 0x06, 0x07, 0x08, 0x09, 0x0a, 0x0b, 0x0c, 0x0d, 0x0e, 0x0f]
  }

  function VectorBlock(): Block {
    [0x00, 0x11, 0x22, 0x33, 0x44, 0x55, 0x66, 0x77, 0x88, 0x99, 0xaa, 0xbb, 0xcc, 0xdd, 0xee, 0xff]
  }

  /** Round key r. */
  function VectorRoundKey(r: nat): State {
    if r == 0 then State(0x00010203, 0x04050607, 0x08090a0b, 0x0c0d0e0f)
    else if r == 1 then State(0xd6aa74fd, 0xd2af72fa, 0xdaa678f1, 0xd6ab76fe)
    else if r == 2 then State(0xb692cf0b, 0x643dbdf1, 0xbe9bc500, 0x6830b3fe)
    else if r == 3 then State(0xb6ff744e, 0xd2c2c9bf, 0x6c590cbf, 0x0469bf41)
    else if r == 4 then State(0x47f7f7bc, 0x95353e03, 0xf96c32bc, 0xfd058dfd)
    else if r == 5 then State(0x3caaa3e8, 0xa99f9deb, 0x50f3af57, 0xadf622aa)
    else if r == 6 then State(0x5e390f7d, 0xf7a69296, 0xa7553dc1, 0x0aa31f6b)
    else if r == 7 then State(0x14f9701a, 0xe35fe28c, 0x440adf4d, 0x4ea9c026)
    else if r == 8 then State(0x47438735, 0xa41c65b9, 0xe016baf4, 0xaebf7ad2)
    else if r == 9 then State(0x549932d1, 0xf0855768, 0x1093ed9c, 0xbe2c974e)
    else State(0x13111d7f, 0xe3944a17, 0xf307a78b, 0x4d2b30c5)
  }

  /** The state after round r. */
  function VectorState(r: nat): State {
    if r == 0 then State(0x00102030, 0x40506070, 0x8090a0b0, 0xc0d0e0f0)
    else if r == 1 then State(0x89d810e8, 0x855ace68, 0x2d1843d8, 0xcb128fe4)
    else if r == 2 then State(0x4915598f, 0x55e5d7a0, 0xdaca94fa, 0x1f0a63f7)
    else if r == 3 then State(0xfa636a28, 0x25b339c9, 0x40668a31, 0x57244d17)
    else if r == 4 then State(0x24724023, 0x6966b3fa, 0x6ed27532, 0x88425b6c)
    else if r == 5 then State(0xc81677bc, 0x9b7ac93b, 0x25027992, 0xb0261996)
    else if r == 6 then State(0xc62fe109, 0xf75eedc3, 0xcc79395d, 0x84f9cf5d)
    else if r == 7 then State(0xd1876c0f, 0x79c4300a, 0xb45594ad, 0xd66ff41f)
    else if r == 8 then State(0xfde3bad2, 0x05e5d0d7, 0x3547964e, 0xf1fe37f1)
    else State(0xbd6e7c3d, 0xf2b5779e, 0x0b61216e, 0x8b10b689)
  }

  lemma VectorStart(ks: seq<State>)
    requires ks == seq(11, (r: nat) => VectorRoundKey(r))
    ensures StartsWith(VectorKey(), 4, ks)
  {
    hide KeyBytes, VectorKey;
    VectorKeyWord0();
    VectorKeyWord1();
    VectorKeyWord2();
    VectorKeyWord3();
  }

  lemma VectorKeyWord0()
    ensures KeyBytes(VectorKey(), 0) == 0x00010203
  {
    var k := VectorKey();
    assert k[0] == 0x00 && k[1] == 0x01 && k[2] == 0x02 && k[3] == 0x03;
  }

  lemma VectorKeyWord1()
    ensures KeyBytes(VectorKey(), 1) == 0x04050607
  {
    var k := VectorKey();
    assert k[4] == 0x04 && k[5] == 0x05 && k[6] == 0x06 && k[7] == 0x07;
  }

  lemma VectorKeyWord2()
    ensures KeyBytes(VectorKey(), 2) == 0x08090a0b
  {
    var k := VectorKey();
    assert k[8] == 0x08 && k[9] == 0x09 && k[10] == 0x0a && k[11] == 0x0b;
  }

  lemma VectorKeyWord3()
    ensures KeyBytes(VectorKey(), 3) == 0x0c0d0e0f
  {
    var k := VectorKey();
    assert k[12] == 0x0c && k[13] == 0x0d && k[14] == 0x0e && k[15] == 0x0f;
  }

  lemma VectorRow1Core()
    ensures AddW(SubWord(RotWord(0x0c0d0e0f)), Rcon(1)) == 0xd6ab76fe
  {
  }

  lemma VectorRow1()
    ensures Follows(4, 1, State(0x00010203, 0x04050607, 0x08090a0b, 0x0c0d0e0f),
                    State(0x00010203, 0x04050607, 0x08090a0b, 0x0c0d0e0f),
                    State(0xd6aa74fd, 0xd2af72fa, 0xdaa678f1, 0xd6ab76fe))
  {
    hide SubWord, RotWord, Rcon;
    VectorRow1Core();
  }

  lemma VectorRow2Core()
    ensures AddW(SubWord(RotWord(0xd6ab76fe)), Rcon(2)) == 0x6038bbf6
  {
  }

  lemma VectorRow2()
    ensures Follows(4, 2, State(0x00010203, 0x04050607, 0x08090a0b, 0x0c0d0e0f),
                    State(0xd6aa74fd, 0xd2af72fa, 0xdaa678f1, 0xd6ab76fe),
                    State(0xb692cf0b, 0x643dbdf1, 0xbe9bc500, 0x6830b3fe))
  {
    hide SubWord, RotWord, Rcon;
    VectorRow2Core();
  }

  lemma VectorRow3Core()
    ensures AddW(SubWord(RotWord(0x6830b3fe)), Rcon(3)) == 0x006dbb45
  {
  }

  lemma VectorRow3()
    ensures Follows(4, 3, State(0xd6aa74fd, 0xd2af72fa, 0xdaa678f1, 0xd6ab76fe),
                    State(0xb692cf0b, 0x643dbdf1, 0xbe9bc500, 0x6830b3fe),
                    State(0xb6ff744e, 0xd2c2c9bf, 0x6c590cbf, 0x0469bf41))
  {
    hide SubWord, RotWord, Rcon;
    VectorRow3Core();
  }

  lemma VectorRow4Core()
    ensures AddW(SubWord(RotWord(0x0469bf41)), Rcon(4)) == 0xf10883f2
  {
  }

  lemma VectorRow4()
    ensures Follows(4, 4, State(0xb692cf0b, 0x643dbdf1, 0xbe9bc500, 0x6830b3fe),
                    State(0xb6ff744e, 0xd2c2c9bf, 0x6c590cbf, 0x0469bf41),
                    State(0x47f7f7bc, 0x95353e03, 0xf96c32bc, 0xfd058dfd))
  {
    hide SubWord, RotWord, Rcon;
    VectorRow4Core();
  }

  lemma VectorRow5Core()
    ensures AddW(SubWord(RotWord(0xfd058dfd)), Rcon(5)) == 0x7b5d5454
  {
  }

  lemma VectorRow5()
    ensures Follows(4, 5, State(0xb6ff744e, 0xd2c2c9bf, 0x6c590cbf, 0x0469bf41),
                    State(0x47f7f7bc, 0x95353e03, 0xf96c32bc, 0xfd058dfd),
                    State(0x3caaa3e8, 0xa99f9deb, 0x50f3af57, 0xadf622aa))
  {
    hide SubWord, RotWord, Rcon;
    VectorRow5Core();
  }

  lemma VectorRow6Core()
    ensures AddW(SubWord(RotWord(0xadf622aa)), Rcon(6)) == 0x6293ac95
  {
  }

  lemma VectorRow6()
    ensures Follows(4, 6, State(0x47f7f7bc, 0x95353e03, 0xf96c32bc, 0xfd058dfd),
                    State(0x3caaa3e8, 0xa99f9deb, 0x50f3af57, 0xadf622aa),
                    State(0x5e390f7d, 0xf7a69296, 0xa7553dc1, 0x0aa31f6b))
  {
    hide SubWord, RotWord, Rcon;
    VectorRow6Core();
  }

  lemma VectorRow7Core()
    ensures AddW(SubWord(RotWord(0x0aa31f6b)), Rcon(7)) == 0x4ac07f67
  {
  }

  lemma VectorRow7()
    ensures Follows(4, 7, State(0x3caaa3e8, 0xa99f9deb, 0x50f3af57, 0xadf622aa),
                    State(0x5e390f7d, 0xf7a69296, 0xa7553dc1, 0x0aa31f6b),
                    State(0x14f9701a, 0xe35fe28c, 0x440adf4d, 0x4ea9c026))
  {
    hide SubWord, RotWord, Rcon;
    VectorRow7Core();
  }

  lemma VectorRow8Core()
    ensures AddW(SubWord(RotWord(0x4ea9c026)), Rcon(8)) == 0x53baf72f
  {
  }

  lemma VectorRow8()
    ensures Follows(4, 8, State(0x5e390f7d, 0xf7a69296, 0xa7553dc1, 0x0aa31f6b),
                    State(0x14f9701a, 0xe35fe28c, 0x440adf4d, 0x4ea9c026),
                    State(0x47438735, 0xa41c65b9, 0xe016baf4, 0xaebf7ad2))
  {
    hide SubWord, RotWord, Rcon;
    VectorRow8Core();
  }

  lemma VectorRow9Core()
    ensures AddW(SubWord(RotWord(0xaebf7ad2)), Rcon(9)) == 0x13dab5e4
  {
  }

  lemma VectorRow9()
    ensures Follows(4, 9, State(0x14f9701a, 0xe35fe28c, 0x440adf4d, 0x4ea9c026),
                    State(0x47438735, 0xa41c65b9, 0xe016baf4, 0xaebf7ad2),
                    State(0x549932d1, 0xf0855768, 0x1093ed9c, 0xbe2c974e))
  {
    hide SubWord, RotWord, Rcon;
    VectorRow9Core();
  }

  lemma VectorRow10Core()
    ensures AddW(SubWord(RotWord(0xbe2c974e)), Rcon(10)) == 0x47882fae
  {
  }

  lemma VectorRow10()
    ensures Follows(4, 10, State(0x47438735, 0xa41c65b9, 0xe016baf4, 0xaebf7ad2),
                    State(0x549932d1, 0xf0855768, 0x1093ed9c, 0xbe2c974e),
                    State(0x13111d7f, 0xe3944a17, 0xf307a78b, 0x4d2b30c5))
  {
    hide SubWord, RotWord, Rcon;
    VectorRow10Core();
  }

  lemma VectorRound1()
    ensures FullRound(State(0x00102030, 0x40506070, 0x8090a0b0, 0xc0d0e0f0),
                      State(0xd6aa74fd, 0xd2af72fa, 0xdaa678f1, 0xd6ab76fe)) ==
            State(0x89d810e8, 0x855ace68, 0x2d1843d8, 0xcb128fe4)
  {
  }

  lemma VectorRound2()
    ensures FullRound(State(0x89d810e8, 0x855ace68, 0x2d1843d8, 0xcb128fe4),
                      State(0xb692cf0b, 0x643dbdf1, 0xbe9bc500, 0x6830b3fe)) ==
            State(0x4915598f, 0x55e5d7a0, 0xdaca94fa, 0x1f0a63f7)
  {
  }

  lemma VectorRound3()
    ensures FullRound(State(0x4915598f, 0x55e5d7a0, 0xdaca94fa, 0x1f0a63f7),
                      State(0xb6ff744e, 0xd2c2c9bf, 0x6c590cbf, 0x0469bf41)) ==
            State(0xfa636a28, 0x25b339c9, 0x40668a31, 0x57244d17)
  {
  }

  lemma VectorRound4()
    ensures FullRound(State(0xfa636a28, 0x25b339c9, 0x40668a31, 0x57244d17),
                      State(0x47f7f7bc, 0x95353e03, 0xf96c32bc, 0xfd058dfd)) ==
            State(0x24724023, 0x6966b3fa, 0x6ed27532, 0x88425b6c)
  {
  }

  lemma VectorRound5()
    ensures FullRound(State(0x24724023, 0x6966b3fa, 0x6ed27532, 0x88425b6c),
                      State(0x3caaa3e8, 0xa99f9deb, 0x50f3af57, 0xadf622aa)) ==
            State(0xc81677bc, 0x9b7ac93b, 0x25027992, 0xb0261996)
  {
  }

  lemma VectorRound6()
    ensures FullRound(State(0xc81677bc, 0x9b7ac93b, 0x25027992, 0xb0261996),
                      State(0x5e390f7d, 0xf7a69296, 0xa7553dc1, 0x0aa31f6b)) ==
            State(0xc62fe109, 0xf75eedc3, 0xcc79395d, 0x84f9cf5d)
  {
  }

  lemma VectorRound7()
    ensures FullRound(State(0xc62fe109, 0xf75eedc3, 0xcc79395d, 0x84f9cf5d),
                      State(0x14f9701a, 0xe35fe28c, 0x440adf4d, 0x4ea9c026)) ==
            State(0xd1876c0f, 0x79c4300a, 0xb45594ad, 0xd66ff41f)
  {
  }

  lemma VectorRound8()
    ensures FullRound(State(0xd1876c0f, 0x79c4300a, 0xb45594ad, 0xd66ff41f),
                      State(0x47438735, 0xa41c65b9, 0xe016baf4, 0xaebf7ad2)) ==
            State(0xfde3bad2, 0x05e5d0d7, 0x3547964e, 0xf1fe37f1)
  {
  }

  lemma VectorRound9()
    ensures FullRound(State(0xfde3bad2, 0x05e5d0d7, 0x3547964e, 0xf1fe37f1),
                      State(0x549932d1, 0xf0855768, 0x1093ed9c, 0xbe2c974e)) ==
            State(0xbd6e7c3d, 0xf2b5779e, 0x0b61216e, 0x8b10b689)
  {
  }

  lemma VectorRows(ks: seq<State>)
    requires ks == seq(11, (r: nat) => VectorRoundKey(r))
    ensures Expands(VectorKey(), 4, ks)
  {
    hide Follows, StartsWith, VectorKey;
    VectorStart(ks);
    forall r | 1 <= r < 11 ensures Follows(4, r, ks[if r >= 2 then r - 2 else 0], ks[r - 1], ks[r]) {
      if r == 1 {
        VectorRow1();
      } else if r == 2 {
        VectorRow2();
      } else if r == 3 {
        VectorRow3();
      } else if r == 4 {
        VectorRow4();
      } else if r == 5 {
        VectorRow5();
      } else if r == 6 {
        VectorRow6();
      } else if r == 7 {
        VectorRow7();
      } else if r == 8 {
        VectorRow8();
      } else if r == 9 {
        VectorRow9();
      } else if r == 10 {
        VectorRow10();
      }
    }
  }

  lemma VectorAllRounds(ks: seq<State>, ss: seq<State>)
    requires ks == seq(11, (r: nat) => VectorRoundKey(r)) && ss == seq(10, (r: nat) => VectorState(r))
    ensures Goes(Load(VectorBlock()), ks, ss)
  {
    hide FullRound, Load, AddRoundKey, VectorBlock;
    VectorRound0();
    forall r | 1 <= r < 10 ensures FullRound(ss[r - 1], ks[r]) == ss[r] {
      if r == 1 {
        VectorRound1();
      } else if r == 2 {
        VectorRound2();
      } else if r == 3 {
        VectorRound3();
      } else if r == 4 {
        VectorRound4();
      } else if r == 5 {
        VectorRound5();
      } else if r == 6 {
        VectorRound6();
      } else if r == 7 {
        VectorRound7();
      } else if r == 8 {
        VectorRound8();
      } else if r == 9 {
        VectorRound9();
      }
    }
  }

  lemma VectorRound0()
    ensures AddRoundKey(Load(VectorBlock()), VectorRoundKey(0)) == VectorState(0)
  {
  }

  lemma VectorLast()
    ensures LastRound(State(0xbd6e7c3d, 0xf2b5779e, 0x0b61216e, 0x8b10b689),
                      State(0x13111d7f, 0xe3944a17, 0xf307a78b, 0x4d2b30c5)) ==
            State(0x69c4e0d8, 0x6a7b0430, 0xd8cdb780, 0x70b4c55a)
  {
  }

  lemma VectorOut()
    ensures Store(State(0x69c4e0d8, 0x6a7b0430, 0xd8cdb780, 0x70b4c55a)) ==
            [0x69, 0xc4, 0xe0, 0xd8, 0x6a, 0x7b, 0x04, 0x30, 0xd8, 0xcd, 0xb7, 0x80, 0x70, 0xb4, 0xc5, 0x5a]
  {
  }

  /** The ciphertext the standard prints for its 128-bit key. */
  lemma CipherVector(w: seq<bv32>)
    requires w == KeySchedule(VectorKey(), 4, 44)
    ensures Rounds(10) && |w| == 44
    ensures EncryptBlock(w, 10, VectorBlock()) ==
            [0x69, 0xc4, 0xe0, 0xd8, 0x6a, 0x7b, 0x04, 0x30, 0xd8, 0xcd, 0xb7, 0x80, 0x70, 0xb4, 0xc5, 0x5a]
  {
    hide Expands, Goes, LastRound, Store, VectorKey, VectorBlock, EncryptBlock, KeySchedule;
    var ks, ss := seq(11, (r: nat) => VectorRoundKey(r)), seq(10, (r: nat) => VectorState(r));
    VectorRows(ks);
    VectorAllRounds(ks, ss);
    VectorLast();
    VectorOut();
    Works(VectorKey(), 4, VectorBlock(), ks, ss,
          State(0x69c4e0d8, 0x6a7b0430, 0xd8cdb780, 0x70b4c55a));
  }

  /** So AES-128 under the example key does not leave the example block alone. */
  lemma VectorMoves(w: seq<bv32>, b: Block)
    requires w == KeySchedule(VectorKey(), 4, 44) && b == VectorBlock()
    ensures Rounds(10) && |w| == 44 && EncryptBlock(w, 10, b) != b
  {
    hide KeySchedule, VectorKey, EncryptBlock;
    CipherVector(w);
  }
}
