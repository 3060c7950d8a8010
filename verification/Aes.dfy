/** The code of aes.c (loops not unrolled): key schedules and table-driven rounds, proved equal to
    the ciphers of FIPS 197. */
module Aes {
  import opened AesTables
  import opened AesField
  import opened AesTableLaws
  import opened AesCipher

  /* ---- one word of a round ---- */

  /** A word of a full encryption round. */
  function TeWord(a: bv32, b: bv32, c: bv32, d: bv32, k: bv32): bv32 {
    AddW(AddW(AddW(AddW(Te0(B0(a)), Te1(B1(b))), Te2(B2(c))), Te3(B3(d))), k)
  }

  /** A word of a full decryption round. */
  function TdWord(a: bv32, b: bv32, c: bv32, d: bv32, k: bv32): bv32 {
    AddW(AddW(AddW(AddW(Td0(B0(a)), Td1(B1(b))), Td2(B2(c))), Td3(B3(d))), k)
  }

  /** Te4 and Td4 repeat the substituted byte. */
  function Te4(x: bv8): bv32 { Pack(S(x), S(x), S(x), S(x)) }
  function Td4(x: bv8): bv32 { Pack(Si(x), Si(x), Si(x), Si(x)) }

  /** One byte from each of four words. */
  function Select(a: bv32, b: bv32, c: bv32, d: bv32): bv32 {
    (a & 0xff000000) ^ (b & 0x00ff0000) ^ (c & 0x0000ff00) ^ (d & 0x000000ff)
  }

  function TeLast(a: bv32, b: bv32, c: bv32, d: bv32, k: bv32): bv32 {
    AddW(Select(Te4(B0(a)), Te4(B1(b)), Te4(B2(c)), Te4(B3(d))), k)
  }

  function TdLast(a: bv32, b: bv32, c: bv32, d: bv32, k: bv32): bv32 {
    AddW(Select(Td4(B0(a)), Td4(B1(b)), Td4(B2(c)), Td4(B3(d))), k)
  }

  lemma SelectRepeated(a: bv8, b: bv8, c: bv8, d: bv8)
    ensures Select(Pack(a, a, a, a), Pack(b, b, b, b), Pack(c, c, c, c), Pack(d, d, d, d)) == Pack(a, b, c, d)
  {
  }

  lemma AddWAssoc(a: bv32, b: bv32, c: bv32, d: bv32)
    ensures AddW(AddW(AddW(a, b), c), d) == AddW(AddW(a, b), AddW(c, d))
  {
    assert ((a ^ b) ^ c) ^ d == (a ^ b) ^ (c ^ d);
  }

  /** Adding the multiples of the matrix columns is multiplying by the matrix. */
  lemma ColumnsAdd(a0: bv8, a1: bv8, a2: bv8, a3: bv8, b0: bv8, b1: bv8, b2: bv8, b3: bv8,
                   c0: bv8, c1: bv8, c2: bv8, c3: bv8, d0: bv8, d1: bv8, d2: bv8, d3: bv8)
    ensures AddW(AddW(AddW(Pack(a0, a1, a2, a3), Pack(b0, b1, b2, b3)), Pack(c0, c1, c2, c3)), Pack(d0, d1, d2, d3)) ==
            Pack(Add4(a0, b0, c0, d0), Add4(a1, b1, c1, d1), Add4(a2, b2, c2, d2), Add4(a3, b3, c3, d3))
  {
    hide AddW, Add, Pack;
    AddWAssoc(Pack(a0, a1, a2, a3), Pack(b0, b1, b2, b3), Pack(c0, c1, c2, c3), Pack(d0, d1, d2, d3));
    PackAdd(a0, a1, a2, a3, b0, b1, b2, b3);
    PackAdd(c0, c1, c2, c3, d0, d1, d2, d3);
    PackAdd(Add(a0, b0), Add(a1, b1), Add(a2, b2), Add(a3, b3), Add(c0, d0), Add(c1, d1), Add(c2, d2), Add(c3, d3));
  }

  lemma TeWordIsRound(a: bv32, b: bv32, c: bv32, d: bv32, k: bv32)
    ensures TeWord(a, b, c, d, k) == AddW(MixBytes(S(B0(a)), S(B1(b)), S(B2(c)), S(B3(d))), k)
  {
    hide AddW, Add4, Pack, B0, B1, B2, B3, S, Te0, Te1, Te2, Te3, Xtime, Mul3;
    var p, q, r, s := S(B0(a)), S(B1(b)), S(B2(c)), S(B3(d));
    TeEquations(B0(a));
    TeEquations(B1(b));
    TeEquations(B2(c));
    TeEquations(B3(d));
    ColumnsAdd(Xtime(p), p, p, Mul3(p), Mul3(q), Xtime(q), q, q, r, Mul3(r), Xtime(r), r, s, s, Mul3(s), Xtime(s));
  }

  lemma TdWordIsRound(a: bv32, b: bv32, c: bv32, d: bv32, k: bv32)
    ensures TdWord(a, b, c, d, k) == AddW(InvMixBytes(Si(B0(a)), Si(B1(b)), Si(B2(c)), Si(B3(d))), k)
  {
    hide AddW, Add4, Pack, B0, B1, B2, B3, Si, Td0, Td1, Td2, Td3, Mul9, MulB, MulD, MulE;
    var p, q, r, s := Si(B0(a)), Si(B1(b)), Si(B2(c)), Si(B3(d));
    TdEquations(B0(a));
    TdEquations(B1(b));
    TdEquations(B2(c));
    TdEquations(B3(d));
    ColumnsAdd(MulE(p), Mul9(p), MulD(p), MulB(p), MulB(q), MulE(q), Mul9(q), MulD(q), MulD(r), MulB(r), MulE(r),
               Mul9(r), Mul9(s), MulD(s), MulB(s), MulE(s));
  }

  lemma TeLastIsRound(a: bv32, b: bv32, c: bv32, d: bv32, k: bv32)
    ensures TeLast(a, b, c, d, k) == AddW(Pack(S(B0(a)), S(B1(b)), S(B2(c)), S(B3(d))), k)
  {
    hide AddW, Pack, B0, B1, B2, B3, S, Select;
    SelectRepeated(S(B0(a)), S(B1(b)), S(B2(c)), S(B3(d)));
  }

  lemma TdLastIsRound(a: bv32, b: bv32, c: bv32, d: bv32, k: bv32)
    ensures TdLast(a, b, c, d, k) == AddW(Pack(Si(B0(a)), Si(B1(b)), Si(B2(c)), Si(B3(d))), k)
  {
    hide AddW, Pack, B0, B1, B2, B3, Si, Select;
    SelectRepeated(Si(B0(a)), Si(B1(b)), Si(B2(c)), Si(B3(d)));
  }

  /* ---- whole rounds ---- */

  function TeRound(s: State, k: State): State {
    State(TeWord(s.c0, s.c1, s.c2, s.c3, k.c0), TeWord(s.c1, s.c2, s.c3, s.c0, k.c1),
          TeWord(s.c2, s.c3, s.c0, s.c1, k.c2), TeWord(s.c3, s.c0, s.c1, s.c2, k.c3))
  }

  function TeFinal(s: State, k: State): State {
    State(TeLast(s.c0, s.c1, s.c2, s.c3, k.c0), TeLast(s.c1, s.c2, s.c3, s.c0, k.c1),
          TeLast(s.c2, s.c3, s.c0, s.c1, k.c2), TeLast(s.c3, s.c0, s.c1, s.c2, k.c3))
  }

  function TdRound(s: State, k: State): State {
    State(TdWord(s.c0, s.c3, s.c2, s.c1, k.c0), TdWord(s.c1, s.c0, s.c3, s.c2, k.c1),
          TdWord(s.c2, s.c1, s.c0, s.c3, k.c2), TdWord(s.c3, s.c2, s.c1, s.c0, k.c3))
  }

  function TdFinal(s: State, k: State): State {
    State(TdLast(s.c0, s.c3, s.c2, s.c1, k.c0), TdLast(s.c1, s.c0, s.c3, s.c2, k.c1),
          TdLast(s.c2, s.c1, s.c0, s.c3, k.c2), TdLast(s.c3, s.c2, s.c1, s.c0, k.c3))
  }

  lemma SubWordBytes(w: bv32)
    ensures var e := SubWord(w); B0(e) == S(B0(w)) && B1(e) == S(B1(w)) && B2(e) == S(B2(w)) && B3(e) == S(B3(w))
  {
    hide Pack, B0, B1, B2, B3, S;
    PackBytes(S(B0(w)), S(B1(w)), S(B2(w)), S(B3(w)));
  }

  lemma TeColumnOfState(a: bv32, b: bv32, c: bv32, d: bv32, k: bv32)
    ensures TeWord(a, b, c, d, k) == AddW(MixColumn(Diagonal(SubWord(a), SubWord(b), SubWord(c), SubWord(d))), k)
    ensures TeLast(a, b, c, d, k) == AddW(Diagonal(SubWord(a), SubWord(b), SubWord(c), SubWord(d)), k)
  {
    hide AddW, Pack, B0, B1, B2, B3, S, SubWord, MixBytes, TeWord, TeLast;
    TeWordIsRound(a, b, c, d, k);
    TeLastIsRound(a, b, c, d, k);
    DiagonalBytes(SubWord(a), SubWord(b), SubWord(c), SubWord(d));
    SubWordBytes(a);
    SubWordBytes(b);
    SubWordBytes(c);
    SubWordBytes(d);
  }

  lemma TdColumnOfState(a: bv32, b: bv32, c: bv32, d: bv32, k: bv32)
    ensures TdWord(a, b, c, d, k) ==
            AddW(InvMixColumn(Diagonal(InvSubWord(a), InvSubWord(b), InvSubWord(c), InvSubWord(d))), k)
    ensures TdLast(a, b, c, d, k) == AddW(Diagonal(InvSubWord(a), InvSubWord(b), InvSubWord(c), InvSubWord(d)), k)
  {
    hide AddW, Pack, B0, B1, B2, B3, Si, InvSubWord, InvMixBytes, TdWord, TdLast;
    TdWordIsRound(a, b, c, d, k);
    TdLastIsRound(a, b, c, d, k);
    DiagonalBytes(InvSubWord(a), InvSubWord(b), InvSubWord(c), InvSubWord(d));
    InvSubWordBytes(a);
    InvSubWordBytes(b);
    InvSubWordBytes(c);
    InvSubWordBytes(d);
  }

  /** The table round is the round of section 5.1, and the last round is the one without MixColumns. */
  lemma TeRoundIsRound(s: State, k: State)
    ensures TeRound(s, k) == AddRoundKey(MixColumns(ShiftRows(SubBytes(s))), k)
    ensures TeFinal(s, k) == AddRoundKey(ShiftRows(SubBytes(s)), k)
  {
    hide AddW, MixColumn, Diagonal, SubWord, TeWord, TeLast;
    TeColumnOfState(s.c0, s.c1, s.c2, s.c3, k.c0);
    TeColumnOfState(s.c1, s.c2, s.c3, s.c0, k.c1);
    TeColumnOfState(s.c2, s.c3, s.c0, s.c1, k.c2);
    TeColumnOfState(s.c3, s.c0, s.c1, s.c2, k.c3);
  }

  /** The table round of decryption is the round of section 5.3.5. */
  lemma TdRoundIsRound(s: State, k: State)
    ensures TdRound(s, k) == AddRoundKey(InvMixColumns(InvShiftRows(InvSubBytes(s))), k)
    ensures TdFinal(s, k) == AddRoundKey(InvShiftRows(InvSubBytes(s)), k)
  {
    hide AddW, InvMixColumn, Diagonal, InvSubWord, TdWord, TdLast;
    TdColumnOfState(s.c0, s.c3, s.c2, s.c1, k.c0);
    TdColumnOfState(s.c1, s.c0, s.c3, s.c2, k.c1);
    TdColumnOfState(s.c2, s.c1, s.c0, s.c3, k.c2);
    TdColumnOfState(s.c3, s.c2, s.c1, s.c0, k.c3);
  }

  /* ---- bytes in, bytes out ---- */

  type Block = b: seq<bv8> | |b| == 16 witness seq(16, _ => 0)

  /** GETU32 on the four words of a block. */
  function Load(b: Block): State {
    State(KeyBytes(b, 0), KeyBytes(b, 1), KeyBytes(b, 2), KeyBytes(b, 3))
  }

  function PutWord(w: bv32): (s: seq<bv8>)
    ensures |s| == 4
  {
    [B0(w), B1(w), B2(w), B3(w)]
  }

  /** PUTU32 of the four words of a state. */
  function Store(s: State): Block {
    PutWord(s.c0) + PutWord(s.c1) + PutWord(s.c2) + PutWord(s.c3)
  }

  lemma PutGet(w: bv32, s: seq<bv8>, i: nat)
    requires 4 * i + 4 <= |s| && s[4 * i..4 * i + 4] == PutWord(w)
    ensures KeyBytes(s, i) == w
  {
    hide Pack, B0, B1, B2, B3;
    var t := s[4 * i..4 * i + 4];
    assert s[4 * i] == t[0] && s[4 * i + 1] == t[1] && s[4 * i + 2] == t[2] && s[4 * i + 3] == t[3];
    Unpack(w);
  }

  lemma GetPut(b: Block, i: nat)
    requires i < 4
    ensures PutWord(KeyBytes(b, i)) == b[4 * i..4 * i + 4]
  {
    hide Pack, B0, B1, B2, B3;
    PackBytes(b[4 * i], b[4 * i + 1], b[4 * i + 2], b[4 * i + 3]);
  }

  lemma LoadOfStore(s: State)
    ensures Load(Store(s)) == s
  {
    hide PutWord, KeyBytes;
    var b := Store(s);
    assert b[0..4] == PutWord(s.c0) && b[4..8] == PutWord(s.c1);
    assert b[8..12] == PutWord(s.c2) && b[12..16] == PutWord(s.c3);
    PutGet(s.c0, b, 0);
    PutGet(s.c1, b, 1);
    PutGet(s.c2, b, 2);
    PutGet(s.c3, b, 3);
  }

  lemma StoreOfLoad(b: Block)
    ensures Store(Load(b)) == b
  {
    hide PutWord, KeyBytes;
    GetPut(b, 0);
    GetPut(b, 1);
    GetPut(b, 2);
    GetPut(b, 3);
    assert b == b[0..4] + b[4..8] + b[8..12] + b[12..16];
  }

  /* ---- AES_encrypt and AES_decrypt ---- */

  /** The last words written by a schedule are words 0..4 * rounds + 3. */
  predicate Rounds(nr: nat) { nr == 10 || nr == 12 || nr == 14 }

  /** rk[0..3] with rk advanced by base words. */
  function KeyAt(rk: seq<bv32>, base: nat): State
    requires base + 4 <= |rk|
  {
    State(rk[base], rk[base + 1], rk[base + 2], rk[base + 3])
  }

  lemma KeyAtIsRoundKey(rk: seq<bv32>, r: nat)
    requires 4 * r + 4 <= |rk|
    ensures KeyAt(rk, 4 * r) == RoundKey(rk, r)
  {
  }

  lemma EncryptRound(x: State, w: seq<bv32>, r: nat)
    requires 4 * r + 8 <= |w|
    ensures TeRound(AfterRound(x, w, r), RoundKey(w, r + 1)) == AfterRound(x, w, r + 1)
    ensures TeFinal(AfterRound(x, w, r), RoundKey(w, r + 1)) == Cipher(x, w, r + 1)
  {
    hide TeRound, TeFinal, AddRoundKey, SubBytes, ShiftRows, MixColumns, RoundKey;
    TeRoundIsRound(AfterRound(x, w, r), RoundKey(w, r + 1));
  }

  lemma EncryptStart(x: State, w: seq<bv32>)
    requires 4 <= |w|
    ensures AfterRound(x, w, 0) == AddRoundKey(x, RoundKey(w, 0))
  {
  }

  /** AES_encrypt: two rounds a turn, s into t and t into s, then the last round. */
  method Encrypt(inp: Block, rk: seq<bv32>, rounds: nat) returns (out: Block)
    requires Rounds(rounds) && 4 * rounds + 4 <= |rk|
    ensures out == Store(Cipher(Load(inp), rk, rounds))
  {
    hide TeRound, TeFinal, AddRoundKey, AfterRound, Cipher, KeyAt, RoundKey, Load, Store;
    ghost var x, w := Load(inp), rk;
    KeyAtIsRoundKey(rk, 0);
    EncryptStart(x, w);
    var s := AddRoundKey(Load(inp), KeyAt(rk, 0));
    var t := s;
    var base: nat := 0;
    var r := rounds / 2;
    ghost var done: nat := 0;
    while true
      invariant 0 < r && base == 4 * done && done + 2 * r == rounds
      invariant s == AfterRound(x, w, done)
      decreases r
    {
      KeyAtIsRoundKey(rk, done + 1);
      KeyAtIsRoundKey(rk, done + 2);
      EncryptRound(x, w, done);
      EncryptRound(x, w, done + 1);
      t := TeRound(s, KeyAt(rk, base + 4));
      base := base + 8;
      r := r - 1;
      if r == 0 {
        break;
      }
      s := TeRound(t, KeyAt(rk, base));
      done := done + 2;
    }
    s := TeFinal(t, KeyAt(rk, base));
    out := Store(s);
  }

  /** The schedule AES_decrypt wants: the keys of the Equivalent Inverse Cipher in reverse order. */
  ghost predicate DecryptSchedule(dk: seq<bv32>, w: seq<bv32>, nr: nat) {
    4 * nr + 4 <= |dk| && 4 * nr + 4 <= |w| && forall r :: 0 <= r <= nr ==> RoundKey(dk, r) == EqKey(w, nr, nr - r)
  }

  lemma DecryptRound(y: State, dk: seq<bv32>, w: seq<bv32>, nr: nat, k: nat)
    requires DecryptSchedule(dk, w, nr) && k < nr
    ensures k + 1 < nr ==> TdRound(EqAfter(y, w, nr, k), RoundKey(dk, k + 1)) == EqAfter(y, w, nr, k + 1)
    ensures k + 1 == nr ==> TdFinal(EqAfter(y, w, nr, k), RoundKey(dk, k + 1)) == EqInvCipher(y, w, nr)
  {
    hide TdRound, TdFinal, AddRoundKey, InvSubBytes, InvShiftRows, InvMixColumns, RoundKey, EqKey;
    assert RoundKey(dk, k + 1) == EqKey(w, nr, nr - (k + 1));
    TdRoundIsRound(EqAfter(y, w, nr, k), RoundKey(dk, k + 1));
  }

  lemma ScheduleLengths(dk: seq<bv32>, w: seq<bv32>, nr: nat)
    requires DecryptSchedule(dk, w, nr)
    ensures 4 * nr + 4 <= |dk| && 4 * nr + 4 <= |w|
  {
  }

  lemma DecryptStart(y: State, dk: seq<bv32>, w: seq<bv32>, nr: nat)
    requires DecryptSchedule(dk, w, nr) && nr > 0
    ensures EqAfter(y, w, nr, 0) == AddRoundKey(y, RoundKey(dk, 0))
  {
    assert RoundKey(dk, 0) == EqKey(w, nr, nr - 0);
  }

  /** AES_decrypt with such a schedule is the Equivalent Inverse Cipher. */
  method Decrypt(inp: Block, rk: seq<bv32>, rounds: nat, ghost w: seq<bv32>) returns (out: Block)
    requires Rounds(rounds) && DecryptSchedule(rk, w, rounds)
    ensures out == Store(EqInvCipher(Load(inp), w, rounds))
  {
    hide TdRound, TdFinal, AddRoundKey, EqAfter, EqInvCipher, KeyAt, RoundKey, Load, Store, DecryptSchedule, EqKey;
    ghost var y, dk := Load(inp), rk;
    ScheduleLengths(dk, w, rounds);
    KeyAtIsRoundKey(rk, 0);
    DecryptStart(y, dk, w, rounds);
    var s := AddRoundKey(Load(inp), KeyAt(rk, 0));
    var t := s;
    var base: nat := 0;
    var r := rounds / 2;
    ghost var done: nat := 0;
    while true
      invariant 0 < r && base == 4 * done && done + 2 * r == rounds
      invariant s == EqAfter(y, w, rounds, done)
      decreases r
    {
      KeyAtIsRoundKey(rk, done + 1);
      KeyAtIsRoundKey(rk, done + 2);
      DecryptRound(y, dk, w, rounds, done);
      DecryptRound(y, dk, w, rounds, done + 1);
      t := TdRound(s, KeyAt(rk, base + 4));
      base := base + 8;
      r := r - 1;
      if r == 0 {
        break;
      }
      s := TdRound(t, KeyAt(rk, base));
      done := done + 2;
    }
    s := TdFinal(t, KeyAt(rk, base));
    out := Store(s);
  }
}
