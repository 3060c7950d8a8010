/** Sections 5.1 to 5.3 of FIPS 197: Cipher, InvCipher, the Equivalent Inverse Cipher and key
    expansion, and the laws that connect them. */
module AesCipher {
  import opened AesTables
  import opened AesField

  datatype State = State(c0: bv32, c1: bv32, c2: bv32, c3: bv32)

  function AddRoundKey(s: State, k: State): State {
    State(AddW(s.c0, k.c0), AddW(s.c1, k.c1), AddW(s.c2, k.c2), AddW(s.c3, k.c3))
  }

  function SubBytes(s: State): State { State(SubWord(s.c0), SubWord(s.c1), SubWord(s.c2), SubWord(s.c3)) }
  function InvSubBytes(s: State): State {
    State(InvSubWord(s.c0), InvSubWord(s.c1), InvSubWord(s.c2), InvSubWord(s.c3))
  }

  /** The column with byte 0 of a, byte 1 of b, byte 2 of c and byte 3 of d. */
  function Diagonal(a: bv32, b: bv32, c: bv32, d: bv32): bv32 { Pack(B0(a), B1(b), B2(c), B3(d)) }

  function ShiftRows(s: State): State {
    State(Diagonal(s.c0, s.c1, s.c2, s.c3), Diagonal(s.c1, s.c2, s.c3, s.c0), Diagonal(s.c2, s.c3, s.c0, s.c1),
          Diagonal(s.c3, s.c0, s.c1, s.c2))
  }

  function InvShiftRows(s: State): State {
    State(Diagonal(s.c0, s.c3, s.c2, s.c1), Diagonal(s.c1, s.c0, s.c3, s.c2), Diagonal(s.c2, s.c1, s.c0, s.c3),
          Diagonal(s.c3, s.c2, s.c1, s.c0))
  }

  function MixColumns(s: State): State { State(MixColumn(s.c0), MixColumn(s.c1), MixColumn(s.c2), MixColumn(s.c3)) }
  function InvMixColumns(s: State): State {
    State(InvMixColumn(s.c0), InvMixColumn(s.c1), InvMixColumn(s.c2), InvMixColumn(s.c3))
  }

  /** Words 4r..4r+3 of a key schedule. */
  function RoundKey(w: seq<bv32>, r: nat): State
    requires 4 * r + 4 <= |w|
  {
    State(w[4 * r], w[4 * r + 1], w[4 * r + 2], w[4 * r + 3])
  }

  /** The state of Cipher after round r (section 5.1). */
  function AfterRound(x: State, w: seq<bv32>, r: nat): State
    requires 4 * r + 4 <= |w|
  {
    if r == 0 then AddRoundKey(x, RoundKey(w, 0))
    else AddRoundKey(MixColumns(ShiftRows(SubBytes(AfterRound(x, w, r - 1)))), RoundKey(w, r))
  }

  function Cipher(x: State, w: seq<bv32>, nr: nat): State
    requires nr > 0 && 4 * nr + 4 <= |w|
  {
    AddRoundKey(ShiftRows(SubBytes(AfterRound(x, w, nr - 1))), RoundKey(w, nr))
  }

  /** The state of InvCipher after k of its nr - 1 full rounds (section 5.3). */
  function InvAfter(y: State, w: seq<bv32>, nr: nat, k: nat): State
    requires k < nr && 4 * nr + 4 <= |w|
  {
    if k == 0 then AddRoundKey(y, RoundKey(w, nr))
    else InvMixColumns(AddRoundKey(InvSubBytes(InvShiftRows(InvAfter(y, w, nr, k - 1))), RoundKey(w, nr - k)))
  }

  function InvCipher(y: State, w: seq<bv32>, nr: nat): State
    requires nr > 0 && 4 * nr + 4 <= |w|
  {
    AddRoundKey(InvSubBytes(InvShiftRows(InvAfter(y, w, nr, nr - 1))), RoundKey(w, 0))
  }

  /** Round key r of the Equivalent Inverse Cipher: InvMixColumns of the inner round keys. */
  function EqKey(w: seq<bv32>, nr: nat, r: nat): State
    requires r <= nr && 4 * nr + 4 <= |w|
  {
    if r == 0 || r == nr then RoundKey(w, r) else InvMixColumns(RoundKey(w, r))
  }

  /** The Equivalent Inverse Cipher of section 5.3.5 after k full rounds. */
  function EqAfter(y: State, w: seq<bv32>, nr: nat, k: nat): State
    requires k < nr && 4 * nr + 4 <= |w|
  {
    if k == 0 then AddRoundKey(y, EqKey(w, nr, nr))
    else AddRoundKey(InvMixColumns(InvShiftRows(InvSubBytes(EqAfter(y, w, nr, k - 1)))), EqKey(w, nr, nr - k))
  }

  function EqInvCipher(y: State, w: seq<bv32>, nr: nat): State
    requires nr > 0 && 4 * nr + 4 <= |w|
  {
    AddRoundKey(InvShiftRows(InvSubBytes(EqAfter(y, w, nr, nr - 1))), EqKey(w, nr, 0))
  }

  /* ---- each transformation has its inverse ---- */

  lemma AddRoundKeyTwice(s: State, k: State)
    ensures AddRoundKey(AddRoundKey(s, k), k) == s
  {
    hide AddW;
    AddWTwice(s.c0, k.c0);
    AddWTwice(s.c1, k.c1);
    AddWTwice(s.c2, k.c2);
    AddWTwice(s.c3, k.c3);
  }

  lemma InvSubBytesOfSubBytes(s: State)
    ensures InvSubBytes(SubBytes(s)) == s
  {
    hide SubWord, InvSubWord;
    InvSubOfSub(s.c0);
    InvSubOfSub(s.c1);
    InvSubOfSub(s.c2);
    InvSubOfSub(s.c3);
  }

  lemma DiagonalBytes(a: bv32, b: bv32, c: bv32, d: bv32)
    ensures var e := Diagonal(a, b, c, d); B0(e) == B0(a) && B1(e) == B1(b) && B2(e) == B2(c) && B3(e) == B3(d)
  {
    hide Pack, B0, B1, B2, B3;
    PackBytes(B0(a), B1(b), B2(c), B3(d));
  }

  lemma ShiftRowsBytes(s: State)
    ensures var t := ShiftRows(s);
            && B0(t.c0) == B0(s.c0) && B1(t.c0) == B1(s.c1) && B2(t.c0) == B2(s.c2) && B3(t.c0) == B3(s.c3)
            && B0(t.c1) == B0(s.c1) && B1(t.c1) == B1(s.c2) && B2(t.c1) == B2(s.c3) && B3(t.c1) == B3(s.c0)
            && B0(t.c2) == B0(s.c2) && B1(t.c2) == B1(s.c3) && B2(t.c2) == B2(s.c0) && B3(t.c2) == B3(s.c1)
            && B0(t.c3) == B0(s.c3) && B1(t.c3) == B1(s.c0) && B2(t.c3) == B2(s.c1) && B3(t.c3) == B3(s.c2)
  {
    hide Diagonal, B0, B1, B2, B3;
    DiagonalBytes(s.c0, s.c1, s.c2, s.c3);
    DiagonalBytes(s.c1, s.c2, s.c3, s.c0);
    DiagonalBytes(s.c2, s.c3, s.c0, s.c1);
    DiagonalBytes(s.c3, s.c0, s.c1, s.c2);
  }

  lemma InvShiftRowsOfShiftRows(s: State)
    ensures InvShiftRows(ShiftRows(s)) == s
  {
    hide Pack, B0, B1, B2, B3, ShiftRows;
    ShiftRowsBytes(s);
    Unpack(s.c0);
    Unpack(s.c1);
    Unpack(s.c2);
    Unpack(s.c3);
  }

  lemma InvSubWordBytes(w: bv32)
    ensures var e := InvSubWord(w); B0(e) == Si(B0(w)) && B1(e) == Si(B1(w)) && B2(e) == Si(B2(w)) && B3(e) == Si(B3(w))
  {
    hide Pack, B0, B1, B2, B3, Si;
    PackBytes(Si(B0(w)), Si(B1(w)), Si(B2(w)), Si(B3(w)));
  }

  lemma InvSubDiagonal(a: bv32, b: bv32, c: bv32, d: bv32)
    ensures InvSubWord(Diagonal(a, b, c, d)) == Diagonal(InvSubWord(a), InvSubWord(b), InvSubWord(c), InvSubWord(d))
  {
    hide Pack, B0, B1, B2, B3, Si;
    DiagonalBytes(a, b, c, d);
    InvSubWordBytes(a);
    InvSubWordBytes(b);
    InvSubWordBytes(c);
    InvSubWordBytes(d);
  }

  /** InvSubBytes works byte by byte, so it commutes with InvShiftRows. */
  lemma InvSubShiftCommute(s: State)
    ensures InvSubBytes(InvShiftRows(s)) == InvShiftRows(InvSubBytes(s))
  {
    hide Diagonal, InvSubWord;
    InvSubDiagonal(s.c0, s.c3, s.c2, s.c1);
    InvSubDiagonal(s.c1, s.c0, s.c3, s.c2);
    InvSubDiagonal(s.c2, s.c1, s.c0, s.c3);
    InvSubDiagonal(s.c3, s.c2, s.c1, s.c0);
  }

  lemma InvMixColumnsOfMixColumns(s: State)
    ensures InvMixColumns(MixColumns(s)) == s
  {
    hide MixColumn, InvMixColumn;
    InvMixOfMix(s.c0);
    InvMixOfMix(s.c1);
    InvMixOfMix(s.c2);
    InvMixOfMix(s.c3);
  }

  lemma InvMixColumnsLinear(s: State, k: State)
    ensures InvMixColumns(AddRoundKey(s, k)) == AddRoundKey(InvMixColumns(s), InvMixColumns(k))
  {
    hide AddW, InvMixColumn;
    InvMixLinear(s.c0, k.c0);
    InvMixLinear(s.c1, k.c1);
    InvMixLinear(s.c2, k.c2);
    InvMixLinear(s.c3, k.c3);
  }

  /* ---- the ciphers ---- */

  /** Going down, the inverse cipher meets the state the cipher had on the way up. */
  lemma {:induction false} InverseRetraces(x: State, w: seq<bv32>, nr: nat, k: nat)
    requires k < nr && 4 * nr + 4 <= |w|
    ensures InvAfter(Cipher(x, w, nr), w, nr, k) == ShiftRows(SubBytes(AfterRound(x, w, nr - 1 - k)))
  {
    hide AddRoundKey, SubBytes, InvSubBytes, ShiftRows, InvShiftRows, MixColumns, InvMixColumns, RoundKey;
    if k == 0 {
      AddRoundKeyTwice(ShiftRows(SubBytes(AfterRound(x, w, nr - 1))), RoundKey(w, nr));
    } else {
      InverseRetraces(x, w, nr, k - 1);
      var s := AfterRound(x, w, nr - k);
      InvShiftRowsOfShiftRows(SubBytes(s));
      InvSubBytesOfSubBytes(s);
      var t := ShiftRows(SubBytes(AfterRound(x, w, nr - 1 - k)));
      AddRoundKeyTwice(MixColumns(t), RoundKey(w, nr - k));
      InvMixColumnsOfMixColumns(t);
    }
  }

  /** InvCipher inverts Cipher, whatever the key schedule. */
  lemma InvCipherOfCipher(x: State, w: seq<bv32>, nr: nat)
    requires nr > 0 && 4 * nr + 4 <= |w|
    ensures InvCipher(Cipher(x, w, nr), w, nr) == x
  {
    hide AddRoundKey, SubBytes, InvSubBytes, ShiftRows, InvShiftRows, MixColumns, InvMixColumns, RoundKey, Cipher;
    InverseRetraces(x, w, nr, nr - 1);
    var s := AfterRound(x, w, 0);
    InvShiftRowsOfShiftRows(SubBytes(s));
    InvSubBytesOfSubBytes(s);
    AddRoundKeyTwice(x, RoundKey(w, 0));
  }

  lemma {:induction false} EquivalentRounds(y: State, w: seq<bv32>, nr: nat, k: nat)
    requires k < nr && 4 * nr + 4 <= |w|
    ensures EqAfter(y, w, nr, k) == InvAfter(y, w, nr, k)
  {
    hide AddRoundKey, InvSubBytes, InvShiftRows, InvMixColumns, RoundKey;
    if k > 0 {
      EquivalentRounds(y, w, nr, k - 1);
      var s := InvAfter(y, w, nr, k - 1);
      InvSubShiftCommute(s);
      InvMixColumnsLinear(InvShiftRows(InvSubBytes(s)), RoundKey(w, nr - k));
    }
  }

  /** The Equivalent Inverse Cipher is the inverse cipher (section 5.3.5). */
  lemma EquivalentInverse(y: State, w: seq<bv32>, nr: nat)
    requires nr > 0 && 4 * nr + 4 <= |w|
    ensures EqInvCipher(y, w, nr) == InvCipher(y, w, nr)
  {
    hide AddRoundKey, InvSubBytes, InvShiftRows, InvMixColumns, RoundKey;
    EquivalentRounds(y, w, nr, nr - 1);
    InvSubShiftCommute(InvAfter(y, w, nr, nr - 1));
  }

  /* ---- key expansion, section 5.2 ---- */

  function XPower(n: nat): bv8 {
    if n == 0 then 1 else Xtime(XPower(n - 1))
  }

  function Rcon(i: nat): bv32
    requires i > 0
  {
    Pack(XPower(i - 1), 0, 0, 0)
  }

  predicate KeyLength(nk: nat) { nk == 4 || nk == 6 || nk == 8 }

  function KeyBytes(key: seq<bv8>, i: nat): bv32
    requires 4 * i + 4 <= |key|
  {
    Pack(key[4 * i], key[4 * i + 1], key[4 * i + 2], key[4 * i + 3])
  }

  /** Word i of the expanded key. */
  function KeyWord(key: seq<bv8>, nk: nat, i: nat): bv32
    requires KeyLength(nk) && |key| >= 4 * nk
    decreases i
  {
    if i < nk then KeyBytes(key, i)
    else
      var temp := KeyWord(key, nk, i - 1);
      var t := if i % nk == 0 then AddW(SubWord(RotWord(temp)), Rcon(i / nk))
               else if nk > 6 && i % nk == 4 then SubWord(temp)
               else temp;
      AddW(KeyWord(key, nk, i - nk), t)
  }

  /** The first n words of the expanded key. */
  function KeySchedule(key: seq<bv8>, nk: nat, n: nat): seq<bv32>
    requires KeyLength(nk) && |key| >= 4 * nk
  {
    seq(n, i requires 0 <= i < n => KeyWord(key, nk, i))
  }
}
