/** AES_set_encrypt_key and AES_set_decrypt_key, and decryption as the inverse of encryption. */
module AesKeys {
  import opened AesTables
  import opened AesField
  import opened AesTableLaws
  import opened AesCipher
  import opened Aes

  /* ---- table forms of the key transformations ---- */

  /** The temp word of a key row: substituted bytes, rotated by one. */
  function KeyCore(t: bv32): bv32 { Select(Te4(B1(t)), Te4(B2(t)), Te4(B3(t)), Te4(B0(t))) }
  function KeySub(t: bv32): bv32 { Select(Te4(B0(t)), Te4(B1(t)), Te4(B2(t)), Te4(B3(t))) }

  lemma KeyCoreIs(t: bv32)
    ensures KeyCore(t) == SubWord(RotWord(t)) && KeySub(t) == SubWord(t)
  {
    hide Select, Pack, B0, B1, B2, B3, S;
    SelectRepeated(S(B1(t)), S(B2(t)), S(B3(t)), S(B0(t)));
    SelectRepeated(S(B0(t)), S(B1(t)), S(B2(t)), S(B3(t)));
    PackBytes(B1(t), B2(t), B3(t), B0(t));
  }

  /** InvMixColumn by lookup: Td undoes the substitution that Te4 puts in. */
  function InvMixByTables(w: bv32): bv32 {
    AddW(AddW(AddW(Td0(S(B0(w))), Td1(S(B1(w)))), Td2(S(B2(w)))), Td3(S(B3(w))))
  }

  lemma InvMixByTablesIs(w: bv32)
    ensures InvMixByTables(w) == InvMixColumn(w)
  {
    hide AddW, Add4, Pack, B0, B1, B2, B3, S, Si, Td0, Td1, Td2, Td3, Mul9, MulB, MulD, MulE;
    var p, q, r, s := B0(w), B1(w), B2(w), B3(w);
    SiOfS(p);
    SiOfS(q);
    SiOfS(r);
    SiOfS(s);
    TdEquations(S(p));
    TdEquations(S(q));
    TdEquations(S(r));
    TdEquations(S(s));
    ColumnsAdd(MulE(p), Mul9(p), MulD(p), MulB(p), MulB(q), MulE(q), Mul9(q), MulD(q), MulD(r), MulB(r), MulE(r),
               Mul9(r), Mul9(s), MulD(s), MulB(s), MulE(s));
  }

  /** The rcon array. */
  function RconAt(i: nat): bv32
    requires i < 10
  {
    if i == 0 then 0x01000000 else if i == 1 then 0x02000000 else if i == 2 then 0x04000000
    else if i == 3 then 0x08000000 else if i == 4 then 0x10000000 else if i == 5 then 0x20000000
    else if i == 6 then 0x40000000 else if i == 7 then 0x80000000 else if i == 8 then 0x1B000000
    else 0x36000000
  }

  /** Entry i is the power x^i of the field, in the top byte. */
  lemma RconAtIs(i: nat)
    requires i < 10
    ensures RconAt(i) == Rcon(i + 1)
  {
    assert XPower(0) == 0x01;
    assert XPower(1) == 0x02;
    assert XPower(2) == 0x04;
    assert XPower(3) == 0x08;
    assert XPower(4) == 0x10;
    assert XPower(5) == 0x20;
    assert XPower(6) == 0x40;
    assert XPower(7) == 0x80;
    assert XPower(8) == 0x1b;
    assert XPower(9) == 0x36;
  }

  lemma AddWAssoc3(a: bv32, b: bv32, c: bv32)
    ensures AddW(AddW(a, b), c) == AddW(a, AddW(b, c))
  {
  }

  /** The first word of row i + 1 of the schedule. */
  lemma RowStart(key: seq<bv8>, nk: nat, i: nat)
    requires KeyLength(nk) && |key| >= 4 * nk && i < 10
    ensures KeyWord(key, nk, nk * i + nk) ==
            AddW(AddW(KeyWord(key, nk, nk * i), KeyCore(KeyWord(key, nk, nk * i + nk - 1))), RconAt(i))
  {
    hide AddW, SubWord, RotWord, KeyCore, Rcon, RconAt, KeyWord;
    var n := nk * i + nk;
    RowIndex(nk, i, 0);
    KeyWordUnfolds(key, nk, n);
    var t := KeyWord(key, nk, n - 1);
    KeyCoreIs(t);
    RconAtIs(i);
    AddWAssoc3(KeyWord(key, nk, n - nk), KeyCore(t), RconAt(i));
  }

  lemma KeyWordUnfolds(key: seq<bv8>, nk: nat, n: nat)
    requires KeyLength(nk) && |key| >= 4 * nk && n >= nk
    ensures n % nk == 0 ==>
              var before := KeyWord(key, nk, n - 1);
              n / nk > 0 &&
              KeyWord(key, nk, n) == AddW(KeyWord(key, nk, n - nk), AddW(SubWord(RotWord(before)), Rcon(n / nk)))
    ensures n % nk != 0 ==>
              var before := KeyWord(key, nk, n - 1);
              var last := if nk == 8 && n % nk == 4 then SubWord(before) else before;
              KeyWord(key, nk, n) == AddW(KeyWord(key, nk, n - nk), last)
  {
    hide AddW, SubWord, RotWord, Rcon, KeyBytes;
  }

  /** The other words of a row: the word above added to the word before, substituted in the middle
      of a 256-bit row. */
  lemma RowNext(key: seq<bv8>, nk: nat, i: nat, j: nat)
    requires KeyLength(nk) && |key| >= 4 * nk && 0 < j < nk
    ensures KeyWord(key, nk, nk * i + nk + j) ==
            AddW(KeyWord(key, nk, nk * i + j),
                 if nk == 8 && j == 4 then KeySub(KeyWord(key, nk, nk * i + nk + j - 1))
                 else KeyWord(key, nk, nk * i + nk + j - 1))
  {
    hide AddW, SubWord, RotWord, KeySub, Rcon, KeyWord;
    var n := nk * i + nk + j;
    RowIndex(nk, i, j);
    KeyWordUnfolds(key, nk, n);
    KeyCoreIs(KeyWord(key, nk, n - 1));
  }

  lemma RowIndex(nk: nat, i: nat, j: nat)
    requires KeyLength(nk) && j < nk
    ensures (nk * i + nk + j) % nk == j && (nk * i + nk + j) / nk == i + 1
  {
    if nk == 4 {
      assert (4 * i + 4 + j) % 4 == j && (4 * i + 4 + j) / 4 == i + 1;
    } else if nk == 6 {
      assert (6 * i + 6 + j) % 6 == j && (6 * i + 6 + j) / 6 == i + 1;
    } else {
      assert (8 * i + 8 + j) % 8 == j && (8 * i + 8 + j) / 8 == i + 1;
    }
  }

  /* ---- the key object ---- */

  class AesKey {
    const rdKey: array<bv32>
    var rounds: nat

    constructor ()
      ensures fresh(rdKey) && rdKey.Length == 60
    {
      rdKey := new bv32[60];
      rounds := 0;
    }

    /** The first n words are those of the expanded key. */
    ghost predicate Expanded(key: seq<bv8>, nk: nat, n: nat)
      requires KeyLength(nk) && |key| >= 4 * nk && n <= rdKey.Length
      reads this, rdKey
    {
      forall j :: 0 <= j < n ==> rdKey[j] == KeyWord(key, nk, j)
    }

    /** AES_set_encrypt_key for a key that is not null. */
    method SetEncryptKey(userKey: seq<bv8>, bits: int) returns (status: int)
      requires rdKey.Length == 60
      requires bits == 128 || bits == 192 || bits == 256 ==> 8 * |userKey| >= bits
      modifies this, rdKey
      ensures bits != 128 && bits != 192 && bits != 256 ==>
              status == -2 && rounds == old(rounds) && rdKey[..] == old(rdKey[..])
      ensures bits == 128 || bits == 192 || bits == 256 ==>
        && status == 0 && rounds == bits / 32 + 6 && Rounds(rounds)
        && rdKey[..4 * rounds + 4] == KeySchedule(userKey, bits / 32, 4 * rounds + 4)
    {
      hide KeyWord, KeyBytes;
      if bits != 128 && bits != 192 && bits != 256 {
        return -2;
      }
      if bits == 128 {
        rounds := 10;
        CopyKey(userKey, 4);
        Expand128(userKey);
      } else if bits == 192 {
        rounds := 12;
        CopyKey(userKey, 6);
        Expand192(userKey);
      } else {
        rounds := 14;
        CopyKey(userKey, 8);
        Expand256(userKey);
      }
      assert rdKey[..4 * rounds + 4] == KeySchedule(userKey, bits / 32, 4 * rounds + 4);
      status := 0;
    }

    /** GETU32 of the words of the user key. */
    method CopyKey(key: seq<bv8>, nk: nat)
      requires rdKey.Length == 60 && KeyLength(nk) && |key| >= 4 * nk
      modifies rdKey
      ensures Expanded(key, nk, nk)
      ensures forall i :: 0 <= i < nk ==>
              && B0(rdKey[i]) == key[4 * i] && B1(rdKey[i]) == key[4 * i + 1]
              && B2(rdKey[i]) == key[4 * i + 2] && B3(rdKey[i]) == key[4 * i + 3]
      ensures forall i :: nk <= i < rdKey.Length ==> rdKey[i] == old(rdKey[i])
    {
      hide Pack, B0, B1, B2, B3;
      for i := 0 to nk
        invariant Expanded(key, nk, i)
        invariant forall j :: 0 <= j < i ==>
                  && B0(rdKey[j]) == key[4 * j] && B1(rdKey[j]) == key[4 * j + 1]
                  && B2(rdKey[j]) == key[4 * j + 2] && B3(rdKey[j]) == key[4 * j + 3]
        invariant forall j :: nk <= j < rdKey.Length ==> rdKey[j] == old(rdKey[j])
      {
        rdKey[i] := KeyBytes(key, i);
        PackBytes(key[4 * i], key[4 * i + 1], key[4 * i + 2], key[4 * i + 3]);
      }
    }

    /** Row i of the schedule: its first word. */
    method PutRowStart(key: seq<bv8>, nk: nat, i: nat)
      requires rdKey.Length == 60 && KeyLength(nk) && |key| >= 4 * nk && i < 10 && nk * i + nk < 60
      requires Expanded(key, nk, nk * i + nk)
      modifies rdKey
      ensures Expanded(key, nk, nk * i + nk + 1)
    {
      hide KeyWord, KeyCore, AddW, RconAt;
      RowStart(key, nk, i);
      rdKey[nk * i + nk] := AddW(AddW(rdKey[nk * i], KeyCore(rdKey[nk * i + nk - 1])), RconAt(i));
    }

    /** A later word of a row. */
    method PutRowNext(key: seq<bv8>, nk: nat, i: nat, j: nat)
      requires rdKey.Length == 60 && KeyLength(nk) && |key| >= 4 * nk && 0 < j < nk && nk * i + nk + j < 60
      requires Expanded(key, nk, nk * i + nk + j)
      modifies rdKey
      ensures Expanded(key, nk, nk * i + nk + j + 1)
    {
      hide KeyWord, KeySub, AddW;
      RowNext(key, nk, i, j);
      var temp := rdKey[nk * i + nk + j - 1];
      if nk == 8 && j == 4 {
        temp := KeySub(temp);
      }
      rdKey[nk * i + nk + j] := AddW(rdKey[nk * i + j], temp);
    }

    method Expand128(key: seq<bv8>)
      requires rdKey.Length == 60 && |key| >= 16 && Expanded(key, 4, 4)
      modifies rdKey
      ensures Expanded(key, 4, 44)
    {
      hide KeyWord;
      var i := 0;
      while true
        invariant 0 <= i < 10 && Expanded(key, 4, 4 * i + 4)
        decreases 10 - i
      {
        PutRowStart(key, 4, i);
        PutRowNext(key, 4, i, 1);
        PutRowNext(key, 4, i, 2);
        PutRowNext(key, 4, i, 3);
        i := i + 1;
        if i == 10 {
          return;
        }
      }
    }

    method Expand192(key: seq<bv8>)
      requires rdKey.Length == 60 && |key| >= 24 && Expanded(key, 6, 6)
      modifies rdKey
      ensures Expanded(key, 6, 52)
    {
      hide KeyWord;
      var i := 0;
      while true
        invariant 0 <= i < 8 && Expanded(key, 6, 6 * i + 6)
        decreases 8 - i
      {
        PutRowStart(key, 6, i);
        PutRowNext(key, 6, i, 1);
        PutRowNext(key, 6, i, 2);
        PutRowNext(key, 6, i, 3);
        i := i + 1;
        if i == 8 {
          return;
        }
        PutRowNext(key, 6, i - 1, 4);
        PutRowNext(key, 6, i - 1, 5);
      }
    }

    method Expand256(key: seq<bv8>)
      requires rdKey.Length == 60 && |key| >= 32 && Expanded(key, 8, 8)
      modifies rdKey
      ensures Expanded(key, 8, 60)
    {
      hide KeyWord;
      var i := 0;
      while true
        invariant 0 <= i < 7 && Expanded(key, 8, 8 * i + 8)
        decreases 7 - i
      {
        PutRowStart(key, 8, i);
        PutRowNext(key, 8, i, 1);
        PutRowNext(key, 8, i, 2);
        PutRowNext(key, 8, i, 3);
        i := i + 1;
        if i == 7 {
          return;
        }
        PutRowNext(key, 8, i - 1, 4);
        PutRowNext(key, 8, i - 1, 5);
        PutRowNext(key, 8, i - 1, 6);
        PutRowNext(key, 8, i - 1, 7);
      }
    }

    /* ---- the decryption schedule ---- */

    /** AES_set_decrypt_key: the encryption schedule reversed by rounds, with the inverse MixColumns
        applied to all round keys but the first and the last. */
    method SetDecryptKey(userKey: seq<bv8>, bits: int) returns (status: int)
      requires rdKey.Length == 60
      requires bits == 128 || bits == 192 || bits == 256 ==> 8 * |userKey| >= bits
      modifies this, rdKey
      ensures bits != 128 && bits != 192 && bits != 256 ==> status == -2
      ensures bits == 128 || bits == 192 || bits == 256 ==>
        && status == 0 && rounds == bits / 32 + 6 && Rounds(rounds)
        && DecryptSchedule(rdKey[..], KeySchedule(userKey, bits / 32, 4 * rounds + 4), rounds)
    {
      hide KeyWord, DecryptSchedule;
      status := SetEncryptKey(userKey, bits);
      if status < 0 {
        return;
      }
      ghost var w := rdKey[..];
      ReverseRounds();
      ghost var v := rdKey[..];
      MixInnerRounds();
      ScheduleMade(rdKey[..], v, w, KeySchedule(userKey, bits / 32, 4 * rounds + 4), rounds);
    }

    /** The outer a round keys on each side of v are those of w exchanged, the others are in place. */
    static ghost predicate ReversedOutside(w: seq<bv32>, v: seq<bv32>, nr: nat, a: nat)
      requires |w| == |v| && 4 * nr + 4 <= |w|
    {
      forall r :: 0 <= r <= nr ==> RoundKey(v, r) == RoundKey(w, if r < a || r > nr - a then nr - r else r)
    }

    static ghost predicate Swapped(v: seq<bv32>, u: seq<bv32>, nr: nat, a: nat, b: nat)
      requires |u| == |v| && 4 * nr + 4 <= |u| && a <= nr && b <= nr
    {
      forall r :: 0 <= r <= nr ==> RoundKey(u, r) == RoundKey(v, if r == a then b else if r == b then a else r)
    }

    static lemma ReverseStep(w: seq<bv32>, v: seq<bv32>, u: seq<bv32>, nr: nat, a: nat)
      requires |w| == |v| == |u| && 4 * nr + 4 <= |w| && 2 * a < nr
      requires ReversedOutside(w, v, nr, a) && Swapped(v, u, nr, a, nr - a)
      ensures ReversedOutside(w, u, nr, a + 1)
    {
      hide RoundKey;
      forall r | 0 <= r <= nr
        ensures RoundKey(u, r) == RoundKey(w, if r < a + 1 || r > nr - (a + 1) then nr - r else r)
      {
        var q := if r == a then nr - a else if r == nr - a then a else r;
        assert RoundKey(u, r) == RoundKey(v, q);
        assert RoundKey(v, q) == RoundKey(w, if q < a || q > nr - a then nr - q else q);
      }
    }

    /** The first loop of AES_set_decrypt_key: the round keys change ends. */
    method ReverseRounds()
      requires rdKey.Length == 60 && Rounds(rounds)
      modifies rdKey
      ensures forall r :: 0 <= r <= rounds ==> RoundKey(rdKey[..], r) == RoundKey(old(rdKey[..]), rounds - r)
    {
      hide RoundKey, ReversedOutside, Swapped;
      ghost var w := rdKey[..];
      var i, j := 0, 4 * rounds;
      ghost var a := 0;
      ReverseStart(w, rounds);
      while i < j
        invariant 0 <= i == 4 * a && j == 4 * (rounds - a) && 2 * a <= rounds + 1
        invariant ReversedOutside(w, rdKey[..], rounds, a)
        decreases j - i
      {
        ghost var v := rdKey[..];
        SwapRounds(i, j, a, rounds - a, rounds);
        ReverseStep(w, v, rdKey[..], rounds, a);
        i := i + 4;
        j := j - 4;
        a := a + 1;
      }
      ReverseEnd(w, rdKey[..], rounds, a);
    }

    static lemma ReverseStart(w: seq<bv32>, nr: nat)
      requires 4 * nr + 4 <= |w|
      ensures ReversedOutside(w, w, nr, 0)
    {
    }

    static lemma ReverseEnd(w: seq<bv32>, v: seq<bv32>, nr: nat, a: nat)
      requires |w| == |v| && 4 * nr + 4 <= |w| && nr <= 2 * a
      requires ReversedOutside(w, v, nr, a)
      ensures forall r :: 0 <= r <= nr ==> RoundKey(v, r) == RoundKey(w, nr - r)
    {
    }

    /** The four swaps of one turn. */
    method SwapRounds(i: nat, j: nat, ghost a: nat, ghost b: nat, ghost nr: nat)
      requires rdKey.Length == 60 && i == 4 * a && j == 4 * b && a < b <= nr && 4 * nr + 4 <= 60
      modifies rdKey
      ensures Swapped(old(rdKey[..]), rdKey[..], nr, a, b)
    {
      hide Swapped, SwapAt;
      SwapWords(i, j);
      SwapWords(i + 1, j + 1);
      SwapWords(i + 2, j + 2);
      SwapWords(i + 3, j + 3);
      FourSwaps(old(rdKey[..]), nr, a, b);
    }

    static function SwapAt<T>(v: seq<T>, i: nat, j: nat): (u: seq<T>)
      requires i < |v| && j < |v|
      ensures |u| == |v|
    {
      v[i := v[j]][j := v[i]]
    }

    static function SwapFour<T>(v: seq<T>, i: nat, j: nat): (u: seq<T>)
      requires i + 4 <= |v| && j + 4 <= |v|
      ensures |u| == |v|
    {
      SwapAt(SwapAt(SwapAt(SwapAt(v, i, j), i + 1, j + 1), i + 2, j + 2), i + 3, j + 3)
    }

    static lemma SwapFourAt<T>(v: seq<T>, i: nat, j: nat, k: nat)
      requires i + 4 <= j && j + 4 <= |v| && k < |v|
      ensures SwapFour(v, i, j)[k] == v[if i <= k < i + 4 then k - i + j else if j <= k < j + 4 then k - j + i else k]
    {
    }

    method SwapWords(i: nat, j: nat)
      requires i < rdKey.Length && j < rdKey.Length
      modifies rdKey
      ensures rdKey[..] == SwapAt(old(rdKey[..]), i, j)
    {
      var temp := rdKey[i];
      rdKey[i] := rdKey[j];
      rdKey[j] := temp;
    }

    static lemma FourSwaps(v: seq<bv32>, nr: nat, a: nat, b: nat)
      requires |v| == 60 && a < b <= nr && 4 * nr + 4 <= 60
      ensures Swapped(v, SwapFour(v, 4 * a, 4 * b), nr, a, b)
    {
      hide SwapFour;
      forall r | 0 <= r <= nr
        ensures RoundKey(SwapFour(v, 4 * a, 4 * b), r) == RoundKey(v, if r == a then b else if r == b then a else r)
      {
        SwapFourAt(v, 4 * a, 4 * b, 4 * r);
        SwapFourAt(v, 4 * a, 4 * b, 4 * r + 1);
        SwapFourAt(v, 4 * a, 4 * b, 4 * r + 2);
        SwapFourAt(v, 4 * a, 4 * b, 4 * r + 3);
      }
    }

    /** The second loop of AES_set_decrypt_key: every inner round key goes through InvMixColumns. */
    method MixInnerRounds()
      requires rdKey.Length == 60 && Rounds(rounds)
      modifies rdKey
      ensures forall r :: 0 <= r <= rounds ==>
        RoundKey(rdKey[..], r) == if 0 < r < rounds then InvMixColumns(RoundKey(old(rdKey[..]), r))
                                  else RoundKey(old(rdKey[..]), r)
    {
      hide RoundKey, InvMixColumns;
      ghost var w := rdKey[..];
      for i := 1 to rounds
        invariant forall r :: 0 <= r <= rounds ==>
          RoundKey(rdKey[..], r) == if 0 < r < i then InvMixColumns(RoundKey(w, r)) else RoundKey(w, r)
      {
        MixRound(i);
      }
    }

    method MixRound(i: nat)
      requires rdKey.Length == 60 && 4 * i + 4 <= 60
      modifies rdKey
      ensures forall r :: 0 <= r && 4 * r + 4 <= 60 ==>
        RoundKey(rdKey[..], r) == if r == i then InvMixColumns(RoundKey(old(rdKey[..]), r))
                                  else RoundKey(old(rdKey[..]), r)
    {
      hide InvMixColumn, InvMixByTables;
      for n := 0 to 4
        invariant forall k :: 0 <= k < 60 ==>
          rdKey[k] == if 4 * i <= k < 4 * i + n then InvMixColumn(old(rdKey[k])) else old(rdKey[k])
      {
        InvMixByTablesIs(rdKey[4 * i + n]);
        rdKey[4 * i + n] := InvMixByTables(rdKey[4 * i + n]);
      }
    }

    static lemma ScheduleMade(dk: seq<bv32>, v: seq<bv32>, w: seq<bv32>, ks: seq<bv32>, nr: nat)
      requires |dk| == |v| == |w| == 60 && Rounds(nr) && |ks| == 4 * nr + 4 && w[..4 * nr + 4] == ks
      requires forall r :: 0 <= r <= nr ==> RoundKey(v, r) == RoundKey(w, nr - r)
      requires forall r :: 0 <= r <= nr ==>
               RoundKey(dk, r) == if 0 < r < nr then InvMixColumns(RoundKey(v, r)) else RoundKey(v, r)
      ensures DecryptSchedule(dk, ks, nr)
    {
      hide InvMixColumns;
      forall r | 0 <= r <= nr ensures RoundKey(dk, r) == EqKey(ks, nr, nr - r) {
        assert RoundKey(w, nr - r) == RoundKey(ks, nr - r) by {
          forall i | 0 <= i < |ks| ensures w[i] == ks[i] {
            assert w[i] == w[..4 * nr + 4][i];
          }
        }
      }
    }
  }

  /* ---- encryption and decryption of a block ---- */

  function EncryptBlock(w: seq<bv32>, nr: nat, b: Block): Block
    requires Rounds(nr) && 4 * nr + 4 <= |w|
  {
    Store(Cipher(Load(b), w, nr))
  }

  function DecryptBlock(w: seq<bv32>, nr: nat, b: Block): Block
    requires Rounds(nr) && 4 * nr + 4 <= |w|
  {
    Store(EqInvCipher(Load(b), w, nr))
  }

  /** For every key schedule and every block, decryption undoes encryption. */
  lemma DecryptUndoesEncrypt(w: seq<bv32>, nr: nat, b: Block)
    requires Rounds(nr) && 4 * nr + 4 <= |w|
    ensures DecryptBlock(w, nr, EncryptBlock(w, nr, b)) == b
  {
    hide Load, Store, Cipher, EqInvCipher, InvCipher;
    LoadOfStore(Cipher(Load(b), w, nr));
    EquivalentInverse(Cipher(Load(b), w, nr), w, nr);
    InvCipherOfCipher(Load(b), w, nr);
    StoreOfLoad(b);
  }

  /** The code end to end: for every 128-, 192- or 256-bit key and every block, AES_decrypt under the
      decryption schedule gives back what AES_encrypt was given. */
  method RoundTrip(userKey: seq<bv8>, bits: int, inp: Block) returns (ct: Block, pt: Block)
    requires bits == 128 || bits == 192 || bits == 256
    requires 8 * |userKey| >= bits
    ensures var nr := bits / 32 + 6; ct == EncryptBlock(KeySchedule(userKey, bits / 32, 4 * nr + 4), nr, inp)
    ensures pt == inp
  {
    hide KeyWord, Load, Store, Cipher, EqInvCipher, DecryptSchedule;
    var ek := new AesKey();
    var dk := new AesKey();
    var s1 := ek.SetEncryptKey(userKey, bits);
    var s2 := dk.SetDecryptKey(userKey, bits);
    ghost var nr := bits / 32 + 6;
    ghost var w := KeySchedule(userKey, bits / 32, 4 * nr + 4);
    ct := Encrypt(inp, ek.rdKey[..4 * ek.rounds + 4], ek.rounds);
    pt := Decrypt(ct, dk.rdKey[..], dk.rounds, w);
    DecryptUndoesEncrypt(w, nr, inp);
  }
}
