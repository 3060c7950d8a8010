/** The literal tables against their equations (aes.c:46-58) and section 5.1.1 of FIPS 197. The
    proofs go through a table in blocks of 16 entries. */
module AesTableLaws {
  import opened AesTables
  import opened AesField

  /** s times the first column of the MixColumns matrix, and of the InvMixColumns matrix. */
  function TeColumn(s: bv8): bv32 { Pack(Xtime(s), s, s, Mul3(s)) }
  function TdColumn(s: bv8): bv32 { Pack(MulE(s), Mul9(s), MulD(s), MulB(s)) }

  /** The next column: every byte one place down. */
  function Down(w: bv32): bv32 { (w >> 8) | (w << 24) }

  lemma DownPack(a: bv8, b: bv8, c: bv8, d: bv8)
    ensures Down(Pack(a, b, c, d)) == Pack(d, a, b, c)
  {
  }

  lemma Te0Block0(x: bv8)
    requires x < 0x80
    ensures Te0(x) == TeColumn(S(x))
  {
    if x < 0x10 {
      assert Te0(x) == TeColumn(S(x));
    } else if x < 0x20 {
      assert Te0(x) == TeColumn(S(x));
    } else if x < 0x30 {
      assert Te0(x) == TeColumn(S(x));
    } else if x < 0x40 {
      assert Te0(x) == TeColumn(S(x));
    } else if x < 0x50 {
      assert Te0(x) == TeColumn(S(x));
    } else if x < 0x60 {
      assert Te0(x) == TeColumn(S(x));
    } else if x < 0x70 {
      assert Te0(x) == TeColumn(S(x));
    } else {
      assert Te0(x) == TeColumn(S(x));
    }
  }

  lemma Te0Block1(x: bv8)
    requires 0x80 <= x
    ensures Te0(x) == TeColumn(S(x))
  {
    if x < 0x90 {
      assert Te0(x) == TeColumn(S(x));
    } else if x < 0xa0 {
      assert Te0(x) == TeColumn(S(x));
    } else if x < 0xb0 {
      assert Te0(x) == TeColumn(S(x));
    } else if x < 0xc0 {
      assert Te0(x) == TeColumn(S(x));
    } else if x < 0xd0 {
      assert Te0(x) == TeColumn(S(x));
    } else if x < 0xe0 {
      assert Te0(x) == TeColumn(S(x));
    } else if x < 0xf0 {
      assert Te0(x) == TeColumn(S(x));
    } else {
      assert Te0(x) == TeColumn(S(x));
    }
  }

  lemma Te0Entries(x: bv8)
    ensures Te0(x) == TeColumn(S(x))
  {
    hide Te0, TeColumn, S;
    if x < 0x80 {
      Te0Block0(x);
    } else {
      Te0Block1(x);
    }
  }

  lemma Td0Block0(x: bv8)
    requires x < 0x40
    ensures Td0(x) == TdColumn(Si(x))
  {
    if x < 0x10 {
      assert Td0(x) == TdColumn(Si(x));
    } else if x < 0x20 {
      assert Td0(x) == TdColumn(Si(x));
    } else if x < 0x30 {
      assert Td0(x) == TdColumn(Si(x));
    } else {
      assert Td0(x) == TdColumn(Si(x));
    }
  }

  lemma Td0Block1(x: bv8)
    requires 0x40 <= x < 0x80
    ensures Td0(x) == TdColumn(Si(x))
  {
    if x < 0x50 {
      assert Td0(x) == TdColumn(Si(x));
    } else if x < 0x60 {
      assert Td0(x) == TdColumn(Si(x));
    } else if x < 0x70 {
      assert Td0(x) == TdColumn(Si(x));
    } else {
      assert Td0(x) == TdColumn(Si(x));
    }
  }

  lemma Td0Block2(x: bv8)
    requires 0x80 <= x < 0xc0
    ensures Td0(x) == TdColumn(Si(x))
  {
    if x < 0x90 {
      assert Td0(x) == TdColumn(Si(x));
    } else if x < 0xa0 {
      assert Td0(x) == TdColumn(Si(x));
    } else if x < 0xb0 {
      assert Td0(x) == TdColumn(Si(x));
    } else {
      assert Td0(x) == TdColumn(Si(x));
    }
  }

  lemma Td0Block3(x: bv8)
    requires 0xc0 <= x
    ensures Td0(x) == TdColumn(Si(x))
  {
    if x < 0xd0 {
      assert Td0(x) == TdColumn(Si(x));
    } else if x < 0xe0 {
      assert Td0(x) == TdColumn(Si(x));
    } else if x < 0xf0 {
      assert Td0(x) == TdColumn(Si(x));
    } else {
      assert Td0(x) == TdColumn(Si(x));
    }
  }

  lemma Td0Entries(x: bv8)
    ensures Td0(x) == TdColumn(Si(x))
  {
    hide Td0, TdColumn, Si;
    if x < 0x40 {
      Td0Block0(x);
    } else if x < 0x80 {
      Td0Block1(x);
    } else if x < 0xc0 {
      Td0Block2(x);
    } else {
      Td0Block3(x);
    }
  }

  lemma Te1Entries(x: bv8)
    ensures Te1(x) == Down(Te0(x))
  {
  }

  lemma Te2Entries(x: bv8)
    ensures Te2(x) == Down(Te1(x))
  {
  }

  lemma Te3Entries(x: bv8)
    ensures Te3(x) == Down(Te2(x))
  {
  }

  lemma Td1Entries(x: bv8)
    ensures Td1(x) == Down(Td0(x))
  {
  }

  lemma Td2Entries(x: bv8)
    ensures Td2(x) == Down(Td1(x))
  {
  }

  lemma Td3Entries(x: bv8)
    ensures Td3(x) == Down(Td2(x))
  {
  }

  /** Te0..Te3 hold S[x] times the four columns of the MixColumns matrix. */
  lemma TeEquations(x: bv8)
    ensures var s := S(x); Te0(x) == Pack(Xtime(s), s, s, Mul3(s))
    ensures var s := S(x); Te1(x) == Pack(Mul3(s), Xtime(s), s, s)
    ensures var s := S(x); Te2(x) == Pack(s, Mul3(s), Xtime(s), s)
    ensures var s := S(x); Te3(x) == Pack(s, s, Mul3(s), Xtime(s))
  {
    hide Te0, Te1, Te2, Te3, S, Pack, Down, Xtime, Mul3;
    var s := S(x);
    Te0Entries(x);
    Te1Entries(x);
    Te2Entries(x);
    Te3Entries(x);
    DownPack(Xtime(s), s, s, Mul3(s));
    DownPack(Mul3(s), Xtime(s), s, s);
    DownPack(s, Mul3(s), Xtime(s), s);
  }

  /** Td0..Td3 hold Si[x] times the four columns of the InvMixColumns matrix. */
  lemma TdEquations(x: bv8)
    ensures var s := Si(x); Td0(x) == Pack(MulE(s), Mul9(s), MulD(s), MulB(s))
    ensures var s := Si(x); Td1(x) == Pack(MulB(s), MulE(s), Mul9(s), MulD(s))
    ensures var s := Si(x); Td2(x) == Pack(MulD(s), MulB(s), MulE(s), Mul9(s))
    ensures var s := Si(x); Td3(x) == Pack(Mul9(s), MulD(s), MulB(s), MulE(s))
  {
    hide Td0, Td1, Td2, Td3, Si, Pack, Down, Mul9, MulB, MulD, MulE;
    var s := Si(x);
    Td0Entries(x);
    Td1Entries(x);
    Td2Entries(x);
    Td3Entries(x);
    DownPack(MulE(s), Mul9(s), MulD(s), MulB(s));
    DownPack(MulB(s), MulE(s), Mul9(s), MulD(s));
    DownPack(MulD(s), MulB(s), MulE(s), Mul9(s));
  }

  /** The product of two bytes: the shifted copies of a selected by the bits of b (section 4.2). */
  function Mul(a: bv8, b: bv8): bv8 {
    var a1 := Xtime(a);
    var a2 := Xtime(a1);
    var a3 := Xtime(a2);
    var a4 := Xtime(a3);
    var a5 := Xtime(a4);
    var a6 := Xtime(a5);
    var a7 := Xtime(a6);
    (if b & 0x01 != 0 then a else 0) ^ (if b & 0x02 != 0 then a1 else 0) ^
    (if b & 0x04 != 0 then a2 else 0) ^ (if b & 0x08 != 0 then a3 else 0) ^
    (if b & 0x10 != 0 then a4 else 0) ^ (if b & 0x20 != 0 then a5 else 0) ^
    (if b & 0x40 != 0 then a6 else 0) ^ (if b & 0x80 != 0 then a7 else 0)
  }

  /** The affine transformation of section 5.1.1: bit i is b_i + b_(i+4) + b_(i+5) + b_(i+6) + b_(i+7) + c_i. */
  function Affine(b: bv8): bv8 {
    b ^ b.RotateLeft(1) ^ b.RotateLeft(2) ^ b.RotateLeft(3) ^ b.RotateLeft(4) ^ 0x63
  }

  function InvAffine(y: bv8): bv8 {
    y.RotateLeft(1) ^ y.RotateLeft(3) ^ y.RotateLeft(6) ^ 0x05
  }

  /** y is the substitution value of x: the affine transform of its multiplicative inverse, with 0 its own inverse. */
  predicate IsSubstitute(x: bv8, y: bv8) {
    Affine(InvAffine(y)) == y && (if x == 0 then InvAffine(y) == 0 else Mul(x, InvAffine(y)) == 1)
  }

  lemma SBoxLow(x: bv8)
    requires x < 0x80
    ensures IsSubstitute(x, S(x))
  {
    if x < 0x20 {
      assert IsSubstitute(x, S(x));
    } else if x < 0x40 {
      assert IsSubstitute(x, S(x));
    } else if x < 0x60 {
      assert IsSubstitute(x, S(x));
    } else {
      assert IsSubstitute(x, S(x));
    }
  }

  lemma SBoxHigh(x: bv8)
    requires x >= 0x80
    ensures IsSubstitute(x, S(x))
  {
    if x < 0xa0 {
      assert IsSubstitute(x, S(x));
    } else if x < 0xc0 {
      assert IsSubstitute(x, S(x));
    } else if x < 0xe0 {
      assert IsSubstitute(x, S(x));
    } else {
      assert IsSubstitute(x, S(x));
    }
  }

  /** Te4 holds the S-box of section 5.1.1. */
  lemma SBoxIsSubstitution(x: bv8)
    ensures IsSubstitute(x, S(x))
  {
    hide IsSubstitute, S;
    if x < 0x80 {
      SBoxLow(x);
    } else {
      SBoxHigh(x);
    }
  }
}
