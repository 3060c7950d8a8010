/** FIPS 197: the field GF(2^8), words, and the round transformations on a state of four columns.
    Byte r of a column is its r-th most significant byte. */
module AesField {
  import opened AesTables

  /* ---- bytes, sections 4.1 and 4.2 ---- */

  function Add(a: bv8, b: bv8): bv8 { a ^ b }
  function Add4(a: bv8, b: bv8, c: bv8, d: bv8): bv8 { Add(Add(a, b), Add(c, d)) }

  function Double(x: bv8): bv8 { x << 1 }

  /** What a carry out of the top bit adds back: the field polynomial less its x^8. */
  function Reduction(x: bv8): bv8 { if x & 0x80 != 0 then 0x1b else 0 }

  function Xtime(x: bv8): bv8 { Double(x) ^ Reduction(x) }

  function Mul3(x: bv8): bv8 { Xtime(x) ^ x }
  function Mul9(x: bv8): bv8 { Xtime(Xtime(Xtime(x))) ^ x }
  function MulB(x: bv8): bv8 { Mul9(x) ^ Xtime(x) }
  function MulD(x: bv8): bv8 { Mul9(x) ^ Xtime(Xtime(x)) }
  function MulC(x: bv8): bv8 { Xtime(Xtime(Xtime(x))) ^ Xtime(Xtime(x)) }
  function MulE(x: bv8): bv8 { MulC(x) ^ Xtime(x) }

  lemma Mul9Sum(x: bv8)
    ensures Mul9(x) == Add(Xtime(Xtime(Xtime(x))), x)
  {
  }

  lemma MulCSum(x: bv8)
    ensures MulC(x) == Add(Xtime(Xtime(Xtime(x))), Xtime(Xtime(x)))
  {
  }

  lemma MulBSum(x: bv8)
    ensures MulB(x) == Add(Mul9(x), Xtime(x))
  {
  }

  lemma MulDSum(x: bv8)
    ensures MulD(x) == Add(Mul9(x), Xtime(Xtime(x)))
  {
  }

  lemma MulESum(x: bv8)
    ensures MulE(x) == Add(MulC(x), Xtime(x))
  {
  }

  lemma MulSums(x: bv8)
    ensures Mul9(x) == Add(Xtime(Xtime(Xtime(x))), x) && MulC(x) == Add(Xtime(Xtime(Xtime(x))), Xtime(Xtime(x)))
    ensures MulB(x) == Add(Mul9(x), Xtime(x)) && MulD(x) == Add(Mul9(x), Xtime(Xtime(x)))
    ensures MulE(x) == Add(MulC(x), Xtime(x))
  {
    hide *;
    Mul9Sum(x);
    MulCSum(x);
    MulBSum(x);
    MulDSum(x);
    MulESum(x);
  }

  lemma AddComm(a: bv8, b: bv8)
    ensures Add(a, b) == Add(b, a)
  {
  }

  lemma AddAssoc(a: bv8, b: bv8, c: bv8)
    ensures Add(Add(a, b), c) == Add(a, Add(b, c))
  {
  }

  lemma AddSwap(a: bv8, b: bv8, c: bv8, d: bv8)
    ensures Add(Add(a, b), Add(c, d)) == Add(Add(a, c), Add(b, d))
  {
    hide Add;
    AddAssoc(a, b, Add(c, d));
    AddAssoc(b, c, d);
    AddComm(b, c);
    AddAssoc(c, b, d);
    AddAssoc(a, c, Add(b, d));
  }

  lemma Add4Rotate(a: bv8, b: bv8, c: bv8, d: bv8)
    ensures Add4(a, b, c, d) == Add4(d, a, b, c) == Add4(c, d, a, b) == Add4(b, c, d, a)
  {
    hide Add;
    AddComm(Add(a, b), Add(c, d));
    AddComm(Add(d, a), Add(b, c));
    AddComm(d, a);
    AddComm(c, d);
    AddSwap(a, d, b, c);
  }

  lemma AddPairs(a: bv8, b: bv8, c: bv8, d: bv8, e: bv8, f: bv8, g: bv8, h: bv8)
    ensures Add4(Add(a, e), Add(b, f), Add(c, g), Add(d, h)) == Add(Add4(a, b, c, d), Add4(e, f, g, h))
  {
    hide Add;
    AddSwap(a, e, b, f);
    AddSwap(c, g, d, h);
    AddSwap(Add(a, b), Add(e, f), Add(c, d), Add(g, h));
  }

  lemma AddZero(a: bv8)
    ensures Add4(a, 0, 0, 0) == a
  {
  }

  lemma XtimeLinear(x: bv8, y: bv8)
    ensures Xtime(Add(x, y)) == Add(Xtime(x), Xtime(y))
  {
    hide Add, Double, Reduction, Xtime;
    XtimeSum(x);
    XtimeSum(y);
    XtimeSum(Add(x, y));
    DoubleLinear(x, y);
    ReductionLinear(x, y);
    AddSwap(Double(x), Double(y), Reduction(x), Reduction(y));
  }

  lemma XtimeSum(x: bv8)
    ensures Xtime(x) == Add(Double(x), Reduction(x))
  {
  }

  lemma DoubleLinear(x: bv8, y: bv8)
    ensures Double(Add(x, y)) == Add(Double(x), Double(y))
  {
  }

  lemma ReductionLinear(x: bv8, y: bv8)
    ensures Reduction(Add(x, y)) == Add(Reduction(x), Reduction(y))
  {
  }

  /** Multiplication by a constant distributes over addition. */
  lemma MulLinear(x: bv8, y: bv8)
    ensures Mul9(Add(x, y)) == Add(Mul9(x), Mul9(y)) && MulB(Add(x, y)) == Add(MulB(x), MulB(y))
    ensures MulD(Add(x, y)) == Add(MulD(x), MulD(y)) && MulE(Add(x, y)) == Add(MulE(x), MulE(y))
  {
    hide Add, Xtime, Mul9, MulB, MulC, MulD, MulE;
    MulSums(x);
    MulSums(y);
    MulSums(Add(x, y));
    var x1, y1 := Xtime(x), Xtime(y);
    var x2, y2 := Xtime(x1), Xtime(y1);
    var x3, y3 := Xtime(x2), Xtime(y2);
    XtimeLinear(x, y);
    XtimeLinear(x1, y1);
    XtimeLinear(x2, y2);
    AddSwap(x3, y3, x, y);
    AddSwap(Mul9(x), Mul9(y), x1, y1);
    AddSwap(Mul9(x), Mul9(y), x2, y2);
    AddSwap(x3, y3, x2, y2);
    AddSwap(MulC(x), MulC(y), x1, y1);
  }

  lemma MulLinear4(a: bv8, b: bv8, c: bv8, d: bv8)
    ensures Mul9(Add4(a, b, c, d)) == Add4(Mul9(a), Mul9(b), Mul9(c), Mul9(d))
    ensures MulB(Add4(a, b, c, d)) == Add4(MulB(a), MulB(b), MulB(c), MulB(d))
    ensures MulD(Add4(a, b, c, d)) == Add4(MulD(a), MulD(b), MulD(c), MulD(d))
    ensures MulE(Add4(a, b, c, d)) == Add4(MulE(a), MulE(b), MulE(c), MulE(d))
  {
    hide Add, Mul9, MulB, MulD, MulE;
    MulLinear(a, b);
    MulLinear(c, d);
    MulLinear(Add(a, b), Add(c, d));
  }

  /** The rows of the two coefficient matrices multiply to 1 and 0. */
  lemma Coefficients(x: bv8)
    ensures Add4(MulE(Xtime(x)), MulB(x), MulD(x), Mul9(Mul3(x))) == x
    ensures Add4(MulE(Mul3(x)), MulB(Xtime(x)), MulD(x), Mul9(x)) == 0
    ensures Add4(MulE(x), MulB(Mul3(x)), MulD(Xtime(x)), Mul9(x)) == 0
    ensures Add4(MulE(x), MulB(x), MulD(Mul3(x)), Mul9(Xtime(x))) == 0
  {
    hide Add, Add4, Xtime, Mul3, Mul9, MulB, MulD, MulE;
    CoefficientSums(x);
    Add4IsXor(MulE(Xtime(x)), MulB(x), MulD(x), Mul9(Mul3(x)));
    Add4IsXor(MulE(Mul3(x)), MulB(Xtime(x)), MulD(x), Mul9(x));
    Add4IsXor(MulE(x), MulB(Mul3(x)), MulD(Xtime(x)), Mul9(x));
    Add4IsXor(MulE(x), MulB(x), MulD(Mul3(x)), Mul9(Xtime(x)));
  }

  lemma Add4IsXor(a: bv8, b: bv8, c: bv8, d: bv8)
    ensures Add4(a, b, c, d) == a ^ b ^ c ^ d
  {
  }

  lemma CoefficientSums(x: bv8)
    ensures MulE(Xtime(x)) ^ MulB(x) ^ MulD(x) ^ Mul9(Mul3(x)) == x
    ensures MulE(Mul3(x)) ^ MulB(Xtime(x)) ^ MulD(x) ^ Mul9(x) == 0
    ensures MulE(x) ^ MulB(Mul3(x)) ^ MulD(Xtime(x)) ^ Mul9(x) == 0
    ensures MulE(x) ^ MulB(x) ^ MulD(Mul3(x)) ^ Mul9(Xtime(x)) == 0
  {
  }

  lemma AddGrid(a0: bv8, a1: bv8, a2: bv8, a3: bv8, b0: bv8, b1: bv8, b2: bv8, b3: bv8,
                c0: bv8, c1: bv8, c2: bv8, c3: bv8, d0: bv8, d1: bv8, d2: bv8, d3: bv8)
    ensures Add4(Add4(a0, a1, a2, a3), Add4(b0, b1, b2, b3), Add4(c0, c1, c2, c3), Add4(d0, d1, d2, d3)) ==
            Add4(Add4(a0, b0, c0, d0), Add4(a1, b1, c1, d1), Add4(a2, b2, c2, d2), Add4(a3, b3, c3, d3))
  {
    hide Add;
    AddPairs(a0, a1, a2, a3, b0, b1, b2, b3);
    AddPairs(c0, c1, c2, c3, d0, d1, d2, d3);
    AddPairs(Add(a0, b0), Add(a1, b1), Add(a2, b2), Add(a3, b3), Add(c0, d0), Add(c1, d1), Add(c2, d2), Add(c3, d3));
  }

  /* ---- words ---- */

  function Pack(a: bv8, b: bv8, c: bv8, d: bv8): bv32 {
    ((a as bv32) << 24) ^ ((b as bv32) << 16) ^ ((c as bv32) << 8) ^ (d as bv32)
  }

  function B0(w: bv32): bv8 { ((w >> 24) & 0xff) as bv8 }
  function B1(w: bv32): bv8 { ((w >> 16) & 0xff) as bv8 }
  function B2(w: bv32): bv8 { ((w >> 8) & 0xff) as bv8 }
  function B3(w: bv32): bv8 { (w & 0xff) as bv8 }

  function AddW(v: bv32, w: bv32): bv32 { v ^ w }

  lemma Unpack(w: bv32)
    ensures Pack(B0(w), B1(w), B2(w), B3(w)) == w
  {
  }

  lemma PackBytes(a: bv8, b: bv8, c: bv8, d: bv8)
    ensures B0(Pack(a, b, c, d)) == a && B1(Pack(a, b, c, d)) == b && B2(Pack(a, b, c, d)) == c
    ensures B3(Pack(a, b, c, d)) == d
  {
  }

  lemma PackAdd(a: bv8, b: bv8, c: bv8, d: bv8, e: bv8, f: bv8, g: bv8, h: bv8)
    ensures Pack(Add(a, e), Add(b, f), Add(c, g), Add(d, h)) == AddW(Pack(a, b, c, d), Pack(e, f, g, h))
  {
  }

  lemma BytesAdd(v: bv32, w: bv32)
    ensures B0(AddW(v, w)) == Add(B0(v), B0(w)) && B1(AddW(v, w)) == Add(B1(v), B1(w))
    ensures B2(AddW(v, w)) == Add(B2(v), B2(w)) && B3(AddW(v, w)) == Add(B3(v), B3(w))
  {
    hide B0, B1, B2, B3;
    BytesXor(v, w);
  }

  lemma BytesXor(v: bv32, w: bv32)
    ensures B0(v ^ w) == B0(v) ^ B0(w) && B1(v ^ w) == B1(v) ^ B1(w) && B2(v ^ w) == B2(v) ^ B2(w)
    ensures B3(v ^ w) == B3(v) ^ B3(w)
  {
  }

  lemma AddWTwice(v: bv32, w: bv32)
    ensures AddW(AddW(v, w), w) == v
  {
  }

  function SubWord(w: bv32): bv32 { Pack(S(B0(w)), S(B1(w)), S(B2(w)), S(B3(w))) }
  function InvSubWord(w: bv32): bv32 { Pack(Si(B0(w)), Si(B1(w)), Si(B2(w)), Si(B3(w))) }
  function RotWord(w: bv32): bv32 { Pack(B1(w), B2(w), B3(w), B0(w)) }

  function MixBytes(a: bv8, b: bv8, c: bv8, d: bv8): bv32 {
    Pack(Add4(Xtime(a), Mul3(b), c, d), Add4(a, Xtime(b), Mul3(c), d), Add4(a, b, Xtime(c), Mul3(d)),
         Add4(Mul3(a), b, c, Xtime(d)))
  }

  function InvMixBytes(a: bv8, b: bv8, c: bv8, d: bv8): bv32 {
    Pack(Add4(MulE(a), MulB(b), MulD(c), Mul9(d)), Add4(Mul9(a), MulE(b), MulB(c), MulD(d)),
         Add4(MulD(a), Mul9(b), MulE(c), MulB(d)), Add4(MulB(a), MulD(b), Mul9(c), MulE(d)))
  }

  function MixColumn(w: bv32): bv32 { MixBytes(B0(w), B1(w), B2(w), B3(w)) }
  function InvMixColumn(w: bv32): bv32 { InvMixBytes(B0(w), B1(w), B2(w), B3(w)) }

  /** One row of the product of the two matrices. */
  lemma InvMixRow(p: bv8, q: bv8, r: bv8, s: bv8)
    ensures Add4(MulE(Add4(Xtime(p), Mul3(q), r, s)), MulB(Add4(p, Xtime(q), Mul3(r), s)),
                 MulD(Add4(p, q, Xtime(r), Mul3(s))), Mul9(Add4(Mul3(p), q, r, Xtime(s)))) == p
  {
    hide Add, Add4, Mul9, MulB, MulD, MulE, Xtime, Mul3;
    MulLinear4(Xtime(p), Mul3(q), r, s);
    MulLinear4(p, Xtime(q), Mul3(r), s);
    MulLinear4(p, q, Xtime(r), Mul3(s));
    MulLinear4(Mul3(p), q, r, Xtime(s));
    AddGrid(MulE(Xtime(p)), MulE(Mul3(q)), MulE(r), MulE(s), MulB(p), MulB(Xtime(q)), MulB(Mul3(r)), MulB(s),
            MulD(p), MulD(q), MulD(Xtime(r)), MulD(Mul3(s)), Mul9(Mul3(p)), Mul9(q), Mul9(r), Mul9(Xtime(s)));
    Coefficients(p);
    Coefficients(q);
    Coefficients(r);
    Coefficients(s);
    AddZero(p);
  }

  /** The same row with its terms in the order in which InvMixBytes has them. */
  lemma InvMixRowRotated(p: bv8, q: bv8, r: bv8, s: bv8)
    ensures var m0, m1 := Add4(Xtime(p), Mul3(q), r, s), Add4(p, Xtime(q), Mul3(r), s);
            var m2, m3 := Add4(p, q, Xtime(r), Mul3(s)), Add4(Mul3(p), q, r, Xtime(s));
            && m0 == Add4(s, Xtime(p), Mul3(q), r) == Add4(r, s, Xtime(p), Mul3(q)) == Add4(Mul3(q), r, s, Xtime(p))
            && m1 == Add4(s, p, Xtime(q), Mul3(r)) == Add4(Mul3(r), s, p, Xtime(q)) == Add4(Xtime(q), Mul3(r), s, p)
            && m2 == Add4(Mul3(s), p, q, Xtime(r)) == Add4(Xtime(r), Mul3(s), p, q) == Add4(q, Xtime(r), Mul3(s), p)
            && m3 == Add4(Xtime(s), Mul3(p), q, r) == Add4(r, Xtime(s), Mul3(p), q) == Add4(q, r, Xtime(s), Mul3(p))
            && p == Add4(MulE(m0), MulB(m1), MulD(m2), Mul9(m3)) == Add4(Mul9(m3), MulE(m0), MulB(m1), MulD(m2))
                 == Add4(MulD(m2), Mul9(m3), MulE(m0), MulB(m1)) == Add4(MulB(m1), MulD(m2), Mul9(m3), MulE(m0))
  {
    hide Add, Add4, Mul9, MulB, MulD, MulE, Xtime, Mul3;
    var m0, m1 := Add4(Xtime(p), Mul3(q), r, s), Add4(p, Xtime(q), Mul3(r), s);
    var m2, m3 := Add4(p, q, Xtime(r), Mul3(s)), Add4(Mul3(p), q, r, Xtime(s));
    InvMixRow(p, q, r, s);
    Add4Rotate(Xtime(p), Mul3(q), r, s);
    Add4Rotate(p, Xtime(q), Mul3(r), s);
    Add4Rotate(p, q, Xtime(r), Mul3(s));
    Add4Rotate(Mul3(p), q, r, Xtime(s));
    Add4Rotate(MulE(m0), MulB(m1), MulD(m2), Mul9(m3));
  }

  /** InvMixColumns undoes MixColumns, column by column. */
  lemma InvMixOfMix(w: bv32)
    ensures InvMixColumn(MixColumn(w)) == w
  {
    hide Add, Add4, Mul9, MulB, MulD, MulE, Xtime, Mul3, Pack, B0, B1, B2, B3;
    var a, b, c, d := B0(w), B1(w), B2(w), B3(w);
    PackBytes(Add4(Xtime(a), Mul3(b), c, d), Add4(a, Xtime(b), Mul3(c), d), Add4(a, b, Xtime(c), Mul3(d)),
              Add4(Mul3(a), b, c, Xtime(d)));
    InvMixRowRotated(a, b, c, d);
    InvMixRowRotated(b, c, d, a);
    InvMixRowRotated(c, d, a, b);
    InvMixRowRotated(d, a, b, c);
    Unpack(w);
  }

  /** InvMixColumns is linear, so it can be moved past AddRoundKey. */
  lemma InvMixLinear(v: bv32, w: bv32)
    ensures InvMixColumn(AddW(v, w)) == AddW(InvMixColumn(v), InvMixColumn(w))
  {
    hide Add, Add4, AddW, Mul9, MulB, MulD, MulE, Pack, B0, B1, B2, B3;
    BytesAdd(v, w);
    var a, b, c, d := B0(v), B1(v), B2(v), B3(v);
    var e, f, g, h := B0(w), B1(w), B2(w), B3(w);
    MulLinear(a, e);
    MulLinear(b, f);
    MulLinear(c, g);
    MulLinear(d, h);
    AddPairs(MulE(a), MulB(b), MulD(c), Mul9(d), MulE(e), MulB(f), MulD(g), Mul9(h));
    AddPairs(Mul9(a), MulE(b), MulB(c), MulD(d), Mul9(e), MulE(f), MulB(g), MulD(h));
    AddPairs(MulD(a), Mul9(b), MulE(c), MulB(d), MulD(e), Mul9(f), MulE(g), MulB(h));
    AddPairs(MulB(a), MulD(b), Mul9(c), MulE(d), MulB(e), MulD(f), Mul9(g), MulE(h));
    PackAdd(Add4(MulE(a), MulB(b), MulD(c), Mul9(d)), Add4(Mul9(a), MulE(b), MulB(c), MulD(d)),
            Add4(MulD(a), Mul9(b), MulE(c), MulB(d)), Add4(MulB(a), MulD(b), Mul9(c), MulE(d)),
            Add4(MulE(e), MulB(f), MulD(g), Mul9(h)), Add4(Mul9(e), MulE(f), MulB(g), MulD(h)),
            Add4(MulD(e), Mul9(f), MulE(g), MulB(h)), Add4(MulB(e), MulD(f), Mul9(g), MulE(h)));
  }

  lemma SiOfS(x: bv8)
    ensures Si(S(x)) == x
  {
  }

  lemma InvSubOfSub(w: bv32)
    ensures InvSubWord(SubWord(w)) == w
  {
    hide S, Si, Pack, B0, B1, B2, B3;
    PackBytes(S(B0(w)), S(B1(w)), S(B2(w)), S(B3(w)));
    SiOfS(B0(w));
    SiOfS(B1(w));
    SiOfS(B2(w));
    SiOfS(B3(w));
    Unpack(w);
  }
}
