/** Single words as rows of bits (bitops.h), for 64-bit `unsigned long`. */
module Bits {

  const BITS_PER_LONG := 64

  const ALL: bv64 := 0xffff_ffff_ffff_ffff

  predicate Odd(w: bv64) {
    w & 1 == 1
  }

  function Half(w: bv64): bv64 {
    w >> 1
  }

  function Twice(w: bv64): bv64 {
    w << 1
  }

  function And(a: bv64, b: bv64): bv64 {
    a & b
  }

  function Or(a: bv64, b: bv64): bv64 {
    a | b
  }

  function Not(a: bv64): bv64 {
    !a
  }

  /** Bit i of w: what test_bit reads. */
  predicate Bit(w: bv64, i: nat) {
    if i == 0 then Odd(w) else Bit(Half(w), i - 1)
  }

  /** w << n and w >> n, one place at a time. */
  function Shl(w: bv64, n: nat): bv64 {
    if n == 0 then w else Twice(Shl(w, n - 1))
  }

  function Shr(w: bv64, n: nat): bv64 {
    if n == 0 then w else Shr(Half(w), n - 1)
  }

  // ---- Bits of a word built from other words ----

  lemma HalfAnd(a: bv64, b: bv64)
    ensures Half(And(a, b)) == And(Half(a), Half(b))
  {
  }

  lemma HalfOr(a: bv64, b: bv64)
    ensures Half(Or(a, b)) == Or(Half(a), Half(b))
  {
  }

  lemma OddAnd(a: bv64, b: bv64)
    ensures Odd(And(a, b)) <==> Odd(a) && Odd(b)
  {
  }

  lemma OddOr(a: bv64, b: bv64)
    ensures Odd(Or(a, b)) <==> Odd(a) || Odd(b)
  {
  }

  lemma {:induction false} BitAnd(a: bv64, b: bv64, i: nat)
    ensures Bit(And(a, b), i) <==> Bit(a, i) && Bit(b, i)
    decreases i
  {
    hide Half, Odd, And;
    HalfAnd(a, b);
    OddAnd(a, b);
    if i > 0 {
      BitAnd(Half(a), Half(b), i - 1);
    }
  }

  lemma {:induction false} BitOr(a: bv64, b: bv64, i: nat)
    ensures Bit(Or(a, b), i) <==> Bit(a, i) || Bit(b, i)
    decreases i
  {
    hide Half, Odd, Or;
    HalfOr(a, b);
    OddOr(a, b);
    if i > 0 {
      BitOr(Half(a), Half(b), i - 1);
    }
  }

  lemma {:induction false} BitZero(i: nat)
    ensures !Bit(0, i)
  {
    assert Half(0) == 0 && !Odd(0);
    hide Half, Odd;
    if i > 0 {
      BitZero(i - 1);
    }
  }

  lemma {:induction false} BitShr(w: bv64, n: nat, i: nat)
    ensures Bit(Shr(w, n), i) == Bit(w, n + i)
    decreases n
  {
    hide Half, Odd;
    if n > 0 {
      BitShr(Half(w), n - 1, i);
    }
  }

  lemma {:induction false} ShrShr(w: bv64, m: nat, n: nat)
    ensures Shr(w, m + n) == Shr(Shr(w, m), n)
    decreases m
  {
    hide Half;
    if m > 0 {
      ShrShr(Half(w), m - 1, n);
    }
  }

  // ---- The shifts by a constant that the searches use ----

  function Down2(w: bv64): bv64 {
    w >> 2
  }

  function Down4(w: bv64): bv64 {
    w >> 4
  }

  function Down8(w: bv64): bv64 {
    w >> 8
  }

  function Down16(w: bv64): bv64 {
    w >> 16
  }

  function Down32(w: bv64): bv64 {
    w >> 32
  }

  lemma Shr1(w: bv64)
    ensures Shr(w, 1) == Half(w)
  {
    hide Half;
    assert Shr(Half(w), 0) == Half(w);
  }

  lemma Down2Is(w: bv64)
    ensures Down2(w) == Half(Half(w))
  {
  }

  lemma Shr2(w: bv64)
    ensures Shr(w, 2) == Down2(w)
  {
    hide *;
    ShrShr(w, 1, 1);
    Shr1(w);
    Shr1(Half(w));
    Down2Is(w);
  }

  lemma Down4Is(w: bv64)
    ensures Down4(w) == Down2(Down2(w))
  {
  }

  lemma Shr4(w: bv64)
    ensures Shr(w, 4) == Down4(w)
  {
    hide *;
    ShrShr(w, 2, 2);
    Shr2(w);
    Shr2(Down2(w));
    Down4Is(w);
  }

  lemma Down8Is(w: bv64)
    ensures Down8(w) == Down4(Down4(w))
  {
  }

  lemma Shr8(w: bv64)
    ensures Shr(w, 8) == Down8(w)
  {
    hide *;
    ShrShr(w, 4, 4);
    Shr4(w);
    Shr4(Down4(w));
    Down8Is(w);
  }

  lemma Down16Is(w: bv64)
    ensures Down16(w) == Down8(Down8(w))
  {
  }

  lemma Shr16(w: bv64)
    ensures Shr(w, 16) == Down16(w)
  {
    hide *;
    ShrShr(w, 8, 8);
    Shr8(w);
    Shr8(Down8(w));
    Down16Is(w);
  }

  lemma Down32Is(w: bv64)
    ensures Down32(w) == Down16(Down16(w))
  {
  }

  lemma Shr32(w: bv64)
    ensures Shr(w, 32) == Down32(w)
  {
    hide *;
    ShrShr(w, 16, 16);
    Shr16(w);
    Shr16(Down16(w));
    Down32Is(w);
  }

  lemma Down32Twice(w: bv64)
    ensures Down32(Down32(w)) == 0
  {
  }

  lemma Shr64(w: bv64)
    ensures Shr(w, 64) == 0
  {
    hide *;
    ShrShr(w, 32, 32);
    Shr32(w);
    Shr32(Down32(w));
    Down32Twice(w);
  }

  /** The lowest k bits of w are ones. */
  ghost predicate LowOnes(w: bv64, k: nat) {
    forall i :: 0 <= i < k ==> Bit(w, i)
  }

  /** k ones, and k more above them. */
  lemma OnesDouble(w: bv64, k: nat, v: bv64)
    requires LowOnes(w, k) && v == Shr(w, k) && LowOnes(v, k)
    ensures LowOnes(w, k + k)
  {
    hide Bit, Shr;
    forall i | 0 <= i < k + k ensures Bit(w, i) {
      if i >= k {
        BitShr(w, k, i - k);
      }
    }
  }

  lemma Ones1(w: bv64)
    requires And(w, 1) == 1
    ensures LowOnes(w, 1)
  {
  }

  lemma Parts2(w: bv64)
    requires And(w, 0x3) == 0x3
    ensures And(w, 0x1) == 0x1 && And(Half(w), 0x1) == 0x1
  {
  }

  lemma Ones2(w: bv64)
    requires And(w, 0x3) == 0x3
    ensures LowOnes(w, 2)
  {
    hide *;
    Parts2(w);
    Ones1(w);
    Ones1(Half(w));
    Shr1(w);
    OnesDouble(w, 1, Half(w));
  }

  lemma Parts4(w: bv64)
    requires And(w, 0xf) == 0xf
    ensures And(w, 0x3) == 0x3 && And(Down2(w), 0x3) == 0x3
  {
  }

  lemma Ones4(w: bv64)
    requires And(w, 0xf) == 0xf
    ensures LowOnes(w, 4)
  {
    hide *;
    Parts4(w);
    Ones2(w);
    Ones2(Down2(w));
    Shr2(w);
    OnesDouble(w, 2, Down2(w));
  }

  lemma Parts8(w: bv64)
    requires And(w, 0xff) == 0xff
    ensures And(w, 0xf) == 0xf && And(Down4(w), 0xf) == 0xf
  {
  }

  lemma Ones8(w: bv64)
    requires And(w, 0xff) == 0xff
    ensures LowOnes(w, 8)
  {
    hide *;
    Parts8(w);
    Ones4(w);
    Ones4(Down4(w));
    Shr4(w);
    OnesDouble(w, 4, Down4(w));
  }

  lemma Parts16(w: bv64)
    requires And(w, 0xffff) == 0xffff
    ensures And(w, 0xff) == 0xff && And(Down8(w), 0xff) == 0xff
  {
  }

  lemma Ones16(w: bv64)
    requires And(w, 0xffff) == 0xffff
    ensures LowOnes(w, 16)
  {
    hide *;
    Parts16(w);
    Ones8(w);
    Ones8(Down8(w));
    Shr8(w);
    OnesDouble(w, 8, Down8(w));
  }

  lemma Parts32(w: bv64)
    requires And(w, 0xffffffff) == 0xffffffff
    ensures And(w, 0xffff) == 0xffff && And(Down16(w), 0xffff) == 0xffff
  {
  }

  lemma Ones32(w: bv64)
    requires And(w, 0xffffffff) == 0xffffffff
    ensures LowOnes(w, 32)
  {
    hide *;
    Parts32(w);
    Ones16(w);
    Ones16(Down16(w));
    Shr16(w);
    OnesDouble(w, 16, Down16(w));
  }

  lemma PartsAll()
    ensures And(ALL, 0xffffffff) == 0xffffffff && And(Down32(ALL), 0xffffffff) == 0xffffffff
  {
  }

  lemma BitAll(i: nat)
    requires i < 64
    ensures Bit(ALL, i)
  {
    hide Bit, Shr, And, Down32, ALL;
    PartsAll();
    Ones32(ALL);
    Ones32(Down32(ALL));
    Shr32(ALL);
    OnesDouble(ALL, 32, Down32(ALL));
  }

  lemma BitAbove(w: bv64, i: nat)
    requires i >= 64
    ensures !Bit(w, i)
  {
    hide Bit, Shr;
    Shr64(w);
    BitShr(w, 64, i - 64);
    BitZero(i - 64);
  }

  lemma WithComplement(w: bv64)
    ensures And(w, Not(w)) == 0 && Or(w, Not(w)) == ALL
  {
  }

  lemma BitNot(w: bv64, i: nat)
    requires i < 64
    ensures Bit(Not(w), i) == !Bit(w, i)
  {
    hide Bit, And, Or, Not, ALL;
    WithComplement(w);
    BitAnd(w, Not(w), i);
    BitOr(w, Not(w), i);
    BitZero(i);
    BitAll(i);
  }

  lemma TwiceIs(w: bv64)
    ensures !Odd(Twice(w)) && Half(Twice(w)) == And(w, Half(ALL))
  {
  }

  lemma BitTwice(w: bv64, i: nat)
    requires i < 64
    ensures Bit(Twice(w), i) == (i > 0 && Bit(w, i - 1))
  {
    hide Twice, Half, Odd, And, ALL;
    TwiceIs(w);
    if i > 0 {
      BitAnd(w, Half(ALL), i - 1);
      BitAll(i);
      assert Bit(ALL, i) == Bit(Half(ALL), i - 1);
    }
  }

  lemma {:induction false} BitShl(w: bv64, n: nat, i: nat)
    requires i < 64
    ensures Bit(Shl(w, n), i) == (n <= i && Bit(w, i - n))
    decreases n
  {
    hide Twice, Bit;
    if n > 0 {
      BitTwice(Shl(w, n - 1), i);
      if i > 0 {
        BitShl(w, n - 1, i - 1);
      }
    }
  }

  lemma HalfZero(w: bv64)
    requires Half(w) == 0 && !Odd(w)
    ensures w == 0
  {
  }

  lemma {:induction false} ZeroFrom(w: bv64, n: nat)
    requires Shr(w, n) == 0 && forall i :: 0 <= i < n ==> !Bit(w, i)
    ensures w == 0
    decreases n
  {
    hide Half, Odd;
    if n > 0 {
      assert !Bit(w, 0);
      forall i | 0 <= i < n - 1 ensures !Bit(Half(w), i) {
        assert !Bit(w, i + 1);
      }
      ZeroFrom(Half(w), n - 1);
      HalfZero(w);
    }
  }

  /** Bits from..to of w are clear. */
  ghost predicate Clear(w: bv64, from: nat, to: nat) {
    forall i :: from <= i < to ==> !Bit(w, i)
  }

  /** A word is zero exactly when none of its bits is set. */
  lemma ZeroBits(w: bv64)
    ensures w == 0 <==> Clear(w, 0, 64)
  {
    hide Bit, Shr;
    Shr64(w);
    if Clear(w, 0, 64) {
      ZeroFrom(w, 64);
    } else {
      var i :| 0 <= i < 64 && Bit(w, i);
      assert w != 0 by {
        BitZero(i);
      }
    }
  }

  // ---- The masks ----

  /** mask has exactly the bits from..to set. */
  ghost predicate Covers(mask: bv64, from: nat, to: nat) {
    forall i :: 0 <= i < 64 ==> (Bit(mask, i) <==> from <= i < to)
  }

  /** w & mask is zero exactly when w has no bit where the mask has. */
  lemma MaskTest(w: bv64, mask: bv64, from: nat, to: nat)
    requires Covers(mask, from, to) && to <= 64
    ensures And(w, mask) == 0 <==> Clear(w, from, to)
  {
    hide Bit, And;
    ZeroBits(And(w, mask));
    forall i | 0 <= i < 64 ensures Bit(And(w, mask), i) <==> Bit(w, i) && from <= i < to {
      BitAnd(w, mask, i);
    }
    if And(w, mask) == 0 {
      forall i | from <= i < to ensures !Bit(w, i) {
        assert !Bit(And(w, mask), i);
      }
    }
  }

  /** ~0UL << n and ~0UL >> (64 - n). */
  lemma Above(n: nat)
    requires n <= 64
    ensures Covers(Shl(ALL, n), n, 64)
  {
    hide Bit, Shl, ALL;
    forall i | 0 <= i < 64 ensures Bit(Shl(ALL, n), i) <==> n <= i {
      BitShl(ALL, n, i);
      if n <= i {
        BitAll(i - n);
      }
    }
  }

  lemma Below(n: nat)
    requires n <= 64
    ensures Covers(Shr(ALL, 64 - n), 0, n)
  {
    hide Bit, Shr, ALL;
    var mask := Shr(ALL, 64 - n);
    forall i | 0 <= i < 64 ensures Bit(mask, i) <==> i < n {
      BitShr(ALL, 64 - n, i);
      if i < n {
        BitAll(64 - n + i);
      } else {
        BitAbove(ALL, 64 - n + i);
      }
    }
  }

  lemma Mask1()
    ensures And(0x1, 0x1) == 0x1 && Half(0x1) == 0
  {
  }

  lemma Low1()
    ensures Covers(0x1, 0, 1)
  {
    hide Bit, Shr, And, Half;
    Mask1();
    Ones1(0x1);
    Shr1(0x1);
    OnlyLow(0x1, 1);
  }

  lemma Mask2()
    ensures And(0x3, 0x3) == 0x3 && Down2(0x3) == 0
  {
  }

  lemma Low2()
    ensures Covers(0x3, 0, 2)
  {
    hide Bit, Shr, And, Down2;
    Mask2();
    Ones2(0x3);
    Shr2(0x3);
    OnlyLow(0x3, 2);
  }

  lemma Mask4()
    ensures And(0xf, 0xf) == 0xf && Down4(0xf) == 0
  {
  }

  lemma Low4()
    ensures Covers(0xf, 0, 4)
  {
    hide Bit, Shr, And, Down4;
    Mask4();
    Ones4(0xf);
    Shr4(0xf);
    OnlyLow(0xf, 4);
  }

  lemma Mask8()
    ensures And(0xff, 0xff) == 0xff && Down8(0xff) == 0
  {
  }

  lemma Low8()
    ensures Covers(0xff, 0, 8)
  {
    hide Bit, Shr, And, Down8;
    Mask8();
    Ones8(0xff);
    Shr8(0xff);
    OnlyLow(0xff, 8);
  }

  lemma Mask16()
    ensures And(0xffff, 0xffff) == 0xffff && Down16(0xffff) == 0
  {
  }

  lemma Low16()
    ensures Covers(0xffff, 0, 16)
  {
    hide Bit, Shr, And, Down16;
    Mask16();
    Ones16(0xffff);
    Shr16(0xffff);
    OnlyLow(0xffff, 16);
  }

  lemma Mask32()
    ensures And(0xffffffff, 0xffffffff) == 0xffffffff && Down32(0xffffffff) == 0
  {
  }

  lemma Low32()
    ensures Covers(0xffffffff, 0, 32)
  {
    hide Bit, Shr, And, Down32;
    Mask32();
    Ones32(0xffffffff);
    Shr32(0xffffffff);
    OnlyLow(0xffffffff, 32);
  }

  lemma OnlyLow(mask: bv64, n: nat)
    requires LowOnes(mask, n) && Shr(mask, n) == 0
    ensures Covers(mask, 0, n)
  {
    hide Bit, Shr;
    forall i | n <= i < 64 ensures !Bit(mask, i) {
      BitShr(mask, n, i - n);
      BitZero(i - n);
    }
  }

  function Less1(w: bv64): bv64 {
    w - 1
  }

  lemma Less1Twice(w: bv64)
    ensures Less1(Twice(w)) == Or(Twice(Less1(w)), 1)
  {
  }

  lemma OneIs()
    ensures Odd(1) && Half(1) == 0 && Less1(1) == 0
  {
  }

  lemma BitOne(i: nat)
    ensures Bit(1, i) == (i == 0)
  {
    hide Half, Odd;
    OneIs();
    if i > 0 {
      BitZero(i - 1);
    }
  }

  /** (1UL << n) - 1. */
  lemma {:induction false} PowerLess1(n: nat)
    requires n <= 64
    ensures Covers(Less1(Shl(1, n)), 0, n)
    decreases n
  {
    hide Bit, Twice, Or, Less1;
    OneIs();
    if n == 0 {
      forall i | 0 <= i < 64 ensures !Bit(0, i) {
        BitZero(i);
      }
    } else {
      var low := Less1(Shl(1, n - 1));
      PowerLess1(n - 1);
      Less1Twice(Shl(1, n - 1));
      var mask := Or(Twice(low), 1);
      forall i | 0 <= i < 64 ensures Bit(mask, i) <==> i < n {
        BitOr(Twice(low), 1, i);
        BitTwice(low, i);
        BitOne(i);
      }
      assert Less1(Shl(1, n)) == mask;
    }
  }

  // ---- The first and the last bit of a word ----

  ghost predicate IsFirst(w: bv64, k: nat) {
    k < 64 && Bit(w, k) && forall i :: 0 <= i < k ==> !Bit(w, i)
  }

  ghost predicate IsLast(w: bv64, k: nat) {
    k < 64 && Bit(w, k) && forall i :: k < i < 64 ==> !Bit(w, i)
  }

  lemma FirstExists(w: bv64) returns (k: nat)
    requires w != 0
    ensures IsFirst(w, k)
  {
    hide Bit;
    ZeroBits(w);
    k := 0;
    while !Bit(w, k)
      invariant k < 64 && forall i :: 0 <= i < k ==> !Bit(w, i)
      decreases 64 - k
    {
      assert exists i :: k < i < 64 && Bit(w, i);
      k := k + 1;
    }
  }

  lemma LastExists(w: bv64) returns (k: nat)
    requires w != 0
    ensures IsLast(w, k)
  {
    hide Bit;
    ZeroBits(w);
    k := 63;
    while !Bit(w, k)
      invariant k < 64 && forall i :: k < i < 64 ==> !Bit(w, i)
      decreases k
    {
      assert exists i :: 0 <= i < k && Bit(w, i);
      k := k - 1;
    }
  }

  /** The n bits below the cursor of bitops_ffsl are all clear exactly when the first bit lies beyond them. */
  lemma LowTest(w: bv64, first: nat, num: nat, word: bv64, mask: bv64, n: nat)
    requires IsFirst(w, first) && num <= first && word == Shr(w, num) && Covers(mask, 0, n) && n <= 64
    ensures And(word, mask) == 0 <==> num + n <= first
  {
    hide Bit, Shr, And;
    MaskTest(word, mask, 0, n);
    if first < num + n {
      BitShr(w, num, first - num);
      assert Bit(word, first - num);
    } else {
      forall i | 0 <= i < n ensures !Bit(word, i) {
        BitShr(w, num, i);
      }
    }
  }

  lemma HighTest(w: bv64, last: nat, num: nat, word: bv64, n: nat)
    requires IsLast(w, last) && last <= num < 64 && word == Shl(w, 63 - num) && 0 < n <= num + 1
    ensures And(word, Shl(ALL, 64 - n)) == 0 <==> last <= num - n
  {
    hide Bit, Shl, And;
    Above(64 - n);
    MaskTest(word, Shl(ALL, 64 - n), 64 - n, 64);
    if last > num - n {
      BitShl(w, 63 - num, last + 63 - num);
      assert Bit(word, last + 63 - num);
    } else {
      forall i | 64 - n <= i < 64 ensures !Bit(word, i) {
        BitShl(w, 63 - num, i);
      }
    }
  }

  lemma {:induction false} ShlShl(w: bv64, m: nat, n: nat)
    ensures Shl(w, m + n) == Shl(Shl(w, m), n)
    decreases n
  {
    hide Twice;
    if n > 0 {
      ShlShl(w, m, n - 1);
    }
  }

  /** bitops_ffsl. */
  method Ffsl(w: bv64) returns (num: nat)
    requires w != 0
    ensures IsFirst(w, num)
  {
    hide Bit, Shr, And, Half, Down2, Down4, Down8, Down16, Down32, IsFirst;
    var word := w;
    ghost var first := FirstExists(w);
    FirstRange(w, first);
    num := 0;
    Low32(); LowTest(w, first, num, word, 0xffffffff, 32);
    if And(word, 0xffffffff) == 0 {
      ShrShr(w, num, 32); Shr32(word);
      num, word := num + 32, Down32(word);
    }
    Low16(); LowTest(w, first, num, word, 0xffff, 16);
    if And(word, 0xffff) == 0 {
      ShrShr(w, num, 16); Shr16(word);
      num, word := num + 16, Down16(word);
    }
    Low8(); LowTest(w, first, num, word, 0xff, 8);
    if And(word, 0xff) == 0 {
      ShrShr(w, num, 8); Shr8(word);
      num, word := num + 8, Down8(word);
    }
    Low4(); LowTest(w, first, num, word, 0xf, 4);
    if And(word, 0xf) == 0 {
      ShrShr(w, num, 4); Shr4(word);
      num, word := num + 4, Down4(word);
    }
    Low2(); LowTest(w, first, num, word, 0x3, 2);
    if And(word, 0x3) == 0 {
      ShrShr(w, num, 2); Shr2(word);
      num, word := num + 2, Down2(word);
    }
    Low1(); LowTest(w, first, num, word, 0x1, 1);
    if And(word, 0x1) == 0 {
      num := num + 1;
    }
  }

  lemma FirstRange(w: bv64, first: nat)
    requires IsFirst(w, first)
    ensures first < 64 && w == Shr(w, 0)
  {
  }

  /** bitops_flsl. */
  method Flsl(w: bv64) returns (num: nat)
    requires w != 0
    ensures IsLast(w, num)
  {
    hide Bit, Shl, And, IsLast, ALL;
    var word := w;
    ghost var last := LastExists(w);
    LastRange(w, last);
    num := 63;
    HighTest(w, last, num, word, 32);
    if And(word, Shl(ALL, 32)) == 0 {
      ShlShl(w, 63 - num, 32);
      num, word := num - 32, Shl(word, 32);
    }
    HighTest(w, last, num, word, 16);
    if And(word, Shl(ALL, BITS_PER_LONG - 16)) == 0 {
      ShlShl(w, 63 - num, 16);
      num, word := num - 16, Shl(word, 16);
    }
    HighTest(w, last, num, word, 8);
    if And(word, Shl(ALL, BITS_PER_LONG - 8)) == 0 {
      ShlShl(w, 63 - num, 8);
      num, word := num - 8, Shl(word, 8);
    }
    HighTest(w, last, num, word, 4);
    if And(word, Shl(ALL, BITS_PER_LONG - 4)) == 0 {
      ShlShl(w, 63 - num, 4);
      num, word := num - 4, Shl(word, 4);
    }
    HighTest(w, last, num, word, 2);
    if And(word, Shl(ALL, BITS_PER_LONG - 2)) == 0 {
      ShlShl(w, 63 - num, 2);
      num, word := num - 2, Shl(word, 2);
    }
    HighTest(w, last, num, word, 1);
    if And(word, Shl(ALL, BITS_PER_LONG - 1)) == 0 {
      num := num - 1;
    }
  }

  lemma LastRange(w: bv64, last: nat)
    requires IsLast(w, last)
    ensures last < 64 && w == Shl(w, 0)
  {
  }

  /** ffz. */
  method Ffz(w: bv64) returns (num: nat)
    requires w != ALL
    ensures num < 64 && !Bit(w, num) && forall i :: 0 <= i < num ==> Bit(w, i)
    ensures IsFirst(Not(w), num)
  {
    hide Bit, Not, ALL;
    NotZero(w);
    num := Ffsl(Not(w));
    BitNot(w, num);
    forall i | 0 <= i < num ensures Bit(w, i) {
      BitNot(w, i);
    }
  }

  lemma NotZero(w: bv64)
    ensures Not(w) == 0 <==> w == ALL
  {
  }
}
