/** Bitmaps of 64-bit words searched and changed a word at a time (bitops.c, bitmap.c). */
module Bitmap {
  import opened Bits

  /** Bit i of the map. */
  predicate At(m: seq<bv64>, i: nat) {
    i / 64 < |m| && Bit(m[i / 64], i % 64)
  }

  lemma AtWord(m: seq<bv64>, p: nat, j: nat)
    requires p < |m| && j < 64
    ensures At(m, 64 * p + j) == Bit(m[p], j)
  {
    hide Bit;
    assert (64 * p + j) / 64 == p && (64 * p + j) % 64 == j;
  }

  /** No bit from..to has the wanted value. */
  ghost predicate NoneIn(m: seq<bv64>, want: bool, from: nat, to: nat) {
    forall i :: from <= i < to ==> At(m, i) != want
  }

  /** r is the first bit with the wanted value at or after offset, or size when there is none. */
  ghost predicate IsNext(m: seq<bv64>, want: bool, size: nat, offset: nat, r: nat) {
    if offset >= size then r == size
    else offset <= r <= size && NoneIn(m, want, offset, r) && (r < size ==> At(m, r) == want)
  }

  /** The set bits of tmp are the wanted bits lo..hi of word p. */
  ghost predicate Picks(m: seq<bv64>, want: bool, p: nat, lo: nat, hi: nat, tmp: bv64) {
    forall j :: 0 <= j < 64 ==> (Bit(tmp, j) <==> lo <= j < hi && At(m, 64 * p + j) == want)
  }

  lemma PicksNone(m: seq<bv64>, want: bool, from: nat, p: nat, lo: nat, hi: nat, tmp: bv64)
    requires Picks(m, want, p, lo, hi, tmp) && tmp == 0 && hi <= 64 && lo <= hi && NoneIn(m, want, from, 64 * p + lo)
    ensures NoneIn(m, want, from, 64 * p + hi)
  {
    hide Bit, At;
    ZeroBits(tmp);
    forall i | from <= i < 64 * p + hi ensures At(m, i) != want {
      if i >= 64 * p + lo {
        var j := i - 64 * p;
        assert !Bit(tmp, j);
        assert i == 64 * p + j;
      }
    }
  }

  lemma PicksFirst(m: seq<bv64>, want: bool, from: nat, p: nat, lo: nat, hi: nat, tmp: bv64, k: nat)
    requires Picks(m, want, p, lo, hi, tmp) && IsFirst(tmp, k) && NoneIn(m, want, from, 64 * p + lo)
    ensures lo <= k < hi && At(m, 64 * p + k) == want && NoneIn(m, want, from, 64 * p + k)
  {
    hide Bit, At;
    forall i | from <= i < 64 * p + k ensures At(m, i) != want {
      if i >= 64 * p + lo {
        var j := i - 64 * p;
        assert !Bit(tmp, j);
        assert i == 64 * p + j;
      }
    }
  }

  lemma PicksWord(m: seq<bv64>, p: nat)
    requires p < |m|
    ensures Picks(m, true, p, 0, 64, m[p]) && Picks(m, false, p, 0, 64, Not(m[p]))
  {
    hide Bit, At, Not;
    forall j | 0 <= j < 64 ensures Bit(m[p], j) <==> At(m, 64 * p + j) {
      AtWord(m, p, j);
    }
    forall j | 0 <= j < 64 ensures Bit(Not(m[p]), j) <==> !At(m, 64 * p + j) {
      AtWord(m, p, j);
      BitNot(m[p], j);
    }
  }

  lemma PicksAnd(m: seq<bv64>, want: bool, p: nat, lo: nat, hi: nat, tmp: bv64, mask: bv64, from: nat, to: nat)
    requires Picks(m, want, p, lo, hi, tmp) && Covers(mask, from, to) && lo <= from && to <= hi
    ensures Picks(m, want, p, from, to, And(tmp, mask))
  {
    hide Bit, At, And;
    forall j | 0 <= j < 64 ensures Bit(And(tmp, mask), j) <==> from <= j < to && At(m, 64 * p + j) == want {
      BitAnd(tmp, mask, j);
    }
  }

  /** The last label of the search: tmp holds the bits from lo on, of which size count. */
  method FoundFirst(ghost m: seq<bv64>, ghost from: nat, ghost p: nat, ghost lo: nat, tmp0: bv64, result: nat,
                    size: nat) returns (r: nat)
    requires p < |m| && result == 64 * p && lo <= size < 64 && 0 < size
    requires Picks(m, true, p, lo, 64, tmp0) && NoneIn(m, true, from, 64 * p + lo)
    ensures 64 * p + lo <= r <= 64 * p + size && NoneIn(m, true, from, r) && (r < 64 * p + size ==> At(m, r))
  {
    hide Bit, At, And, Shr, NoneIn, Picks, IsFirst;
    Below(size);
    PicksBelow(m, true, p, lo, tmp0, Shr(ALL, BITS_PER_LONG - size), size);
    var tmp := And(tmp0, Shr(ALL, BITS_PER_LONG - size));
    if tmp == 0 {
      PicksNone(m, true, from, p, lo, size, tmp);
      return result + size;
    }
    var k := Ffsl(tmp);
    PicksFirst(m, true, from, p, lo, size, tmp, k);
    return result + k;
  }

  /** Cutting the row of picked bits at size. */
  lemma PicksBelow(m: seq<bv64>, want: bool, p: nat, lo: nat, tmp: bv64, mask: bv64, size: nat)
    requires Picks(m, want, p, lo, 64, tmp) && Covers(mask, 0, size) && size <= 64
    ensures Picks(m, want, p, lo, size, And(tmp, mask))
  {
    hide Bit, At, And;
    forall j | 0 <= j < 64 ensures Bit(And(tmp, mask), j) <==> lo <= j < size && At(m, 64 * p + j) == want {
      BitAnd(tmp, mask, j);
    }
  }

  /** find_next_bit. */
  method FindNextBit(addr: array<bv64>, size0: nat, offset: nat) returns (r: nat)
    requires size0 <= 64 * addr.Length
    ensures IsNext(addr[..], true, size0, offset, r)
  {
    hide Bit, At, And, Shl, NoneIn, Picks, IsFirst;
    ghost var m := addr[..];
    if offset >= size0 {
      return size0;
    }
    var p, off := offset / 64, offset % 64;
    var result := 64 * p;
    var size := size0 - result;
    NoneInEmpty(m, true, offset);
    if off != 0 {
      PicksWord(m, p);
      Above(off);
      PicksAnd(m, true, p, 0, 64, addr[p], Shl(ALL, off), off, 64);
      var tmp := And(addr[p], Shl(ALL, off));
      if size < BITS_PER_LONG {
        r := FoundFirst(m, offset, p, off, tmp, result, size);
        return;
      }
      if tmp != 0 {
        var k := Ffsl(tmp);
        PicksFirst(m, true, offset, p, off, 64, tmp, k);
        return result + k;
      }
      PicksNone(m, true, offset, p, off, 64, tmp);
      p := p + 1;
      size := size - BITS_PER_LONG;
      result := result + BITS_PER_LONG;
    }
    while size >= BITS_PER_LONG
      invariant result == 64 * p && size + result == size0 && 0 <= size && offset <= result
      invariant NoneIn(m, true, offset, result)
    {
      var tmp := addr[p];
      PicksWord(m, p);
      if tmp != 0 {
        var k := Ffsl(tmp);
        PicksFirst(m, true, offset, p, 0, 64, tmp, k);
        return result + k;
      }
      PicksNone(m, true, offset, p, 0, 64, tmp);
      p := p + 1;
      result := result + BITS_PER_LONG;
      size := size - BITS_PER_LONG;
    }
    if size == 0 {
      return result;
    }
    PicksWord(m, p);
    r := FoundFirst(m, offset, p, 0, addr[p], result, size);
  }

  lemma NoneInEmpty(m: seq<bv64>, want: bool, from: nat)
    ensures NoneIn(m, want, from, from)
  {
  }

  // ---- find_next_zero_bit ----

  /** Bits ored in no longer count as zeros. */
  lemma PicksOr(m: seq<bv64>, p: nat, lo: nat, hi: nat, tmp: bv64, mask: bv64, from: nat, to: nat, lo': nat, hi': nat)
    requires Picks(m, false, p, lo, hi, Not(tmp)) && Covers(mask, from, to)
    requires (from <= lo && lo' == to && lo <= to && hi' == hi) || (hi <= to && hi' == from && from <= hi && lo' == lo)
    ensures Picks(m, false, p, lo', hi', Not(Or(tmp, mask)))
  {
    hide Bit, At, Or, Not;
    var w := Or(tmp, mask);
    forall j | 0 <= j < 64 ensures Bit(Not(w), j) <==> lo' <= j < hi' && !At(m, 64 * p + j) {
      BitOr(tmp, mask, j);
      BitNot(w, j);
      BitNot(tmp, j);
    }
  }

  method FoundFirstZero(ghost m: seq<bv64>, ghost from: nat, ghost p: nat, ghost lo: nat, tmp0: bv64, result: nat,
                        size: nat) returns (r: nat)
    requires p < |m| && result == 64 * p && lo <= size < 64 && 0 < size
    requires Picks(m, false, p, lo, 64, Not(tmp0)) && NoneIn(m, false, from, 64 * p + lo)
    ensures 64 * p + lo <= r <= 64 * p + size && NoneIn(m, false, from, r) && (r < 64 * p + size ==> !At(m, r))
  {
    hide Bit, At, Or, Not, Shl, NoneIn, Picks, IsFirst;
    Above(size);
    PicksOr(m, p, lo, 64, tmp0, Shl(ALL, size), size, 64, lo, size);
    var tmp := Or(tmp0, Shl(ALL, size));
    NotZero(tmp);
    if tmp == ALL {
      PicksNone(m, false, from, p, lo, size, Not(tmp));
      return result + size;
    }
    var k := Ffz(tmp);
    PicksFirst(m, false, from, p, lo, size, Not(tmp), k);
    return result + k;
  }

  method FindNextZeroBit(addr: array<bv64>, size0: nat, offset: nat) returns (r: nat)
    requires size0 <= 64 * addr.Length
    ensures IsNext(addr[..], false, size0, offset, r)
  {
    hide Bit, At, Or, Not, Shr, NoneIn, Picks, IsFirst, ALL;
    ghost var m := addr[..];
    if offset >= size0 {
      return size0;
    }
    var p, off := offset / 64, offset % 64;
    var result := 64 * p;
    var size := size0 - result;
    NoneInEmpty(m, false, offset);
    if off != 0 {
      PicksWord(m, p);
      Below(off);
      PicksOr(m, p, 0, 64, addr[p], Shr(ALL, BITS_PER_LONG - off), 0, off, off, 64);
      var tmp := Or(addr[p], Shr(ALL, BITS_PER_LONG - off));
      if size < BITS_PER_LONG {
        r := FoundFirstZero(m, offset, p, off, tmp, result, size);
        return;
      }
      NotZero(tmp);
      if Not(tmp) != 0 {
        var k := Ffz(tmp);
        PicksFirst(m, false, offset, p, off, 64, Not(tmp), k);
        return result + k;
      }
      PicksNone(m, false, offset, p, off, 64, Not(tmp));
      p := p + 1;
      size := size - BITS_PER_LONG;
      result := result + BITS_PER_LONG;
    }
    while size >= BITS_PER_LONG
      invariant result == 64 * p && size + result == size0 && 0 <= size && offset <= result
      invariant NoneIn(m, false, offset, result)
    {
      var tmp := addr[p];
      PicksWord(m, p);
      NotZero(tmp);
      if Not(tmp) != 0 {
        var k := Ffz(tmp);
        PicksFirst(m, false, offset, p, 0, 64, Not(tmp), k);
        return result + k;
      }
      PicksNone(m, false, offset, p, 0, 64, Not(tmp));
      p := p + 1;
      result := result + BITS_PER_LONG;
      size := size - BITS_PER_LONG;
    }
    if size == 0 {
      return result;
    }
    PicksWord(m, p);
    r := FoundFirstZero(m, offset, p, 0, addr[p], result, size);
  }

  // ---- find_last_bit ----

  /** r is the last set bit below size, or size when there is none. */
  ghost predicate IsPrev(m: seq<bv64>, size: nat, r: nat) {
    if r < size then At(m, r) && NoneIn(m, true, r + 1, size) else r == size && NoneIn(m, true, 0, size)
  }

  lemma PicksLast(m: seq<bv64>, size: nat, p: nat, hi: nat, tmp: bv64, k: nat)
    requires Picks(m, true, p, 0, hi, tmp) && IsLast(tmp, k) && hi <= 64 && NoneIn(m, true, 64 * p + hi, size)
    requires 64 * p + hi <= size
    ensures IsPrev(m, size, 64 * p + k)
  {
    hide Bit, At;
    forall i | 64 * p + k + 1 <= i < size ensures !At(m, i) {
      if i < 64 * p + hi {
        var j := i - 64 * p;
        assert !Bit(tmp, j);
        assert i == 64 * p + j;
      }
    }
  }

  lemma PicksNoneDown(m: seq<bv64>, size: nat, p: nat, hi: nat, tmp: bv64)
    requires Picks(m, true, p, 0, hi, tmp) && tmp == 0 && hi <= 64 && NoneIn(m, true, 64 * p + hi, size)
    ensures NoneIn(m, true, 64 * p, size)
  {
    hide Bit, At;
    ZeroBits(tmp);
    forall i | 64 * p <= i < size ensures !At(m, i) {
      if i < 64 * p + hi {
        var j := i - 64 * p;
        assert !Bit(tmp, j);
        assert i == 64 * p + j;
      }
    }
  }

  method FindLastBit(addr: array<bv64>, size: nat) returns (r: nat)
    requires size <= 64 * addr.Length
    ensures IsPrev(addr[..], size, r)
  {
    hide Bit, At, And, Shr, NoneIn, Picks, IsLast, IsPrev;
    ghost var m := addr[..];
    var words, part := size / 64, size % 64;
    NoneInEmpty(m, true, size);
    if part != 0 {
      PicksWord(m, words);
      Below(part);
      PicksBelow(m, true, words, 0, addr[words], Shr(ALL, BITS_PER_LONG - part), part);
      var tmp := And(addr[words], Shr(ALL, BITS_PER_LONG - part));
      if tmp != 0 {
        var k := Flsl(tmp);
        PicksLast(m, size, words, part, tmp, k);
        return 64 * words + k;
      }
      PicksNoneDown(m, size, words, part, tmp);
    }
    while words != 0
      invariant 0 <= words && 64 * words <= size && NoneIn(m, true, 64 * words, size)
    {
      words := words - 1;
      var tmp := addr[words];
      PicksWord(m, words);
      if tmp != 0 {
        var k := Flsl(tmp);
        PicksLast(m, size, words, 64, tmp, k);
        return 64 * words + k;
      }
      PicksNoneDown(m, size, words, 64, tmp);
    }
    r := size;
    NotFound(m, size);
  }

  lemma NotFound(m: seq<bv64>, size: nat)
    requires NoneIn(m, true, 0, size)
    ensures IsPrev(m, size, size)
  {
  }

  // ---- bitmap_set and bitmap_clear ----

  /** m' is m with bits from..to made v. */
  ghost predicate Filled(m: seq<bv64>, m': seq<bv64>, from: nat, to: nat, v: bool) {
    |m'| == |m| && forall i :: 0 <= i < 64 * |m| ==> At(m', i) == if from <= i < to then v else At(m, i)
  }

  /** One word's share of a fill. */
  lemma FillWord(m: seq<bv64>, now: seq<bv64>, from: nat, p: nat, lo: nat, hi: nat, mask: bv64, v: bool)
    requires p < |m| && Filled(m, now, from, 64 * p + lo, v) && Covers(mask, lo, hi) && lo <= hi <= 64
    requires from <= 64 * p + lo
    ensures Filled(m, now[p := if v then Or(now[p], mask) else And(now[p], Not(mask))], from, 64 * p + hi, v)
  {
    hide Bit, At, Or, And, Not;
    var w := if v then Or(now[p], mask) else And(now[p], Not(mask));
    var next := now[p := w];
    forall i | 0 <= i < 64 * |m| ensures At(next, i) == if from <= i < 64 * p + hi then v else At(m, i) {
      var q, j := i / 64, i % 64;
      assert i == 64 * q + j;
      AtWord(next, q, j);
      AtWord(now, q, j);
      if q == p {
        BitOr(now[p], mask, j);
        BitAnd(now[p], Not(mask), j);
        BitNot(mask, j);
      }
    }
  }

  function LastWordMask(n: nat): bv64 {
    if n % 64 != 0 then Less1(Shl(1, n % 64)) else ALL
  }

  lemma LastMask(p: nat, n: nat, lo: nat, mask: bv64)
    requires 64 * p < n < 64 * p + 64 && Covers(mask, lo, 64) && lo <= n - 64 * p
    ensures Covers(And(mask, LastWordMask(n)), lo, n - 64 * p)
  {
    hide Bit, And, Less1, Shl;
    assert n % 64 == n - 64 * p;
    PowerLess1(n % 64);
    var last := LastWordMask(n);
    forall j | 0 <= j < 64 ensures Bit(And(mask, last), j) <==> lo <= j < n - 64 * p {
      BitAnd(mask, last, j);
    }
  }

  lemma WholeMask()
    ensures Covers(ALL, 0, 64)
  {
    hide Bit, ALL;
    forall i | 0 <= i < 64 ensures Bit(ALL, i) {
      BitAll(i);
    }
  }

  lemma FilledNone(m: seq<bv64>, at: nat, v: bool)
    ensures Filled(m, m, at, at, v)
  {
  }

  method BitmapSet(map_: array<bv64>, start: nat, nr0: nat)
    requires start + nr0 <= 64 * map_.Length
    modifies map_
    ensures Filled(old(map_[..]), map_[..], start, start + nr0, true)
  {
    hide Filled, Covers, Or, Shl, And, LastWordMask, ALL;
    ghost var m := map_[..];
    var p, nr, bits := start / 64, nr0, BITS_PER_LONG - start % 64;
    var mask := Shl(ALL, start % 64);
    Above(start % 64);
    FilledNone(m, start, true);
    while nr - bits >= 0
      invariant 0 <= nr <= nr0 && 0 < bits <= 64 && start + nr0 - nr == 64 * p + 64 - bits
      invariant Covers(mask, 64 - bits, 64) && Filled(m, map_[..], start, start + nr0 - nr, true)
    {
      ghost var now := map_[..];
      FilledLength(m, now, start, start + nr0 - nr, true);
      FillWord(m, now, start, p, 64 - bits, 64, mask, true);
      map_[p] := Or(map_[p], mask);
      assert map_[..] == now[p := Or(now[p], mask)];
      nr := nr - bits;
      bits, mask := BITS_PER_LONG, ALL;
      WholeMask();
      p := p + 1;
    }
    if nr != 0 {
      ghost var now := map_[..];
      LastMask(p, start + nr0, 64 - bits, mask);
      mask := And(mask, LastWordMask(start + nr0));
      FillWord(m, now, start, p, 64 - bits, start + nr0 - 64 * p, mask, true);
      map_[p] := Or(map_[p], mask);
      assert map_[..] == now[p := Or(now[p], mask)];
    }
  }

  lemma FilledLength(m: seq<bv64>, now: seq<bv64>, from: nat, to: nat, v: bool)
    requires Filled(m, now, from, to, v)
    ensures |now| == |m|
  {
  }

  method BitmapClear(map_: array<bv64>, start: nat, nr0: nat)
    requires start + nr0 <= 64 * map_.Length
    modifies map_
    ensures Filled(old(map_[..]), map_[..], start, start + nr0, false)
  {
    hide Filled, Covers, Or, Shl, And, Not, LastWordMask, ALL;
    ghost var m := map_[..];
    var p, nr, bits := start / 64, nr0, BITS_PER_LONG - start % 64;
    var mask := Shl(ALL, start % 64);
    Above(start % 64);
    FilledNone(m, start, false);
    while nr - bits >= 0
      invariant 0 <= nr <= nr0 && 0 < bits <= 64 && start + nr0 - nr == 64 * p + 64 - bits
      invariant Covers(mask, 64 - bits, 64) && Filled(m, map_[..], start, start + nr0 - nr, false)
    {
      ghost var now := map_[..];
      FilledLength(m, now, start, start + nr0 - nr, false);
      FillWord(m, now, start, p, 64 - bits, 64, mask, false);
      map_[p] := And(map_[p], Not(mask));
      assert map_[..] == now[p := And(now[p], Not(mask))];
      nr := nr - bits;
      bits, mask := BITS_PER_LONG, ALL;
      WholeMask();
      p := p + 1;
    }
    if nr != 0 {
      ghost var now := map_[..];
      LastMask(p, start + nr0, 64 - bits, mask);
      mask := And(mask, LastWordMask(start + nr0));
      FillWord(m, now, start, p, 64 - bits, start + nr0 - 64 * p, mask, false);
      map_[p] := And(map_[p], Not(mask));
      assert map_[..] == now[p := And(now[p], Not(mask))];
    }
  }

  // ---- bitmap_find_next_zero_area ----

  function Pow2(k: nat): nat {
    if k == 0 then 1 else 2 * Pow2(k - 1)
  }

  /** y & ~mask, binary digit by binary digit. */
  function AndNot(y: nat, mask: nat): nat {
    if y == 0 then 0 else 2 * AndNot(y / 2, mask / 2) + (if mask % 2 == 0 then y % 2 else 0)
  }

  /** ALIGN_MASK: (x + mask) & ~mask. */
  function AlignMask(x: nat, mask: nat): nat {
    AndNot(x + mask, mask)
  }

  /** An alignment mask is one less than a power of two. */
  ghost predicate LowMask(mask: nat) {
    exists k: nat :: mask + 1 == Pow2(k)
  }

  /** The multiple of mask + 1 at or above x. */
  function AlignUp(x: nat, mask: nat): nat {
    (x + mask) / (mask + 1) * (mask + 1)
  }

  /** Clearing the low k digits. */
  lemma {:induction false} AndNotLow(y: nat, k: nat)
    ensures Pow2(k) > 0 && AndNot(y, Pow2(k) - 1) == y / Pow2(k) * Pow2(k)
    decreases k, y
  {
    hide AndNot;
    if k == 0 {
      AndNotZero(y);
    } else {
      AndNotLow(y / 2, k - 1);
      AndNotOdd(y, Pow2(k - 1));
      HalfDiv(y, Pow2(k - 1));
    }
  }

  lemma AndNotOdd(y: nat, h: nat)
    requires h > 0
    ensures AndNot(y, 2 * h - 1) == 2 * AndNot(y / 2, h - 1)
  {
    assert (2 * h - 1) / 2 == h - 1 && (2 * h - 1) % 2 == 1;
  }

  lemma {:induction false} AndNotZero(y: nat)
    ensures AndNot(y, 0) == y
  {
    if y > 0 {
      AndNotZero(y / 2);
    }
  }

  lemma HalfDiv(y: nat, h: nat)
    requires h > 0
    ensures 2 * (y / 2 / h * h) == y / (2 * h) * (2 * h)
  {
    var a, b := y / 2, y / (2 * h);
    DivBounds(a, h);
    DivBounds(y, 2 * h);
    var q := a / h;
    assert b * (2 * h) == 2 * (b * h);
    assert q * h < (b + 1) * h by {
      assert (b + 1) * h == b * h + h;
    }
    assert b * h < (q + 1) * h by {
      assert (q + 1) * h == q * h + h;
    }
    MulCancel(q, b + 1, h);
    MulCancel(b, q + 1, h);
    assert q == b;
  }

  /** On its masks the bit operation rounds up. */
  lemma AlignMaskIs(x: nat, mask: nat)
    requires LowMask(mask)
    ensures AlignMask(x, mask) == AlignUp(x, mask)
  {
    var k: nat :| mask + 1 == Pow2(k);
    AndNotLow(x + mask, k);
  }

  /** On another mask it need not: 1 aligned with 2 stays 1. */
  lemma OtherMask()
    ensures AlignMask(1, 2) == 1 && AlignUp(1, 2) == 3 && !LowMask(2)
  {
    forall k: nat ensures Pow2(k) != 3 {
    }
  }

  /** The least multiple of mask + 1 not below x. */
  lemma AlignUpIs(x: nat, mask: nat, y: nat)
    ensures AlignUp(x, mask) % (mask + 1) == 0 && x <= AlignUp(x, mask)
    ensures x <= y && y % (mask + 1) == 0 ==> AlignUp(x, mask) <= y
  {
    var a := mask + 1;
    var q := (x + mask) / a;
    DivBounds(x + mask, a);
    MultipleMod(q, a);
    if x <= y && y % a == 0 {
      var k := y / a;
      DivBounds(y, a);
      assert y == k * a && (q - 1) * a == q * a - a;
      MulCancel(q - 1, k, a);
      MulMono(q, k, a);
    }
  }

  lemma DivBounds(n: nat, a: nat)
    requires a > 0
    ensures n / a * a + n % a == n && n % a < a
  {
  }

  lemma MultipleMod(q: nat, a: nat)
    requires a > 0
    ensures q * a % a == 0
  {
    var k, rem := q * a / a, q * a % a;
    DivBounds(q * a, a);
    assert (q - k) * a == q * a - k * a;
    Remainder(q - k, a, rem);
  }

  lemma Remainder(k: int, a: nat, rem: nat)
    requires k * a == rem < a
    ensures rem == 0
  {
    if k > 0 {
      MulMono(1, k, a);
    } else {
      MulMono(k, 0, a);
    }
  }

  lemma MulMono(x: int, y: int, a: nat)
    requires x <= y
    ensures x * a <= y * a
  {
    assert (y - x) * a == y * a - x * a;
  }

  lemma MulCancel(x: int, y: int, a: nat)
    requires x * a < y * a
    ensures x < y
  {
    if y <= x {
      MulMono(y, x, a);
    }
  }

  /** x starts an aligned area of nr zero bits inside the map. */
  ghost predicate Fits(m: seq<bv64>, size: nat, start: nat, nr: nat, mask: nat, x: nat) {
    start <= x && x % (mask + 1) == 0 && x + nr <= size && NoneIn(m, true, x, x + nr)
  }

  /** No area starts before the aligned next zero bit. */
  lemma NoneBefore(m: seq<bv64>, size: nat, start: nat, nr: nat, mask: nat, zero: nat, x: nat)
    requires nr > 0 && IsNext(m, false, size, start, zero) && Fits(m, size, start, nr, mask, x)
    ensures zero < size && AlignUp(zero, mask) <= x
  {
    hide At, AlignUp;
    assert !At(m, x);
    AlignUpIs(zero, mask, x);
  }

  /** No area contains a set bit. */
  lemma NoneOver(m: seq<bv64>, size: nat, start: nat, nr: nat, mask: nat, index: nat, i: nat, x: nat)
    requires nr > 0 && index <= i < index + nr && At(m, i) && index <= x <= i
    ensures !Fits(m, size, start, nr, mask, x)
  {
    hide At;
    assert x <= i < x + nr;
  }

  /** bitmap_find_next_zero_area. For a non-empty area: the least aligned place at or after start, or a value above
      size exactly when there is none. An empty area is still put at the next zero bit, aligned, although every
      aligned place would do. */
  method FindNextZeroArea(map_: array<bv64>, size: nat, start0: nat, nr: nat, mask: nat) returns (r: nat)
    requires size <= 64 * map_.Length && LowMask(mask)
    ensures r <= size ==> r + nr <= size && r % (mask + 1) == 0 && NoneIn(map_[..], true, r, r + nr)
    ensures nr > 0 && r <= size ==> Fits(map_[..], size, start0, nr, mask, r)
    ensures nr > 0 && r <= size ==> forall x :: 0 <= x < r ==> !Fits(map_[..], size, start0, nr, mask, x)
    ensures nr > 0 ==> (r > size <==> forall x: nat :: !Fits(map_[..], size, start0, nr, mask, x))
    ensures nr == 0 ==> exists zero: nat :: IsNext(map_[..], false, size, start0, zero) && r == AlignUp(zero, mask)
  {
    hide At, NoneIn, Fits, IsNext, AlignUp, AlignMask, LowMask;
    ghost var m := map_[..];
    var start := start0;
    FitsStart(m, size, start0, nr, mask);
    while true
      invariant start0 <= start && (nr == 0 ==> start == start0)
      invariant nr > 0 ==> forall x :: 0 <= x < start ==> !Fits(m, size, start0, nr, mask, x)
      decreases size - start
    {
      var zero := FindNextZeroBit(map_, size, start);
      var index := AlignMask(zero, mask);
      AlignMaskIs(zero, mask);
      AlignUpIs(zero, mask, 0);
      NextRange(m, false, size, start, zero);
      NoneBelow(m, size, start0, start, nr, mask, zero);
      var end := index + nr;
      if end > size {
        r := end;
        NoRoom(m, size, start0, nr, mask, index);
        return;
      }
      var i := FindNextBit(map_, end, index);
      NextRange(m, true, end, index, i);
      if i >= end {
        FoundArea(m, size, start0, start, nr, mask, zero, index, i);
        return index;
      }
      NoneOverAll(m, size, start0, nr, mask, index, i);
      start := i + 1;
    }
  }

  lemma FitsStart(m: seq<bv64>, size: nat, start: nat, nr: nat, mask: nat)
    ensures forall x :: 0 <= x < start ==> !Fits(m, size, start, nr, mask, x)
  {
  }

  lemma NextRange(m: seq<bv64>, want: bool, size: nat, offset: nat, r: nat)
    requires IsNext(m, want, size, offset, r)
    ensures r <= size && (offset < size ==> offset <= r) && (offset >= size ==> r == size)
    ensures (r < size ==> At(m, r) == want)
  {
    hide At;
  }

  lemma NoneBelow(m: seq<bv64>, size: nat, start0: nat, start: nat, nr: nat, mask: nat, zero: nat)
    requires start0 <= start && IsNext(m, false, size, start, zero)
    requires nr > 0 ==> forall x :: 0 <= x < start ==> !Fits(m, size, start0, nr, mask, x)
    ensures nr > 0 ==> forall x :: 0 <= x < AlignUp(zero, mask) ==> !Fits(m, size, start0, nr, mask, x)
  {
    hide At, AlignUp, NoneIn;
    forall x | nr > 0 && 0 <= x < AlignUp(zero, mask) ensures !Fits(m, size, start0, nr, mask, x) {
      if x >= start && Fits(m, size, start0, nr, mask, x) {
        NoneBefore(m, size, start, nr, mask, zero, x);
      }
    }
  }

  lemma NoRoom(m: seq<bv64>, size: nat, start0: nat, nr: nat, mask: nat, index: nat)
    requires index + nr > size
    requires nr > 0 ==> forall x :: 0 <= x < index ==> !Fits(m, size, start0, nr, mask, x)
    ensures nr > 0 ==> forall x: nat :: !Fits(m, size, start0, nr, mask, x)
  {
    hide NoneIn;
    forall x: nat | nr > 0 ensures !Fits(m, size, start0, nr, mask, x) {
    }
  }

  lemma NoneOverAll(m: seq<bv64>, size: nat, start0: nat, nr: nat, mask: nat, index: nat, i: nat)
    requires index <= i < index + nr && At(m, i)
    requires nr > 0 ==> forall x :: 0 <= x < index ==> !Fits(m, size, start0, nr, mask, x)
    ensures nr > 0 ==> forall x :: 0 <= x < i + 1 ==> !Fits(m, size, start0, nr, mask, x)
  {
    hide At, NoneIn, Fits;
    forall x | nr > 0 && 0 <= x < i + 1 ensures !Fits(m, size, start0, nr, mask, x) {
      if x >= index {
        NoneOver(m, size, start0, nr, mask, index, i, x);
      }
    }
  }

  lemma FoundArea(m: seq<bv64>, size: nat, start0: nat, start: nat, nr: nat, mask: nat, zero: nat, index: nat, i: nat)
    requires start0 <= start && index == AlignUp(zero, mask) && IsNext(m, false, size, start, zero)
    requires index + nr <= size
    requires IsNext(m, true, index + nr, index, i) && i >= index + nr
    ensures index % (mask + 1) == 0 && NoneIn(m, true, index, index + nr)
    ensures nr > 0 ==> Fits(m, size, start0, nr, mask, index)
  {
    hide At, AlignUp;
    AlignUpIs(zero, mask, 0);
  }
}
