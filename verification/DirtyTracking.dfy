/** Which chunks of a disk have been written (block.c, set_dirty_bitmap and the dirty-tracking calls). */
module DirtyTracking {
  import opened Common
  import opened Bits
  import opened Bitmap

  /** The chunks set_dirty_bitmap goes through. */
  ghost predicate Touches(sector: nat, nb: nat, c: nat) {
    sector / CHUNK <= c <= CDiv(sector + nb - 1, CHUNK)
  }

  /** Some sector of the request lies in chunk c. */
  ghost predicate CoversChunk(sector: nat, nb: nat, c: nat) {
    exists s :: sector <= s < sector + nb && s / CHUNK == c
  }

  /** A request touches exactly the chunks it has sectors in, unless it is empty: an empty request touches the chunk
      of its sector when that sector does not start a chunk, and sector 0 always. */
  lemma TouchesIs(sector: nat, nb: nat, c: nat)
    ensures nb > 0 ==> (Touches(sector, nb, c) <==> CoversChunk(sector, nb, c))
    ensures nb == 0 ==> (Touches(sector, nb, c) <==> c == sector / CHUNK && (sector % CHUNK != 0 || sector == 0))
  {
    if nb > 0 && Touches(sector, nb, c) {
      var s := if c == sector / CHUNK then sector else CHUNK * c;
      assert s / CHUNK == c;
      assert sector <= s < sector + nb;
    }
  }

  // ---- Histories ----

  datatype Event = Enable | Disable | Write(sector: nat, nb: nat) | Reset(sector: nat, nb: nat)

  /** Tracking on or off, the chunks whose bit is set, and the counter. */
  datatype State = State(on: bool, bits: set<nat>, count: int)

  ghost function Chunks(sector: nat, nb: nat): set<nat> {
    set c: nat | c <= sector + nb && Touches(sector, nb, c)
  }

  lemma InChunks(sector: nat, nb: nat, c: nat)
    ensures c in Chunks(sector, nb) <==> Touches(sector, nb, c)
  {
  }

  ghost function Changed(bits: set<nat>, cs: set<nat>, dirty: bool): set<nat> {
    if dirty then bits + cs else bits - cs
  }

  ghost function Mark(s: State, sector: nat, nb: nat, dirty: bool): State {
    var bits := Changed(s.bits, Chunks(sector, nb), dirty);
    State(s.on, bits, s.count + |bits| - |s.bits|)
  }

  /** Writes mark only while tracking is on. */
  ghost function Apply(s: State, e: Event): State {
    match e
    case Enable => State(true, s.bits, 0)
    case Disable => State(false, {}, 0)
    case Write(sector, nb) => if s.on then Mark(s, sector, nb, true) else s
    case Reset(sector, nb) => Mark(s, sector, nb, false)
  }

  ghost function Start(): State {
    State(false, {}, 0)
  }

  ghost function After(es: seq<Event>): State {
    if es == [] then Start() else Apply(After(es[..|es| - 1]), es[|es| - 1])
  }

  /** Tracking is never switched on while it is on. */
  ghost predicate EnabledOnce(es: seq<Event>) {
    forall k :: 0 <= k < |es| && es[k].Enable? ==> !After(es[..k]).on
  }

  /** Tracking is on after es: the last switch was Enable. */
  ghost predicate On(es: seq<Event>) {
    es != [] && (es[|es| - 1].Enable? || (!es[|es| - 1].Disable? && On(es[..|es| - 1])))
  }

  /** Event k of es marks c: a write that touches it, made while tracking was on. */
  ghost predicate Marks(es: seq<Event>, k: int, c: nat) {
    0 <= k < |es| && es[k].Write? && Touches(es[k].sector, es[k].nb, c) && On(es[..k])
  }

  /** Event k wipes c: a reset that touches it, or tracking being switched off. */
  ghost predicate Wipes(es: seq<Event>, k: int, c: nat) {
    0 <= k < |es| && (es[k].Disable? || (es[k].Reset? && Touches(es[k].sector, es[k].nb, c)))
  }

  /** c was marked and not wiped since. */
  ghost predicate Written(es: seq<Event>, c: nat) {
    exists k :: Marks(es, k, c) && forall j :: k < j < |es| ==> !Wipes(es, j, c)
  }

  lemma {:induction false} OnIs(es: seq<Event>)
    ensures After(es).on == On(es)
  {
    if es != [] {
      OnIs(es[..|es| - 1]);
    }
  }

  lemma WrittenSnoc(es: seq<Event>, c: nat)
    requires es != []
    ensures var p := es[..|es| - 1];
            Written(es, c) <==> Marks(es, |es| - 1, c) || (Written(p, c) && !Wipes(es, |es| - 1, c))
  {
    hide On, Touches;
    var p, n := es[..|es| - 1], |es| - 1;
    forall k | 0 <= k < n ensures Marks(es, k, c) == Marks(p, k, c) && Wipes(es, k, c) == Wipes(p, k, c) {
      assert es[..k] == p[..k];
    }
    if Written(es, c) && !Marks(es, n, c) {
      var k :| Marks(es, k, c) && forall j :: k < j < |es| ==> !Wipes(es, j, c);
      assert Marks(p, k, c) && forall j :: k < j < |p| ==> !Wipes(p, j, c);
    }
    if Written(p, c) && !Wipes(es, n, c) {
      var k :| Marks(p, k, c) && forall j :: k < j < |p| ==> !Wipes(p, j, c);
      assert Marks(es, k, c) && forall j :: k < j < |es| ==> !Wipes(es, j, c);
    }
  }

  /** In every history a chunk's bit is set exactly when it was written since it was last wiped. */
  lemma {:induction false} BitIsWritten(es: seq<Event>, c: nat)
    ensures c in After(es).bits <==> Written(es, c)
  {
    hide On, Touches, Written;
    if es == [] {
      NeverWritten(c);
    } else {
      var p := es[..|es| - 1];
      BitIsWritten(p, c);
      WrittenSnoc(es, c);
      OnIs(p);
      var e := es[|es| - 1];
      if e.Write? || e.Reset? {
        InChunks(e.sector, e.nb, c);
      }
    }
  }

  lemma NeverWritten(c: nat)
    ensures !Written([], c)
  {
  }

  /** How many bits were set when tracking was last switched on; 0 after it was switched off. */
  ghost function AtLastEnable(es: seq<Event>): nat {
    if es == [] then 0
    else
      match es[|es| - 1]
      case Enable => |After(es[..|es| - 1]).bits|
      case Disable => 0
      case _ => AtLastEnable(es[..|es| - 1])
  }

  /** In every history the counter falls short of the number of set bits by exactly the bits that were set when
      tracking was last switched on; so it is right if and only if there were none. */
  lemma {:induction false} CountExact(es: seq<Event>)
    ensures After(es).count == |After(es).bits| - AtLastEnable(es)
  {
    hide Chunks;
    if es != [] {
      CountExact(es[..|es| - 1]);
    }
  }

  /** A history that shows it: switched on again after a write, the counter says 0 and a bit is set. */
  lemma SwitchedOnTwice(es: seq<Event>)
    requires es == [Enable, Write(0, 1), Enable]
    ensures After(es).count == 0 && After(es).bits == {0}
  {
    hide Chunks;
    assert es[..2] == [Enable, Write(0, 1)] && es[..2][..1] == [Enable] && es[..1][..0] == [];
    assert After([]) == Start();
    assert After(es[..1]) == State(true, {}, 0);
    assert Chunks(0, 1) == {0} by { FirstChunk(); }
    assert After(es[..2]).bits == {0};
  }

  lemma FirstChunk()
    ensures Chunks(0, 1) == {0}
  {
  }

  lemma {:induction false} OffIsEmpty(es: seq<Event>)
    ensures !After(es).on ==> After(es).bits == {}
  {
    hide Chunks;
    if es != [] {
      OffIsEmpty(es[..|es| - 1]);
    }
  }

  lemma {:induction false} NoneAtLastEnable(es: seq<Event>)
    requires EnabledOnce(es)
    ensures AtLastEnable(es) == 0
  {
    hide Apply;
    if es != [] {
      var p := es[..|es| - 1];
      assert forall k :: 0 <= k < |p| ==> p[..k] == es[..k] && p[k] == es[k];
      NoneAtLastEnable(p);
      OffIsEmpty(p);
    }
  }

  /** Switched on only from off, the counter always is the number of set bits. */
  lemma CountIsBits(es: seq<Event>)
    requires EnabledOnce(es)
    ensures After(es).count == |After(es).bits|
  {
    CountExact(es);
    NoneAtLastEnable(es);
  }

  // ---- The bitmap itself ----

  /** The set bits of a map. */
  ghost function BitsOf(m: seq<bv64>): set<nat> {
    set c: nat | c < 64 * |m| && At(m, c)
  }

  lemma BitsOfFilled(m: seq<bv64>, m': seq<bv64>, c: nat, v: bool)
    requires Filled(m, m', c, c + 1, v) && c < 64 * |m|
    ensures BitsOf(m') == if v then BitsOf(m) + {c} else BitsOf(m) - {c}
  {
    hide At;
    var want := if v then BitsOf(m) + {c} else BitsOf(m) - {c};
    forall i: nat ensures i in BitsOf(m') <==> i in want {
      if i < 64 * |m| {
        assert At(m', i) == if i == c then v else At(m, i);
      }
    }
  }

  /** 1UL << k. */
  lemma OneBit(k: nat)
    requires k < 64
    ensures Covers(Shl(1, k), k, k + 1)
  {
    hide Bit, Shl;
    forall i | 0 <= i < 64 ensures Bit(Shl(1, k), i) <==> k <= i < k + 1 {
      BitShl(1, k, i);
      if k <= i {
        BitOne(i - k);
      }
    }
  }

  lemma TestBit(m: seq<bv64>, c: nat)
    requires c < 64 * |m|
    ensures And(m[c / 64], Shl(1, c % 64)) != 0 <==> c in BitsOf(m)
  {
    hide Bit, Shl, And;
    OneBit(c % 64);
    MaskTest(m[c / 64], Shl(1, c % 64), c % 64, c % 64 + 1);
  }

  lemma SetOne(m: seq<bv64>, c: nat, v: bool)
    requires c < 64 * |m|
    ensures BitsOf(m[c / 64 := if v then Or(m[c / 64], Shl(1, c % 64)) else And(m[c / 64], Not(Shl(1, c % 64)))])
         == if v then BitsOf(m) + {c} else BitsOf(m) - {c}
  {
    hide Filled, Covers, At, Or, And, Not, Shl, BitsOf;
    var p, k := c / 64, c % 64;
    OneBit(k);
    FilledNone(m, c, v);
    FillWord(m, m, c, p, k, k + 1, Shl(1, k), v);
    var w := if v then Or(m[p], Shl(1, k)) else And(m[p], Not(Shl(1, k)));
    BitsOfFilled(m, m[p := w], c, v);
  }

  /** The part of a BlockDriverState that tracks writes. */
  class Tracker {
    var bitmap: array?<bv64>
    var count: int
    const words: nat

    ghost predicate Valid()
      reads this
    {
      bitmap != null ==> bitmap.Length == words
    }

    ghost function View(): State
      reads this, bitmap
    {
      State(bitmap != null, if bitmap == null then {} else BitsOf(bitmap[..]), count)
    }

    constructor (words: nat)
      ensures Valid() && View() == Start() && bitmap == null && this.words == words
    {
      bitmap, count, this.words := null, 0, words;
    }

    /** One turn of the loop: chunk c. */
    method MarkChunk(c: nat, dirty: bool)
      requires Valid() && bitmap != null && c < 64 * words
      modifies this`count, bitmap
      ensures BitsOf(bitmap[..]) == Changed(old(BitsOf(bitmap[..])), {c}, dirty)
      ensures count - |BitsOf(bitmap[..])| == old(count - |BitsOf(bitmap[..])|)
    {
      hide BitsOf, And, Or, Not, Shl;
      ghost var m := bitmap[..];
      var idx, bit := c / 64, c % 64;
      var val := bitmap[idx];
      TestBit(m, c);
      SetOne(m, c, dirty);
      if dirty {
        if And(val, Shl(1, bit)) == 0 {
          count := count + 1;
          val := Or(val, Shl(1, bit));
        }
      } else {
        if And(val, Shl(1, bit)) != 0 {
          count := count - 1;
          val := And(val, Not(Shl(1, bit)));
        }
      }
      bitmap[idx] := val;
      assert bitmap[..] == m[idx := val];
      assert m[idx := m[idx]] == m;
    }

    /** set_dirty_bitmap. */
    method SetDirtyBitmap(sector: nat, nb: nat, dirty: bool)
      requires Valid() && bitmap != null && forall c :: c in Chunks(sector, nb) ==> c < 64 * words
      modifies this`count, bitmap
      ensures View() == Mark(old(View()), sector, nb, dirty)
    {
      hide BitsOf, Touches, Chunks, CDiv, Changed;
      var lo, end := sector / CHUNK, CDiv(sector + nb - 1, CHUNK);
      var start := lo;
      ghost var bits0, done: set<nat> := BitsOf(bitmap[..]), {};
      ChangedNone(bits0, dirty);
      assert Upto(done, lo, start);
      hide Upto;
      while start <= end
        invariant lo <= start && (start <= end + 1 || start == lo) && bitmap.Length == words
        invariant Upto(done, lo, start)
        invariant BitsOf(bitmap[..]) == Changed(bits0, done, dirty)
        invariant count - |BitsOf(bitmap[..])| == old(count) - |bits0|
        decreases end + 1 - start
      {
        InSpan(sector, nb, start);
        MarkChunk(start, dirty);
        ChangedMore(bits0, done, start, dirty);
        UptoNext(done, lo, start);
        done := done + {start};
        start := start + 1;
      }
      AllMarked(sector, nb, done, start);
    }

    /** bdrv_set_dirty_tracking. The bitmap is big enough for the device; a new one is all zeros. */
    method SetDirtyTracking(enable: bool)
      requires Valid()
      modifies this
      ensures Valid() && View() == Apply(old(View()), if enable then Enable else Disable)
      ensures bitmap == old(bitmap) || bitmap == null || fresh(bitmap)
    {
      count := 0;
      if enable {
        if bitmap == null {
          bitmap := new bv64[words](_ => 0);
          NoBits(bitmap[..]);
        }
      } else {
        bitmap := null;
      }
    }

    /** The end of bdrv_co_do_writev, and bdrv_reset_dirty. */
    method NoteWrite(sector: nat, nb: nat)
      requires Valid() && (bitmap != null ==> forall c :: c in Chunks(sector, nb) ==> c < 64 * words)
      modifies this`count, bitmap
      ensures View() == Apply(old(View()), Write(sector, nb))
    {
      if bitmap != null {
        SetDirtyBitmap(sector, nb, true);
      }
    }

    method ResetDirty(sector: nat, nb: nat)
      requires Valid() && bitmap != null && forall c :: c in Chunks(sector, nb) ==> c < 64 * words
      modifies this`count, bitmap
      ensures View() == Apply(old(View()), Reset(sector, nb))
    {
      SetDirtyBitmap(sector, nb, false);
    }

    /** bdrv_get_dirty; length in sectors. */
    method GetDirty(sector: nat, length: nat) returns (dirty: bool)
      requires Valid() && (sector < length ==> sector / CHUNK < 64 * words)
      ensures dirty <==> sector < length && sector / CHUNK in View().bits
    {
      hide BitsOf, And, Shl;
      dirty := false;
      var chunk := sector / CHUNK;
      if bitmap != null && sector < length {
        TestBit(bitmap[..], chunk);
        dirty := And(bitmap[chunk / 64], Shl(1, chunk % 64)) != 0;
      }
    }
  }

  ghost predicate Upto(done: set<nat>, lo: nat, hi: nat) {
    forall c :: c in done <==> lo <= c < hi
  }

  lemma UptoNext(done: set<nat>, lo: nat, hi: nat)
    requires Upto(done, lo, hi) && lo <= hi
    ensures Upto(done + {hi}, lo, hi + 1)
  {
  }

  lemma ChangedNone(bits: set<nat>, dirty: bool)
    ensures Changed(bits, {}, dirty) == bits
  {
  }

  lemma ChangedMore(bits: set<nat>, done: set<nat>, c: nat, dirty: bool)
    ensures Changed(Changed(bits, done, dirty), {c}, dirty) == Changed(bits, done + {c}, dirty)
  {
  }

  lemma NoBits(m: seq<bv64>)
    requires forall i :: 0 <= i < |m| ==> m[i] == 0
    ensures BitsOf(m) == {}
  {
    hide Bit;
    forall c: nat ensures c !in BitsOf(m) {
      if c < 64 * |m| {
        BitZero(c % 64);
      }
    }
  }

  lemma InSpan(sector: nat, nb: nat, c: nat)
    requires sector / CHUNK <= c <= CDiv(sector + nb - 1, CHUNK)
    ensures c in Chunks(sector, nb)
  {
  }

  lemma AllMarked(sector: nat, nb: nat, done: set<nat>, start: nat)
    requires Upto(done, sector / CHUNK, start)
    requires start > CDiv(sector + nb - 1, CHUNK)
    requires (start <= CDiv(sector + nb - 1, CHUNK) + 1 || start == sector / CHUNK)
    ensures done == Chunks(sector, nb)
  {
    forall c: nat ensures c in done <==> c in Chunks(sector, nb) {
      InChunks(sector, nb, c);
    }
  }
}
