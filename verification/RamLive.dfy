/** The imperative code of RAM migration: `ram_save_block`, `ram_save_live` and `ram_load` over
    their static variables and the phys_dirty array, each tied to the state machine. */
module RamLive {
  import opened Common
  import opened Wire
  import opened RamStream
  import opened RamMigration

  const MIGRATION_DIRTY_FLAG: bv8 := 0x08

  /** addr >> TARGET_PAGE_BITS. */
  function PageIndex(addr: nat): nat {
    addr / PAGE
  }

  predicate IsDirty(flags: bv8) {
    flags & MIGRATION_DIRTY_FLAG != 0
  }

  /** The frames of guest RAM whose migration flag is set in phys_dirty. */
  ghost function DirtyFrames(bs: seq<RAMBlock>, phys: seq<bv8>): set<nat> {
    set x | x in AllPos(bs) && FrameOf(bs, x) < |phys| && IsDirty(phys[FrameOf(bs, x)]) :: FrameOf(bs, x)
  }

  lemma DirtyFramesIff(bs: seq<RAMBlock>, phys: seq<bv8>, x: Pos)
    requires ValidPos(bs, x) && FrameOf(bs, x) < |phys|
    ensures FrameOf(bs, x) in DirtyFrames(bs, phys) <==> IsDirty(phys[FrameOf(bs, x)])
  {
  }

  lemma ClearedFrame(bs: seq<RAMBlock>, phys: seq<bv8>, f: nat, v: bv8)
    requires f < |phys| && !IsDirty(v)
    ensures DirtyFrames(bs, phys[f := v]) == DirtyFrames(bs, phys) - {f}
  {
    var phys' := phys[f := v];
    forall g | g in DirtyFrames(bs, phys) && g != f ensures g in DirtyFrames(bs, phys') {
      var x :| x in AllPos(bs) && FrameOf(bs, x) == g;
      DirtyFramesIff(bs, phys', x);
    }
  }

  function Masked(v: bv8, flags: bv8): bv8 {
    v & !flags
  }

  /** Clearing the migration flag leaves the other flags alone. */
  lemma MaskClears(v: bv8)
    ensures !IsDirty(Masked(v, MIGRATION_DIRTY_FLAG))
    ensures Masked(v, MIGRATION_DIRTY_FLAG) & 0xf7 == v & 0xf7
  {
  }

  ghost function SaveN(s: Sender, k: nat): (t: Sender)
    requires ValidSender(s)
    ensures ValidSender(t)
  {
    if k == 0 then s
    else
      SaveBlockEffect(SaveN(s, k - 1));
      SaveBlock(SaveN(s, k - 1))
  }

  /** What the rate-limited loop does is a run of the state machine. */
  lemma {:induction false} SavesAreRun(s: Sender, k: nat)
    requires ValidSender(s)
    ensures Runs(s, seq(k, _ => Save), SaveN(s, k))
  {
    hide Runs, SaveBlock, ValidSender;
    if k == 0 {
      RunsNothing(s);
      assert seq(0, _ => Save) == [];
    } else {
      SavesAreRun(s, k - 1);
      RunsSnoc(s, seq(k - 1, _ => Save), SaveN(s, k - 1), Save);
      assert seq(k, _ => Save) == seq(k - 1, _ => Save) + [Save];
    }
  }

  lemma RunsNothing(s: Sender)
    ensures Runs(s, [], s)
  {
  }

  lemma FlushStep(s: Sender)
    requires ValidSender(s)
    ensures ValidSender(SaveBlock(s)) && Flush(SaveBlock(s)) == Flush(s)
  {
    hide SaveBlock, ValidSender;
    SaveBlockEffect(s);
  }

  /** Saves made before the flush do not change where the flush ends. */
  lemma {:induction false} FlushAfterSaves(s: Sender, k: nat)
    requires ValidSender(s)
    ensures Flush(SaveN(s, k)) == Flush(s)
  {
    hide Flush, SaveBlock, ValidSender;
    if k > 0 {
      FlushAfterSaves(s, k - 1);
      FlushStep(SaveN(s, k - 1));
    }
  }

  /** sorted is bs in ascending order of offsets: what sort_ram_list makes of it. */
  ghost predicate SortOf(sorted: seq<RAMBlock>, bs: seq<RAMBlock>) {
    multiset(sorted) == multiset(bs) && forall i, j :: 0 <= i < j < |sorted| ==> sorted[i].offset <= sorted[j].offset
  }

  lemma {:induction false} TotalWithout(bs: seq<RAMBlock>, i: nat)
    requires i < |bs|
    ensures TotalBytes(bs) == bs[i].length + TotalBytes(bs[..i] + bs[i + 1..])
  {
    var rest := bs[..i] + bs[i + 1..];
    if i == 0 {
      assert rest == bs[1..];
    } else {
      TotalWithout(bs[1..], i - 1);
      assert bs[1..][..i - 1] + bs[1..][i..] == rest[1..] && rest[0] == bs[0];
    }
  }

  lemma WithoutOne<T>(a: seq<T>, b: seq<T>, i: nat)
    requires a != [] && multiset(a) == multiset(b) && i < |b| && b[i] == a[0]
    ensures multiset(a[1..]) == multiset(b[..i] + b[i + 1..])
  {
    assert a == [a[0]] + a[1..] && b == b[..i] + [b[i]] + b[i + 1..];
    assert multiset(a) == multiset{a[0]} + multiset(a[1..]);
    assert multiset(b) == multiset(b[..i]) + multiset{b[i]} + multiset(b[i + 1..]);
    assert multiset(a[1..]) == multiset(a) - multiset{a[0]};
    assert multiset(b[..i] + b[i + 1..]) == multiset(b) - multiset{b[i]};
  }

  lemma {:induction false} TotalOfSort(a: seq<RAMBlock>, b: seq<RAMBlock>)
    requires multiset(a) == multiset(b)
    ensures TotalBytes(a) == TotalBytes(b)
    decreases |a|
  {
    if a == [] {
      assert |multiset(b)| == 0;
    } else {
      assert a[0] in multiset(b);
      var i :| 0 <= i < |b| && b[i] == a[0];
      TotalWithout(b, i);
      WithoutOne(a, b, i);
      TotalOfSort(a[1..], b[..i] + b[i + 1..]);
    }
  }

  lemma TwiceInSort(a: seq<RAMBlock>, i: nat, j: nat)
    requires i < j < |a| && a[i] == a[j]
    ensures multiset(a)[a[i]] >= 2
  {
    assert a == a[..j] + ([a[j]] + a[j + 1..]);
    assert a[i] in a[..j];
  }

  lemma {:induction false} OnceInLayout(b: seq<RAMBlock>, x: RAMBlock)
    requires forall i, j :: 0 <= i < j < |b| ==> b[i].id != b[j].id
    ensures multiset(b)[x] <= 1
  {
    if b != [] {
      assert b == [b[0]] + b[1..];
      OnceInLayout(b[1..], x);
      if b[0] == x {
        assert x !in b[1..];
      }
    }
  }

  /** Sorting keeps the layout. */
  lemma LayoutOfSort(sorted: seq<RAMBlock>, bs: seq<RAMBlock>)
    requires multiset(sorted) == multiset(bs) && SenderLayout(bs)
    ensures SenderLayout(sorted)
  {
    TotalOfSort(sorted, bs);
    assert bs[0] in multiset(sorted);
    forall i | 0 <= i < |sorted| ensures sorted[i].Valid() {
      assert sorted[i] in multiset(bs);
    }
    forall i, j | 0 <= i < j < |sorted| ensures sorted[i].id != sorted[j].id && Disjoint(sorted[i], sorted[j]) {
      PairOfSort(sorted, bs, i, j);
    }
  }

  lemma PairOfSort(sorted: seq<RAMBlock>, bs: seq<RAMBlock>, i: nat, j: nat)
    requires multiset(sorted) == multiset(bs) && ValidLayout(bs) && i < j < |sorted|
    ensures sorted[i].id != sorted[j].id && Disjoint(sorted[i], sorted[j])
  {
    OnceInLayout(bs, sorted[i]);
    if sorted[i] == sorted[j] {
      TwiceInSort(sorted, i, j);
    }
    assert sorted[i] in multiset(bs) && sorted[j] in multiset(bs);
    var p :| 0 <= p < |bs| && bs[p] == sorted[i];
    var q :| 0 <= q < |bs| && bs[q] == sorted[j];
    assert p < q || q < p;
  }

  /** Every byte of the page is the same. */
  predicate Uniform(page: Page) {
    forall i :: 0 <= i < PAGE ==> page[i] == page[0]
  }

  /** The record put for the page at `offset` of a block: whether the header word carries 0x20, what else it carries,
      and the bytes behind it. */
  ghost predicate IsRecord(rec: seq<Byte>, id: seq<Byte>, offset: nat, cont: bool, page: Page) {
    && |id| < 256
    && |rec| == 8 + (if cont then 0 else 1 + |id|) + (if Uniform(page) then 1 else PAGE)
    && (UnBe(rec[..8]) / 0x20 % 2 == 1 <==> cont)
    && UnBe(rec[..8]) == offset + (if cont then 0x20 else 0) + (if Uniform(page) then 0x02 else 0x08)
    && rec[8..] == (if cont then [] else [|id|] + id) + (if Uniform(page) then [page[0]] else page)
  }

  /** One save, in terms of the stream and the list: the page saved is the first dirty one from the last position on, it
      alone becomes clean, and its record carries 0x20 exactly when the save before was in the same block. */
  lemma SaveIs(s: Sender)
    requires ValidSender(s) && s.dirty != {}
    ensures var t := SaveBlock(s);
            && t == s.(dirty := t.dirty, last := t.last, out := t.out) && s.out <= t.out
            && t.last.Some? && ValidPos(s.blocks, t.last.value)
            && var x, f := t.last.value, FrameOf(s.blocks, t.last.value);
               && f in s.dirty && t.dirty == s.dirty - {f} && f in s.mem
               && IsRecord(t.out[|s.out|..], s.blocks[x.b].id, x.p * PAGE,
                           s.last.Some? && s.last.value.b == x.b, s.mem[f])
               && FirstFrom(s, x)
  {
    hide FrameOf, SaveTarget, EncodePage, Scan, Passed;
    SaveTargetIsFirstDirty(s);
    var x := SaveTarget(s).value;
    forall y | ValidPos(s.blocks, y) && Passed(if s.last.Some? then s.last.value else Pos(0, 0), y, x)
      ensures FrameOf(s.blocks, y) !in s.dirty
    {
      NonePassed(s, y);
    }
    RecordIs(s, x);
  }

  /** No page passed on the way from the last position to x, round the end if need be, is dirty. */
  ghost predicate FirstFrom(s: Sender, x: Pos) {
    forall y :: ValidPos(s.blocks, y) && Passed(if s.last.Some? then s.last.value else Pos(0, 0), y, x) ==>
      FrameOf(s.blocks, y) !in s.dirty
  }

  lemma FlagTells(rec: seq<Byte>, id: seq<Byte>, offset: nat, cont: bool, page: Page)
    requires IsRecord(rec, id, offset, cont, page)
    ensures |rec| >= 8 && (UnBe(rec[..8]) / 0x20 % 2 == 1 <==> cont)
  {
  }

  lemma RecordIs(s: Sender, x: Pos)
    requires ValidSender(s) && ValidPos(s.blocks, x)
    ensures FrameOf(s.blocks, x) in s.mem && s.out <= Emit(s, x).out
    ensures IsRecord(Emit(s, x).out[|s.out|..], s.blocks[x.b].id, x.p * PAGE, s.last.Some? && s.last.value.b == x.b,
                     s.mem[FrameOf(s.blocks, x)])
  {
    hide EncodePage, UnBe, FrameOf, IsRecord;
    var blk := s.blocks[x.b];
    assert blk.Valid();
    PageFits(blk, x.p);
    BlockWithinTotal(s.blocks, x.b);
    var cont, page := s.last.Some? && s.last.value.b == x.b, s.mem[FrameOf(s.blocks, x)];
    EncodedIsRecord(blk.id, x.p, cont, page);
    var rec := EncodePage(blk.id, x.p * PAGE, cont, page);
    assert (s.out + rec)[|s.out|..] == rec;
  }

  lemma EncodedIsRecord(id: seq<Byte>, p: nat, cont: bool, page: Page)
    requires |id| < 256 && (p + 1) * PAGE < U64
    ensures IsRecord(EncodePage(id, p * PAGE, cont, page), id, p * PAGE, cont, page)
  {
    hide EncodePage, UnBe;
    PageBytes(id, p * PAGE, cont, page);
    FlagBit(p, cont, Uniform(page));
  }

  lemma FlagBit(p: nat, cont: bool, dup: bool)
    ensures (p * PAGE + (if cont then 0x20 else 0) + (if dup then 0x02 else 0x08)) / 0x20 % 2 == 1 <==> cont
  {
    BitFive(16 * p, (if cont then 0x20 else 0) + (if dup then 0x02 else 0x08));
  }

  lemma BitFive(q: nat, low: nat)
    requires low < 0x40
    ensures (0x40 * q + low) / 0x20 % 2 == 1 <==> low >= 0x20
  {
    var h := if low >= 0x20 then 1 else 0;
    assert 0x40 * q + low == 0x20 * (2 * q + h) + (low - 0x20 * h);
    assert (0x40 * q + low) / 0x20 == 2 * q + h;
  }

  /** What ram_save_block returns: 0, or the bytes of the page put on the stream. */
  ghost function Payload(s: Sender): nat
    requires ValidSender(s)
  {
    if s.dirty == {} then 0
    else
      SaveIs(s);
      if Uniform(s.mem[FrameOf(s.blocks, SaveBlock(s).last.value)]) then 1 else PAGE
  }

  ghost function PayloadN(s: Sender, k: nat): nat
    requires ValidSender(s)
  {
    if k == 0 then 0 else PayloadN(s, k - 1) + Payload(SaveN(s, k - 1))
  }

  lemma NoSaves(s: Sender)
    requires ValidSender(s)
    ensures SaveN(s, 0) == s && PayloadN(s, 0) == 0
  {
  }

  lemma OneMoreSave(s: Sender, k: nat)
    requires ValidSender(s)
    ensures SaveN(s, k + 1) == SaveBlock(SaveN(s, k)) && PayloadN(s, k + 1) == PayloadN(s, k) + Payload(SaveN(s, k))
  {
  }

  ghost function FlushPayload(s: Sender): nat
    requires ValidSender(s)
    decreases |s.dirty|
  {
    if s.dirty == {} then 0
    else
      SaveBlockEffect(s);
      Payload(s) + FlushPayload(SaveBlock(s))
  }

  lemma {:induction false} FlushPayloadAfter(s: Sender, k: nat)
    requires ValidSender(s)
    ensures PayloadN(s, k) + FlushPayload(SaveN(s, k)) == FlushPayload(s)
  {
    hide SaveBlock, ValidSender, Payload;
    if k > 0 {
      FlushPayloadAfter(s, k - 1);
      var t := SaveN(s, k - 1);
      FlushPayloadStep(t);
    }
  }

  lemma FlushPayloadStep(s: Sender)
    requires ValidSender(s)
    ensures ValidSender(SaveBlock(s)) && FlushPayload(s) == Payload(s) + FlushPayload(SaveBlock(s))
  {
    hide SaveBlock, ValidSender;
    SaveBlockEffect(s);
  }

  /** The source side: ram_list, phys_dirty, last_block, last_offset and the stream. */
  class RamSender {
    var blocks: seq<RAMBlock>
    var host: map<nat, Page>
    const physDirty: array<bv8>
    var lastBlock: Option<nat>
    var lastOffset: nat
    var bytesTransferred: nat
    var tracking: bool
    var out: seq<Byte>

    constructor (blocks: seq<RAMBlock>, host: map<nat, Page>, physDirty: array<bv8>)
      requires Sound(blocks, host, physDirty.Length)
      ensures this.blocks == blocks && this.host == host && this.physDirty == physDirty && out == []
      ensures lastBlock == None && lastOffset == 0 && Sane()
    {
      this.blocks, this.host, this.physDirty := blocks, host, physDirty;
      lastBlock, lastOffset, bytesTransferred, tracking, out := None, 0, 0, false, [];
    }

    /** Blocks are well formed, backed by memory and covered by phys_dirty. */
    static ghost predicate Sound(bs: seq<RAMBlock>, host: map<nat, Page>, len: nat) {
      && SenderLayout(bs)
      && forall x :: ValidPos(bs, x) ==> FrameOf(bs, x) in host && FrameOf(bs, x) < len
    }

    ghost predicate Sane()
      reads this
    {
      && Sound(blocks, host, physDirty.Length)
      && lastOffset % PAGE == 0
      && (lastBlock.None? ==> lastOffset == 0)
      && (lastBlock.Some? ==> ValidPos(blocks, Pos(lastBlock.value, lastOffset / PAGE)))
    }

    ghost function View(): (s: Sender)
      requires Sane()
      reads this, physDirty
      ensures ValidSender(s)
    {
      Sender(blocks, host, DirtyFrames(blocks, physDirty[..]),
             if lastBlock.None? then None else Some(Pos(lastBlock.value, lastOffset / PAGE)), out)
    }

    /** What ram_save_block relies on: a null last_block only while every page is dirty. */
    ghost predicate Valid()
      reads this, physDirty
    {
      Sane() && (lastBlock.None? ==> AllDirty(View()))
    }

    /** cpu_physical_memory_mask_dirty_range. */
    method MaskDirtyRange(start: nat, length: nat, flags: bv8)
      requires PageIndex(start) + PageIndex(length) <= physDirty.Length
      modifies physDirty
      ensures forall i :: 0 <= i < physDirty.Length ==>
        physDirty[i] == if PageIndex(start) <= i < PageIndex(start) + PageIndex(length)
                        then Masked(old(physDirty[i]), flags)
                        else old(physDirty[i])
    {
      hide PageIndex, Masked;
      var p := PageIndex(start);
      for i := 0 to PageIndex(length)
        invariant forall j :: 0 <= j < physDirty.Length ==>
          physDirty[j] == if p <= j < p + i then Masked(old(physDirty[j]), flags) else old(physDirty[j])
      {
        physDirty[p + i] := Masked(physDirty[p + i], flags);
      }
    }

    /** The page record of ram_save_block, in the order its pieces are put. */
    method PutPage(b: nat, offset: nat, cont: bool, ghost x: Pos) returns (bytesSent: nat)
      requires Sane() && ValidPos(blocks, x) && b == x.b && offset == x.p * PAGE
      modifies `out
      ensures blocks[b].Valid()
      ensures out == old(out) + EncodePage(blocks[b].id, offset, cont, host[FrameOf(blocks, x)])
      ensures bytesSent == if Uniform(host[FrameOf(blocks, x)]) then 1 else PAGE
    {
      hide Be;
      var block := blocks[b];
      assert block.Valid();
      AddressFrame(blocks, x);
      var p := host[PageIndex(block.offset + offset)];
      var dup := IsDupPage(p, p[0]);
      var word := Be(8, PageHeader(offset, cont, if dup then FLAG_COMPRESS else FLAG_PAGE));
      out := out + word;
      if !cont {
        out := out + [|block.id|];
        out := out + block.id;
      }
      if dup {
        out := out + [p[0]];
        bytesSent := 1;
      } else {
        out := out + p;
        bytesSent := PAGE;
      }
      AppendPieces(old(out), word, cont, block.id, if dup then [p[0]] else p);
    }

    static lemma AppendEntry(o: seq<Byte>, id: seq<Byte>, w: seq<Byte>, tail: seq<Byte>)
      requires |id| < 256
      ensures o + [|id|] + id + w + tail == o + (IdField(id) + w + tail)
    {
    }

    static lemma AppendPieces(o: seq<Byte>, w: seq<Byte>, cont: bool, id: seq<Byte>, body: seq<Byte>)
      requires |id| < 256
      ensures cont ==> o + w + body == o + (w + [] + body)
      ensures !cont ==> o + w + [|id|] + id + body == o + (w + IdField(id) + body)
    {
    }

    /** phys_dirty says what s says about every page. */
    static ghost predicate Agrees(s: Sender, physDirty: array<bv8>)
      reads physDirty
    {
      forall x :: ValidPos(s.blocks, x) ==>
        && FrameOf(s.blocks, x) < physDirty.Length
        && (IsDirty(physDirty[FrameOf(s.blocks, x)]) <==> FrameOf(s.blocks, x) in s.dirty)
    }

    /** The do-while scan of ram_save_block: from the last position, round all blocks, until a dirty
        page or back at the start. last_block is only read when it is not null. */
    static method FindDirty(blocks: seq<RAMBlock>, physDirty: array<bv8>, lastBlock: Option<nat>, lastOffset: nat,
                            ghost s: Sender)
      returns (found: bool, b: nat, offset: nat, ghost x: Pos)
      requires ValidSender(s) && s.blocks == blocks && Agrees(s, physDirty)
      requires lastBlock == (if s.last.Some? then Some(s.last.value.b) else None) && lastOffset == Start(s).p * PAGE
      requires lastBlock.None? ==> AllDirty(s)
      ensures ValidPos(blocks, x) && b == x.b && offset == x.p * PAGE
      ensures found ==> SaveTarget(s) == Some(x)
      ensures !found ==> SaveTarget(s) == None && lastBlock == Some(b) && offset == lastOffset
    {
      hide IsDirty, SaveTarget, Next, Advance, TotalPages, CleanFor, ValidLayout, PageIndex, TotalBytes, RAMBlock.Frame,
           RAMBlock.Pages;
      ScanBegins(s);
      x := Start(s);
      b := if lastBlock.None? then 0 else lastBlock.value;
      offset := lastOffset;
      ghost var k := 0;
      while true
        invariant ValidPos(blocks, x) && b == x.b && offset == x.p * PAGE
        invariant k < TotalPages(blocks) && x == Advance(blocks, Start(s), k)
        invariant CleanFor(blocks, s.dirty, Start(s), k)
        invariant lastBlock.None? ==> x == Start(s)
        decreases TotalPages(blocks) - k
      {
        var frame := PageIndex(blocks[b].offset + offset);
        AddressFrame(blocks, x);
        if IsDirty(physDirty[frame]) {
          TargetAt(s, k);
          return true, b, offset, x;
        }
        ScanGoesOn(s, k);
        offset, b := Successor(blocks, b, offset, x);
        x, k := Next(blocks, x), k + 1;
        SameAddress(blocks, x, Start(s));
        if blocks[b].offset + offset == blocks[lastBlock.value].offset + lastOffset {
          return false, b, offset, x;
        }
      }
    }

    /** ram_save_block. It moves exactly as the state machine does: it returns 0 and changes nothing
        when no page is dirty, and otherwise sends and cleans the first dirty page in circular order. */
    method SaveBlockLive() returns (bytesSent: nat)
      requires Valid()
      modifies this`lastBlock, this`lastOffset, this`out, physDirty
      ensures Valid() && View() == SaveBlock(old(View()))
      ensures bytesSent == 0 <==> old(View().dirty) == {}
      ensures bytesSent == 0 ==> out == old(out) && lastBlock == old(lastBlock) && lastOffset == old(lastOffset)
      ensures bytesSent != 0 ==>
              && old(out) <= out && lastBlock.Some? && lastBlock.value < |blocks|
              && lastOffset < blocks[lastBlock.value].length
              && var blk := blocks[lastBlock.value];
                 var f := (blk.offset + lastOffset) / 1024;
                 && f in old(View().dirty) && View().dirty == old(View().dirty) - {f} && f in host
                 && IsRecord(out[|old(out)|..], blk.id, lastOffset, lastBlock == old(lastBlock), host[f])
                 && bytesSent == (if Uniform(host[f]) then 1 else PAGE)
      ensures bytesSent != 0 ==>
              |out| >= |old(out)| + 8 &&
              (UnBe(out[|old(out)|..][..8]) / 0x20 % 2 == 1 <==> old(lastBlock).Some? && lastBlock == old(lastBlock))
      ensures bytesSent != 0 ==> FirstFrom(old(View()), Pos(lastBlock.value, lastOffset / PAGE))
      ensures bytesSent == Payload(old(View()))
      ensures forall i :: 0 <= i < physDirty.Length ==> physDirty[i] & 0xf7 == old(physDirty[i]) & 0xf7
    {
      hide DirtyFrames, SaveTarget, AllDirty, EncodePage, Agrees, Scan, IsDirty, ValidSender, RAMBlock.Frame,
           RAMBlock.Pages, IsRecord, FirstFrom, Uniform;
      ghost var s := View();
      SaveTargetIsFirstDirty(s);
      ViewAgrees();
      var found, b, offset, x := FindDirty(blocks, physDirty, lastBlock, lastOffset, s);
      if found {
        bytesSent := SendPage(b, offset, x, s);
        SaveIs(s);
        AddressFrame(blocks, x);
        PageFits(blocks[b], x.p);
        FlagTells(out[|old(out)|..], blocks[b].id, offset, lastBlock == old(lastBlock), host[FrameOf(blocks, x)]);
      } else {
        assert physDirty[..] == old(physDirty[..]);
        lastBlock := Some(b);
        lastOffset := offset;
        bytesSent := 0;
      }
    }

    /** ram_save_block as the loops of ram_save_live use it. */
    method SaveNext() returns (bytesSent: nat)
      requires Valid()
      modifies this`lastBlock, this`lastOffset, this`out, physDirty
      ensures Valid() && View() == SaveBlock(old(View()))
      ensures (bytesSent == 0 <==> old(View().dirty) == {}) && bytesSent == Payload(old(View()))
    {
      hide SaveBlock, Payload, IsRecord, FirstFrom, DirtyFrames, AllDirty, Sound;
      bytesSent := SaveBlockLive();
    }

    lemma ViewAgrees()
      requires Sane()
      ensures Agrees(View(), physDirty) && lastOffset == Start(View()).p * PAGE
    {
      forall x | ValidPos(blocks, x)
        ensures IsDirty(physDirty[FrameOf(blocks, x)]) <==> FrameOf(blocks, x) in View().dirty
      {
        DirtyFramesIff(blocks, physDirty[..], x);
      }
    }

    /** The body of the scan loop once a dirty page is found, and the two assignments after it. */
    method SendPage(b: nat, offset: nat, ghost x: Pos, ghost s: Sender) returns (bytesSent: nat)
      requires Sane() && View() == s
      requires ValidPos(blocks, x) && b == x.b && offset == x.p * PAGE && SaveTarget(s) == Some(x)
      modifies this`lastBlock, this`lastOffset, this`out, physDirty
      ensures Valid() && View() == SaveBlock(s) && lastBlock == Some(b) && lastOffset == offset
      ensures FrameOf(blocks, x) in host && bytesSent == if Uniform(host[FrameOf(blocks, x)]) then 1 else PAGE
      ensures old(out) <= out
      ensures IsRecord(out[|old(out)|..], blocks[b].id, offset, old(lastBlock) == Some(b), host[FrameOf(blocks, x)])
      ensures forall i :: 0 <= i < physDirty.Length ==> physDirty[i] & 0xf7 == old(physDirty[i]) & 0xf7
    {
      var cont := lastBlock == Some(b);
      hide DirtyFrames, EncodePage, IsDup, Scan, AllPos, IsDirty, AllDirty, SaveTarget, RAMBlock.Frame, RAMBlock.Pages,
           IsRecord;
      CleanPage(b, offset, x);
      bytesSent := PutPage(b, offset, cont, x);
      lastBlock := Some(b);
      lastOffset := offset;
      assert lastOffset / PAGE == x.p;
      assert View() == Emit(s, x);
      RecordIs(s, x);
    }

    /** cpu_physical_memory_reset_dirty on one page with MIGRATION_DIRTY_FLAG. */
    method CleanPage(b: nat, offset: nat, ghost x: Pos)
      requires Sane() && ValidPos(blocks, x) && b == x.b && offset == x.p * PAGE
      modifies physDirty
      ensures DirtyFrames(blocks, physDirty[..]) ==
              old(DirtyFrames(blocks, physDirty[..])) - {FrameOf(blocks, x)}
      ensures forall i :: 0 <= i < physDirty.Length ==> physDirty[i] & 0xf7 == old(physDirty[i]) & 0xf7
    {
      hide DirtyFrames, IsDirty;
      var current := blocks[b].offset + offset;
      AddressFrame(blocks, x);
      ghost var f := FrameOf(blocks, x);
      MaskDirtyRange(current, PAGE, MIGRATION_DIRTY_FLAG);
      MaskClears(old(physDirty[f]));
      assert physDirty[..] == old(physDirty[..])[f := Masked(old(physDirty[f]), MIGRATION_DIRTY_FLAG)];
      ClearedFrame(blocks, old(physDirty[..]), f, physDirty[f]);
    }

    /** The advance of the scan: next page, else the first page of the next block, else of the first. */
    static method Successor(blocks: seq<RAMBlock>, b: nat, offset: nat, ghost x: Pos) returns (offset': nat, b': nat)
      requires ValidLayout(blocks) && ValidPos(blocks, x) && b == x.b && offset == x.p * PAGE
      ensures b' == Next(blocks, x).b && offset' == Next(blocks, x).p * PAGE
      ensures ValidPos(blocks, Next(blocks, x))
    {
      NextValid(blocks, x);
      assert blocks[b].Valid();
      offset', b' := offset + PAGE, b;
      if offset' >= blocks[b].length {
        offset' := 0;
        b' := b + 1;
        if b' == |blocks| {
          b' := 0;
        }
      }
    }

    static lemma AddressFrame(bs: seq<RAMBlock>, x: Pos)
      requires ValidLayout(bs) && ValidPos(bs, x)
      ensures PageIndex(bs[x.b].offset + x.p * PAGE) == FrameOf(bs, x)
    {
      assert bs[x.b].Valid();
    }

    /** Equal ram addresses are the same page of the same block. */
    static lemma SameAddress(bs: seq<RAMBlock>, x: Pos, y: Pos)
      requires ValidLayout(bs) && ValidPos(bs, x) && ValidPos(bs, y)
      ensures bs[x.b].offset + x.p * PAGE == bs[y.b].offset + y.p * PAGE <==> x == y
    {
      assert bs[x.b].Valid() && bs[y.b].Valid();
      if bs[x.b].offset + x.p * PAGE == bs[y.b].offset + y.p * PAGE {
        FrameInjective(bs, x, y);
      }
    }

    /** ram_save_remaining: the number of dirty pages. */
    method SaveRemaining() returns (count: nat)
      requires Sane()
      ensures count == |View().dirty|
    {
      hide Counted, IsDirty, AllPos, TotalBytes, Disjoint;
      count := 0;
      ghost var d := View().dirty;
      ghost var seen: set<nat> := {};
      CountedStart(d);
      for b := 0 to |blocks|
        invariant count == |seen| && Counted(d, seen, b, 0)
      {
        assert blocks[b].Valid();
        var addr := blocks[b].offset;
        ghost var p := 0;
        while addr < blocks[b].offset + blocks[b].length
          invariant addr == blocks[b].offset + p * PAGE && p <= blocks[b].Pages()
          invariant count == |seen| && Counted(d, seen, b, p)
        {
          ghost var x := Pos(b, p);
          AddressFrame(blocks, Pos(b, p));
          DirtyFramesIff(blocks, physDirty[..], x);
          CountedStep(d, seen, x);
          if IsDirty(physDirty[PageIndex(addr)]) {
            count := count + 1;
            seen := seen + {FrameOf(blocks, x)};
          }
          addr := addr + PAGE;
          p := p + 1;
        }
        CountedBlockEnd(d, seen, b);
      }
      CountedAll(d, seen);
    }

    lemma CountedStart(d: set<nat>)
      ensures Counted(d, {}, 0, 0)
    {
    }

    lemma CountedAll(d: set<nat>, seen: set<nat>)
      requires Counted(d, seen, |blocks|, 0)
      requires forall f :: f in d ==> InRam(blocks, f)
      ensures seen == d
    {
      forall f | f in d ensures f in seen {
        var x :| ValidPos(blocks, x) && FrameOf(blocks, x) == f;
      }
    }

    /** `seen` is the part of the dirty set before page p of block b. */
    ghost predicate Counted(d: set<nat>, seen: set<nat>, b: nat, p: nat)
      reads this
    {
      && (forall f :: f in seen ==>
            f in d && exists x :: ValidPos(blocks, x) && FrameOf(blocks, x) == f && (x.b < b || (x.b == b && x.p < p)))
      && (forall x :: ValidPos(blocks, x) && FrameOf(blocks, x) in d && (x.b < b || (x.b == b && x.p < p)) ==>
            FrameOf(blocks, x) in seen)
    }

    lemma CountedStep(d: set<nat>, seen: set<nat>, x: Pos)
      requires ValidLayout(blocks) && ValidPos(blocks, x) && Counted(d, seen, x.b, x.p)
      ensures FrameOf(blocks, x) !in seen
      ensures Counted(d, if FrameOf(blocks, x) in d then seen + {FrameOf(blocks, x)} else seen, x.b, x.p + 1)
    {
      var f := FrameOf(blocks, x);
      if f in seen {
        var y :| ValidPos(blocks, y) && FrameOf(blocks, y) == f && (y.b < x.b || (y.b == x.b && y.p < x.p));
        FrameInjective(blocks, x, y);
      }
      var seen' := if f in d then seen + {f} else seen;
      forall g | g in seen'
        ensures g in d
        ensures exists y :: ValidPos(blocks, y) && FrameOf(blocks, y) == g && (y.b < x.b || (y.b == x.b && y.p <= x.p))
      {
        if g != f {
          var y :| ValidPos(blocks, y) && FrameOf(blocks, y) == g && (y.b < x.b || (y.b == x.b && y.p < x.p));
        }
      }
    }

    lemma CountedBlockEnd(d: set<nat>, seen: set<nat>, b: nat)
      requires b < |blocks| && Counted(d, seen, b, blocks[b].Pages())
      ensures Counted(d, seen, b + 1, 0)
    {
      forall f | f in seen
        ensures f in d
        ensures exists x :: ValidPos(blocks, x) && FrameOf(blocks, x) == f && (x.b < b + 1 || (x.b == b + 1 && x.p < 0))
      {
        var x :| ValidPos(blocks, x) && FrameOf(blocks, x) == f && (x.b < b || (x.b == b && x.p < blocks[b].Pages()));
      }
    }

    /** Stage 1 marks every page that is not marked. */
    method MarkAllDirty()
      requires Sane()
      modifies physDirty
      ensures Sane() && AllDirty(View())
      ensures forall i :: 0 <= i < physDirty.Length ==>
                physDirty[i] == if InRam(blocks, i) && !IsDirty(old(physDirty[i])) then 0xff else old(physDirty[i])
    {
      hide IsDirty;
      AllSet(0xff);
      for b := 0 to |blocks|
        invariant forall x :: ValidPos(blocks, x) && x.b < b ==> IsDirty(physDirty[FrameOf(blocks, x)])
        invariant forall i :: 0 <= i < physDirty.Length ==> Marked(old(physDirty[i]), physDirty[i], i)
      {
        assert blocks[b].Valid();
        var addr := blocks[b].offset;
        ghost var p := 0;
        while addr < blocks[b].offset + blocks[b].length
          invariant addr == blocks[b].offset + p * PAGE && p <= blocks[b].Pages()
          invariant forall x :: ValidPos(blocks, x) && (x.b < b || (x.b == b && x.p < p)) ==>
                    IsDirty(physDirty[FrameOf(blocks, x)])
          invariant forall i :: 0 <= i < physDirty.Length ==> Marked(old(physDirty[i]), physDirty[i], i)
        {
          AddressFrame(blocks, Pos(b, p));
          assert PageIndex(addr) == FrameOf(blocks, Pos(b, p));
          if !IsDirty(physDirty[PageIndex(addr)]) {
            physDirty[PageIndex(addr)] := 0xff;
          }
          addr := addr + PAGE;
          p := p + 1;
        }
      }
      forall x | ValidPos(blocks, x) ensures FrameOf(blocks, x) in View().dirty {
        DirtyFramesIff(blocks, physDirty[..], x);
      }
    }

    /** The flags of frame i are as they were, or it is a page of RAM that was not marked and is now. */
    ghost predicate Marked(was: bv8, now: bv8, i: nat)
      reads this
    {
      now == was || (InRam(blocks, i) && !IsDirty(was) && now == 0xff)
    }

    static lemma SoundOfSort(sorted: seq<RAMBlock>, bs: seq<RAMBlock>, host: map<nat, Page>, len: nat)
      requires SortOf(sorted, bs) && Sound(bs, host, len)
      ensures Sound(sorted, host, len)
    {
      hide SenderLayout;
      LayoutOfSort(sorted, bs);
      forall x | ValidPos(sorted, x) ensures FrameOf(sorted, x) in host && FrameOf(sorted, x) < len {
        assert sorted[x.b] in multiset(bs);
        var b :| 0 <= b < |bs| && bs[b] == sorted[x.b];
        assert ValidPos(bs, Pos(b, x.p)) && FrameOf(bs, Pos(b, x.p)) == FrameOf(sorted, x);
      }
    }

    /** A guest store to page x: memory changes and all dirty flags of the page are set. */
    method GuestStore(x: Pos, page: Page)
      requires Valid() && ValidPos(blocks, x)
      modifies this`host, physDirty
      ensures Valid() && View() == GuestWrite(old(View()), x, page)
      ensures host == old(host)[FrameOf(blocks, x) := page]
      ensures physDirty[..] == old(physDirty[..])[FrameOf(blocks, x) := 0xff]
    {
      hide SenderLayout, FrameOf;
      var f := FrameOf(blocks, x);
      ghost var phys := physDirty[..];
      host := host[f := page];
      physDirty[f] := 0xff;
      assert physDirty[..] == phys[f := 0xff];
      MarkedFrame(blocks, phys, x, 0xff);
    }

    static lemma MarkedFrame(bs: seq<RAMBlock>, phys: seq<bv8>, x: Pos, v: bv8)
      requires ValidPos(bs, x) && FrameOf(bs, x) < |phys| && v == 0xff
      ensures DirtyFrames(bs, phys[FrameOf(bs, x) := v]) == DirtyFrames(bs, phys) + {FrameOf(bs, x)}
    {
      var f := FrameOf(bs, x);
      var phys' := phys[f := v];
      AllSet(v);
      DirtyFramesIff(bs, phys', x);
      forall g | g in DirtyFrames(bs, phys) ensures g in DirtyFrames(bs, phys') {
        var y :| y in AllPos(bs) && FrameOf(bs, y) == g;
        DirtyFramesIff(bs, phys', y);
      }
    }

    static lemma AllSet(v: bv8)
      requires v == 0xff
      ensures IsDirty(v)
    {
    }

    /** The stage-1 part of ram_save_live. `sorted` is what sort_ram_list makes of the list. */
    method BeginLive(sorted: seq<RAMBlock>)
      requires Sane() && out == []
      requires SortOf(sorted, blocks)
      modifies this, physDirty
      ensures SenderLayout(sorted) && host == old(host)
      ensures Valid() && View() == Begin(sorted, old(host)) && bytesTransferred == 0 && tracking
    {
      hide SortOf;
      SoundOfSort(sorted, blocks, host, physDirty.Length);
      bytesTransferred := 0;
      lastBlock := None;
      lastOffset := 0;
      blocks := sorted;
      MarkAllDirty();
      tracking := true;
      PutBlockList();
      assert View().dirty == Begin(sorted, host).dirty;
    }

    /** The stage-1 preamble: total, then id and length of each block. */
    method PutBlockList()
      requires SenderLayout(blocks)
      modifies `out
      ensures out == old(out) + EncodeStart(blocks)
    {
      hide Be, TotalBytes, IdField;
      out := out + Be(8, TotalBytes(blocks) + FLAG_MEM_SIZE);
      ghost var w := out;
      for i := 0 to |blocks|
        invariant out + EncodeBlockList(blocks[i..]) == w + EncodeBlockList(blocks)
      {
        assert blocks[i].Valid();
        assert blocks[i..] == [blocks[i]] + blocks[i + 1..];
        var block, before := blocks[i], out;
        out := out + [|block.id|];
        out := out + block.id;
        out := out + Be(8, block.length);
        AppendEntry(before, block.id, Be(8, block.length), EncodeBlockList(blocks[i + 1..]));
      }
      assert blocks[|blocks|..] == [];
      assert w + EncodeBlockList(blocks) == old(out) + EncodeStart(blocks);
    }

    /** ram_save_live for stages 1 to 3. `rate(k)` is the k-th answer of qemu_file_rate_limit, and
        `fits` says whether the remaining pages are expected to fit in the allowed downtime. */
    method SaveLive(stage: int, syncFails: bool, sorted: seq<RAMBlock>, rate: nat -> int, fits: bool)
      returns (ret: int, ghost k: nat)
      requires stage == 1 ==> Sane() && out == [] && SortOf(sorted, blocks)
      requires stage != 1 ==> Valid()
      modifies this, physDirty
      ensures stage < 0 || syncFails ==>
        && unchanged(physDirty) && out == old(out) && blocks == old(blocks) && host == old(host)
        && lastBlock == old(lastBlock) && lastOffset == old(lastOffset) && bytesTransferred == old(bytesTransferred)
        && tracking == (if stage < 0 then false else old(tracking))
        && ret == (if stage < 0 then 0 else -EINVAL)
      ensures stage >= 0 && !syncFails ==>
        && Valid()
        && (stage == 1 ==> SenderLayout(sorted))
        && var s := if stage == 1 then Begin(sorted, old(host)) else old(View());
           && ValidSender(s)
           && (ret < 0 ==> View() == SaveN(s, k))
           && (ret >= 0 && stage != 3 ==> View() == EndSection(SaveN(s, k)))
           && (ret >= 0 && stage == 3 ==> View() == EndSection(Flush(s)))
           && bytesTransferred == (if stage == 1 then 0 else old(bytesTransferred)) +
                (if ret >= 0 && stage == 3 then FlushPayload(s) else PayloadN(s, k))
           && tracking == (stage == 1 || (old(tracking) && !(stage == 3 && ret >= 0)))
      ensures ret >= 0 && !syncFails && stage >= 0 ==> (ret == 1 <==> stage == 2 && fits)
      ensures stage >= 0 && !syncFails ==> forall i :: 0 <= i < k ==> rate(i) == 0
      ensures stage >= 0 && !syncFails ==>
              if ret < 0 then ret == rate(k) else stage == 3 || rate(k) > 0 || View().dirty == {}
    {
      hide DirtyFrames, SaveBlock, Flush, Begin, EncodeStart, Be, IsDirty, Sound, ValidSender, SaveN, PayloadN,
           FlushPayload;
      k := 0;
      if stage < 0 {
        tracking := false;
        return 0, 0;
      }
      if syncFails {
        return -EINVAL, 0;
      }
      if stage == 1 {
        BeginLive(sorted);
      }
      ghost var s := View();
      ret, k := SaveUnderLimit(rate);
      if ret < 0 {
        return;
      }
      if stage == 3 {
        FlushAfterSaves(s, k);
        FlushPayloadAfter(s, k);
        FlushLive(s);
        tracking := false;
      }
      out := out + Be(8, FLAG_EOS);
      ret := if stage == 2 && fits then 1 else 0;
    }

    /** The rate-limited loop: save pages until the limit is hit or none is dirty. */
    method SaveUnderLimit(rate: nat -> int) returns (ret: int, ghost k: nat)
      requires Valid()
      modifies this, physDirty
      ensures Valid() && View() == SaveN(old(View()), k) && host == old(host) && tracking == old(tracking)
      ensures bytesTransferred == old(bytesTransferred) + PayloadN(old(View()), k)
      ensures (forall i :: 0 <= i < k ==> rate(i) == 0) && (if ret == 0 then View().dirty == {} else ret == rate(k))
    {
      hide DirtyFrames, SaveBlock, Flush, EncodeStart, Be, IsDirty, Sound, ValidSender, AllDirty, Payload, SaveN,
           PayloadN;
      ghost var s := View();
      NoSaves(s);
      k := 0;
      var calls := 0;
      ret := rate(calls);
      while ret == 0
        invariant Valid() && View() == SaveN(s, k) && host == old(host) && tracking == old(tracking)
        invariant bytesTransferred == old(bytesTransferred) + PayloadN(s, k)
        invariant calls == k && ret == rate(k) && forall i :: 0 <= i < k ==> rate(i) == 0
        decreases ret == 0, |View().dirty|
      {
        SaveBlockEffect(View());
        OneMoreSave(s, k);
        var bytesSent := SaveNext();
        k := k + 1;
        bytesTransferred := bytesTransferred + bytesSent;
        if bytesSent == 0 {
          break;
        }
        calls := calls + 1;
        ret := rate(calls);
      }
    }

    /** Stage 3 saves until nothing is dirty, without asking the rate limiter; the dirty count is the measure. */
    method FlushLive(ghost s: Sender)
      requires Valid() && ValidSender(s) && Flush(View()) == Flush(s)
      modifies this, physDirty
      ensures Valid() && View() == Flush(s) && host == old(host)
      ensures bytesTransferred == old(bytesTransferred) + FlushPayload(old(View()))
    {
      hide DirtyFrames, SaveBlock, AllDirty, ValidSender, Sound, IsDirty, Payload;
      ghost var target := Flush(s);
      SaveBlockEffect(View());
      ghost var before := View();
      var bytesSent := SaveNext();
      while bytesSent != 0
        invariant Valid() && ValidSender(before) && View() == SaveBlock(before) && Flush(before) == target
        invariant (bytesSent == 0 <==> before.dirty == {}) && bytesSent == Payload(before) && host == old(host)
        invariant bytesTransferred + FlushPayload(before) == old(bytesTransferred + FlushPayload(View()))
        decreases bytesSent != 0, |View().dirty|
      {
        bytesTransferred := bytesTransferred + bytesSent;
        FlushPayloadStep(before);
        before := View();
        SaveBlockEffect(before);
        bytesSent := SaveNext();
      }
      assert before.dirty == {};
      SaveBlockEffect(before);
    }
  }

  /** The destination side of ram_load. */
  class RamReceiver {
    var blocks: seq<RAMBlock>
    var mem: map<nat, Page>
    var cur: Option<nat>

    constructor (blocks: seq<RAMBlock>, mem: map<nat, Page>)
      ensures View() == Receiver(blocks, mem, None)
    {
      this.blocks, this.mem, cur := blocks, mem, None;
    }

    ghost function View(): Receiver
      reads this
    {
      Receiver(blocks, mem, cur)
    }

    /** ram_load on one section of a stream. */
    method Load(s: seq<Byte>) returns (ok: bool, rest: seq<Byte>)
      modifies this
      ensures ok <==> LoadSection(old(View()), s).Loaded?
      ensures ok ==> LoadSection(old(View()), s) == Loaded(View(), rest, true)
    {
      rest := s;
      var eos := false;
      ghost var whole := LoadSection(View(), s);
      while !eos
        invariant eos ==> whole == Loaded(View(), rest, true)
        invariant !eos ==> whole == LoadSection(View(), rest)
        decreases !eos, |rest|
      {
        match LoadOne(Receiver(blocks, mem, cur), rest) {
          case Loaded(r, t, e) =>
            blocks, mem, cur, rest, eos := r.blocks, r.mem, r.cur, t, e;
          case _ =>
            return false, rest;
        }
      }
      return true, rest;
    }
  }
}
