/** RAM migration end to end: the sender's stages, the guest's stores between them and the receiver's ram_load of
    each section, composed. */
module RamEndToEnd {
  import opened Common
  import opened Wire
  import opened RamStream
  import opened RamMigration
  import opened RamLive

  // ---- A section is loaded whole ----

  /** No record of sec ends the section: ram_load goes on with whatever follows. */
  ghost predicate Open(r: Receiver, sec: seq<Byte>) {
    Replay(r, sec).Loaded? && forall t :: LoadSection(r, sec + t) == LoadSection(Replay(r, sec).r, t)
  }

  lemma OpenNothing(r: Receiver)
    ensures Open(r, [])
  {
    hide LoadSection, LoadOne;
    forall t: seq<Byte> ensures LoadSection(r, [] + t) == LoadSection(Replay(r, []).r, t) {
      assert [] + t == t;
    }
  }

  /** One more record that does not end the section. */
  lemma OpenMore(r: Receiver, sec: seq<Byte>, rec: seq<Byte>)
    requires Open(r, sec) && rec != []
    requires var o := LoadOne(Replay(r, sec).r, rec); o.Loaded? && o.rest == [] && !o.eos
    ensures Open(r, sec + rec) && Replay(r, sec + rec) == Loaded(LoadOne(Replay(r, sec).r, rec).r, [], true)
  {
    hide LoadOne, Replay;
    var r1 := Replay(r, sec).r;
    var o := LoadOne(r1, rec);
    ReplayAppend(r, sec, rec);
    ReplaySingle(r1, rec);
    forall t: seq<Byte> ensures LoadSection(r, sec + rec + t) == LoadSection(o.r, t) {
      assert sec + rec + t == sec + (rec + t);
      LoadOneExtend(r1, rec, t);
      assert [] + t == t;
    }
  }

  lemma OpenCloses(r: Receiver, sec: seq<Byte>)
    requires Open(r, sec)
    ensures LoadSection(r, sec + EncodeEos()) == Loaded(Replay(r, sec).r, [], true)
  {
    hide LoadOne, Replay, EncodeEos;
    EosRoundTrip(Replay(r, sec).r);
  }

  /** The sender is inside a section that began after `pre`. */
  ghost predicate InSection(s: Sender, r0: Receiver, pre: seq<Byte>) {
    pre <= s.out && Replay(r0, pre).Loaded? && Open(Replay(r0, pre).r, s.out[|pre|..])
  }

  /** Where the receiver will put the page at x. */
  lemma RecordTarget(s: Sender, r0: Receiver, x: Pos) returns (b: nat)
    requires Inv(s, r0) && ValidPos(s.blocks, x)
    requires s.last.None? ==> x == Pos(0, 0)
    ensures s.blocks[x.b].Valid()
    ensures var r, blk := Replay(r0, s.out).r, s.blocks[x.b];
            && FindBlock(r.blocks, blk.id) == Some(b)
            && (x.p + 1) * PAGE <= r.blocks[b].length < U64
            && (Continues(s, x) ==> r.cur == Some(b))
  {
    hide Replay, LoadOne, CleanSame, AllDirty;
    var blk := s.blocks[x.b];
    assert blk.Valid();
    assert AcceptsBlock(r0.blocks, blk);
    b := FindBlock(r0.blocks, blk.id).value;
    PageFits(blk, x.p);
    BlockWithinTotal(s.blocks, x.b);
  }

  lemma RecordLoads(r: Receiver, b: nat, id: seq<Byte>, p: nat, cont: bool, page: Page)
    requires |id| < 256 && 0 !in id && FindBlock(r.blocks, id) == Some(b)
    requires (p + 1) * PAGE <= r.blocks[b].length < U64
    requires cont ==> r.cur == Some(b)
    ensures var rec := EncodePage(id, p * PAGE, cont, page);
            rec != [] && var o := LoadOne(r, rec); o.Loaded? && o.rest == [] && !o.eos
  {
    hide Be, UnBe, LoadOne, EncodePage;
    PageRoundTrip(r, b, id, p * PAGE, cont, page);
    RecordNotEmpty(r, EncodePage(id, p * PAGE, cont, page));
  }

  /** What ram_save_block emits is a record that does not end the section. */
  lemma EmitRecord(s: Sender, r0: Receiver, x: Pos) returns (rec: seq<Byte>)
    requires Inv(s, r0) && ValidPos(s.blocks, x)
    requires s.last.None? ==> x == Pos(0, 0)
    requires FrameOf(s.blocks, x) in s.dirty
    ensures Emit(s, x).out == s.out + rec && rec != []
    ensures var o := LoadOne(Replay(r0, s.out).r, rec); o.Loaded? && o.rest == [] && !o.eos
  {
    hide Replay, LoadOne, EncodePage, FindBlock, Continues, CleanSame, AllDirty, Accepts, SameBlock;
    var b := RecordTarget(s, r0, x);
    var id, page := s.blocks[x.b].id, s.mem[FrameOf(s.blocks, x)];
    RecordLoads(Replay(r0, s.out).r, b, id, x.p, Continues(s, x), page);
    rec := EncodePage(id, x.p * PAGE, Continues(s, x), page);
  }

  lemma RecordNotEmpty(r: Receiver, rec: seq<Byte>)
    requires LoadOne(r, rec).Loaded?
    ensures rec != []
  {
  }

  lemma StaysOpen(s: Sender, r0: Receiver, pre: seq<Byte>, t: Sender, rec: seq<Byte>)
    requires InSection(s, r0, pre) && t.out == s.out + rec && rec != []
    requires Replay(r0, s.out).Loaded?
    requires var o := LoadOne(Replay(r0, s.out).r, rec); o.Loaded? && o.rest == [] && !o.eos
    ensures InSection(t, r0, pre)
  {
    hide Replay, LoadOne, Open;
    var sec, r := s.out[|pre|..], Replay(r0, pre).r;
    assert s.out == pre + sec && t.out[|pre|..] == sec + rec;
    ReplayAppend(r0, pre, sec);
    OpenMore(r, sec, rec);
  }

  lemma InvValid(s: Sender, r0: Receiver)
    requires Inv(s, r0)
    ensures ValidSender(s)
  {
  }

  lemma SaveStays(s: Sender, r0: Receiver, pre: seq<Byte>)
    requires Inv(s, r0) && InSection(s, r0, pre)
    ensures Inv(SaveBlock(s), r0) && InSection(SaveBlock(s), r0, pre)
  {
    hide InSection;
    SaveKeeps(s, r0);
    if SaveTarget(s).Some? {
      if s.last.None? {
        NullLastStopsAtOnce(s);
      }
      var rec := EmitRecord(s, r0, SaveTarget(s).value);
      StaysOpen(s, r0, pre, SaveBlock(s), rec);
    }
  }

  lemma {:induction false} SavesStay(s: Sender, r0: Receiver, pre: seq<Byte>, k: nat)
    requires Inv(s, r0) && InSection(s, r0, pre)
    ensures ValidSender(s) && Inv(SaveN(s, k), r0) && InSection(SaveN(s, k), r0, pre)
    decreases k
  {
    hide InSection, SaveBlock, Inv, ValidSender;
    InvValid(s, r0);
    if k > 0 {
      SavesStay(s, r0, pre, k - 1);
      SaveStays(SaveN(s, k - 1), r0, pre);
    }
  }

  lemma {:induction false} FlushStays(s: Sender, r0: Receiver, pre: seq<Byte>)
    requires Inv(s, r0) && InSection(s, r0, pre)
    ensures ValidSender(s) && Inv(Flush(s), r0) && InSection(Flush(s), r0, pre)
    decreases |s.dirty|
  {
    hide InSection, SaveBlock, Inv, ValidSender;
    InvValid(s, r0);
    if s.dirty != {} {
      SaveBlockEffect(s);
      SaveStays(s, r0, pre);
      FlushStays(SaveBlock(s), r0, pre);
    }
  }

  lemma BeginStays(bs: seq<RAMBlock>, mem: map<nat, Page>, r0: Receiver)
    requires SenderLayout(bs) && (forall x :: ValidPos(bs, x) ==> FrameOf(bs, x) in mem)
    requires r0.Valid() && Accepts(r0.blocks, bs)
    ensures Inv(Begin(bs, mem), r0) && InSection(Begin(bs, mem), r0, [])
  {
    hide LoadOne, EncodeStart, Accepts, Open;
    BeginEstablishes(bs, mem, r0);
    StartRoundTrip(r0, bs);
    OpenNothing(r0);
    var rec := EncodeStart(bs);
    RecordNotEmpty(r0, rec);
    assert Replay(r0, []).r == r0;
    OpenMore(r0, [], rec);
    assert [] + rec == rec && Begin(bs, mem).out[0..] == rec;
  }

  /** When the section ends, ram_load of its bytes brings a receiver that had loaded everything before up to date. */
  lemma SectionLoads(s: Sender, r0: Receiver, pre: seq<Byte>)
    requires Inv(s, r0) && InSection(s, r0, pre)
    ensures var t := EndSection(s);
            && Inv(t, r0) && |pre| <= |t.out| && Replay(r0, t.out).Loaded?
            && LoadSection(Replay(r0, pre).r, t.out[|pre|..]) == Loaded(Replay(r0, t.out).r, [], true)
            && InSection(t, r0, t.out)
  {
    hide Replay, LoadOne, Open, LoadSection, EncodeEos;
    var sec, r := s.out[|pre|..], Replay(r0, pre).r;
    var t := EndSection(s);
    EndSectionKeeps(s, r0);
    InvLoaded(t, r0);
    InvLoaded(s, r0);
    assert s.out == pre + sec && t.out[|pre|..] == sec + EncodeEos();
    ReplayAppend(r0, pre, sec);
    OpenReplays(r, sec);
    OpenCloses(r, sec);
    EosAfter(r0, s.out);
    OpenNothing(Replay(r0, t.out).r);
    assert t.out[|t.out|..] == [];
  }

  lemma OpenReplays(r: Receiver, sec: seq<Byte>)
    requires Open(r, sec)
    ensures Replay(r, sec).Loaded?
  {
  }

  lemma InvLoaded(s: Sender, r0: Receiver)
    requires Inv(s, r0)
    ensures Replay(r0, s.out).Loaded?
  {
  }

  lemma EosAfter(r0: Receiver, out: seq<Byte>)
    requires Replay(r0, out).Loaded?
    ensures Replay(r0, out + EncodeEos()).Loaded? && Replay(r0, out + EncodeEos()).r == Replay(r0, out).r
  {
    hide Be, LoadOne;
    var r := Replay(r0, out).r;
    EosRoundTrip(r);
    ReplaySingle(r, EncodeEos());
    ReplayAppend(r0, out, EncodeEos());
  }

  // ---- The two machines together ----

  /** Between sections: the receiver holds what the stream so far makes of r0. */
  ghost predicate InStep(src: RamSender, dst: RamReceiver, r0: Receiver)
    reads src, src.physDirty, dst
  {
    && src.Valid() && Inv(src.View(), r0) && InSection(src.View(), r0, src.out)
    && Replay(r0, src.out).Loaded? && Replay(r0, src.out).r == dst.View()
  }

  datatype Store = Store(x: Pos, page: Page)

  /** Guest memory after a number of stores. */
  function AfterStores(bs: seq<RAMBlock>, mem: map<nat, Page>, ws: seq<Store>): map<nat, Page>
    requires forall i :: 0 <= i < |ws| ==> ValidPos(bs, ws[i].x)
  {
    if ws == [] then mem
    else AfterStores(bs, mem, ws[..|ws| - 1])[FrameOf(bs, ws[|ws| - 1].x) := ws[|ws| - 1].page]
  }

  /** The guest runs for a while. */
  method GuestRuns(src: RamSender, dst: RamReceiver, ws: seq<Store>, ghost r0: Receiver)
    requires InStep(src, dst, r0) && forall i :: 0 <= i < |ws| ==> ValidPos(src.blocks, ws[i].x)
    modifies src`host, src.physDirty
    ensures InStep(src, dst, r0) && src.blocks == old(src.blocks) && src.out == old(src.out)
    ensures src.host == AfterStores(src.blocks, old(src.host), ws)
  {
    hide Inv, ValidSender, Open, FrameOf, SenderLayout;
    for i := 0 to |ws|
      invariant InStep(src, dst, r0) && src.blocks == old(src.blocks) && src.out == old(src.out)
      invariant src.host == AfterStores(src.blocks, old(src.host), ws[..i])
    {
      ghost var s := src.View();
      src.GuestStore(ws[i].x, ws[i].page);
      GuestWriteKeeps(s, r0, ws[i].x, ws[i].page);
      assert ws[..i + 1][..i] == ws[..i];
    }
    assert ws[..|ws|] == ws;
  }

  /** Load what the sender put on the stream since the last section. */
  method LoadNew(src: RamSender, dst: RamReceiver, before: nat, ghost s: Sender, ghost pre: seq<Byte>,
                 ghost r0: Receiver)
    requires src.Valid() && src.View() == EndSection(s) && Inv(s, r0) && InSection(s, r0, pre)
    requires before == |pre| && Replay(r0, pre).r == dst.View()
    modifies dst
    ensures InStep(src, dst, r0)
  {
    hide Inv, InSection, Open, ValidSender, Replay, LoadSection, LoadOne, EndSection;
    SectionLoads(s, r0, pre);
    var ok, rest := dst.Load(src.out[before..]);
  }

  /** The rate limiter never reports an error. */
  ghost predicate NoError(rate: nat -> int) {
    forall i :: rate(i) >= 0
  }

  /** Stage 2 or 3 of ram_save_live and ram_load of the section it puts. */
  method Section(src: RamSender, dst: RamReceiver, stage: int, rate: nat -> int, fits: bool, ghost r0: Receiver)
    returns (ret: int)
    requires InStep(src, dst, r0) && (stage == 2 || stage == 3)
    modifies src, src.physDirty, dst
    ensures src.blocks == old(src.blocks) && src.host == old(src.host)
    ensures ret >= 0 ==> InStep(src, dst, r0) && (stage == 3 ==> src.View().dirty == {})
    ensures NoError(rate) ==> ret >= 0
  {
    hide Inv, Open, ValidSender, Replay, LoadSection, LoadOne, EndSection, SaveN, Flush;
    ghost var s, pre := src.View(), src.out;
    var before := |src.out|;
    ghost var k;
    ret, k := src.SaveLive(stage, false, [], rate, fits);
    SameMemory(s, k);
    if ret >= 0 {
      SavesStay(s, r0, pre, k);
      FlushStays(s, r0, pre);
      FlushKeeps(s, r0);
      ghost var t := if stage == 3 then Flush(s) else SaveN(s, k);
      Ended(t);
      LoadNew(src, dst, before, t, pre, r0);
    }
  }

  lemma {:induction false} SameMemory(s: Sender, k: nat)
    requires ValidSender(s)
    ensures SaveN(s, k).mem == s.mem && SaveN(s, k).blocks == s.blocks
    decreases k
  {
    hide ValidSender, SaveTarget;
    if k > 0 {
      SameMemory(s, k - 1);
    }
  }

  lemma Ended(s: Sender)
    ensures EndSection(s).mem == s.mem && EndSection(s).blocks == s.blocks && EndSection(s).dirty == s.dirty
  {
  }

  /** Stage 1 and the section it puts. */
  method FirstSection(src: RamSender, dst: RamReceiver, sorted: seq<RAMBlock>, rate: nat -> int) returns (ret: int)
    requires src.Sane() && src.out == [] && SortOf(sorted, src.blocks)
    requires dst.View().Valid() && Accepts(dst.blocks, sorted)
    modifies src, src.physDirty, dst
    ensures src.host == old(src.host)
    ensures ret >= 0 ==> src.blocks == sorted && InStep(src, dst, old(dst.View()))
    ensures NoError(rate) ==> ret >= 0
  {
    hide Inv, Open, ValidSender, Replay, LoadSection, LoadOne, EndSection, SaveN, Begin, Accepts, SortOf;
    ghost var r0, mem := dst.View(), src.host;
    RamSender.SoundOfSort(sorted, src.blocks, src.host, src.physDirty.Length);
    BeginStays(sorted, mem, r0);
    BeginIs(sorted, mem);
    ghost var s := Begin(sorted, mem);
    InvValid(s, r0);
    ghost var k;
    ret, k := src.SaveLive(1, false, sorted, rate, false);
    SameMemory(s, k);
    if ret >= 0 {
      SavesStay(s, r0, [], k);
      Ended(SaveN(s, k));
      NothingReplayed(r0);
      LoadNew(src, dst, 0, SaveN(s, k), [], r0);
    }
  }

  lemma BeginIs(bs: seq<RAMBlock>, mem: map<nat, Page>)
    requires SenderLayout(bs)
    ensures Begin(bs, mem).blocks == bs && Begin(bs, mem).mem == mem
  {
  }

  lemma NothingReplayed(r: Receiver)
    ensures Replay(r, []).Loaded? && Replay(r, []).r == r
  {
  }

  /** One round of stage 2: what the guest stores before it, and the answers during it. */
  datatype Round = Round(stores: seq<Store>, rate: nat -> int, fits: bool)

  ghost function AllStores(rounds: seq<Round>): seq<Store> {
    if rounds == [] then [] else AllStores(rounds[..|rounds| - 1]) + rounds[|rounds| - 1].stores
  }

  ghost predicate OnRam(bs: seq<RAMBlock>, ws: seq<Store>) {
    forall i :: 0 <= i < |ws| ==> ValidPos(bs, ws[i].x)
  }

  lemma {:induction false} AllOnRam(bs: seq<RAMBlock>, rounds: seq<Round>)
    requires forall i :: 0 <= i < |rounds| ==> OnRam(bs, rounds[i].stores)
    ensures OnRam(bs, AllStores(rounds))
  {
    if rounds != [] {
      AllOnRam(bs, rounds[..|rounds| - 1]);
    }
  }

  lemma {:induction false} StoresAppend(bs: seq<RAMBlock>, mem: map<nat, Page>, ws: seq<Store>, us: seq<Store>)
    requires OnRam(bs, ws) && OnRam(bs, us)
    ensures OnRam(bs, ws + us) && AfterStores(bs, mem, ws + us) == AfterStores(bs, AfterStores(bs, mem, ws), us)
    decreases |us|
  {
    hide FrameOf;
    if us == [] {
      assert ws + us == ws;
    } else {
      StoresAppend(bs, mem, ws, us[..|us| - 1]);
      assert (ws + us)[..|ws + us| - 1] == ws + us[..|us| - 1];
    }
  }

  /** A whole migration: stage 1, any number of rounds of stage 2 with the guest running before each, and stage 3 with
      the guest stopped; the receiver loads every section. Unless the rate limiter reports an error the receiver's RAM
      ends equal to the guest's, with every store the guest made. */
  method Migrate(src: RamSender, dst: RamReceiver, sorted: seq<RAMBlock>,
                 rate1: nat -> int, rounds: seq<Round>, rate3: nat -> int) returns (ok: bool)
    requires src.Sane() && src.out == [] && SortOf(sorted, src.blocks)
    requires dst.View().Valid() && Accepts(dst.blocks, sorted)
    requires forall i :: 0 <= i < |rounds| ==> OnRam(sorted, rounds[i].stores)
    modifies src, src.physDirty, dst
    ensures ok ==> src.Sane() && SameRam(src.View(), dst.View()) && src.blocks == sorted
    ensures ok ==> OnRam(sorted, AllStores(rounds)) && src.host == AfterStores(sorted, old(src.host), AllStores(rounds))
    ensures NoError(rate1) && NoError(rate3) && (forall j :: 0 <= j < |rounds| ==> NoError(rounds[j].rate)) ==> ok
  {
    hide InStep, Inv, Accepts, SortOf, AfterStores, SameRam, Open, FrameOf;
    ghost var r0 := dst.View();
    var ret := FirstSection(src, dst, sorted, rate1);
    if ret < 0 {
      return false;
    }
    NoStores(sorted, src.host);
    for i := 0 to |rounds|
      invariant InStep(src, dst, r0) && src.blocks == sorted && OnRam(sorted, AllStores(rounds[..i]))
      invariant src.host == AfterStores(sorted, old(src.host), AllStores(rounds[..i]))
    {
      GuestRuns(src, dst, rounds[i].stores, r0);
      StoresAppend(sorted, old(src.host), AllStores(rounds[..i]), rounds[i].stores);
      assert rounds[..i + 1][..i] == rounds[..i];
      ret := Section(src, dst, 2, rounds[i].rate, rounds[i].fits, r0);
      if ret < 0 {
        return false;
      }
    }
    assert rounds[..|rounds|] == rounds;
    ret := Section(src, dst, 3, rate3, false, r0);
    if ret < 0 {
      return false;
    }
    AllClean(src, dst, r0);
    ok := true;
  }

  lemma NoStores(bs: seq<RAMBlock>, mem: map<nat, Page>)
    ensures OnRam(bs, []) && AfterStores(bs, mem, []) == mem
  {
  }

  /** With nothing dirty, every page is the same at both ends. */
  lemma AllClean(src: RamSender, dst: RamReceiver, r0: Receiver)
    requires InStep(src, dst, r0) && src.View().dirty == {}
    ensures src.Sane() && SameRam(src.View(), dst.View())
  {
  }
}
