/** The RAM section of the migration stream: the layout of guest RAM, the records the sender
    writes and the decoder that replays them (version 4 of the format). */
module RamStream {
  import opened Wire

  /** TARGET_PAGE_SIZE; the ARM target has TARGET_PAGE_BITS == 10. */
  const PAGE: nat := 1024

  const FLAG_COMPRESS: nat := 0x02
  const FLAG_MEM_SIZE: nat := 0x04
  const FLAG_PAGE: nat := 0x08
  const FLAG_EOS: nat := 0x10
  const FLAG_CONTINUE: nat := 0x20

  type Page = p: seq<Byte> | |p| == PAGE witness seq(PAGE, _ => 0)

  function Fill(ch: Byte): Page
  {
    seq(PAGE, _ => ch)
  }

  /* ---- layout ---- */

  /** A RAM block; its host memory is addressed here by frame, that is by ram_addr / PAGE. */
  datatype RAMBlock = RAMBlock(id: seq<Byte>, offset: nat, length: nat) {
    predicate Valid() {
      && |id| < 256 && 0 !in id
      && offset % PAGE == 0 && length % PAGE == 0 && length > 0
    }
    function Pages(): nat { length / PAGE }
    function Frame(p: nat): nat { offset / PAGE + p }
  }

  predicate Disjoint(a: RAMBlock, b: RAMBlock) {
    a.offset + a.length <= b.offset || b.offset + b.length <= a.offset
  }

  predicate ValidLayout(bs: seq<RAMBlock>) {
    && (forall i :: 0 <= i < |bs| ==> bs[i].Valid())
    && (forall i, j :: 0 <= i < j < |bs| ==> bs[i].id != bs[j].id && Disjoint(bs[i], bs[j]))
  }

  function TotalBytes(bs: seq<RAMBlock>): nat {
    if bs == [] then 0 else bs[0].length + TotalBytes(bs[1..])
  }

  lemma {:induction false} TotalBytesAligned(bs: seq<RAMBlock>)
    requires forall i :: 0 <= i < |bs| ==> bs[i].Valid()
    ensures TotalBytes(bs) % PAGE == 0
    ensures bs != [] ==> TotalBytes(bs) > 0
  {
    if bs != [] {
      TotalBytesAligned(bs[1..]);
    }
  }

  /** First block with the given id: the QLIST_FOREACH / strncmp search. */
  function FindBlock(bs: seq<RAMBlock>, id: seq<Byte>): (r: Option<nat>)
    ensures r.Some? ==> r.value < |bs| && bs[r.value].id == id
    ensures r.None? ==> forall i :: 0 <= i < |bs| ==> bs[i].id != id
  {
    if bs == [] then None
    else if bs[0].id == id then Some(0)
    else match FindBlock(bs[1..], id)
      case None => None
      case Some(i) => Some(i + 1)
  }

  /* ---- encoder ---- */

  /** is_dup_page: every byte of the page is ch. */
  predicate IsDup(page: Page, ch: Byte) {
    forall i :: 0 <= i < PAGE ==> page[i] == ch
  }

  /** The page compared word by word against the repeated byte. */
  function WordAt(page: Page, i: nat): nat
    requires 4 * i + 3 < PAGE
  {
    (page[4 * i] as int) + 0x100 * (page[4 * i + 1] as int) + 0x10000 * (page[4 * i + 2] as int) +
      0x1000000 * (page[4 * i + 3] as int)
  }

  /** Comparing 32-bit words compares their four bytes. */
  lemma WordEqualsRepeated(a: int, b: int, c: int, d: int, ch: int)
    requires 0 <= a < 256 && 0 <= b < 256 && 0 <= c < 256 && 0 <= d < 256 && 0 <= ch < 256
    ensures a + 0x100 * b + 0x10000 * c + 0x1000000 * d == 0x1010101 * ch <==> a == ch && b == ch && c == ch && d == ch
  {
    if a + 0x100 * b + 0x10000 * c + 0x1000000 * d == 0x1010101 * ch {
      assert (a - ch) + 0x100 * (b - ch) + 0x10000 * (c - ch) + 0x1000000 * (d - ch) == 0;
    }
  }

  method IsDupPage(page: Page, ch: Byte) returns (dup: bool)
    ensures dup <==> IsDup(page, ch)
  {
    var val := 0x1010101 * (ch as int);
    for i := 0 to PAGE / 4
      invariant forall j :: 0 <= j < 4 * i ==> page[j] == ch
    {
      WordEqualsRepeated(page[4 * i], page[4 * i + 1], page[4 * i + 2], page[4 * i + 3], ch);
      if WordAt(page, i) != val {
        return false;
      }
    }
    return true;
  }

  function IdField(id: seq<Byte>): seq<Byte>
    requires |id| < 256
  {
    [|id|] + id
  }

  /** The header word of a page record: offset, CONTINUE and kind are bits of one word, and the
      offset of a page has none of the flag bits set. */
  function PageHeader(offset: nat, cont: bool, kind: nat): nat {
    offset + (if cont then FLAG_CONTINUE else 0) + kind
  }

  function EncodePage(id: seq<Byte>, offset: nat, cont: bool, page: Page): seq<Byte>
    requires |id| < 256
  {
    var name := if cont then [] else IdField(id);
    if IsDup(page, page[0])
    then Be(8, PageHeader(offset, cont, FLAG_COMPRESS)) + name + [page[0]]
    else Be(8, PageHeader(offset, cont, FLAG_PAGE)) + name + page
  }

  function EncodeBlockList(bs: seq<RAMBlock>): seq<Byte>
    requires forall i :: 0 <= i < |bs| ==> bs[i].Valid()
  {
    if bs == [] then [] else
    assert bs[0].Valid();
    IdField(bs[0].id) + Be(8, bs[0].length) + EncodeBlockList(bs[1..])
  }

  /** The stage-1 preamble: total size, then id and length of every block. */
  function EncodeStart(bs: seq<RAMBlock>): seq<Byte>
    requires forall i :: 0 <= i < |bs| ==> bs[i].Valid()
  {
    Be(8, TotalBytes(bs) + FLAG_MEM_SIZE) + EncodeBlockList(bs)
  }

  function EncodeEos(): seq<Byte> {
    Be(8, FLAG_EOS)
  }

  /* ---- decoder ---- */

  /** The destination: its blocks, its memory by frame, and the block `host_from_stream_offset`
      remembers between records. */
  datatype Receiver = Receiver(blocks: seq<RAMBlock>, mem: map<nat, Page>, cur: Option<nat>) {
    predicate Valid() {
      && ValidLayout(blocks)
      && (cur.Some? ==> cur.value < |blocks|)
      && (forall b, p {:trigger blocks[b].Frame(p)} :: 0 <= b < |blocks| && 0 <= p < blocks[b].Pages() ==>
            blocks[b].Frame(p) in mem)
    }
  }

  /** Outcome of one trip round the loop of ram_load. `Invalid` is a return of -EINVAL,
      `Truncated` is a stream that ends inside a record, and `Undefined` is a store through a
      null pointer or past the end of a block. */
  datatype Outcome =
    | Loaded(r: Receiver, rest: seq<Byte>, eos: bool)
    | Invalid
    | Truncated
    | Undefined

  datatype Parsed<+T> = Parsed(value: T, rest: seq<Byte>) | Short | Refused

  function GetId(s: seq<Byte>): (r: Parsed<seq<Byte>>)
    ensures r.Parsed? ==> |r.rest| < |s|
  {
    if |s| < 1 then Short else
    var len := s[0] as int;
    if |s| < 1 + len then Short else Parsed(CString(s[1..1 + len]), s[1 + len..])
  }

  /** The loop over the listed blocks; the running total is a uint64_t and wraps. */
  function SyncBlocks(bs: seq<RAMBlock>, total: nat, s: seq<Byte>): (r: Parsed<()>)
    ensures r.Parsed? ==> |r.rest| <= |s|
    decreases |s|
  {
    if total == 0 then Parsed((), s)
    else match GetId(s)
      case Short => Short
      case Refused => Refused
      case Parsed(id, t) =>
        if |t| < 8 then Short
        else match FindBlock(bs, id)
          case None => Refused
          case Some(i) =>
            if bs[i].length != UnBe(t[..8]) then Refused
            else SyncBlocks(bs, (total - UnBe(t[..8])) % U64, t[8..])
  }

  /** host_from_stream_offset: the block a page record goes to. */
  function Locate(r: Receiver, cont: bool, s: seq<Byte>): (l: Parsed<nat>)
    ensures l.Parsed? ==> |l.rest| <= |s|
    ensures l.Parsed? && r.Valid() ==> l.value < |r.blocks|
  {
    if cont then
      if r.cur.None? then Refused else Parsed(r.cur.value, s)
    else match GetId(s)
      case Short => Short
      case Refused => Refused
      case Parsed(id, t) =>
        match FindBlock(r.blocks, id)
        case None => Refused
        case Some(i) => Parsed(i, t)
  }

  function Store(r: Receiver, b: nat, addr: nat, page: Page, rest: seq<Byte>, eos: bool): Outcome {
    if b < |r.blocks| && addr + PAGE <= r.blocks[b].length
    then Loaded(r.(mem := r.mem[r.blocks[b].Frame(addr / PAGE) := page], cur := Some(b)), rest, eos)
    else Undefined
  }

  /** The first word of a record, split into address and flag bits. */
  datatype Header = Header(addr: nat, memSize: bool, compress: bool, page: bool, eos: bool, cont: bool)

  function DecodeHeader(h: nat): Header {
    var flags := h % PAGE;
    Header(h - flags, HasFlag(flags, FLAG_MEM_SIZE), HasFlag(flags, FLAG_COMPRESS), HasFlag(flags, FLAG_PAGE),
           HasFlag(flags, FLAG_EOS), HasFlag(flags, FLAG_CONTINUE))
  }

  /** The COMPRESS and PAGE branches of ram_load, COMPRESS first. */
  function LoadPayload(r: Receiver, hd: Header, t: seq<Byte>): (o: Outcome)
    ensures o.Loaded? ==> |o.rest| <= |t|
  {
    if hd.compress then
      match Locate(r, hd.cont, t)
      case Short => Truncated
      case Refused => Invalid
      case Parsed(b, u) => if |u| < 1 then Truncated else Store(r, b, hd.addr, Fill(u[0]), u[1..], hd.eos)
    else if hd.page then
      match Locate(r, hd.cont, t)
      case Short => Truncated
      case Refused => Undefined
      case Parsed(b, u) => if |u| < PAGE then Truncated else Store(r, b, hd.addr, u[..PAGE], u[PAGE..], hd.eos)
    else Loaded(r, t, hd.eos)
  }

  /** The rest of a record once its header is known. */
  function LoadRecord(r: Receiver, hd: Header, t: seq<Byte>): (o: Outcome)
    ensures o.Loaded? ==> |o.rest| <= |t|
  {
    if !hd.memSize then LoadPayload(r, hd, t)
    else match SyncBlocks(r.blocks, hd.addr, t)
      case Short => Truncated
      case Refused => Invalid
      case Parsed(_, u) => LoadPayload(r, hd, u)
  }

  /** One trip round the do-loop of ram_load. */
  function LoadOne(r: Receiver, s: seq<Byte>): (o: Outcome)
    ensures o.Loaded? ==> |o.rest| < |s|
  {
    if |s| < 8 then Truncated else LoadRecord(r, DecodeHeader(UnBe(s[..8])), s[8..])
  }

  /** ram_load on one section: records up to and including the one with EOS. */
  function LoadSection(r: Receiver, s: seq<Byte>): Outcome
    decreases |s|
  {
    match LoadOne(r, s)
    case Loaded(r', rest, eos) => if eos then Loaded(r', rest, true) else LoadSection(r', rest)
    case o => o
  }

  /** The receiver after everything on the stream so far, over any number of sections. */
  function Replay(r: Receiver, s: seq<Byte>): Outcome
    decreases |s|
  {
    if s == [] then Loaded(r, [], true)
    else match LoadOne(r, s)
      case Loaded(r', rest, _) => Replay(r', rest)
      case o => o
  }

  /* ---- decoding depends only on the bytes it consumes ---- */

  lemma {:induction false} SyncBlocksExtend(bs: seq<RAMBlock>, total: nat, s: seq<Byte>, t: seq<Byte>)
    requires SyncBlocks(bs, total, s).Parsed?
    ensures SyncBlocks(bs, total, s + t) == Parsed((), SyncBlocks(bs, total, s).rest + t)
    decreases |s|
  {
    if total != 0 {
      GetIdExtend(s, t);
      var u := GetId(s).rest;
      assert (u + t)[..8] == u[..8];
      assert (u + t)[8..] == u[8..] + t;
      SyncBlocksExtend(bs, (total - UnBe(u[..8])) % U64, u[8..], t);
    }
  }

  lemma GetIdExtend(s: seq<Byte>, t: seq<Byte>)
    requires GetId(s).Parsed?
    ensures GetId(s + t) == Parsed(GetId(s).value, GetId(s).rest + t)
  {
    assert (s + t)[1..1 + s[0]] == s[1..1 + s[0]];
    assert (s + t)[1 + s[0]..] == s[1 + s[0]..] + t;
  }

  lemma LocateExtend(r: Receiver, cont: bool, s: seq<Byte>, t: seq<Byte>)
    requires Locate(r, cont, s).Parsed?
    ensures Locate(r, cont, s + t) == Parsed(Locate(r, cont, s).value, Locate(r, cont, s).rest + t)
  {
    if !cont {
      GetIdExtend(s, t);
    }
  }

  lemma LoadPayloadExtend(r: Receiver, hd: Header, s: seq<Byte>, t: seq<Byte>)
    requires LoadPayload(r, hd, s).Loaded?
    ensures LoadPayload(r, hd, s + t) == LoadPayload(r, hd, s).(rest := LoadPayload(r, hd, s).rest + t)
  {
    hide Locate, Store;
    if hd.compress || hd.page {
      LocateExtend(r, hd.cont, s, t);
      var v := Locate(r, hd.cont, s).rest;
      var n := if hd.compress then 1 else PAGE;
      assert n <= |v|;
      SplitExtend(v, t, n);
      var page := if hd.compress then Fill(v[0]) else v[..PAGE];
      StoreExtend(r, Locate(r, hd.cont, s).value, hd.addr, page, v[n..], t, hd.eos);
    }
  }

  lemma SplitExtend(v: seq<Byte>, t: seq<Byte>, n: nat)
    requires n <= |v|
    ensures (v + t)[..n] == v[..n] && (v + t)[n..] == v[n..] + t
  {
  }

  lemma StoreExtend(r: Receiver, b: nat, addr: nat, page: Page, rest: seq<Byte>, t: seq<Byte>, eos: bool)
    ensures Store(r, b, addr, page, rest, eos).Loaded? ==>
      Store(r, b, addr, page, rest + t, eos) == Store(r, b, addr, page, rest, eos).(rest := rest + t)
    ensures Store(r, b, addr, page, rest, eos).Loaded? ==> Store(r, b, addr, page, rest, eos).rest == rest
  {
  }

  lemma LoadOneExtend(r: Receiver, s: seq<Byte>, t: seq<Byte>)
    requires LoadOne(r, s).Loaded?
    ensures LoadOne(r, s + t) == LoadOne(r, s).(rest := LoadOne(r, s).rest + t)
  {
    assert (s + t)[..8] == s[..8];
    assert (s + t)[8..] == s[8..] + t;
    var hd := DecodeHeader(UnBe(s[..8]));
    if hd.memSize {
      SyncBlocksExtend(r.blocks, hd.addr, s[8..], t);
      LoadPayloadExtend(r, hd, SyncBlocks(r.blocks, hd.addr, s[8..]).rest, t);
    } else {
      LoadPayloadExtend(r, hd, s[8..], t);
    }
  }

  /** Replaying a stream in two pieces is replaying it at once. */
  lemma {:induction false} ReplayAppend(r: Receiver, s: seq<Byte>, t: seq<Byte>)
    requires Replay(r, s).Loaded?
    ensures Replay(r, s + t) == Replay(Replay(r, s).r, t)
    decreases |s|
  {
    if s == [] {
      assert s + t == t;
    } else {
      LoadOneExtend(r, s, t);
      ReplayAppend(LoadOne(r, s).r, LoadOne(r, s).rest, t);
    }
  }

  /* ---- round trips ---- */

  lemma GetIdOfField(id: seq<Byte>, t: seq<Byte>)
    requires |id| < 256 && 0 !in id
    ensures GetId(IdField(id) + t) == Parsed(id, t)
  {
    var s := IdField(id) + t;
    assert s[1..1 + s[0]] == id;
    assert s[1 + s[0]..] == t;
    CStringOfPlain(id);
  }

  lemma PageHeaderRoundTrip(offset: nat, cont: bool, kind: nat)
    requires offset % PAGE == 0 && offset + PAGE <= U64
    requires kind == FLAG_COMPRESS || kind == FLAG_PAGE
    ensures DecodeHeader(UnBe(Be(8, PageHeader(offset, cont, kind)))) ==
            Header(offset, false, kind == FLAG_COMPRESS, kind == FLAG_PAGE, false, cont)
  {
    hide Be, UnBe;
    var h := PageHeader(offset, cont, kind);
    Be64RoundTrip(h);
    assert h % PAGE == (if cont then FLAG_CONTINUE else 0) + kind;
  }

  lemma LocateOfName(r: Receiver, b: nat, id: seq<Byte>, cont: bool, body: seq<Byte>)
    requires |id| < 256 && 0 !in id
    requires FindBlock(r.blocks, id) == Some(b)
    requires cont ==> r.cur == Some(b)
    ensures Locate(r, cont, (if cont then [] else IdField(id)) + body) == Parsed(b, body)
  {
    if cont {
      assert [] + body == body;
    } else {
      GetIdOfField(id, body);
    }
  }

  lemma LoadOneOfWord(r: Receiver, w: seq<Byte>, t: seq<Byte>)
    requires |w| == 8
    ensures LoadOne(r, w + t) == LoadRecord(r, DecodeHeader(UnBe(w)), t)
  {
    assert (w + t)[..8] == w;
    assert (w + t)[8..] == t;
  }

  function PageBody(page: Page): seq<Byte> {
    if IsDup(page, page[0]) then [page[0]] else page
  }

  lemma EncodePageSplit(id: seq<Byte>, offset: nat, cont: bool, page: Page)
    requires |id| < 256
    ensures EncodePage(id, offset, cont, page) ==
            Be(8, PageHeader(offset, cont, if IsDup(page, page[0]) then FLAG_COMPRESS else FLAG_PAGE)) +
            ((if cont then [] else IdField(id)) + PageBody(page))
  {
    hide Be, IsDup, PageHeader;
  }

  lemma PayloadRoundTrip(r: Receiver, b: nat, id: seq<Byte>, offset: nat, cont: bool, page: Page)
    requires |id| < 256 && 0 !in id
    requires FindBlock(r.blocks, id) == Some(b)
    requires offset + PAGE <= r.blocks[b].length
    requires cont ==> r.cur == Some(b)
    ensures var dup := IsDup(page, page[0]);
            var t := (if cont then [] else IdField(id)) + PageBody(page);
            LoadPayload(r, Header(offset, false, dup, !dup, false, cont), t)
            == Loaded(r.(mem := r.mem[r.blocks[b].Frame(offset / PAGE) := page], cur := Some(b)), [], false)
  {
    LocateOfName(r, b, id, cont, PageBody(page));
    if IsDup(page, page[0]) {
      assert Fill(page[0]) == page;
    } else {
      assert page[..PAGE] == page;
    }
  }

  /** A page record decodes to the block, offset and contents it was made from, with or without
      CONTINUE and whether it is a fill byte or a full page. */
  lemma PageRoundTrip(r: Receiver, b: nat, id: seq<Byte>, offset: nat, cont: bool, page: Page)
    requires |id| < 256 && 0 !in id
    requires FindBlock(r.blocks, id) == Some(b)
    requires offset % PAGE == 0 && offset + PAGE <= r.blocks[b].length && offset + PAGE <= U64
    requires cont ==> r.cur == Some(b)
    ensures LoadOne(r, EncodePage(id, offset, cont, page)) ==
            Loaded(r.(mem := r.mem[r.blocks[b].Frame(offset / PAGE) := page], cur := Some(b)), [], false)
  {
    hide Be, UnBe, LoadOne, LoadPayload, DecodeHeader, IsDup, FindBlock, RAMBlock.Frame, EncodePage, PageBody, IdField;
    var kind := if IsDup(page, page[0]) then FLAG_COMPRESS else FLAG_PAGE;
    var w := Be(8, PageHeader(offset, cont, kind));
    var t := (if cont then [] else IdField(id)) + PageBody(page);
    EncodePageSplit(id, offset, cont, page);
    LoadOneOfWord(r, w, t);
    PageHeaderRoundTrip(offset, cont, kind);
    PayloadRoundTrip(r, b, id, offset, cont, page);
  }

  /** What a page record leads to at any receiver: it is refused, or undefined, when its block is not known or the
      page not inside it. */
  lemma PageOutcome(r: Receiver, id: seq<Byte>, offset: nat, cont: bool, page: Page)
    requires |id| < 256 && 0 !in id && offset % PAGE == 0 && offset + PAGE <= U64
    ensures var b := if cont then r.cur else FindBlock(r.blocks, id);
            LoadOne(r, EncodePage(id, offset, cont, page)) ==
            if b.None? then (if IsDup(page, page[0]) then Invalid else Undefined)
            else if b.value >= |r.blocks| || offset + PAGE > r.blocks[b.value].length then Undefined
            else Loaded(r.(mem := r.mem[r.blocks[b.value].Frame(offset / PAGE) := page], cur := b), [], false)
  {
    hide Be, UnBe, LoadOne, DecodeHeader, IsDup, FindBlock, RAMBlock.Frame, EncodePage, IdField, GetId;
    var dup := IsDup(page, page[0]);
    var w := Be(8, PageHeader(offset, cont, if dup then FLAG_COMPRESS else FLAG_PAGE));
    var body := PageBody(page);
    EncodePageSplit(id, offset, cont, page);
    LoadOneOfWord(r, w, (if cont then [] else IdField(id)) + body);
    PageHeaderRoundTrip(offset, cont, if dup then FLAG_COMPRESS else FLAG_PAGE);
    if cont {
      assert [] + body == body;
    } else {
      GetIdOfField(id, body);
    }
    BodyBack(page);
  }

  lemma BodyBack(page: Page)
    ensures IsDup(page, page[0]) ==> Fill(page[0]) == page && PageBody(page) == [page[0]] && [page[0]][1..] == []
    ensures !IsDup(page, page[0]) ==> PageBody(page) == page && page[..PAGE] == page && page[PAGE..] == []
  {
  }

  /** The bytes of a page record: the header word is the offset with 0x20 for CONTINUE and 0x02 for a fill byte or
      0x08 for a full page; the block's name follows unless CONTINUE is set, then the fill byte or the page. */
  lemma PageBytes(id: seq<Byte>, offset: nat, cont: bool, page: Page)
    requires |id| < 256 && offset % PAGE == 0 && offset + PAGE <= U64
    ensures var rec := EncodePage(id, offset, cont, page);
            var dup := forall i :: 0 <= i < PAGE ==> page[i] == page[0];
            && |rec| == 8 + (if cont then 0 else 1 + |id|) + (if dup then 1 else PAGE)
            && UnBe(rec[..8]) == offset + (if cont then 0x20 else 0) + (if dup then 0x02 else 0x08)
            && rec[8..] == (if cont then [] else [|id|] + id) + (if dup then [page[0]] else page)
  {
    hide Be, UnBe;
    var dup := IsDup(page, page[0]);
    var h := PageHeader(offset, cont, if dup then FLAG_COMPRESS else FLAG_PAGE);
    EncodePageSplit(id, offset, cont, page);
    Be64RoundTrip(h);
    var rec := EncodePage(id, offset, cont, page);
    assert rec[..8] == Be(8, h);
    assert rec[8..] == (if cont then [] else [|id|] + id) + PageBody(page);
  }

  /** The first entry of the preamble's list, and its header word. */
  lemma StartBytes(bs: seq<RAMBlock>)
    requires bs != [] && (forall i :: 0 <= i < |bs| ==> bs[i].Valid()) && TotalBytes(bs) + 4 < U64
    ensures var s, id := EncodeStart(bs), bs[0].id;
            && |s| >= 17 + |id| && UnBe(s[..8]) == TotalBytes(bs) + 0x04
            && s[8] == |id| && s[9..9 + |id|] == id && s[9 + |id|..17 + |id|] == Be(8, bs[0].length)
            && s[17 + |id|..] == EncodeBlockList(bs[1..])
  {
    hide Be, UnBe, TotalBytes, EncodeBlockList, IdField;
    Be64RoundTrip(TotalBytes(bs) + 4);
    var w, rest := Be(8, TotalBytes(bs) + 4), EncodeBlockList(bs[1..]);
    BlockListCons(bs);
    StartSlices(w, bs[0].id, Be(8, bs[0].length), rest);
  }

  lemma BlockListCons(bs: seq<RAMBlock>)
    requires bs != [] && forall i :: 0 <= i < |bs| ==> bs[i].Valid()
    ensures bs[0].Valid()
    ensures EncodeBlockList(bs) == IdField(bs[0].id) + Be(8, bs[0].length) + EncodeBlockList(bs[1..])
  {
  }

  lemma StartSlices(w: seq<Byte>, id: seq<Byte>, l: seq<Byte>, rest: seq<Byte>)
    requires |w| == |l| == 8 && |id| < 256
    ensures var s := w + (IdField(id) + l + rest);
            && |s| >= 17 + |id| && s[..8] == w && s[8] == |id| && s[9..9 + |id|] == id
            && s[9 + |id|..17 + |id|] == l && s[17 + |id|..] == rest
  {
  }

  lemma EosBytes()
    ensures EncodeEos() == [0, 0, 0, 0, 0, 0, 0, 0x10]
  {
    hide Be;
    BigEndian(FLAG_EOS);
  }

  lemma EosRoundTrip(r: Receiver)
    ensures LoadOne(r, EncodeEos()) == Loaded(r, [], true)
  {
    Be64RoundTrip(FLAG_EOS);
    assert EncodeEos()[..8] == EncodeEos();
    assert DecodeHeader(FLAG_EOS) == Header(0, false, false, false, true, false);
  }

  /** The destination can take the source's RAM: every source block exists there with the same length. */
  predicate Accepts(dst: seq<RAMBlock>, src: seq<RAMBlock>) {
    forall i :: 0 <= i < |src| ==> AcceptsBlock(dst, src[i])
  }

  predicate AcceptsBlock(dst: seq<RAMBlock>, b: RAMBlock) {
    FindBlock(dst, b.id).Some? && dst[FindBlock(dst, b.id).value].length == b.length
  }

  lemma AcceptsCons(dst: seq<RAMBlock>, src: seq<RAMBlock>)
    requires src != []
    ensures Accepts(dst, src) <==> AcceptsBlock(dst, src[0]) && Accepts(dst, src[1..])
  {
    assert src == [src[0]] + src[1..];
    assert forall i :: 0 < i < |src| ==> src[i] == src[1..][i - 1];
  }

  lemma SyncOne(dst: seq<RAMBlock>, b: RAMBlock, total: nat, tail: seq<Byte>)
    requires b.Valid() && b.length <= total < U64
    ensures SyncBlocks(dst, total, IdField(b.id) + (Be(8, b.length) + tail)) ==
            if AcceptsBlock(dst, b) then SyncBlocks(dst, total - b.length, tail) else Refused
  {
    var w := Be(8, b.length);
    Be64RoundTrip(b.length);
    SyncOneWord(dst, b, w, total, tail);
  }

  lemma SyncOneWord(dst: seq<RAMBlock>, b: RAMBlock, w: seq<Byte>, total: nat, tail: seq<Byte>)
    requires b.Valid() && |w| == 8 && UnBe(w) == b.length <= total < U64
    ensures SyncBlocks(dst, total, IdField(b.id) + (w + tail)) ==
            if AcceptsBlock(dst, b) then SyncBlocks(dst, total - b.length, tail) else Refused
  {
    hide UnBe, GetId, IdField, FindBlock;
    GetIdOfField(b.id, w + tail);
    assert (w + tail)[..8] == w && (w + tail)[8..] == tail;
    assert (total - b.length) % U64 == total - b.length;
  }

  /** The block list is accepted exactly when every listed block is known with that length. */
  lemma {:induction false} SyncRoundTrip(dst: seq<RAMBlock>, src: seq<RAMBlock>, total: nat, s: seq<Byte>)
    requires forall i :: 0 <= i < |src| ==> src[i].Valid()
    requires total == TotalBytes(src) < U64
    requires s == EncodeBlockList(src)
    ensures SyncBlocks(dst, total, s) == if Accepts(dst, src) then Parsed((), []) else Refused
    decreases |src|
  {
    hide Be, AcceptsBlock, IdField, FindBlock, GetId;
    if src != [] {
      var tail := EncodeBlockList(src[1..]);
      assert src[0].Valid();
      assert s == IdField(src[0].id) + (Be(8, src[0].length) + tail);
      SyncOne(dst, src[0], total, tail);
      SyncRoundTrip(dst, src[1..], total - src[0].length, tail);
      AcceptsCons(dst, src);
    }
  }

  /** The stage-1 preamble is accepted exactly by the destinations whose block list matches. */
  lemma StartRoundTrip(r: Receiver, src: seq<RAMBlock>)
    requires forall i :: 0 <= i < |src| ==> src[i].Valid()
    requires TotalBytes(src) < U64
    ensures LoadOne(r, EncodeStart(src)) == if Accepts(r.blocks, src) then Loaded(r, [], false) else Invalid
  {
    hide Be, UnBe, LoadOne, EncodeBlockList, TotalBytes, Accepts;
    var total := TotalBytes(src);
    assert total % PAGE == 0 by { TotalBytesAligned(src); }
    var w := StartWord(total);
    StartRecord(r, src, total, w, EncodeBlockList(src));
  }

  /** The first word of the preamble, as the decoder reads it. */
  lemma StartWord(total: nat) returns (w: seq<Byte>)
    requires total % PAGE == 0 && total < U64
    ensures w == Be(8, total + FLAG_MEM_SIZE) && |w| == 8
    ensures DecodeHeader(UnBe(w)) == Header(total, true, false, false, false, false)
  {
    hide Be, UnBe;
    w := Be(8, total + FLAG_MEM_SIZE);
    assert (total + FLAG_MEM_SIZE) % PAGE == FLAG_MEM_SIZE;
    Be64RoundTrip(total + FLAG_MEM_SIZE);
  }

  lemma StartRecord(r: Receiver, src: seq<RAMBlock>, total: nat, w: seq<Byte>, list: seq<Byte>)
    requires forall i :: 0 <= i < |src| ==> src[i].Valid()
    requires total == TotalBytes(src) < U64 && list == EncodeBlockList(src)
    requires |w| == 8 && DecodeHeader(UnBe(w)) == Header(total, true, false, false, false, false)
    ensures LoadOne(r, w + list) == if Accepts(r.blocks, src) then Loaded(r, [], false) else Invalid
  {
    LoadOneOfWord(r, w, list);
    SyncRoundTrip(r.blocks, src, total, list);
  }
}
