/** Pre-copy migration of guest RAM as a state machine: guest writes, page saves and section ends
    in any order, against the receiver that replays the stream written so far. */
module RamMigration {
  import opened Wire
  import opened RamStream

  /** A page of a block: block number and page number within it. */
  datatype Pos = Pos(b: nat, p: nat)

  /** The source. `dirty` holds the frames whose MIGRATION_DIRTY_FLAG is set and `last` stands for
      last_block and last_offset. */
  datatype Sender = Sender(blocks: seq<RAMBlock>, mem: map<nat, Page>, dirty: set<nat>, last: Option<Pos>,
                           out: seq<Byte>)

  predicate ValidPos(bs: seq<RAMBlock>, x: Pos) {
    x.b < |bs| && x.p < bs[x.b].Pages()
  }

  function FrameOf(bs: seq<RAMBlock>, x: Pos): nat
    requires ValidPos(bs, x)
  {
    bs[x.b].Frame(x.p)
  }

  ghost predicate InRam(bs: seq<RAMBlock>, f: nat) {
    exists x :: ValidPos(bs, x) && FrameOf(bs, x) == f
  }

  predicate SenderLayout(bs: seq<RAMBlock>) {
    bs != [] && ValidLayout(bs) && TotalBytes(bs) < U64
  }

  ghost predicate ValidSender(s: Sender) {
    && SenderLayout(s.blocks)
    && (forall x :: ValidPos(s.blocks, x) ==> FrameOf(s.blocks, x) in s.mem)
    && (forall f :: f in s.dirty ==> InRam(s.blocks, f))
    && (s.last.Some? ==> ValidPos(s.blocks, s.last.value))
  }

  /* ---- frames name pages uniquely ---- */

  lemma FrameInjective(bs: seq<RAMBlock>, x: Pos, y: Pos)
    requires ValidLayout(bs) && ValidPos(bs, x) && ValidPos(bs, y)
    requires FrameOf(bs, x) == FrameOf(bs, y)
    ensures x == y
  {
    var a, b := bs[x.b], bs[y.b];
    if x.b != y.b {
      assert Disjoint(a, b) by {
        if x.b < y.b { } else { assert Disjoint(b, a); }
      }
      DisjointFrames(a, b, x.p, y.p);
    }
  }

  lemma DisjointFrames(a: RAMBlock, b: RAMBlock, p: nat, q: nat)
    requires a.Valid() && b.Valid() && Disjoint(a, b)
    requires p < a.Pages() && q < b.Pages()
    ensures a.Frame(p) != b.Frame(q)
  {
    assert a.offset == PAGE * (a.offset / PAGE) && a.length == PAGE * (a.length / PAGE);
    assert b.offset == PAGE * (b.offset / PAGE) && b.length == PAGE * (b.length / PAGE);
  }

  /** A page of one of several blocks lies below 2^64. */
  lemma {:induction false} BlockWithinTotal(bs: seq<RAMBlock>, i: nat)
    requires i < |bs|
    ensures bs[i].length <= TotalBytes(bs)
  {
    if i > 0 {
      BlockWithinTotal(bs[1..], i - 1);
    }
  }

  /* ---- the circular scan ---- */

  /** The page after x in block order, wrapping from the last block to the first. */
  function Next(bs: seq<RAMBlock>, x: Pos): Pos
    requires ValidPos(bs, x)
  {
    if x.p + 1 < bs[x.b].Pages() then Pos(x.b, x.p + 1)
    else if x.b + 1 < |bs| then Pos(x.b + 1, 0)
    else Pos(0, 0)
  }

  function PagesBefore(bs: seq<RAMBlock>, b: nat): nat
    requires b <= |bs|
  {
    if b == 0 then 0 else PagesBefore(bs, b - 1) + bs[b - 1].Pages()
  }

  function TotalPages(bs: seq<RAMBlock>): nat {
    PagesBefore(bs, |bs|)
  }

  /** Position of a page in block order. */
  function Index(bs: seq<RAMBlock>, x: Pos): nat
    requires ValidPos(bs, x)
  {
    PagesBefore(bs, x.b) + x.p
  }

  lemma {:induction false} PagesBeforeMonotone(bs: seq<RAMBlock>, a: nat, b: nat)
    requires a <= b <= |bs|
    ensures PagesBefore(bs, a) <= PagesBefore(bs, b)
  {
    if a < b {
      PagesBeforeMonotone(bs, a, b - 1);
    }
  }

  lemma IndexBound(bs: seq<RAMBlock>, x: Pos)
    requires ValidPos(bs, x)
    ensures Index(bs, x) < TotalPages(bs)
  {
    PagesBeforeMonotone(bs, x.b + 1, |bs|);
  }

  lemma IndexInjective(bs: seq<RAMBlock>, x: Pos, y: Pos)
    requires ValidPos(bs, x) && ValidPos(bs, y)
    requires Index(bs, x) == Index(bs, y)
    ensures x == y
  {
    if x.b < y.b {
      PagesBeforeMonotone(bs, x.b + 1, y.b);
    } else if y.b < x.b {
      PagesBeforeMonotone(bs, y.b + 1, x.b);
    }
  }

  lemma FirstPageValid(bs: seq<RAMBlock>, b: nat)
    requires ValidLayout(bs) && b < |bs|
    ensures ValidPos(bs, Pos(b, 0))
  {
    assert bs[b].Valid();
  }

  lemma NextValid(bs: seq<RAMBlock>, x: Pos)
    requires ValidLayout(bs) && ValidPos(bs, x)
    ensures ValidPos(bs, Next(bs, x))
    ensures Index(bs, Next(bs, x)) == if Index(bs, x) + 1 == TotalPages(bs) then 0 else Index(bs, x) + 1
  {
    FirstPageValid(bs, Next(bs, x).b);
    IndexBound(bs, x);
    if x.p + 1 < bs[x.b].Pages() {
      PagesBeforeMonotone(bs, x.b + 1, |bs|);
    } else if x.b + 1 < |bs| {
      IndexBound(bs, Pos(x.b + 1, 0));
    }
  }

  /** The page reached from x after k pages. */
  function Advance(bs: seq<RAMBlock>, x: Pos, k: nat): (y: Pos)
    requires ValidLayout(bs) && ValidPos(bs, x)
    ensures ValidPos(bs, y)
  {
    if k == 0 then x else
    var y := Advance(bs, x, k - 1);
    NextValid(bs, y);
    Next(bs, y)
  }

  /** Pages between x and y going forward with wrap-around. */
  function Distance(bs: seq<RAMBlock>, x: Pos, y: Pos): int
    requires ValidPos(bs, x) && ValidPos(bs, y)
  {
    if Index(bs, x) <= Index(bs, y) then Index(bs, y) - Index(bs, x)
    else Index(bs, y) - Index(bs, x) + TotalPages(bs)
  }

  lemma {:induction false} AdvanceIndex(bs: seq<RAMBlock>, x: Pos, k: nat)
    requires ValidLayout(bs) && ValidPos(bs, x)
    requires k < TotalPages(bs)
    ensures var i := Index(bs, x) + k;
            Index(bs, Advance(bs, x, k)) == if i < TotalPages(bs) then i else i - TotalPages(bs)
  {
    hide PagesBefore, Next, ValidLayout;
    IndexBound(bs, x);
    if k > 0 {
      AdvanceIndex(bs, x, k - 1);
      NextValid(bs, Advance(bs, x, k - 1));
    }
  }

  /** Every page is reached, after Distance pages, and a full turn comes back to the start. */
  lemma AdvanceReaches(bs: seq<RAMBlock>, x: Pos, y: Pos)
    requires ValidLayout(bs) && ValidPos(bs, x) && ValidPos(bs, y)
    ensures 0 <= Distance(bs, x, y) < TotalPages(bs)
    ensures Advance(bs, x, Distance(bs, x, y)) == y
  {
    IndexBound(bs, x);
    IndexBound(bs, y);
    AdvanceIndex(bs, x, Distance(bs, x, y));
    IndexInjective(bs, Advance(bs, x, Distance(bs, x, y)), y);
  }

  lemma DistanceOfAdvance(bs: seq<RAMBlock>, x: Pos, k: nat)
    requires ValidLayout(bs) && ValidPos(bs, x) && k < TotalPages(bs)
    ensures Distance(bs, x, Advance(bs, x, k)) == k
  {
    AdvanceIndex(bs, x, k);
    IndexBound(bs, x);
  }

  lemma FullTurn(bs: seq<RAMBlock>, x: Pos)
    requires ValidLayout(bs) && ValidPos(bs, x)
    ensures Advance(bs, x, TotalPages(bs)) == x
  {
    hide PagesBefore, Next, ValidLayout;
    IndexBound(bs, x);
    var n := TotalPages(bs);
    var y := Advance(bs, x, n - 1);
    AdvanceIndex(bs, x, n - 1);
    NextValid(bs, y);
    IndexInjective(bs, Next(bs, y), x);
  }

  /** The scan of ram_save_block: the first dirty page within n pages from x. */
  function Scan(bs: seq<RAMBlock>, dirty: set<nat>, x: Pos, n: nat): (r: Option<Pos>)
    requires ValidLayout(bs) && ValidPos(bs, x)
    ensures r.Some? ==> ValidPos(bs, r.value) && FrameOf(bs, r.value) in dirty
    decreases n
  {
    if n == 0 then None
    else if FrameOf(bs, x) in dirty then Some(x)
    else
      NextValid(bs, x);
      Scan(bs, dirty, Next(bs, x), n - 1)
  }

  lemma {:induction false} AdvanceNext(bs: seq<RAMBlock>, x: Pos, k: nat)
    requires ValidLayout(bs) && ValidPos(bs, x)
    ensures ValidPos(bs, Next(bs, x)) && Advance(bs, Next(bs, x), k) == Advance(bs, x, k + 1)
  {
    NextValid(bs, x);
    if k > 0 {
      AdvanceNext(bs, x, k - 1);
    }
  }

  lemma ScanSkips(bs: seq<RAMBlock>, dirty: set<nat>, x: Pos, n: nat)
    requires ValidLayout(bs) && ValidPos(bs, x)
    requires n > 0 && FrameOf(bs, x) !in dirty
    ensures ValidPos(bs, Next(bs, x)) && Scan(bs, dirty, x, n) == Scan(bs, dirty, Next(bs, x), n - 1)
  {
    NextValid(bs, x);
  }

  lemma ScanHere(bs: seq<RAMBlock>, dirty: set<nat>, x: Pos, n: nat)
    requires ValidLayout(bs) && ValidPos(bs, x)
    ensures Advance(bs, x, 0) == x
    ensures n > 0 && FrameOf(bs, x) in dirty ==> Scan(bs, dirty, x, n) == Some(x)
    ensures n == 0 ==> Scan(bs, dirty, x, n) == None
  {
  }

  /** No page among the first k from x is dirty. */
  ghost predicate CleanFor(bs: seq<RAMBlock>, dirty: set<nat>, x: Pos, k: nat)
    requires ValidLayout(bs) && ValidPos(bs, x)
  {
    forall j :: 0 <= j < k ==> FrameOf(bs, Advance(bs, x, j)) !in dirty
  }

  lemma CleanForNext(bs: seq<RAMBlock>, dirty: set<nat>, x: Pos, k: nat)
    requires ValidLayout(bs) && ValidPos(bs, x) && k > 0
    requires CleanFor(bs, dirty, x, k)
    ensures FrameOf(bs, x) !in dirty
    ensures ValidPos(bs, Next(bs, x)) && CleanFor(bs, dirty, Next(bs, x), k - 1)
  {
    assert Advance(bs, x, 0) == x;
    NextValid(bs, x);
    forall j | 0 <= j < k - 1 ensures FrameOf(bs, Advance(bs, Next(bs, x), j)) !in dirty {
      AdvanceNext(bs, x, j);
    }
  }

  /** The scan stops at the k-th page exactly when that page is dirty and no earlier one is. */
  lemma {:induction false} ScanAt(bs: seq<RAMBlock>, dirty: set<nat>, x: Pos, n: nat, k: nat)
    requires ValidLayout(bs) && ValidPos(bs, x)
    requires k <= n && CleanFor(bs, dirty, x, k)
    ensures k < n && FrameOf(bs, Advance(bs, x, k)) in dirty ==> Scan(bs, dirty, x, n) == Some(Advance(bs, x, k))
    ensures k == n ==> Scan(bs, dirty, x, n) == None
    decreases n
  {
    hide *;
    if k == 0 {
      ScanHere(bs, dirty, x, n);
    } else {
      CleanForNext(bs, dirty, x, k);
      ScanSkips(bs, dirty, x, n);
      ScanAt(bs, dirty, Next(bs, x), n - 1, k - 1);
      AdvanceNext(bs, x, k - 1);
    }
  }

  /* ---- the sender's step ---- */

  function Start(s: Sender): Pos {
    if s.last.Some? then s.last.value else Pos(0, 0)
  }

  lemma StartValid(s: Sender)
    requires ValidSender(s)
    ensures ValidPos(s.blocks, Start(s))
  {
    FirstPageValid(s.blocks, 0);
  }

  ghost function SaveTarget(s: Sender): (r: Option<Pos>)
    requires ValidSender(s)
    ensures r.Some? ==> ValidPos(s.blocks, r.value) && FrameOf(s.blocks, r.value) in s.dirty
  {
    StartValid(s);
    Scan(s.blocks, s.dirty, Start(s), TotalPages(s.blocks))
  }

  /** CONTINUE is set when the page is in the block of the previous record. */
  predicate Continues(s: Sender, x: Pos) {
    s.last.Some? && s.last.value.b == x.b
  }

  ghost function Emit(s: Sender, x: Pos): Sender
    requires ValidSender(s) && ValidPos(s.blocks, x)
  {
    var f := FrameOf(s.blocks, x);
    assert s.blocks[x.b].Valid();
    s.(dirty := s.dirty - {f}, last := Some(x),
       out := s.out + EncodePage(s.blocks[x.b].id, x.p * PAGE, Continues(s, x), s.mem[f]))
  }

  /** ram_save_block. */
  ghost function SaveBlock(s: Sender): Sender
    requires ValidSender(s)
  {
    match SaveTarget(s)
    case None => s
    case Some(x) => Emit(s, x)
  }

  /** Nothing is saved exactly when nothing is dirty, and otherwise the page saved is the first
      dirty one in circular order from the last position. */
  lemma SaveTargetIsFirstDirty(s: Sender)
    requires ValidSender(s)
    ensures SaveTarget(s).None? <==> s.dirty == {}
    ensures ValidPos(s.blocks, Start(s))
    ensures SaveTarget(s).Some? ==>
      forall y :: ValidPos(s.blocks, y) && FrameOf(s.blocks, y) in s.dirty ==>
        Distance(s.blocks, Start(s), SaveTarget(s).value) <= Distance(s.blocks, Start(s), y)
  {
    StartValid(s);
    var bs, n, x := s.blocks, TotalPages(s.blocks), Start(s);
    if f :| f in s.dirty {
      var y :| ValidPos(bs, y) && FrameOf(bs, y) == f;
      AdvanceReaches(bs, x, y);
      var k := FirstDirty(bs, s.dirty, x, Distance(bs, x, y));
      ScanAt(bs, s.dirty, x, n, k);
      DistanceOfAdvance(bs, x, k);
      forall z | ValidPos(bs, z) && FrameOf(bs, z) in s.dirty
        ensures k <= Distance(bs, x, z)
      {
        AdvanceReaches(bs, x, z);
      }
    } else {
      ScanAt(bs, s.dirty, x, n, n);
    }
  }

  /** x comes before y in block order. */
  predicate Earlier(x: Pos, y: Pos) {
    x.b < y.b || (x.b == y.b && x.p < y.p)
  }

  /** Going forward from `start`, round the end if need be, y comes before `target`. */
  predicate Passed(start: Pos, y: Pos, target: Pos) {
    if Earlier(target, start) then !Earlier(y, start) || Earlier(y, target)
    else !Earlier(y, start) && Earlier(y, target)
  }

  lemma EarlierIndex(bs: seq<RAMBlock>, x: Pos, y: Pos)
    requires ValidPos(bs, x) && ValidPos(bs, y)
    ensures Earlier(x, y) <==> Index(bs, x) < Index(bs, y)
  {
    if x.b < y.b {
      PagesBeforeMonotone(bs, x.b + 1, y.b);
    } else if y.b < x.b {
      PagesBeforeMonotone(bs, y.b + 1, x.b);
    }
  }

  /** No page passed on the way to the page saved is dirty. */
  lemma NonePassed(s: Sender, y: Pos)
    requires ValidSender(s) && SaveTarget(s).Some? && ValidPos(s.blocks, y)
    requires Passed(if s.last.Some? then s.last.value else Pos(0, 0), y, SaveTarget(s).value)
    ensures FrameOf(s.blocks, y) !in s.dirty
  {
    hide Index, TotalPages, SaveTarget;
    SaveTargetIsFirstDirty(s);
    var bs, x, t := s.blocks, Start(s), SaveTarget(s).value;
    EarlierIndex(bs, t, x);
    EarlierIndex(bs, y, x);
    EarlierIndex(bs, y, t);
    IndexBound(bs, y);
    IndexBound(bs, t);
  }

  /** What the scan has seen after k pages decides the target. */
  lemma TargetAt(s: Sender, k: nat)
    requires ValidSender(s) && ValidPos(s.blocks, Start(s))
    requires k <= TotalPages(s.blocks) && CleanFor(s.blocks, s.dirty, Start(s), k)
    ensures k < TotalPages(s.blocks) && FrameOf(s.blocks, Advance(s.blocks, Start(s), k)) in s.dirty ==>
      SaveTarget(s) == Some(Advance(s.blocks, Start(s), k))
    ensures k == TotalPages(s.blocks) ==> SaveTarget(s) == None
  {
    ScanAt(s.blocks, s.dirty, Start(s), TotalPages(s.blocks), k);
  }

  lemma ScanBegins(s: Sender)
    requires ValidSender(s)
    ensures ValidPos(s.blocks, Start(s)) && 0 < TotalPages(s.blocks)
    ensures Advance(s.blocks, Start(s), 0) == Start(s) && CleanFor(s.blocks, s.dirty, Start(s), 0)
  {
    StartValid(s);
    IndexBound(s.blocks, Start(s));
  }

  /** One more clean page: the scan goes on from the next page, and is back at its start exactly
      after a full turn, when nothing is left to save. */
  lemma ScanGoesOn(s: Sender, k: nat)
    requires ValidSender(s) && ValidPos(s.blocks, Start(s))
    requires k < TotalPages(s.blocks) && CleanFor(s.blocks, s.dirty, Start(s), k)
    requires FrameOf(s.blocks, Advance(s.blocks, Start(s), k)) !in s.dirty
    ensures CleanFor(s.blocks, s.dirty, Start(s), k + 1)
    ensures Advance(s.blocks, Start(s), k + 1) == Next(s.blocks, Advance(s.blocks, Start(s), k))
    ensures Advance(s.blocks, Start(s), k + 1) == Start(s) <==> k + 1 == TotalPages(s.blocks)
    ensures k + 1 == TotalPages(s.blocks) ==> SaveTarget(s) == None
  {
    CleanForGrows(s.blocks, s.dirty, Start(s), k);
    BackAtStart(s.blocks, Start(s), k + 1);
    hide *;
    TargetAt(s, k + 1);
  }

  lemma CleanForGrows(bs: seq<RAMBlock>, dirty: set<nat>, x: Pos, k: nat)
    requires ValidLayout(bs) && ValidPos(bs, x)
    requires CleanFor(bs, dirty, x, k) && FrameOf(bs, Advance(bs, x, k)) !in dirty
    ensures CleanFor(bs, dirty, x, k + 1)
  {
  }

  lemma BackAtStart(bs: seq<RAMBlock>, x: Pos, k: nat)
    requires ValidLayout(bs) && ValidPos(bs, x)
    requires 0 < k <= TotalPages(bs)
    ensures Advance(bs, x, k) == x <==> k == TotalPages(bs)
    ensures Advance(bs, x, k) == Next(bs, Advance(bs, x, k - 1))
  {
    if k < TotalPages(bs) {
      DistanceOfAdvance(bs, x, k);
    } else {
      FullTurn(bs, x);
    }
  }

  lemma {:induction false} FirstDirty(bs: seq<RAMBlock>, dirty: set<nat>, x: Pos, d: nat) returns (k: nat)
    requires ValidLayout(bs) && ValidPos(bs, x)
    requires FrameOf(bs, Advance(bs, x, d)) in dirty
    ensures k <= d && FrameOf(bs, Advance(bs, x, k)) in dirty
    ensures CleanFor(bs, dirty, x, k)
  {
    hide Advance, FrameOf, ValidLayout;
    k := 0;
    while FrameOf(bs, Advance(bs, x, k)) !in dirty
      invariant k <= d
      invariant CleanFor(bs, dirty, x, k)
      decreases d - k
    {
      k := k + 1;
    }
  }

  /** A save with something dirty clears exactly one dirty page and appends exactly its record. */
  lemma SaveBlockEffect(s: Sender)
    requires ValidSender(s)
    ensures ValidSender(SaveBlock(s))
    ensures s.dirty == {} ==> SaveBlock(s) == s
    ensures s.dirty != {} ==> |SaveBlock(s).dirty| == |s.dirty| - 1 && SaveBlock(s).last.Some?
  {
    SaveTargetIsFirstDirty(s);
  }

  /* ---- the invariant ---- */

  /** The receiver's frame for a page of the source. */
  function DestFrame(r: Receiver, bs: seq<RAMBlock>, x: Pos): nat
    requires ValidPos(bs, x) && FindBlock(r.blocks, bs[x.b].id).Some?
  {
    r.blocks[FindBlock(r.blocks, bs[x.b].id).value].Frame(x.p)
  }

  /** The page the receiver holds is the page the source holds. */
  ghost predicate SamePage(s: Sender, r: Receiver, x: Pos)
    requires ValidPos(s.blocks, x) && FindBlock(r.blocks, s.blocks[x.b].id).Some?
  {
    && FrameOf(s.blocks, x) in s.mem && DestFrame(r, s.blocks, x) in r.mem
    && r.mem[DestFrame(r, s.blocks, x)] == s.mem[FrameOf(s.blocks, x)]
  }

  /** The receiver has the source's page wherever the source's page is not migration-dirty. */
  ghost predicate CleanSame(s: Sender, r: Receiver) {
    forall x :: ValidPos(s.blocks, x) && FrameOf(s.blocks, x) !in s.dirty ==>
      FindBlock(r.blocks, s.blocks[x.b].id).Some? && SamePage(s, r, x)
  }

  /** Between records both ends remember the same block. */
  ghost predicate SameBlock(s: Sender, r: Receiver) {
    s.last.Some? ==>
      s.last.value.b < |s.blocks| && r.cur.Some? && FindBlock(r.blocks, s.blocks[s.last.value.b].id) == r.cur
  }

  ghost predicate AllDirty(s: Sender) {
    forall x :: ValidPos(s.blocks, x) ==> FrameOf(s.blocks, x) in s.dirty
  }

  /** What every step keeps; r0 is the receiver before the first byte. */
  ghost predicate Inv(s: Sender, r0: Receiver) {
    && ValidSender(s)
    && r0.Valid() && Accepts(r0.blocks, s.blocks)
    && (s.last.None? ==> AllDirty(s))
    && var o := Replay(r0, s.out);
       o.Loaded? && o.r.Valid() && o.r.blocks == r0.blocks && CleanSame(s, o.r) && SameBlock(s, o.r)
  }

  /** After stage 1 has set every dirty bit and sent the block list. */
  ghost function Begin(bs: seq<RAMBlock>, mem: map<nat, Page>): Sender
    requires SenderLayout(bs)
  {
    Sender(bs, mem, set x: Pos | x in AllPos(bs) :: FrameOf(bs, x), None, EncodeStart(bs))
  }

  ghost function AllPos(bs: seq<RAMBlock>): (xs: set<Pos>)
    ensures forall x :: x in xs <==> ValidPos(bs, x)
  {
    set b, p | 0 <= b < |bs| && 0 <= p < bs[b].Pages() :: Pos(b, p)
  }

  lemma ReplaySingle(r: Receiver, s: seq<Byte>)
    requires s != [] && LoadOne(r, s).Loaded? && LoadOne(r, s).rest == []
    ensures Replay(r, s) == Loaded(LoadOne(r, s).r, [], true)
  {
  }

  /** The preamble is accepted exactly by a matching destination, and then the invariant holds. */
  lemma BeginEstablishes(bs: seq<RAMBlock>, mem: map<nat, Page>, r0: Receiver)
    requires SenderLayout(bs)
    requires forall x :: ValidPos(bs, x) ==> FrameOf(bs, x) in mem
    requires r0.Valid()
    ensures Inv(Begin(bs, mem), r0) <==> Accepts(r0.blocks, bs)
    ensures !Accepts(r0.blocks, bs) ==> Replay(r0, Begin(bs, mem).out) == Invalid
  {
    hide Be, UnBe, LoadOne, EncodeBlockList, TotalBytes, Accepts;
    var s := Begin(bs, mem);
    StartRoundTrip(r0, bs);
    assert |s.out| >= 8;
    if Accepts(r0.blocks, bs) {
      ReplaySingle(r0, s.out);
      assert AllDirty(s);
      assert Inv(s, r0);
    }
  }

  /** The receiver after one more page record. */
  function Received(r: Receiver, b: nat, p: nat, page: Page): Receiver
    requires b < |r.blocks|
  {
    r.(mem := r.mem[r.blocks[b].Frame(p) := page], cur := Some(b))
  }

  lemma RecordReplayed(r: Receiver, b: nat, id: seq<Byte>, p: nat, cont: bool, page: Page)
    requires |id| < 256 && 0 !in id && FindBlock(r.blocks, id) == Some(b)
    requires (p + 1) * PAGE <= r.blocks[b].length < U64
    requires cont ==> r.cur == Some(b)
    ensures Replay(r, EncodePage(id, p * PAGE, cont, page)) == Loaded(Received(r, b, p, page), [], true)
  {
    hide Be, UnBe, LoadOne;
    PageRoundTrip(r, b, id, p * PAGE, cont, page);
    ReplaySingle(r, EncodePage(id, p * PAGE, cont, page));
  }

  /** Storing one page leaves every other page's copy alone. */
  lemma ReceivedElsewhere(bs: seq<RAMBlock>, r: Receiver, b: nat, x: Pos, y: Pos)
    requires ValidLayout(bs) && r.Valid() && Accepts(r.blocks, bs)
    requires ValidPos(bs, x) && ValidPos(bs, y) && x != y
    requires FindBlock(r.blocks, bs[x.b].id) == Some(b)
    ensures FindBlock(r.blocks, bs[y.b].id).Some?
    ensures DestFrame(r, bs, y) != r.blocks[b].Frame(x.p)
  {
    assert AcceptsBlock(r.blocks, bs[x.b]) && AcceptsBlock(r.blocks, bs[y.b]);
    var c := FindBlock(r.blocks, bs[y.b].id).value;
    if b != c {
      FrameInjectiveAt(r.blocks, Pos(b, x.p), Pos(c, y.p));
    }
  }

  lemma FrameInjectiveAt(bs: seq<RAMBlock>, x: Pos, y: Pos)
    requires ValidLayout(bs) && ValidPos(bs, x) && ValidPos(bs, y) && x != y
    ensures FrameOf(bs, x) != FrameOf(bs, y)
  {
    if FrameOf(bs, x) == FrameOf(bs, y) {
      FrameInjective(bs, x, y);
    }
  }

  lemma ReceivedValid(r: Receiver, b: nat, p: nat, page: Page)
    requires r.Valid() && b < |r.blocks|
    ensures Received(r, b, p, page).Valid()
  {
  }

  lemma PageFits(blk: RAMBlock, p: nat)
    requires blk.Valid() && p < blk.Pages()
    ensures (p + 1) * PAGE <= blk.length
  {
  }

  /** One emitted record: the receiver that replays it has the page, remembers the block and
      keeps every other clean page. */
  lemma EmitKeeps(s: Sender, r0: Receiver, x: Pos)
    requires Inv(s, r0) && ValidPos(s.blocks, x)
    requires s.last.None? ==> x == Pos(0, 0)
    requires FrameOf(s.blocks, x) in s.dirty
    ensures Inv(Emit(s, x), r0)
  {
    var blk, f, s' := s.blocks[x.b], FrameOf(s.blocks, x), Emit(s, x);
    var r := Replay(r0, s.out).r;
    assert blk.Valid();
    assert AcceptsBlock(r0.blocks, blk);
    var b := FindBlock(r0.blocks, blk.id).value;
    var cont, page := Continues(s, x), s.mem[f];
    assert cont ==> r.cur == Some(b);
    PageFits(blk, x.p);
    BlockWithinTotal(s.blocks, x.b);
    RecordReplayed(r, b, blk.id, x.p, cont, page);
    var e := EncodePage(blk.id, x.p * PAGE, cont, page);
    assert s'.out == s.out + e;
    ReplayAppend(r0, s.out, e);
    var r' := Received(r, b, x.p, page);
    assert Replay(r0, s'.out) == Loaded(r', [], true);
    EmitCleanSame(s, r, b, x);
    ReceivedValid(r, b, x.p, page);
    assert SameBlock(s', r');
  }

  lemma EmitCleanSame(s: Sender, r: Receiver, b: nat, x: Pos)
    requires ValidSender(s) && ValidPos(s.blocks, x)
    requires r.Valid() && Accepts(r.blocks, s.blocks) && CleanSame(s, r)
    requires FindBlock(r.blocks, s.blocks[x.b].id) == Some(b)
    ensures CleanSame(Emit(s, x), Received(r, b, x.p, s.mem[FrameOf(s.blocks, x)]))
  {
    var s', page := Emit(s, x), s.mem[FrameOf(s.blocks, x)];
    var r' := Received(r, b, x.p, page);
    forall y | ValidPos(s.blocks, y) && FrameOf(s.blocks, y) !in s'.dirty
      ensures FindBlock(r'.blocks, s.blocks[y.b].id).Some? && SamePage(s', r', y)
    {
      if y != x {
        FrameInjectiveAt(s.blocks, x, y);
        ReceivedElsewhere(s.blocks, r, b, x, y);
        assert SamePage(s, r, y);
      }
    }
  }

  /** While last_block is null every page is dirty, so the scan stops at the very first page and
      the comparison with last_block at its end is never reached. */
  lemma NullLastStopsAtOnce(s: Sender)
    requires ValidSender(s) && s.last.None? && AllDirty(s)
    ensures SaveTarget(s) == Some(Pos(0, 0))
  {
    StartValid(s);
    IndexBound(s.blocks, Pos(0, 0));
    ScanAt(s.blocks, s.dirty, Pos(0, 0), TotalPages(s.blocks), 0);
  }

  lemma SaveKeeps(s: Sender, r0: Receiver)
    requires Inv(s, r0)
    ensures Inv(SaveBlock(s), r0)
  {
    if SaveTarget(s).Some? {
      if s.last.None? {
        NullLastStopsAtOnce(s);
      }
      EmitKeeps(s, r0, SaveTarget(s).value);
    }
  }

  /** A guest store marks its page dirty; it may not touch the stream or the cursor. */
  ghost function GuestWrite(s: Sender, x: Pos, page: Page): Sender
    requires ValidPos(s.blocks, x)
  {
    s.(mem := s.mem[FrameOf(s.blocks, x) := page], dirty := s.dirty + {FrameOf(s.blocks, x)})
  }

  lemma GuestWriteKeeps(s: Sender, r0: Receiver, x: Pos, page: Page)
    requires Inv(s, r0) && ValidPos(s.blocks, x)
    ensures Inv(GuestWrite(s, x, page), r0)
  {
    var s' := GuestWrite(s, x, page);
    var r := Replay(r0, s.out).r;
    forall y | ValidPos(s.blocks, y) && FrameOf(s.blocks, y) !in s'.dirty
      ensures FindBlock(r.blocks, s.blocks[y.b].id).Some? && SamePage(s', r, y)
    {
      assert FrameOf(s.blocks, y) !in s.dirty;
      assert SamePage(s, r, y);
    }
    assert CleanSame(s', r);
  }

  function EndSection(s: Sender): Sender {
    s.(out := s.out + EncodeEos())
  }

  lemma EndSectionKeeps(s: Sender, r0: Receiver)
    requires Inv(s, r0)
    ensures Inv(EndSection(s), r0)
  {
    hide Be, UnBe, LoadOne;
    var r := Replay(r0, s.out).r;
    EosRoundTrip(r);
    assert |EncodeEos()| == 8;
    ReplaySingle(r, EncodeEos());
    ReplayAppend(r0, s.out, EncodeEos());
    assert CleanSame(EndSection(s), r);
  }

  /* ---- whole runs ---- */

  datatype Step = Write(x: Pos, page: Page) | Save | Eos

  ghost predicate Enabled(s: Sender, a: Step) {
    a.Write? ==> ValidPos(s.blocks, a.x)
  }

  ghost function Do(s: Sender, a: Step): Sender
    requires ValidSender(s) && Enabled(s, a)
  {
    match a
    case Write(x, page) => GuestWrite(s, x, page)
    case Save => SaveBlock(s)
    case Eos => EndSection(s)
  }

  /** t is reached from s by the steps of a run, each enabled when it is taken. */
  ghost predicate Runs(s: Sender, steps: seq<Step>, t: Sender)
    decreases |steps|
  {
    if steps == [] then s == t
    else ValidSender(s) && Enabled(s, steps[0]) && Runs(Do(s, steps[0]), steps[1..], t)
  }

  lemma {:induction false} RunsSnoc(s: Sender, steps: seq<Step>, t: Sender, a: Step)
    requires Runs(s, steps, t) && ValidSender(t) && Enabled(t, a)
    ensures Runs(s, steps + [a], Do(t, a))
    decreases |steps|
  {
    hide ValidSender, Do;
    if steps == [] {
      assert steps + [a] == [a];
    } else {
      RunsSnoc(Do(s, steps[0]), steps[1..], t, a);
      assert (steps + [a])[1..] == steps[1..] + [a];
    }
  }

  /** In every run, each page that is not migration-dirty is the page the receiver has built from
      the stream so far. */
  lemma {:induction false} RunKeeps(s: Sender, steps: seq<Step>, t: Sender, r0: Receiver)
    requires Inv(s, r0) && Runs(s, steps, t)
    ensures Inv(t, r0)
    decreases |steps|
  {
    if steps != [] {
      match steps[0] {
        case Write(x, page) => GuestWriteKeeps(s, r0, x, page);
        case Save => SaveKeeps(s, r0);
        case Eos => EndSectionKeeps(s, r0);
      }
      RunKeeps(Do(s, steps[0]), steps[1..], t, r0);
    }
  }

  /** The stage-3 flush: save until nothing is dirty; the dirty count is the measure. */
  ghost function Flush(s: Sender): Sender
    requires ValidSender(s)
    decreases |s.dirty|
  {
    if s.dirty == {} then s
    else
      SaveBlockEffect(s);
      Flush(SaveBlock(s))
  }

  lemma {:induction false} FlushKeeps(s: Sender, r0: Receiver)
    requires Inv(s, r0)
    ensures Inv(Flush(s), r0) && Flush(s).dirty == {} && Flush(s).mem == s.mem && Flush(s).blocks == s.blocks
    decreases |s.dirty|
  {
    if s.dirty != {} {
      SaveBlockEffect(s);
      SaveKeeps(s, r0);
      FlushKeeps(SaveBlock(s), r0);
    }
  }

  /** The receiver's RAM is the source's RAM. */
  ghost predicate SameRam(s: Sender, r: Receiver) {
    forall x :: ValidPos(s.blocks, x) ==> FindBlock(r.blocks, s.blocks[x.b].id).Some? && SamePage(s, r, x)
  }

  /** Whatever the guest did and however the saves were spread over sections, after the stage-3
      flush the replayed stream reproduces the source's RAM. */
  lemma MigrationCopiesRam(bs: seq<RAMBlock>, mem: map<nat, Page>, r0: Receiver, steps: seq<Step>, t: Sender)
    requires SenderLayout(bs)
    requires forall x :: ValidPos(bs, x) ==> FrameOf(bs, x) in mem
    requires r0.Valid() && Accepts(r0.blocks, bs)
    requires Runs(Begin(bs, mem), steps, t)
    ensures ValidSender(t)
    ensures var final := EndSection(Flush(t));
            Replay(r0, final.out).Loaded? && SameRam(t, Replay(r0, final.out).r)
  {
    BeginEstablishes(bs, mem, r0);
    RunKeeps(Begin(bs, mem), steps, t, r0);
    FlushKeeps(t, r0);
    var u := Flush(t);
    EndSectionKeeps(u, r0);
    var r := Replay(r0, EndSection(u).out).r;
    forall x | ValidPos(t.blocks, x)
      ensures FindBlock(r.blocks, t.blocks[x.b].id).Some? && SamePage(t, r, x)
    {
      assert SamePage(EndSection(u), r, x);
    }
  }

  /** ram_load, called once per section, replays the stream. */
  lemma {:induction false} SectionIsReplay(r: Receiver, s: seq<Byte>)
    requires LoadSection(r, s).Loaded?
    ensures Replay(r, s) == Replay(LoadSection(r, s).r, LoadSection(r, s).rest)
    decreases |s|
  {
    var o := LoadOne(r, s);
    if !o.eos {
      SectionIsReplay(o.r, o.rest);
    }
  }
}
