/** The imperative code of block migration: the bulk and dirty passes, the read callback, flush_blks
    and stages 2 and 3 of block_save_live, each tied to the state machine. Sector numbers are real;
    contents and bitmaps are kept by chunk. */
module BlockLive {
  import opened Common
  import opened Wire
  import opened BlockMigration

  /** A sector of a device. */
  datatype Sec = Sec(d: nat, s: nat)

  /** Number of chunks that hold s sectors. */
  function ChunksOf(s: nat): nat {
    (s + CHUNK - 1) / CHUNK
  }

  function ChunkCounts(sectors: seq<nat>): seq<nat> {
    seq(|sectors|, d requires 0 <= d < |sectors| => ChunksOf(sectors[d]))
  }

  ghost function AllocKeys(present: set<Sec>): set<Key> {
    set x | x in present :: Key(x.d, x.s / CHUNK)
  }

  /** The driver's answer to bdrv_is_allocated: a positive run, and if it says "unallocated" then no
      sector of the run is present. */
  ghost predicate Truthful(answer: nat -> (bool, nat), d: nat, total: nat, present: set<Sec>) {
    forall s :: 0 <= s < total ==>
      answer(s).1 > 0 && (!answer(s).0 ==> forall t :: s <= t < s + answer(s).1 && t < total ==> Sec(d, t) !in present)
  }

  /** Sector t lies in a run that the driver, asked somewhere from `from` on, said is unallocated. */
  ghost predicate SaidUnallocated(answer: nat -> (bool, nat), from: nat, t: nat) {
    exists u :: from <= u <= t && !answer(u).0 && t < u + answer(u).1
  }

  /** No sector of device d in from..to is present. */
  ghost predicate Unallocated(present: set<Sec>, d: nat, from: nat, to: nat) {
    forall t :: from <= t < to ==> Sec(d, t) !in present
  }

  /* ---- skipping ---- */

  function Skipped(m: Mig, d: nat, c: nat): Mig
    requires d < |m.cursor|
  {
    m.(cursor := m.cursor[d := c])
  }

  /** Passing over chunks c0..c one at a time. */
  lemma {:induction false} SkipRun(m: Mig, d: nat, c: nat) returns (steps: seq<Step>)
    requires WellFormed(m) && SharedBase(m) && d < |m.chunks| && m.cursor[d] <= c <= m.chunks[d]
    requires forall i :: m.cursor[d] <= i < c ==> Key(d, i) !in m.alloc
    ensures WellFormed(Skipped(m, d, c)) && SharedBase(Skipped(m, d, c))
    ensures Runs(m, steps, Skipped(m, d, c))
    decreases c - m.cursor[d]
  {
    hide WellFormed;
    WellFormedCursor(m);
    if m.cursor[d] == c {
      steps := [];
      assert m.cursor[d := c] == m.cursor;
    } else {
      var m1 := Do(m, BulkSkip(d));
      StepWellFormed(m, BulkSkip(d));
      assert m1 == Skipped(m, d, m.cursor[d] + 1);
      var rest := SkipRun(m1, d, c);
      assert m1.cursor[d := c] == m.cursor[d := c];
      steps := [BulkSkip(d)] + rest;
      assert steps[1..] == rest;
    }
  }

  lemma WellFormedCursor(m: Mig)
    requires WellFormed(m)
    ensures |m.cursor| == |m.chunks|
  {
  }

  /* ---- sector arithmetic ---- */

  /** A cursor stands on a chunk boundary or at the end. */
  predicate AtBoundary(s: nat, total: nat) {
    s <= total && (s % CHUNK == 0 || s == total)
  }

  /** Chunks wholly inside an unallocated range are not present. */
  lemma ChunksUnallocated(present: set<Sec>, d: nat, from: nat, to: nat, total: nat, c: nat)
    requires forall x :: x in present && x.d == d ==> x.s < total
    requires Unallocated(present, d, from, to) && from % CHUNK == 0 && from <= to
    requires from / CHUNK <= c && (CHUNK * c + CHUNK <= to || total <= to)
    ensures Key(d, c) !in AllocKeys(present)
  {
    forall x | x in present ensures Key(x.d, x.s / CHUNK) != Key(d, c) {
      assert x.d == d && from <= x.s < to ==> x !in present;
    }
  }

  /** After a boundary at b comes the chunk starting at b. */
  lemma BoundaryChunk(b: nat, total: nat)
    requires b % CHUNK == 0 && b < total
    ensures ChunksOf(b) == b / CHUNK < ChunksOf(total)
    ensures var nr := if total - b < CHUNK then total - b else CHUNK;
            AtBoundary(b + nr, total) && ChunksOf(b + nr) == b / CHUNK + 1
  {
  }

  lemma ChunksAtEnd(s: nat, total: nat)
    requires AtBoundary(s, total)
    ensures ChunksOf(s) <= ChunksOf(total) && (ChunksOf(s) == ChunksOf(total) <==> s == total)
  {
  }

  ghost predicate Cursors(total: seq<nat>, curSector: seq<nat>) {
    |curSector| == |total| && forall d :: 0 <= d < |total| ==> total[d] > 0 && AtBoundary(curSector[d], total[d])
  }

  ghost predicate DirtyCursors(total: seq<nat>, curDirty: seq<nat>) {
    |curDirty| == |total| && forall d :: 0 <= d < |total| ==> curDirty[d] % CHUNK == 0
  }

  ghost predicate InRange(total: seq<nat>, present: set<Sec>) {
    forall x :: x in present ==> x.d < |total| && x.s < total[x.d]
  }

  /** A set aio bit means a read of that chunk is in flight. */
  ghost predicate AioInFlight(m: Mig) {
    forall k :: k in m.aio ==> InFlight(m, k)
  }

  lemma CursorSet(total: seq<nat>, curSector: seq<nat>, d: nat, v: nat)
    requires Cursors(total, curSector) && d < |total| && AtBoundary(v, total[d])
    ensures Cursors(total, curSector[d := v])
    ensures ChunkCounts(curSector[d := v]) == ChunkCounts(curSector)[d := ChunksOf(v)]
  {
  }

  lemma CursorAt(total: seq<nat>, curSector: seq<nat>, d: nat)
    requires Cursors(total, curSector) && d < |total|
    ensures |curSector| == |total| && AtBoundary(curSector[d], total[d])
    ensures |ChunkCounts(curSector)| == |total|
    ensures ChunkCounts(curSector)[d] == ChunksOf(curSector[d]) <= ChunksOf(total[d]) == ChunkCounts(total)[d]
  {
    ChunksAtEnd(curSector[d], total[d]);
  }

  /** Sectors the bulk scan has still to pass. */
  ghost function Remaining(total: seq<nat>, curSector: seq<nat>): nat {
    if total == [] || curSector == [] then 0
    else (if curSector[0] < total[0] then total[0] - curSector[0] else 0) + Remaining(total[1..], curSector[1..])
  }

  lemma {:induction false} RemainingDrops(total: seq<nat>, was: seq<nat>, curSector: seq<nat>, d: nat)
    requires |curSector| == |was| == |total| && d < |total| && was[d] < curSector[d] <= total[d]
    requires forall e :: 0 <= e < |total| && e != d ==> curSector[e] == was[e]
    ensures Remaining(total, curSector) < Remaining(total, was)
  {
    if d == 0 {
      assert curSector[1..] == was[1..];
    } else {
      RemainingDrops(total[1..], was[1..], curSector[1..], d - 1);
    }
  }

  lemma CursorShape(total: seq<nat>, curSector: seq<nat>)
    requires Cursors(total, curSector)
    ensures |curSector| == |total| && forall d :: 0 <= d < |total| ==> curSector[d] <= total[d]
  {
  }

  /* ---- the migration object ---- */

  /** A guest write of n sectors inside one chunk, and what the chunk holds afterwards. */
  datatype GuestWrite = GuestWrite(d: nat, s: nat, n: nat, data: Data) {
    function Chunk(): Key { Key(d, s / CHUNK) }
    function Sectors(): set<Sec> { set t | s <= t < s + n :: Sec(d, t) }
  }

  predicate InDevice(total: seq<nat>, w: GuestWrite) {
    w.d < |total| && w.n > 0 && w.s + w.n <= total[w.d] && w.s % CHUNK + w.n <= CHUNK
  }

  ghost predicate GuestInDevices(total: seq<nat>, guest: nat -> seq<GuestWrite>) {
    forall i, j :: 0 <= j < |guest(i)| ==> InDevice(total, guest(i)[j])
  }

  lemma GuestAlloc(present: set<Sec>, w: GuestWrite)
    requires w.n > 0 && w.s % CHUNK + w.n <= CHUNK
    ensures AllocKeys(present + w.Sectors()) == AllocKeys(present) + {w.Chunk()}
  {
    var more := w.Sectors();
    forall k | k in AllocKeys(present + more) ensures k in AllocKeys(present) + {w.Chunk()} {
    }
    assert Sec(w.d, w.s) in present + more;
  }

  lemma GuestChunk(total: seq<nat>, w: GuestWrite)
    requires InDevice(total, w)
    ensures w.Chunk().c < ChunksOf(total[w.d])
  {
  }

  /** The chunks that the guest writes in a run. */
  ghost function Written(steps: seq<Step>): set<Key> {
    set a | a in steps && a.Write? :: a.k
  }

  lemma WrittenNothing()
    ensures Written([]) == {}
  {
  }

  lemma WrittenAppend(a: seq<Step>, b: seq<Step>)
    ensures Written(a + b) == Written(a) + Written(b)
  {
    forall k | k in Written(a) + Written(b) ensures k in Written(a + b) {
      var x :| x in a + b && x.Write? && x.k == k;
    }
  }

  lemma WrittenStep(steps: seq<Step>, a: Step)
    ensures Written(steps + [a]) == if a.Write? then Written(steps) + {a.k} else Written(steps)
  {
    WrittenAppend(steps, [a]);
    assert a in [a];
    assert forall k :: k in Written([a]) ==> a.Write? && k == a.k;
  }

  class BlkMig {
    const total: seq<nat>          // total_sectors of each device
    const shared: bool             // shared_base
    const guest: nat -> seq<GuestWrite>  // guest writes that complete before each of our reads does
    ghost const base: map<Key, Data>
    ghost var present: set<Sec>    // kept by the image driver
    var disk: map<Key, Data>
    var dirty: set<Key>
    var aio: set<Key>
    var curSector: seq<nat>
    var curDirty: seq<nat>
    var flight: seq<Read>          // requests held by the block layer
    var completions: nat           // of our reads, so far
    var blkList: seq<Copy>
    var sent: seq<Copy>
    var submitted: int
    var readDone: int
    var transferred: int

    /** init_blk_migration on devices of positive length. */
    constructor (total: seq<nat>, shared: bool, guest: nat -> seq<GuestWrite>,
                 disk: map<Key, Data>, ghost present: set<Sec>, ghost base: map<Key, Data>)
      requires GuestInDevices(total, guest)
      requires forall d :: 0 <= d < |total| ==> total[d] > 0
      requires forall k: Key :: k.d < |total| && k.c < ChunksOf(total[k.d]) ==> k in disk && k in base
      requires forall x :: x in present ==> x.d < |total| && x.s < total[x.d]
      ensures Valid() && Initial(View()) && this.total == total && this.shared == shared && this.guest == guest
      ensures this.disk == disk && this.base == base
    {
      this.total, this.shared, this.guest := total, shared, guest;
      this.disk, this.present, this.base := disk, present, base;
      completions := 0;
      dirty, aio, flight, blkList, sent := {}, {}, [], [], [];
      curSector := seq(|total|, _ => 0);
      curDirty := seq(|total|, _ => 0);
      submitted, readDone, transferred := 0, 0, 0;
    }

    ghost function View(): Mig
      reads this
    {
      Mig(ChunkCounts(total), disk, AllocKeys(present), dirty, ChunkCounts(curSector), aio, flight, blkList, sent, base)
    }

    /** The counters and cursors agree with the lists, and a set aio bit means a read in flight. */
    ghost predicate Valid()
      reads this
    {
      && Cursors(total, curSector) && DirtyCursors(total, curDirty) && InRange(total, present)
      && GuestInDevices(total, guest)
      && submitted == |flight| && readDone == |blkList|
      && AioInFlight(View()) && WellFormed(View())
    }

    /** One more read is in flight, of a chunk no longer dirty. */
    ghost predicate ReadSubmitted(flight0: seq<Read>, dirty0: set<Key>, submitted0: int, k: Key)
      reads this
    {
      flight == flight0 + [Read(k, None)] && dirty == dirty0 - {k} && submitted == submitted0 + 1
    }

    /** The newest read in flight is of k, and its aio bit is set. */
    ghost predicate JustSubmitted(k: Key)
      reads this
    {
      k in aio && flight != [] && flight[|flight| - 1] == Read(k, None)
    }

    /** mig_save_device_bulk: pass over unallocated sectors if the base is shared, then submit the
        next chunk. It returns true when the device is finished; c is where the passing over ended. */
    method SaveDeviceBulk(d: nat, answer: nat -> (bool, nat)) returns (done: bool, ghost c: nat)
      requires Valid() && d < |total| && d < |curSector| && curSector[d] < total[d]
      requires shared ==> Truthful(answer, d, total[d], present)
      modifies this`curSector, this`flight, this`dirty, this`submitted
      ensures Valid() && d < |curSector| && (done <==> curSector[d] == total[d])
      ensures curSector == old(curSector)[d := curSector[d]] && old(curSector[d]) < curSector[d]
      ensures d < |old(View()).cursor| && old(View()).cursor[d] <= c <= ChunksOf(total[d])
      ensures !shared ==> c == old(View()).cursor[d]
      ensures forall i :: old(View()).cursor[d] <= i < c ==> Key(d, i) !in View().alloc
      ensures WellFormed(Skipped(old(View()), d, c))
      ensures View() == if c == ChunksOf(total[d]) then Skipped(old(View()), d, c)
                        else Do(Skipped(old(View()), d, c), BulkRead(d))
      ensures if flight == old(flight)
              then submitted == old(submitted) && dirty == old(dirty) && done
              else ReadSubmitted(old(flight), old(dirty), old(submitted), Key(d, c)) && CHUNK * c < total[d] &&
                   curSector[d] == (if total[d] - CHUNK * c < CHUNK then total[d] else CHUNK * c + CHUNK)
      ensures shared && flight != old(flight) ==>
              exists u :: old(curSector[d]) <= u < total[d] && u / CHUNK == c && answer(u).0
      ensures shared && (forall u :: old(curSector[d]) <= u < total[d] ==> !answer(u).0) ==>
              done && curSector[d] == total[d] && flight == old(flight)
      ensures !shared ==> flight != old(flight) && c == old(curSector[d]) / CHUNK
    {
      hide WellFormed, AllocKeys, GuestInDevices, InFlight, Cursors, DirtyCursors, InRange, ChunkCounts, ChunksOf,
           AtBoundary, Truthful, Unallocated, Do;
      ghost var alloc := View().alloc;
      CursorAt(total, curSector, d);
      var cur := SkipUnallocated(d, answer);
      c := SkipCounts(total, present, d, curSector[d], cur);
      if cur >= total[d] {
        FinishDevice(d);
        return true, c;
      }
      cur := cur - cur % CHUNK;
      done := SubmitBulk(d, cur / CHUNK);
    }

    /** All remaining sectors were passed over. */
    method FinishDevice(d: nat)
      requires Valid() && d < |total|
      modifies this`curSector
      ensures Valid() && d < |curSector| && curSector == old(curSector)[d := total[d]]
      ensures d < |old(View()).cursor| && WellFormed(Skipped(old(View()), d, ChunksOf(total[d])))
      ensures View() == Skipped(old(View()), d, ChunksOf(total[d]))
    {
      hide WellFormed, AllocKeys, GuestInDevices, ChunksOf, InFlight, Cursors, DirtyCursors, InRange, ChunkCounts;
      ghost var m := View();
      CursorAt(total, curSector, d);
      WellFormedCursor(m);
      CursorSet(total, curSector, d, total[d]);
      SkippedWellFormed(m, d, ChunksOf(total[d]));
      curSector := curSector[d := total[d]];
      SameFlight(m, View());
    }

    /** Submit the read of chunk c, which starts at sector CHUNK * c. */
    method SubmitBulk(d: nat, c: nat) returns (done: bool)
      requires Valid() && d < |total| && d < |curSector| && curSector[d] <= CHUNK * c < total[d]
      modifies this`curSector, this`flight, this`dirty, this`submitted
      ensures Valid() && d < |curSector| && curSector[d] > CHUNK * c && (done <==> curSector[d] == total[d])
      ensures curSector == old(curSector)[d := curSector[d]]
      ensures d < |old(View()).cursor| && old(View()).cursor[d] <= c < ChunksOf(total[d])
      ensures WellFormed(Skipped(old(View()), d, c))
      ensures View() == Do(Skipped(old(View()), d, c), BulkRead(d))
      ensures ReadSubmitted(old(flight), old(dirty), old(submitted), Key(d, c))
      ensures curSector[d] == if total[d] - CHUNK * c < CHUNK then total[d] else CHUNK * c + CHUNK
    {
      hide WellFormed, AllocKeys, GuestInDevices, ChunksOf, InFlight, Cursors, DirtyCursors, InRange, ChunkCounts,
           AtBoundary;
      ghost var m := View();
      CursorAt(total, curSector, d);
      WellFormedCursor(m);
      BoundaryOrder(curSector[d], c, total[d]);
      SkippedWellFormed(m, d, c);
      StepWellFormed(Skipped(m, d, c), BulkRead(d));
      var b := CHUNK * c;
      var nr := if total[d] - b < CHUNK then total[d] - b else CHUNK;
      CursorSet(total, curSector, d, b + nr);
      flight := flight + [Read(Key(d, c), None)];
      submitted := submitted + 1;
      dirty := dirty - {Key(d, c)};
      curSector := curSector[d := b + nr];
      assert m.cursor[d := c][d := c + 1] == m.cursor[d := c + 1];
      assert View() == Do(Skipped(m, d, c), BulkRead(d));
      AioStaysInFlight(m, Read(Key(d, c), None), View());
      done := b + nr >= total[d];
    }

    /** What sector arithmetic says about submitting chunk c. */
    static lemma BoundaryOrder(s: nat, c: nat, total: nat)
      requires AtBoundary(s, total) && s <= CHUNK * c < total
      ensures ChunksOf(s) <= c < ChunksOf(total)
      ensures var nr := if total - CHUNK * c < CHUNK then total - CHUNK * c else CHUNK;
              AtBoundary(CHUNK * c + nr, total) && ChunksOf(CHUNK * c + nr) == c + 1
    {
    }

    static lemma SameFlight(m: Mig, m': Mig)
      requires m.flight == m'.flight
      ensures forall k :: InFlight(m, k) ==> InFlight(m', k)
    {
    }

    /** The shared-base loop of mig_save_device_bulk. */
    method SkipUnallocated(d: nat, answer: nat -> (bool, nat)) returns (cur: nat)
      requires d < |total| && d < |curSector| && curSector[d] < total[d]
      requires shared ==> Truthful(answer, d, total[d], present)
      ensures curSector[d] <= cur && (!shared ==> cur == curSector[d])
      ensures shared ==> cur >= total[d] || answer(cur).0
      ensures forall t :: curSector[d] <= t < cur ==> SaidUnallocated(answer, curSector[d], t)
      ensures Unallocated(present, d, curSector[d], if cur < total[d] then cur else total[d])
    {
      cur := curSector[d];
      if shared {
        while cur < total[d] && !answer(cur).0
          invariant curSector[d] <= cur
          invariant forall t :: curSector[d] <= t < cur ==> SaidUnallocated(answer, curSector[d], t)
          invariant Unallocated(present, d, curSector[d], if cur < total[d] then cur else total[d])
          decreases total[d] - cur
        {
          assert forall t :: cur <= t < cur + answer(cur).1 ==> SaidUnallocated(answer, curSector[d], t);
          cur := cur + answer(cur).1;
        }
      }
    }

    /** The chunks the loop has passed over are unallocated; c is the chunk it stopped in. */
    static lemma SkipCounts(total: seq<nat>, present: set<Sec>, d: nat, from: nat, cur: nat) returns (c: nat)
      requires InRange(total, present) && d < |total| && AtBoundary(from, total[d]) && from < total[d] && from <= cur
      requires Unallocated(present, d, from, if cur < total[d] then cur else total[d])
      ensures forall i :: ChunksOf(from) <= i < c ==> Key(d, i) !in AllocKeys(present)
      ensures ChunksOf(from) <= c && (cur == from ==> c == ChunksOf(from))
      ensures if cur < total[d] then c == (cur - cur % CHUNK) / CHUNK && from <= CHUNK * c < total[d]
              else c == ChunksOf(total[d])
    {
      BoundaryChunk(from, total[d]);
      var to := if cur < total[d] then cur else total[d];
      c := if cur < total[d] then cur / CHUNK else ChunksOf(total[d]);
      forall i | ChunksOf(from) <= i < c ensures Key(d, i) !in AllocKeys(present) {
        ChunksUnallocated(present, d, from, to, total[d], i);
      }
    }

    static lemma SkippedWellFormed(m: Mig, d: nat, c: nat)
      requires WellFormed(m) && d < |m.chunks| && m.cursor[d] <= c <= m.chunks[d]
      ensures WellFormed(Skipped(m, d, c))
    {
    }

    static lemma AioStaysInFlight(m: Mig, r: Read, m': Mig)
      requires m'.flight == m.flight + [r]
      ensures InFlight(m', r.k) && forall k :: InFlight(m, k) ==> InFlight(m', k)
    {
      assert m'.flight[|m.flight|] == r;
      forall k | InFlight(m, k) ensures InFlight(m', k) {
        var i :| 0 <= i < |m.flight| && m.flight[i].k == k;
        assert m'.flight[i].k == k;
      }
    }

    /* ---- the guest ---- */

    /** A guest write completes: bdrv_co_writev marks the chunk dirty and the driver allocates the sectors. */
    method GuestWrites(w: GuestWrite)
      requires Valid() && InDevice(total, w)
      modifies this`disk, this`dirty, this`present
      ensures Valid() && Enabled(old(View()), Write(w.Chunk(), w.data))
      ensures View() == Do(old(View()), Write(w.Chunk(), w.data))
      ensures disk == old(disk)[Key(w.d, w.s / CHUNK) := w.data] && dirty == old(dirty) + {Key(w.d, w.s / CHUNK)}
    {
      hide WellFormed, AllocKeys, GuestInDevices, InFlight, Cursors, DirtyCursors;
      ghost var m, k := View(), w.Chunk();
      GuestChunk(total, w);
      GuestAlloc(present, w);
      StepWellFormed(m, Write(k, w.data));
      disk := disk[w.Chunk() := w.data];
      dirty := dirty + {w.Chunk()};
      present := present + w.Sectors();
      assert View() == Do(m, Write(k, w.data));
      SameFlight(m, View());
    }

    /** The guest runs until the next of our reads completes. */
    method GuestRuns() returns (ghost steps: seq<Step>)
      requires Valid()
      modifies this`disk, this`dirty, this`present
      ensures Valid() && Runs(old(View()), steps, View()) && flight == old(flight) && aio == old(aio)
      ensures dirty == old(dirty) + Written(steps) && (Quiet() ==> Written(steps) == {})
    {
      hide WellFormed, AllocKeys, GuestInDevices, InFlight, Cursors, DirtyCursors, InRange, ChunkCounts, Runs, Written;
      var ws := guest(completions);
      steps := [];
      ghost var m := View();
      RunsNothing(m);
      WrittenNothing();
      for i := 0 to |ws|
        invariant Valid() && Runs(m, steps, View()) && flight == m.flight && aio == m.aio
        invariant dirty == m.dirty + Written(steps) && (Quiet() ==> Written(steps) == {})
      {
        ghost var m1 := View();
        GuestInDevice(total, guest, completions, i);
        GuestWrites(ws[i]);
        WrittenStep(steps, Write(ws[i].Chunk(), ws[i].data));
        steps := RunThen(m, steps, m1, Write(ws[i].Chunk(), ws[i].data), View());
      }
    }

    static lemma GuestInDevice(total: seq<nat>, guest: nat -> seq<GuestWrite>, i: nat, j: nat)
      requires GuestInDevices(total, guest) && j < |guest(i)|
      ensures InDevice(total, guest(i)[j])
    {
    }

    /** The guest writes nothing while we wait. */
    ghost predicate Quiet() {
      forall i :: guest(i) == []
    }

    /* ---- completion ---- */

    /** The block layer reads the disk for request i. */
    method SampleDisk(i: nat)
      requires Valid() && i < |flight| && flight[i].sample.None?
      modifies this`flight
      ensures Valid() && View() == Do(old(View()), Sample(i)) && |flight| == |old(flight)| && flight[i].sample.Some?
      ensures old(flight)[i].k in disk
      ensures flight == old(flight)[i := Read(old(flight)[i].k, Some(disk[old(flight)[i].k]))]
    {
      hide WellFormed, AllocKeys, GuestInDevices, InFlight, Cursors, DirtyCursors, InRange, ChunkCounts;
      ghost var m := View();
      FlightOnDisk(m, i);
      StepWellFormed(m, Sample(i));
      flight := flight[i := Read(flight[i].k, Some(disk[flight[i].k]))];
      assert View() == Do(m, Sample(i));
      SampleAio(m, i);
    }

    /** blk_mig_read_cb: queue the data, clear the aio bit, move one request between the counters.
        The assertion submitted >= 0 holds because submitted counts the reads in flight. */
    method ReadCb(i: nat)
      requires Valid() && i < |flight| && flight[i].sample.Some?
      modifies this`flight, this`blkList, this`aio, this`submitted, this`readDone
      ensures Valid() && View() == Do(old(View()), Complete(i)) && |flight| == |old(flight)| - 1
      ensures submitted >= 0 && submitted == old(submitted) - 1 && readDone == old(readDone) + 1
      ensures blkList == old(blkList) + [Copy(old(flight)[i].k, old(flight)[i].sample.value)]
      ensures aio == old(aio) - {old(flight)[i].k} && flight == old(flight)[..i] + old(flight)[i + 1..]
    {
      hide WellFormed, AllocKeys, GuestInDevices, InFlight, Cursors, DirtyCursors, InRange, ChunkCounts;
      ghost var m := View();
      StepWellFormed(m, Complete(i));
      var r := flight[i];
      blkList := blkList + [Copy(r.k, r.sample.value)];
      aio := aio - {r.k};
      flight := flight[..i] + flight[i + 1..];
      submitted := submitted - 1;
      readDone := readDone + 1;
      assert submitted >= 0;
      assert View() == Do(m, Complete(i));
      CompleteAio(m, i);
    }

    /** qemu_aio_flush: every request completes, in whatever order the block layer likes, and guest writes complete
        between them. */
    method AioFlush() returns (ghost steps: seq<Step>)
      requires Valid()
      modifies this`flight, this`blkList, this`aio, this`submitted, this`readDone
      modifies this`disk, this`dirty, this`present, this`completions
      ensures Valid() && flight == [] && aio == {} && submitted + readDone == old(submitted + readDone)
      ensures Runs(old(View()), steps, View())
      ensures dirty == old(dirty) + Written(steps) && (Quiet() ==> Written(steps) == {})
    {
      hide WellFormed, AllocKeys, GuestInDevices, InFlight, Cursors, DirtyCursors, InRange, ChunkCounts, Runs, Do,
           Enabled, Written;
      steps := [];
      ghost var m := View();
      RunsNothing(m);
      WrittenNothing();
      while flight != []
        invariant Valid() && Runs(m, steps, View()) && submitted + readDone == old(submitted + readDone)
        invariant dirty == m.dirty + Written(steps) && (Quiet() ==> Written(steps) == {})
        decreases |flight|
      {
        ghost var m1 := View();
        ghost var more := GuestRuns();
        RunsAppend(m, steps, m1, more, View());
        WrittenAppend(steps, more);
        steps := steps + more;
        ghost var m2 := View();
        more := CompleteOne();
        RunsAppend(m, steps, m2, more, View());
        WrittenAppend(steps, more);
        steps := steps + more;
      }
      NothingInFlight(View());
    }

    /** One read completes. */
    method CompleteOne() returns (ghost steps: seq<Step>)
      requires Valid() && flight != []
      modifies this`flight, this`blkList, this`aio, this`submitted, this`readDone, this`completions
      ensures Valid() && |flight| == |old(flight)| - 1 && submitted + readDone == old(submitted + readDone)
      ensures Runs(old(View()), steps, View()) && dirty == old(dirty) && Written(steps) == {}
    {
      hide WellFormed, AllocKeys, GuestInDevices, InFlight, Cursors, DirtyCursors, InRange, ChunkCounts, Runs, Do,
           Enabled, Written;
      steps := [];
      ghost var m := View();
      RunsNothing(m);
      WrittenNothing();
      var i :| 0 <= i < |flight|;
      if flight[i].sample.None? {
        EnabledSample(m, i);
        SampleDisk(i);
        WrittenStep(steps, Sample(i));
        steps := RunThen(m, steps, m, Sample(i), View());
      }
      ghost var m2 := View();
      EnabledComplete(m2, i);
      ReadCb(i);
      WrittenStep(steps, Complete(i));
      steps := RunThen(m, steps, m2, Complete(i), View());
      completions := completions + 1;
    }

    static lemma RunsNothing(m: Mig)
      ensures Runs(m, [], m)
    {
    }

    static lemma EnabledSample(m: Mig, i: nat)
      requires WellFormed(m) && i < |m.flight| && m.flight[i].sample.None?
      ensures Enabled(m, Sample(i)) && Do(m, Sample(i)).dirty == m.dirty
    {
    }

    static lemma EnabledComplete(m: Mig, i: nat)
      requires WellFormed(m) && i < |m.flight| && m.flight[i].sample.Some?
      ensures Enabled(m, Complete(i)) && Do(m, Complete(i)).dirty == m.dirty
    {
    }

    static lemma RunThen(m: Mig, steps: seq<Step>, m1: Mig, a: Step, m2: Mig) returns (more: seq<Step>)
      requires Runs(m, steps, m1) && WellFormed(m1) && Enabled(m1, a) && m2 == Do(m1, a)
      ensures Runs(m, more, m2) && more == steps + [a]
    {
      OneStep(m1, a, m2);
      RunsAppend(m, steps, m1, [a], m2);
      more := steps + [a];
    }

    static lemma FlightOnDisk(m: Mig, i: nat)
      requires WellFormed(m) && i < |m.flight|
      ensures m.flight[i].k in m.disk
    {
      assert ValidKey(m, m.flight[i].k);
    }

    static lemma NothingInFlight(m: Mig)
      requires AioInFlight(m) && m.flight == []
      ensures m.aio == {}
    {
    }

    static lemma SampleAio(m: Mig, i: nat)
      requires WellFormed(m) && AioInFlight(m) && Enabled(m, Sample(i))
      ensures AioInFlight(Do(m, Sample(i)))
    {
      var m' := Do(m, Sample(i));
      forall k | k in m'.aio ensures InFlight(m', k) {
        var j :| 0 <= j < |m.flight| && m.flight[j].k == k;
        assert m'.flight[j].k == k;
      }
    }

    static lemma CompleteAio(m: Mig, i: nat)
      requires WellFormed(m) && AioInFlight(m) && Enabled(m, Complete(i))
      ensures AioInFlight(Do(m, Complete(i)))
    {
      var m' := Do(m, Complete(i));
      forall k | k in m'.aio ensures InFlight(m', k) {
        var j :| 0 <= j < |m.flight| && m.flight[j].k == k;
        assert m'.flight[if j < i then j else j - 1].k == k;
      }
    }

    /* ---- the dirty passes ---- */

    /** No chunk of device d from sector `from` up to sector `to` is dirty. */
    static ghost predicate CleanRange(dirty: set<Key>, d: nat, from: nat, to: nat) {
      forall k :: k in dirty && k.d == d ==> !(from <= CHUNK * k.c < to)
    }

    /** A chunk of device d from sector `from` to sector `to` had its in-flight bit set. */
    static ghost predicate WaitedFor(aio: set<Key>, d: nat, from: nat, to: nat) {
      exists k :: k in aio && k.d == d && from <= CHUNK * k.c <= to
    }

    /** Wait for all requests if one is for chunk k. */
    method WaitFor(k: Key) returns (ghost steps: seq<Step>)
      requires Valid()
      modifies this`flight, this`blkList, this`aio, this`submitted, this`readDone
      modifies this`disk, this`dirty, this`present, this`completions
      ensures Valid() && k !in aio && submitted + readDone == old(submitted + readDone)
      ensures Runs(old(View()), steps, View())
      ensures dirty == old(dirty) + Written(steps) && (Quiet() ==> Written(steps) == {})
      ensures if k in old(aio) then old(flight) != [] else steps == [] && View() == old(View())
    {
      hide WellFormed, AllocKeys, GuestInDevices, InFlight, Cursors, DirtyCursors, InRange, ChunkCounts, Runs, Written;
      steps := [];
      RunsNothing(View());
      WrittenNothing();
      if k in aio {
        if flight == [] {
          NothingInFlight(View());
        }
        steps := AioFlush();
      }
    }

    /** The loop of mig_save_device_dirty up to the first dirty chunk: a chunk whose aio bit is set
        first waits for all requests. */
    method ScanDirty(d: nat) returns (found: bool, ghost steps: seq<Step>)
      requires Valid() && d < |total| && d < |curDirty|
      modifies this`curDirty, this`flight, this`blkList, this`aio, this`submitted, this`readDone
      modifies this`disk, this`dirty, this`present, this`completions
      ensures Valid() && Runs(old(View()), steps, View())
      ensures dirty == old(dirty) + Written(steps) && (Quiet() ==> Written(steps) == {})
      ensures submitted + readDone == old(submitted + readDone)
      ensures old(flight) == [] ==> steps == [] && View() == old(View())
      ensures steps != [] ==> WaitedFor(old(aio), d, old(curDirty[d]), curDirty[d])
      ensures |curDirty| == |old(curDirty)|
      ensures forall e :: 0 <= e < |curDirty| && e != d ==> curDirty[e] == old(curDirty[e])
      ensures curDirty[d] >= old(curDirty[d]) && CleanRange(dirty - Written(steps), d, old(curDirty[d]), curDirty[d])
      ensures found <==> curDirty[d] < total[d]
      ensures found ==>
              Key(d, curDirty[d] / CHUNK) in dirty && Key(d, curDirty[d] / CHUNK) !in aio && curDirty[d] % CHUNK == 0
    {
      hide WellFormed, AllocKeys, GuestInDevices, InFlight, Cursors, InRange, ChunkCounts, Runs, Written;
      steps := [];
      ghost var m := View();
      RunsNothing(m);
      WrittenNothing();
      var sector := curDirty[d];
      ghost var waited := false;
      while sector < total[d]
        invariant Valid() && Runs(m, steps, View())
        invariant dirty == m.dirty + Written(steps) && (Quiet() ==> Written(steps) == {})
        invariant submitted + readDone == old(submitted + readDone)
        invariant if waited then m.flight != [] && WaitedFor(old(aio), d, old(curDirty[d]), sector)
                  else steps == [] && View() == m
        invariant |curDirty| == |old(curDirty)| && curDirty[d] == sector >= old(curDirty[d])
        invariant forall e :: 0 <= e < |curDirty| && e != d ==> curDirty[e] == old(curDirty[e])
        invariant CleanRange(dirty - Written(steps), d, old(curDirty[d]), sector)
        decreases total[d] - sector
      {
        ghost var m1 := View();
        ghost var more := WaitFor(Key(d, sector / CHUNK));
        RunsAppend(m, steps, m1, more, View());
        WrittenAppend(steps, more);
        if !waited && Key(d, sector / CHUNK) in m1.aio {
          waited := true;
          assert CHUNK * Key(d, sector / CHUNK).c == sector;
        }
        steps := steps + more;
        if Key(d, sector / CHUNK) in dirty {
          return true, steps;
        }
        sector := sector + CHUNK;
        curDirty := curDirty[d := sector];
      }
      found := false;
    }

    /** The asynchronous branch: submit a read, set the aio bit, reset the dirty bit. */
    method SubmitDirty(k: Key)
      requires Valid() && BulkDone(View()) && k in dirty && k !in aio
      modifies this`flight, this`aio, this`dirty, this`submitted
      ensures Valid() && Enabled(old(View()), DirtyRead(k)) && View() == Do(old(View()), DirtyRead(k))
      ensures ReadSubmitted(old(flight), old(dirty), old(submitted), k) && aio == old(aio) + {k}
    {
      hide WellFormed, AllocKeys, GuestInDevices, InFlight, Cursors, DirtyCursors, InRange, ChunkCounts;
      ghost var m := View();
      StepWellFormed(m, DirtyRead(k));
      flight := flight + [Read(k, None)];
      submitted := submitted + 1;
      aio := aio + {k};
      dirty := dirty - {k};
      assert View() == Do(m, DirtyRead(k));
      AioStaysInFlight(m, Read(k, None), View());
    }

    /** The synchronous branch: read and send the chunk at once. */
    method SendDirty(k: Key)
      requires Valid() && BulkDone(View()) && k in dirty
      modifies this`sent, this`dirty
      ensures k in disk && Valid() && View() == SyncSend(old(View()), k)
      ensures sent == old(sent) + [Copy(k, disk[k])] && dirty == old(dirty) - {k}
    {
      hide AllocKeys, InFlight, Cursors, DirtyCursors, InRange, ChunkCounts;
      ghost var m := View();
      assert ValidKey(m, k) && Reached(m, k);
      sent := sent + [Copy(k, disk[k])];
      dirty := dirty - {k};
      SameFlight(m, View());
      WellFormedCopies(m, m.queue, m.sent + [Copy(k, m.disk[k])]);
    }

    /** mig_save_device_dirty with is_async: at most one read is submitted, for the first dirty chunk at or after the
        cursor; it returns true when there is none. Chunks it passed can be dirty again only by guest writes during
        its wait. */
    method SaveDeviceDirtyAsync(d: nat) returns (done: bool, ghost steps: seq<Step>)
      requires Valid() && BulkDone(View()) && d < |total| && d < |curDirty|
      modifies this`curDirty, this`flight, this`blkList, this`aio, this`submitted, this`readDone
      modifies this`disk, this`dirty, this`present, this`completions
      ensures Valid() && BulkDone(View()) && |curDirty| == |old(curDirty)| && Runs(old(View()), steps, View())
      ensures forall e :: 0 <= e < |curDirty| && e != d ==> curDirty[e] == old(curDirty[e])
      ensures curDirty[d] >= old(curDirty[d]) && CleanRange(dirty - Written(steps), d, old(curDirty[d]), curDirty[d])
      ensures done <==> curDirty[d] >= total[d]
      ensures submitted + readDone == old(submitted + readDone) + (if done then 0 else 1)
      ensures var k, found := Key(d, curDirty[d] / CHUNK), old(dirty) + Written(steps);
              if done then dirty == found
              else k in found && dirty == found - {k} && JustSubmitted(k)
      ensures Quiet() ==> Written(steps) == {}
    {
      hide WellFormed, AllocKeys, GuestInDevices, InFlight, Cursors, DirtyCursors, InRange, ChunkCounts, Runs, Written;
      ghost var m := View();
      var found;
      found, steps := ScanDirty(d);
      assert BulkDone(View());
      if found {
        ghost var m1 := View();
        SubmitDirty(Key(d, curDirty[d] / CHUNK));
        WrittenStep(steps, DirtyRead(Key(d, curDirty[d] / CHUNK)));
        steps := RunThen(m, steps, m1, DirtyRead(Key(d, curDirty[d] / CHUNK)), View());
      }
      done := curDirty[d] >= total[d];
    }

    /** mig_save_device_dirty without is_async, in stage 3. */
    method SaveDeviceDirtySync(d: nat) returns (done: bool)
      requires Valid() && BulkDone(View()) && flight == [] && d < |total| && d < |curDirty|
      modifies this`curDirty, this`flight, this`blkList, this`aio, this`submitted, this`readDone, this`sent
      modifies this`disk, this`dirty, this`present, this`completions
      ensures Valid() && BulkDone(View()) && flight == [] && |curDirty| == |old(curDirty)|
      ensures forall e :: 0 <= e < |curDirty| && e != d ==> curDirty[e] == old(curDirty[e])
      ensures curDirty[d] >= old(curDirty[d]) && CleanRange(dirty, d, old(curDirty[d]), curDirty[d])
      ensures done <==> curDirty[d] >= total[d]
      ensures done ==> View() == old(View())
      ensures !done ==>
              var k := Key(d, curDirty[d] / CHUNK); k in old(dirty) && k in disk && View() == SyncSend(old(View()), k)
    {
      hide WellFormed, AllocKeys, GuestInDevices, InFlight, Cursors, DirtyCursors, InRange, ChunkCounts, Runs;
      var found, steps := ScanDirty(d);
      if found {
        SendDirty(Key(d, curDirty[d] / CHUNK));
      }
      done := curDirty[d] >= total[d];
    }

    /* ---- flush_blks and the stages ---- */

    /** flush_blks: send queued blocks in order until the list is empty or the rate limit is hit. The
        assertion read_done >= 0 holds because read_done counts the queued blocks. */
    method FlushBlks(limited: nat -> bool) returns (ghost steps: seq<Step>)
      requires Valid()
      modifies this`blkList, this`sent, this`readDone, this`transferred
      ensures Valid() && Runs(old(View()), steps, View())
      ensures forall i :: 0 <= i < |steps| ==> steps[i] == Send
      ensures readDone >= 0 && transferred - old(transferred) == old(readDone) - readDone == |steps|
      ensures (forall i :: 0 <= i < |steps| ==> !limited(i)) && (blkList != [] ==> limited(|steps|))
      ensures |steps| <= |old(blkList)| && blkList == old(blkList)[|steps|..]
      ensures sent == old(sent) + old(blkList)[..|steps|]
    {
      hide WellFormed, AllocKeys, GuestInDevices, InFlight, Cursors, DirtyCursors, InRange, ChunkCounts, Runs;
      steps := [];
      ghost var m := View();
      RunsNothing(m);
      var turn := 0;
      while blkList != []
        invariant Valid() && Runs(m, steps, View())
        invariant forall i :: 0 <= i < |steps| ==> steps[i] == Send
        invariant transferred - old(transferred) == old(readDone) - readDone
        invariant turn == |steps| == transferred - old(transferred) && forall i :: 0 <= i < turn ==> !limited(i)
        invariant turn <= |old(blkList)| && blkList == old(blkList)[turn..] && sent == old(sent) + old(blkList)[..turn]
        decreases |blkList|
      {
        if limited(turn) {
          break;
        }
        ghost var m1 := View();
        StepWellFormed(m1, Send);
        sent := sent + [blkList[0]];
        blkList := blkList[1..];
        readDone := readDone - 1;
        transferred := transferred + 1;
        assert readDone >= 0;
        assert View() == Do(m1, Send);
        SameFlight(m1, View());
        steps := RunThen(m, steps, m1, Send, View());
        turn := turn + 1;
      }
    }

    /** blk_mig_save_bulked_block: one step of the first device not yet finished; false when all are. */
    method SaveBulkedBlock(answers: nat -> (nat -> (bool, nat)))
      returns (ret: bool, ghost steps: seq<Step>, ghost dev: nat)
      requires Valid() && (shared ==> SharedBase(View()))
      requires shared ==> forall d :: 0 <= d < |total| ==> Truthful(answers(d), d, total[d], present)
      modifies this`curSector, this`flight, this`dirty, this`submitted
      ensures Valid() && Runs(old(View()), steps, View()) && (shared ==> SharedBase(View()))
      ensures ret ==> Remaining(total, curSector) < Remaining(total, old(curSector))
      ensures ret ==> dev < |total| && OnlyFirst(total, old(curSector), curSector, dev)
      ensures |flight| <= |old(flight)| + 1 && submitted <= old(submitted) + 1
      ensures !ret ==> View() == old(View()) && BulkDone(View())
    {
      hide WellFormed, AllocKeys, GuestInDevices, InFlight, DirtyCursors, InRange, Runs, Do, Cursors, AtBoundary,
           SharedBase, Truthful;
      ghost var m := View();
      CursorShape(total, curSector);
      var d := 0;
      while d < |total| && curSector[d] >= total[d]
        invariant d <= |total| && forall e :: 0 <= e < d ==> curSector[e] == total[e]
      {
        d := d + 1;
      }
      if d == |total| {
        RunsNothing(m);
        assert curSector == total;
        return false, [], 0;
      }
      ghost var was := curSector;
      CursorAt(total, curSector, d);
      var done, c := SaveDeviceBulk(d, answers(d));
      CursorShape(total, curSector);
      RemainingDrops(total, was, curSector, d);
      steps := BulkRun(m, d, c, Skipped(m, d, c), View(), shared);
      ret, dev := true, d;
    }

    /** The devices before dev were finished, dev was not, and its cursor alone has moved. */
    static ghost predicate OnlyFirst(total: seq<nat>, was: seq<nat>, now: seq<nat>, dev: nat) {
      && |now| == |was| == |total| && dev < |total| && was[dev] < total[dev] && was[dev] < now[dev]
      && (forall e :: 0 <= e < dev ==> was[e] == total[e])
      && (forall e :: 0 <= e < |total| && e != dev ==> now[e] == was[e])
    }

    /** What mig_save_device_bulk did, as steps. */
    static lemma BulkRun(m: Mig, d: nat, c: nat, m1: Mig, t: Mig, shared: bool) returns (steps: seq<Step>)
      requires WellFormed(m) && (shared ==> SharedBase(m)) && d < |m.chunks| && m.cursor[d] <= c <= m.chunks[d]
      requires !shared ==> c == m.cursor[d]
      requires forall i :: m.cursor[d] <= i < c ==> Key(d, i) !in m.alloc
      requires m1 == Skipped(m, d, c) && WellFormed(m1)
      requires if c == m.chunks[d] then t == m1 else Enabled(m1, BulkRead(d)) && t == Do(m1, BulkRead(d))
      ensures Runs(m, steps, t) && WellFormed(t) && (shared ==> SharedBase(t))
    {
      hide WellFormed;
      WellFormedCursor(m);
      if shared {
        steps := SkipRun(m, d, c);
      } else {
        steps := [];
        assert m.cursor[d := c] == m.cursor;
        RunsNothing(m);
      }
      if c < m.chunks[d] {
        StepWellFormed(m1, BulkRead(d));
        steps := RunThen(m, steps, m1, BulkRead(d), t);
      }
    }

    /** blk_mig_save_dirty_block with is_async: true when a read was submitted, false when the chunks still dirty are
        ones the guest wrote, behind the cursors, while this or an earlier call of the stage waited. `wet` holds the
        chunks written during the earlier waits. */
    method SaveDirtyBlockAsync(ghost wet: set<Key>) returns (ret: bool, ghost steps: seq<Step>, ghost k: Key)
      requires Valid() && BulkDone(View()) && |curDirty| == |total| && CleanBehind(wet)
      modifies this`curDirty, this`flight, this`blkList, this`aio, this`submitted, this`readDone
      modifies this`disk, this`dirty, this`present, this`completions
      ensures Valid() && BulkDone(View()) && |curDirty| == |total| && CleanBehind(wet + Written(steps))
      ensures Runs(old(View()), steps, View()) && (Quiet() ==> Written(steps) == {})
      ensures submitted + readDone == old(submitted + readDone) + (if ret then 1 else 0)
      ensures var found := old(dirty) + Written(steps);
              if ret
              then k in found && dirty == found - {k} && JustSubmitted(k)
              else dirty == found <= wet + Written(steps)
      ensures ret ==> forall j :: j in dirty && Ahead(j, k) ==> j in wet + Written(steps)
    {
      hide WellFormed, AllocKeys, GuestInDevices, InFlight, Cursors, DirtyCursors, InRange, ChunkCounts, Runs,
           CleanRange, Written, Behind;
      ghost var m := View();
      steps := [];
      RunsNothing(m);
      WrittenNothing();
      BehindMore(curDirty, dirty, wet, wet + Written(steps));
      for d := 0 to |total|
        invariant Valid() && BulkDone(View()) && |curDirty| == |total| && CleanBehind(wet + Written(steps))
        invariant Runs(m, steps, View()) && (Quiet() ==> Written(steps) == {})
        invariant submitted + readDone == old(submitted + readDone) && dirty == old(dirty) + Written(steps)
        invariant forall e :: 0 <= e < d ==> curDirty[e] >= total[e]
      {
        ghost var m1 := View();
        ghost var before, was := curDirty, dirty;
        var done, more := SaveDeviceDirtyAsync(d);
        CursorPasses(before, curDirty, was, dirty, d, wet + Written(steps), Written(more));
        RunsAppend(m, steps, m1, more, View());
        WrittenAppend(steps, more);
        assert wet + Written(steps) + Written(more) == wet + Written(steps + more);
        steps := steps + more;
        if !done {
          k := Key(d, curDirty[d] / CHUNK);
          NoneAhead(View(), total, curDirty, wet + Written(steps), k);
          return true, steps, k;
        }
      }
      AllPassed(View(), total, curDirty, wet + Written(steps));
      ret, k := false, Key(0, 0);
    }

    /** Stage 2 of block_save_live: fill the rate limit with bulk reads, then with dirty reads, and
        flush. `limit` is the rate limit in blocks. Everything it does is a run of the state machine; it goes on until
        the reads not yet sent (`pending`) fill the limit, or the bulk phase is over and nothing is dirty but what the
        guest wrote while the stage waited. */
    method Stage2(bulkCompleted: bool, limit: int, answers: nat -> (nat -> (bool, nat)), limited: nat -> bool)
      returns (bulkDone: bool, ghost steps: seq<Step>, ghost pending: int)
      requires Valid() && (shared ==> SharedBase(View()))
      requires shared ==> forall d :: 0 <= d < |total| ==> Truthful(answers(d), d, total[d], present)
      requires bulkCompleted ==> BulkDone(View())
      modifies this
      ensures Valid() && Runs(old(View()), steps, View())
      ensures bulkDone ==> BulkDone(View())
      ensures pending >= limit || (bulkDone && dirty <= Written(steps))
      ensures Quiet() ==> pending >= limit || (bulkDone && dirty == {})
      ensures pending <= limit || pending <= old(submitted + readDone)
      ensures pending >= submitted + readDone && (readDone == 0 || exists i :: limited(i))
    {
      hide WellFormed, AllocKeys, GuestInDevices, InFlight, Cursors, DirtyCursors, InRange, ChunkCounts, Runs,
           SharedBase, Truthful, BulkDone, Written, Behind, Remaining;
      ghost var m := View();
      steps := FlushBlks(limited);
      SendsKeepShape(m, steps, View(), shared);
      ResetDirtyCursor();
      bulkDone := bulkCompleted;
      ghost var wet: set<Key> := {};
      BehindStart(curDirty, dirty, wet);
      while submitted + readDone < limit
        invariant Valid() && |curDirty| == |total| && Runs(m, steps, View()) && (bulkDone ==> BulkDone(View()))
        invariant CleanBehind(wet) && wet <= Written(steps) && (Quiet() ==> wet == {})
        invariant submitted + readDone <= limit || submitted + readDone <= old(submitted + readDone)
        invariant !bulkDone ==> forall d :: 0 <= d < |curDirty| ==> curDirty[d] == 0
        invariant !bulkDone && shared ==> SharedBase(View())
        invariant !bulkDone ==> present == old(present)
        decreases !bulkDone, Remaining(total, curSector), limit - (submitted + readDone)
      {
        ghost var m1 := View();
        if !bulkDone {
          var ret, more, _ := SaveBulkedBlock(answers);
          RunsAppend(m, steps, m1, more, View());
          WrittenAppend(steps, more);
          BehindStart(curDirty, dirty, wet);
          steps := steps + more;
          if !ret {
            bulkDone := true;
          }
        } else {
          var ret, more, _ := SaveDirtyBlockAsync(wet);
          RunsAppend(m, steps, m1, more, View());
          WrittenAppend(steps, more);
          wet := wet + Written(more);
          steps := steps + more;
          if !ret {
            break;
          }
        }
      }
      pending := submitted + readDone;
      ghost var m1 := View();
      ghost var more := FlushBlks(limited);
      SendsKeepShape(m1, more, View(), shared);
      RunsAppend(m, steps, m1, more, View());
      WrittenAppend(steps, more);
      steps := steps + more;
    }

    /** Sending queued blocks touches neither the cursors nor the disks. */
    static lemma {:induction false} SendsKeepShape(m: Mig, steps: seq<Step>, t: Mig, shared: bool)
      requires Runs(m, steps, t) && WellFormed(m) && forall i :: 0 <= i < |steps| ==> steps[i] == Send
      ensures WellFormed(t) && (BulkDone(m) ==> BulkDone(t)) && (SharedBase(m) ==> SharedBase(t))
      decreases |steps|
    {
      hide WellFormed;
      if steps != [] {
        StepWellFormed(m, Send);
        SendsKeepShape(Do(m, Send), steps[1..], t, shared);
      }
    }

    /** blk_mig_reset_dirty_cursor. */
    method ResetDirtyCursor()
      requires Valid()
      modifies this`curDirty
      ensures Valid() && curDirty == seq(|total|, _ => 0) && View() == old(View())
    {
      curDirty := seq(|total|, _ => 0);
    }

    /** Nothing behind a cursor is dirty but what is in wet. */
    static ghost predicate Behind(curDirty: seq<nat>, dirty: set<Key>, wet: set<Key>) {
      forall k :: k in dirty && k !in wet && k.d < |curDirty| ==> curDirty[k.d] <= CHUNK * k.c
    }

    ghost predicate CleanBehind(wet: set<Key>)
      reads this
    {
      Behind(curDirty, dirty, wet)
    }

    static lemma BehindStart(curDirty: seq<nat>, dirty: set<Key>, wet: set<Key>)
      requires forall d :: 0 <= d < |curDirty| ==> curDirty[d] == 0
      ensures Behind(curDirty, dirty, wet)
    {
    }

    static lemma BehindMore(curDirty: seq<nat>, dirty: set<Key>, wet: set<Key>, more: set<Key>)
      requires Behind(curDirty, dirty, wet) && wet <= more
      ensures Behind(curDirty, dirty, more)
    {
    }

    /** blk_mig_save_dirty_block without is_async: true while some device still had a dirty chunk. */
    method SaveDirtyBlockSync() returns (more: bool, ghost k: Key)
      requires Valid() && BulkDone(View()) && flight == [] && |curDirty| == |total| && CleanBehind({})
      modifies this`curDirty, this`flight, this`blkList, this`aio, this`submitted, this`readDone, this`sent
      modifies this`disk, this`dirty, this`present, this`completions
      ensures Valid() && BulkDone(View()) && flight == [] && |curDirty| == |total| && CleanBehind({})
      ensures more ==> k in old(dirty) && k in old(disk) && View() == SyncSend(old(View()), k)
      ensures more ==> sent == old(sent) + [Copy(k, disk[k])] && forall j :: j in old(dirty) ==> !Ahead(j, k)
      ensures !more ==> View() == old(View()) && dirty == {}
    {
      hide WellFormed, AllocKeys, GuestInDevices, InFlight, Cursors, DirtyCursors, InRange, ChunkCounts, CleanRange;
      ghost var m := View();
      k := Key(0, 0);
      for d := 0 to |total|
        invariant Valid() && View() == m && |curDirty| == |total| && CleanBehind({})
        invariant forall e :: 0 <= e < d ==> curDirty[e] >= total[e]
      {
        ghost var before, was := curDirty, dirty;
        var done := SaveDeviceDirtySync(d);
        ghost var none: set<Key> := {};
        assert dirty - none == dirty && none + none == none;
        CursorPasses(before, curDirty, was, dirty, d, none, none);
        if !done {
          k := Key(d, curDirty[d] / CHUNK);
          NoneAhead(View(), total, curDirty, none, k);
          return true, k;
        }
      }
      AllPassed(m, total, curDirty, {});
      more := false;
    }

    static lemma CursorPasses(before: seq<nat>, curDirty: seq<nat>, was: set<Key>, dirty: set<Key>, d: nat,
                              wet: set<Key>, more: set<Key>)
      requires d < |curDirty| == |before| && dirty <= was + more
      requires Behind(before, was, wet)
      requires forall e :: 0 <= e < |curDirty| && e != d ==> curDirty[e] == before[e]
      requires CleanRange(dirty - more, d, before[d], curDirty[d])
      ensures Behind(curDirty, dirty, wet + more)
    {
    }

    /** j comes before k: an earlier device, or an earlier chunk of the same one. */
    static predicate Ahead(j: Key, k: Key) {
      j.d < k.d || (j.d == k.d && j.c < k.c)
    }

    static lemma NoneAhead(m: Mig, total: seq<nat>, curDirty: seq<nat>, wet: set<Key>, k: Key)
      requires WellFormed(m) && m.chunks == ChunkCounts(total) && k.d < |curDirty| == |total|
      requires forall e :: 0 <= e < k.d ==> curDirty[e] >= total[e]
      requires curDirty[k.d] / CHUNK == k.c && DirtyCursors(total, curDirty) && Behind(curDirty, m.dirty, wet)
      ensures forall j :: j in m.dirty && Ahead(j, k) ==> j in wet
    {
      forall j | j in m.dirty && Ahead(j, k) ensures j in wet {
        assert ValidKey(m, j);
        assert CHUNK * j.c < total[j.d];
      }
    }

    static lemma AllPassed(m: Mig, total: seq<nat>, curDirty: seq<nat>, wet: set<Key>)
      requires WellFormed(m) && m.chunks == ChunkCounts(total) && |curDirty| == |total|
      requires forall e :: 0 <= e < |total| ==> curDirty[e] >= total[e]
      requires Behind(curDirty, m.dirty, wet)
      ensures m.dirty <= wet
    {
      forall k | k in m.dirty ensures k in wet {
        assert ValidKey(m, k);
        assert CHUNK * k.c < total[k.d];
      }
    }

    /** Stage 3 of block_save_live after a stage-2 call that returned 1: flush, then the synchronous
        pass until no chunk is dirty. `mid` is the state after the flush and ks the chunks sent. */
    method Stage3(limited: nat -> bool) returns (ghost steps: seq<Step>, ghost mid: Mig, ghost ks: seq<Key>)
      requires Valid() && BulkDone(View()) && flight == []
      modifies this
      ensures Valid() && dirty == {} && WellFormed(mid)
      ensures Runs(old(View()), steps, mid) && SyncRuns(mid, ks, View())
      ensures Inv(old(View())) ==> (SameDisks(View()) <==> QueueRedundant(mid))
      ensures Inv(old(View())) && (forall i :: !limited(i)) ==> SameDisks(View())
    {
      hide WellFormed, AllocKeys, GuestInDevices, InFlight, Cursors, DirtyCursors, InRange, ChunkCounts, Runs, SyncRuns,
           SyncSend, SameDisks, QueueRedundant, Inv;
      steps := FlushBlks(limited);
      mid := View();
      ResetDirtyCursor();
      ks := [];
      SyncNothing(mid);
      assert submitted == 0;
      var more, k := SaveDirtyBlockSync();
      ks := SyncGrows(mid, ks, mid, more, k, View());
      while more
        invariant Valid() && BulkDone(View()) && flight == [] && |curDirty| == |total| && CleanBehind({})
        invariant SyncRuns(mid, ks, View())
        invariant !more ==> dirty == {}
        decreases more, |dirty|
      {
        ghost var m1 := View();
        more, k := SaveDirtyBlockSync();
        ks := SyncGrows(mid, ks, m1, more, k, View());
      }
      StageThreeOutcome(old(View()), steps, mid, ks, View());
    }

    static lemma SyncNothing(m: Mig)
      ensures SyncRuns(m, [], m)
    {
    }

    static lemma SyncGrows(m: Mig, ks: seq<Key>, m1: Mig, more: bool, k: Key, m2: Mig) returns (ls: seq<Key>)
      requires SyncRuns(m, ks, m1)
      requires more ==> k in m1.dirty && k in m1.disk && m2 == SyncSend(m1, k)
      requires !more ==> m2 == m1
      ensures SyncRuns(m, ls, m2)
      ensures more ==> |m2.dirty| < |m1.dirty|
    {
      ls := ks;
      if more {
        SyncSnoc(m, ks, m1, k);
        ls := ks + [k];
      }
    }

    static lemma {:induction false} SyncSnoc(m: Mig, ks: seq<Key>, m1: Mig, k: Key)
      requires SyncRuns(m, ks, m1) && k in m1.dirty && k in m1.disk
      ensures SyncRuns(m, ks + [k], SyncSend(m1, k))
      decreases |ks|
    {
      if ks == [] {
        assert (ks + [k])[1..] == [];
      } else {
        assert (ks + [k])[1..] == ks[1..] + [k];
        SyncSnoc(SyncSend(m, ks[0]), ks[1..], m1, k);
      }
    }

    /** A run of sends leaves the invariant, whatever else is true of it. */
    static lemma StageThreeOutcome(m: Mig, steps: seq<Step>, mid: Mig, ks: seq<Key>, t: Mig)
      requires WellFormed(mid) && BulkDone(mid) && mid.flight == []
      requires Runs(m, steps, mid) && (forall i :: 0 <= i < |steps| ==> steps[i] == Send)
      requires SyncRuns(mid, ks, t) && t.dirty == {}
      ensures Inv(m) ==> (SameDisks(t) <==> QueueRedundant(mid))
      ensures Inv(m) && mid.queue == [] ==> SameDisks(t)
    {
      if Inv(m) {
        SendsNeverStale(m, steps);
        RunKeeps(m, steps, mid);
        StageThreeExact(mid, ks, t);
        if mid.queue == [] {
          assert mid.sent + mid.queue == mid.sent;
        }
      }
    }

    static lemma {:induction false} SendsNeverStale(m: Mig, steps: seq<Step>)
      requires forall i :: 0 <= i < |steps| ==> steps[i] == Send
      ensures NeverStale(m, steps)
      decreases |steps|
    {
      if steps != [] && WellFormed(m) && Enabled(m, steps[0]) {
        SendsNeverStale(Do(m, steps[0]), steps[1..]);
      }
    }
  }
}
