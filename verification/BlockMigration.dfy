/** Live block migration as a state machine over chunks: guest writes, bulk and dirty-phase reads
    with their sampling and completion, the queue of completed reads, and the synchronous last pass. */
module BlockMigration {
  import opened Wire

  /** Contents of a chunk (up to BDRV_SECTORS_PER_DIRTY_CHUNK sectors). */
  type Data = seq<Byte>

  /** Device number and chunk number. */
  datatype Key = Key(d: nat, c: nat)

  /** A read in flight. The block layer takes its sample of the disk at some moment between
      submission and completion. */
  datatype Read = Read(k: Key, sample: Option<Data>)

  /** A completed read on blk_list, or a block record on the stream. */
  datatype Copy = Copy(k: Key, data: Data)

  datatype Mig = Mig(
    chunks: seq<nat>,         // chunks of each device
    disk: map<Key, Data>,     // the source disks
    alloc: set<Key>,          // chunks with an allocated sector
    dirty: set<Key>,          // dirty bitmaps
    cursor: seq<nat>,         // bulk scan: next chunk of each device
    aio: set<Key>,            // aio_bitmap
    flight: seq<Read>,         // submitted, not completed
    queue: seq<Copy>,         // blk_list
    sent: seq<Copy>,          // block records put on the stream
    base: map<Key, Data>)     // the destination disks before the first record

  predicate ValidKey(m: Mig, k: Key) {
    k.d < |m.chunks| && k.c < m.chunks[k.d]
  }

  predicate Reached(m: Mig, k: Key)
    requires |m.cursor| == |m.chunks| && ValidKey(m, k)
  {
    k.c < m.cursor[k.d]
  }

  /** The bulk phase is over on every device. */
  predicate BulkDone(m: Mig) {
    |m.cursor| == |m.chunks| && forall d :: 0 <= d < |m.chunks| ==> m.cursor[d] == m.chunks[d]
  }

  /* ---- the stream ---- */

  /** The contents of chunk k after the records s, if it held b before. */
  function Newest(s: seq<Copy>, k: Key, b: Data): Data {
    if s == [] then b
    else if s[|s| - 1].k == k then s[|s| - 1].data
    else Newest(s[..|s| - 1], k, b)
  }

  /** block_load: each record overwrites its chunk. */
  function Deliver(base: map<Key, Data>, s: seq<Copy>): map<Key, Data>
    decreases |s|
  {
    if s == [] then base else Deliver(base[s[0].k := s[0].data], s[1..])
  }

  lemma {:induction false} NewestCons(x: Copy, s: seq<Copy>, k: Key, b: Data)
    ensures Newest([x] + s, k, b) == Newest(s, k, if x.k == k then x.data else b)
  {
    if s == [] {
      assert ([x] + s)[..0] == [];
    } else {
      assert ([x] + s)[..|s|] == [x] + s[..|s| - 1];
      NewestCons(x, s[..|s| - 1], k, b);
    }
  }

  /** The destination holds, chunk by chunk, the newest record or what it held before. */
  lemma {:induction false} DeliverIsNewest(base: map<Key, Data>, s: seq<Copy>, k: Key)
    requires k in base
    ensures k in Deliver(base, s) && Deliver(base, s)[k] == Newest(s, k, base[k])
    decreases |s|
  {
    if s != [] {
      assert s == [s[0]] + s[1..];
      NewestCons(s[0], s[1..], k, base[k]);
      DeliverIsNewest(base[s[0].k := s[0].data], s[1..], k);
    }
  }

  lemma {:induction false} NewestAbsent(s: seq<Copy>, k: Key, b: Data)
    requires forall i :: 0 <= i < |s| ==> s[i].k != k
    ensures Newest(s, k, b) == b
  {
    if s != [] {
      NewestAbsent(s[..|s| - 1], k, b);
    }
  }

  lemma NewestSnoc(s: seq<Copy>, x: Copy, k: Key, b: Data)
    ensures Newest(s + [x], k, b) == if x.k == k then x.data else Newest(s, k, b)
  {
    assert (s + [x])[..|s|] == s;
  }

  /* ---- the invariant ---- */

  ghost predicate InFlight(m: Mig, k: Key) {
    exists i :: 0 <= i < |m.flight| && m.flight[i].k == k
  }

  /** Some read of k in flight has sampled contents the chunk no longer has. */
  ghost predicate Stale(m: Mig, k: Key)
    requires k in m.disk
  {
    exists i :: 0 <= i < |m.flight| && m.flight[i].k == k &&
                m.flight[i].sample.Some? && m.flight[i].sample.value != m.disk[k]
  }

  /** Everything under way for chunk k leads to the present contents: no read in flight is stale,
      and without one the newest queued copy, else the newest delivered one, is the source's. */
  ghost predicate Current(m: Mig, k: Key)
    requires k in m.disk && k in m.base
  {
    !Stale(m, k) && (InFlight(m, k) || Newest(m.sent + m.queue, k, m.base[k]) == m.disk[k])
  }

  ghost predicate WellFormed(m: Mig) {
    && |m.cursor| == |m.chunks|
    && (forall d :: 0 <= d < |m.chunks| ==> m.cursor[d] <= m.chunks[d])
    && (forall k :: ValidKey(m, k) ==> k in m.disk && k in m.base)
    && (forall k :: k in m.dirty ==> ValidKey(m, k))
    && (forall i :: 0 <= i < |m.flight| ==> ValidKey(m, m.flight[i].k) && Reached(m, m.flight[i].k))
    && (forall i :: 0 <= i < |m.queue| ==> ValidKey(m, m.queue[i].k) && Reached(m, m.queue[i].k))
    && (forall i :: 0 <= i < |m.sent| ==> ValidKey(m, m.sent[i].k) && Reached(m, m.sent[i].k))
  }

  /** With a shared base image both ends start from the same unallocated chunks. */
  ghost predicate SharedBase(m: Mig)
    requires WellFormed(m)
  {
    forall k :: ValidKey(m, k) && k !in m.alloc ==> m.base[k] == m.disk[k]
  }

  /** Each chunk is dirty, or not yet reached by the bulk scan, or current. */
  ghost predicate Inv(m: Mig) {
    WellFormed(m) && forall k :: ValidKey(m, k) && Reached(m, k) && k !in m.dirty ==> Current(m, k)
  }

  /* ---- steps ---- */

  datatype Step =
    | Write(k: Key, data: Data)  // the guest writes to a chunk
    | BulkRead(d: nat)           // mig_save_device_bulk submits the next chunk
    | BulkSkip(d: nat)           // ... or passes over an unallocated one (shared base)
    | DirtyRead(k: Key)          // mig_save_device_dirty, asynchronous
    | Sample(i: nat)             // the block layer reads the disk for read i
    | Complete(i: nat)           // blk_mig_read_cb for read i
    | Send                       // one turn of flush_blks

  ghost predicate Enabled(m: Mig, a: Step)
    requires WellFormed(m)
  {
    match a
    case Write(k, _) => ValidKey(m, k)
    case BulkRead(d) => d < |m.chunks| && m.cursor[d] < m.chunks[d]
    case BulkSkip(d) => SharedBase(m) && d < |m.chunks| && m.cursor[d] < m.chunks[d] && Key(d, m.cursor[d]) !in m.alloc
    case DirtyRead(k) => BulkDone(m) && k in m.dirty && k !in m.aio
    case Sample(i) => i < |m.flight| && m.flight[i].sample.None?
    case Complete(i) => i < |m.flight| && m.flight[i].sample.Some?
    case Send => m.queue != []
  }

  ghost function Do(m: Mig, a: Step): Mig
    requires WellFormed(m) && Enabled(m, a)
  {
    match a
    case Write(k, data) => m.(disk := m.disk[k := data], dirty := m.dirty + {k}, alloc := m.alloc + {k})
    case BulkRead(d) =>
      var k := Key(d, m.cursor[d]);
      m.(flight := m.flight + [Read(k, None)], dirty := m.dirty - {k}, cursor := m.cursor[d := m.cursor[d] + 1])
    case BulkSkip(d) => m.(cursor := m.cursor[d := m.cursor[d] + 1])
    case DirtyRead(k) => m.(flight := m.flight + [Read(k, None)], dirty := m.dirty - {k}, aio := m.aio + {k})
    case Sample(i) => m.(flight := m.flight[i := Read(m.flight[i].k, Some(m.disk[m.flight[i].k]))])
    case Complete(i) =>
      var r := m.flight[i];
      m.(flight := m.flight[..i] + m.flight[i + 1..], queue := m.queue + [Copy(r.k, r.sample.value)],
         aio := m.aio - {r.k})
    case Send => m.(sent := m.sent + [m.queue[0]], queue := m.queue[1..])
  }

  lemma StepWellFormed(m: Mig, a: Step)
    requires WellFormed(m) && Enabled(m, a)
    ensures WellFormed(Do(m, a))
  {
    hide WellFormed;
    match a {
      case Write(k, data) => WellFormedWrite(m, k, data);
      case BulkRead(d) => WellFormedBulkRead(m, d);
      case BulkSkip(d) => CursorMoves(m, d);
      case DirtyRead(k) => WellFormedDirtyRead(m, k);
      case Sample(i) => WellFormedSample(m, i);
      case Complete(i) => WellFormedComplete(m, i);
      case Send => WellFormedSend(m);
    }
  }

  lemma WellFormedBulkRead(m: Mig, d: nat)
    requires WellFormed(m) && Enabled(m, BulkRead(d))
    ensures WellFormed(Do(m, BulkRead(d)))
  {
    CursorMoves(m, d);
    var k, m1 := Key(d, m.cursor[d]), m.(cursor := m.cursor[d := m.cursor[d] + 1]);
    WellFormedFlight(m1, m1.flight + [Read(k, None)], m1.dirty - {k}, m1.aio);
  }

  lemma WellFormedDirtyRead(m: Mig, k: Key)
    requires WellFormed(m) && Enabled(m, DirtyRead(k))
    ensures WellFormed(Do(m, DirtyRead(k)))
  {
    assert ValidKey(m, k) && Reached(m, k);
    WellFormedFlight(m, m.flight + [Read(k, None)], m.dirty - {k}, m.aio + {k});
  }

  lemma WellFormedSample(m: Mig, i: nat)
    requires WellFormed(m) && Enabled(m, Sample(i))
    ensures WellFormed(Do(m, Sample(i)))
  {
    WellFormedFlight(m, m.flight[i := Read(m.flight[i].k, Some(m.disk[m.flight[i].k]))], m.dirty, m.aio);
  }

  lemma WellFormedComplete(m: Mig, i: nat)
    requires WellFormed(m) && Enabled(m, Complete(i))
    ensures WellFormed(Do(m, Complete(i)))
  {
    var r := m.flight[i];
    WellFormedCopies(m, m.queue + [Copy(r.k, r.sample.value)], m.sent);
    var m1 := m.(queue := m.queue + [Copy(r.k, r.sample.value)]);
    WellFormedFlight(m1, m.flight[..i] + m.flight[i + 1..], m.dirty, m.aio - {r.k});
  }

  lemma WellFormedSend(m: Mig)
    requires WellFormed(m) && Enabled(m, Send)
    ensures WellFormed(Do(m, Send))
  {
    WellFormedCopies(m, m.queue[1..], m.sent + [m.queue[0]]);
  }

  lemma WellFormedWrite(m: Mig, k: Key, data: Data)
    requires WellFormed(m) && ValidKey(m, k)
    ensures WellFormed(m.(disk := m.disk[k := data], dirty := m.dirty + {k}, alloc := m.alloc + {k}))
  {
  }

  lemma WellFormedFlight(m: Mig, flight: seq<Read>, dirty: set<Key>, aio: set<Key>)
    requires WellFormed(m) && dirty <= m.dirty
    requires forall i :: 0 <= i < |flight| ==> ValidKey(m, flight[i].k) && Reached(m, flight[i].k)
    ensures WellFormed(m.(flight := flight, dirty := dirty, aio := aio))
  {
  }

  lemma WellFormedCopies(m: Mig, queue: seq<Copy>, sent: seq<Copy>)
    requires WellFormed(m)
    requires forall i :: 0 <= i < |queue| ==> ValidKey(m, queue[i].k) && Reached(m, queue[i].k)
    requires forall i :: 0 <= i < |sent| ==> ValidKey(m, sent[i].k) && Reached(m, sent[i].k)
    ensures WellFormed(m.(queue := queue, sent := sent))
  {
  }

  lemma CursorMoves(m: Mig, d: nat)
    requires WellFormed(m) && d < |m.chunks| && m.cursor[d] < m.chunks[d]
    ensures WellFormed(m.(cursor := m.cursor[d := m.cursor[d] + 1]))
  {
  }

  /** Submitting a dirty-phase read keeps the invariant when no read of the same chunk in flight holds a
      stale sample; otherwise it leaves the chunk clean with a stale read under way. */
  lemma DirtyReadKeeps(m: Mig, k: Key)
    requires Inv(m) && Enabled(m, DirtyRead(k))
    ensures Inv(Do(m, DirtyRead(k))) <==> !Stale(m, k)
  {
    var m' := Do(m, DirtyRead(k));
    StepWellFormed(m, DirtyRead(k));
    var n := |m.flight|;
    assert m'.flight[n] == Read(k, None);
    assert forall i :: 0 <= i < n ==> m'.flight[i] == m.flight[i];
    assert Stale(m', k) ==> Stale(m, k);
    assert Stale(m, k) ==> Stale(m', k) by {
      if Stale(m, k) {
        var i :| 0 <= i < n && m.flight[i].k == k && m.flight[i].sample.Some? && m.flight[i].sample.value != m.disk[k];
        assert m'.flight[i] == m.flight[i];
      }
    }
    assert InFlight(m', k);
    assert Reached(m', k);
    forall j | ValidKey(m, j) && j != k && j !in m.dirty ensures Current(m', j) {
      assert Reached(m, j);
      OtherReadsUnchanged(m, k, j);
    }
  }

  lemma OtherReadsUnchanged(m: Mig, k: Key, j: Key)
    requires j != k && j in m.disk && j in m.base && Current(m, j)
    ensures Current(m.(flight := m.flight + [Read(k, None)]), j)
  {
    var m' := m.(flight := m.flight + [Read(k, None)]);
    if InFlight(m, j) {
      var i :| 0 <= i < |m.flight| && m.flight[i].k == j;
      assert m'.flight[i].k == j;
    }
  }

  lemma WriteKeeps(m: Mig, k: Key, data: Data)
    requires Inv(m) && Enabled(m, Write(k, data))
    ensures Inv(Do(m, Write(k, data)))
  {
    StepWellFormed(m, Write(k, data));
    var m' := Do(m, Write(k, data));
    forall j | ValidKey(m', j) && Reached(m', j) && j !in m'.dirty ensures Current(m', j) {
      assert Current(m, j);
    }
  }

  lemma BulkReadKeeps(m: Mig, d: nat)
    requires Inv(m) && Enabled(m, BulkRead(d))
    ensures Inv(Do(m, BulkRead(d)))
  {
    StepWellFormed(m, BulkRead(d));
    var m', k := Do(m, BulkRead(d)), Key(d, m.cursor[d]);
    assert m'.flight[|m.flight|].k == k;
    assert !Stale(m', k);
    forall j | ValidKey(m', j) && Reached(m', j) && j !in m'.dirty ensures Current(m', j) {
      if j != k {
        assert Reached(m, j);
        OtherReadsUnchanged(m, k, j);
        assert Current(m.(flight := m.flight + [Read(k, None)]), j);
      }
    }
  }

  /** Passing over an unallocated chunk is sound when both ends share the base image. */
  lemma BulkSkipKeeps(m: Mig, d: nat)
    requires Inv(m) && Enabled(m, BulkSkip(d))
    ensures Inv(Do(m, BulkSkip(d)))
  {
    StepWellFormed(m, BulkSkip(d));
    var m', k := Do(m, BulkSkip(d)), Key(d, m.cursor[d]);
    forall j | ValidKey(m', j) && Reached(m', j) && j !in m'.dirty ensures Current(m', j) {
      if j == k {
        assert !Reached(m, k);
        NewestAbsent(m.sent + m.queue, k, m.base[k]);
      } else {
        assert Reached(m, j) && Current(m, j);
      }
    }
  }

  lemma SampleKeeps(m: Mig, i: nat)
    requires Inv(m) && Enabled(m, Sample(i))
    ensures Inv(Do(m, Sample(i)))
  {
    StepWellFormed(m, Sample(i));
    var m' := Do(m, Sample(i));
    forall j | ValidKey(m', j) && Reached(m', j) && j !in m'.dirty ensures Current(m', j) {
      assert Current(m, j);
      assert forall p :: 0 <= p < |m.flight| ==> m'.flight[p].k == m.flight[p].k;
      if InFlight(m, j) {
        var p :| 0 <= p < |m.flight| && m.flight[p].k == j;
        assert m'.flight[p].k == j;
      }
    }
  }

  lemma CompleteCurrent(m: Mig, i: nat, j: Key)
    requires WellFormed(m) && Enabled(m, Complete(i)) && j in m.disk && j in m.base
    requires Current(m, j)
    ensures Current(Do(m, Complete(i)), j)
  {
    hide WellFormed, Newest, Reached;
    var m', r := Do(m, Complete(i)), m.flight[i];
    var copies := m.sent + m.queue;
    assert m'.sent + m'.queue == copies + [Copy(r.k, r.sample.value)];
    NewestSnoc(copies, Copy(r.k, r.sample.value), j, m.base[j]);
    assert forall p :: 0 <= p < |m'.flight| ==> m'.flight[p] == m.flight[if p < i then p else p + 1];
    if r.k != j && InFlight(m, j) {
      var p :| 0 <= p < |m.flight| && m.flight[p].k == j;
      assert m'.flight[if p < i then p else p - 1].k == j;
    }
  }

  lemma CompleteKeeps(m: Mig, i: nat)
    requires Inv(m) && Enabled(m, Complete(i))
    ensures Inv(Do(m, Complete(i)))
  {
    hide Current;
    StepWellFormed(m, Complete(i));
    var m' := Do(m, Complete(i));
    forall j | ValidKey(m', j) && Reached(m', j) && j !in m'.dirty ensures Current(m', j) {
      assert ValidKey(m, j) && Reached(m, j) && Current(m, j);
      CompleteCurrent(m, i, j);
    }
  }

  lemma SendKeeps(m: Mig)
    requires Inv(m) && Enabled(m, Send)
    ensures Inv(Do(m, Send))
  {
    StepWellFormed(m, Send);
    var m' := Do(m, Send);
    assert m'.sent + m'.queue == m.sent + m.queue;
    forall j | ValidKey(m', j) && Reached(m', j) && j !in m'.dirty ensures Current(m', j) {
      assert Current(m, j);
    }
  }

  /* ---- whole runs ---- */

  ghost predicate Runs(m: Mig, steps: seq<Step>, t: Mig)
    decreases |steps|
  {
    if steps == [] then m == t
    else WellFormed(m) && Enabled(m, steps[0]) && Runs(Do(m, steps[0]), steps[1..], t)
  }

  /** Every dirty-phase submission of the run finds no stale read of its chunk in flight. */
  ghost predicate NeverStale(m: Mig, steps: seq<Step>)
    decreases |steps|
  {
    steps != [] && WellFormed(m) && Enabled(m, steps[0]) ==>
      (steps[0].DirtyRead? && steps[0].k in m.disk ==> !Stale(m, steps[0].k)) && NeverStale(Do(m, steps[0]), steps[1..])
  }

  lemma StepKeeps(m: Mig, a: Step)
    requires Inv(m) && Enabled(m, a)
    requires a.DirtyRead? && a.k in m.disk ==> !Stale(m, a.k)
    ensures Inv(Do(m, a))
  {
    match a {
      case Write(k, data) => WriteKeeps(m, k, data);
      case BulkRead(d) => BulkReadKeeps(m, d);
      case BulkSkip(d) => BulkSkipKeeps(m, d);
      case DirtyRead(k) =>
        assert ValidKey(m, k);
        DirtyReadKeeps(m, k);
      case Sample(i) => SampleKeeps(m, i);
      case Complete(i) => CompleteKeeps(m, i);
      case Send => SendKeeps(m);
    }
  }

  /** In every run that never submits against a stale read, each chunk is dirty, unreached or current. */
  lemma {:induction false} RunKeeps(m: Mig, steps: seq<Step>, t: Mig)
    requires Inv(m) && Runs(m, steps, t) && NeverStale(m, steps)
    ensures Inv(t)
    decreases |steps|
  {
    if steps != [] {
      StepKeeps(m, steps[0]);
      RunKeeps(Do(m, steps[0]), steps[1..], t);
    }
  }

  /** Stage 1: everything tracked, nothing read. */
  ghost predicate Initial(m: Mig) {
    && |m.cursor| == |m.chunks|
    && (forall d :: 0 <= d < |m.chunks| ==> m.cursor[d] == 0)
    && (forall k :: ValidKey(m, k) ==> k in m.disk && k in m.base)
    && m.dirty == {} && m.aio == {} && m.flight == [] && m.queue == [] && m.sent == []
  }

  lemma InitialInv(m: Mig)
    requires Initial(m)
    ensures Inv(m)
  {
  }

  /* ---- reads that sample when they complete ---- */

  /** No read in flight has sampled yet. */
  ghost predicate AllUnsampled(m: Mig) {
    forall i :: 0 <= i < |m.flight| ==> m.flight[i].sample.None?
  }

  /** A run in which every Sample is at once followed by the Complete of the same read. */
  ghost predicate SamplesAtCompletion(steps: seq<Step>)
    decreases |steps|
  {
    steps != [] ==>
      match steps[0]
      case Sample(i) => |steps| > 1 && steps[1] == Complete(i) && SamplesAtCompletion(steps[2..])
      case _ => SamplesAtCompletion(steps[1..])
  }

  /** If reads sample the disk when they complete, the code never submits against a stale read,
      although the bulk phase leaves aio_bitmap alone. */
  lemma {:induction false} CompletionSamplingNeverStale(m: Mig, steps: seq<Step>, t: Mig)
    requires Runs(m, steps, t) && AllUnsampled(m) && SamplesAtCompletion(steps)
    ensures NeverStale(m, steps)
    decreases |steps|
  {
    hide WellFormed, Stale;
    if steps != [] {
      var m1 := Do(m, steps[0]);
      UnsampledNotStale(m);
      if steps[0].Sample? {
        var i := steps[0].i;
        assert steps[1..][0] == Complete(i) && steps[1..][1..] == steps[2..];
        var m2 := Do(m1, Complete(i));
        assert forall p :: 0 <= p < |m2.flight| ==> m2.flight[p] == m.flight[if p < i then p else p + 1];
        CompletionSamplingNeverStale(m2, steps[2..], t);
        assert NeverStale(m1, steps[1..]);
      } else {
        assert AllUnsampled(m1);
        CompletionSamplingNeverStale(m1, steps[1..], t);
      }
    }
  }

  lemma UnsampledNotStale(m: Mig)
    requires AllUnsampled(m)
    ensures forall k :: k in m.disk ==> !Stale(m, k)
  {
  }

  /* ---- stage 3 ---- */

  /** One turn of the synchronous dirty pass: the chunk is read and sent at once. */
  function SyncSend(m: Mig, k: Key): Mig
    requires k in m.disk
  {
    m.(sent := m.sent + [Copy(k, m.disk[k])], dirty := m.dirty - {k})
  }

  /** t is reached from m by synchronous sends of dirty chunks. */
  ghost predicate SyncRuns(m: Mig, ks: seq<Key>, t: Mig)
    decreases |ks|
  {
    if ks == [] then m == t
    else ks[0] in m.dirty && ks[0] in m.disk && SyncRuns(SyncSend(m, ks[0]), ks[1..], t)
  }

  lemma {:induction false} SyncSent(m: Mig, ks: seq<Key>, t: Mig, k: Key)
    requires SyncRuns(m, ks, t) && k in m.disk && k in m.base
    ensures t.disk == m.disk && t.base == m.base && t.dirty <= m.dirty && t.queue == m.queue
    ensures Newest(t.sent, k, m.base[k]) ==
            if k in m.dirty && k !in t.dirty then m.disk[k] else Newest(m.sent, k, m.base[k])
    decreases |ks|
  {
    hide Newest;
    if ks != [] {
      SyncSent(SyncSend(m, ks[0]), ks[1..], t, k);
      NewestSnoc(m.sent, Copy(ks[0], m.disk[ks[0]]), k, m.base[k]);
    }
  }

  /** The destination disks equal the source disks. */
  ghost predicate SameDisks(m: Mig) {
    forall k :: ValidKey(m, k) ==>
      k in m.disk && k in m.base && Deliver(m.base, m.sent).Keys >= {k} && Deliver(m.base, m.sent)[k] == m.disk[k]
  }

  /** No clean chunk has a copy on blk_list that differs from what has been delivered: nothing is
      lost when blk_mig_cleanup drops the list. */
  ghost predicate QueueRedundant(m: Mig)
    requires WellFormed(m)
  {
    forall k :: ValidKey(m, k) && k !in m.dirty ==>
      Newest(m.sent + m.queue, k, m.base[k]) == Newest(m.sent, k, m.base[k])
  }

  /** Stage 3 with no read in flight and the guest stopped: after the synchronous pass the
      destination equals the source exactly when the copies left on blk_list by flush_blks were
      redundant. */
  lemma StageThreeExact(m: Mig, ks: seq<Key>, t: Mig)
    requires Inv(m) && BulkDone(m) && m.flight == []
    requires SyncRuns(m, ks, t) && t.dirty == {}
    ensures SameDisks(t) <==> QueueRedundant(m)
  {
    SyncShape(m, ks, t);
    forall k | ValidKey(m, k)
      ensures k in Deliver(t.base, t.sent) && (Deliver(t.base, t.sent)[k] == t.disk[k] <==>
        k in m.dirty || Newest(m.sent + m.queue, k, m.base[k]) == Newest(m.sent, k, m.base[k]))
    {
      SyncSent(m, ks, t, k);
      DeliverIsNewest(t.base, t.sent, k);
      assert Reached(m, k);
      assert k !in m.dirty ==> Current(m, k);
    }
  }

  lemma {:induction false} SyncShape(m: Mig, ks: seq<Key>, t: Mig)
    requires SyncRuns(m, ks, t)
    ensures t.chunks == m.chunks && t.disk == m.disk && t.base == m.base
    decreases |ks|
  {
    if ks != [] {
      SyncShape(SyncSend(m, ks[0]), ks[1..], t);
    }
  }

  /** Block migration, under the hypotheses that no dirty-phase read is submitted against a stale
      one and that the last flush empties blk_list: the destination disks end equal to the source. */
  lemma MigrationCopiesDisks(m0: Mig, steps: seq<Step>, m: Mig, ks: seq<Key>, t: Mig)
    requires Initial(m0) && Runs(m0, steps, m) && NeverStale(m0, steps)
    requires BulkDone(m) && m.flight == [] && m.queue == []
    requires SyncRuns(m, ks, t) && t.dirty == {}
    ensures SameDisks(t)
  {
    InitialInv(m0);
    RunKeeps(m0, steps, m);
    assert m.sent + m.queue == m.sent;
    StageThreeExact(m, ks, t);
  }

  /* ---- the two ways the code can fall short ---- */

  /** A stale read overtaken by a fresh one: once both complete, the chunk is clean and reached, and
      the stale contents are the newest copy. */
  lemma StaleReadWins(m: Mig, k: Key, i: nat) returns (t: Mig)
    requires Inv(m) && Enabled(m, DirtyRead(k))
    requires i < |m.flight| && m.flight[i].k == k && m.flight[i].sample.Some? && m.flight[i].sample.value != m.disk[k]
    ensures Runs(m, [DirtyRead(k), Sample(|m.flight|), Complete(|m.flight|), Complete(i)], t)
    ensures WellFormed(t) && t.chunks == m.chunks && BulkDone(t) && k !in t.dirty && t.disk == m.disk
    ensures k in t.base && Newest(t.sent + t.queue, k, t.base[k]) == m.flight[i].sample.value
  {
    var n, v := |m.flight|, m.flight[i].sample.value;
    assert ValidKey(m, k);
    var m1 := Do(m, DirtyRead(k));
    StepWellFormed(m, DirtyRead(k));
    var m2 := Do(m1, Sample(n));
    StepWellFormed(m1, Sample(n));
    var m3 := Do(m2, Complete(n));
    StepWellFormed(m2, Complete(n));
    assert m3.flight == m.flight;
    t := Do(m3, Complete(i));
    StepWellFormed(m3, Complete(i));
    assert t.sent + t.queue == (m3.sent + m3.queue) + [Copy(k, v)];
    NewestSnoc(m3.sent + m3.queue, Copy(k, v), k, t.base[k]);
    FourSteps(m, DirtyRead(k), m1, Sample(n), m2, Complete(n), m3, Complete(i), t);
  }

  lemma FourSteps(m: Mig, a: Step, m1: Mig, b: Step, m2: Mig, c: Step, m3: Mig, d: Step, t: Mig)
    requires WellFormed(m) && Enabled(m, a) && m1 == Do(m, a)
    requires WellFormed(m1) && Enabled(m1, b) && m2 == Do(m1, b)
    requires WellFormed(m2) && Enabled(m2, c) && m3 == Do(m2, c)
    requires WellFormed(m3) && Enabled(m3, d) && t == Do(m3, d)
    ensures Runs(m, [a, b, c, d], t)
  {
    hide WellFormed, Enabled, Do;
    assert Runs(t, [], t);
    assert [d][1..] == [] && [c, d][1..] == [d] && [b, c, d][1..] == [c, d] && [a, b, c, d][1..] == [b, c, d];
    assert Runs(m3, [d], t);
    assert Runs(m2, [c, d], t);
    assert Runs(m1, [b, c, d], t);
  }

  /** From m, without any further submission against a stale read, everything in flight completes, everything
      queued is sent and every dirty chunk is sent by the last pass, and yet the disks differ. */
  ghost predicate EndsWrong(m: Mig, steps: seq<Step>, t: Mig, ks: seq<Key>, u: Mig) {
    && Runs(m, steps, t) && NeverStale(m, steps) && t.flight == [] && t.queue == []
    && SyncRuns(t, ks, u) && u.dirty == {} && !SameDisks(u)
  }

  ghost predicate CanEndWrong(m: Mig) {
    exists steps, t, ks, u :: EndsWrong(m, steps, t, ks, u)
  }

  /** The moment of truth of the dirty phase: a read may be submitted without ever harming the destination
      exactly when no read of the same chunk in flight holds a stale sample. The dirty phase tests
      aio_bitmap, which the bulk phase never sets, so the code does not establish this by itself. */
  lemma DirtyReadExact(m: Mig, k: Key)
    requires Inv(m) && Enabled(m, DirtyRead(k))
    ensures CanEndWrong(Do(m, DirtyRead(k))) <==> Stale(m, k)
  {
    hide Inv, Runs, NeverStale, SyncRuns, SameDisks, WellFormed;
    DirtyOnDisk(m, k);
    StepWellFormed(m, DirtyRead(k));
    var m1 := Do(m, DirtyRead(k));
    if Stale(m, k) {
      var i :| 0 <= i < |m.flight| && m.flight[i].k == k &&
               m.flight[i].sample.Some? && m.flight[i].sample.value != m.disk[k];
      StaleSpoils(m1, i);
    } else {
      DirtyReadKeeps(m, k);
      forall steps, t, ks, u ensures !EndsWrong(m1, steps, t, ks, u) {
        FreshNeverSpoils(m1, steps, t, ks, u);
      }
    }
  }

  lemma DirtyOnDisk(m: Mig, k: Key)
    requires Inv(m) && k in m.dirty
    ensures WellFormed(m) && k in m.disk
  {
  }

  lemma FreshNeverSpoils(m: Mig, steps: seq<Step>, t: Mig, ks: seq<Key>, u: Mig)
    requires Inv(m) && BulkDone(m)
    ensures !EndsWrong(m, steps, t, ks, u)
  {
    hide Inv, Runs, NeverStale, SyncRuns, SameDisks, WellFormed, Newest;
    if Runs(m, steps, t) && NeverStale(m, steps) && t.flight == [] && t.queue == [] &&
       SyncRuns(t, ks, u) && u.dirty == {} {
      RunKeeps(m, steps, t);
      BulkStaysDone(m, steps, t);
      NothingQueued(t);
      StageThreeExact(t, ks, u);
    }
  }

  lemma NothingQueued(m: Mig)
    requires Inv(m) && m.queue == []
    ensures QueueRedundant(m)
  {
    assert m.sent + m.queue == m.sent;
  }

  lemma {:induction false} BulkStaysDone(m: Mig, steps: seq<Step>, t: Mig)
    requires BulkDone(m) && Runs(m, steps, t)
    ensures BulkDone(t)
    decreases |steps|
  {
    hide WellFormed;
    if steps != [] {
      BulkStaysDone(Do(m, steps[0]), steps[1..], t);
    }
  }

  /* ---- letting everything under way finish ---- */

  /** The same migration but for what is in flight, queued and sent. */
  ghost predicate SameTask(m: Mig, t: Mig) {
    t.chunks == m.chunks && t.disk == m.disk && t.base == m.base && t.dirty == m.dirty && t.cursor == m.cursor
  }

  ghost predicate NoSubmissions(steps: seq<Step>) {
    forall i :: 0 <= i < |steps| ==> !steps[i].DirtyRead?
  }

  lemma {:induction false} NoSubmissionNeverStale(m: Mig, steps: seq<Step>)
    requires NoSubmissions(steps)
    ensures NeverStale(m, steps)
    decreases |steps|
  {
    hide WellFormed, Stale;
    if steps != [] && WellFormed(m) && Enabled(m, steps[0]) {
      NoSubmissionNeverStale(Do(m, steps[0]), steps[1..]);
    }
  }

  /** A sampled read completes. */
  lemma CompleteOne(m: Mig, j: nat) returns (t: Mig)
    requires WellFormed(m) && j < |m.flight| && m.flight[j].sample.Some?
    ensures WellFormed(t) && Runs(m, [Complete(j)], t) && SameTask(m, t)
    ensures t.flight == m.flight[..j] + m.flight[j + 1..] && t.sent == m.sent
    ensures t.queue == m.queue + [Copy(m.flight[j].k, m.flight[j].sample.value)]
  {
    hide WellFormed, Runs;
    t := Do(m, Complete(j));
    StepWellFormed(m, Complete(j));
    OneStep(m, Complete(j), t);
  }

  /** Any read samples, if it has not, and completes. */
  lemma FinishOne(m: Mig, j: nat) returns (steps: seq<Step>, t: Mig)
    requires WellFormed(m) && j < |m.flight|
    ensures WellFormed(t) && Runs(m, steps, t) && NoSubmissions(steps) && SameTask(m, t)
    ensures t.flight == m.flight[..j] + m.flight[j + 1..]
  {
    hide WellFormed, Runs;
    if m.flight[j].sample.Some? {
      t := CompleteOne(m, j);
      steps := [Complete(j)];
    } else {
      var m1 := Do(m, Sample(j));
      StepWellFormed(m, Sample(j));
      OneStep(m, Sample(j), m1);
      t := CompleteOne(m1, j);
      RunsAppend(m, [Sample(j)], m1, [Complete(j)], t);
      steps := [Sample(j)] + [Complete(j)];
    }
  }

  /** Everything in flight completes, read i last. */
  lemma {:induction false} Drain(m: Mig, i: nat) returns (steps: seq<Step>, t: Mig)
    requires WellFormed(m) && i < |m.flight| && m.flight[i].sample.Some?
    requires m.flight[i].k in m.base
    ensures WellFormed(t) && Runs(m, steps, t) && NoSubmissions(steps) && SameTask(m, t) && t.flight == []
    ensures Newest(t.sent + t.queue, m.flight[i].k, m.base[m.flight[i].k]) == m.flight[i].sample.value
    decreases |m.flight|
  {
    hide WellFormed, Runs, Newest;
    if |m.flight| == 1 {
      t := CompleteOne(m, 0);
      steps := [Complete(0)];
      var c := Copy(m.flight[0].k, m.flight[0].sample.value);
      assert t.sent + t.queue == m.sent + m.queue + [c];
      NewestSnoc(m.sent + m.queue, c, c.k, m.base[c.k]);
    } else {
      var j, i' := if i == 0 then 1 else 0, if i == 0 then 0 else i - 1;
      var first, m1 := FinishOne(m, j);
      assert m1.flight[i'] == m.flight[i];
      var rest;
      rest, t := Drain(m1, i');
      RunsAppend(m, first, m1, rest, t);
      steps := first + rest;
    }
  }

  /** Everything queued is sent. */
  lemma {:induction false} SendAll(m: Mig) returns (steps: seq<Step>, t: Mig)
    requires WellFormed(m)
    ensures WellFormed(t) && Runs(m, steps, t) && NoSubmissions(steps) && SameTask(m, t)
    ensures t.flight == m.flight && t.queue == [] && t.sent == m.sent + m.queue
    decreases |m.queue|
  {
    hide WellFormed;
    if m.queue == [] {
      steps, t := [], m;
    } else {
      var m1 := Do(m, Send);
      StepWellFormed(m, Send);
      var rest;
      rest, t := SendAll(m1);
      steps := [Send] + rest;
      assert steps[1..] == rest;
      assert m1.sent + m1.queue == m.sent + m.queue;
    }
  }

  /** The last pass sends every dirty chunk. */
  lemma {:induction false} SyncAll(m: Mig) returns (ks: seq<Key>, u: Mig)
    requires forall k :: k in m.dirty ==> k in m.disk
    ensures SyncRuns(m, ks, u) && u.dirty == {}
    decreases |m.dirty|
  {
    if m.dirty == {} {
      ks, u := [], m;
    } else {
      var k :| k in m.dirty;
      var rest;
      rest, u := SyncAll(SyncSend(m, k));
      ks := [k] + rest;
      assert ks[1..] == rest;
    }
  }

  /** A stale read of a clean chunk in flight can always be made to arrive last. */
  lemma StaleSpoils(m: Mig, i: nat)
    requires WellFormed(m) && i < |m.flight|
    requires var r := m.flight[i]; r.sample.Some? && r.k in m.disk && r.sample.value != m.disk[r.k] && r.k !in m.dirty
    ensures CanEndWrong(m)
  {
    hide Runs, NeverStale, SyncRuns, SameDisks, Newest, Reached;
    var k := m.flight[i].k;
    assert ValidKey(m, k) && k in m.base;
    var s1, m1 := Drain(m, i);
    var s2, t := SendAll(m1);
    RunsAppend(m, s1, m1, s2, t);
    NoSubmissionNeverStale(m, s1 + s2);
    var ks, u := SyncAll(t);
    SyncSent(t, ks, u, k);
    SyncShape(t, ks, u);
    Differ(u, k);
    assert EndsWrong(m, s1 + s2, t, ks, u);
  }

  lemma Differ(u: Mig, k: Key)
    requires ValidKey(u, k) && k in u.disk && k in u.base && Newest(u.sent, k, u.base[k]) != u.disk[k]
    ensures !SameDisks(u)
  {
    DeliverIsNewest(u.base, u.sent, k);
  }

  /** A migration of the single chunk k, already reached by the bulk scan. */
  function Cell(k: Key, disk: Data, dirty: set<Key>, aio: set<Key>, flight: seq<Read>, queue: seq<Copy>,
                sent: seq<Copy>, base: Data): Mig {
    Mig([1], map[k := disk], {k}, dirty, [1], aio, flight, queue, sent, map[k := base])
  }

  lemma CellWellFormed(k: Key, disk: Data, dirty: set<Key>, aio: set<Key>, flight: seq<Read>, queue: seq<Copy>,
                       sent: seq<Copy>, base: Data)
    requires k == Key(0, 0) && dirty <= {k}
    requires forall i :: 0 <= i < |flight| ==> flight[i].k == k
    requires forall i :: 0 <= i < |queue| ==> queue[i].k == k
    requires forall i :: 0 <= i < |sent| ==> sent[i].k == k
    ensures WellFormed(Cell(k, disk, dirty, aio, flight, queue, sent, base))
    ensures BulkDone(Cell(k, disk, dirty, aio, flight, queue, sent, base))
  {
  }

  lemma OneStep(m: Mig, a: Step, t: Mig)
    requires WellFormed(m) && Enabled(m, a) && Do(m, a) == t
    ensures Runs(m, [a], t)
  {
    hide WellFormed, Enabled, Do;
    assert [a][1..] == [];
    assert Runs(t, [a][1..], t);
  }

  /** Before the first step: the chunk holds x on both sides. */
  function CellStart(k: Key, x: Data, base: Data): Mig {
    Mig([1], map[k := x], {k}, {}, [0], {}, [], [], [], map[k := base])
  }

  lemma CellBulkRead(k: Key, x: Data, base: Data)
    requires k == Key(0, 0)
    ensures Initial(CellStart(k, x, base))
    ensures Runs(CellStart(k, x, base), [BulkRead(0), Sample(0)], Cell(k, x, {}, {}, [Read(k, Some(x))], [], [], base))
  {
    hide Runs;
    var m := CellStart(k, x, base);
    var m1 := Cell(k, x, {}, {}, [Read(k, None)], [], [], base);
    var m2 := Cell(k, x, {}, {}, [Read(k, Some(x))], [], [], base);
    CellWellFormed(k, x, {}, {}, [Read(k, None)], [], [], base);
    assert [0][0 := 1] == [1];
    assert Do(m, BulkRead(0)) == m1;
    OneStep(m, BulkRead(0), m1);
    assert [Read(k, None)][0 := Read(k, Some(x))] == [Read(k, Some(x))];
    OneStep(m1, Sample(0), m2);
    RunsAppend(m, [BulkRead(0)], m1, [Sample(0)], m2);
    assert [BulkRead(0)] + [Sample(0)] == [BulkRead(0), Sample(0)];
  }

  lemma CellWrite(k: Key, x: Data, y: Data)
    requires k == Key(0, 0)
    ensures Runs(Cell(k, x, {}, {}, [Read(k, Some(x))], [], [], x), [Write(k, y)],
                 Cell(k, y, {k}, {}, [Read(k, Some(x))], [], [], x))
  {
    CellWellFormed(k, x, {}, {}, [Read(k, Some(x))], [], [], x);
    assert map[k := x][k := y] == map[k := y];
    OneStep(Cell(k, x, {}, {}, [Read(k, Some(x))], [], [], x), Write(k, y),
            Cell(k, y, {k}, {}, [Read(k, Some(x))], [], [], x));
  }

  lemma CellSend(k: Key, y: Data, a: Copy, queue: seq<Copy>, sent: seq<Copy>, base: Data)
    requires WellFormed(Cell(k, y, {}, {}, [], [a] + queue, sent, base))
    ensures Runs(Cell(k, y, {}, {}, [], [a] + queue, sent, base), [Send],
                 Cell(k, y, {}, {}, [], queue, sent + [a], base))
  {
    hide WellFormed, Runs;
    var m := Cell(k, y, {}, {}, [], [a] + queue, sent, base);
    assert ([a] + queue)[1..] == queue;
    OneStep(m, Send, Cell(k, y, {}, {}, [], queue, sent + [a], base));
  }

  lemma CellSendBoth(k: Key, y: Data, a: Copy, b: Copy, base: Data)
    requires k == Key(0, 0) && a.k == k && b.k == k
    ensures Runs(Cell(k, y, {}, {}, [], [a, b], [], base), [Send, Send], Cell(k, y, {}, {}, [], [], [a, b], base))
  {
    hide WellFormed, Runs, Cell;
    assert [a] + [b] == [a, b] && [b] + [] == [b] && [] + [a] == [a] && [Send] + [Send] == [Send, Send];
    CellWellFormed(k, y, {}, {}, [], [a, b], [], base);
    CellSend(k, y, a, [b], [], base);
    CellWellFormed(k, y, {}, {}, [], [b], [a], base);
    CellSend(k, y, b, [], [a], base);
    RunsAppend(Cell(k, y, {}, {}, [], [a, b], [], base), [Send], Cell(k, y, {}, {}, [], [b], [a], base),
               [Send], Cell(k, y, {}, {}, [], [], [a, b], base));
  }

  lemma CellOvertaken(k: Key, x: Data, y: Data)
    requires k == Key(0, 0)
    ensures Runs(Cell(k, y, {k}, {}, [Read(k, Some(x))], [], [], x),
                 [DirtyRead(k), Sample(1), Complete(1), Complete(0)],
                 Cell(k, y, {}, {}, [], [Copy(k, y), Copy(k, x)], [], x))
  {
    hide WellFormed, Runs;
    var r, newer, older := Read(k, Some(x)), Copy(k, y), Copy(k, x);
    var m3 := Cell(k, y, {k}, {}, [r], [], [], x);
    var m4 := Cell(k, y, {}, {k}, [r, Read(k, None)], [], [], x);
    var m5 := Cell(k, y, {}, {k}, [r, Read(k, Some(y))], [], [], x);
    var m6 := Cell(k, y, {}, {}, [r], [newer], [], x);
    var m7 := Cell(k, y, {}, {}, [], [newer, older], [], x);
    CellWellFormed(k, y, {k}, {}, [r], [], [], x);
    CellWellFormed(k, y, {}, {k}, [r, Read(k, None)], [], [], x);
    CellWellFormed(k, y, {}, {k}, [r, Read(k, Some(y))], [], [], x);
    CellWellFormed(k, y, {}, {}, [r], [newer], [], x);
    assert [r] + [Read(k, None)] == [r, Read(k, None)];
    assert Do(m3, DirtyRead(k)) == m4;
    assert [r, Read(k, None)][1 := Read(k, Some(y))] == [r, Read(k, Some(y))];
    assert Do(m4, Sample(1)) == m5;
    assert [r, Read(k, Some(y))][..1] + [r, Read(k, Some(y))][2..] == [r] && [] + [newer] == [newer];
    assert Do(m5, Complete(1)) == m6;
    assert [r][..0] + [r][1..] == [] && [newer] + [older] == [newer, older];
    assert Do(m6, Complete(0)) == m7;
    FourSteps(m3, DirtyRead(k), m4, Sample(1), m5, Complete(1), m6, Complete(0), m7);
  }

  lemma CellWrong(k: Key, y: Data, queue: seq<Copy>, sent: seq<Copy>, base: Data)
    requires k == Key(0, 0) && Newest(sent, k, base) != y
    ensures !SameDisks(Cell(k, y, {}, {}, [], queue, sent, base))
  {
    var t := Cell(k, y, {}, {}, [], queue, sent, base);
    DeliverIsNewest(t.base, t.sent, k);
    assert ValidKey(t, k);
  }

  /** A complete run in which the bulk read samples before a guest write and completes after the
      dirty-phase read: everything is sent, nothing is dirty, and the destination is wrong. */
  lemma BulkReadRace(x: Data, y: Data) returns (m: Mig, steps: seq<Step>, t: Mig)
    requires x != y
    ensures Initial(m) && Runs(m, steps, t)
    ensures BulkDone(t) && t.flight == [] && t.queue == [] && t.dirty == {} && !SameDisks(t)
  {
    hide Runs, Initial, SameDisks;
    var k := Key(0, 0);
    m := CellStart(k, x, x);
    CellBulkRead(k, x, x);
    CellWrite(k, x, y);
    CellOvertaken(k, x, y);
    CellSendBoth(k, y, Copy(k, y), Copy(k, x), x);
    t := Cell(k, y, {}, {}, [], [], [Copy(k, y), Copy(k, x)], x);
    CellWrong(k, y, [], [Copy(k, y), Copy(k, x)], x);
    var m2 := Cell(k, x, {}, {}, [Read(k, Some(x))], [], [], x);
    var m3 := Cell(k, y, {k}, {}, [Read(k, Some(x))], [], [], x);
    var m7 := Cell(k, y, {}, {}, [], [Copy(k, y), Copy(k, x)], [], x);
    var overtaken := [DirtyRead(k), Sample(1), Complete(1), Complete(0)];
    RunsAppend(m3, overtaken, m7, [Send, Send], t);
    RunsAppend(m2, [Write(k, y)], m3, overtaken + [Send, Send], t);
    RunsAppend(m, [BulkRead(0), Sample(0)], m2, [Write(k, y)] + (overtaken + [Send, Send]), t);
    steps := [BulkRead(0), Sample(0)] + ([Write(k, y)] + (overtaken + [Send, Send]));
  }

  /** A run in which flush_blks stops at the rate limit before stage 3 ends: the queued copy is
      dropped and the destination is wrong although no chunk is dirty. */
  lemma RateLimitedFlush(x: Data, y: Data) returns (m: Mig, steps: seq<Step>, t: Mig)
    requires x != y
    ensures Initial(m) && Runs(m, steps, t)
    ensures BulkDone(t) && t.flight == [] && t.dirty == {} && SyncRuns(t, [], t) && !SameDisks(t)
  {
    hide Runs, Initial, SameDisks;
    var k := Key(0, 0);
    m := CellStart(k, y, x);
    CellBulkRead(k, y, x);
    var m2 := Cell(k, y, {}, {}, [Read(k, Some(y))], [], [], x);
    t := Cell(k, y, {}, {}, [], [Copy(k, y)], [], x);
    CellWellFormed(k, y, {}, {}, [Read(k, Some(y))], [], [], x);
    assert [] + [Copy(k, y)] == [Copy(k, y)];
    OneStep(m2, Complete(0), t);
    RunsAppend(m, [BulkRead(0), Sample(0)], m2, [Complete(0)], t);
    steps := [BulkRead(0), Sample(0)] + [Complete(0)];
    CellWrong(k, y, [Copy(k, y)], [], x);
  }

  lemma {:induction false} RunsAppend(m: Mig, s1: seq<Step>, m1: Mig, s2: seq<Step>, m2: Mig)
    requires Runs(m, s1, m1) && Runs(m1, s2, m2)
    ensures Runs(m, s1 + s2, m2)
    decreases |s1|
  {
    hide WellFormed, Enabled, Do;
    if s1 == [] {
      assert s1 + s2 == s2;
    } else {
      RunsAppend(Do(m, s1[0]), s1[1..], m1, s2, m2);
      assert (s1 + s2)[1..] == s1[1..] + s2;
    }
  }
}
