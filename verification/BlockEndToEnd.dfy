/** Block migration end to end: the bytes of the sections blk_send and block_save_live put on the stream, loaded by
    block_load, leave the destination with the disks that delivering the records describes. */
module BlockEndToEnd {
  import opened Common
  import opened Wire
  import opened BlockMigration
  import opened BlockStream

  // ---- Records on the stream ----

  /** A block with the buffer it was read into, or a progress report. */
  datatype Record = Block(copy: Copy, buf: seq<Byte>) | Progress(percent: nat)

  /** The buffer is BLOCK_SIZE long whatever the size of the chunk; what follows a short chunk is arbitrary. */
  predicate ValidRecord(names: seq<seq<Byte>>, r: Record) {
    match r
    case Block(copy, buf) =>
      copy.k.d < |names| && |names[copy.k.d]| < 256 && |buf| == BLOCK_SIZE && copy.data <= buf
    case Progress(percent) => percent <= 100
  }

  function Bytes(names: seq<seq<Byte>>, r: Record): seq<Byte>
    requires ValidRecord(names, r)
  {
    match r
    case Block(copy, buf) => Encode(names[copy.k.d], CHUNK * copy.k.c, buf)
    case Progress(percent) => Be(8, SECTOR * percent + FLAG_PROGRESS)
  }

  predicate ValidRecords(names: seq<seq<Byte>>, rs: seq<Record>) {
    forall i :: 0 <= i < |rs| ==> ValidRecord(names, rs[i])
  }

  /** One section: its records and the end marker. */
  function SectionBytes(names: seq<seq<Byte>>, rs: seq<Record>): seq<Byte>
    requires ValidRecords(names, rs)
  {
    if rs == [] then Be(8, FLAG_EOS) else Bytes(names, rs[0]) + SectionBytes(names, rs[1..])
  }

  function Copies(rs: seq<Record>): seq<Copy> {
    if rs == [] then [] else (if rs[0].Block? then [rs[0].copy] else []) + Copies(rs[1..])
  }

  /** The block records of all sections. */
  function AllCopies(sections: seq<seq<Record>>): seq<Copy> {
    if sections == [] then [] else Copies(sections[0]) + AllCopies(sections[1..])
  }

  function AllBytes(names: seq<seq<Byte>>, sections: seq<seq<Record>>): seq<seq<Byte>>
    requires forall i :: 0 <= i < |sections| ==> ValidRecords(names, sections[i])
  {
    if sections == [] then [] else [SectionBytes(names, sections[0])] + AllBytes(names, sections[1..])
  }

  // ---- The destination ----

  /** Every source device is found at the destination, and is a disk of whole sectors. */
  ghost predicate Ready(devs: seq<Device>, names: seq<seq<Byte>>) {
    && Distinct(names)
    && forall d :: 0 <= d < |names| ==>
        Find(devs, names[d]).Some? && var dev := devs[Find(devs, names[d]).value]; dev.Valid() && |dev.disk| <= U64
  }

  /** The contents of the destination device with the name of source device d. */
  ghost function DiskOf(devs: seq<Device>, names: seq<seq<Byte>>, d: nat): seq<Byte>
    requires Ready(devs, names) && d < |names|
  {
    devs[Find(devs, names[d]).value].disk
  }

  ghost predicate OnDisk(devs: seq<Device>, names: seq<seq<Byte>>, k: Key)
    requires Ready(devs, names)
  {
    k.d < |names| && BLOCK_SIZE * k.c < |DiskOf(devs, names, k.d)|
  }

  /** Chunk by chunk the destination holds `disks`. */
  ghost predicate Holds(devs: seq<Device>, names: seq<seq<Byte>>, disks: map<Key, Data>) {
    && Ready(devs, names)
    && (forall k :: k in disks <==> OnDisk(devs, names, k))
    && (forall k :: k in disks ==> disks[k] == ChunkOf(DiskOf(devs, names, k.d), k.c))
  }

  lemma {:induction false} FindByNames(devs: seq<Device>, devs': seq<Device>, name: seq<Byte>)
    requires |devs'| == |devs| && forall i :: 0 <= i < |devs| ==> devs'[i].name == devs[i].name
    ensures Find(devs', name) == Find(devs, name)
  {
    if devs != [] {
      FindByNames(devs[1..], devs'[1..], name);
    }
  }

  // ---- One record ----

  /** One device's disk is replaced by one of the same length. */
  ghost predicate OneDisk(devs: seq<Device>, devs': seq<Device>, i: nat) {
    && i < |devs| == |devs'|
    && (forall j :: 0 <= j < |devs| && j != i ==> devs'[j] == devs[j])
    && devs'[i].name == devs[i].name && |devs'[i].disk| == |devs[i].disk|
  }

  lemma StaysReady(devs: seq<Device>, names: seq<seq<Byte>>, devs': seq<Device>, i: nat)
    requires Ready(devs, names) && OneDisk(devs, devs', i)
    ensures Ready(devs', names)
    ensures forall d :: 0 <= d < |names| ==> Find(devs', names[d]) == Find(devs, names[d])
  {
    hide Find;
    forall d | 0 <= d < |names|
      ensures Find(devs', names[d]) == Find(devs, names[d])
    {
      FindByNames(devs, devs', names[d]);
    }
  }

  lemma ChunkReplaced(devs: seq<Device>, names: seq<seq<Byte>>, disks: map<Key, Data>, devs': seq<Device>, k: Key,
                      data: Data)
    requires Holds(devs, names, disks) && k in disks
    requires OneDisk(devs, devs', Find(devs, names[k.d]).value)
    requires forall e :: ChunkOf(devs'[Find(devs, names[k.d]).value].disk, e) ==
                         if e == k.c then data else ChunkOf(devs[Find(devs, names[k.d]).value].disk, e)
    ensures Holds(devs', names, disks[k := data])
  {
    hide Find, ChunkOf;
    StaysReady(devs, names, devs', Find(devs, names[k.d]).value);
    forall j | 0 <= j < |names| && j != k.d
      ensures Find(devs, names[j]) != Find(devs, names[k.d])
    {
    }
  }

  lemma BlockDelivered(devs: seq<Device>, names: seq<seq<Byte>>, disks: map<Key, Data>, r: Record)
    requires Holds(devs, names, disks) && ValidRecord(names, r) && r.Block?
    requires r.copy.k in disks && |r.copy.data| == |disks[r.copy.k]|
    ensures var o := LoadOne(devs, Bytes(names, r));
            o.Loaded? && o.rest == [] && !o.eos && Holds(o.devs, names, disks[r.copy.k := r.copy.data])
  {
    hide Find, ChunkOf, LoadOne, Encode;
    var k := r.copy.k;
    var i := Find(devs, names[k.d]).value;
    var o := LoadOne(devs, Bytes(names, r));
    FoundName(devs, names[k.d]);
    BlockRoundTrip(devs, i, k.c, r.buf, 0);
    forall e
      ensures ChunkOf(o.devs[i].disk, e) == if e == k.c then r.copy.data else ChunkOf(devs[i].disk, e)
    {
      BlockRoundTrip(devs, i, k.c, r.buf, e);
    }
    ChunkReplaced(devs, names, disks, o.devs, k, r.copy.data);
  }

  lemma FoundName(devs: seq<Device>, name: seq<Byte>)
    requires Find(devs, name).Some?
    ensures Find(devs, name).value < |devs| && devs[Find(devs, name).value].name == name
  {
  }

  lemma ProgressIgnored(devs: seq<Device>, percent: nat)
    requires percent <= 100
    ensures LoadOne(devs, Be(8, SECTOR * percent + FLAG_PROGRESS)) == Loaded(devs, [], false)
  {
    hide Be, UnBe;
    Be64RoundTrip(SECTOR * percent + FLAG_PROGRESS);
    var w := Be(8, SECTOR * percent + FLAG_PROGRESS);
    assert w[..8] == w && w[8..] == [];
  }

  lemma EosEnds(devs: seq<Device>)
    ensures LoadOne(devs, Be(8, FLAG_EOS)) == Loaded(devs, [], true)
  {
    hide Be, UnBe;
    Be64RoundTrip(FLAG_EOS);
    var w := Be(8, FLAG_EOS);
    assert w[..8] == w && w[8..] == [];
  }

  // ---- Sections ----

  /** Every record is of a chunk the destination has and as long as that chunk. */
  predicate Fits(disks: map<Key, Data>, copies: seq<Copy>) {
    forall i :: 0 <= i < |copies| ==> copies[i].k in disks && |copies[i].data| == |disks[copies[i].k]|
  }

  /** block_load of one section gives the disks that Deliver describes. */
  lemma {:induction false} SectionDelivers(devs: seq<Device>, names: seq<seq<Byte>>, disks: map<Key, Data>,
                                           rs: seq<Record>)
    requires Holds(devs, names, disks) && ValidRecords(names, rs) && Fits(disks, Copies(rs))
    ensures var o := LoadSection(devs, SectionBytes(names, rs));
            o.Loaded? && o.rest == [] && o.eos && Holds(o.devs, names, Deliver(disks, Copies(rs)))
    decreases |rs|
  {
    hide Be, LoadOne, Bytes, Holds;
    if rs == [] {
      EosEnds(devs);
    } else {
      var w, t := Bytes(names, rs[0]), SectionBytes(names, rs[1..]);
      var o := LoadOne(devs, w);
      var disks1 := disks;
      if rs[0].Block? {
        assert Copies(rs)[0] == rs[0].copy && Copies(rs)[1..] == Copies(rs[1..]);
        BlockDelivered(devs, names, disks, rs[0]);
        disks1 := disks[rs[0].copy.k := rs[0].copy.data];
      } else {
        assert Copies(rs) == Copies(rs[1..]);
        ProgressBytes(devs, names, rs[0]);
      }
      assert [] + t == t;
      LoadOneExtend(devs, w, t);
      FitsAfter(disks, rs);
      SectionDelivers(o.devs, names, disks1, rs[1..]);
    }
  }

  lemma ProgressBytes(devs: seq<Device>, names: seq<seq<Byte>>, r: Record)
    requires ValidRecord(names, r) && r.Progress?
    ensures LoadOne(devs, Bytes(names, r)) == Loaded(devs, [], false)
  {
    hide LoadOne, Be;
    ProgressIgnored(devs, r.percent);
  }

  lemma FitsAfter(disks: map<Key, Data>, rs: seq<Record>)
    requires rs != [] && Fits(disks, Copies(rs))
    ensures rs[0].Progress? ==> Fits(disks, Copies(rs[1..]))
    ensures rs[0].Block? ==> Fits(disks[rs[0].copy.k := rs[0].copy.data], Copies(rs[1..]))
  {
    if rs[0].Block? {
      assert Copies(rs)[0] == rs[0].copy && Copies(rs)[1..] == Copies(rs[1..]);
    } else {
      assert Copies(rs) == Copies(rs[1..]);
    }
  }

  lemma {:induction false} DeliverAppend(disks: map<Key, Data>, a: seq<Copy>, b: seq<Copy>)
    ensures Deliver(disks, a + b) == Deliver(Deliver(disks, a), b)
    decreases |a|
  {
    if a == [] {
      assert a + b == b;
    } else {
      assert (a + b)[1..] == a[1..] + b;
      DeliverAppend(disks[a[0].k := a[0].data], a[1..], b);
    }
  }

  lemma {:induction false} DeliverKeepsFit(disks: map<Key, Data>, a: seq<Copy>, b: seq<Copy>)
    requires Fits(disks, a) && Fits(disks, b)
    ensures Fits(Deliver(disks, a), b)
    decreases |a|
  {
    if a != [] {
      assert a[0] in a;
      DeliverKeepsFit(disks[a[0].k := a[0].data], a[1..], b);
    }
  }

  /** Loading all sections in turn gives the disks that delivering all their block records describes. */
  lemma {:induction false} SectionsDeliver(devs: seq<Device>, names: seq<seq<Byte>>, disks: map<Key, Data>,
                                           sections: seq<seq<Record>>)
    requires Holds(devs, names, disks) && Fits(disks, AllCopies(sections))
    requires forall i :: 0 <= i < |sections| ==> ValidRecords(names, sections[i])
    ensures var o := LoadSections(devs, AllBytes(names, sections));
            o.Some? && Holds(o.value, names, Deliver(disks, AllCopies(sections)))
    decreases |sections|
  {
    hide LoadSection, SectionBytes, Holds, Copies, ValidRecords;
    if sections != [] {
      var a, b := Copies(sections[0]), AllCopies(sections[1..]);
      var bytes := AllBytes(names, sections);
      assert bytes[0] == SectionBytes(names, sections[0]) && bytes[1..] == AllBytes(names, sections[1..]);
      FitsParts(disks, a, b);
      SectionDelivers(devs, names, disks, sections[0]);
      DeliverAppend(disks, a, b);
      DeliverKeepsFit(disks, a, b);
      var o := LoadSection(devs, SectionBytes(names, sections[0]));
      SectionsDeliver(o.devs, names, Deliver(disks, a), sections[1..]);
    }
  }

  lemma FitsParts(disks: map<Key, Data>, a: seq<Copy>, b: seq<Copy>)
    requires Fits(disks, a + b)
    ensures Fits(disks, a) && Fits(disks, b)
  {
    assert forall i :: 0 <= i < |a| ==> a[i] == (a + b)[i];
    assert forall i :: 0 <= i < |b| ==> b[i] == (a + b)[|a| + i];
  }

  // ---- Sizes over a run ----

  /** Everything under way for a chunk is as long as the chunk at the destination. */
  ghost predicate Sized(m: Mig) {
    && (forall k :: k in m.disk && k in m.base ==> |m.disk[k]| == |m.base[k]|)
    && (forall i :: 0 <= i < |m.flight| && m.flight[i].sample.Some? && m.flight[i].k in m.base ==>
          |m.flight[i].sample.value| == |m.base[m.flight[i].k]|)
    && (forall i :: 0 <= i < |m.queue| && m.queue[i].k in m.base ==> |m.queue[i].data| == |m.base[m.queue[i].k]|)
    && (forall i :: 0 <= i < |m.sent| && m.sent[i].k in m.base ==> |m.sent[i].data| == |m.base[m.sent[i].k]|)
  }

  /** A guest write gives a chunk new contents of the same length. */
  predicate WriteSized(base: map<Key, Data>, a: Step) {
    a.Write? && a.k in base ==> |a.data| == |base[a.k]|
  }

  lemma StepSized(m: Mig, a: Step)
    requires WellFormed(m) && Enabled(m, a) && Sized(m) && WriteSized(m.base, a)
    ensures Sized(Do(m, a)) && Do(m, a).base == m.base
  {
  }

  lemma {:induction false} RunSized(m: Mig, steps: seq<Step>, t: Mig)
    requires Runs(m, steps, t) && Sized(m)
    requires forall i :: 0 <= i < |steps| ==> WriteSized(m.base, steps[i])
    ensures Sized(t) && t.base == m.base
    decreases |steps|
  {
    hide Sized, WellFormed;
    if steps != [] {
      StepSized(m, steps[0]);
      RunSized(Do(m, steps[0]), steps[1..], t);
    }
  }

  lemma {:induction false} SyncSized(m: Mig, ks: seq<Key>, t: Mig)
    requires SyncRuns(m, ks, t) && Sized(m)
    ensures Sized(t) && t.base == m.base
    decreases |ks|
  {
    if ks != [] {
      SyncSized(SyncSend(m, ks[0]), ks[1..], t);
    }
  }

  // ---- The end result ----

  /** A whole block migration over bytes: the sections that carry the sent records, however they are cut and whatever
      progress reports lie between, load without error, and every chunk of the destination's devices then equals the
      source's. */
  lemma MigrationCopiesDevices(m0: Mig, steps: seq<Step>, m: Mig, ks: seq<Key>, t: Mig,
                               devs: seq<Device>, names: seq<seq<Byte>>, sections: seq<seq<Record>>)
    requires Initial(m0) && Runs(m0, steps, m) && NeverStale(m0, steps)
    requires BulkDone(m) && m.flight == [] && m.queue == []
    requires SyncRuns(m, ks, t) && t.dirty == {}
    requires Sized(m0) && forall i :: 0 <= i < |steps| ==> WriteSized(m0.base, steps[i])
    requires Holds(devs, names, m0.base)
    requires forall i :: 0 <= i < |sections| ==> ValidRecords(names, sections[i])
    requires AllCopies(sections) == t.sent
    ensures var o := LoadSections(devs, AllBytes(names, sections));
            && o.Some? && Ready(o.value, names)
            && forall k :: ValidKey(t, k) ==>
                 k in t.disk && OnDisk(o.value, names, k) && ChunkOf(DiskOf(o.value, names, k.d), k.c) == t.disk[k]
  {
    hide Sized, NeverStale, WellFormed, LoadSections, Find, ChunkOf, AllCopies, Runs, SyncRuns, Deliver, Initial, Ready,
         OnDisk, DiskOf;
    MigrationCopiesDisks(m0, steps, m, ks, t);
    RunSized(m0, steps, m);
    SyncSized(m, ks, t);
    SentFits(m0, steps, m, ks, t);
    SectionsDeliver(devs, names, m0.base, sections);
  }

  lemma SentFits(m0: Mig, steps: seq<Step>, m: Mig, ks: seq<Key>, t: Mig)
    requires Initial(m0) && Runs(m0, steps, m) && BulkDone(m) && SyncRuns(m, ks, t) && Sized(t) && t.base == m0.base
    ensures Fits(t.base, t.sent)
  {
    hide Sized, Runs, SyncRuns, Initial;
    InitialWellFormed(m0);
    RunWellFormed(m0, steps, m);
    SyncWellFormed(m, ks, t);
    SizedFits(t);
  }

  lemma SizedFits(m: Mig)
    requires WellFormed(m) && Sized(m)
    ensures Fits(m.base, m.sent)
  {
  }

  lemma InitialWellFormed(m: Mig)
    requires Initial(m)
    ensures WellFormed(m)
  {
  }

  lemma {:induction false} RunWellFormed(m: Mig, steps: seq<Step>, t: Mig)
    requires WellFormed(m) && Runs(m, steps, t)
    ensures WellFormed(t)
    decreases |steps|
  {
    hide WellFormed, Enabled, Do;
    if steps != [] {
      StepWellFormed(m, steps[0]);
      RunWellFormed(Do(m, steps[0]), steps[1..], t);
    }
  }

  lemma {:induction false} SyncWellFormed(m: Mig, ks: seq<Key>, t: Mig)
    requires WellFormed(m) && BulkDone(m) && SyncRuns(m, ks, t)
    ensures WellFormed(t)
    decreases |ks|
  {
    if ks != [] {
      SyncWellFormed(SyncSend(m, ks[0]), ks[1..], t);
    }
  }
}
