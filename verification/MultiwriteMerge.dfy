/** Merging a batch of writes before it is submitted (block.c, multiwrite_merge). */
module MultiwriteMerge {
  import opened Common
  import opened Wire
  import opened Iovec

  const IOV_MAX := 1024

  /** The part of a BlockRequest that says what is written. Addresses are bytes. */
  datatype Write = Write(sector: nat, nb: nat, qiov: Segments) {
    function Start(): nat {
      SECTOR * sector
    }

    function End(): nat {
      SECTOR * (sector + nb)
    }

    predicate Covers(a: int) {
      Start() <= a < End()
    }

    ghost predicate Valid() {
      |Flat(qiov)| == SECTOR * nb
    }

    ghost function ByteAt(a: int): Byte
      requires Valid() && Covers(a)
    {
      Flat(qiov)[a - Start()]
    }
  }

  ghost predicate AllValid(ws: seq<Write>) {
    forall i :: 0 <= i < |ws| ==> ws[i].Valid()
  }

  ghost predicate Sorted(ws: seq<Write>) {
    forall i, j :: 0 <= i < j < |ws| ==> ws[i].sector <= ws[j].sector
  }

  /** bdrv_merge_requests, asked about (sector, nb_sectors) of two requests; constantly false without the hook. */
  type Hook = (nat, nat, nat, nat) -> bool

  // ---- The merged list ----

  predicate Joins(hook: Hook, cur: Write, r: Write) {
    && (r.sector <= cur.sector + cur.nb || hook(cur.sector, cur.nb, r.sector, r.nb))
    && |cur.qiov| + |r.qiov| + 1 <= IOV_MAX
  }

  function Zeros(n: nat): seq<Byte> {
    seq(n, _ => 0)
  }

  function Filler(cur: Write, r: Write): Segments {
    if r.sector > cur.sector + cur.nb then [Zeros(SECTOR * (r.sector - (cur.sector + cur.nb)))] else []
  }

  function JoinSegs(cur: Write, r: Write): Segments
    requires cur.sector <= r.sector
  {
    CopySegs(cur.qiov, 0, SECTOR * (r.sector - cur.sector)) + Filler(cur, r) + CopySegs(r.qiov, 0, |Flat(r.qiov)|)
  }

  function Join(cur: Write, r: Write): Write
    requires cur.sector <= r.sector
  {
    var v := JoinSegs(cur, r);
    Write(cur.sector, |Flat(v)| / SECTOR, v)
  }

  /** What is left in reqs after merging rs, sorted by start sector. */
  function Merged(hook: Hook, rs: seq<Write>): (m: seq<Write>)
    requires rs != [] && Sorted(rs)
    ensures 0 < |m| <= |rs| && m[|m| - 1].sector <= rs[|rs| - 1].sector
  {
    if |rs| == 1 then rs
    else
      var m := Merged(hook, rs[..|rs| - 1]);
      var cur, r := m[|m| - 1], rs[|rs| - 1];
      assert cur.sector <= rs[|rs| - 2].sector <= r.sector;
      if Joins(hook, cur, r) then m[..|m| - 1] + [Join(cur, r)] else m + [r]
  }

  /** Request i is folded into the running request. */
  predicate MergesAt(hook: Hook, rs: seq<Write>, i: nat)
    requires 0 < i < |rs| && Sorted(rs)
  {
    var m := Merged(hook, rs[..i]);
    Joins(hook, m[|m| - 1], rs[i])
  }

  // ---- What a list of writes does to a disk ----

  type Disk = int -> Byte

  ghost function Put(d: Disk, w: Write): Disk
    requires w.Valid()
  {
    (a: int) => if w.Covers(a) then w.ByteAt(a) else d(a)
  }

  /** Perform the writes one after the other. */
  ghost function Perform(d: Disk, ws: seq<Write>): Disk
    requires AllValid(ws)
  {
    if ws == [] then d else Put(Perform(d, ws[..|ws| - 1]), ws[|ws| - 1])
  }

  lemma PerformSnoc(d: Disk, ws: seq<Write>, w: Write, a: int)
    requires AllValid(ws) && w.Valid()
    ensures AllValid(ws + [w])
    ensures Perform(d, ws + [w])(a) == if w.Covers(a) then w.ByteAt(a) else Perform(d, ws)(a)
  {
    assert (ws + [w])[..|ws|] == ws;
  }

  // ---- One merge ----

  /** The bytes of a join: the running request up to r, zeros over the gap, r. */
  lemma JoinFlat(cur: Write, r: Write)
    requires cur.Valid() && r.Valid() && cur.sector <= r.sector
    ensures Flat(JoinSegs(cur, r)) ==
            Slice(Flat(cur.qiov), 0, SECTOR * (r.sector - cur.sector)) + Flat(Filler(cur, r)) + Flat(r.qiov)
    ensures |JoinSegs(cur, r)| <= |cur.qiov| + |r.qiov| + 1
  {
    var n := SECTOR * (r.sector - cur.sector);
    var a, z, b := CopySegs(cur.qiov, 0, n), Filler(cur, r), CopySegs(r.qiov, 0, |Flat(r.qiov)|);
    CopyIsSlice(cur.qiov, 0, n);
    CopyIsSlice(r.qiov, 0, |Flat(r.qiov)|);
    FlatAppend(a + z, b);
    FlatAppend(a, z);
    assert Slice(Flat(r.qiov), 0, |Flat(r.qiov)|) == Flat(r.qiov);
  }

  /** A join starts where the running request did, ends where r does, and is a whole number of sectors. */
  lemma JoinExtent(cur: Write, r: Write)
    requires cur.Valid() && r.Valid() && cur.sector <= r.sector
    ensures Join(cur, r).Valid() && Join(cur, r).End() == r.End()
    ensures Join(cur, r).Start() == cur.Start()
  {
    hide Flat, CopySegs;
    JoinFlat(cur, r);
    if r.sector > cur.sector + cur.nb {
      FlatOne(Zeros(SECTOR * (r.sector - (cur.sector + cur.nb))));
    } else {
      FlatNil();
    }
    assert |Flat(JoinSegs(cur, r))| == SECTOR * (r.sector + r.nb - cur.sector);
  }

  lemma FlatNil()
    ensures Flat([]) == []
  {
  }

  lemma JoinByte(cur: Write, r: Write, a: int)
    requires cur.Valid() && r.Valid() && cur.sector <= r.sector
    requires Join(cur, r).Valid() && Join(cur, r).Covers(a) && Join(cur, r).End() == r.End()
    ensures r.Covers(a) ==> Join(cur, r).ByteAt(a) == r.ByteAt(a)
    ensures a < r.Start() && cur.Covers(a) ==> Join(cur, r).ByteAt(a) == cur.ByteAt(a)
    ensures cur.End() <= a < r.Start() ==> Join(cur, r).ByteAt(a) == 0
  {
    hide Flat, CopySegs;
    JoinFlat(cur, r);
    if r.sector > cur.sector + cur.nb {
      FlatOne(Zeros(SECTOR * (r.sector - (cur.sector + cur.nb))));
    } else {
      FlatNil();
    }
  }

  /** The running request is valid and ends exactly where the last request taken ended. */
  lemma {:induction false} RunningEnd(hook: Hook, rs: seq<Write>)
    requires rs != [] && Sorted(rs) && AllValid(rs)
    ensures AllValid(Merged(hook, rs))
    ensures var m := Merged(hook, rs); m[|m| - 1].End() == rs[|rs| - 1].End()
  {
    hide Joins, Join;
    if |rs| > 1 {
      var p := rs[..|rs| - 1];
      RunningEnd(hook, p);
      var m := Merged(hook, p);
      JoinExtent(m[|m| - 1], rs[|rs| - 1]);
    }
  }

  ghost function Out(hook: Hook, rs: seq<Write>): seq<Write>
    requires rs != [] && Sorted(rs)
  {
    var m := Merged(hook, rs);
    m[..|m| - 1]
  }

  ghost function Cur(hook: Hook, rs: seq<Write>): Write
    requires rs != [] && Sorted(rs)
  {
    var m := Merged(hook, rs);
    m[|m| - 1]
  }

  /** What taking one more request does to the byte at a. */
  lemma StepAt(hook: Hook, p: seq<Write>, r: Write, d: Disk, a: int)
    requires p != [] && Sorted(p + [r]) && AllValid(p + [r]) && Sorted(p)
    ensures AllValid(Merged(hook, p + [r])) && AllValid(Merged(hook, p)) && AllValid(Out(hook, p))
    ensures AllValid(Out(hook, p + [r]))
    ensures var joins := Joins(hook, Cur(hook, p), r);
            && Perform(d, Merged(hook, p + [r]))(a) ==
               (if r.Covers(a) then r.ByteAt(a)
                else if joins && a >= r.End() then Perform(d, Out(hook, p))(a)
                else if joins && Cur(hook, p).End() <= a < r.Start() then 0
                else Perform(d, Merged(hook, p))(a))
            && Out(hook, p + [r]) == (if joins then Out(hook, p) else Merged(hook, p))
            && (joins ==> Merged(hook, p + [r]) == Out(hook, p) + [Join(Cur(hook, p), r)])
  {
    hide Joins, Join, Perform, Flat, Merged, Sorted;
    var q := p + [r];
    assert q[..|q| - 1] == p && q[|q| - 1] == r;
    ValidPrefix(p, r);
    MergedSnoc(hook, q);
    RunningEnd(hook, p);
    RunningEnd(hook, q);
    var m, out, cur := Merged(hook, p), Out(hook, p), Cur(hook, p);
    assert m == out + [cur];
    PerformSnoc(d, out, cur, a);
    if Joins(hook, cur, r) {
      var j := Join(cur, r);
      JoinExtent(cur, r);
      assert Merged(hook, q) == out + [j];
      PerformSnoc(d, out, j, a);
      if j.Covers(a) {
        JoinByte(cur, r, a);
      }
    } else {
      PerformSnoc(d, m, r, a);
    }
  }

  // ---- Which bytes come out right ----

  /** a lies in a gap that request k closes with zeros. */
  ghost predicate GapAt(hook: Hook, rs: seq<Write>, k: int, a: int)
    requires Sorted(rs)
  {
    0 < k < |rs| && rs[k - 1].End() <= a < rs[k].Start() && MergesAt(hook, rs, k)
  }

  ghost predicate Gap(hook: Hook, rs: seq<Write>, a: int)
    requires Sorted(rs)
  {
    exists k :: GapAt(hook, rs, k, a)
  }

  /** Request i is folded in although it ends before its predecessor does, and a is in the tail cut off. */
  ghost predicate DroppedAt(hook: Hook, rs: seq<Write>, i: int, a: int)
    requires Sorted(rs)
  {
    0 < i < |rs| && rs[i].End() <= a < rs[i - 1].End() && MergesAt(hook, rs, i)
  }

  ghost predicate WrittenAfter(rs: seq<Write>, i: int, a: int) {
    exists j :: 0 <= i < j < |rs| && rs[j].Covers(a)
  }

  /** Every byte cut off is written again by a later request, or zeroed with a gap. */
  ghost predicate NothingLost(hook: Hook, rs: seq<Write>)
    requires Sorted(rs)
  {
    forall i, a :: DroppedAt(hook, rs, i, a) ==> WrittenAfter(rs, i, a) || Gap(hook, rs, a)
  }

  lemma PrefixDecisions(hook: Hook, p: seq<Write>, r: Write, k: int, a: int)
    requires Sorted(p + [r]) && Sorted(p)
    ensures GapAt(hook, p, k, a) ==> GapAt(hook, p + [r], k, a)
    ensures DroppedAt(hook, p, k, a) ==> DroppedAt(hook, p + [r], k, a)
    ensures 0 < k < |p| && GapAt(hook, p + [r], k, a) ==> GapAt(hook, p, k, a)
    ensures 0 < k < |p| && DroppedAt(hook, p + [r], k, a) ==> DroppedAt(hook, p, k, a)
  {
    hide Joins, Merged;
    if 0 < k < |p| {
      assert (p + [r])[..k] == p[..k];
    }
  }

  /** A gap ends up zero. */
  lemma {:induction false} GapIsZero(hook: Hook, rs: seq<Write>, d: Disk, k: int, a: int)
    requires Sorted(rs) && AllValid(rs) && GapAt(hook, rs, k, a)
    ensures AllValid(Merged(hook, rs)) && Perform(d, Merged(hook, rs))(a) == 0
  {
    hide Joins, Merged, Perform;
    var p, r := rs[..|rs| - 1], rs[|rs| - 1];
    assert rs == p + [r];
    StepAt(hook, p, r, d, a);
    RunningEnd(hook, p);
    if k < |p| {
      PrefixDecisions(hook, p, r, k, a);
      GapIsZero(hook, p, d, k, a);
      assert rs[k].sector <= r.sector;
    } else {
      assert rs[..k] == p;
    }
  }

  /** Outside gaps and tails cut off for good, merging changes nothing. */
  lemma {:induction false} MergedAt(hook: Hook, rs: seq<Write>, d: Disk, a: int)
    requires rs != [] && Sorted(rs) && AllValid(rs) && !Gap(hook, rs, a)
    requires forall i :: DroppedAt(hook, rs, i, a) ==> WrittenAfter(rs, i, a)
    ensures AllValid(Merged(hook, rs)) && Perform(d, Merged(hook, rs))(a) == Perform(d, rs)(a)
    decreases |rs|
  {
    hide Joins, Merged, Perform;
    if |rs| == 1 {
      MergedOne(hook, rs);
    } else {
      var p, r := rs[..|rs| - 1], rs[|rs| - 1];
      assert rs == p + [r];
      StepAt(hook, p, r, d, a);
      RunningEnd(hook, p);
      assert AllValid(p);
      PerformSnoc(d, p, r, a);
      if !r.Covers(a) {
        StillKept(hook, p, r, a);
        MergedAt(hook, p, d, a);
        LastStep(hook, p, r, d, a);
      }
    }
  }

  lemma MergedOne(hook: Hook, rs: seq<Write>)
    requires |rs| == 1
    ensures Merged(hook, rs) == rs
  {
  }

  lemma StillKept(hook: Hook, p: seq<Write>, r: Write, a: int)
    requires Sorted(p + [r]) && Sorted(p) && !r.Covers(a) && !Gap(hook, p + [r], a)
    requires forall i :: DroppedAt(hook, p + [r], i, a) ==> WrittenAfter(p + [r], i, a)
    ensures !Gap(hook, p, a)
    ensures forall i :: DroppedAt(hook, p, i, a) ==> WrittenAfter(p, i, a)
  {
    hide Merged, MergesAt, GapAt, DroppedAt;
    forall k ensures !GapAt(hook, p, k, a) {
      PrefixDecisions(hook, p, r, k, a);
    }
    forall i | DroppedAt(hook, p, i, a) ensures WrittenAfter(p, i, a) {
      PrefixDecisions(hook, p, r, i, a);
      var j :| 0 <= i < j < |p + [r]| && (p + [r])[j].Covers(a);
      assert p[j].Covers(a);
    }
  }

  /** The newest request neither closes a gap over a nor cuts a off. */
  lemma LastDecision(hook: Hook, p: seq<Write>, r: Write, a: int)
    requires p != [] && Sorted(p + [r]) && Sorted(p) && !Gap(hook, p + [r], a)
    requires forall i :: DroppedAt(hook, p + [r], i, a) ==> WrittenAfter(p + [r], i, a)
    ensures Joins(hook, Cur(hook, p), r) ==> !(r.End() <= a < p[|p| - 1].End()) && !(p[|p| - 1].End() <= a < r.Start())
  {
    hide Joins, Merged;
    var q, k := p + [r], |p|;
    assert q[..k] == p && q[k - 1] == p[k - 1] && q[k] == r;
    assert !GapAt(hook, q, k, a);
    assert !WrittenAfter(q, k, a);
    assert !DroppedAt(hook, q, k, a);
  }

  lemma ValidPrefix(p: seq<Write>, r: Write)
    requires AllValid(p + [r])
    ensures AllValid(p) && r.Valid()
  {
    assert forall i :: 0 <= i < |p| ==> (p + [r])[i] == p[i];
    assert (p + [r])[|p|] == r;
  }

  lemma LastStep(hook: Hook, p: seq<Write>, r: Write, d: Disk, a: int)
    requires p != [] && Sorted(p + [r]) && Sorted(p) && AllValid(p + [r]) && !r.Covers(a) && !Gap(hook, p + [r], a)
    requires forall i :: DroppedAt(hook, p + [r], i, a) ==> WrittenAfter(p + [r], i, a)
    ensures AllValid(Merged(hook, p)) && AllValid(Merged(hook, p + [r]))
    ensures Perform(d, Merged(hook, p + [r]))(a) == Perform(d, Merged(hook, p))(a)
  {
    hide Joins, Merged, Perform, Gap, DroppedAt, WrittenAfter;
    StepAt(hook, p, r, d, a);
    ValidPrefix(p, r);
    RunningEnd(hook, p);
    LastDecision(hook, p, r, a);
    var cur, out := Cur(hook, p), Out(hook, p);
    assert Merged(hook, p) == out + [cur];
    PerformSnoc(d, out, cur, a);
  }

  // ---- The exact condition ----

  ghost predicate SameSegs(v: Segments, w: Segments) {
    |v| == |w| && forall i :: 0 <= i < |v| ==> |v[i]| == |w[i]|
  }

  /** The same sectors in ranges of the same lengths, with any data. */
  ghost predicate SameShape(ws: seq<Write>, us: seq<Write>) {
    |ws| == |us| && forall i :: 0 <= i < |ws| ==> SameWrite(ws[i], us[i])
  }

  ghost predicate SameWrite(w: Write, u: Write) {
    w.sector == u.sector && w.nb == u.nb && SameSegs(w.qiov, u.qiov)
  }

  lemma {:induction false} SameFlat(v: Segments, w: Segments)
    requires SameSegs(v, w)
    ensures |Flat(v)| == |Flat(w)|
  {
    if v != [] {
      SameFlat(v[1..], w[1..]);
    }
  }

  lemma {:induction false} SameCopy(v: Segments, w: Segments, skip: nat, size: nat)
    requires SameSegs(v, w)
    ensures SameSegs(CopySegs(v, skip, size), CopySegs(w, skip, size))
  {
    if v != [] && size != 0 {
      if skip >= |v[0]| {
        SameCopy(v[1..], w[1..], skip - |v[0]|, size);
      } else if |v[0]| - skip <= size {
        SameCopy(v[1..], w[1..], 0, size - (|v[0]| - skip));
      }
    }
  }

  lemma SameJoin(cur: Write, r: Write, cur': Write, r': Write)
    requires cur.sector <= r.sector && SameWrite(cur, cur') && SameWrite(r, r')
    ensures SameWrite(Join(cur, r), Join(cur', r'))
  {
    hide CopySegs, Flat;
    SameFlat(r.qiov, r'.qiov);
    SameCopy(cur.qiov, cur'.qiov, 0, SECTOR * (r.sector - cur.sector));
    SameCopy(r.qiov, r'.qiov, 0, |Flat(r.qiov)|);
    SameFlat(JoinSegs(cur, r), JoinSegs(cur', r'));
  }

  lemma SameSorted(rs: seq<Write>, us: seq<Write>)
    requires Sorted(rs) && SameShape(rs, us)
    ensures Sorted(us)
  {
    hide SameSegs;
    forall i, j | 0 <= i < j < |us| ensures us[i].sector <= us[j].sector {
      assert rs[i].sector <= rs[j].sector && SameWrite(rs[i], us[i]) && SameWrite(rs[j], us[j]);
    }
  }

  lemma MergedSnoc(hook: Hook, rs: seq<Write>)
    requires |rs| > 1 && Sorted(rs)
    ensures var p, r := rs[..|rs| - 1], rs[|rs| - 1];
            && Merged(hook, p) == Out(hook, p) + [Cur(hook, p)] && Cur(hook, p).sector <= r.sector
            && Merged(hook, rs) == if Joins(hook, Cur(hook, p), r) then Out(hook, p) + [Join(Cur(hook, p), r)]
                                   else Merged(hook, p) + [r]
  {
    hide Joins, Join;
    assert rs[|rs| - 2].sector <= rs[|rs| - 1].sector;
  }

  lemma SameLast(ws: seq<Write>, us: seq<Write>, w: Write, u: Write)
    ensures SameShape(ws + [w], us + [u]) && |ws| == |us| ==> SameShape(ws, us) && SameWrite(w, u)
    ensures SameShape(ws, us) && SameWrite(w, u) ==> SameShape(ws + [w], us + [u])
  {
    hide SameWrite;
    if SameShape(ws + [w], us + [u]) && |ws| == |us| {
      assert (ws + [w])[|ws|] == w && (us + [u])[|us|] == u;
      forall i | 0 <= i < |ws| ensures SameWrite(ws[i], us[i]) {
        assert (ws + [w])[i] == ws[i] && (us + [u])[i] == us[i];
      }
    }
  }

  /** Which requests are folded together does not depend on the data. */
  lemma {:induction false} SameMerged(hook: Hook, rs: seq<Write>, us: seq<Write>)
    requires rs != [] && Sorted(rs) && SameShape(rs, us)
    ensures Sorted(us) && SameShape(Merged(hook, rs), Merged(hook, us))
    decreases |rs|
  {
    hide Join, Merged, SameSegs, Sorted;
    SameSorted(rs, us);
    if |rs| == 1 {
      MergedOne(hook, rs);
      MergedOne(hook, us);
    } else {
      SameStep(hook, rs, us);
    }
  }

  lemma {:induction false} SameStep(hook: Hook, rs: seq<Write>, us: seq<Write>)
    requires |rs| > 1 && Sorted(rs) && SameShape(rs, us) && Sorted(us)
    ensures SameShape(Merged(hook, rs), Merged(hook, us))
    decreases |rs|, 0
  {
    hide Join, Merged, SameShape, Out, Cur;
    SameLength(rs, us);
    var p, q, r, u := rs[..|rs| - 1], us[..|us| - 1], rs[|rs| - 1], us[|us| - 1];
    assert rs == p + [r] && us == q + [u];
    SameLast(p, q, r, u);
    SameMerged(hook, p, q);
    MergedSnoc(hook, rs);
    MergedSnoc(hook, us);
    SameLength(Merged(hook, p), Merged(hook, q));
    SameLast(Out(hook, p), Out(hook, q), Cur(hook, p), Cur(hook, q));
    SameLast(Merged(hook, p), Merged(hook, q), r, u);
    SameJoin(Cur(hook, p), r, Cur(hook, q), u);
    SameLast(Out(hook, p), Out(hook, q), Join(Cur(hook, p), r), Join(Cur(hook, q), u));
  }

  lemma SameLength(ws: seq<Write>, us: seq<Write>)
    requires SameShape(ws, us)
    ensures |ws| == |us|
  {
  }

  lemma SameDecisions(hook: Hook, rs: seq<Write>, us: seq<Write>, k: int, a: int)
    requires Sorted(rs) && SameShape(rs, us) && Sorted(us)
    ensures GapAt(hook, rs, k, a) <==> GapAt(hook, us, k, a)
    ensures DroppedAt(hook, rs, k, a) <==> DroppedAt(hook, us, k, a)
  {
    hide Merged;
    if 0 < k < |rs| {
      SameMerged(hook, rs[..k], us[..k]);
    }
  }

  /** The same request with every byte c. */
  ghost function Paint(w: Write, c: Byte): Write {
    Write(w.sector, w.nb, seq(|w.qiov|, i requires 0 <= i < |w.qiov| => seq(|w.qiov[i]|, _ => c)))
  }

  ghost predicate OnlyByte(w: Write, c: Byte) {
    forall k :: 0 <= k < |Flat(w.qiov)| ==> Flat(w.qiov)[k] == c
  }

  lemma {:induction false} FlatOnly(v: Segments, c: Byte)
    requires forall i, k :: 0 <= i < |v| && 0 <= k < |v[i]| ==> v[i][k] == c
    ensures forall k :: 0 <= k < |Flat(v)| ==> Flat(v)[k] == c
  {
    if v != [] {
      FlatOnly(v[1..], c);
    }
  }

  lemma PaintIs(w: Write, c: Byte)
    ensures SameWrite(w, Paint(w, c)) && OnlyByte(Paint(w, c), c)
  {
    FlatOnly(Paint(w, c).qiov, c);
  }

  /** The batch with ones in request i and zeros everywhere else. */
  ghost function Marked(rs: seq<Write>, i: int): seq<Write> {
    seq(|rs|, k requires 0 <= k < |rs| => Paint(rs[k], if k == i then 1 else 0))
  }

  lemma SameValid(rs: seq<Write>, us: seq<Write>)
    requires AllValid(rs) && SameShape(rs, us)
    ensures AllValid(us)
  {
    forall i | 0 <= i < |us| ensures us[i].Valid() {
      assert rs[i].Valid() && SameWrite(rs[i], us[i]);
      SameFlat(rs[i].qiov, us[i].qiov);
    }
  }

  ghost predicate Blank(ws: seq<Write>) {
    forall i :: 0 <= i < |ws| ==> OnlyByte(ws[i], 0)
  }

  lemma BlankJoin(cur: Write, r: Write)
    requires cur.Valid() && r.Valid() && cur.sector <= r.sector && OnlyByte(cur, 0) && OnlyByte(r, 0)
    ensures OnlyByte(Join(cur, r), 0)
  {
    hide Flat, CopySegs;
    JoinFlat(cur, r);
    if r.sector > cur.sector + cur.nb {
      FlatOne(Zeros(SECTOR * (r.sector - (cur.sector + cur.nb))));
    } else {
      FlatNil();
    }
  }

  lemma {:induction false} BlankMerged(hook: Hook, rs: seq<Write>)
    requires rs != [] && Sorted(rs) && AllValid(rs) && Blank(rs)
    ensures Blank(Merged(hook, rs))
  {
    hide Merged, Join, Joins, OnlyByte;
    if |rs| == 1 {
      MergedOne(hook, rs);
    } else {
      var p := rs[..|rs| - 1];
      MergedSnoc(hook, rs);
      BlankMerged(hook, p);
      RunningEnd(hook, p);
      var m := Merged(hook, p);
      assert Cur(hook, p) == m[|m| - 1];
      BlankJoin(Cur(hook, p), rs[|rs| - 1]);
    }
  }

  lemma {:induction false} BlankAt(d: Disk, ws: seq<Write>, a: int)
    requires AllValid(ws) && Blank(ws) && d(a) == 0
    ensures Perform(d, ws)(a) == 0
  {
    if ws != [] {
      BlankAt(d, ws[..|ws| - 1], a);
    }
  }

  /** The byte at a comes from the last request that covers it. */
  lemma {:induction false} LastWriter(d: Disk, rs: seq<Write>, j: nat, a: int)
    requires AllValid(rs) && j < |rs| && rs[j].Covers(a) && !WrittenAfter(rs, j, a)
    ensures Perform(d, rs)(a) == rs[j].ByteAt(a)
  {
    if j < |rs| - 1 {
      var p := rs[..|rs| - 1];
      assert !WrittenAfter(p, j, a) by {
        assert forall k :: 0 <= k < |p| ==> p[k] == rs[k];
      }
      LastWriter(d, p, j, a);
    }
  }

  lemma OutBlank(hook: Hook, p: seq<Write>, d: Disk, a: int)
    requires p != [] && Sorted(p) && AllValid(p) && d(a) == 0
    requires Blank(p[..|p| - 1])
    ensures AllValid(Out(hook, p)) && Perform(d, Out(hook, p))(a) == 0
  {
    hide Merged, Join, Joins, OnlyByte;
    RunningEnd(hook, p);
    if |p| == 1 {
      MergedOne(hook, p);
    } else {
      MergedSnoc(hook, p);
      BlankMerged(hook, p[..|p| - 1]);
      var m := Merged(hook, p);
      assert Blank(Out(hook, p));
      BlankAt(d, Out(hook, p), a);
    }
  }

  /** A byte cut off and never written again keeps what the disk held before the request it was cut from. */
  lemma {:induction false} LostByte(hook: Hook, rs: seq<Write>, d: Disk, i: int, a: int)
    requires Sorted(rs) && AllValid(rs) && DroppedAt(hook, rs, i, a) && !WrittenAfter(rs, i, a) && d(a) == 0
    requires forall k :: 0 <= k < |rs| && k != i - 1 ==> OnlyByte(rs[k], 0)
    ensures AllValid(Merged(hook, rs)) && AllValid(Out(hook, rs))
    ensures Perform(d, Merged(hook, rs))(a) == 0 && Perform(d, Out(hook, rs))(a) == 0
    decreases |rs|
  {
    hide Merged, Joins, Join, OnlyByte, Perform, Flat;
    var p, r := rs[..|rs| - 1], rs[|rs| - 1];
    assert rs == p + [r];
    StepAt(hook, p, r, d, a);
    ValidPrefix(p, r);
    if i < |p| {
      PrefixDecisions(hook, p, r, i, a);
      assert !WrittenAfter(p, i, a) by {
        assert forall k :: 0 <= k < |p| ==> p[k] == rs[k];
      }
      LostByte(hook, p, d, i, a);
      assert !r.Covers(a) by {
        assert rs[|p|] == r;
      }
    } else {
      assert rs[..i] == p;
      assert Blank(p[..|p| - 1]);
      OutBlank(hook, p, d, a);
    }
  }

  /** The merged list leaves at a what the sorted requests, performed one by one, would; a gap is zero. */
  ghost predicate MergesRight(hook: Hook, rs: seq<Write>, d: Disk, a: int) {
    && rs != [] && Sorted(rs) && AllValid(rs) && AllValid(Merged(hook, rs))
    && Perform(d, Merged(hook, rs))(a) == if Gap(hook, rs, a) then 0 else Perform(d, rs)(a)
  }

  lemma NothingLostIsEnough(hook: Hook, rs: seq<Write>, d: Disk, a: int)
    requires rs != [] && Sorted(rs) && AllValid(rs) && NothingLost(hook, rs)
    ensures MergesRight(hook, rs, d, a)
  {
    hide Merged, MergesAt, Perform, GapAt, DroppedAt, WrittenAfter;
    RunningEnd(hook, rs);
    if Gap(hook, rs, a) {
      var k :| GapAt(hook, rs, k, a);
      GapIsZero(hook, rs, d, k, a);
    } else {
      MergedAt(hook, rs, d, a);
    }
  }

  lemma SameNothingLost(hook: Hook, rs: seq<Write>, us: seq<Write>)
    requires Sorted(rs) && SameShape(rs, us) && Sorted(us) && NothingLost(hook, rs)
    ensures NothingLost(hook, us)
  {
    hide Merged, MergesAt, GapAt, DroppedAt;
    forall i, a | DroppedAt(hook, us, i, a) ensures WrittenAfter(us, i, a) || Gap(hook, us, a) {
      SameDecisions(hook, rs, us, i, a);
      if WrittenAfter(rs, i, a) {
        var j :| 0 <= i < j < |rs| && rs[j].Covers(a);
        assert SameWrite(rs[j], us[j]) && us[j].Covers(a);
      } else {
        var k :| GapAt(hook, rs, k, a);
        SameDecisions(hook, rs, us, k, a);
      }
    }
  }

  /** When something is lost there are data for the very same batch that show it. */
  lemma LossShows(hook: Hook, rs: seq<Write>, i: int, a: int)
    requires rs != [] && Sorted(rs) && AllValid(rs) && DroppedAt(hook, rs, i, a) && !WrittenAfter(rs, i, a)
    requires !Gap(hook, rs, a)
    ensures SameShape(rs, Marked(rs, i - 1)) && !MergesRight(hook, Marked(rs, i - 1), (_: int) => 0, a)
  {
    hide Merged, MergesAt, Perform, Flat;
    var us, d: Disk := Marked(rs, i - 1), (_: int) => 0;
    forall k | 0 <= k < |rs| ensures SameWrite(rs[k], us[k]) && OnlyByte(us[k], if k == i - 1 then 1 else 0) {
      PaintIs(rs[k], if k == i - 1 then 1 else 0);
    }
    SameSorted(rs, us);
    SameValid(rs, us);
    SameDecisions(hook, rs, us, i, a);
    SameGap(hook, rs, us, a);
    SameCover(rs, us, i, a);
    LostByte(hook, us, d, i, a);
    assert us[i - 1].sector <= us[i].sector;
    assert us[i - 1].Covers(a) && !WrittenAfter(us, i - 1, a);
    LastWriter(d, us, i - 1, a);
  }

  lemma SameGap(hook: Hook, rs: seq<Write>, us: seq<Write>, a: int)
    requires Sorted(rs) && SameShape(rs, us) && Sorted(us)
    ensures Gap(hook, rs, a) <==> Gap(hook, us, a)
  {
    hide Merged, MergesAt, GapAt, DroppedAt;
    forall k ensures GapAt(hook, rs, k, a) <==> GapAt(hook, us, k, a) {
      SameDecisions(hook, rs, us, k, a);
    }
  }

  lemma SameCover(rs: seq<Write>, us: seq<Write>, i: int, a: int)
    requires SameShape(rs, us)
    ensures WrittenAfter(rs, i, a) <==> WrittenAfter(us, i, a)
  {
    hide SameSegs;
    assert forall j :: 0 <= j < |rs| ==> SameWrite(rs[j], us[j]) && (rs[j].Covers(a) <==> us[j].Covers(a));
  }

  /** Merging is right for every disk and every data of a batch's shape exactly when nothing is cut off for good. */
  lemma MergeExact(hook: Hook, rs: seq<Write>)
    requires rs != [] && Sorted(rs) && AllValid(rs)
    ensures NothingLost(hook, rs) <==> forall us, d: Disk, a :: SameShape(rs, us) ==> MergesRight(hook, us, d, a)
  {
    hide Merged, MergesAt, Perform, GapAt, DroppedAt, WrittenAfter, Gap, MergesRight, SameShape, Marked;
    if NothingLost(hook, rs) {
      forall us, d: Disk, a | SameShape(rs, us) ensures MergesRight(hook, us, d, a) {
        SameSorted(rs, us);
        SameValid(rs, us);
        SameLength(rs, us);
        SameNothingLost(hook, rs, us);
        NothingLostIsEnough(hook, us, d, a);
      }
    } else {
      var i, a :| DroppedAt(hook, rs, i, a) && !WrittenAfter(rs, i, a) && !Gap(hook, rs, a);
      LossShows(hook, rs, i, a);
    }
  }

  // ---- Two families of batches ----

  /** A request folded into one that reaches further cuts the rest of it off: those bytes are never written. */
  lemma ContainedTailIsLost(hook: Hook, w: Write, r: Write, d: Disk, a: int)
    requires w.Valid() && r.Valid() && w.sector <= r.sector && r.End() <= a < w.End() && Joins(hook, w, r)
    ensures var rs := [w, r];
            && AllValid(Merged(hook, rs)) && Perform(d, Merged(hook, rs))(a) == d(a)
            && Perform(d, rs)(a) == w.ByteAt(a)
  {
    hide Joins, Join;
    var p := [w];
    assert p + [r] == [w, r];
    MergedOne(hook, p);
    StepAt(hook, p, r, d, a);
    assert AllValid(p);
    PerformSnoc(d, p, r, a);
    PerformSnoc(d, [], w, a);
    assert [] + [w] == p;
  }

  ghost predicate Disjoint(ws: seq<Write>) {
    forall i, j, a :: 0 <= i < |ws| && 0 <= j < |ws| && i != j ==> !(ws[i].Covers(a) && ws[j].Covers(a))
  }

  /** In a batch of non-empty requests that do not overlap, nothing is cut off, whatever the driver joins. */
  lemma DisjointLosesNothing(hook: Hook, orig: seq<Write>, rs: seq<Write>)
    requires Disjoint(orig) && multiset(orig) == multiset(rs) && Sorted(rs)
    requires forall i :: 0 <= i < |orig| ==> orig[i].nb > 0
    ensures NothingLost(hook, rs)
  {
    hide Merged, MergesAt;
    forall i, a ensures !DroppedAt(hook, rs, i, a) {
      if 0 < i < |rs| {
        DisjointNeighbours(orig, rs, i);
      }
    }
  }

  lemma DisjointNeighbours(orig: seq<Write>, rs: seq<Write>, i: nat)
    requires Disjoint(orig) && multiset(orig) == multiset(rs) && Sorted(rs) && 0 < i < |rs|
    requires forall i :: 0 <= i < |orig| ==> orig[i].nb > 0
    ensures rs[i - 1].End() <= rs[i].End()
  {
    assert rs[i - 1] in multiset(rs) && rs[i] in multiset(rs);
    var x :| 0 <= x < |orig| && orig[x] == rs[i - 1];
    var y :| 0 <= y < |orig| && orig[y] == rs[i];
    assert rs[i - 1].sector <= rs[i].sector;
    var a := rs[i].Start();
    assert orig[y].Covers(a);
    assert x != y ==> !orig[x].Covers(a);
  }

  lemma LastCovering(ws: seq<Write>, a: int) returns (j: int)
    ensures -1 <= j < |ws| && (j >= 0 ==> ws[j].Covers(a))
    ensures forall k :: j < k < |ws| ==> !ws[k].Covers(a)
  {
    j := |ws| - 1;
    while j >= 0 && !ws[j].Covers(a)
      invariant -1 <= j < |ws|
      invariant forall k :: j < k < |ws| ==> !ws[k].Covers(a)
    {
      j := j - 1;
    }
  }

  lemma {:induction false} NoneCovers(d: Disk, ws: seq<Write>, a: int)
    requires AllValid(ws) && forall k :: 0 <= k < |ws| ==> !ws[k].Covers(a)
    ensures Perform(d, ws)(a) == d(a)
  {
    if ws != [] {
      NoneCovers(d, ws[..|ws| - 1], a);
    }
  }

  lemma DisjointOrder(d: Disk, orig: seq<Write>, rs: seq<Write>, a: int)
    requires AllValid(orig) && Disjoint(orig) && multiset(orig) == multiset(rs)
    ensures AllValid(rs) && Perform(d, orig)(a) == Perform(d, rs)(a)
  {
    hide Perform, Flat;
    assert AllValid(rs) by {
      forall i | 0 <= i < |rs| ensures rs[i].Valid() {
        assert rs[i] in multiset(orig);
      }
    }
    var i := LastCovering(orig, a);
    var j := LastCovering(rs, a);
    if i >= 0 {
      LastWriter(d, orig, i, a);
      assert orig[i] in multiset(rs);
      assert j >= 0;
    } else {
      NoneCovers(d, orig, a);
    }
    if j >= 0 {
      assert rs[j] in multiset(orig);
      assert i >= 0 && rs[j] == orig[i];
      LastWriter(d, rs, j, a);
    } else {
      NoneCovers(d, rs, a);
    }
  }

  /** Sorting and merging a batch of disjoint writes leaves the disk the caller's own order would, gaps zeroed. */
  lemma DisjointBatch(hook: Hook, orig: seq<Write>, rs: seq<Write>, d: Disk, a: int)
    requires orig != [] && AllValid(orig) && Disjoint(orig) && multiset(orig) == multiset(rs) && Sorted(rs)
    requires forall i :: 0 <= i < |orig| ==> orig[i].nb > 0
    ensures rs != [] && AllValid(rs) && AllValid(Merged(hook, rs))
    ensures Perform(d, Merged(hook, rs))(a) == if Gap(hook, rs, a) then 0 else Perform(d, orig)(a)
  {
    hide Merged, Perform, Disjoint, Sorted, Gap, NothingLost;
    assert orig[0] in multiset(rs);
    DisjointOrder(d, orig, rs, a);
    DisjointLosesNothing(hook, orig, rs);
    NothingLostIsEnough(hook, rs, d, a);
  }

  // ---- multiwrite_merge ----

  /** A BlockRequest: what to write, the caller's cookie and the error reported to the caller. */
  datatype BlockRequest = BlockRequest(write: Write, cookie: int, error: int)

  function Writes(reqs: seq<BlockRequest>): (ws: seq<Write>)
    ensures |ws| == |reqs| && forall i :: 0 <= i < |ws| ==> ws[i] == reqs[i].write
  {
    seq(|reqs|, i requires 0 <= i < |reqs| => reqs[i].write)
  }

  /** Same cookies and errors, place by place. */
  ghost predicate SameOwners(a: seq<BlockRequest>, b: seq<BlockRequest>) {
    |a| == |b| && forall i :: 0 <= i < |a| ==> a[i].cookie == b[i].cookie && a[i].error == b[i].error
  }

  /** The merging step on vectors: build the joined vector. */
  method JoinVectors(cur: Write, r: Write) returns (w: Write)
    requires cur.sector <= r.sector && cur.Valid() && r.Valid()
    ensures w == Join(cur, r)
  {
    hide CopySegs, Flat;
    var oldLast := cur.sector + cur.nb;
    var qiov := new IoVector(|cur.qiov| + |r.qiov| + 1);
    qiov.Concat(cur.qiov, SECTOR * (r.sector - cur.sector));
    if r.sector > oldLast {
      qiov.Add(Zeros(SECTOR * (r.sector - oldLast)));
    }
    var size := FlatSize(r.qiov);
    qiov.Concat(r.qiov, size);
    assert qiov.iov == JoinSegs(cur, r);
    w := Write(cur.sector, qiov.size / SECTOR, qiov.iov);
  }

  /** The size field of a vector: the sum of its range lengths. */
  method FlatSize(v: Segments) returns (n: nat)
    ensures n == |Flat(v)|
  {
    n := 0;
    assert v[0..] == v;
    for i := 0 to |v|
      invariant n + |Flat(v[i..])| == |Flat(v)|
    {
      assert v[i..][0] == v[i] && v[i..][1..] == v[i + 1..];
      n := n + |v[i]|;
    }
  }

  /** qsort of the first |order| requests; which of the sorted orders it picks is up to the library. */
  method SortRequests(reqs: array<BlockRequest>, order: seq<BlockRequest>)
    requires |order| <= reqs.Length && Permutes(order, reqs[..|order|])
    modifies reqs
    ensures reqs[..] == order + old(reqs[|order|..])
  {
    hide Permutes;
    for i := 0 to |order|
      invariant forall k :: 0 <= k < i ==> reqs[k] == order[k]
      invariant forall k :: i <= k < reqs.Length ==> reqs[k] == old(reqs[k])
    {
      reqs[i] := order[i];
    }
  }

  ghost predicate Permutes(a: seq<BlockRequest>, b: seq<BlockRequest>) {
    multiset(a) == multiset(b)
  }

  /** Where the merging loop stands before request i: what is in the array, tail included. */
  ghost predicate Progress(hook: Hook, order: seq<BlockRequest>, tail: seq<BlockRequest>, now: seq<BlockRequest>,
                           outidx: int, i: int) {
    var ws := Writes(order);
    && 0 <= outidx < i <= |order| && |now| == |order| + |tail| && Sorted(ws) && AllValid(ws) && Sorted(ws[..i])
    && Writes(now[..outidx + 1]) == Merged(hook, ws[..i])
    && (forall k :: i <= k < |now| ==> now[k] == (order + tail)[k])
    && SameOwners(now[..|order|], order)
  }

  lemma ProgressBegins(hook: Hook, order: seq<BlockRequest>, tail: seq<BlockRequest>)
    requires order != [] && Sorted(Writes(order)) && AllValid(Writes(order))
    ensures Progress(hook, order, tail, order + tail, 0, 1)
  {
    hide AllValid;
    var ws, now := Writes(order), order + tail;
    SortedPrefix(ws, 1);
    MergedOne(hook, ws[..1]);
    assert Writes(now[..1]) == ws[..1];
    assert now[..|order|] == order;
  }

  ghost function Rewritten(now: seq<BlockRequest>, k: nat, w: Write): seq<BlockRequest>
    requires k < |now|
  {
    now[k := now[k].(write := w)]
  }

  lemma ProgressStep(hook: Hook, order: seq<BlockRequest>, tail: seq<BlockRequest>, now: seq<BlockRequest>, outidx: int,
                     i: int)
    requires Progress(hook, order, tail, now, outidx, i) && i < |order|
    ensures var cur, r := now[outidx].write, now[i].write;
            && cur.sector <= r.sector && cur.Valid() && r.Valid()
            && (Joins(hook, cur, r) ==>
                  Progress(hook, order, tail, Rewritten(now, outidx, Join(cur, r)), outidx, i + 1))
            && (!Joins(hook, cur, r) ==> Progress(hook, order, tail, Rewritten(now, outidx + 1, r), outidx + 1, i + 1))
  {
    hide Joins, Join, Merged, Sorted, AllValid, Flat;
    var ws := Writes(order);
    SortedPrefix(ws, i + 1);
    MergeInvariant(hook, ws, i, now[..outidx + 1]);
    var cur, r := now[outidx].write, now[i].write;
    assert r == ws[i];
    if Joins(hook, cur, r) {
      var next := Rewritten(now, outidx, Join(cur, r));
      assert Writes(next[..outidx + 1]) == Writes(now[..outidx + 1])[..outidx] + [Join(cur, r)];
    } else {
      var next := Rewritten(now, outidx + 1, r);
      assert Writes(next[..outidx + 2]) == Writes(now[..outidx + 1]) + [r];
    }
  }

  lemma ProgressDone(hook: Hook, order: seq<BlockRequest>, tail: seq<BlockRequest>, now: seq<BlockRequest>, outidx: int)
    requires Progress(hook, order, tail, now, outidx, |order|)
    ensures Sorted(Writes(order)) && order != []
    ensures Writes(now[..outidx + 1]) == Merged(hook, Writes(order)) && SameOwners(now[..|order|], order)
    ensures now[|order|..] == tail
  {
    hide Merged, Sorted, AllValid;
    assert Writes(order)[..|order|] == Writes(order);
  }

  /** multiwrite_merge. */
  method MergeRequests(hook: Hook, reqs: array<BlockRequest>, num: nat, order: seq<BlockRequest>) returns (n: nat)
    requires 0 < num == |order| <= reqs.Length && Permutes(order, reqs[..num])
    requires Sorted(Writes(order)) && AllValid(Writes(order))
    modifies reqs
    ensures 0 < n <= num
    ensures Writes(reqs[..n]) == Merged(hook, Writes(order))
    ensures SameOwners(reqs[..num], order)
    ensures reqs[num..] == old(reqs[num..])
  {
    hide Progress, Merged, Joins, Join, Sorted, AllValid, Flat, Permutes, SameOwners, Writes;
    ghost var tail := reqs[num..];
    SortRequests(reqs, order);
    var outidx, i := 0, 1;
    ProgressBegins(hook, order, tail);
    while i < num
      invariant 0 <= outidx < i <= num
      invariant Progress(hook, order, tail, reqs[..], outidx, i)
    {
      ghost var now := reqs[..];
      ProgressStep(hook, order, tail, now, outidx, i);
      var cur, r := reqs[outidx].write, reqs[i].write;
      var merge := r.sector <= cur.sector + cur.nb;
      if !merge {
        merge := hook(cur.sector, cur.nb, r.sector, r.nb);
      }
      if |cur.qiov| + |r.qiov| + 1 > IOV_MAX {
        merge := false;
      }
      JoinsIs(hook, cur, r);
      if merge {
        var w := JoinVectors(cur, r);
        reqs[outidx] := reqs[outidx].(write := w);
        assert reqs[..] == Rewritten(now, outidx, w);
      } else {
        outidx := outidx + 1;
        reqs[outidx] := reqs[outidx].(write := r);
        assert reqs[..] == Rewritten(now, outidx, r);
      }
      i := i + 1;
    }
    ProgressDone(hook, order, tail, reqs[..], outidx);
    n := outidx + 1;
    assert reqs[..][..n] == reqs[..n] && reqs[..][..num] == reqs[..num] && reqs[..][num..] == reqs[num..];
  }

  lemma JoinsIs(hook: Hook, cur: Write, r: Write)
    ensures Joins(hook, cur, r) <==>
            && (r.sector <= cur.sector + cur.nb || hook(cur.sector, cur.nb, r.sector, r.nb))
            && |cur.qiov| + |r.qiov| + 1 <= IOV_MAX
  {
  }

  lemma SortedPrefix(ws: seq<Write>, n: nat)
    requires n <= |ws|
    ensures Sorted(ws) ==> Sorted(ws[..n])
    ensures AllValid(ws) ==> AllValid(ws[..n])
  {
  }

  lemma MergeInvariant(hook: Hook, ws: seq<Write>, i: nat, done: seq<BlockRequest>)
    requires 0 < i < |ws| && Sorted(ws[..i]) && Sorted(ws[..i + 1]) && AllValid(ws) && done != []
    requires Writes(done) == Merged(hook, ws[..i])
    ensures var cur, r := done[|done| - 1].write, ws[i];
            && cur.sector <= r.sector && cur.Valid() && r.Valid()
            && Merged(hook, ws[..i + 1]) == if Joins(hook, cur, r) then Writes(done)[..|done| - 1] + [Join(cur, r)]
                                            else Writes(done) + [r]
  {
    hide Merged, Joins, Join, Flat;
    var q := ws[..i + 1];
    assert q[..i] == ws[..i] && q[i] == ws[i];
    MergedSnoc(hook, q);
    RunningEnd(hook, ws[..i]);
    assert Cur(hook, ws[..i]) == Writes(done)[|done| - 1];
  }
}
