/** Committing an overlay into its backing image (block.c, bdrv_commit). */
module Commit {
  import opened Common
  import opened Wire

  const COMMIT_BUF_SECTORS := 2048

  type Sector = seq<Byte>

  function Blank(): Sector {
    seq(512, _ => 0)
  }

  /** Sector i of an image; past its end it reads as zeros. */
  function SectorAt(image: seq<Sector>, i: nat): Sector {
    if i < |image| then image[i] else Blank()
  }

  /** Sector i as the guest sees it: from the overlay where it is allocated, else from the backing image. */
  function SeenAt(over: map<nat, Sector>, backing: seq<Sector>, i: nat): Sector {
    if i in over then over[i] else SectorAt(backing, i)
  }

  /** The n sectors from s on, as far as the overlay of `total` sectors reaches, are all allocated, or all not. */
  ghost predicate Uniform(over: map<nat, Sector>, total: nat, s: nat, n: nat) {
    forall i :: s <= i < s + n && i < total ==> (i in over <==> s in over)
  }

  /** The disk behind both pairs looks the same. */
  ghost predicate SameView(over: map<nat, Sector>, backing: seq<Sector>,
                           over': map<nat, Sector>, backing': seq<Sector>)
  {
    forall i: nat :: SeenAt(over', backing', i) == SeenAt(over, backing, i)
  }

  /** The backing image alone shows what the guest sees, for the first n sectors. */
  ghost predicate Committed(over: map<nat, Sector>, backing: seq<Sector>, n: nat) {
    forall i :: 0 <= i < n ==> SectorAt(backing, i) == SeenAt(over, backing, i)
  }

  function Overwrite(image: seq<Sector>, s: nat, data: seq<Sector>): (r: seq<Sector>)
    requires s + |data| <= |image|
    ensures |r| == |image|
    ensures forall i :: 0 <= i < |image| ==> r[i] == if s <= i < s + |data| then data[i - s] else image[i]
  {
    image[..s] + data + image[s + |data|..]
  }

  /** Nothing but allocated sectors of the backing image has changed. */
  ghost predicate OnlyAllocated(over: map<nat, Sector>, backing: seq<Sector>, backing': seq<Sector>) {
    |backing'| == |backing| && forall i :: 0 <= i < |backing| && i !in over ==> backing'[i] == backing[i]
  }

  lemma OnlyAllocatedTrans(over: map<nat, Sector>, a: seq<Sector>, b: seq<Sector>, c: seq<Sector>)
    requires OnlyAllocated(over, a, b) && OnlyAllocated(over, b, c)
    ensures OnlyAllocated(over, a, c)
  {
  }

  /** Writing overlay data over the sectors it belongs to changes nothing the guest sees, whole or in part. */
  lemma CopyKeepsView(over: map<nat, Sector>, backing: seq<Sector>, s: nat, data: seq<Sector>)
    requires s + |data| <= |backing| && forall i :: s <= i < s + |data| ==> i in over
    ensures SameView(over, backing, over, Overwrite(backing, s, data))
    ensures OnlyAllocated(over, backing, Overwrite(backing, s, data))
  {
  }

  lemma CopyCommits(over: map<nat, Sector>, backing: seq<Sector>, s: nat, data: seq<Sector>)
    requires s + |data| <= |backing| && Committed(over, backing, s)
    requires forall i :: s <= i < s + |data| ==> i in over && data[i - s] == over[i]
    ensures Committed(over, Overwrite(backing, s, data), s + |data|)
  {
    var after := Overwrite(backing, s, data);
    forall i | 0 <= i < s + |data| ensures SectorAt(after, i) == SeenAt(over, after, i) {
      if i < s {
        assert SectorAt(backing, i) == SeenAt(over, backing, i);
      }
    }
  }

  lemma SkipCommits(over: map<nat, Sector>, backing: seq<Sector>, total: nat, s: nat, n: nat)
    requires Committed(over, backing, s) && Uniform(over, total, s, n) && s !in over
    requires forall i :: i in over ==> i < total
    ensures Committed(over, backing, s + n)
  {
  }

  /** Once everything is committed, any part of the overlay can be dropped. */
  lemma DropKeepsView(over: map<nat, Sector>, backing: seq<Sector>, over': map<nat, Sector>, total: nat)
    requires Committed(over, backing, total) && (forall i :: i in over ==> i < total)
    requires forall i :: i in over' ==> i in over && over'[i] == over[i]
    ensures SameView(over, backing, over', backing)
  {
    forall i: nat ensures SeenAt(over', backing, i) == SeenAt(over, backing, i) {
      if i in over {
        assert SectorAt(backing, i) == SeenAt(over, backing, i);
      }
    }
  }

  lemma SameViewTrans(o1: map<nat, Sector>, b1: seq<Sector>, o2: map<nat, Sector>, b2: seq<Sector>,
                      o3: map<nat, Sector>, b3: seq<Sector>)
    requires SameView(o1, b1, o2, b2) && SameView(o2, b2, o3, b3)
    ensures SameView(o1, b1, o3, b3)
  {
    forall i: nat ensures SeenAt(o3, b3, i) == SeenAt(o1, b1, i) {
      assert SeenAt(o2, b2, i) == SeenAt(o1, b1, i);
    }
  }

  /** What the drivers answer at a sector: how long the run of equal allocation is, whether reading it fails, and
      whether writing it fails, after `written` sectors. */
  datatype Answer = Answer(n: nat, readFails: bool, writeFails: bool, written: nat)

  /** An overlay of `total` sectors over a backing image. */
  class Chain {
    var over: map<nat, Sector>
    var backing: seq<Sector>
    const total: nat

    ghost predicate Valid()
      reads this
    {
      forall i :: i in over ==> i < total
    }

    constructor (over: map<nat, Sector>, backing: seq<Sector>, total: nat)
      requires forall i :: i in over ==> i < total
      ensures Valid() && this.over == over && this.backing == backing && this.total == total
    {
      this.over, this.backing, this.total := over, backing, total;
    }

    /** bdrv_read of the overlay. */
    method Read(s: nat, n: nat, fails: bool) returns (ret: int, buf: seq<Sector>)
      ensures ret == 0 <==> s + n <= total && !fails
      ensures ret == 0 ==> |buf| == n && forall i :: 0 <= i < n ==> buf[i] == SeenAt(over, backing, s + i)
    {
      if s + n > total || fails {
        return -EIO, [];
      }
      var o, b := over, backing;
      return 0, seq(n, i requires 0 <= i < n => SeenAt(o, b, s + i));
    }

    /** bdrv_write of the backing image; a failing write may have transferred some sectors. */
    method WriteBacking(s: nat, buf: seq<Sector>, fails: bool, written: nat) returns (ret: int)
      modifies this`backing
      ensures ret == 0 <==> s + |buf| <= |old(backing)| && !fails
      ensures |backing| == old(|backing|)
      ensures s + |buf| > |old(backing)| ==> backing == old(backing)
      ensures s + |buf| <= |old(backing)| ==>
                backing == Overwrite(old(backing), s, buf[..if fails && written < |buf| then written else |buf|])
    {
      if s + |buf| > |backing| {
        return -EIO;
      }
      var k := if fails && written < |buf| then written else |buf|;
      backing := Overwrite(backing, s, buf[..k]);
      assert buf[..|buf|] == buf;
      return if fails then -EIO else 0;
    }

    /** One run of allocated sectors. */
    method CopyRun(s: nat, a: Answer) returns (ret: int)
      requires Valid() && 0 < a.n && s < total && s in over && Uniform(over, total, s, a.n)
      requires Committed(over, backing, s)
      modifies this`backing
      ensures SameView(over, old(backing), over, backing) && OnlyAllocated(over, old(backing), backing)
      ensures ret == 0 ==> Committed(over, backing, s + a.n)
      ensures ret == if s + a.n <= total && !a.readFails && s + a.n <= |backing| && !a.writeFails then 0 else -EIO
    {
      hide SeenAt, Overwrite, SameView, Committed, OnlyAllocated;
      SameViewRefl(over, backing);
      var r, buf := Read(s, a.n, a.readFails);
      if r != 0 {
        return -EIO;
      }
      forall i | s <= i < s + a.n ensures i in over && buf[i - s] == over[i] {
        Allocated(over, backing, total, s, a.n, i - s);
        assert buf[i - s] == SeenAt(over, backing, s + (i - s));
      }
      ghost var was := backing;
      r := WriteBacking(s, buf, a.writeFails, a.written);
      if s + |buf| <= |was| {
        var k := if a.writeFails && a.written < |buf| then a.written else |buf|;
        CopyKeepsView(over, was, s, buf[..k]);
        CopyCommits(over, was, s, buf[..k]);
      }
      ret := if r != 0 then -EIO else 0;
    }

    static lemma Allocated(over: map<nat, Sector>, backing: seq<Sector>, total: nat, s: nat, n: nat, i: nat)
      requires s in over && Uniform(over, total, s, n) && i < n && s + n <= total
      ensures s + i in over && SeenAt(over, backing, s + i) == over[s + i]
    {
    }

    static lemma SameViewRefl(over: map<nat, Sector>, backing: seq<Sector>)
      ensures SameView(over, backing, over, backing) && Committed(over, backing, 0)
      ensures OnlyAllocated(over, backing, backing)
    {
    }

    /** The copying loop: whatever happens the guest's view stays, and at the end the backing image has all of it. */
    method CopyAll(answers: nat -> Answer) returns (ret: int)
      requires Valid()
      requires forall s :: 0 <= s < total ==>
               0 < answers(s).n <= COMMIT_BUF_SECTORS && Uniform(over, total, s, answers(s).n)
      modifies this`backing
      ensures SameView(over, old(backing), over, backing) && OnlyAllocated(over, old(backing), backing)
      ensures ret == 0 ==> Committed(over, backing, total)
      ensures ret == 0 || ret == -EIO
      ensures Smooth(answers) && total <= old(|backing|) ==> ret == 0
    {
      hide SameView, Committed, Uniform, OnlyAllocated;
      var s := 0;
      SameViewRefl(over, backing);
      while s < total
        invariant SameView(over, old(backing), over, backing) && Committed(over, backing, s)
        invariant OnlyAllocated(over, old(backing), backing)
        decreases total - s
      {
        var a := answers(s);
        if s in over {
          ghost var was := backing;
          var r := CopyRun(s, a);
          SameViewTrans(over, old(backing), over, was, over, backing);
          OnlyAllocatedTrans(over, old(backing), was, backing);
          if r != 0 {
            return -EIO;
          }
        } else {
          SkipCommits(over, backing, total, s, a.n);
        }
        s := s + a.n;
      }
      CommittedLess(over, backing, s, total);
      ret := 0;
    }

    /** No copy fails and no run of allocated sectors reaches past the end. */
    ghost predicate Smooth(answers: nat -> Answer)
      reads this`over
    {
      forall s :: 0 <= s < total && s in over ==>
        !answers(s).readFails && !answers(s).writeFails && s + answers(s).n <= total
    }

    static lemma CommittedLess(over: map<nat, Sector>, backing: seq<Sector>, s: nat, n: nat)
      requires Committed(over, backing, s) && n <= s
      ensures Committed(over, backing, n)
    {
    }

    /** bdrv_commit with the backing image writable. `canEmpty` says that the driver has make_empty, emptyRet what it
        returns and `kept` which sectors a failing one leaves allocated. */
    method CommitOverlay(drv: bool, hasBacking: bool, keepReadOnly: bool, answers: nat -> Answer, canEmpty: bool,
                         emptyRet: int, kept: set<nat>) returns (ret: int)
      requires Valid()
      requires forall s :: 0 <= s < total ==>
               0 < answers(s).n <= COMMIT_BUF_SECTORS && Uniform(over, total, s, answers(s).n)
      modifies this`backing, this`over
      ensures Valid() && SameView(old(over), old(backing), over, backing)
      ensures OnlyAllocated(old(over), old(backing), backing)
      ensures !drv || !hasBacking || keepReadOnly ==>
              && over == old(over) && backing == old(backing)
              && ret == if !drv then -ENOMEDIUM else if !hasBacking then -ENOTSUP else -EACCES
      ensures drv && hasBacking && !keepReadOnly && ret != 0 ==>
              || (ret == -EIO && over == old(over))
              || (canEmpty && ret == emptyRet && Committed(old(over), backing, total))
      ensures ret == 0 ==> Committed(old(over), backing, total) && over == if canEmpty then map[] else old(over)
      ensures drv && hasBacking && !keepReadOnly && old(Smooth(answers)) && total <= old(|backing|) && emptyRet == 0 ==>
              ret == 0
    {
      hide SameView, Committed, Uniform, OnlyAllocated;
      SameViewRefl(over, backing);
      if !drv {
        return -ENOMEDIUM;
      }
      if !hasBacking {
        return -ENOTSUP;
      }
      if keepReadOnly {
        return -EACCES;
      }
      ret := CopyAll(answers);
      if ret != 0 {
        return;
      }
      if canEmpty {
        ghost var was := over;
        over := if emptyRet == 0 then map[] else map i | i in over && i in kept :: over[i];
        DropKeepsView(was, backing, over, total);
        SameViewTrans(was, old(backing), was, backing, over, backing);
        ret := emptyRet;
      }
    }
  }
}
