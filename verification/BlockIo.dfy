/** Byte-granular access to a sector device (block.c, bdrv_pread and bdrv_pwrite). */
module BlockIo {
  import opened Common
  import opened Wire

  /** Byte i of a disk; past the end it reads as zero. */
  function ByteAt(d: seq<Byte>, i: nat): Byte {
    if i < |d| then d[i] else 0
  }

  /** n bytes from off on. */
  function ReadRange(d: seq<Byte>, off: nat, n: nat): (b: seq<Byte>)
    ensures |b| == n && forall i :: 0 <= i < n ==> b[i] == ByteAt(d, off + i)
  {
    seq<Byte>(n, i requires 0 <= i < n => ByteAt(d, off + i))
  }

  /** e is d with b put at off, and no other byte changed. */
  ghost predicate Patched(d: seq<Byte>, e: seq<Byte>, off: nat, b: seq<Byte>) {
    forall i: nat :: ByteAt(e, i) == if off <= i < off + |b| then b[i - off] else ByteAt(d, i)
  }

  /** No byte outside off..off+n changed. */
  ghost predicate OnlyWithin(d: seq<Byte>, e: seq<Byte>, off: nat, n: nat) {
    forall i: nat :: i < off || off + n <= i ==> ByteAt(e, i) == ByteAt(d, i)
  }

  /** What a byte-granular write means: reading the range back gives the bytes, reading beside it the old ones. */
  lemma ReadAfterWrite(d: seq<Byte>, e: seq<Byte>, off: nat, b: seq<Byte>, at: nat, n: nat)
    requires Patched(d, e, off, b)
    ensures ReadRange(e, off, |b|) == b
    ensures at + n <= off || off + |b| <= at ==> ReadRange(e, at, n) == ReadRange(d, at, n)
  {
    assert forall i :: 0 <= i < |b| ==> ReadRange(e, off, |b|)[i] == ByteAt(e, off + i);
  }

  /** Two writes side by side are one. */
  lemma PatchedJoin(d: seq<Byte>, e: seq<Byte>, f: seq<Byte>, off: nat, b: seq<Byte>, c: seq<Byte>)
    requires Patched(d, e, off, b) && Patched(e, f, off + |b|, c)
    ensures Patched(d, f, off, b + c)
  {
  }

  lemma PatchedNothing(d: seq<Byte>, off: nat)
    ensures Patched(d, d, off, [])
  {
  }

  lemma ReadJoin(d: seq<Byte>, off: nat, m: nat, n: nat)
    ensures ReadRange(d, off, m) + ReadRange(d, off + m, n) == ReadRange(d, off, m + n)
  {
  }

  /** Read-modify-write of a sector changes just the bytes put into it. */
  lemma SectorPatched(d: seq<Byte>, e: seq<Byte>, at: nat, k: nat, b: seq<Byte>, tmp: seq<Byte>)
    requires tmp == ReadRange(d, at, SECTOR) && k + |b| <= SECTOR
    requires Patched(d, e, at, tmp[..k] + b + tmp[k + |b|..])
    ensures Patched(d, e, at + k, b)
  {
    var t := tmp[..k] + b + tmp[k + |b|..];
    forall i: nat ensures ByteAt(e, i) == if at + k <= i < at + k + |b| then b[i - (at + k)] else ByteAt(d, i) {
      if at <= i < at + SECTOR && !(at + k <= i < at + k + |b|) {
        assert t[i - at] == tmp[i - at];
        assert tmp[i - at] == ByteAt(d, at + (i - at));
      }
    }
  }

  /** A write that stops inside a read-modify-write sector has touched nothing else. */
  lemma PartialWithin(d: seq<Byte>, e: seq<Byte>, at: nat, k: nat, b: seq<Byte>, tmp: seq<Byte>, done: nat)
    requires tmp == ReadRange(d, at, SECTOR) && k + |b| <= SECTOR && done <= SECTOR
    requires Patched(d, e, at, (tmp[..k] + b + tmp[k + |b|..])[..done])
    ensures OnlyWithin(d, e, at + k, |b|)
  {
    var t := tmp[..k] + b + tmp[k + |b|..];
    forall i: nat | i < at + k || at + k + |b| <= i ensures ByteAt(e, i) == ByteAt(d, i) {
      if at <= i < at + done {
        assert t[..done][i - at] == t[i - at] == tmp[i - at];
        assert tmp[i - at] == ByteAt(d, at + (i - at));
      }
    }
  }

  lemma WithinAfter(d: seq<Byte>, e: seq<Byte>, f: seq<Byte>, off: nat, b: seq<Byte>, at: nat, n: nat, total: nat)
    requires Patched(d, e, off, b) && OnlyWithin(e, f, at, n)
    requires off <= at && at + n <= off + total && |b| <= total
    ensures OnlyWithin(d, f, off, total)
  {
  }

  lemma PatchedWithin(d: seq<Byte>, e: seq<Byte>, off: nat, b: seq<Byte>, total: nat)
    requires Patched(d, e, off, b) && |b| <= total
    ensures OnlyWithin(d, e, off, total)
  {
  }

  /** Bytes from off to the next sector boundary. */
  function Head(off: nat): nat {
    (SECTOR - off % SECTOR) % SECTOR
  }

  lemma HeadIs(off: nat)
    ensures off == SECTOR * (off / SECTOR) + off % SECTOR && off % SECTOR < SECTOR
    ensures Head(off) == if off % SECTOR == 0 then 0 else SECTOR - off % SECTOR
  {
  }

  /** How a driver call goes: 0, or a negative error after `done` sectors of a write were transferred. */
  datatype Fate = Fate(ret: int, done: nat)

  /** An opened image over an abstract driver. */
  class Image {
    var disk: seq<Byte>
    const drv: bool
    const readOnly: bool
    const growable: bool

    ghost predicate Valid()
      reads this
    {
      |disk| % SECTOR == 0
    }

    constructor (disk: seq<Byte>, drv: bool, readOnly: bool, growable: bool)
      requires |disk| % SECTOR == 0
      ensures Valid() && this.disk == disk && this.drv == drv && this.readOnly == readOnly && this.growable == growable
    {
      this.disk, this.drv, this.readOnly, this.growable := disk, drv, readOnly, growable;
    }

    /** bdrv_check_request for a medium that is inserted. */
    predicate InRange(sector: nat, n: nat)
      reads this
    {
      growable || SECTOR * (sector + n) <= |disk|
    }

    /** The range lies on the device, or the device grows. */
    predicate Accessible(offset: nat, count: nat)
      reads this
    {
      growable || offset + count <= |disk|
    }

    lemma InRangeIs(offset: nat, count: nat, sector: nat, n: nat)
      requires Valid() && SECTOR * (sector + n) < offset + count + SECTOR
      ensures Accessible(offset, count) ==> InRange(sector, n)
    {
      assert |disk| == SECTOR * (|disk| / SECTOR);
    }

    lemma AccessibleIs(offset: nat, count: nat, sector: nat, n: nat)
      requires offset + count <= SECTOR * (sector + n)
      ensures InRange(sector, n) ==> Accessible(offset, count)
    {
    }

    /** bdrv_read. */
    method Read(sector: nat, n: nat, fate: Fate) returns (ret: int, buf: seq<Byte>)
      requires fate.ret <= 0
      ensures ret == if !drv then -ENOMEDIUM else if !InRange(sector, n) then -EIO else fate.ret
      ensures ret == 0 ==> buf == ReadRange(disk, SECTOR * sector, SECTOR * n)
    {
      if !drv {
        return -ENOMEDIUM, [];
      }
      if !InRange(sector, n) {
        return -EIO, [];
      }
      return fate.ret, ReadRange(disk, SECTOR * sector, SECTOR * n);
    }

    /** bdrv_write; the driver zero-fills a gap when a growable image grows. */
    method Write(sector: nat, buf: seq<Byte>, n: nat, fate: Fate) returns (ret: int)
      requires Valid() && |buf| == SECTOR * n && fate.ret <= 0
      modifies this
      ensures Valid()
      ensures ret == if !drv then -ENOMEDIUM
                     else if readOnly then -EACCES
                     else if !old(InRange(sector, n)) then -EIO
                     else fate.ret
      ensures !growable ==> |disk| == old(|disk|)
      ensures ret == 0 ==> Patched(old(disk), disk, SECTOR * sector, buf)
      ensures ret != 0 ==>
              exists done: nat :: done <= n && Patched(old(disk), disk, SECTOR * sector, buf[..SECTOR * done])
    {
      PatchedNothing(disk, SECTOR * sector);
      assert buf[..SECTOR * 0] == [];
      if !drv {
        return -ENOMEDIUM;
      }
      if readOnly {
        return -EACCES;
      }
      if !InRange(sector, n) {
        return -EIO;
      }
      var k := if fate.ret == 0 || fate.done > n then n else fate.done;
      PutIs(disk, sector, buf[..SECTOR * k], k);
      assert k == n ==> buf[..SECTOR * k] == buf;
      disk := Put(disk, sector, buf[..SECTOR * k], k);
      return fate.ret;
    }

    static function Put(d: seq<Byte>, sector: nat, b: seq<Byte>, k: nat): (e: seq<Byte>)
      requires |b| == SECTOR * k && |d| % SECTOR == 0
      ensures |e| % SECTOR == 0
    {
      var at := SECTOR * sector;
      if k == 0 then d
      else
        var wide := if |d| < at + |b| then d + seq(at + |b| - |d|, _ => 0) else d;
        Multiple(sector + k);
        wide[..at] + b + wide[at + |b|..]
    }

    static lemma Multiple(k: nat)
      ensures SECTOR * k % SECTOR == 0
    {
    }

    static lemma PutIs(d: seq<Byte>, sector: nat, b: seq<Byte>, k: nat)
      requires |b| == SECTOR * k && |d| % SECTOR == 0
      ensures Patched(d, Put(d, sector, b, k), SECTOR * sector, b)
    {
    }

    /** bdrv_pread. */
    method Pread(offset: nat, count1: nat, fates: seq<Fate>) returns (ret: int, buf: seq<Byte>)
      requires Valid() && |fates| == 3 && forall k :: 0 <= k < 3 ==> fates[k].ret <= 0
      ensures ret >= 0 ==> ret == count1 && buf == ReadRange(disk, offset, count1)
      ensures ret >= 0 && count1 > 0 ==> drv && Accessible(offset, count1)
      ensures !drv && count1 > 0 ==> ret == -ENOMEDIUM
      ensures drv && ret < 0 ==> ret == -EIO || exists k :: 0 <= k < 3 && ret == fates[k].ret
      ensures drv && ret < 0 && Accessible(offset, count1) ==> exists k :: 0 <= k < 3 && ret == fates[k].ret
      ensures drv && Accessible(offset, count1) && (forall k :: 0 <= k < 3 ==> fates[k].ret == 0) ==> ret >= 0
    {
      hide ReadRange, Head, InRange, Accessible;
      var count, sector := count1, offset / SECTOR;
      var len := Head(offset);
      HeadIs(offset);
      if len > count {
        len := count;
      }
      buf := [];
      if len > 0 {
        InRangeIs(offset, count1, sector, 1);
        var r, tmp := Read(sector, 1, fates[0]);
        if r < 0 {
          return r, buf;
        }
        var k := offset % SECTOR;
        HeadRead(disk, offset, sector, k, len, tmp);
        buf := tmp[k..k + len];
        count := count - len;
        if count == 0 {
          AccessibleIs(offset, count1, sector, 1);
          return count1, buf;
        }
        sector := sector + 1;
      }
      if count == 0 {
        return count1, buf;
      }
      ret, buf := ReadRest(offset, count1, sector, buf, fates);
    }

    /** The whole sectors and the last piece, from an aligned position on. */
    method ReadRest(ghost offset: nat, count1: nat, sector0: nat, buf0: seq<Byte>, fates: seq<Fate>)
      returns (ret: int, buf: seq<Byte>)
      requires Valid() && |fates| == 3 && forall k :: 0 <= k < 3 ==> fates[k].ret <= 0
      requires |buf0| < count1 && buf0 == ReadRange(disk, offset, |buf0|) && SECTOR * sector0 == offset + |buf0|
      ensures ret >= 0 ==> ret == count1 && buf == ReadRange(disk, offset, count1) && drv && Accessible(offset, count1)
      ensures !drv ==> ret == -ENOMEDIUM
      ensures drv && ret < 0 ==> ret == -EIO || exists k :: 0 <= k < 3 && ret == fates[k].ret
      ensures drv && ret < 0 && Accessible(offset, count1) ==> exists k :: 0 <= k < 3 && ret == fates[k].ret
      ensures drv && Accessible(offset, count1) && (forall k :: 0 <= k < 3 ==> fates[k].ret == 0) ==> ret >= 0
    {
      hide ReadRange, InRange, Accessible;
      var sector, count := sector0, count1 - |buf0|;
      buf := buf0;
      var nb := count / SECTOR;
      assert SECTOR * nb <= count < SECTOR * nb + SECTOR;
      if nb > 0 {
        InRangeIs(offset, count1, sector, nb);
        var r, tmp := Read(sector, nb, fates[1]);
        if r < 0 {
          return r, buf;
        }
        AccessibleIs(offset, |buf| + SECTOR * nb, sector, nb);
        ReadJoin(disk, offset, |buf|, SECTOR * nb);
        buf := buf + tmp;
        sector := sector + nb;
        count := count - SECTOR * nb;
      }
      if count > 0 {
        InRangeIs(offset, count1, sector, 1);
        var r, tmp := Read(sector, 1, fates[2]);
        if r < 0 {
          return r, buf;
        }
        AccessibleIs(offset, count1, sector, 1);
        ReadJoin(disk, offset, |buf|, count);
        HeadRead(disk, SECTOR * sector, sector, 0, count, tmp);
        buf := buf + tmp[0..count];
      }
      return count1, buf;
    }

    static lemma HeadRead(d: seq<Byte>, offset: nat, sector: nat, k: nat, len: nat, tmp: seq<Byte>)
      requires offset == SECTOR * sector + k && k + len <= SECTOR && tmp == ReadRange(d, SECTOR * sector, SECTOR)
      ensures tmp[k..k + len] == ReadRange(d, offset, len)
    {
      var part := tmp[k..k + len];
      forall i | 0 <= i < len ensures part[i] == ByteAt(d, offset + i) {
        assert tmp[k + i] == ByteAt(d, SECTOR * sector + (k + i));
      }
    }

    /** The read-modify-write of one sector. */
    method Merge(sector: nat, k: nat, b: seq<Byte>, rd: Fate, wr: Fate) returns (ret: int)
      requires Valid() && k + |b| <= SECTOR && rd.ret <= 0 && wr.ret <= 0
      modifies this
      ensures Valid() && ret <= 0
      ensures ret == 0 ==> Patched(old(disk), disk, SECTOR * sector + k, b)
      ensures ret < 0 ==> OnlyWithin(old(disk), disk, SECTOR * sector + k, |b|)
      ensures ret == if !drv then -ENOMEDIUM
                     else if !old(InRange(sector, 1)) then -EIO
                     else if rd.ret < 0 then rd.ret
                     else if readOnly then -EACCES
                     else wr.ret
      ensures !growable ==> |disk| == old(|disk|)
    {
      hide ReadRange, Patched, OnlyWithin;
      ghost var was := disk;
      var r, tmp := Read(sector, 1, rd);
      if r < 0 {
        PatchedNothing(was, SECTOR * sector + k);
        PatchedWithin(was, disk, SECTOR * sector + k, [], |b|);
        return r;
      }
      var t := tmp[..k] + b + tmp[k + |b|..];
      r := Write(sector, t, 1, wr);
      if r < 0 {
        ghost var done: nat :| done <= 1 && Patched(was, disk, SECTOR * sector, t[..SECTOR * done]);
        PartialWithin(was, disk, SECTOR * sector, k, b, tmp, SECTOR * done);
        return r;
      }
      SectorPatched(was, disk, SECTOR * sector, k, b, tmp);
      return 0;
    }

    /** bdrv_pwrite. */
    method Pwrite(offset: nat, buf: seq<Byte>, fates: seq<Fate>) returns (ret: int)
      requires Valid() && |fates| == 5 && forall k :: 0 <= k < 5 ==> fates[k].ret <= 0
      modifies this
      ensures Valid()
      ensures ret >= 0 ==> ret == |buf| && Patched(old(disk), disk, offset, buf)
      ensures ret < 0 ==> OnlyWithin(old(disk), disk, offset, |buf|)
      ensures ret >= 0 && |buf| > 0 ==> drv && !readOnly && old(Accessible(offset, |buf|))
      ensures !drv && |buf| > 0 ==> ret == -ENOMEDIUM
      ensures drv && ret < 0 && old(Accessible(offset, |buf|)) ==>
              (readOnly && ret == -EACCES) || exists k :: 0 <= k < 5 && ret == fates[k].ret
      ensures drv && ret < 0 ==>
              ret == -EIO || (readOnly && ret == -EACCES) || exists k :: 0 <= k < 5 && ret == fates[k].ret
      ensures drv && !readOnly && old(Accessible(offset, |buf|)) && (forall k :: 0 <= k < 5 ==> fates[k].ret == 0) ==>
              ret >= 0
    {
      hide Patched, OnlyWithin, ReadRange, InRange, Head;
      ghost var was := disk;
      var count, sector, pos := |buf|, offset / SECTOR, 0;
      var len := Head(offset);
      HeadIs(offset);
      if len > count {
        len := count;
      }
      PatchedNothing(was, offset);
      assert buf[..0] == [];
      if len > 0 {
        InRangeIs(offset, |buf|, sector, 1);
        AccessibleIs(offset, len, sector, 1);
        var r := Merge(sector, offset % SECTOR, buf[..len], fates[0], fates[1]);
        if r < 0 {
          WithinMore(was, disk, offset, len, |buf|);
          return r;
        }
        pos := len;
        count := count - len;
        if count == 0 {
          assert buf[..len] == buf;
          return |buf|;
        }
        sector := sector + 1;
      }
      if count == 0 {
        assert buf[..pos] == buf;
        return |buf|;
      }
      ret := WriteRest(was, offset, buf, pos, sector, fates);
    }

    /** The whole sectors and the last piece, from an aligned position on. */
    method WriteRest(ghost was: seq<Byte>, ghost offset: nat, buf: seq<Byte>, pos0: nat, sector0: nat, fates: seq<Fate>)
      returns (ret: int)
      requires Valid() && |fates| == 5 && forall k :: 0 <= k < 5 ==> fates[k].ret <= 0
      requires pos0 < |buf| && SECTOR * sector0 == offset + pos0 && Patched(was, disk, offset, buf[..pos0])
      modifies this
      ensures Valid()
      ensures ret >= 0 ==> ret == |buf| && Patched(was, disk, offset, buf)
      ensures ret < 0 ==> OnlyWithin(was, disk, offset, |buf|)
      ensures ret >= 0 ==> drv && !readOnly && old(Accessible(offset, |buf|))
      ensures !drv ==> ret == -ENOMEDIUM
      ensures drv && ret < 0 && old(Accessible(offset, |buf|)) ==>
              (readOnly && ret == -EACCES) || exists k :: 0 <= k < 5 && ret == fates[k].ret
      ensures drv && ret < 0 ==>
              ret == -EIO || (readOnly && ret == -EACCES) || exists k :: 0 <= k < 5 && ret == fates[k].ret
      ensures drv && !readOnly && old(Accessible(offset, |buf|)) && (forall k :: 0 <= k < 5 ==> fates[k].ret == 0) ==>
              ret >= 0
    {
      hide Patched, OnlyWithin, ReadRange, InRange;
      var pos, sector, count := pos0, sector0, |buf| - pos0;
      var nb := count / SECTOR;
      assert SECTOR * nb <= count < SECTOR * nb + SECTOR;
      if nb > 0 {
        ghost var now := disk;
        var part := buf[pos..pos + SECTOR * nb];
        InRangeIs(offset, |buf|, sector, nb);
        AccessibleIs(offset, pos + SECTOR * nb, sector, nb);
        var r := Write(sector, part, nb, fates[2]);
        if r < 0 {
          ghost var done: nat :| done <= nb && Patched(now, disk, SECTOR * sector, part[..SECTOR * done]);
          PatchedWithin(now, disk, SECTOR * sector, part[..SECTOR * done], SECTOR * nb);
          WithinAfter(was, now, disk, offset, buf[..pos], SECTOR * sector, SECTOR * nb, |buf|);
          return r;
        }
        PatchedJoin(was, now, disk, offset, buf[..pos], part);
        assert buf[..pos] + part == buf[..pos + SECTOR * nb];
        sector := sector + nb;
        pos := pos + SECTOR * nb;
        count := count - SECTOR * nb;
      }
      if count > 0 {
        ret := WriteTail(was, offset, buf, pos, sector, fates[3], fates[4]);
      } else {
        Cut(buf, pos);
        ret := |buf|;
      }
    }

    /** The last piece. */
    method WriteTail(ghost was: seq<Byte>, ghost offset: nat, buf: seq<Byte>, pos: nat, sector: nat, rd: Fate, wr: Fate)
      returns (ret: int)
      requires Valid() && rd.ret <= 0 && wr.ret <= 0
      requires pos < |buf| < pos + SECTOR && SECTOR * sector == offset + pos && Patched(was, disk, offset, buf[..pos])
      modifies this
      ensures Valid()
      ensures ret >= 0 ==> ret == |buf| && Patched(was, disk, offset, buf)
      ensures ret < 0 ==> OnlyWithin(was, disk, offset, |buf|)
      ensures ret >= 0 ==> drv && !readOnly && old(Accessible(offset, |buf|))
      ensures !drv ==> ret == -ENOMEDIUM
      ensures drv && ret < 0 && old(Accessible(offset, |buf|)) ==>
              (readOnly && ret == -EACCES) || ret == rd.ret || ret == wr.ret
      ensures drv && ret < 0 ==> ret == -EIO || (readOnly && ret == -EACCES) || ret == rd.ret || ret == wr.ret
      ensures drv && !readOnly && old(Accessible(offset, |buf|)) && rd.ret == 0 && wr.ret == 0 ==> ret >= 0
    {
      hide Patched, OnlyWithin, ReadRange, InRange;
      ghost var now := disk;
      InRangeIs(offset, |buf|, sector, 1);
      AccessibleIs(offset, |buf|, sector, 1);
      var r := Merge(sector, 0, buf[pos..], rd, wr);
      if r < 0 {
        WithinAfter(was, now, disk, offset, buf[..pos], SECTOR * sector, |buf| - pos, |buf|);
        return r;
      }
      PatchedJoin(was, now, disk, offset, buf[..pos], buf[pos..]);
      Cut(buf, pos);
      return |buf|;
    }

    static lemma Cut(b: seq<Byte>, pos: nat)
      requires pos <= |b|
      ensures b[..pos] + b[pos..] == b
      ensures pos == |b| ==> b[..pos] == b
    {
    }

    static lemma WithinMore(d: seq<Byte>, e: seq<Byte>, off: nat, n: nat, total: nat)
      requires OnlyWithin(d, e, off, n) && n <= total
      ensures OnlyWithin(d, e, off, total)
    {
    }
  }
}
