/** Scatter-gather vectors (cutils.c). A vector is the list of byte ranges it points to, each range its bytes. */
module Iovec {
  import opened Wire

  type Segments = seq<seq<Byte>>

  /** The bytes a vector stands for. */
  function Flat(v: Segments): seq<Byte> {
    if v == [] then [] else v[0] + Flat(v[1..])
  }

  function Min(a: int, b: int): int {
    if a < b then a else b
  }

  /** Bytes skip..skip+size of b, as far as b reaches. */
  function Slice(b: seq<Byte>, skip: nat, size: nat): seq<Byte> {
    b[Min(skip, |b|)..Min(skip + size, |b|)]
  }

  /** The ranges qemu_iovec_copy appends. */
  function CopySegs(v: Segments, skip: nat, size: nat): Segments {
    if v == [] || size == 0 then []
    else if skip >= |v[0]| then CopySegs(v[1..], skip - |v[0]|, size)
    else
      var part := v[0][skip..];
      if |part| > size then [part[..size]] else [part] + CopySegs(v[1..], 0, size - |part|)
  }

  /** Copying appends exactly the bytes skip..skip+size of the source, in at most as many ranges. */
  lemma {:induction false} CopyIsSlice(v: Segments, skip: nat, size: nat)
    ensures Flat(CopySegs(v, skip, size)) == Slice(Flat(v), skip, size)
    ensures |CopySegs(v, skip, size)| <= |v|
  {
    if v == [] || size == 0 {
    } else if skip >= |v[0]| {
      CopyIsSlice(v[1..], skip - |v[0]|, size);
      SliceSkips(v[0], Flat(v[1..]), skip, size);
    } else {
      var part := v[0][skip..];
      if |part| > size {
        var s := CopySegs(v, skip, size);
        assert s == [part[..size]] && s[1..] == [];
        assert Flat(s) == part[..size];
        assert (v[0] + Flat(v[1..]))[skip..skip + size] == v[0][skip..skip + size];
      } else {
        CopyIsSlice(v[1..], 0, size - |part|);
        var s := CopySegs(v, skip, size);
        assert s[1..] == CopySegs(v[1..], 0, size - |part|);
        SliceTakes(v[0], Flat(v[1..]), skip, size);
      }
    }
  }

  lemma SliceSkips(a: seq<Byte>, b: seq<Byte>, skip: nat, size: nat)
    requires skip >= |a|
    ensures Slice(a + b, skip, size) == Slice(b, skip - |a|, size)
  {
  }

  lemma SliceTakes(a: seq<Byte>, b: seq<Byte>, skip: nat, size: nat)
    requires skip <= |a| && |a| - skip <= size
    ensures Slice(a + b, skip, size) == a[skip..] + Slice(b, 0, size - (|a| - skip))
  {
  }

  lemma {:induction false} FlatAppend(v: Segments, w: Segments)
    ensures Flat(v + w) == Flat(v) + Flat(w)
  {
    if v == [] {
      assert v + w == w;
    } else {
      assert (v + w)[1..] == v[1..] + w;
      FlatAppend(v[1..], w);
    }
  }

  lemma FlatOne(b: seq<Byte>)
    ensures Flat([b]) == b
  {
    assert [b][1..] == [];
  }

  /** A QEMUIOVector that owns its range table (nalloc != -1). */
  class IoVector {
    var iov: Segments
    var nalloc: nat
    var size: nat

    ghost predicate Valid()
      reads this
    {
      |iov| <= nalloc && size == |Flat(iov)|
    }

    /** qemu_iovec_init. */
    constructor (allocHint: nat)
      ensures Valid() && iov == [] && nalloc == allocHint
    {
      iov := [];
      nalloc := allocHint;
      size := 0;
    }

    /** qemu_iovec_add: the table doubles when it is full. */
    method Add(b: seq<Byte>)
      requires Valid()
      modifies this
      ensures Valid() && iov == old(iov) + [b] && Flat(iov) == old(Flat(iov)) + b
      ensures nalloc == if |old(iov)| == old(nalloc) then 2 * old(nalloc) + 1 else old(nalloc)
    {
      if |iov| == nalloc {
        nalloc := 2 * nalloc + 1;
      }
      FlatAppend(iov, [b]);
      FlatOne(b);
      iov := iov + [b];
      size := size + |b|;
    }

    /** qemu_iovec_copy. */
    method Copy(src: Segments, skip0: nat, limit: nat)
      requires Valid()
      modifies this
      ensures Valid()
      ensures iov == old(iov) + CopySegs(src, skip0, limit)
      ensures Flat(iov) == old(Flat(iov)) + Slice(Flat(src), skip0, limit)
      ensures old(|iov| + |src| <= nalloc) ==> nalloc == old(nalloc)
    {
      var i, done, skip := 0, 0, skip0;
      assert src[0..] == src;
      while i < |src| && done != limit
        invariant 0 <= i <= |src| && 0 <= done <= limit && 0 <= skip && Valid()
        invariant iov + CopySegs(src[i..], skip, limit - done) == old(iov) + CopySegs(src, skip0, limit)
        invariant |iov| <= old(|iov|) + i
        invariant old(|iov| + |src| <= nalloc) ==> nalloc == old(nalloc)
      {
        ghost var rest := src[i..];
        assert rest[0] == src[i] && rest[1..] == src[i + 1..];
        if skip >= |src[i]| {
          skip := skip - |src[i]|;
          i := i + 1;
        } else {
          var part := src[i][skip..];
          if done + |part| > limit {
            Add(part[..limit - done]);
            CopyDone(old(Flat(iov)), old(iov), src, skip0, limit, iov);
            return;
          }
          ghost var was := iov;
          Add(part);
          ghost var later := CopySegs(src[i + 1..], 0, limit - done - |part|);
          assert was + ([part] + later) == iov + later;
          skip := 0;
          done := done + |part|;
          i := i + 1;
        }
      }
      assert i == |src| ==> src[i..] == [];
      CopyDone(old(Flat(iov)), old(iov), src, skip0, limit, iov);
    }

    static lemma CopyDone(flat: seq<Byte>, was: Segments, src: Segments, skip: nat, limit: nat, now: Segments)
      requires flat == Flat(was) && now == was + CopySegs(src, skip, limit)
      ensures Flat(now) == flat + Slice(Flat(src), skip, limit)
    {
      CopyIsSlice(src, skip, limit);
      FlatAppend(was, CopySegs(src, skip, limit));
    }

    /** qemu_iovec_concat. */
    method Concat(src: Segments, limit: nat)
      requires Valid()
      modifies this
      ensures Valid()
      ensures iov == old(iov) + CopySegs(src, 0, limit)
      ensures Flat(iov) == old(Flat(iov)) + Slice(Flat(src), 0, limit)
      ensures old(|iov| + |src| <= nalloc) ==> nalloc == old(nalloc)
    {
      Copy(src, 0, limit);
    }
  }
}
