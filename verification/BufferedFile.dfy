/** The rate-limited output stream (buffered_file.c). */
module BufferedFile {
  import opened Common
  import opened Wire

  /** The largest size_t. */
  const SIZE_MAX: nat := 0xffff_ffff_ffff_ffff

  /** Nothing is lost or reordered: what the backend has, then what is buffered, is what was accepted. */
  ghost predicate InOrder(delivered: seq<Byte>, buffer: seq<Byte>, accepted: seq<Byte>) {
    delivered + buffer == accepted
  }

  /** One accepted put. The buffer was flushed + left, the put was direct + rest; flushed and direct went to the
      backend, in that order, and left + rest stays. Order is kept if and only if the bytes that overtook commute with
      the bytes left behind, in particular when either is empty. */
  lemma PutKeepsOrder(delivered: seq<Byte>, flushed: seq<Byte>, left: seq<Byte>, direct: seq<Byte>, rest: seq<Byte>,
                      accepted: seq<Byte>)
    requires InOrder(delivered, flushed + left, accepted)
    ensures InOrder(delivered + flushed + direct, left + rest, accepted + (direct + rest)) <==>
            direct + left == left + direct
    ensures direct == [] || left == [] ==> direct + left == left + direct
  {
    var head := delivered + flushed;
    assert accepted == head + left;
    assert delivered + flushed + direct + (left + rest) == head + (direct + left) + rest;
    assert accepted + (direct + rest) == head + (left + direct) + rest;
    if head + (direct + left) + rest == head + (left + direct) + rest {
      Cancel(head, direct + left, left + direct, rest);
    }
    assert direct == [] ==> direct + left == left == left + direct;
    assert left == [] ==> direct + left == direct == left + direct;
  }

  lemma Cancel(a: seq<Byte>, b: seq<Byte>, c: seq<Byte>, d: seq<Byte>)
    requires a + b + d == a + c + d && |b| == |c|
    ensures b == c
  {
    assert b == (a + b + d)[|a|..|a| + |b|];
    assert c == (a + c + d)[|a|..|a| + |c|];
  }

  /** A put that is refused after some of it went out: the stream then has bytes nobody accepted. */
  lemma RefusedKeepsOrder(delivered: seq<Byte>, flushed: seq<Byte>, left: seq<Byte>, direct: seq<Byte>,
                          accepted: seq<Byte>)
    requires InOrder(delivered, flushed + left, accepted)
    ensures InOrder(delivered + flushed + direct, left, accepted) <==> direct == []
  {
    assert delivered + (flushed + left) == delivered + flushed + left;
    assert direct == [] ==> delivered + flushed + direct + left == delivered + flushed + left;
  }

  lemma FlushKeepsOrder(delivered: seq<Byte>, flushed: seq<Byte>, left: seq<Byte>, accepted: seq<Byte>)
    requires InOrder(delivered, flushed + left, accepted)
    ensures InOrder(delivered + flushed, left, accepted)
  {
    assert delivered + (flushed + left) == delivered + flushed + left;
  }

  /** What came of offering bytes again and again: how many were taken, in how many calls, and the answer that put an
      end to it, if any. */
  datatype Offered = Offered(taken: nat, calls: nat, stop: Option<int>)

  /** The backend never takes more than it is offered. */
  function Answer(answers: nat -> int, tick: nat, n: nat): int {
    if answers(tick) > n then n else answers(tick)
  }

  /** Offering n bytes from call number tick on, as long as the backend takes some. */
  function Offer(answers: nat -> int, tick: nat, n: nat): (o: Offered)
    ensures o.taken <= n && (o.stop.None? ==> o.taken == n) && (o.stop.Some? ==> o.stop.value <= 0 && o.taken < n)
    ensures (n > 0 ==> o.calls > 0)
    decreases n
  {
    if n == 0 then Offered(0, 0, None)
    else
      var a := Answer(answers, tick, n);
      if a <= 0 then Offered(0, 1, Some(a))
      else
        var rest := Offer(answers, tick + 1, n - a);
        Offered(a + rest.taken, 1 + rest.calls, rest.stop)
  }

  /** The same, giving up once more than `limit` bytes went out in this period. */
  function OfferLimited(answers: nat -> int, tick: nat, n: nat, xfer: nat, limit: nat): (o: Offered)
    ensures o.taken <= n && (o.stop.Some? ==> o.stop.value <= 0 && o.taken < n)
    decreases n
  {
    if n == 0 || xfer > limit then Offered(0, 0, None)
    else
      var a := Answer(answers, tick, n);
      if a <= 0 then Offered(0, 1, Some(a))
      else
        var rest := OfferLimited(answers, tick + 1, n - a, xfer + a, limit);
        Offered(a + rest.taken, 1 + rest.calls, rest.stop)
  }

  /** Rate limiting. Nothing is offered once more than `limit` bytes went out in the period; unless an answer stops it,
      bytes stay behind only for that reason; and the limit is passed by at most what one call takes. */
  lemma {:induction false} LimitHolds(answers: nat -> int, tick: nat, n: nat, xfer: nat, limit: nat, most: nat)
    requires forall t: nat :: answers(t) <= most
    ensures var o := OfferLimited(answers, tick, n, xfer, limit);
            && (xfer > limit ==> o.calls == 0 && o.taken == 0)
            && (xfer <= limit && n > 0 ==> o.calls > 0)
            && (o.stop.None? && o.taken < n ==> xfer + o.taken > limit)
            && (xfer <= limit ==> xfer + o.taken <= limit + most)
    decreases n
  {
    if n > 0 && xfer <= limit && Answer(answers, tick, n) > 0 {
      var a := Answer(answers, tick, n);
      LimitHolds(answers, tick + 1, n - a, xfer + a, limit, most);
    }
  }

  /** Without a limit everything goes out that the backend takes before an answer stops it. */
  lemma {:induction false} OfferIsUnlimited(answers: nat -> int, tick: nat, n: nat, xfer: nat, limit: nat)
    requires xfer + n <= limit
    ensures OfferLimited(answers, tick, n, xfer, limit) == Offer(answers, tick, n)
    decreases n
  {
    if n > 0 && Answer(answers, tick, n) > 0 {
      var a := Answer(answers, tick, n);
      OfferIsUnlimited(answers, tick + 1, n - a, xfer + a, limit);
    }
  }

  /** Call j of an offer that goes on past it took some bytes, and the last answer is the one that stops it. */
  lemma {:induction false} AnswersTaken(answers: nat -> int, tick: nat, n: nat, j: nat)
    ensures var o := Offer(answers, tick, n);
            && (j + 1 < o.calls ==> answers(tick + j) > 0)
            && (o.stop.Some? ==> o.calls > 0 && o.stop.value == answers(tick + o.calls - 1) <= 0)
            && (o.stop.None? && o.calls > 0 ==> answers(tick + o.calls - 1) > 0)
            && o.taken == SumOf(answers, tick, n, o.calls)
    decreases n
  {
    if n > 0 && Answer(answers, tick, n) > 0 {
      var a := Answer(answers, tick, n);
      AnswersTaken(answers, tick + 1, n - a, if j > 0 then j - 1 else 0);
    }
  }

  /** What `calls` answers from tick on add up to, no more than n. */
  function SumOf(answers: nat -> int, tick: nat, n: nat, calls: nat): nat
    decreases calls
  {
    if calls == 0 then 0
    else
      var a := if answers(tick) < 0 then 0 else if answers(tick) > n then n else answers(tick);
      a + SumOf(answers, tick + 1, n - a, calls - 1)
  }

  /** One call further; `done` bytes taken in `calls` calls so far. */
  function Further(done: nat, calls: nat, rest: Offered): Offered {
    Offered(done + rest.taken, calls + rest.calls, rest.stop)
  }

  lemma OfferOnce(answers: nat -> int, tick: nat, n: nat, done: nat, calls: nat)
    ensures n == 0 ==> Offer(answers, tick, n) == Offered(0, 0, None)
    ensures n > 0 ==>
              var a := Answer(answers, tick, n);
              if a <= 0 then Offer(answers, tick, n) == Offered(0, 1, Some(a))
              else Further(done, calls, Offer(answers, tick, n)) ==
                   Further(done + a, calls + 1, Offer(answers, tick + 1, n - a))
  {
  }

  lemma OfferLimitedOnce(answers: nat -> int, tick: nat, n: nat, xfer: nat, limit: nat, done: nat, calls: nat)
    ensures n == 0 || xfer > limit ==> OfferLimited(answers, tick, n, xfer, limit) == Offered(0, 0, None)
    ensures n > 0 && xfer <= limit ==>
              var a := Answer(answers, tick, n);
              if a <= 0 then OfferLimited(answers, tick, n, xfer, limit) == Offered(0, 1, Some(a))
              else Further(done, calls, OfferLimited(answers, tick, n, xfer, limit)) ==
                   Further(done + a, calls + 1, OfferLimited(answers, tick + 1, n - a, xfer + a, limit))
  {
  }

  predicate Freezes(o: Offered) {
    o.stop == Some(-EAGAIN)
  }

  /** An answer that ends an offer and is taken for an error; 0 is one, but is recorded as none. */
  predicate Fails(o: Offered) {
    o.stop.Some? && o.stop.value != -EAGAIN
  }

  /** What a put offers the backend directly: nothing when the flush before it froze the output. */
  function DirectOffer(answers: nat -> int, tick: nat, n: nat, xfer: nat, limit: nat, frozen: bool): (o: Offered)
    ensures o.taken <= n
  {
    if frozen then Offered(0, 0, None) else OfferLimited(answers, tick, n, xfer, limit)
  }

  /** The exact condition under which a put keeps the order, from the state before the call and the answers to come:
      a refused put must not have got any byte out, and an accepted one must not have let bytes overtake others that
      they do not commute with. */
  ghost predicate PutInOrder(answers: nat -> int, tick: nat, buffer: seq<Byte>, xfer: nat, limit: nat, b: seq<Byte>) {
    var f := Offer(answers, tick, |buffer|);
    var g := DirectOffer(answers, tick + f.calls, |b|, xfer, limit, Freezes(f));
    if Fails(g) then g.taken == 0
    else b[..g.taken] + buffer[f.taken..] == buffer[f.taken..] + b[..g.taken]
  }

  /** A QEMUFileBuffered. The backend answers call number t with answers(t): -EAGAIN, another error, 0, or how many
      bytes it took, never more than offered. */
  class Buffered {
    var buffer: seq<Byte>
    var capacity: nat
    var freeze: bool
    var xfer: nat
    var limit: nat
    var lastError: int
    const answers: nat -> int
    var tick: nat

    /** Everything the backend took, every put that was accepted, and whether the backend ever answered 0. */
    ghost var delivered: seq<Byte>
    ghost var accepted: seq<Byte>
    ghost var zero: bool

    ghost predicate Valid()
      reads this
    {
      && |buffer| <= capacity && lastError <= 0
      && (lastError == 0 && !zero ==> InOrder(delivered, buffer, accepted))
    }

    constructor (bytesPerSec: nat, answers: nat -> int)
      ensures Valid() && delivered == [] && accepted == [] && buffer == [] && !zero && lastError == 0
      ensures this.answers == answers && tick == 0 && xfer == 0 && limit == bytesPerSec / 10
    {
      buffer, capacity, freeze, xfer, limit, lastError, tick := [], 0, false, 0, bytesPerSec / 10, 0, 0;
      this.answers := answers;
      delivered, accepted, zero := [], [], false;
    }

    /** put_buffer of the backend. */
    method Backend(data: seq<Byte>) returns (ret: int)
      requires data != []
      modifies this`tick, this`delivered, this`zero
      ensures ret == Answer(answers, old(tick), |data|) && tick == old(tick) + 1 && (zero <==> old(zero) || ret == 0)
      ensures delivered == old(delivered) + if ret > 0 then data[..ret] else []
    {
      ret := answers(tick);
      tick := tick + 1;
      if ret > |data| {
        ret := |data|;
      }
      if ret > 0 {
        delivered := delivered + data[..ret];
      }
      zero := zero || ret == 0;
    }

    /** buffered_append. */
    method Append(b: seq<Byte>)
      requires |buffer| <= capacity
      modifies this`buffer, this`capacity
      ensures buffer == old(buffer) + b && |buffer| <= capacity
      ensures capacity == if |b| > old(capacity - |buffer|) then old(capacity) + |b| + 1024 else old(capacity)
    {
      if |b| > capacity - |buffer| {
        capacity := capacity + |b| + 1024;
      }
      buffer := buffer + b;
    }

    /** buffered_flush: the buffer is offered until it is empty, the backend is not ready or there is an error. */
    method Flush() returns (ghost flushed: seq<Byte>)
      modifies this`buffer, this`freeze, this`lastError, this`tick, this`delivered, this`zero
      ensures old(buffer) == flushed + buffer && delivered == old(delivered) + flushed
      ensures old(lastError) != 0 ==> flushed == [] && lastError == old(lastError)
      ensures old(lastError) != 0 ==> freeze == old(freeze) && zero == old(zero) && tick == old(tick)
      ensures old(lastError) == 0 ==>
                var o := Offer(answers, old(tick), |old(buffer)|);
                && |flushed| == o.taken && tick == old(tick) + o.calls && freeze == (old(freeze) || Freezes(o))
                && lastError == (if Fails(o) then o.stop.value else 0) && zero == (old(zero) || o.stop == Some(0))
    {
      hide Offer, Answer;
      flushed := [];
      if lastError != 0 {
        return;
      }
      var offset := 0;
      ghost var n, t0 := |buffer|, tick;
      assert buffer[..0] == [];
      while offset < |buffer|
        invariant 0 <= offset <= |buffer| && lastError == 0 && zero == old(zero) && buffer == old(buffer)
        invariant freeze == old(freeze)
        invariant flushed == buffer[..offset] && delivered == old(delivered) + flushed
        invariant tick >= t0
        invariant Offer(answers, t0, n) == Further(offset, tick - t0, Offer(answers, tick, n - offset))
      {
        OfferOnce(answers, tick, n - offset, offset, tick - t0);
        var ret := Backend(buffer[offset..]);
        if ret == -EAGAIN {
          freeze := true;
          break;
        }
        if ret <= 0 {
          lastError := ret;
          break;
        }
        assert buffer[..offset] + buffer[offset..][..ret] == buffer[..offset + ret];
        offset := offset + ret;
        flushed := buffer[..offset];
      }
      OfferOnce(answers, tick, n - offset, offset, 0);
      buffer := buffer[offset..];
    }

    /** The loop of buffered_put_buffer over new data: a prefix goes straight to the backend. */
    method Direct(b: seq<Byte>) returns (offset: int, ghost direct: seq<Byte>)
      modifies this`freeze, this`lastError, this`tick, this`delivered, this`zero, this`xfer
      ensures var o := DirectOffer(answers, old(tick), |b|, old(xfer), limit, old(freeze));
              && direct == b[..o.taken] && delivered == old(delivered) + direct && tick == old(tick) + o.calls
              && xfer == old(xfer) + o.taken
              && freeze == (old(freeze) || Freezes(o)) && offset == (if Fails(o) then -EINVAL else o.taken)
              && lastError == (if Fails(o) then o.stop.value else old(lastError))
              && zero == (old(zero) || o.stop == Some(0))
    {
      hide OfferLimited, Answer;
      offset, direct := 0, [];
      ghost var n, t0, x0 := |b|, tick, xfer;
      assert b[..0] == [];
      while !freeze && offset < |b|
        invariant 0 <= offset <= |b| && direct == b[..offset] && delivered == old(delivered) + direct
        invariant lastError == old(lastError) && zero == old(zero) && freeze == old(freeze) && tick >= t0
        invariant xfer == x0 + offset
        invariant freeze ==> offset == 0 && tick == t0
        invariant OfferLimited(answers, t0, n, x0, limit) ==
                  Further(offset, tick - t0, OfferLimited(answers, tick, n - offset, xfer, limit))
        decreases |b| - offset, !freeze
      {
        OfferLimitedOnce(answers, tick, n - offset, xfer, limit, offset, tick - t0);
        if xfer > limit {
          break;
        }
        var ret := Backend(b[offset..]);
        if ret == -EAGAIN {
          freeze := true;
          break;
        }
        if ret <= 0 {
          lastError := ret;
          offset := -EINVAL;
          break;
        }
        assert b[..offset] + b[offset..][..ret] == b[..offset + ret];
        offset := offset + ret;
        direct := b[..offset];
        xfer := xfer + ret;
      }
      if 0 <= offset {
        OfferLimitedOnce(answers, tick, n - offset, xfer, limit, offset, 0);
      }
    }

    /** buffered_put_buffer. `ready` says that the client is told to go on. The ghost results say how the bytes
        moved. */
    method Put(b: seq<Byte>, pos: int)
      returns (ret: int, ready: bool, ghost flushed: seq<Byte>, ghost left: seq<Byte>, ghost direct: seq<Byte>)
      requires Valid()
      modifies this
      ensures Valid() && (old(zero) ==> zero) && limit == old(limit)
      ensures old(lastError) != 0 ==> ret == old(lastError) && accepted == old(accepted) && delivered == old(delivered)
      ensures ret == |b| || ret < 0
      ensures accepted == if old(lastError) == 0 && ret == |b| then old(accepted) + b else old(accepted)
      ensures old(lastError) == 0 && ret < 0 ==> lastError != 0 || zero
      ensures old(buffer) == flushed + left && direct <= b && delivered == old(delivered) + flushed + direct
      ensures old(lastError) == 0 ==>
                var f := Offer(answers, old(tick), |old(buffer)|);
                var g := DirectOffer(answers, old(tick) + f.calls, |b|, old(xfer), limit, Freezes(f));
                && |flushed| == f.taken && |direct| == g.taken && ret == (if Fails(g) then -EINVAL else |b|)
                && tick == old(tick) + f.calls + g.calls && xfer == old(xfer) + g.taken
                && freeze == (Freezes(f) || Freezes(g))
                && lastError == (if Fails(g) then g.stop.value else if Fails(f) then f.stop.value else 0)
                && zero == (old(zero) || f.stop == Some(0) || g.stop == Some(0))
      ensures old(lastError) == 0 ==> buffer == if ret == |b| then left + b[|direct|..] else left
      ensures old(lastError) == 0 && old(InOrder(delivered, buffer, accepted)) ==>
                (InOrder(delivered, buffer, accepted) <==>
                 PutInOrder(answers, old(tick), old(buffer), old(xfer), limit, b))
      ensures ready <==> old(lastError) == 0 && pos == 0 && b == [] && xfer <= limit
      ensures old(lastError) != 0 ==>
              && buffer == old(buffer) && xfer == old(xfer) && tick == old(tick) && freeze == old(freeze)
              && lastError == old(lastError)
    {
      hide Offer, OfferLimited, InOrder;
      ready := false;
      if lastError != 0 {
        return lastError, false, [], buffer, [];
      }
      freeze := false;
      ghost var sent := delivered;
      flushed := Flush();
      left := buffer;
      var offset;
      offset, direct := Direct(b);
      if offset >= 0 {
        Append(b[offset..]);
        accepted := accepted + b;
        assert b == direct + b[offset..];
        if InOrder(sent, flushed + left, old(accepted)) {
          PutKeepsOrder(sent, flushed, left, direct, b[offset..], old(accepted));
        }
        offset := |b|;
      } else if InOrder(sent, flushed + left, old(accepted)) {
        RefusedKeepsOrder(sent, flushed, left, direct, old(accepted));
      }
      assert left == old(buffer)[|flushed|..];
      if pos == 0 && b == [] {
        ready := xfer <= limit;
      }
      ret := offset;
    }

    /** buffered_rate_tick; ready says that the client is told to go on. With an error recorded the file is closed. */
    method RateTick() returns (ready: bool)
      requires Valid()
      modifies this
      ensures Valid() && (old(zero) ==> zero) && accepted == old(accepted)
      ensures ready == (old(lastError) == 0 && !old(freeze))
      ensures !ready ==> delivered == old(delivered) && buffer == old(buffer) && xfer == old(xfer)
      ensures !ready ==> lastError == old(lastError) && freeze == old(freeze) && tick == old(tick)
      ensures limit == old(limit)
      ensures ready ==>
                var o := Offer(answers, old(tick), |old(buffer)|);
                && xfer == 0 && delivered == old(delivered) + old(buffer)[..o.taken] && buffer == old(buffer)[o.taken..]
                && tick == old(tick) + o.calls && freeze == Freezes(o)
                && lastError == (if Fails(o) then o.stop.value else 0)
      ensures old(InOrder(delivered, buffer, accepted)) ==> InOrder(delivered, buffer, accepted)
    {
      hide Offer, InOrder;
      if lastError != 0 {
        var done := Close(0, _ => 0);
        return false;
      }
      if freeze {
        return false;
      }
      xfer := 0;
      ghost var sent := delivered;
      ghost var flushed := Flush();
      if InOrder(sent, flushed + buffer, accepted) {
        FlushKeepsOrder(sent, flushed, buffer, accepted);
      }
      assert flushed == old(buffer)[..|flushed|] && buffer == old(buffer)[|flushed|..];
      return true;
    }

    /** buffered_set_rate_limit. */
    method SetRateLimit(rate: nat) returns (r: nat)
      requires Valid()
      modifies this`limit
      ensures Valid() && r == limit
      ensures limit == if lastError != 0 then old(limit) else (if rate > SIZE_MAX then SIZE_MAX else rate) / 10
    {
      if lastError == 0 {
        limit := (if rate > SIZE_MAX then SIZE_MAX else rate) / 10;
      }
      r := limit;
    }

    /** The loop of buffered_close, for at most `rounds` waits; waitErrors(k) is the error wait k records, or 0. */
    method Close(rounds: nat, waitErrors: nat -> int) returns (done: bool)
      requires Valid() && forall k :: waitErrors(k) <= 0
      modifies this
      ensures Valid() && accepted == old(accepted)
      ensures done ==> lastError != 0 || buffer == []
      ensures done && lastError == 0 && !zero ==> delivered == accepted
      ensures !done ==> lastError == 0 && tick >= old(tick) + rounds
      ensures rounds == 0 || old(lastError) != 0 || old(buffer) == [] ==>
              && delivered == old(delivered) && buffer == old(buffer) && zero == old(zero)
              && lastError == old(lastError) && freeze == old(freeze) && tick == old(tick)
      ensures xfer == old(xfer) && limit == old(limit)
      ensures old(InOrder(delivered, buffer, accepted)) ==> InOrder(delivered, buffer, accepted)
    {
      hide Offer;
      var k := 0;
      while lastError == 0 && buffer != [] && k < rounds
        invariant Valid() && accepted == old(accepted) && k <= rounds && tick >= old(tick) + k && xfer == old(xfer)
        invariant k == 0 ==> delivered == old(delivered) && buffer == old(buffer) && zero == old(zero)
        invariant k == 0 ==> lastError == old(lastError) && freeze == old(freeze) && tick == old(tick)
        invariant k > 0 ==> old(lastError) == 0 && old(buffer) != []
        invariant limit == old(limit)
        invariant old(InOrder(delivered, buffer, accepted)) ==> InOrder(delivered, buffer, accepted)
        decreases rounds - k
      {
        ghost var sent := delivered;
        ghost var flushed := Flush();
        if InOrder(sent, flushed + buffer, accepted) {
          FlushKeepsOrder(sent, flushed, buffer, accepted);
        }
        if freeze && waitErrors(k) != 0 {
          lastError := waitErrors(k);
        }
        k := k + 1;
      }
      done := lastError != 0 || buffer == [];
      assert buffer == [] ==> delivered + buffer == delivered;
    }
  }

  lemma NotReadyOffer(answers: nat -> int, tick: nat, limit: nat)
    requires answers(tick) == -EAGAIN
    ensures Offer(answers, tick, 0) == Offered(0, 0, None)
    ensures OfferLimited(answers, tick, 1, 0, limit) == Offered(0, 1, Some(-EAGAIN))
  {
  }

  lemma ZeroOffer(answers: nat -> int, tick: nat, limit: nat)
    requires answers(tick) == 0 && answers(tick + 1) == 1
    ensures Offer(answers, tick, 1) == Offered(0, 1, Some(0))
    ensures OfferLimited(answers, tick + 1, 1, 0, limit) == Offered(1, 1, None)
  {
    assert OfferLimited(answers, tick + 2, 0, 1, limit) == Offered(0, 0, None);
  }

  /** The first put of the run: nothing goes out, and the byte is buffered. */
  method PutNotReady(f: Buffered, x: Byte)
    requires f.Valid() && f.lastError == 0 && f.buffer == [] && f.delivered == [] && f.accepted == [] && f.xfer == 0
    requires f.answers(f.tick) == -EAGAIN
    modifies f
    ensures f.Valid() && f.lastError == 0 && f.buffer == [x] && f.delivered == [] && f.accepted == [x] && f.xfer == 0
    ensures f.tick == old(f.tick) + 1
  {
    hide Offer, OfferLimited;
    NotReadyOffer(f.answers, f.tick, f.limit);
    var r, ready, flushed, left, direct := f.Put([x], 1);
    assert flushed == [] && direct == [] && left == [];
  }

  /** A run in which the order is lost without an error: the backend is not ready, then answers 0, then takes a byte. */
  method ZeroLetsPutOvertake(x: Byte, y: Byte) returns (f: Buffered)
    requires x != y
    ensures f.lastError == 0 && f.accepted == [x, y] && f.delivered == [y] && f.buffer == [x]
    ensures !InOrder(f.delivered, f.buffer, f.accepted)
  {
    hide Offer, OfferLimited;
    f := new Buffered(100, t => if t == 0 then -EAGAIN else if t == 1 then 0 else 1);
    PutNotReady(f, x);
    ZeroOffer(f.answers, 1, f.limit);
    var r, ready, flushed, left, direct := f.Put([y], 1);
    assert flushed == [] && left == [x] && direct == [y];
    assert (f.delivered + f.buffer)[0] == y;
  }
}
