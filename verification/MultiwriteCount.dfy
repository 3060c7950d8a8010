/** Counting the completions of a batch of writes (block.c, bdrv_aio_multiwrite and multiwrite_cb). */
module MultiwriteCount {
  import opened Common
  import opened Iovec
  import opened MultiwriteMerge

  /** Where bdrv_aio_multiwrite stands. Early is the return of -1, Ended the return of 0. */
  datatype Phase = Loop(i: nat) | Calling(i: nat) | Closing | Ended | Early

  /** One user callback: which one, and the error it got. */
  datatype Call = Call(index: nat, error: int)

  /** A MultiwriteCB with everything that happens around it. `outstanding` counts writes the driver has
      taken and not yet reported, `misused` says that the structure was touched after it was freed. */
  datatype State = State(phase: Phase, total: nat, callbacks: nat,
                         num: int, error: int, ran: seq<Call>, freed: bool,
                         outstanding: nat, misused: bool)

  /** The state after the dummy request is counted, before the first submission. */
  function Begun(total: nat, callbacks: nat): State {
    State(Loop(0), total, callbacks, 1, 0, [], false, 0, false)
  }

  function AllCalls(n: nat, error: int): seq<Call> {
    seq(n, k requires 0 <= k < n => Call(k, error))
  }

  /** multiwrite_cb. */
  function Callback(s: State, ret: int): State {
    var error := if ret < 0 && s.error == 0 then ret else s.error;
    var t := s.(error := error, num := s.num - 1, misused := s.misused || s.freed);
    if t.num == 0 then t.(ran := t.ran + AllCalls(t.callbacks, t.error), freed := true) else t
  }

  /** Begin: count request i and call bdrv_aio_writev. Accept, Reject: its answer. Complete: a write the
      driver took reports. Finish: the dummy request completes. */
  datatype Event = Begin | Accept | Reject | Complete(ret: int) | Finish

  predicate Enabled(s: State, e: Event) {
    match e
    case Begin => s.phase.Loop? && s.phase.i < s.total
    case Accept => s.phase.Calling?
    case Reject => s.phase.Calling?
    case Complete(_) => s.outstanding > 0
    case Finish => s.phase.Closing? || (s.phase.Loop? && s.phase.i == s.total)
  }

  function Apply(s: State, e: Event): State
    requires Enabled(s, e)
  {
    match e
    case Begin => s.(num := s.num + 1, phase := Calling(s.phase.i), misused := s.misused || s.freed)
    case Accept => s.(outstanding := s.outstanding + 1, phase := Loop(s.phase.i + 1))
    case Reject =>
      if s.phase.i == 0 then s.(phase := Early, freed := true, misused := s.misused || s.freed)
      else Callback(s, -EIO).(phase := Closing)
    case Complete(ret) => Callback(s, ret).(outstanding := s.outstanding - 1)
    case Finish => Callback(s, 0).(phase := Ended)
  }

  /** es is a possible run from s to t: any interleaving of submissions and completions. */
  ghost predicate Runs(s: State, es: seq<Event>, t: State)
    decreases |es|
  {
    if es == [] then s == t else Enabled(s, es[0]) && Runs(Apply(s, es[0]), es[1..], t)
  }

  function FirstNegative(rs: seq<int>): int {
    if rs == [] then 0 else if rs[0] < 0 then rs[0] else FirstNegative(rs[1..])
  }

  /** Everything is over: the batch was submitted and every write taken has reported. */
  predicate Over(s: State) {
    s.phase.Ended? && s.outstanding == 0
  }

  ghost predicate Inv(s: State) {
    && !s.misused
    && (s.phase.Loop? ==> s.phase.i <= s.total) && (s.phase.Calling? ==> s.phase.i < s.total)
    && s.num == s.outstanding + (if s.phase.Loop? || s.phase.Calling? || s.phase.Closing? then 1 else 0)
                + (if s.phase.Calling? then 1 else 0)
                + (if s.phase.Early? then 2 else 0)
    && (s.phase == Loop(0) || s.phase == Calling(0) || s.phase.Early? ==> s.outstanding == 0)
    && (s.freed <==> Over(s) || s.phase.Early?)
    && s.ran == if Over(s) then AllCalls(s.callbacks, s.error) else []
  }

  lemma InvBegins(total: nat, callbacks: nat)
    ensures Inv(Begun(total, callbacks))
  {
  }

  lemma StepKeeps(s: State, e: Event)
    requires Inv(s) && Enabled(s, e)
    ensures Inv(Apply(s, e)) && Apply(s, e).total == s.total && Apply(s, e).callbacks == s.callbacks
  {
    hide AllCalls;
    assert [] + AllCalls(s.callbacks, Apply(s, e).error) == AllCalls(s.callbacks, Apply(s, e).error);
  }

  lemma {:induction false} RunKeeps(s: State, es: seq<Event>, t: State)
    requires Inv(s) && Runs(s, es, t)
    ensures Inv(t) && t.total == s.total && t.callbacks == s.callbacks
    decreases |es|
  {
    if es != [] {
      StepKeeps(s, es[0]);
      RunKeeps(Apply(s, es[0]), es[1..], t);
    }
  }

  /** How often user callback k was called. */
  function Times(ran: seq<Call>, k: nat): nat {
    if ran == [] then 0 else (if ran[0].index == k then 1 else 0) + Times(ran[1..], k)
  }

  lemma {:induction false} TimesOfAll(ran: seq<Call>, from: nat, error: int, k: nat)
    requires forall i :: 0 <= i < |ran| ==> ran[i] == Call(from + i, error)
    ensures Times(ran, k) == if from <= k < from + |ran| then 1 else 0
    decreases |ran|
  {
    if ran != [] {
      TimesOfAll(ran[1..], from + 1, error, k);
    }
  }

  /** What one event reports, given how many writes were submitted before it: the value of a completion, and -EIO for a
      refusal that is not of the first write. */
  function Said(e: Event, taken: nat): seq<int> {
    match e
    case Complete(ret) => [ret]
    case Reject => if taken > 0 then [-EIO] else []
    case _ => []
  }

  /** What the events of a run report, in order. */
  function Reported(es: seq<Event>, taken: nat): seq<int> {
    if es == [] then [] else Said(es[0], taken) + Reported(es[1..], if es[0].Accept? then taken + 1 else taken)
  }

  /** Writes submitted so far, while that matters. */
  function Submitted(phase: Phase): nat {
    if phase.Loop? || phase.Calling? then phase.i else 1
  }

  lemma {:induction false} FirstNegativeAppend(a: seq<int>, b: seq<int>)
    ensures FirstNegative(a + b) == if FirstNegative(a) != 0 then FirstNegative(a) else FirstNegative(b)
  {
    if a == [] {
      assert a + b == b;
    } else {
      assert (a + b)[1..] == a[1..] + b;
      FirstNegativeAppend(a[1..], b);
    }
  }

  lemma StepError(s: State, e: Event)
    requires Enabled(s, e)
    ensures Apply(s, e).error == if s.error != 0 then s.error else FirstNegative(Said(e, Submitted(s.phase)))
  {
    hide AllCalls;
  }

  lemma StepSubmitted(s: State, e: Event)
    requires Enabled(s, e)
    ensures var t := Apply(s, e);
            || Submitted(t.phase) == (if e.Accept? then Submitted(s.phase) + 1 else Submitted(s.phase))
            || t.phase.Early? || t.phase.Closing? || t.phase.Ended?
  {
    hide AllCalls;
  }

  /** The error kept is the first negative value reported. */
  lemma {:induction false} ErrorIsFirst(s: State, es: seq<Event>, t: State)
    requires Runs(s, es, t)
    ensures t.error == if s.error != 0 then s.error else FirstNegative(Reported(es, Submitted(s.phase)))
    decreases |es|
  {
    hide Apply, Enabled, Said, FirstNegative, Submitted;
    if es == [] {
      assert FirstNegative([]) == 0 by { NoNegative(); }
    } else {
      var s1 := Apply(s, es[0]);
      var taken := if es[0].Accept? then Submitted(s.phase) + 1 else Submitted(s.phase);
      ErrorIsFirst(s1, es[1..], t);
      StepError(s, es[0]);
      StepSubmitted(s, es[0]);
      if Submitted(s1.phase) != taken {
        NoMoreSubmits(s1, es[1..], t);
        assert Reported(es[1..], taken) == Reported(es[1..], Submitted(s1.phase));
      }
      FirstNegativeAppend(Said(es[0], Submitted(s.phase)), Reported(es[1..], taken));
    }
  }

  lemma NoNegative()
    ensures FirstNegative([]) == 0
  {
  }

  /** After a refusal nothing is submitted, so the number submitted does not matter. */
  lemma {:induction false} NoMoreSubmits(s: State, es: seq<Event>, t: State)
    requires Runs(s, es, t) && (s.phase.Early? || s.phase.Closing? || s.phase.Ended?)
    ensures forall a, b :: Reported(es, a) == Reported(es, b)
    decreases |es|
  {
    hide AllCalls;
    if es != [] {
      NoMoreSubmits(Apply(s, es[0]), es[1..], t);
      assert !es[0].Accept? && !es[0].Reject?;
    }
  }

  /** In every run, no callback is called before submission has ended and every write has reported; then each is
      called exactly once, with the first negative value the writes reported (-EIO standing for a refused one), else 0,
      and nothing touches the structure afterwards. */
  lemma EachCallbackOnce(total: nat, callbacks: nat, es: seq<Event>, t: State)
    requires Runs(Begun(total, callbacks), es, t)
    ensures !t.misused
    ensures forall k :: 0 <= k < callbacks ==> Times(t.ran, k) == if Over(t) then 1 else 0
    ensures forall i :: 0 <= i < |t.ran| ==> t.ran[i].index < callbacks
    ensures forall i :: 0 <= i < |t.ran| ==> t.ran[i].error == FirstNegative(Reported(es, 0))
    ensures t.phase.Early? ==> t.ran == [] && forall e :: !Enabled(t, e)
    ensures Over(t) ==> forall e :: !Enabled(t, e)
  {
    InvBegins(total, callbacks);
    RunKeeps(Begun(total, callbacks), es, t);
    ErrorIsFirst(Begun(total, callbacks), es, t);
    forall k: nat | 0 <= k < callbacks ensures Times(t.ran, k) == if Over(t) then 1 else 0 {
      TimesOfAll(t.ran, 0, t.error, k);
    }
  }

  /** The count is right at every moment: one per write not yet reported, one per submission whose answer is
      not in, and the dummy. */
  lemma CountIsOutstanding(total: nat, callbacks: nat, es: seq<Event>, t: State)
    requires Runs(Begun(total, callbacks), es, t) && !t.phase.Early?
    ensures t.num == t.outstanding + (if t.phase.Calling? then 1 else 0) + (if t.phase.Ended? then 0 else 1)
    ensures t.num == 0 <==> Over(t)
  {
    InvBegins(total, callbacks);
    RunKeeps(Begun(total, callbacks), es, t);
  }

  /** From every reachable state the batch can be brought to its end, however many writes are still out. */
  lemma {:induction false} AlwaysEnds(s: State) returns (es: seq<Event>, t: State)
    requires Inv(s)
    ensures Runs(s, es, t) && (Over(t) || t.phase.Early?)
    decreases s.total - (if s.phase.Loop? || s.phase.Calling? then s.phase.i else s.total),
              s.phase.Loop?, !s.phase.Ended?, s.outstanding
  {
    if Over(s) || s.phase.Early? {
      es, t := [], s;
    } else {
      var e := match s.phase
        case Loop(i) => if i < s.total then Begin else Finish
        case Calling(i) => Accept
        case Closing => Finish
        case Ended => Complete(0)
        case Early => Finish;
      StepKeeps(s, e);
      var rest;
      rest, t := AlwaysEnds(Apply(s, e));
      es := [e] + rest;
      assert es[1..] == rest;
    }
  }

  /** What the driver and the event loop do around one submission: whether it is taken, and the results of
      writes that report before the next one is tried. */
  datatype Answer = Answer(accept: bool, reports: seq<int>)

  /** The MultiwriteCB of the source; the ghost fields watch it from outside. */
  class Batch {
    var error: int
    var num: int
    var callbacks: seq<int>
    var ran: seq<Call>
    var freed: bool
    ghost var view: State
    ghost var trace: seq<Event>
    var outstanding: nat

    ghost predicate Valid()
      reads this
    {
      && Inv(view) && Runs(Begun(view.total, view.callbacks), trace, view)
      && view.error == error && view.num == num && view.callbacks == |callbacks| && view.ran == ran
      && view.freed == freed
      && view.outstanding == outstanding
    }

    constructor (cookies: seq<int>, ghost total: nat)
      ensures Valid() && view == Begun(total, |cookies|) && callbacks == cookies
    {
      error, num, callbacks, ran, freed, outstanding := 0, 1, cookies, [], false, 0;
      view, trace := Begun(total, |cookies|), [];
      new;
      InvBegins(total, |cookies|);
    }

    /** multiwrite_cb on the real fields. */
    method MultiwriteCb(ret: int)
      requires Valid() && !freed
      modifies this`error, this`num, this`ran, this`freed
      ensures var s := Callback(old(view), ret); error == s.error && num == s.num && ran == s.ran && freed == s.freed
      ensures error == (if old(error) == 0 && ret < 0 then ret else old(error)) && num == old(num) - 1
      ensures num != 0 ==> ran == old(ran) && freed == old(freed)
      ensures num == 0 ==> freed && |ran| == |old(ran)| + |callbacks| && old(ran) <= ran
      ensures num == 0 ==> forall k :: 0 <= k < |callbacks| ==> ran[|old(ran)| + k] == Call(k, error)
    {
      if ret < 0 && error == 0 {
        error := ret;
      }
      num := num - 1;
      if num == 0 {
        UserCb();
        freed := true;
      }
    }

    /** multiwrite_user_cb. */
    method UserCb()
      modifies this`ran
      ensures ran == old(ran) + AllCalls(|callbacks|, error)
    {
      for i := 0 to |callbacks|
        invariant ran == old(ran) + AllCalls(i, error)
      {
        ran := ran + [Call(i, error)];
        assert AllCalls(i + 1, error) == AllCalls(i, error) + [Call(i, error)];
      }
    }

    ghost method Record(e: Event)
      requires Inv(view) && Runs(Begun(view.total, view.callbacks), trace, view) && Enabled(view, e)
      modifies this`view, this`trace
      ensures view == Apply(old(view), e) && trace == old(trace) + [e]
      ensures Inv(view) && Runs(Begun(view.total, view.callbacks), trace, view)
    {
      RunsSnoc(Begun(view.total, view.callbacks), trace, view, e);
      StepKeeps(view, e);
      view, trace := Apply(view, e), trace + [e];
    }

    /** A write the driver took reports. */
    method Report(ret: int)
      requires Valid() && outstanding > 0
      modifies this
      ensures Valid() && view == Apply(old(view), Complete(ret)) && callbacks == old(callbacks)
      ensures trace == old(trace) + [Complete(ret)] && outstanding == old(outstanding) - 1
      ensures error == if old(error) == 0 && ret < 0 then ret else old(error)
    {
      MultiwriteCb(ret);
      outstanding := outstanding - 1;
      Record(Complete(ret));
    }

    method Reports(rets: seq<int>)
      requires Valid()
      modifies this
      ensures Valid() && view.phase == old(view.phase) && view.total == old(view.total) && callbacks == old(callbacks)
      ensures var k := if |rets| < old(outstanding) then |rets| else old(outstanding);
              && outstanding == old(outstanding) - k
              && error == if old(error) != 0 then old(error) else FirstNegative(rets[..k])
    {
      for i := 0 to |rets|
        invariant Valid() && view.phase == old(view.phase) && view.total == old(view.total)
        invariant callbacks == old(callbacks)
        invariant var k := if i < old(outstanding) then i else old(outstanding);
                  && outstanding == old(outstanding) - k
                  && error == if old(error) != 0 then old(error) else FirstNegative(rets[..k])
      {
        if outstanding > 0 {
          FirstNegativeAppend(rets[..i], [rets[i]]);
          assert [rets[i]][1..] == [];
          assert rets[..i + 1] == rets[..i] + [rets[i]];
          Report(rets[i]);
        }
      }
      assert rets[..|rets|] == rets;
    }

    /** The error is the first negative value reported since the batch was made. */
    lemma ErrorIs()
      requires Valid()
      ensures error == FirstNegative(Reported(trace, 0))
    {
      ErrorIsFirst(Begun(view.total, view.callbacks), trace, view);
    }

    /** The dummy request completes. */
    method Finish()
      requires Valid() && Enabled(view, Event.Finish)
      modifies this
      ensures Valid() && view == Apply(old(view), Event.Finish) && view.phase.Ended? && callbacks == old(callbacks)
      ensures error == old(error) && trace == old(trace) + [Event.Finish]
    {
      MultiwriteCb(0);
      Record(Event.Finish);
    }

    /** bdrv_aio_writev refuses request i. */
    method Refused(i: nat)
      requires Valid() && view.phase == Calling(i)
      modifies this
      ensures Valid() && view == Apply(old(view), Reject) && trace == old(trace) + [Reject]
      ensures callbacks == old(callbacks) && outstanding == old(outstanding)
      ensures if i == 0 then error == old(error) && freed && num == old(num)
              else error == (if old(error) == 0 then -EIO else old(error)) && num == old(num) - 1
    {
      hide AllCalls;
      if i == 0 {
        freed := true;
      } else {
        MultiwriteCb(-EIO);
      }
      Record(Reject);
    }

    /** One turn of the submission loop; stop says that the loop is left, early that nothing was submitted. */
    method Submit(i: nat, answer: Answer) returns (stop: bool)
      requires Valid() && view.phase == Loop(i) && i < view.total
      modifies this
      ensures Valid() && view.total == old(view.total) && callbacks == old(callbacks)
      ensures stop == !answer.accept
      ensures view.phase == if answer.accept then Loop(i + 1) else if i == 0 then Early else Closing
      ensures !answer.accept ==> trace == old(trace) + [Begin, Reject] && outstanding == old(outstanding)
      ensures !answer.accept && i == 0 ==> error == old(error) && freed && num == old(num) + 1
      ensures !answer.accept && i > 0 ==> error == (if old(error) == 0 then -EIO else old(error)) && num == old(num)
      ensures answer.accept ==>
              var k := if |answer.reports| < old(outstanding) + 1 then |answer.reports| else old(outstanding) + 1;
              && outstanding == old(outstanding) + 1 - k
              && error == if old(error) != 0 then old(error) else FirstNegative(answer.reports[..k])
    {
      hide AllCalls, FirstNegative;
      num := num + 1;
      Record(Begin);
      if !answer.accept {
        Refused(i);
        assert old(trace) + [Begin] + [Reject] == old(trace) + [Begin, Reject];
        return true;
      }
      outstanding := outstanding + 1;
      Record(Accept);
      Reports(answer.reports);
      return false;
    }
  }

  lemma {:induction false} RunsSnoc(s: State, es: seq<Event>, t: State, e: Event)
    requires Runs(s, es, t) && Enabled(t, e)
    ensures Runs(s, es + [e], Apply(t, e))
    decreases |es|
  {
    hide Enabled, Apply;
    if es == [] {
      assert es + [e] == [e] && [e][1..] == [];
    } else {
      assert (es + [e])[1..] == es[1..] + [e];
      RunsSnoc(Apply(s, es[0]), es[1..], t, e);
    }
  }

  /** Set the error of the first num requests. */
  method FailAll(reqs: array<BlockRequest>, num: nat, error: int)
    requires num <= reqs.Length
    modifies reqs
    ensures forall k :: 0 <= k < num ==> reqs[k] == old(reqs[k]).(error := error)
    ensures reqs[num..] == old(reqs[num..])
  {
    for i := 0 to num
      invariant forall k :: 0 <= k < i ==> reqs[k] == old(reqs[k]).(error := error)
      invariant forall k :: i <= k < reqs.Length ==> reqs[k] == old(reqs[k])
    {
      reqs[i] := reqs[i].(error := error);
    }
  }

  method Cookies(reqs: array<BlockRequest>, num: nat) returns (cs: seq<int>)
    requires num <= reqs.Length
    ensures |cs| == num && forall k :: 0 <= k < num ==> cs[k] == reqs[k].cookie
  {
    cs := [];
    for i := 0 to num
      invariant |cs| == i && forall k :: 0 <= k < i ==> cs[k] == reqs[k].cookie
    {
      cs := cs + [reqs[i].cookie];
    }
  }

  /** How many of the first n answers are taken before one is refused. */
  function Taken(answers: seq<Answer>, n: nat): (k: nat)
    ensures k <= n
  {
    if n == 0 || answers == [] || !answers[0].accept then 0 else 1 + Taken(answers[1..], n - 1)
  }

  /** The submission loop over n merged requests. */
  method SubmitAll(batch: Batch, reqs: array<BlockRequest>, n: nat, answers: seq<Answer>)
    returns (submitted: seq<Write>, early: bool)
    requires batch.Valid() && batch.view == Begun(n, |batch.callbacks|) && 0 < n <= reqs.Length && n <= |answers|
    modifies batch
    ensures batch.Valid() && batch.callbacks == old(batch.callbacks) && batch.view.total == n
    ensures submitted == Writes(reqs[..Taken(answers, n)])
    ensures early == !answers[0].accept
    ensures if early then batch.view.phase.Early? else Enabled(batch.view, Finish)
  {
    submitted, early := [], false;
    var i := 0;
    assert answers[0..] == answers;
    while i < n
      invariant 0 <= i <= n && batch.Valid() && batch.callbacks == old(batch.callbacks) && batch.view.total == n
      invariant !early && (i > 0 ==> answers[0].accept)
      invariant batch.view.phase == Loop(i) && submitted == Writes(reqs[..i])
      invariant Taken(answers, n) == i + Taken(answers[i..], n - i)
    {
      assert answers[i..][0] == answers[i] && answers[i..][1..] == answers[i + 1..];
      var stop := batch.Submit(i, answers[i]);
      if stop {
        early := i == 0;
        return;
      }
      submitted := submitted + [reqs[i].write];
      assert reqs[..i + 1] == reqs[..i] + [reqs[i]];
      i := i + 1;
    }
  }

  /** bdrv_aio_multiwrite. drv says whether there is a medium; order, hook and answers are the choices of
      qsort, the driver and the event loop. */
  method AioMultiwrite(drv: bool, hook: Hook, reqs: array<BlockRequest>, num: nat, order: seq<BlockRequest>,
                       answers: seq<Answer>)
    returns (ret: int, submitted: seq<Write>, batch: Batch?)
    requires num == |order| <= reqs.Length && num <= |answers| && Permutes(order, reqs[..num])
    requires Sorted(Writes(order)) && AllValid(Writes(order))
    modifies reqs
    ensures ret == if !drv || (num > 0 && !answers[0].accept) then -1 else 0
    ensures !drv ==> submitted == [] && forall k :: 0 <= k < num ==> reqs[k] == old(reqs[k]).(error := -ENOMEDIUM)
    ensures drv && num > 0 ==>
              && batch != null && fresh(batch) && batch.Valid() && |batch.callbacks| == num
              && (forall k :: 0 <= k < num ==> batch.callbacks[k] == old(reqs[k].cookie))
              && var m := Merged(hook, Writes(order));
                 submitted == m[..Taken(answers, |m|)]
    ensures drv && num > 0 && ret == -1 ==>
            batch.view.phase.Early? && forall k :: 0 <= k < num ==> reqs[k].error == -EIO
    ensures drv && num > 0 && ret == 0 ==> batch.view.phase.Ended? && SameOwners(reqs[..num], order)
    ensures drv && num > 0 ==> batch.error == FirstNegative(Reported(batch.trace, 0))
    ensures reqs[num..] == old(reqs[num..])
  {
    hide Merged, Sorted, AllValid, Permutes, Inv, Runs, Apply, Enabled, Taken, Reported, FirstNegative, SameOwners,
         Begun;
    batch, submitted := null, [];
    if !drv {
      FailAll(reqs, num, -ENOMEDIUM);
      return -1, [], null;
    }
    if num == 0 {
      return 0, [], null;
    }
    var cookies := Cookies(reqs, num);
    var n := MergeRequests(hook, reqs, num, order);
    batch := new Batch(cookies, n);
    var early;
    submitted, early := SubmitAll(batch, reqs, n, answers);
    if early {
      FailAll(reqs, num, -EIO);
      batch.ErrorIs();
      return -1, submitted, batch;
    }
    batch.Finish();
    batch.ErrorIs();
    return 0, submitted, batch;
  }
}
