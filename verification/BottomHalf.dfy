/** Bottom halves: a list polled re-entrantly, with deletion put off until no poll is under way (async.c). */
module BottomHalf {
  import opened Common
  import opened Wire

  /** A QEMUBH, named by the allocation it came from. */
  type Id = nat

  datatype Bh = Bh(scheduled: bool, idle: bool, deleted: bool)

  /** What is observed from outside. Scheduled is a call of schedule that took effect. */
  datatype Log = Scheduled(id: Id) | Cancelled(id: Id) | Deleted(id: Id) | Called(id: Id)

  /** One activation of qemu_bh_poll: the node it looks at next (or will, once the callback it is in returns), and,
      for the record, the nodes that were due when it began, those of them still due, and how long the log was. */
  datatype Frame = Frame(at: Option<Id>, calling: bool, wanted: set<Id>, due: set<Id>, start: nat)

  /** The list from first_bh on, the nodes not freed, the polls under way, innermost last, what was observed, and every
      name ever given out. */
  datatype State = State(list: seq<Id>, nodes: map<Id, Bh>, stack: seq<Frame>, log: seq<Log>, used: set<Id>)

  // ---- The list ----

  /** The part of the list that a pointer leads to. */
  function From(l: seq<Id>, at: Option<Id>): seq<Id> {
    if at.None? || l == [] then [] else if l[0] == at.value then l else From(l[1..], at)
  }

  /** bh->next. */
  function Next(l: seq<Id>, id: Id): Option<Id> {
    var f := From(l, Some(id));
    if |f| > 1 then Some(f[1]) else None
  }

  function First(l: seq<Id>): Option<Id> {
    if l == [] then None else Some(l[0])
  }

  lemma {:induction false} FromIs(l: seq<Id>, id: Id)
    requires id in l && Distinct(l)
    ensures From(l, Some(id)) != [] && From(l, Some(id))[0] == id
    ensures From(l, Next(l, id)) == From(l, Some(id))[1..]
    ensures Next(l, id).Some? ==> Next(l, id).value in l
  {
    if l[0] == id {
      if |l| > 1 {
        assert l[1] != l[0];
        assert From(l, Some(l[1])) == From(l[1..], Some(l[1]));
      } else {
        assert l[1..] == [];
      }
    } else {
      FromIs(l[1..], id);
      var next := Next(l, id);
      assert next == Next(l[1..], id);
      if next.Some? {
        assert next.value in l[1..] && next.value != l[0];
      }
    }
  }

  lemma FromNew(l: seq<Id>, id: Id, at: Option<Id>)
    requires at == None || at.value != id
    ensures From([id] + l, at) == From(l, at)
  {
    assert ([id] + l)[1..] == l;
  }

  /** Removing the deleted nodes. */
  function Kept(l: seq<Id>, nodes: map<Id, Bh>): seq<Id> {
    if l == [] then [] else (if l[0] in nodes && nodes[l[0]].deleted then [] else [l[0]]) + Kept(l[1..], nodes)
  }

  /** Exactly the nodes not deleted remain, in the order they had. */
  lemma {:induction false} KeptIs(l: seq<Id>, nodes: map<Id, Bh>, id: Id)
    ensures id in Kept(l, nodes) <==> id in l && !(id in nodes && nodes[id].deleted)
    ensures Distinct(l) ==> Distinct(Kept(l, nodes))
  {
    if l != [] {
      KeptIs(l[1..], nodes, id);
      if Distinct(l) {
        var k := Kept(l[1..], nodes);
        assert Distinct(l[1..]);
        KeptIs(l[1..], nodes, l[0]);
        assert l[0] !in l[1..];
      }
    }
  }

  // ---- The machine ----

  /** Actions of the program (at top level or inside a callback) and steps of the innermost poll. */
  datatype Event = New(id: Id) | Schedule(id: Id, idle: bool) | Cancel(id: Id) | Delete(id: Id) | Poll | Visit | Return

  /** The program runs at top level and inside callbacks. */
  predicate ProgramRuns(s: State) {
    s.stack == [] || s.stack[|s.stack| - 1].calling
  }

  predicate Enabled(s: State, e: Event) {
    match e
    case New(id) => ProgramRuns(s) && id !in s.used
    case Schedule(id, _) => ProgramRuns(s) && id in s.nodes
    case Cancel(id) => ProgramRuns(s) && id in s.nodes
    case Delete(id) => ProgramRuns(s) && id in s.nodes
    case Poll => ProgramRuns(s)
    case Visit => !ProgramRuns(s)
    case Return => s.stack != [] && ProgramRuns(s)
  }

  /** id is no longer due in any poll. */
  function Settle(stack: seq<Frame>, id: Id): (r: seq<Frame>)
    ensures |r| == |stack|
  {
    seq(|stack|, i requires 0 <= i < |stack| => stack[i].(due := stack[i].due - {id}))
  }

  function DueNow(s: State): set<Id> {
    set id | id in s.nodes && s.nodes[id].scheduled && !s.nodes[id].deleted
  }

  function Push(s: State): State {
    s.(stack := s.stack + [Frame(First(s.list), false, DueNow(s), DueNow(s), |s.log|)])
  }

  function Apply(s: State, e: Event): State
    requires Enabled(s, e)
  {
    match e
    case New(id) => s.(list := [id] + s.list, nodes := s.nodes[id := Bh(false, false, false)], used := s.used + {id})
    case Schedule(id, idle) =>
      if s.nodes[id].scheduled then s
      else s.(nodes := s.nodes[id := s.nodes[id].(scheduled := true, idle := idle)], log := s.log + [Scheduled(id)])
    case Cancel(id) =>
      s.(nodes := s.nodes[id := s.nodes[id].(scheduled := false)], log := s.log + [Cancelled(id)],
         stack := Settle(s.stack, id))
    case Delete(id) =>
      s.(nodes := s.nodes[id := s.nodes[id].(scheduled := false, deleted := true)], log := s.log + [Deleted(id)],
         stack := Settle(s.stack, id))
    case Poll => Push(s)
    case Visit => VisitTop(s)
    case Return => s.(stack := s.stack[..|s.stack| - 1] + [s.stack[|s.stack| - 1].(calling := false)])
  }

  /** One turn of the loop of the innermost poll, or its end. */
  function VisitTop(s: State): State
    requires s.stack != []
  {
    var below, f := s.stack[..|s.stack| - 1], s.stack[|s.stack| - 1];
    if f.at.None? then Leave(s.(stack := below))
    else
      var id := f.at.value;
      var next := Next(s.list, id);
      if id in s.nodes && !s.nodes[id].deleted && s.nodes[id].scheduled then
        s.(nodes := s.nodes[id := s.nodes[id].(scheduled := false, idle := false)],
           log := s.log + [Called(id)],
           stack := Settle(below + [f.(at := next, calling := true)], id))
      else s.(stack := below + [f.(at := next)])
  }

  /** The end of a poll: the outermost one unlinks and frees what was deleted. */
  function Leave(s: State): State {
    if s.stack != [] then s
    else s.(list := Kept(s.list, s.nodes), nodes := map id | id in s.nodes && !s.nodes[id].deleted :: s.nodes[id])
  }

  ghost predicate Runs(s: State, es: seq<Event>, t: State)
    decreases |es|
  {
    if es == [] then s == t else Enabled(s, es[0]) && Runs(Apply(s, es[0]), es[1..], t)
  }

  const EMPTY: State := State([], map[], [], [], {})

  // ---- Counting ----

  function Calls(log: seq<Log>, id: Id): nat {
    if log == [] then 0 else Calls(log[..|log| - 1], id) + if log[|log| - 1] == Called(id) then 1 else 0
  }

  function Schedules(log: seq<Log>, id: Id): nat {
    if log == [] then 0 else Schedules(log[..|log| - 1], id) + if log[|log| - 1] == Scheduled(id) then 1 else 0
  }

  ghost predicate NoCallAfterDelete(log: seq<Log>) {
    forall i, j :: 0 <= i < j < |log| && log[i].Deleted? ==> log[j] != Called(log[i].id)
  }

  ghost predicate SettledSince(log: seq<Log>, start: nat, id: Id) {
    exists k :: start <= k < |log| && (log[k] == Called(id) || log[k] == Cancelled(id) || log[k] == Deleted(id))
  }

  // ---- The invariant ----

  ghost predicate Linked(s: State) {
    && Distinct(s.list) && (forall id :: id in s.list <==> id in s.nodes)
    && (forall id :: id in s.nodes ==> id in s.used) && (forall k :: 0 <= k < |s.log| ==> s.log[k].id in s.used)
  }

  /** A poll's pointer leads into the list, what it has still to call lies ahead of it, and what it had to call has been
      called, cancelled or deleted since it began. */
  ghost predicate FrameOk(s: State, f: Frame) {
    && (f.at.Some? ==> f.at.value in s.list)
    && f.start <= |s.log|
    && (forall id :: id in f.due ==>
          id in From(s.list, f.at) && id in s.nodes && s.nodes[id].scheduled && !s.nodes[id].deleted)
    && (forall id :: id in f.wanted ==> id in f.due || SettledSince(s.log, f.start, id))
  }

  ghost predicate Nested(s: State) {
    forall i :: 0 <= i < |s.stack| - 1 ==> s.stack[i].calling
  }

  ghost predicate Counted(s: State) {
    && (forall id ::
          Calls(s.log, id) + (if id in s.nodes && s.nodes[id].scheduled then 1 else 0) <= Schedules(s.log, id))
    && (forall id :: id in s.nodes && Deleted(id) in s.log ==> s.nodes[id].deleted)
    && NoCallAfterDelete(s.log)
  }

  ghost predicate Inv(s: State) {
    Linked(s) && Nested(s) && Counted(s) && forall i :: 0 <= i < |s.stack| ==> FrameOk(s, s.stack[i])
  }

  lemma LinkedKeeps(s: State, e: Event)
    requires Inv(s) && Enabled(s, e)
    ensures Linked(Apply(s, e)) && Nested(Apply(s, e))
  {
    hide FrameOk, Counted, Next, Kept, From;
    if e.Visit? && s.stack[|s.stack| - 1].at.None? && |s.stack| == 1 {
      forall id ensures id in Kept(s.list, s.nodes) <==> id in s.list && !(id in s.nodes && s.nodes[id].deleted) {
        KeptIs(s.list, s.nodes, id);
      }
      KeptIs(s.list, s.nodes, 0);
    }
  }

  lemma CallsSnoc(log: seq<Log>, x: Log, id: Id)
    ensures Calls(log + [x], id) == Calls(log, id) + if x == Called(id) then 1 else 0
    ensures Schedules(log + [x], id) == Schedules(log, id) + if x == Scheduled(id) then 1 else 0
  {
    assert (log + [x])[..|log|] == log;
  }

  /** One more log entry. */
  lemma CountedSnoc(s: State, t: State, x: Log)
    requires Counted(s) && t.log == s.log + [x] && Linked(s)
    requires forall id :: id in t.nodes ==> id in s.nodes
    requires forall id :: id in t.nodes && id != x.id ==> t.nodes[id] == s.nodes[id]
    requires x.id in t.nodes && (s.nodes[x.id].deleted ==> t.nodes[x.id].deleted)
    requires match x
             case Scheduled(id) => t.nodes[id].scheduled && !s.nodes[id].scheduled
             case Called(id) => s.nodes[id].scheduled && !t.nodes[id].scheduled && !s.nodes[id].deleted
             case Cancelled(id) => !t.nodes[id].scheduled
             case Deleted(id) => !t.nodes[id].scheduled && t.nodes[id].deleted
    ensures Counted(t)
  {
    hide Linked, Calls, Schedules;
    forall id: Id
      ensures Calls(t.log, id) + (if id in t.nodes && t.nodes[id].scheduled then 1 else 0) <= Schedules(t.log, id)
    {
      CallsSnoc(s.log, x, id);
    }
    forall id | id in t.nodes && Deleted(id) in t.log ensures t.nodes[id].deleted {
      assert x == Deleted(id) || Deleted(id) in s.log;
    }
    forall i, j | 0 <= i < j < |t.log| && t.log[i].Deleted? ensures t.log[j] != Called(t.log[i].id) {
      if j == |s.log| {
        assert t.log[i] == s.log[i] && s.log[i] == Deleted(s.log[i].id);
      }
    }
  }

  lemma CountedKeeps(s: State, e: Event)
    requires Inv(s) && Enabled(s, e)
    ensures Counted(Apply(s, e))
  {
    hide FrameOk, Next, Kept, From, Calls, Schedules, NoCallAfterDelete;
    var t := Apply(s, e);
    match e
    case New(id) =>
      FreshUncounted(s, id);
    case Schedule(id, _) =>
      if !s.nodes[id].scheduled {
        CountedSnoc(s, t, Scheduled(id));
      }
    case Cancel(id) =>
      CountedSnoc(s, t, Cancelled(id));
    case Delete(id) =>
      CountedSnoc(s, t, Log.Deleted(id));
    case Visit =>
      var f := s.stack[|s.stack| - 1];
      if f.at.Some? && t.log != s.log {
        CountedSnoc(s, t, Called(f.at.value));
      }
    case _ =>
  }

  lemma FreshUncounted(s: State, id: Id)
    requires Linked(s) && id !in s.used
    ensures Log.Deleted(id) !in s.log
  {
    assert forall k :: 0 <= k < |s.log| ==> s.log[k].id != id;
  }

  // ---- Frames ----

  lemma SettledMore(log: seq<Log>, more: seq<Log>, start: nat, id: Id)
    requires SettledSince(log, start, id)
    ensures SettledSince(log + more, start, id)
  {
    var k :| start <= k < |log| && (log[k] == Called(id) || log[k] == Cancelled(id) || log[k] == Log.Deleted(id));
    assert (log + more)[k] == log[k];
  }

  /** A frame survives when node x is called, cancelled or deleted, once x is struck off. */
  lemma FrameSettled(s: State, t: State, f: Frame, x: Log)
    requires FrameOk(s, f) && t.list == s.list && t.log == s.log + [x] && !x.Scheduled?
    requires forall id :: id in s.nodes && id != x.id ==> id in t.nodes && t.nodes[id] == s.nodes[id]
    ensures FrameOk(t, f.(due := f.due - {x.id}))
  {
    hide From;
    var g := f.(due := f.due - {x.id});
    forall id | id in g.wanted ensures id in g.due || SettledSince(t.log, g.start, id) {
      if id == x.id {
        assert t.log[|s.log|] == x;
      } else if id !in f.due {
        SettledMore(s.log, [x], f.start, id);
      }
    }
  }

  /** A frame survives when something is scheduled, or nothing happens to the nodes it cares for. */
  lemma FrameSame(s: State, t: State, f: Frame, more: seq<Log>)
    requires FrameOk(s, f) && t.list == s.list && t.log == s.log + more
    requires forall id :: id in s.nodes && s.nodes[id].scheduled ==> id in t.nodes && t.nodes[id] == s.nodes[id]
    ensures FrameOk(t, f)
  {
    hide From;
    forall id | id in f.wanted ensures id in f.due || SettledSince(t.log, f.start, id) {
      if id !in f.due {
        SettledMore(s.log, more, f.start, id);
      }
    }
  }

  lemma FrameNew(s: State, f: Frame, id: Id)
    requires FrameOk(s, f) && Linked(s) && id !in s.used
    ensures FrameOk(Apply0(s, id), f)
  {
    hide From, SettledSince;
    FromNew(s.list, id, f.at);
  }

  ghost function Apply0(s: State, id: Id): State {
    s.(list := [id] + s.list, nodes := s.nodes[id := Bh(false, false, false)], used := s.used + {id})
  }

  /** The innermost poll moves past a node that it does not call, or has just called. */
  lemma FrameMoves(s: State, f: Frame, id: Id)
    requires FrameOk(s, f) && Linked(s) && f.at == Some(id) && id !in f.due
    ensures FrameOk(s, f.(at := Next(s.list, id)))
  {
    hide From, SettledSince, Next;
    FromIs(s.list, id);
    var rest := From(s.list, Some(id));
    forall x | x in f.due ensures x in From(s.list, Next(s.list, id)) {
      assert x in rest && x != rest[0];
    }
  }

  lemma FramePushed(s: State)
    requires Linked(s)
    ensures FrameOk(Push(s), Frame(First(s.list), false, DueNow(s), DueNow(s), |s.log|))
  {
  }

  lemma FramesKeep(s: State, e: Event, i: nat)
    requires Inv(s) && Enabled(s, e) && i < |Apply(s, e).stack|
    ensures FrameOk(Apply(s, e), Apply(s, e).stack[i])
  {
    hide FrameOk, Counted, Next, From, Kept, DueNow, First, VisitTop;
    var t := Apply(s, e);
    match e
    case New(id) =>
      FrameNew(s, s.stack[i], id);
    case Schedule(id, _) =>
      FrameSame(s, t, s.stack[i], if s.nodes[id].scheduled then [] else [Scheduled(id)]);
    case Cancel(id) =>
      FrameSettled(s, t, s.stack[i], Cancelled(id));
    case Delete(id) =>
      FrameSettled(s, t, s.stack[i], Log.Deleted(id));
    case Poll =>
      if i < |s.stack| {
        FrameSame(s, t, s.stack[i], []);
      } else {
        FramePushed(s);
      }
    case Visit =>
      FrameVisit(s, i);
    case Return =>
      FrameSame(s, t, s.stack[i], []);
      FrameCalling(t, s.stack[i], false);
  }

  lemma FrameCalling(s: State, f: Frame, c: bool)
    requires FrameOk(s, f)
    ensures FrameOk(s, f.(calling := c))
  {
    hide From, SettledSince;
  }

  lemma FrameVisit(s: State, i: nat)
    requires Inv(s) && !ProgramRuns(s) && i < |VisitTop(s).stack|
    ensures FrameOk(VisitTop(s), VisitTop(s).stack[i])
  {
    hide FrameOk, Counted, Next, From, Kept;
    var t, n := VisitTop(s), |s.stack| - 1;
    var f := s.stack[n];
    if f.at.None? {
      FrameSame(s, t, s.stack[i], []);
    } else {
      var id := f.at.value;
      PointerValid(s, f);
      if !s.nodes[id].deleted && s.nodes[id].scheduled {
        FrameSettled(s, t, s.stack[i], Called(id));
        if i == n {
          var g := f.(due := f.due - {id});
          FrameMoves(t, g, id);
          FrameCalling(t, g.(at := Next(s.list, id)), true);
        }
      } else {
        FrameSame(s, t, s.stack[i], []);
        if i == n {
          NotDue(s, f, id);
          FrameMoves(t, f, id);
        }
      }
    }
  }

  lemma PointerValid(s: State, f: Frame)
    requires Linked(s) && FrameOk(s, f)
    ensures f.at.Some? ==> f.at.value in s.list && f.at.value in s.nodes
  {
    hide From, SettledSince;
  }

  lemma NotDue(s: State, f: Frame, id: Id)
    requires FrameOk(s, f) && id in s.nodes && !(s.nodes[id].scheduled && !s.nodes[id].deleted)
    ensures id !in f.due
  {
    hide From, SettledSince;
  }

  lemma StepKeeps(s: State, e: Event)
    requires Inv(s) && Enabled(s, e)
    ensures Inv(Apply(s, e))
  {
    hide FrameOk, Counted, Apply, Linked, Nested;
    LinkedKeeps(s, e);
    CountedKeeps(s, e);
    var t := Apply(s, e);
    forall i | 0 <= i < |t.stack| ensures FrameOk(t, t.stack[i]) {
      FramesKeep(s, e, i);
    }
  }

  /** The invariant holds in every state that any program, with any nesting of polls, can reach. */
  lemma {:induction false} RunKeeps(s: State, es: seq<Event>, t: State)
    requires Inv(s) && Runs(s, es, t)
    ensures Inv(t)
    decreases |es|
  {
    hide Inv, Apply, Enabled;
    if es != [] {
      StepKeeps(s, es[0]);
      RunKeeps(Apply(s, es[0]), es[1..], t);
    }
  }

  lemma InvEmpty()
    ensures Inv(EMPTY)
  {
  }

  /** While a poll is under way, the node it looks at or will look at next is in the list and not freed. */
  lemma HeldNodesStay(es: seq<Event>, t: State, i: nat)
    requires Runs(EMPTY, es, t) && i < |t.stack|
    ensures t.stack[i].at.Some? ==> t.stack[i].at.value in t.list && t.stack[i].at.value in t.nodes
  {
    hide FrameOk, Counted, Runs;
    InvEmpty();
    RunKeeps(EMPTY, es, t);
    PointerValid(t, t.stack[i]);
  }

  /** A node is called at most once per effective schedule, and never after it was deleted. */
  lemma OneCallPerSchedule(es: seq<Event>, t: State, id: Id)
    requires Runs(EMPTY, es, t)
    ensures Calls(t.log, id) <= Schedules(t.log, id)
    ensures forall i, j :: 0 <= i < j < |t.log| && t.log[i] == Log.Deleted(id) ==> t.log[j] != Called(id)
  {
    hide FrameOk, Linked, Nested, Runs, Calls, Schedules;
    InvEmpty();
    RunKeeps(EMPTY, es, t);
  }

  /** A poll does not end before every node that was scheduled when it began has been called, cancelled or deleted. */
  lemma PollMissesNothing(es: seq<Event>, t: State, id: Id)
    requires Runs(EMPTY, es, t) && !ProgramRuns(t) && t.stack[|t.stack| - 1].at.None?
    ensures var f := t.stack[|t.stack| - 1]; id in f.wanted ==> SettledSince(t.log, f.start, id)
  {
    hide Counted, Linked, Nested, Runs, SettledSince;
    InvEmpty();
    RunKeeps(EMPTY, es, t);
    assert FrameOk(t, t.stack[|t.stack| - 1]);
  }

  /** When the outermost poll returns, exactly the nodes not deleted are left, in their order; an inner poll unlinks
      nothing. */
  lemma OutermostSweeps(es: seq<Event>, t: State)
    requires Runs(EMPTY, es, t) && !ProgramRuns(t) && t.stack[|t.stack| - 1].at.None?
    ensures var u := Apply(t, Visit);
            if |t.stack| > 1 then u.list == t.list && u.nodes == t.nodes
            else
              && u.stack == [] && (forall id :: id in u.nodes <==> id in u.list)
              && (forall id :: id in u.list <==> id in t.list && id in t.nodes && !t.nodes[id].deleted)
              && InOrderOf(u.list, t.list)
  {
    hide FrameOk, Counted, Nested, Runs, Kept;
    InvEmpty();
    RunKeeps(EMPTY, es, t);
    StepKeeps(t, Visit);
    if |t.stack| == 1 {
      forall id ensures id in Kept(t.list, t.nodes) <==> id in t.list && !(id in t.nodes && t.nodes[id].deleted) {
        KeptIs(t.list, t.nodes, id);
      }
      KeptOrder(t.list, t.nodes);
    }
  }

  /** a is b with some elements left out. */
  ghost predicate InOrderOf(a: seq<Id>, b: seq<Id>) {
    if a == [] then true
    else b != [] && (if a[0] == b[0] then InOrderOf(a[1..], b[1..]) else InOrderOf(a, b[1..]))
  }

  lemma {:induction false} KeptOrder(l: seq<Id>, nodes: map<Id, Bh>)
    ensures InOrderOf(Kept(l, nodes), l)
  {
    if l != [] {
      KeptOrder(l[1..], nodes);
      var k := Kept(l[1..], nodes);
      if l[0] in nodes && nodes[l[0]].deleted {
        assert Kept(l, nodes) == k;
        KeptKept(l[1..], nodes);
      } else {
        assert Kept(l, nodes) == [l[0]] + k && ([l[0]] + k)[1..] == k;
      }
    }
  }

  /** No kept element is a deleted one. */
  lemma {:induction false} KeptKept(l: seq<Id>, nodes: map<Id, Bh>)
    ensures Kept(l, nodes) != [] ==> !(Kept(l, nodes)[0] in nodes && nodes[Kept(l, nodes)[0]].deleted)
  {
    if l != [] {
      KeptKept(l[1..], nodes);
    }
  }

  // ---- From the history alone ----

  /** The bottom half whose callback a step enters. */
  function CallOf(s: State, e: Event): Option<Id>
    requires Enabled(s, e)
  {
    if !e.Visit? then None
    else
      var t := Apply(s, e);
      if |t.stack| == |s.stack| && t.stack[|t.stack| - 1].calling then s.stack[|s.stack| - 1].at else None
  }

  /** Whether a call of id is owed, and if so whether it was asked for as idle: a schedule that finds none owed makes
      one, and the call, a cancellation or a deletion ends it. */
  function OwedNext(e: Event, called: Option<Id>, id: Id, owed: Option<bool>): Option<bool> {
    match e
    case Schedule(j, idle) => if j == id && owed.None? then Some(idle) else owed
    case Cancel(j) => if j == id then None else owed
    case Delete(j) => if j == id then None else owed
    case Visit => if called == Some(id) then None else owed
    case _ => owed
  }

  ghost function Owed(s: State, es: seq<Event>, id: Id, owed: Option<bool>): Option<bool>
    decreases |es|
  {
    if es == [] || !Enabled(s, es[0]) then owed
    else Owed(Apply(s, es[0]), es[1..], id, OwedNext(es[0], CallOf(s, es[0]), id, owed))
  }

  /** The flags of a node say what the history says. */
  ghost predicate FlagsTell(s: State, id: Id, owed: Option<bool>, deleted: bool) {
    && (id in s.nodes ==>
          && (s.nodes[id].scheduled <==> owed.Some?) && (owed.Some? ==> s.nodes[id].idle == owed.value)
          && (s.nodes[id].deleted <==> deleted))
    && (id !in s.used ==> owed.None? && !deleted)
  }

  lemma FlagsStep(s: State, e: Event, id: Id, owed: Option<bool>, deleted: bool)
    requires Inv(s) && Enabled(s, e) && FlagsTell(s, id, owed, deleted)
    ensures FlagsTell(Apply(s, e), id, OwedNext(e, CallOf(s, e), id, owed), deleted || e == Delete(id))
  {
    hide FrameOk, Counted, Next, Kept, From, DueNow;
  }

  lemma {:induction false} FlagsRun(s: State, es: seq<Event>, t: State, id: Id, owed: Option<bool>, deleted: bool)
    requires Inv(s) && Runs(s, es, t) && FlagsTell(s, id, owed, deleted)
    ensures FlagsTell(t, id, Owed(s, es, id, owed), deleted || Delete(id) in es)
    decreases |es|
  {
    hide Inv, Apply, Enabled, FlagsTell, OwedNext, CallOf;
    if es != [] {
      StepKeeps(s, es[0]);
      FlagsStep(s, es[0], id, owed, deleted);
      var more := deleted || es[0] == Delete(id);
      FlagsRun(Apply(s, es[0]), es[1..], t, id, OwedNext(es[0], CallOf(s, es[0]), id, owed), more);
      assert es == [es[0]] + es[1..];
    }
  }

  /** In every run, whether a poll that comes to a node calls it, and whether that counts for what it returns, follows
      from the history of schedules, cancellations, deletions and calls alone. */
  lemma CallsAreOwed(es: seq<Event>, t: State, id: Id)
    requires Runs(EMPTY, es, t) && !ProgramRuns(t) && t.stack[|t.stack| - 1].at == Some(id)
    ensures CallOf(t, Visit) == Some(id) <==> Owed(EMPTY, es, id, None).Some? && Delete(id) !in es
    ensures Busy(t, |t.stack|) <==> Owed(EMPTY, es, id, None) == Some(false) && Delete(id) !in es
  {
    hide Runs, Owed, Inv, Next, Kept;
    InvEmpty();
    FlagsRun(EMPTY, es, t, id, None, false);
    HeldNodesStay(es, t, |t.stack| - 1);
  }

  /** In the run es from s, id is called, cancelled or deleted. */
  ghost predicate Happens(s: State, es: seq<Event>, id: Id)
    decreases |es|
  {
    es != [] && Enabled(s, es[0]) &&
    (es[0] == Cancel(id) || es[0] == Delete(id) || CallOf(s, es[0]) == Some(id) ||
     Happens(Apply(s, es[0]), es[1..], id))
  }

  lemma StepLogs(s: State, e: Event)
    requires Enabled(s, e)
    ensures var t := Apply(s, e);
            && (t.log == s.log || (|t.log| == |s.log| + 1 && t.log[..|s.log|] == s.log))
            && (t.log != s.log ==>
                  match t.log[|s.log|]
                  case Scheduled(_) => true
                  case Cancelled(id) => e == Cancel(id)
                  case Deleted(id) => e == Delete(id)
                  case Called(id) => CallOf(s, e) == Some(id))
  {
    hide Next, Kept, DueNow;
  }

  lemma {:induction false} LogTells(s: State, es: seq<Event>, t: State, id: Id)
    requires Runs(s, es, t)
    ensures |s.log| <= |t.log| && t.log[..|s.log|] == s.log
    ensures SettledSince(t.log, |s.log|, id) ==> Happens(s, es, id)
    decreases |es|
  {
    hide Apply, Enabled, CallOf;
    if es != [] {
      var s1 := Apply(s, es[0]);
      StepLogs(s, es[0]);
      LogTells(s1, es[1..], t, id);
      assert t.log[..|s.log|] == t.log[..|s1.log|][..|s.log|];
      if SettledSince(t.log, |s.log|, id) && !SettledSince(t.log, |s1.log|, id) {
        var k :| |s.log| <= k < |t.log| &&
                 (t.log[k] == Called(id) || t.log[k] == Cancelled(id) || t.log[k] == Deleted(id));
        assert k == |s.log| && t.log[k] == t.log[..|s1.log|][k];
      }
    }
  }

  /** The run never leaves the n outermost polls. */
  ghost predicate Stays(s: State, es: seq<Event>, n: nat)
    decreases |es|
  {
    |s.stack| >= n && (es != [] && Enabled(s, es[0]) ==> Stays(Apply(s, es[0]), es[1..], n))
  }

  lemma {:induction false} FrameStays(s: State, es: seq<Event>, t: State, n: nat)
    requires Runs(s, es, t) && Stays(s, es, n + 1)
    ensures n < |s.stack| && n < |t.stack|
    ensures t.stack[n].wanted == s.stack[n].wanted && t.stack[n].start == s.stack[n].start
    decreases |es|
  {
    hide Apply;
    if es != [] {
      StepStays(s, es[0], n);
      FrameStays(Apply(s, es[0]), es[1..], t, n);
    }
  }

  lemma StepStays(s: State, e: Event, n: nat)
    requires Enabled(s, e) && n < |s.stack| && n < |Apply(s, e).stack|
    ensures var f, g := s.stack[n], Apply(s, e).stack[n]; g.wanted == f.wanted && g.start == f.start
  {
    hide Next, Kept, DueNow, First;
  }

  /** Whatever a poll finds scheduled when it begins is called, cancelled or deleted before it ends, however its
      callbacks nest further polls. */
  lemma PollServes(before: seq<Event>, s: State, es: seq<Event>, t: State, id: Id)
    requires Runs(EMPTY, before, s) && ProgramRuns(s) && id in s.nodes && s.nodes[id].scheduled && !s.nodes[id].deleted
    requires Runs(Apply(s, Poll), es, t) && Stays(Apply(s, Poll), es, |s.stack| + 1)
    requires |t.stack| == |s.stack| + 1 && !ProgramRuns(t) && t.stack[|s.stack|].at.None?
    ensures Happens(Apply(s, Poll), es, id)
  {
    hide Runs, Stays, Inv, Happens, SettledSince, Next, Kept;
    var s1 := Apply(s, Poll);
    RunsSnoc(EMPTY, before, s, Poll);
    RunsAppend(EMPTY, before + [Poll], s1, es, t);
    PollMissesNothing(before + [Poll] + es, t, id);
    FrameStays(s1, es, t, |s.stack|);
    LogTells(s1, es, t, id);
  }

  // ---- What a poll returns ----

  /** The next turn of the poll at that depth calls a bottom half that is not idle. */
  ghost predicate Busy(s: State, depth: nat) {
    && s.stack != [] && |s.stack| == depth && s.stack[depth - 1].at.Some?
    && var id := s.stack[depth - 1].at.value;
       id in s.nodes && !s.nodes[id].deleted && s.nodes[id].scheduled && !s.nodes[id].idle
  }

  /** In the run es from s the poll at that depth calls one. */
  ghost predicate CallsBusy(s: State, es: seq<Event>, depth: nat)
    decreases |es|
  {
    es != [] && Enabled(s, es[0]) &&
    ((es[0].Visit? && Busy(s, depth)) || CallsBusy(Apply(s, es[0]), es[1..], depth))
  }

  lemma {:induction false} CallsAppend(s: State, a: seq<Event>, t: State, b: seq<Event>, depth: nat)
    requires Runs(s, a, t)
    ensures CallsBusy(s, a + b, depth) <==> CallsBusy(s, a, depth) || CallsBusy(t, b, depth)
    decreases |a|
  {
    hide Apply, Enabled, Busy;
    if a == [] {
      assert a + b == b;
    } else {
      assert (a + b)[1..] == a[1..] + b;
      CallsAppend(Apply(s, a[0]), a[1..], t, b, depth);
    }
  }

  lemma {:induction false} RunsAppend(s: State, a: seq<Event>, t: State, b: seq<Event>, u: State)
    requires Runs(s, a, t) && Runs(t, b, u)
    ensures Runs(s, a + b, u)
    decreases |a|
  {
    hide Apply, Enabled;
    if a == [] {
      assert a + b == b;
    } else {
      assert (a + b)[1..] == a[1..] + b;
      RunsAppend(Apply(s, a[0]), a[1..], t, b, u);
    }
  }

  /** The run es leads from s to t; ret says whether the poll at that depth called a bottom half that was not idle, and
      no poll further out called one. */
  ghost predicate Tells(s: State, es: seq<Event>, t: State, depth: nat, ret: bool) {
    && Runs(s, es, t) && (CallsBusy(s, es, depth) <==> ret)
    && forall k :: 0 <= k < depth ==> !CallsBusy(s, es, k)
  }

  lemma TellsNothing(s: State, depth: nat)
    ensures Tells(s, [], s, depth, false)
  {
  }

  lemma TellsStep(s: State, es: seq<Event>, t: State, depth: nat, ret: bool, e: Event)
    requires Tells(s, es, t, depth, ret) && Enabled(t, e) && (e.Visit? ==> |t.stack| >= depth)
    ensures Tells(s, es + [e], Apply(t, e), depth, ret || (e.Visit? && Busy(t, depth)))
  {
    hide Runs, Apply, Enabled;
    RunsSnoc(s, es, t, e);
    forall k ensures CallsBusy(s, es + [e], k) <==> CallsBusy(s, es, k) || (e.Visit? && Busy(t, k)) {
      CallsAppend(s, es, t, [e], k);
      assert [e][1..] == [];
    }
  }

  lemma TellsOne(s: State, depth: nat, e: Event)
    requires Enabled(s, e) && !e.Visit?
    ensures Tells(s, [e], Apply(s, e), depth, false)
  {
    hide Tells, Enabled, Apply;
    TellsNothing(s, depth);
    TellsStep(s, [], s, depth, false, e);
    assert [] + [e] == [e];
  }

  lemma TellsThen(s: State, a: seq<Event>, t: State, b: seq<Event>, u: State, depth: nat, ret: bool, inner: nat,
                  more: bool)
    requires Tells(s, a, t, depth, ret) && Tells(t, b, u, inner, more) && depth <= inner
    ensures Tells(s, a + b, u, depth, ret || (inner == depth && more))
  {
    hide Runs, CallsBusy;
    RunsAppend(s, a, t, b, u);
    forall k ensures CallsBusy(s, a + b, k) <==> CallsBusy(s, a, k) || CallsBusy(t, b, k) {
      CallsAppend(s, a, t, b, k);
    }
  }

  // ---- What callbacks leave alone ----

  /** The n outermost polls stand where they stood. */
  ghost predicate Below(s: State, t: State, n: nat) {
    && n <= |s.stack| && n <= |t.stack|
    && forall i :: 0 <= i < n ==> t.stack[i].at == s.stack[i].at && t.stack[i].calling == s.stack[i].calling
  }

  /** The list has grown at its front only. */
  ghost predicate GrownFront(l: seq<Id>, m: seq<Id>) {
    |l| <= |m| && m[|m| - |l|..] == l
  }

  lemma {:induction false} FromAdded(pre: seq<Id>, l: seq<Id>, at: Option<Id>)
    requires at.Some? ==> at.value !in pre
    ensures From(pre + l, at) == From(l, at)
  {
    hide From;
    if pre == [] {
      assert pre + l == l;
    } else {
      assert pre + l == [pre[0]] + (pre[1..] + l);
      FromNew(pre[1..] + l, pre[0], at);
      FromAdded(pre[1..], l, at);
    }
  }

  lemma FromGrown(l: seq<Id>, m: seq<Id>, at: Option<Id>)
    requires GrownFront(l, m) && Distinct(m) && (at.Some? ==> at.value in l)
    ensures From(m, at) == From(l, at)
  {
    hide From;
    var pre := m[..|m| - |l|];
    assert m == pre + l;
    if at.Some? {
      var i :| 0 <= i < |l| && l[i] == at.value;
      assert m[|pre| + i] == at.value;
    }
    FromAdded(pre, l, at);
  }

  lemma GrownTwice(l: seq<Id>, m: seq<Id>, n: seq<Id>)
    requires GrownFront(l, m) && GrownFront(m, n)
    ensures GrownFront(l, n)
  {
    assert n[|n| - |l|..] == n[|n| - |m|..][|m| - |l|..];
  }

  /** What the program does in a callback: an operation on a bottom half it still has, or a poll, whose own callbacks
      then do what the plan says, in turn. */
  datatype Act = NewBh | ScheduleBh(id: Id, idle: bool) | CancelBh(id: Id) | DeleteBh(id: Id) | PollBhs(plan: seq<Body>)

  datatype Body = Body(acts: seq<Act>)

  // ---- async.c itself ----

  /** first_bh with its nodes, the static nesting count, and a bound on the names given out. The C locals of the polls
      under way are passed in and out; the ghost fields say which state of the machine this is and how it was
      reached. */
  class Context {
    var list: seq<Id>
    var nodes: map<Id, Bh>
    var nesting: nat
    var nextId: nat
    ghost var view: State
    ghost var trace: seq<Event>

    ghost predicate Valid()
      reads this
    {
      && Inv(view) && Runs(EMPTY, trace, view)
      && view.list == list && view.nodes == nodes && |view.stack| == nesting
      && forall id :: id in view.used ==> id < nextId
    }

    constructor ()
      ensures Valid() && view == EMPTY
    {
      list, nodes, nesting, nextId, view, trace := [], map[], 0, 0, EMPTY, [];
      new;
      InvEmpty();
    }

    ghost method Record(e: Event)
      requires Inv(view) && Runs(EMPTY, trace, view) && Enabled(view, e)
      modifies this`view, this`trace
      ensures view == Apply(old(view), e) && Inv(view) && Runs(EMPTY, trace, view)
    {
      hide Inv, Apply, Enabled, EMPTY;
      RunsSnoc(EMPTY, trace, view, e);
      StepKeeps(view, e);
      view, trace := Apply(view, e), trace + [e];
    }

    /** qemu_bh_new; id is the node malloc returns. */
    method BhNew(id: Id)
      requires Valid() && Enabled(view, New(id))
      modifies this
      ensures Valid() && view == Apply(old(view), New(id))
      ensures list == [id] + old(list) && nodes == old(nodes)[id := Bh(false, false, false)] && nesting == old(nesting)
    {
      hide Inv, Runs;
      list := [id] + list;
      nodes := nodes[id := Bh(false, false, false)];
      nextId := if id < nextId then nextId else id + 1;
      Record(New(id));
    }

    /** qemu_bh_schedule and qemu_bh_schedule_idle. */
    method BhSchedule(id: Id, idle: bool)
      requires Valid() && Enabled(view, Schedule(id, idle))
      modifies this
      ensures Valid() && view == Apply(old(view), Schedule(id, idle)) && list == old(list) && nesting == old(nesting)
      ensures nodes == if old(nodes)[id].scheduled then old(nodes)
                       else old(nodes)[id := Bh(true, idle, old(nodes)[id].deleted)]
    {
      hide Inv, Runs;
      if !nodes[id].scheduled {
        nodes := nodes[id := nodes[id].(scheduled := true, idle := idle)];
      }
      Record(Schedule(id, idle));
    }

    method BhCancel(id: Id)
      requires Valid() && Enabled(view, Cancel(id))
      modifies this
      ensures Valid() && view == Apply(old(view), Cancel(id)) && list == old(list) && nesting == old(nesting)
      ensures nodes == old(nodes)[id := Bh(false, old(nodes)[id].idle, old(nodes)[id].deleted)]
    {
      hide Inv, Runs;
      nodes := nodes[id := nodes[id].(scheduled := false)];
      Record(Cancel(id));
    }

    method BhDelete(id: Id)
      requires Valid() && Enabled(view, Delete(id))
      modifies this
      ensures Valid() && view == Apply(old(view), Delete(id)) && list == old(list) && nesting == old(nesting)
      ensures nodes == old(nodes)[id := Bh(false, old(nodes)[id].idle, true)]
    {
      hide Inv, Runs;
      nodes := nodes[id := nodes[id].(scheduled := false, deleted := true)];
      Record(Delete(id));
    }

    /** qemu_bh_poll up to its loop; bh is the local of that name. */
    method PollBegin() returns (bh: Option<Id>)
      requires Valid() && ProgramRuns(view)
      modifies this
      ensures Valid() && view == Apply(old(view), Poll) && bh == view.stack[|view.stack| - 1].at
    {
      hide Inv, Runs, DueNow;
      nesting := nesting + 1;
      bh := First(list);
      Record(Poll);
    }

    /** The callback of the innermost poll returns. */
    ghost method PollResume()
      requires Valid() && Enabled(view, Return)
      modifies this`view, this`trace
      ensures Valid() && view == Apply(old(view), Return)
    {
      hide Inv, Runs;
      Record(Return);
    }

    /** The loop of qemu_bh_poll from node bh0, up to the next callback (called, with the local `next`) or to the end of
        the poll. ret says whether that callback was not idle. */
    method PollRun(bh0: Option<Id>) returns (next: Option<Id>, called: Option<Id>, ret: bool, ghost es: seq<Event>)
      requires Valid() && !ProgramRuns(view) && view.stack[|view.stack| - 1].at == bh0
      modifies this
      ensures Valid() && Tells(old(view), es, view, |old(view.stack)|, ret)
      ensures Below(old(view), view, |old(view.stack)| - 1)
      ensures called.Some? ==> |view.stack| == |old(view.stack)| && ProgramRuns(view)
      ensures called.Some? ==> view.stack[|view.stack| - 1].at == next && list == old(list)
      ensures called.Some? ==> |From(list, next)| < |From(old(list), bh0)|
      ensures called.Some? ==> called.value in old(nodes) && old(nodes)[called.value].scheduled
      ensures called.Some? ==> ret == !old(nodes)[called.value].idle
      ensures called.None? ==> |view.stack| == |old(view.stack)| - 1 && !ret && (view.stack != [] ==> list == old(list))
      ensures view.log == old(view.log) + if called.Some? then [Called(called.value)] else []
    {
      hide Inv, Runs, Next, Tells, From;
      var bh := bh0;
      ghost var s, depth := view, |view.stack|;
      next, called, ret, es := None, None, false, [];
      TellsNothing(s, depth);
      while bh.Some?
        invariant Valid() && !ProgramRuns(view) && view.stack[|view.stack| - 1].at == bh && |view.stack| == depth
        invariant nodes == old(nodes) && list == old(list) && view.log == old(view.log)
        invariant Tells(s, es, view, depth, false) && Below(s, view, depth - 1)
        invariant |From(list, bh)| <= |From(list, bh0)|
        decreases |From(list, bh)|
      {
        TopPointer(view);
        var id := bh.value;
        next := Next(list, id);
        PointerMoves(view, id);
        TellsStep(s, es, view, depth, false, Visit);
        es := es + [Visit];
        if !nodes[id].deleted && nodes[id].scheduled {
          ret := !nodes[id].idle;
          nodes := nodes[id := nodes[id].(scheduled := false, idle := false)];
          Record(Visit);
          called := Some(id);
          return;
        }
        Record(Visit);
        bh := next;
      }
      TellsStep(s, es, view, depth, false, Visit);
      es := es + [Visit];
      PollEnd();
    }

    /** qemu_bh_poll after its loop. */
    method PollEnd()
      requires Valid() && !ProgramRuns(view) && view.stack[|view.stack| - 1].at.None?
      modifies this
      ensures Valid() && view == Apply(old(view), Visit)
      ensures |view.stack| == |old(view.stack)| - 1 && Below(old(view), view, |view.stack|)
      ensures view.log == old(view.log) && (view.stack != [] ==> list == old(list))
    {
      hide Inv, Runs;
      nesting := nesting - 1;
      InvLinked(view);
      if nesting == 0 {
        Sweep();
      }
      Record(Visit);
    }

    /** One thing the program does. */
    method Perform(act: Act) returns (ghost es: seq<Event>)
      requires Valid() && ProgramRuns(view) && view.stack != []
      modifies this
      ensures Valid() && |view.stack| == |old(view.stack)| && Below(old(view), view, |view.stack|)
      ensures GrownFront(old(list), list) && Tells(old(view), es, view, |view.stack|, false)
      decreases act, 0
    {
      hide Inv, Runs, Tells, GrownFront;
      ghost var s, depth := view, |view.stack|;
      TellsNothing(s, depth);
      es := [];
      SameFront(list);
      match act {
        case NewBh =>
          es := [New(nextId)];
          TellsOne(s, depth, New(nextId));
          NewFront(list, nextId);
          BhNew(nextId);
        case ScheduleBh(id, idle) =>
          if id in nodes {
            es := [Schedule(id, idle)];
            TellsOne(s, depth, Schedule(id, idle));
            BhSchedule(id, idle);
          }
        case CancelBh(id) =>
          if id in nodes {
            es := [Cancel(id)];
            TellsOne(s, depth, Cancel(id));
            BhCancel(id);
          }
        case DeleteBh(id) =>
          if id in nodes {
            es := [Delete(id)];
            TellsOne(s, depth, Delete(id));
            BhDelete(id);
          }
        case PollBhs(plan) =>
          var ret, more := BhPoll(plan);
          TellsThen(s, [], s, more, view, depth, false, depth + 1, ret);
          assert [] + more == more;
          es := more;
      }
    }

    /** A callback runs. */
    method Callback(body: Body) returns (ghost es: seq<Event>)
      requires Valid() && ProgramRuns(view) && view.stack != []
      modifies this
      ensures Valid() && |view.stack| == |old(view.stack)| && Below(old(view), view, |view.stack|)
      ensures GrownFront(old(list), list) && Tells(old(view), es, view, |view.stack|, false)
      decreases body, 0
    {
      hide Inv, Runs, Tells, GrownFront;
      ghost var s, depth := view, |view.stack|;
      TellsNothing(s, depth);
      SameFront(list);
      es := [];
      for i := 0 to |body.acts|
        invariant Valid() && |view.stack| == depth && Below(s, view, depth)
        invariant GrownFront(old(list), list) && Tells(s, es, view, depth, false)
      {
        ghost var t, l := view, list;
        var more := Perform(body.acts[i]);
        TellsThen(s, es, t, more, view, depth, false, depth, false);
        GrownTwice(old(list), l, list);
        es := es + more;
      }
    }

    /** qemu_bh_poll, with callbacks that do what the plan says (and nothing once it is used up). It comes back to where
        it was called, and it returns true exactly when it called a bottom half that was not idle; what polls inside
        its callbacks called does not count. */
    method BhPoll(plan: seq<Body>) returns (ret: bool, ghost es: seq<Event>)
      requires Valid() && ProgramRuns(view)
      modifies this
      ensures Valid() && |view.stack| == |old(view.stack)| && Below(old(view), view, |view.stack|)
      ensures view.stack != [] ==> GrownFront(old(list), list)
      ensures Tells(old(view), es, view, |view.stack| + 1, ret)
      decreases plan, 0
    {
      hide Inv, Runs, Tells, GrownFront, From;
      ghost var s, depth := view, |view.stack| + 1;
      TellsOne(s, depth, Poll);
      SameFront(list);
      var bh := PollBegin();
      es := [Poll];
      ret := false;
      var k := 0;
      while true
        invariant Valid() && |view.stack| == depth && !ProgramRuns(view) && view.stack[depth - 1].at == bh
        invariant Below(s, view, depth - 1) && GrownFront(old(list), list) && Tells(s, es, view, depth, ret)
        decreases |From(list, bh)|
      {
        ghost var t, l := view, list;
        var next, called, busy, more := PollRun(bh);
        TellsThen(s, es, t, more, view, depth, ret, depth, busy);
        es := es + more;
        ret := ret || busy;
        if called.None? {
          break;
        }
        t, l := view, list;
        TopPointer(view);
        if k < |plan| {
          more := Callback(plan[k]);
          TellsThen(s, es, t, more, view, depth, ret, depth, false);
          es := es + more;
          GrownTwice(old(list), l, list);
          FromFront(view, l, list, next);
          k := k + 1;
        }
        TellsStep(s, es, view, depth, ret, Return);
        es := es + [Return];
        PollResume();
        bh := next;
      }
    }

    static lemma SameFront(l: seq<Id>)
      ensures GrownFront(l, l)
    {
    }

    static lemma NewFront(l: seq<Id>, id: Id)
      ensures GrownFront(l, [id] + l)
    {
    }

    static lemma FromFront(s: State, l: seq<Id>, m: seq<Id>, at: Option<Id>)
      requires Inv(s) && s.list == m && GrownFront(l, m) && (at.Some? ==> at.value in l)
      ensures From(m, at) == From(l, at)
    {
      hide FrameOk, Counted, From, GrownFront;
      FromGrown(l, m, at);
    }

    /** The loop that unlinks deleted nodes. */
    method Sweep()
      requires forall id :: id in list <==> id in nodes
      requires Distinct(list)
      modifies this`list, this`nodes
      ensures list == Kept(old(list), old(nodes))
      ensures nodes == map id | id in old(nodes) && !old(nodes)[id].deleted :: old(nodes)[id]
    {
      hide Kept, Distinct, Swept;
      ghost var l0, n0 := list, nodes;
      var i := 0;
      SweptBegins(list, nodes);
      while i < |list|
        invariant 0 <= i <= |list| && Swept(l0, n0, list, nodes, i)
        decreases |list| - i
      {
        SweptStep(l0, n0, list, nodes, i);
        var id := list[i];
        if nodes[id].deleted {
          list := list[..i] + list[i + 1..];
          nodes := nodes - {id};
        } else {
          i := i + 1;
        }
      }
      SweptDone(l0, n0, list, nodes);
    }
  }

  /** Where the unlinking loop stands: the first i nodes stay, the rest is still to be looked at. */
  ghost predicate Swept(l0: seq<Id>, n0: map<Id, Bh>, l: seq<Id>, n: map<Id, Bh>, i: nat) {
    && i <= |l| && Distinct(l) && l[..i] + Kept(l[i..], n0) == Kept(l0, n0)
    && (forall id :: id in n ==> id in n0 && n[id] == n0[id])
    && (forall id :: id in l <==> id in n)
    && (forall k :: 0 <= k < i ==> l[k] in n && !n[l[k]].deleted)
    && (forall id :: id in n0 && id !in n ==> n0[id].deleted)
  }

  lemma SweptBegins(l: seq<Id>, n: map<Id, Bh>)
    requires Distinct(l) && forall id :: id in l <==> id in n
    ensures Swept(l, n, l, n, 0)
  {
    hide Kept;
    assert l[0..] == l && l[..0] == [];
    assert [] + Kept(l, n) == Kept(l, n);
  }

  lemma SweptStep(l0: seq<Id>, n0: map<Id, Bh>, l: seq<Id>, n: map<Id, Bh>, i: nat)
    requires Swept(l0, n0, l, n, i) && i < |l|
    ensures l[i] in n
    ensures n[l[i]].deleted ==> Swept(l0, n0, l[..i] + l[i + 1..], n - {l[i]}, i)
    ensures !n[l[i]].deleted ==> Swept(l0, n0, l, n, i + 1)
  {
    hide Kept, Distinct;
    if n[l[i]].deleted {
      SweptDrop(l0, n0, l, n, i);
    } else {
      SweptStay(l, n0, i);
    }
  }

  lemma SweptStay(l: seq<Id>, n0: map<Id, Bh>, i: nat)
    requires i < |l| && !(l[i] in n0 && n0[l[i]].deleted)
    ensures l[..i + 1] + Kept(l[i + 1..], n0) == l[..i] + Kept(l[i..], n0)
  {
    hide Kept;
    KeptHead(l, i, n0);
    assert l[..i + 1] == l[..i] + [l[i]];
  }

  lemma SweptDrop(l0: seq<Id>, n0: map<Id, Bh>, l: seq<Id>, n: map<Id, Bh>, i: nat)
    requires Swept(l0, n0, l, n, i) && i < |l| && l[i] in n && n[l[i]].deleted
    ensures Swept(l0, n0, l[..i] + l[i + 1..], n - {l[i]}, i)
  {
    hide Kept, Distinct;
    var m, n' := l[..i] + l[i + 1..], n - {l[i]};
    Unlink(l, i);
    UnlinkKeeps(l, i, n);
    KeptHead(l, i, n0);
    assert m[..i] == l[..i] && m[i..] == l[i + 1..];
    assert [] + Kept(l[i + 1..], n0) == Kept(l[i + 1..], n0);
  }

  lemma KeptHead(l: seq<Id>, i: nat, n: map<Id, Bh>)
    requires i < |l|
    ensures Kept(l[i..], n) == (if l[i] in n && n[l[i]].deleted then [] else [l[i]]) + Kept(l[i + 1..], n)
  {
    assert l[i..][0] == l[i] && l[i..][1..] == l[i + 1..];
  }

  lemma Unlink(l: seq<Id>, i: nat)
    requires i < |l| && Distinct(l)
    ensures var m := l[..i] + l[i + 1..]; Distinct(m) && forall id :: id in m <==> id in l && id != l[i]
  {
    var m := l[..i] + l[i + 1..];
    forall id ensures id in m <==> id in l && id != l[i] {
      if id in l && id != l[i] {
        var k :| 0 <= k < |l| && l[k] == id;
        assert m[if k < i then k else k - 1] == id;
      }
    }
  }

  lemma UnlinkKeeps(l: seq<Id>, i: nat, n: map<Id, Bh>)
    requires i < |l| && Distinct(l) && forall k :: 0 <= k < i ==> l[k] in n && !n[l[k]].deleted
    ensures var m := l[..i] + l[i + 1..]; forall k :: 0 <= k < i ==> m[k] in n - {l[i]} && !n[m[k]].deleted
  {
  }

  lemma SweptDone(l0: seq<Id>, n0: map<Id, Bh>, l: seq<Id>, n: map<Id, Bh>)
    requires Swept(l0, n0, l, n, |l|)
    ensures l == Kept(l0, n0) && n == map id | id in n0 && !n0[id].deleted :: n0[id]
  {
    hide Distinct;
    assert l[|l|..] == [] && l[..|l|] == l;
    forall id | id in n ensures !n0[id].deleted {
      var k :| 0 <= k < |l| && l[k] == id;
    }
  }

  lemma InvLinked(s: State)
    requires Inv(s)
    ensures Distinct(s.list) && forall id :: id in s.list <==> id in s.nodes
  {
    hide FrameOk, Counted;
  }

  lemma TopPointer(s: State)
    requires Inv(s) && s.stack != []
    ensures var f := s.stack[|s.stack| - 1]; f.at.Some? ==> f.at.value in s.list && f.at.value in s.nodes
  {
    hide FrameOk, Counted;
    PointerValid(s, s.stack[|s.stack| - 1]);
  }

  lemma PointerMoves(s: State, id: Id)
    requires Inv(s) && id in s.list
    ensures |From(s.list, Next(s.list, id))| < |From(s.list, Some(id))|
  {
    hide FrameOk, Counted, Next, From;
    FromIs(s.list, id);
  }

  lemma {:induction false} RunsSnoc(s: State, es: seq<Event>, t: State, e: Event)
    requires Runs(s, es, t) && Enabled(t, e)
    ensures Runs(s, es + [e], Apply(t, e))
    decreases |es|
  {
    hide Enabled, Apply;
    if es == [] {
      assert es + [e] == [e] && [e][1..] == [];
    } else {
      assert (es + [e])[1..] == es[1..] + [e];
      RunsSnoc(Apply(s, es[0]), es[1..], t, e);
    }
  }
}
