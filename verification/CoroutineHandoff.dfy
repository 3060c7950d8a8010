/** Coroutines on threads: handing control over with a lock and a condition variable (coroutine-gthread.c), driven by
    enter, yield and the end of the entry function (qemu-coroutine.c). */
module CoroutineHandoff {
  import opened Common
  import opened Wire

  type Id = nat

  /** CoroutineAction; a new coroutine has neither value. */
  datatype Action = Unset | Yield | Terminate

  datatype Why = Entering | Yielding | Ending

  function ActionOf(why: Why): Action {
    if why.Ending? then Terminate else Yield
  }

  /** Where a coroutine's thread is. `peer` is the coroutine it switched to, None before its first turn.
      Switching: called qemu_coroutine_switch, does not have the lock yet. Checking: has the lock and tests `runnable`.
      Sleeping: inside the condition wait. Waking: woken, does not have the lock yet. Returning: gave up the lock, about
      to read its action. Reaping: in qemu_coroutine_delete, joining peer's thread. Leaving: handed its turn on for good
      and gave up the lock, but has still to read its action and return. Gone: the thread has ended. */
  datatype Pc =
    | Born
    | Running
    | Switching(peer: Id, why: Why)
    | Checking(from: Option<Id>)
    | Sleeping(from: Option<Id>)
    | Waking(from: Option<Id>)
    | Returning(peer: Id)
    | Reaping(peer: Id)
    | Leaving
    | Gone

  predicate Waits(pc: Pc) {
    pc.Born? || pc.Checking? || pc.Sleeping? || pc.Waking?
  }

  /** The coroutine's entry function has returned. */
  predicate Over(pc: Pc) {
    pc.Leaving? || pc.Gone?
  }

  /** The coroutine a waiting thread switched to. */
  function WaitsFor(pc: Pc): Option<Id> {
    if pc.Checking? || pc.Sleeping? || pc.Waking? then pc.from else None
  }

  datatype Co = Co(pc: Pc, runnable: bool, action: Action, caller: Option<Id>)

  /** One call of qemu_coroutine_switch that took effect. */
  datatype Switch = Switch(source: Id, target: Id, act: Action)

  /** All coroutines, who holds the lock, the latest switch and, for the record, the coroutines that have entered one
      another: the leader first, the one whose turn it is last. */
  datatype State = State(leader: Id, cos: map<Id, Co>, lock: Option<Id>, last: Option<Switch>, chain: seq<Id>)

  function Started(leader: Id): State {
    State(leader, map[leader := Co(Running, true, Unset, None)], None, None, [leader])
  }

  datatype Event =
    | Create(c: Id, d: Id)
    | Enter(c: Id, d: Id)
    | YieldBack(c: Id)
    | Finish(c: Id)
    | DoSwitch(c: Id)
    | Lock(c: Id)
    | Test(c: Id)
    | Wake(c: Id)
    | Resume(c: Id)
    | Exit(c: Id)
    | Reap(c: Id)

  function PcOf(s: State, c: Id): Pc {
    if c in s.cos then s.cos[c].pc else Gone
  }

  function SetPc(s: State, c: Id, pc: Pc): State {
    if c in s.cos then s.(cos := s.cos[c := s.cos[c].(pc := pc)]) else s
  }

  predicate Enabled(s: State, e: Event) {
    e.c in s.cos &&
    var co := s.cos[e.c];
    match e
    case Create(_, d) => co.pc.Running? && d !in s.cos
    // Entering a coroutine that has a caller aborts; the leader is nobody's to enter.
    case Enter(_, d) => co.pc.Running? && d in s.cos && d != s.leader && s.cos[d].caller.None?
    case YieldBack(_) => co.pc.Running? && co.caller.Some?
    case Finish(c) => co.pc.Running? && c != s.leader && co.caller.Some?
    case DoSwitch(_) => co.pc.Switching? && s.lock.None? && co.pc.peer in s.cos
    case Lock(_) => (co.pc.Born? || co.pc.Waking?) && s.lock.None?
    case Test(c) => co.pc.Checking? && s.lock == Some(c)
    case Wake(_) => co.pc.Sleeping?
    case Resume(_) => co.pc.Returning?
    case Exit(_) => co.pc.Leaving?
    // g_thread_join returns when the thread has ended.
    case Reap(_) => co.pc.Reaping? && co.pc.peer in s.cos && s.cos[co.pc.peer].pc.Gone?
  }

  /** g_cond_broadcast. */
  function Broadcast(cos: map<Id, Co>): map<Id, Co> {
    map c | c in cos :: if cos[c].pc.Sleeping? then cos[c].(pc := Waking(cos[c].pc.from)) else cos[c]
  }

  /** The body of qemu_coroutine_switch under the lock. */
  function SwitchBody(s: State, c: Id): State
    requires c in s.cos && s.cos[c].pc.Switching? && s.cos[c].pc.peer in s.cos
  {
    var d, why := s.cos[c].pc.peer, s.cos[c].pc.why;
    var act := ActionOf(why);
    var t := Handed(s, c, d, why);
    t.(cos := Broadcast(t.cos), lock := if act.Terminate? then None else Some(c))
  }

  /** The four assignments. */
  function Handed(s: State, c: Id, d: Id, why: Why): State
    requires c in s.cos && d in s.cos
  {
    var act := ActionOf(why);
    var pc := if act.Terminate? then Leaving else Checking(Some(d));
    var one := s.cos[c := s.cos[c].(runnable := false, action := act, pc := pc)];
    var two := one[d := one[d].(runnable := true, action := act)];
    s.(cos := two, last := Some(Switch(c, d, act)),
       chain := if why.Entering? then s.chain + [d] else if s.chain == [] then [] else s.chain[..|s.chain| - 1])
  }

  function Apply(s: State, e: Event): State
    requires Enabled(s, e)
  {
    var c := e.c;
    var co := s.cos[c];
    match e
    case Create(_, d) => s.(cos := s.cos[d := Co(Born, false, Unset, None)])
    case Enter(_, d) => SetPc(s.(cos := s.cos[d := s.cos[d].(caller := Some(c))]), c, Switching(d, Entering))
    case YieldBack(_) => s.(cos := s.cos[c := co.(caller := None, pc := Switching(co.caller.value, Yielding))])
    case Finish(_) => SetPc(s, c, Switching(co.caller.value, Ending))
    case DoSwitch(_) => SwitchBody(s, c)
    case Lock(_) => SetPc(s, c, Checking(WaitsFor(co.pc))).(lock := Some(c))
    case Test(_) =>
      var pc := if !co.runnable then Sleeping(co.pc.from)
                else if co.pc.from.None? then Running
                else Returning(co.pc.from.value);
      SetPc(s, c, pc).(lock := None)
    case Wake(_) => SetPc(s, c, Waking(co.pc.from))
    case Resume(_) => SetPc(s, c, if co.action.Terminate? then Reaping(co.pc.peer) else Running)
    case Exit(_) => SetPc(s, c, Gone)
    case Reap(_) => SetPc(s, c, Running).(cos := SetPc(s, c, Running).cos - {co.pc.peer})
  }

  ghost predicate Runs(s: State, es: seq<Event>, t: State)
    decreases |es|
  {
    if es == [] then s == t else Enabled(s, es[0]) && Runs(Apply(s, es[0]), es[1..], t)
  }

  // ---- The invariant ----

  function Turn(s: State): Id {
    if s.chain == [] then 0 else s.chain[|s.chain| - 1]
  }

  ghost predicate Chained(s: State) {
    && s.chain != [] && s.chain[0] == s.leader && Distinct(s.chain)
    && (forall i :: 0 <= i < |s.chain| ==> s.chain[i] in s.cos)
    && (forall i :: 0 <= i < |s.chain| - 1 ==>
          Waits(s.cos[s.chain[i]].pc) && WaitsFor(s.cos[s.chain[i]].pc) == Some(s.chain[i + 1]))
  }

  /** Exactly one coroutine is runnable; every other thread waits or has ended. */
  ghost predicate OneRunnable(s: State) {
    && (forall c :: c in s.cos ==> (s.cos[c].runnable <==> c == Turn(s)))
    && (forall c :: c in s.cos && c != Turn(s) ==> Waits(s.cos[c].pc) || Over(s.cos[c].pc))
    && (Turn(s) in s.cos ==> !Over(s.cos[Turn(s)].pc))
  }

  /** No thread sleeps through its turn: a broadcast has woken it. */
  ghost predicate Awake(s: State) {
    Turn(s) in s.cos ==> !s.cos[Turn(s)].pc.Sleeping?
  }

  ghost predicate Locked(s: State) {
    forall c :: c in s.cos && s.cos[c].pc.Checking? <==> s.lock == Some(c)
  }

  /** Callers are the chain read backwards; nobody else has one, except while it is being entered. */
  ghost predicate Callers(s: State) {
    && InsideCallers(s, PcOf(s, Turn(s))) && OutsideCallers(s, PcOf(s, Turn(s)))
    && (s.leader in s.cos ==> s.cos[s.leader].caller.None?)
  }

  ghost predicate InsideCallers(s: State, pc: Pc) {
    forall i :: 1 <= i < |s.chain| && s.chain[i] in s.cos ==> s.cos[s.chain[i]].caller == ChainCaller(s.chain, i, pc)
  }

  ghost predicate OutsideCallers(s: State, pc: Pc) {
    forall c :: c in s.cos && c !in s.chain && !Over(s.cos[c].pc) ==> s.cos[c].caller == OtherCaller(Turn(s), pc, c)
  }

  function ChainCaller(chain: seq<Id>, i: nat, pc: Pc): Option<Id>
    requires 1 <= i < |chain|
  {
    if i == |chain| - 1 && pc.Switching? && pc.why.Yielding? then None else Some(chain[i - 1])
  }

  function OtherCaller(turn: Id, pc: Pc, c: Id): Option<Id> {
    if pc == Switching(c, Entering) then Some(turn) else None
  }

  /** Where the coroutine whose turn it is may be switching to. */
  ghost predicate Target(s: State) {
    var pc := PcOf(s, Turn(s));
    pc.Switching? ==>
      if pc.why.Entering? then pc.peer in s.cos && pc.peer !in s.chain && !Over(s.cos[pc.peer].pc)
      else |s.chain| > 1 && pc.peer == s.chain[|s.chain| - 2]
  }

  /** The latest switch gave the turn and its action to the coroutine whose turn it is. A coroutine that is over is the
      one that switch came from, and it is just that one the resumed coroutine is waiting for, or reaping. */
  ghost predicate LastSwitch(s: State) {
    && Turn(s) in s.cos
    && var co := s.cos[Turn(s)];
       && (s.last.None? ==> co.pc.Running? || co.pc.Switching?)
       && (s.last.Some? ==> s.last.value.target == Turn(s) && co.action == s.last.value.act != Unset)
       && (s.last.Some? && s.last.value.act.Terminate? && (Waits(co.pc) || co.pc.Returning?) ==>
             Awaited(co.pc) == Some(s.last.value.source) && PcOver(s, s.last.value.source))
       && (co.pc.Reaping? ==> PcOver(s, co.pc.peer))
       && (forall x :: x in s.cos && Over(s.cos[x].pc) ==>
             && s.last.Some? && s.last.value == Switch(x, Turn(s), Terminate)
             && (Awaited(co.pc) == Some(x) || co.pc == Reaping(x)))
  }

  function Awaited(pc: Pc): Option<Id> {
    if pc.Returning? then Some(pc.peer) else WaitsFor(pc)
  }

  ghost predicate PcOver(s: State, c: Id) {
    c in s.cos && Over(s.cos[c].pc)
  }

  ghost predicate Core(s: State) {
    Chained(s) && OneRunnable(s) && Callers(s) && Target(s) && LastSwitch(s)
  }

  ghost predicate Inv(s: State) {
    Core(s) && Awake(s) && Locked(s)
  }

  lemma InvStarted(leader: Id)
    ensures Inv(Started(leader))
  {
  }

  // ---- Threads that wait go on waiting, threads that leave go on leaving ----

  /** Nothing but how far some waiting or leaving threads are differs, and maybe the lock. */
  ghost predicate Similar(s: State, t: State) {
    && t == s.(cos := t.cos, lock := t.lock) && t.cos.Keys == s.cos.Keys
    && forall c :: c in s.cos ==> t.cos[c] == s.cos[c].(pc := t.cos[c].pc) && SimilarPc(s.cos[c].pc, t.cos[c].pc)
  }

  predicate SimilarPc(a: Pc, b: Pc) {
    a == b || (Waits(a) && Waits(b) && WaitsFor(a) == WaitsFor(b)) || (Over(a) && Over(b))
  }

  lemma SimilarKeeps(s: State, t: State)
    requires Core(s) && Similar(s, t)
    ensures Core(t)
  {
    hide Callers, LastSwitch, Chained, OneRunnable, Target;
    SimilarChained(s, t);
    SimilarTurn(s, t);
    SimilarCallers(s, t);
    SimilarLast(s, t);
  }

  lemma SimilarChained(s: State, t: State)
    requires Core(s) && Similar(s, t)
    ensures Chained(t)
  {
    hide Callers, LastSwitch, OneRunnable, Target;
    forall i | 0 <= i < |s.chain| - 1
      ensures Waits(t.cos[t.chain[i]].pc) && WaitsFor(t.cos[t.chain[i]].pc) == Some(t.chain[i + 1])
    {
      assert s.chain[i] in s.cos && SimilarPc(s.cos[s.chain[i]].pc, t.cos[s.chain[i]].pc);
    }
  }

  lemma SimilarTurn(s: State, t: State)
    requires Core(s) && Similar(s, t)
    ensures OneRunnable(t) && Target(t)
  {
    hide Callers, LastSwitch;
    assert Turn(t) == Turn(s) && Turn(s) in s.cos;
    assert SimilarPc(PcOf(s, Turn(s)), PcOf(t, Turn(s)));
  }

  lemma SimilarCallers(s: State, t: State)
    requires Core(s) && Similar(s, t)
    ensures Callers(t)
  {
    hide LastSwitch, OneRunnable, Target, ChainCaller, OtherCaller;
    assert Turn(t) == Turn(s) && Turn(s) in s.cos;
    var p, q := PcOf(s, Turn(s)), PcOf(t, Turn(t));
    assert SimilarPc(p, q);
    forall i | 1 <= i < |t.chain| && t.chain[i] in t.cos
      ensures t.cos[t.chain[i]].caller == ChainCaller(t.chain, i, q)
    {
      SimilarCaller(s.chain, i, 0, 0, p, q);
    }
    forall c | c in t.cos && c !in t.chain && !Over(t.cos[c].pc) ensures t.cos[c].caller == OtherCaller(Turn(t), q, c) {
      assert SimilarPc(s.cos[c].pc, t.cos[c].pc);
      SimilarCaller(s.chain, 0, Turn(s), c, p, q);
    }
  }

  lemma SimilarCaller(chain: seq<Id>, i: nat, turn: Id, c: Id, p: Pc, q: Pc)
    requires SimilarPc(p, q)
    ensures 1 <= i < |chain| ==> ChainCaller(chain, i, p) == ChainCaller(chain, i, q)
    ensures OtherCaller(turn, p, c) == OtherCaller(turn, q, c)
  {
  }

  lemma SimilarLast(s: State, t: State)
    requires Core(s) && Similar(s, t)
    ensures LastSwitch(t)
  {
    hide Callers, OneRunnable, Target;
    assert Turn(t) == Turn(s) && Turn(s) in s.cos;
    assert SimilarPc(PcOf(s, Turn(s)), PcOf(t, Turn(s)));
  }

  // ---- The coroutine whose turn it is moves on ----

  /** Only the thread whose turn it is has moved, from waiting or returning to past it. */
  ghost predicate TurnMoves(s: State, t: State, pc: Pc) {
    && Turn(s) in s.cos && t == s.(cos := s.cos[Turn(s) := s.cos[Turn(s)].(pc := pc)], lock := t.lock)
    && (Waits(s.cos[Turn(s)].pc) || s.cos[Turn(s)].pc.Returning?)
    && match pc
       case Running => s.cos[Turn(s)].action != Terminate
       case Returning(k) => Awaited(s.cos[Turn(s)].pc) == Some(k)
       case Reaping(k) => Awaited(s.cos[Turn(s)].pc) == Some(k) && s.cos[Turn(s)].action == Terminate
       case _ => false
  }

  lemma TurnMovesKeeps(s: State, t: State, pc: Pc)
    requires Core(s) && TurnMoves(s, t, pc)
    ensures Core(t)
  {
    hide Callers, LastSwitch, Chained;
    TurnMovesChained(s, t, pc);
    TurnMovesCallers(s, t, pc);
    TurnMovesLast(s, t, pc);
  }

  lemma TurnMovesChained(s: State, t: State, pc: Pc)
    requires Core(s) && TurnMoves(s, t, pc)
    ensures Chained(t) && Turn(t) == Turn(s)
  {
    hide Callers, LastSwitch, OneRunnable, Target;
    assert forall i :: 0 <= i < |s.chain| - 1 ==> s.chain[i] != Turn(s);
  }

  lemma TurnMovesCallers(s: State, t: State, pc: Pc)
    requires Core(s) && TurnMoves(s, t, pc)
    ensures Callers(t)
  {
    hide LastSwitch, OneRunnable, Target;
  }

  lemma TurnMovesLast(s: State, t: State, pc: Pc)
    requires Core(s) && TurnMoves(s, t, pc)
    ensures LastSwitch(t)
  {
    hide Callers, OneRunnable, Target, Chained;
  }

  // ---- The coroutine whose turn it is acts ----

  /** Whoever is past waiting has the turn. */
  lemma ActiveIsTurn(s: State, c: Id)
    requires Core(s) && c in s.cos && !Waits(s.cos[c].pc) && !Over(s.cos[c].pc)
    ensures c == Turn(s)
  {
    hide Callers, Target, LastSwitch, Chained;
  }

  /** Before its coroutine runs again there is nothing left to reap. */
  lemma NoneOver(s: State, x: Id)
    requires Core(s) && PcOf(s, Turn(s)).Running? && x in s.cos
    ensures !Over(s.cos[x].pc)
  {
    hide Callers, Target, Chained, OneRunnable;
  }

  lemma CreateKeeps(s: State, d: Id)
    requires Core(s) && d !in s.cos
    ensures Core(s.(cos := s.cos[d := Co(Born, false, Unset, None)]))
  {
    hide Callers, LastSwitch;
    CreateCallers(s, d);
    CreateLast(s, d);
  }

  lemma CreateCallers(s: State, d: Id)
    requires Core(s) && d !in s.cos
    ensures Callers(s.(cos := s.cos[d := Co(Born, false, Unset, None)]))
  {
    hide LastSwitch, OneRunnable;
  }

  lemma CreateLast(s: State, d: Id)
    requires Core(s) && d !in s.cos
    ensures LastSwitch(s.(cos := s.cos[d := Co(Born, false, Unset, None)]))
  {
    hide Callers, OneRunnable, Target;
  }

  lemma EnterKeeps(s: State, d: Id)
    requires Core(s) && PcOf(s, Turn(s)).Running? && d in s.cos && d != s.leader && s.cos[d].caller.None?
    ensures var c := Turn(s); var one := s.cos[d := s.cos[d].(caller := Some(c))];
            d !in s.chain && Core(s.(cos := one[c := one[c].(pc := Switching(d, Entering))]))
  {
    hide LastSwitch, Callers, Chained, OneRunnable, Target;
    NotChained(s, d);
    EnterTurn(s, d);
    EnterCallers(s, d);
    EnterLast(s, d);
  }

  lemma NotChained(s: State, d: Id)
    requires Core(s) && PcOf(s, Turn(s)).Running? && d in s.cos && d != s.leader && s.cos[d].caller.None?
    ensures d !in s.chain
  {
    hide LastSwitch, OneRunnable, Target;
    forall i | 0 <= i < |s.chain| ensures s.chain[i] != d {
      if i > 0 {
        assert s.cos[s.chain[i]].caller == ChainCaller(s.chain, i, PcOf(s, Turn(s)));
      }
    }
  }

  ghost function Entered(s: State, d: Id): State
    requires Turn(s) in s.cos && d in s.cos
  {
    var one := s.cos[d := s.cos[d].(caller := Some(Turn(s)))];
    s.(cos := one[Turn(s) := one[Turn(s)].(pc := Switching(d, Entering))])
  }

  lemma EnterTurn(s: State, d: Id)
    requires Core(s) && PcOf(s, Turn(s)).Running? && d in s.cos && d !in s.chain
    ensures Turn(s) in s.cos && Chained(Entered(s, d)) && OneRunnable(Entered(s, d)) && Target(Entered(s, d))
    ensures Turn(Entered(s, d)) == Turn(s)
  {
    hide LastSwitch, Callers;
    NoneOver(s, d);
    assert forall i :: 0 <= i < |s.chain| - 1 ==> s.chain[i] != Turn(s);
  }

  lemma EnterCallers(s: State, d: Id)
    requires Core(s) && PcOf(s, Turn(s)).Running? && d in s.cos && d !in s.chain
    ensures Turn(s) in s.cos && Callers(Entered(s, d))
  {
    hide Chained, LastSwitch, OneRunnable, Target, InsideCallers, OutsideCallers;
    EnterTurn(s, d);
    EnterInside(s, d);
    EnterOutside(s, d);
    LeaderIn(s, d);
  }

  lemma LeaderIn(s: State, d: Id)
    requires Chained(s)
    ensures s.leader in s.cos && s.leader in s.chain && Turn(s) in s.cos && Turn(s) in s.chain
    ensures (d !in s.chain ==> d != s.leader)
  {
  }

  lemma EnterInside(s: State, d: Id)
    requires Core(s) && PcOf(s, Turn(s)).Running? && d in s.cos && d !in s.chain
    ensures Turn(s) in s.cos && InsideCallers(Entered(s, d), Switching(d, Entering))
  {
    hide LastSwitch, OneRunnable, Target, OutsideCallers;
    var t := Entered(s, d);
    forall i | 1 <= i < |t.chain| && t.chain[i] in t.cos
      ensures t.cos[t.chain[i]].caller == ChainCaller(t.chain, i, Switching(d, Entering))
    {
      assert s.chain[i] != d;
    }
  }

  lemma EnterOutside(s: State, d: Id)
    requires Core(s) && PcOf(s, Turn(s)).Running? && d in s.cos && d !in s.chain
    ensures Turn(s) in s.cos && OutsideCallers(Entered(s, d), Switching(d, Entering))
  {
    hide LastSwitch, OneRunnable, Target, InsideCallers;
    var t := Entered(s, d);
    LeaderIn(s, d);
    forall c | c in t.cos && c !in t.chain && !Over(t.cos[c].pc)
      ensures t.cos[c].caller == OtherCaller(Turn(t), Switching(d, Entering), c)
    {
      assert c != Turn(s);
    }
  }

  lemma EnterLast(s: State, d: Id)
    requires Core(s) && PcOf(s, Turn(s)).Running? && d in s.cos && d !in s.chain
    ensures Turn(s) in s.cos && LastSwitch(Entered(s, d))
  {
    hide Callers, OneRunnable, Target;
  }

  /** Yielding to the caller, or ending. */
  ghost function Back(s: State, why: Why): State
    requires Turn(s) in s.cos && s.cos[Turn(s)].caller.Some?
  {
    var co := s.cos[Turn(s)];
    var caller := if why.Yielding? then None else co.caller;
    s.(cos := s.cos[Turn(s) := co.(caller := caller, pc := Switching(co.caller.value, why))])
  }

  lemma BackKeeps(s: State, why: Why)
    requires Core(s) && PcOf(s, Turn(s)).Running? && Turn(s) in s.cos && s.cos[Turn(s)].caller.Some? && !why.Entering?
    ensures Core(Back(s, why))
  {
    hide Chained, OneRunnable, Callers, LastSwitch, Target;
    BackTurn(s, why);
    BackCallers(s, why);
    BackLast(s, why);
  }

  lemma CallerIsBelow(s: State)
    requires Core(s) && PcOf(s, Turn(s)).Running? && Turn(s) in s.cos && s.cos[Turn(s)].caller.Some?
    ensures |s.chain| > 1 && s.cos[Turn(s)].caller == Some(s.chain[|s.chain| - 2])
  {
    hide LastSwitch, OneRunnable, Target;
    if |s.chain| > 1 {
      assert s.cos[s.chain[|s.chain| - 1]].caller == ChainCaller(s.chain, |s.chain| - 1, PcOf(s, Turn(s)));
    }
  }

  lemma BackTurn(s: State, why: Why)
    requires Core(s) && PcOf(s, Turn(s)).Running? && Turn(s) in s.cos && s.cos[Turn(s)].caller.Some? && !why.Entering?
    ensures Chained(Back(s, why)) && OneRunnable(Back(s, why)) && Target(Back(s, why)) && Turn(Back(s, why)) == Turn(s)
  {
    hide LastSwitch, Callers;
    CallerIsBelow(s);
    assert forall i :: 0 <= i < |s.chain| - 1 ==> s.chain[i] != Turn(s);
  }

  lemma BackCallers(s: State, why: Why)
    requires Core(s) && PcOf(s, Turn(s)).Running? && Turn(s) in s.cos && s.cos[Turn(s)].caller.Some? && !why.Entering?
    ensures Callers(Back(s, why))
  {
    hide LastSwitch, OneRunnable, Target;
  }

  lemma BackLast(s: State, why: Why)
    requires Core(s) && PcOf(s, Turn(s)).Running? && Turn(s) in s.cos && s.cos[Turn(s)].caller.Some? && !why.Entering?
    ensures LastSwitch(Back(s, why))
  {
    hide Callers, OneRunnable, Target;
  }

  /** Freeing the coroutine that ended. */
  ghost function Reaped(s: State): State
    requires PcOf(s, Turn(s)).Reaping?
  {
    var c := Turn(s);
    s.(cos := s.cos[c := s.cos[c].(pc := Running)] - {s.cos[c].pc.peer})
  }

  lemma ReapKeeps(s: State)
    requires Core(s) && PcOf(s, Turn(s)).Reaping?
    ensures Core(Reaped(s))
  {
    hide Chained, OneRunnable, Callers, LastSwitch, Target;
    ReapTurn(s);
    ReapCallers(s);
    ReapLast(s);
  }

  lemma ReapTurn(s: State)
    requires Core(s) && PcOf(s, Turn(s)).Reaping?
    ensures Chained(Reaped(s)) && OneRunnable(Reaped(s)) && Target(Reaped(s)) && Turn(Reaped(s)) == Turn(s)
  {
    hide Callers, LastSwitch;
    PeerIsOver(s);
    assert forall i :: 0 <= i < |s.chain| - 1 ==> s.chain[i] != Turn(s);
  }

  lemma PeerIsOver(s: State)
    requires Core(s) && PcOf(s, Turn(s)).Reaping?
    ensures Turn(s) in s.cos && var x := s.cos[Turn(s)].pc.peer; x in s.cos && Over(s.cos[x].pc) && x !in s.chain
  {
    hide Callers, Target;
    var x := s.cos[Turn(s)].pc.peer;
    assert PcOver(s, x) && x != Turn(s);
    forall i | 0 <= i < |s.chain| ensures s.chain[i] != x {
      if i < |s.chain| - 1 {
        assert Waits(s.cos[s.chain[i]].pc);
      }
    }
  }

  lemma ReapCallers(s: State)
    requires Core(s) && PcOf(s, Turn(s)).Reaping?
    ensures Callers(Reaped(s))
  {
    hide OneRunnable, Target;
    ReapTurn(s);
  }

  lemma ReapLast(s: State)
    requires Core(s) && PcOf(s, Turn(s)).Reaping?
    ensures LastSwitch(Reaped(s))
  {
    hide Callers, OneRunnable, Target, Chained;
    ReapTurn(s);
  }

  // ---- The switch ----

  lemma SwitchNoneOver(s: State, x: Id)
    requires Core(s) && PcOf(s, Turn(s)).Switching? && x in s.cos
    ensures !Over(s.cos[x].pc)
  {
    hide Callers, Target, Chained, OneRunnable;
  }

  ghost predicate Hands(s: State, d: Id, why: Why) {
    Core(s) && PcOf(s, Turn(s)) == Switching(d, why)
  }

  lemma HandedKeeps(s: State, d: Id, why: Why)
    requires Hands(s, d, why)
    ensures Turn(s) in s.cos && d in s.cos && Core(Handed(s, Turn(s), d, why)) && Turn(Handed(s, Turn(s), d, why)) == d
  {
    hide Chained, OneRunnable, Callers, LastSwitch, Target, Handed;
    HandTarget(s, d, why);
    if why.Entering? {
      PushTurn(s, d);
      PushCallers(s, d);
      PushLast(s, d);
    } else {
      PopTurn(s, d, why);
      PopCallers(s, d, why);
      PopLast(s, d, why);
    }
  }

  lemma HandTarget(s: State, d: Id, why: Why)
    requires Hands(s, d, why)
    ensures Turn(s) in s.cos && d in s.cos && d != Turn(s) && Waits(s.cos[d].pc)
    ensures if why.Entering? then d !in s.chain
            else |s.chain| > 1 && d == s.chain[|s.chain| - 2] && WaitsFor(s.cos[d].pc) == Some(Turn(s))
  {
    hide Callers, LastSwitch;
    SwitchNoneOver(s, Turn(s));
    if !why.Entering? {
      assert s.chain[|s.chain| - 2] in s.cos;
      SwitchNoneOver(s, s.chain[|s.chain| - 2]);
    }
  }

  lemma PushTurn(s: State, d: Id)
    requires Hands(s, d, Entering)
    ensures Turn(s) in s.cos && d in s.cos
    ensures var t := Handed(s, Turn(s), d, Entering); Chained(t) && OneRunnable(t) && Target(t) && Turn(t) == d
  {
    hide Callers, LastSwitch, Target;
    HandTarget(s, d, Entering);
    var t := Handed(s, Turn(s), d, Entering);
    assert forall i :: 0 <= i < |s.chain| - 1 ==> s.chain[i] != Turn(s) && t.chain[i] == s.chain[i];
    NotSwitching(t);
  }

  lemma NotSwitching(t: State)
    requires Waits(PcOf(t, Turn(t)))
    ensures Target(t)
  {
  }

  lemma PushCallers(s: State, d: Id)
    requires Hands(s, d, Entering)
    ensures Turn(s) in s.cos && d in s.cos && Callers(Handed(s, Turn(s), d, Entering))
  {
    hide Chained, OneRunnable, LastSwitch, Target, InsideCallers, OutsideCallers;
    HandTarget(s, d, Entering);
    LeaderIn(s, d);
    var t := Handed(s, Turn(s), d, Entering);
    PushInside(s, d, t);
    PushOutside(s, d, t);
  }

  lemma PushInside(s: State, d: Id, t: State)
    requires Hands(s, d, Entering) && Turn(s) in s.cos && d in s.cos && t == Handed(s, Turn(s), d, Entering)
    requires d !in s.chain
    ensures InsideCallers(t, s.cos[d].pc)
  {
    hide OneRunnable, LastSwitch, Target;
    HandTarget(s, d, Entering);
    var p, q := PcOf(s, Turn(s)), s.cos[d].pc;
    forall i | 1 <= i < |t.chain| ensures t.cos[t.chain[i]].caller == ChainCaller(t.chain, i, q) {
      if i < |s.chain| {
        assert t.chain[i] == s.chain[i] && s.chain[i] in s.cos;
        assert s.cos[s.chain[i]].caller == ChainCaller(s.chain, i, p);
      } else {
        assert s.cos[d].caller == OtherCaller(Turn(s), p, d);
      }
    }
  }

  lemma PushOutside(s: State, d: Id, t: State)
    requires Hands(s, d, Entering) && Turn(s) in s.cos && d in s.cos && t == Handed(s, Turn(s), d, Entering)
    requires d !in s.chain
    ensures OutsideCallers(t, s.cos[d].pc)
  {
    hide OneRunnable, LastSwitch, Target, InsideCallers;
    HandTarget(s, d, Entering);
    LeaderIn(s, d);
    forall x | x in t.cos && x !in t.chain ensures t.cos[x].caller.None? {
      assert x !in s.chain && x != d && x != Turn(s) by {
        assert t.chain == s.chain + [d];
      }
      SwitchNoneOver(s, x);
    }
  }

  lemma PushLast(s: State, d: Id)
    requires Hands(s, d, Entering)
    ensures Turn(s) in s.cos && d in s.cos && LastSwitch(Handed(s, Turn(s), d, Entering))
  {
    hide OneRunnable, Callers, Target, Chained, LastSwitch;
    HandTarget(s, d, Entering);
    var t := Handed(s, Turn(s), d, Entering);
    forall x | x in s.cos ensures !Over(t.cos[x].pc) {
      SwitchNoneOver(s, x);
    }
    LastIs(t, Switch(Turn(s), d, Yield));
  }

  lemma LastIs(t: State, l: Switch)
    requires Turn(t) == l.target && l.target in t.cos && t.last == Some(l) && t.cos[l.target].action == l.act == Yield
    requires Waits(t.cos[l.target].pc)
    requires forall x :: x in t.cos ==> !Over(t.cos[x].pc)
    ensures LastSwitch(t)
  {
  }

  lemma PopTurn(s: State, d: Id, why: Why)
    requires Hands(s, d, why) && !why.Entering?
    ensures Turn(s) in s.cos && d in s.cos
    ensures var t := Handed(s, Turn(s), d, why); Chained(t) && OneRunnable(t) && Target(t) && Turn(t) == d
  {
    hide Callers, LastSwitch, Target;
    HandTarget(s, d, why);
    var t := Handed(s, Turn(s), d, why);
    assert forall i :: 0 <= i < |t.chain| ==> t.chain[i] == s.chain[i] && s.chain[i] != Turn(s);
    NotSwitching(t);
  }

  lemma PopCallers(s: State, d: Id, why: Why)
    requires Hands(s, d, why) && !why.Entering?
    ensures Turn(s) in s.cos && d in s.cos && Callers(Handed(s, Turn(s), d, why))
  {
    hide Chained, OneRunnable, LastSwitch, Target, InsideCallers, OutsideCallers;
    HandTarget(s, d, why);
    LeaderIn(s, d);
    var t := Handed(s, Turn(s), d, why);
    PopInside(s, d, why, t);
    PopOutside(s, d, why, t);
  }

  lemma PopInside(s: State, d: Id, why: Why, t: State)
    requires Hands(s, d, why) && !why.Entering? && Turn(s) in s.cos && d in s.cos && t == Handed(s, Turn(s), d, why)
    ensures InsideCallers(t, s.cos[d].pc)
  {
    hide OneRunnable, LastSwitch, Target, OutsideCallers;
    HandTarget(s, d, why);
    var p, q := PcOf(s, Turn(s)), s.cos[d].pc;
    forall i | 1 <= i < |t.chain| ensures t.cos[t.chain[i]].caller == ChainCaller(t.chain, i, q) {
      assert t.chain[i] == s.chain[i] && s.chain[i] in s.cos && s.cos[s.chain[i]].caller == ChainCaller(s.chain, i, p);
    }
  }

  lemma PopOutside(s: State, d: Id, why: Why, t: State)
    requires Hands(s, d, why) && !why.Entering? && Turn(s) in s.cos && d in s.cos && t == Handed(s, Turn(s), d, why)
    ensures OutsideCallers(t, s.cos[d].pc)
  {
    hide OneRunnable, LastSwitch, Target;
    HandTarget(s, d, why);
    var c, p := Turn(s), PcOf(s, Turn(s));
    forall x | x in t.cos && x !in t.chain && !Over(t.cos[x].pc) ensures t.cos[x].caller.None? {
      if x == c {
        assert s.chain[|s.chain| - 1] == c;
        assert s.cos[c].caller == ChainCaller(s.chain, |s.chain| - 1, p);
      } else {
        PopOthers(s, x);
        SwitchNoneOver(s, x);
        assert s.cos[x].caller == OtherCaller(c, p, x);
      }
    }
  }

  lemma PopOthers(s: State, x: Id)
    requires s.chain != [] && x != Turn(s) && x !in s.chain[..|s.chain| - 1]
    ensures x !in s.chain
  {
    assert s.chain == s.chain[..|s.chain| - 1] + [Turn(s)];
  }

  lemma PopLast(s: State, d: Id, why: Why)
    requires Hands(s, d, why) && !why.Entering?
    ensures Turn(s) in s.cos && d in s.cos && LastSwitch(Handed(s, Turn(s), d, why))
  {
    hide OneRunnable, Callers, Target, Chained, LastSwitch;
    HandTarget(s, d, why);
    PopTurn(s, d, why);
    var t := Handed(s, Turn(s), d, why);
    forall x | x in s.cos ensures Over(t.cos[x].pc) ==> x == Turn(s) && why.Ending? {
      SwitchNoneOver(s, x);
    }
    if why.Ending? {
      EndIs(t, Turn(s), d);
    } else {
      LastIs(t, Switch(Turn(s), d, Yield));
    }
  }

  lemma EndIs(t: State, c: Id, d: Id)
    requires Turn(t) == d && d in t.cos && c in t.cos && t.last == Some(Switch(c, d, Terminate))
    requires t.cos[d].action == Terminate
    requires Waits(t.cos[d].pc) && WaitsFor(t.cos[d].pc) == Some(c) && Over(t.cos[c].pc)
    requires forall x :: x in t.cos && Over(t.cos[x].pc) ==> x == c
    ensures LastSwitch(t)
  {
  }

  // ---- Every step ----

  lemma StepCore(s: State, e: Event)
    requires Inv(s) && Enabled(s, e)
    ensures Core(Apply(s, e))
  {
    hide Core, Locked, Awake;
    var c := e.c;
    var co, t := s.cos[c], Apply(s, e);
    if !Waits(co.pc) && !Over(co.pc) {
      ActiveIsTurn(s, c);
    }
    match e
    case Create(_, d) => CreateKeeps(s, d);
    case Enter(_, d) => EnterKeeps(s, d);
    case YieldBack(_) => BackKeeps(s, Yielding);
    case Finish(_) => BackKeeps(s, Ending);
    case DoSwitch(_) => SwitchCore(s, co.pc.peer, co.pc.why);
    case Lock(_) => SimilarKeeps(s, t);
    case Test(_) => TestCore(s, c);
    case Wake(_) => SimilarKeeps(s, t);
    case Resume(_) => ResumeCore(s, c);
    case Exit(_) => SimilarKeeps(s, t);
    case Reap(_) => ReapKeeps(s);
  }

  lemma SwitchCore(s: State, d: Id, why: Why)
    requires Hands(s, d, why) && Turn(s) in s.cos && d in s.cos
    ensures Core(SwitchBody(s, Turn(s))) && Awake(SwitchBody(s, Turn(s)))
  {
    hide Core, Handed;
    HandedKeeps(s, d, why);
    SimilarKeeps(Handed(s, Turn(s), d, why), SwitchBody(s, Turn(s)));
  }

  lemma TestCore(s: State, c: Id)
    requires Inv(s) && Enabled(s, Test(c))
    ensures Core(Apply(s, Test(c)))
  {
    hide Core, Locked, Awake;
    var t := Apply(s, Test(c));
    RunnableIsTurn(s, c);
    if !s.cos[c].runnable {
      SimilarKeeps(s, t);
    } else {
      WaitsAction(s);
      TurnMovesKeeps(s, t, t.cos[c].pc);
    }
  }

  lemma ResumeCore(s: State, c: Id)
    requires Inv(s) && Enabled(s, Resume(c))
    ensures Core(Apply(s, Resume(c)))
  {
    hide Core, Locked, Awake;
    var t := Apply(s, Resume(c));
    ActiveIsTurn(s, c);
    TurnMovesKeeps(s, t, t.cos[c].pc);
  }

  lemma RunnableIsTurn(s: State, c: Id)
    requires Core(s) && c in s.cos
    ensures s.cos[c].runnable <==> c == Turn(s)
  {
    hide Chained, Callers, Target, LastSwitch;
  }

  /** A coroutine that waits for nobody in particular, having its first turn, was not handed a termination. */
  lemma WaitsAction(s: State)
    requires Core(s)
    ensures Turn(s) in s.cos
    ensures Waits(s.cos[Turn(s)].pc) && WaitsFor(s.cos[Turn(s)].pc).None? ==> s.cos[Turn(s)].action != Terminate
  {
    hide Chained, Callers, Target, OneRunnable;
  }

  lemma StepLock(s: State, e: Event)
    requires Inv(s) && Enabled(s, e)
    ensures Locked(Apply(s, e))
  {
    hide Core, Awake, SwitchBody;
    if e.DoSwitch? {
      SwitchLock(s, e.c);
    }
  }

  lemma SwitchLock(s: State, c: Id)
    requires Locked(s) && s.lock.None? && c in s.cos && s.cos[c].pc.Switching? && s.cos[c].pc.peer in s.cos
    ensures Locked(SwitchBody(s, c))
  {
  }

  lemma StepAwake(s: State, e: Event)
    requires Inv(s) && Enabled(s, e)
    ensures Awake(Apply(s, e))
  {
    hide Core, Locked, Handed;
    if e.DoSwitch? {
      ActiveIsTurn(s, e.c);
      SwitchCore(s, s.cos[e.c].pc.peer, s.cos[e.c].pc.why);
    } else if e.Test? {
      RunnableIsTurn(s, e.c);
    }
  }

  lemma StepKeeps(s: State, e: Event)
    requires Inv(s) && Enabled(s, e)
    ensures Inv(Apply(s, e))
  {
    hide Core, Awake, Locked, Apply, Enabled;
    StepCore(s, e);
    StepAwake(s, e);
    StepLock(s, e);
  }

  lemma {:induction false} RunKeeps(s: State, es: seq<Event>, t: State)
    requires Inv(s) && Runs(s, es, t)
    ensures Inv(t)
    decreases |es|
  {
    hide Inv, Apply, Enabled;
    if es != [] {
      StepKeeps(s, es[0]);
      RunKeeps(Apply(s, es[0]), es[1..], t);
    }
  }

  // ---- What every run keeps ----

  lemma Reached(leader: Id, es: seq<Event>, t: State)
    requires Runs(Started(leader), es, t)
    ensures Inv(t) && Turn(t) in t.cos
  {
    hide Runs, Callers, Target, OneRunnable, Awake, Locked, Chained;
    InvStarted(leader);
    RunKeeps(Started(leader), es, t);
  }

  /** In every interleaving exactly one coroutine is runnable, only its thread runs coroutine code or acts for it, and a
      thread never sleeps while its coroutine is runnable. */
  lemma OneAtATime(leader: Id, es: seq<Event>, t: State, c: Id)
    requires Runs(Started(leader), es, t) && c in t.cos
    ensures Turn(t) in t.cos && (t.cos[c].runnable <==> c == Turn(t))
    ensures t.cos[c].pc.Running? ==> t.cos[c].runnable
    ensures t.cos[c].pc.Sleeping? ==> !t.cos[c].runnable
    ensures t.cos[c].pc.Checking? <==> t.lock == Some(c)
  {
    hide Runs, Callers, Target, Chained, LastSwitch;
    Reached(leader, es, t);
  }

  /** A switch that returns gives back the action of the switch that resumed it, and a termination comes from the very
      coroutine it had switched to. */
  lemma ResumedWith(leader: Id, es: seq<Event>, t: State, c: Id)
    requires Runs(Started(leader), es, t) && c in t.cos && t.cos[c].pc.Returning?
    ensures t.last.Some? && t.last.value.target == c && t.cos[c].action == t.last.value.act != Unset
    ensures t.last.value.act.Terminate? ==> t.last.value.source == t.cos[c].pc.peer && PcOver(t, t.cos[c].pc.peer)
  {
    hide Runs, Callers, Target, Chained, Locked, Awake;
    Reached(leader, es, t);
  }

  /** What is joined and freed is the coroutine that ended, and no other has ended; the join returns as soon as that
      thread has returned, which it can do. */
  lemma ReapsTheEnded(leader: Id, es: seq<Event>, t: State, c: Id)
    requires Runs(Started(leader), es, t) && c in t.cos && t.cos[c].pc.Reaping?
    ensures t.last == Some(Switch(t.cos[c].pc.peer, c, Terminate))
    ensures forall x :: x in t.cos && Over(t.cos[x].pc) <==> x == t.cos[c].pc.peer
    ensures Enabled(t, if t.cos[t.cos[c].pc.peer].pc.Gone? then Reap(c) else Exit(t.cos[c].pc.peer))
  {
    hide Runs, Callers, Target, Chained, Locked, Awake;
    Reached(leader, es, t);
    assert c == Turn(t) && PcOver(t, t.cos[c].pc.peer);
  }

  // ---- Control follows the calls ----

  /** What coroutine code asks for: entering pushes a coroutine, yielding and ending pop one. */
  function NestNext(stack: seq<Id>, e: Event): seq<Id> {
    match e
    case Enter(_, d) => stack + [d]
    case YieldBack(_) => if stack == [] then [] else stack[..|stack| - 1]
    case Finish(_) => if stack == [] then [] else stack[..|stack| - 1]
    case _ => stack
  }

  /** The coroutines that have entered one another, from the calls alone. */
  function Nest(stack: seq<Id>, es: seq<Event>): seq<Id>
    decreases |es|
  {
    if es == [] then stack else Nest(NestNext(stack, es[0]), es[1..])
  }

  /** The chain as it will be once a switch under way has taken effect. */
  function Coming(s: State): seq<Id> {
    var pc := PcOf(s, Turn(s));
    if !pc.Switching? then s.chain
    else if pc.why.Entering? then s.chain + [pc.peer]
    else if s.chain == [] then []
    else s.chain[..|s.chain| - 1]
  }

  /** The latest call of enter, yield or the end of an entry function. */
  function Latest(known: Option<Event>, es: seq<Event>): Option<Event>
    decreases |es|
  {
    if es == [] then known
    else Latest(if es[0].Enter? || es[0].YieldBack? || es[0].Finish? then Some(es[0]) else known, es[1..])
  }

  /** The machine remembers that call: as the switch under way, else as the latest switch. */
  ghost predicate Remembers(s: State, latest: Option<Event>) {
    var pc := PcOf(s, Turn(s));
    if pc.Switching? then latest.Some? && latest.value.c == Turn(s) && (latest.value.Finish? <==> pc.why.Ending?)
    else
      && (latest.Some? <==> s.last.Some?)
      && (latest.Some? ==>
            latest.value.c == s.last.value.source && (latest.value.Finish? <==> s.last.value.act.Terminate?))
  }

  lemma RequestStep(s: State, e: Event)
    requires Inv(s) && Enabled(s, e) && (e.Enter? || e.YieldBack? || e.Finish?)
    ensures Coming(Apply(s, e)) == NestNext(Coming(s), e) && Remembers(Apply(s, e), Some(e))
  {
    hide Callers, Target, OneRunnable, LastSwitch, Awake, Locked;
    ActiveIsTurn(s, e.c);
    LeaderIn(s, e.c);
    if e.Enter? {
      EnterKeeps(s, e.d);
    }
  }

  lemma SwitchStep(s: State, c: Id, latest: Option<Event>)
    requires Inv(s) && Enabled(s, DoSwitch(c)) && Remembers(s, latest)
    ensures Coming(Apply(s, DoSwitch(c))) == Coming(s) && Remembers(Apply(s, DoSwitch(c)), latest)
  {
    hide Core, Awake, Locked;
    ActiveIsTurn(s, c);
    var d, why := s.cos[c].pc.peer, s.cos[c].pc.why;
    HandedKeeps(s, d, why);
    HandTarget(s, d, why);
  }

  lemma OtherStep(s: State, e: Event, latest: Option<Event>)
    requires Inv(s) && Enabled(s, e) && !e.DoSwitch? && !e.Enter? && !e.YieldBack? && !e.Finish? && Remembers(s, latest)
    ensures Coming(Apply(s, e)) == Coming(s) && Remembers(Apply(s, e), latest)
  {
    hide Callers, Target, OneRunnable, LastSwitch, Awake, Locked;
    LeaderIn(s, e.c);
    if e.Reap? {
      ActiveIsTurn(s, e.c);
      PeerIsOver(s);
    }
  }

  lemma {:induction false} CallsRun(s: State, es: seq<Event>, t: State, latest: Option<Event>)
    requires Inv(s) && Runs(s, es, t) && Remembers(s, latest)
    ensures Inv(t) && Coming(t) == Nest(Coming(s), es) && Remembers(t, Latest(latest, es))
    decreases |es|
  {
    hide Inv, Apply, Enabled, Coming, Remembers;
    if es != [] {
      var e := es[0];
      StepKeeps(s, e);
      if e.Enter? || e.YieldBack? || e.Finish? {
        RequestStep(s, e);
        CallsRun(Apply(s, e), es[1..], t, Some(e));
      } else {
        if e.DoSwitch? {
          SwitchStep(s, e.c, latest);
        } else {
          OtherStep(s, e, latest);
        }
        CallsRun(Apply(s, e), es[1..], t, latest);
      }
    }
  }

  /** In every interleaving of the threads, coroutine code runs in just the coroutine that the calls so far, read as a
      stack, have on top: entering runs the coroutine entered, and yielding and ending go back to the one that entered.
      Each coroutine's caller is the one below it. */
  lemma ControlFollowsCalls(leader: Id, es: seq<Event>, t: State, c: Id)
    requires Runs(Started(leader), es, t) && c in t.cos && t.cos[c].pc.Running?
    ensures var n := Nest([leader], es);
            && n != [] && c == n[|n| - 1]
            && forall i :: 1 <= i < |n| ==> n[i] in t.cos && t.cos[n[i]].caller == Some(n[i - 1])
  {
    hide Runs, Target, Locked, Awake, LastSwitch, OneRunnable, Callers, Chained;
    InvStarted(leader);
    CallsRun(Started(leader), es, t, None);
    ActiveIsTurn(t, c);
    RunningCallers(t);
  }

  lemma RunningCallers(s: State)
    requires Core(s) && PcOf(s, Turn(s)).Running?
    ensures s.chain != []
    ensures forall i :: 1 <= i < |s.chain| ==> s.chain[i] in s.cos && s.cos[s.chain[i]].caller == Some(s.chain[i - 1])
  {
    hide Target, LastSwitch, OneRunnable, OutsideCallers;
    forall i | 1 <= i < |s.chain| ensures s.cos[s.chain[i]].caller == Some(s.chain[i - 1]) {
      assert s.chain[i] in s.cos && s.cos[s.chain[i]].caller == ChainCaller(s.chain, i, PcOf(s, Turn(s)));
    }
  }

  /** And a switch that returns tells it how: by the end of the coroutine it had switched to, if the latest call was
      that, else by a yield or an enter. */
  lemma ReturnsTheCall(leader: Id, es: seq<Event>, t: State, c: Id)
    requires Runs(Started(leader), es, t) && c in t.cos && t.cos[c].pc.Returning?
    ensures var e := Latest(None, es);
            && e.Some? && (t.cos[c].action == if e.value.Finish? then Terminate else Yield)
            && (e.value.Finish? ==> e.value.c == t.cos[c].pc.peer)
  {
    hide Runs, Target, Locked, Awake, Callers, Chained;
    InvStarted(leader);
    CallsRun(Started(leader), es, t, None);
    ActiveIsTurn(t, c);
    ResumedWith(leader, es, t, c);
  }

  // ---- The hand-over comes to an end ----

  /** The steps of handing control over, as against those of coroutine code (Create, Enter, YieldBack, Finish) and the
      spurious wake-ups a condition variable allows (Wake). */
  predicate HandsOver(e: Event) {
    e.DoSwitch? || e.Lock? || e.Test? || e.Resume? || e.Exit? || e.Reap?
  }

  /** The hand-over never gets stuck: unless coroutine code is running, some thread can take its next step. */
  lemma HandoverGoesOn(t: State) returns (e: Event)
    requires Inv(t) && !PcOf(t, Turn(t)).Running?
    ensures Enabled(t, e) && HandsOver(e)
  {
    hide Callers, Chained, OneRunnable;
    TurnThere(t);
    var c := Turn(t);
    NotAsleep(t);
    var pc := t.cos[c].pc;
    if t.lock.Some? {
      e := Test(t.lock.value);
    } else if pc.Switching? {
      HandTarget(t, pc.peer, pc.why);
      e := DoSwitch(c);
    } else if pc.Reaping? {
      e := if t.cos[pc.peer].pc.Gone? then Reap(c) else Exit(pc.peer);
    } else {
      e := if pc.Returning? then Resume(c) else Lock(c);
    }
  }

  lemma TurnThere(s: State)
    requires Core(s)
    ensures Turn(s) in s.cos
  {
    hide Callers, Chained, OneRunnable, Target;
  }

  lemma NotAsleep(s: State)
    requires Inv(s) && Turn(s) in s.cos
    ensures !s.cos[Turn(s)].pc.Sleeping? && !Over(s.cos[Turn(s)].pc)
  {
    hide Callers, Chained, Target, LastSwitch;
  }

  /** How much of the hand-over the coroutine whose turn it is has still before it. */
  function Phase(pc: Pc): nat {
    if pc.Switching? then 4 else if Waits(pc) then 3 else if pc.Returning? then 2 else if pc.Reaping? then 1 else 0
  }

  /** Threads that have still to take the lock, that hold it, and that have still to end. */
  function Outside(s: State): set<Id> {
    set c | c in s.cos && (s.cos[c].pc.Born? || s.cos[c].pc.Waking?)
  }

  function Inside(s: State): set<Id> {
    set c | c in s.cos && s.cos[c].pc.Checking?
  }

  function Unfinished(s: State): set<Id> {
    set c | c in s.cos && s.cos[c].pc.Leaving?
  }

  /** Steps the threads can take without the turn moving on. */
  function Idle(s: State): nat {
    2 * |Outside(s)| + |Inside(s)| + |Unfinished(s)|
  }

  /** What every step of the hand-over lowers. */
  function Left(s: State): nat {
    Phase(PcOf(s, Turn(s))) * (2 * |s.cos| + 1) + Idle(s)
  }

  lemma IdleBound(s: State)
    ensures Idle(s) <= 2 * |s.cos|
  {
    var a, b, c := Outside(s), Inside(s), Unfinished(s);
    assert a !! b && (a + b) !! c;
    assert |a + b + c| == |a| + |b| + |c|;
    SubsetSize(a + b + c, s.cos.Keys);
  }

  lemma {:induction false} SubsetSize(a: set<Id>, b: set<Id>)
    requires a <= b
    ensures |a| <= |b|
  {
    assert b == a + (b - a);
  }

  /** The turn moved on. */
  lemma PhaseDrops(s: State, t: State)
    requires Phase(PcOf(t, Turn(t))) < Phase(PcOf(s, Turn(s))) && |t.cos| <= |s.cos|
    ensures Left(t) < Left(s)
  {
    hide Phase, Idle, PcOf, Turn;
    IdleBound(t);
    Product(Phase(PcOf(t, Turn(t))), Phase(PcOf(s, Turn(s))), 2 * |t.cos| + 1, 2 * |s.cos| + 1);
  }

  lemma Product(p: nat, q: nat, m: nat, n: nat)
    requires p < q && m <= n
    ensures p * m + m <= q * n
  {
    assert (p + 1) * m <= q * m <= q * n;
  }

  lemma IdleDrops(s: State, t: State)
    requires PcOf(t, Turn(t)) == PcOf(s, Turn(s)) || (Waits(PcOf(t, Turn(t))) && Waits(PcOf(s, Turn(s))))
    requires |t.cos| == |s.cos| && Idle(t) < Idle(s)
    ensures Left(t) < Left(s)
  {
    hide Idle, PcOf, Turn;
  }

  /** Only thread c has moved. */
  ghost predicate Moves(s: State, t: State, c: Id, pc: Pc) {
    && c in s.cos && t.cos == s.cos[c := s.cos[c].(pc := pc)] && t.chain == s.chain
  }

  lemma MoveSize(s: State, t: State, c: Id, pc: Pc)
    requires Moves(s, t, c, pc)
    ensures |t.cos| == |s.cos|
  {
    assert t.cos.Keys == s.cos.Keys;
  }

  lemma LockDrops(s: State, t: State, c: Id, pc: Pc)
    requires Moves(s, t, c, pc) && (s.cos[c].pc.Born? || s.cos[c].pc.Waking?) && pc.Checking?
    ensures Left(t) < Left(s)
  {
    MoveSize(s, t, c, pc);
    assert Outside(t) == Outside(s) - {c} && Inside(t) == Inside(s) + {c} && Unfinished(t) == Unfinished(s);
    IdleDrops(s, t);
  }

  lemma SleepDrops(s: State, t: State, c: Id, pc: Pc)
    requires Moves(s, t, c, pc) && s.cos[c].pc.Checking? && pc.Sleeping?
    ensures Left(t) < Left(s)
  {
    MoveSize(s, t, c, pc);
    assert Outside(t) == Outside(s) && Inside(t) == Inside(s) - {c} && Unfinished(t) == Unfinished(s);
    IdleDrops(s, t);
  }

  lemma ExitDrops(s: State, t: State, c: Id)
    requires Moves(s, t, c, Gone) && s.cos[c].pc.Leaving? && c != Turn(s)
    ensures Left(t) < Left(s)
  {
    MoveSize(s, t, c, Gone);
    assert Outside(t) == Outside(s) && Inside(t) == Inside(s) && Unfinished(t) == Unfinished(s) - {c};
    IdleDrops(s, t);
  }

  lemma TurnDrops(s: State, t: State, pc: Pc)
    requires Moves(s, t, Turn(s), pc) && Phase(pc) < Phase(s.cos[Turn(s)].pc)
    ensures Left(t) < Left(s)
  {
    hide Phase, Idle;
    MoveSize(s, t, Turn(s), pc);
    PhaseDrops(s, t);
  }

  lemma SwitchDrops(s: State, c: Id)
    requires Inv(s) && Enabled(s, DoSwitch(c))
    ensures Left(Apply(s, DoSwitch(c))) < Left(s)
  {
    hide Core, Idle, Handed, Awake, Locked;
    var d, why, t := s.cos[c].pc.peer, s.cos[c].pc.why, Apply(s, DoSwitch(c));
    ActiveIsTurn(s, c);
    HandedKeeps(s, d, why);
    HandTarget(s, d, why);
    HandedShape(s, c, d, why);
    assert t.cos.Keys == s.cos.Keys;
    PhaseDrops(s, t);
  }

  lemma HandedShape(s: State, c: Id, d: Id, why: Why)
    requires c in s.cos && d in s.cos && c != d
    ensures var t := Handed(s, c, d, why); |t.cos| == |s.cos| && t.cos.Keys == s.cos.Keys && t.cos[d].pc == s.cos[d].pc
  {
    assert Handed(s, c, d, why).cos.Keys == s.cos.Keys;
  }

  lemma ReapDrops(s: State, c: Id)
    requires Inv(s) && Enabled(s, Reap(c))
    ensures Left(Apply(s, Reap(c))) < Left(s)
  {
    hide Core, Idle, Awake, Locked;
    var t := Apply(s, Reap(c));
    ActiveIsTurn(s, c);
    assert t.cos.Keys == s.cos.Keys - {s.cos[c].pc.peer};
    SubsetSize(t.cos.Keys, s.cos.Keys);
    PhaseDrops(s, t);
  }

  /** Every step of the hand-over brings its end nearer. */
  lemma HandoverNears(s: State, e: Event)
    requires Inv(s) && Enabled(s, e) && HandsOver(e)
    ensures Left(Apply(s, e)) < Left(s)
  {
    hide Core, Left, SwitchBody, Awake, Locked;
    var c, t := e.c, Apply(s, e);
    var co := s.cos[c];
    if !Waits(co.pc) && !Over(co.pc) {
      ActiveIsTurn(s, c);
    }
    match e
    case DoSwitch(_) => SwitchDrops(s, c);
    case Lock(_) => LockDrops(s, t, c, t.cos[c].pc);
    case Test(_) =>
      RunnableIsTurn(s, c);
      if co.runnable {
        TurnDrops(s, t, t.cos[c].pc);
      } else {
        SleepDrops(s, t, c, t.cos[c].pc);
      }
    case Resume(_) => TurnDrops(s, t, t.cos[c].pc);
    case Exit(_) =>
      LeavingIsNotTurn(s, c);
      ExitDrops(s, t, c);
    case Reap(_) => ReapDrops(s, c);
    case _ =>
  }

  lemma LeavingIsNotTurn(s: State, c: Id)
    requires Core(s) && c in s.cos && Over(s.cos[c].pc)
    ensures c != Turn(s)
  {
    hide Callers, Chained, Target, LastSwitch;
  }

  /** A spurious wake-up costs two more steps. */
  lemma WakeCosts(s: State, c: Id)
    requires Enabled(s, Wake(c))
    ensures Left(Apply(s, Wake(c))) == Left(s) + 2
  {
    var t := Apply(s, Wake(c));
    MoveSize(s, t, c, t.cos[c].pc);
    assert Outside(t) == Outside(s) + {c} && Inside(t) == Inside(s) && Unfinished(t) == Unfinished(s);
  }

  function Wakes(es: seq<Event>): nat {
    if es == [] then 0 else (if es[0].Wake? then 1 else 0) + Wakes(es[1..])
  }

  /** However the threads are scheduled, the hand-over takes at most Left(s) steps and three for every spurious
      wake-up. */
  lemma {:induction false} HandoverBound(s: State, es: seq<Event>, t: State)
    requires Inv(s) && Runs(s, es, t) && forall i :: 0 <= i < |es| ==> HandsOver(es[i]) || es[i].Wake?
    ensures Inv(t) && |es| + Left(t) <= Left(s) + 3 * Wakes(es)
    decreases |es|
  {
    hide Inv, Left, Apply, Enabled;
    if es != [] {
      StepKeeps(s, es[0]);
      if es[0].Wake? {
        WakeCosts(s, es[0].c);
      } else {
        HandoverNears(s, es[0]);
      }
      HandoverBound(Apply(s, es[0]), es[1..], t);
    }
  }

  /** So in every reachable state control reaches the coroutine whose turn it is: a run of hand-over steps that cannot
      go on, and there is no endless one, ends with that coroutine running. */
  lemma TurnIsReached(leader: Id, before: seq<Event>, s: State, es: seq<Event>, t: State)
    requires Runs(Started(leader), before, s)
    requires Runs(s, es, t) && forall i :: 0 <= i < |es| ==> HandsOver(es[i]) || es[i].Wake?
    ensures |es| <= Left(s) + 3 * Wakes(es)
    ensures (forall e :: HandsOver(e) ==> !Enabled(t, e)) ==> PcOf(t, Turn(t)).Running?
  {
    hide Inv, Left, Runs, Enabled, PcOf, Turn, HandsOver;
    Reached(leader, before, s);
    HandoverBound(s, es, t);
    if forall e :: HandsOver(e) ==> !Enabled(t, e) {
      if !PcOf(t, Turn(t)).Running? {
        var e := HandoverGoesOn(t);
        assert false;
      }
    }
  }
}
