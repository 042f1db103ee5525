/** The wakeup protocol always comes to rest: while anything is left to do some step of it can be
    taken, and no step is taken for ever. */
module BlockingProgress {
  import opened Bytes
  import opened WaitQueues
  import opened Blocking

  /** A step of the protocol itself: not a client arriving or giving up, not the arrival or loss of
      elements, and not a signal that nothing calls for. */
  predicate Internal(step: Step) {
    && !step.Push? && !step.Take? && !step.Signal? && !step.Arrive? && !step.GiveUp?
    && (step.Collect? ==> step.ks != {})
  }

  // ---- a measure that every internal step lowers ------------------------------------------------

  function Stage(pc: Pc): nat {
    match pc
    case Arriving => 8
    case Looking => 7
    case First(_) => 6
    case Joining => 5
    case Inserted => 4
    case Waiting => 3
    case Checking(_) => 3
    case Trying(_) => 3
    case Leaving => 2
    case Removed => 1
    case Done => 0
  }

  /** How much of a scan is left. */
  function Remaining(c: Client): nat {
    var n := |c.keys|;
    match c.pc
    case First(i) => if i <= n then n - i + 1 else 0
    case Checking(i) => if i <= n then 2 * n - i + 2 else 0
    case Trying(i) => if i <= n then n - i + 1 else 0
    case _ => 0
  }

  ghost function Stages(s: State): set<(Id, nat)> {
    set id, n | id in s.clients && 0 <= n < Stage(s.clients[id].pc) :: (id, n)
  }

  ghost function Unloaded(s: State): set<nat> { set j | j in s.wakers && !s.wakers[j].loaded }

  ghost function ToCollect(s: State): set<(nat, DbKey)> {
    set j, k | j in s.wakers && k in s.wakers[j].keys :: (j, k)
  }

  ghost function ToSend(s: State): set<(nat, Id)> { set j, h | j in s.wakers && h in s.wakers[j].heads :: (j, h) }

  ghost function Ready(s: State): set<Id> { set id | id in s.clients && s.clients[id].ready }

  ghost function ToScan(s: State): set<(Id, nat)> {
    set id, n | id in s.clients && 0 <= n < Remaining(s.clients[id]) :: (id, n)
  }

  /** Lexicographic descent: clients move on; or, with that equal, signallers load; then collect;
      then send; then wakeups are consumed; then keys are scanned. */
  ghost predicate Descends(s: State, s': State) {
    || Stages(s') < Stages(s)
    || (Stages(s') == Stages(s) && Unloaded(s') < Unloaded(s))
    || (Stages(s') == Stages(s) && Unloaded(s') == Unloaded(s) && ToCollect(s') < ToCollect(s))
    || (Stages(s') == Stages(s) && SameWork(s, s') && ToSend(s') < ToSend(s))
    || (Stages(s') == Stages(s) && SameWork(s, s') && ToSend(s') == ToSend(s) && Ready(s') < Ready(s))
    || (Stages(s') == Stages(s) && SameWork(s, s') && ToSend(s') == ToSend(s) && Ready(s') == Ready(s)
        && ToScan(s') < ToScan(s))
  }

  ghost predicate SameWork(s: State, s': State) { Unloaded(s') == Unloaded(s) && ToCollect(s') == ToCollect(s) }

  /** A client that moves on to a lower stage, the others staying put. */
  lemma StageDown(s: State, s': State, id: Id)
    requires s'.clients.Keys == s.clients.Keys && id in s.clients
    requires forall x :: x in s.clients && x != id ==> s'.clients[x] == s.clients[x]
    requires Stage(s'.clients[id].pc) < Stage(s.clients[id].pc)
    ensures Stages(s') < Stages(s)
  {
    var n := Stage(s'.clients[id].pc);
    assert (id, n) in Stages(s) && (id, n) !in Stages(s');
    forall p | p in Stages(s') ensures p in Stages(s) { }
  }

  /** A client that stays in its stage while its scan goes on or starts. */
  lemma StageLevel(s: State, s': State, id: Id)
    requires s'.clients.Keys == s.clients.Keys && id in s.clients
    requires forall x :: x in s.clients && x != id ==> s'.clients[x] == s.clients[x]
    requires Stage(s'.clients[id].pc) == Stage(s.clients[id].pc)
    ensures Stages(s') == Stages(s)
    ensures s'.clients[id].ready == s.clients[id].ready ==> Ready(s') == Ready(s)
    ensures !s'.clients[id].ready && s.clients[id].ready ==> Ready(s') < Ready(s)
    ensures Remaining(s'.clients[id]) < Remaining(s.clients[id]) ==> ToScan(s') < ToScan(s)
  {
    assert id in Ready(s) <==> s.clients[id].ready;
    assert id in Ready(s') <==> s'.clients[id].ready;
    var n := Remaining(s'.clients[id]);
    if n < Remaining(s.clients[id]) {
      assert (id, n) in ToScan(s) && (id, n) !in ToScan(s');
      forall p | p in ToScan(s') ensures p in ToScan(s) { }
    }
  }

  /** The stage, the wakeup and the scan of the client a step acts on. */
  lemma ActorDescends(mode: Mode, s: State, step: Step)
    requires Enabled(s, step) && Internal(step) && !step.Send? && Actor(step).Some?
    ensures var id, s' := Actor(step).value, Next(mode, s, step);
            && id in s.clients && id in s'.clients
            && var c, c' := s.clients[id], s'.clients[id];
            || Stage(c'.pc) < Stage(c.pc)
            || (Stage(c'.pc) == Stage(c.pc) && s'.wakers == s.wakers && c.ready && !c'.ready)
            || (Stage(c'.pc) == Stage(c.pc) && s'.wakers == s.wakers && c.ready == c'.ready
                && Remaining(c') < Remaining(c))
  {
    hide Queue, HeadKeys, Heads;
  }

  lemma ClientStepDescends(mode: Mode, s: State, step: Step)
    requires Enabled(s, step) && Internal(step) && !step.Send? && Actor(step).Some?
    ensures Descends(s, Next(mode, s, step))
  {
    hide Enabled, Next, Stages, Ready, ToScan, Unloaded, ToCollect, ToSend, Stage, Remaining;
    var s', id := Next(mode, s, step), Actor(step).value;
    ActorDescends(mode, s, step);
    forall x | x != id
      ensures (x in s'.clients <==> x in s.clients) && (x in s.clients ==> s'.clients[x] == s.clients[x])
    {
      BystanderKept(mode, s, step, x);
    }
    assert s'.clients.Keys == s.clients.Keys;
    if Stage(s'.clients[id].pc) < Stage(s.clients[id].pc) {
      StageDown(s, s', id);
    } else {
      StageLevel(s, s', id);
      SameWakers(s, s');
    }
  }

  lemma SameWakers(s: State, s': State)
    requires s'.wakers == s.wakers
    ensures SameWork(s, s') && ToSend(s') == ToSend(s)
  {
  }

  lemma LoadDescends(mode: Mode, s: State, j: nat)
    requires Enabled(s, Load(j))
    ensures Descends(s, Next(mode, s, Load(j)))
  {
    hide ToCollect, ToSend, Ready, ToScan;
    var s' := Next(mode, s, Load(j));
    assert Stages(s') == Stages(s);
    assert j in Unloaded(s) && j !in Unloaded(s');
    assert Unloaded(s') <= Unloaded(s);
  }

  lemma CollectDescends(mode: Mode, s: State, j: nat, ks: set<DbKey>)
    requires Enabled(s, Collect(j, ks)) && ks != {}
    ensures Descends(s, Next(mode, s, Collect(j, ks)))
  {
    hide ToSend, Ready, ToScan, Heads;
    var s' := Next(mode, s, Collect(j, ks));
    assert Stages(s') == Stages(s) && Unloaded(s') == Unloaded(s);
    var k :| k in ks;
    assert (j, k) in ToCollect(s) && (j, k) !in ToCollect(s');
    assert ToCollect(s') <= ToCollect(s);
  }

  lemma SendDescends(mode: Mode, s: State, j: nat, h: Id)
    requires Enabled(s, Send(j, h))
    ensures Descends(s, Next(mode, s, Send(j, h)))
  {
    hide Ready, ToScan;
    var s' := Next(mode, s, Send(j, h));
    assert Stages(s') == Stages(s) && Unloaded(s') == Unloaded(s) && ToCollect(s') == ToCollect(s);
    assert (j, h) in ToSend(s) && (j, h) !in ToSend(s');
    assert ToSend(s') <= ToSend(s);
  }

  /** No step of the protocol can be repeated for ever. */
  lemma InternalStepDescends(mode: Mode, s: State, step: Step)
    requires Enabled(s, step) && Internal(step)
    ensures Descends(s, Next(mode, s, step))
  {
    match step {
      case Load(j) => LoadDescends(mode, s, j);
      case Collect(j, ks) => CollectDescends(mode, s, j, ks);
      case Send(j, h) => SendDescends(mode, s, j, h);
      case _ => ClientStepDescends(mode, s, step);
    }
    hide Enabled, Next, Descends;
  }

  // ---- a step is possible until everything is at rest ---------------------------------------------

  predicate InBounds(s: State, id: Id) {
    id in s.clients && (s.clients[id].pc.First? || s.clients[id].pc.Checking? || s.clients[id].pc.Trying?) ==>
      s.clients[id].pc.i <= |s.clients[id].keys|
  }

  ghost predicate Sound(mode: Mode, s: State) { Inv(mode, s) && forall id :: InBounds(s, id) }

  lemma InBoundsStep(mode: Mode, s: State, step: Step, id: Id)
    requires InBounds(s, id) && Enabled(s, step)
    ensures InBounds(Next(mode, s, step), id)
  {
    if Actor(step) != Some(id) {
      BystanderKept(mode, s, step, id);
      hide Next, Enabled;
    } else {
      hide HeadKeys, Heads, Queue;
    }
  }

  lemma SoundStep(mode: Mode, s: State, step: Step)
    requires Sound(mode, s) && Enabled(s, step)
    ensures Sound(mode, Next(mode, s, step))
  {
    hide Inv, Enabled, Next, InBounds;
    InvStep(mode, s, step);
    forall id ensures InBounds(Next(mode, s, step), id) { InBoundsStep(mode, s, step, id); }
  }

  lemma SoundInit(mode: Mode, s: State)
    requires Init(s)
    ensures Sound(mode, s)
  {
    hide Inv;
    InvInit(mode, s);
  }

  lemma {:induction false} RunSound(mode: Mode, run: seq<State>, steps: seq<Step>, i: nat)
    requires IsRun(mode, run, steps) && i < |run|
    ensures Sound(mode, run[i])
  {
    hide Init, Sound, Enabled, Next;
    if i == 0 {
      SoundInit(mode, run[0]);
    } else {
      RunSound(mode, run, steps, i - 1);
      assert Enabled(run[i - 1], steps[i - 1]) && run[i] == Next(mode, run[i - 1], steps[i - 1]);
      SoundStep(mode, run[i - 1], steps[i - 1]);
    }
  }

  lemma {:induction false} Above(xs: set<nat>) returns (j: nat)
    ensures forall x :: x in xs ==> x < j
  {
    if xs == {} {
      j := 0;
    } else {
      var x :| x in xs;
      var rest := Above(xs - {x});
      j := if rest <= x then x + 1 else rest;
      assert forall y :: y in xs ==> y == x || y in xs - {x};
    }
  }

  lemma ClientCanStep(s: State, id: Id) returns (step: Step)
    requires InBounds(s, id) && id in s.clients
    requires s.clients[id].pc != Done && !(s.clients[id].pc == Waiting && !s.clients[id].ready)
    ensures Internal(step) && Enabled(s, step)
  {
    var c := s.clients[id];
    var j := Above(s.wakers.Keys);
    match c.pc {
      case Arriving => step := LookCount(id);
      case Looking => step := LookQueues(id);
      case First(i) => step := if i < |c.keys| && c.keys[i] in s.stock then Serve(id, 1) else Scan(id);
      case Joining => step := Insert(id);
      case Inserted => step := Complete(id);
      case Waiting => step := Consume(id);
      case Checking(i) => step := Scan(id);
      case Trying(i) => step := if i < |c.keys| && c.keys[i] in s.stock then Serve(id, 1) else Scan(id);
      case Leaving => step := Unregister(id);
      case Removed => step := Decrement(id, j);
    }
  }

  lemma WakerCanStep(mode: Mode, s: State, j: nat) returns (step: Step)
    requires Inv(mode, s) && j in s.wakers
    requires !(s.wakers[j].loaded && s.wakers[j].keys == {} && s.wakers[j].heads == {})
    ensures Internal(step) && Enabled(s, step)
  {
    hide Seating, Counting, Watched, LateAt;
    var w := s.wakers[j];
    if !w.loaded {
      step := Load(j);
    } else if w.keys != {} {
      step := Collect(j, w.keys);
    } else {
      var h :| h in w.heads;
      assert WokenAtHead(mode, s, h);
      assert Woken(s, h);
      step := Send(j, h);
    }
  }

  lemma CanStep(mode: Mode, s: State) returns (step: Step)
    requires Sound(mode, s) && !Quiescent(s)
    ensures Internal(step) && Enabled(s, step)
  {
    hide Inv, InBounds, Internal, Enabled;
    if j :| j in s.wakers && !(s.wakers[j].loaded && s.wakers[j].keys == {} && s.wakers[j].heads == {}) {
      step := WakerCanStep(mode, s, j);
    } else {
      var id :| id in s.clients && s.clients[id].pc != Done && !(s.clients[id].pc == Waiting && !s.clients[id].ready);
      assert InBounds(s, id);
      step := ClientCanStep(s, id);
    }
  }

  /** A choice of the protocol's next step that is possible whenever one is. */
  ghost predicate IsSchedule(mode: Mode, pick: State -> Step) {
    forall s :: Sound(mode, s) && !Quiescent(s) ==> Internal(pick(s)) && Enabled(s, pick(s))
  }

  /** The states a schedule goes through, up to the first one at rest. */
  ghost predicate Follows(mode: Mode, trace: seq<State>, pick: State -> Step) {
    && trace != []
    && forall i :: 0 <= i < |trace| - 1 ==>
         && !Quiescent(trace[i]) && Enabled(trace[i], pick(trace[i]))
         && trace[i + 1] == Next(mode, trace[i], pick(trace[i]))
  }

  ghost function Pick(s: State): Step {
    if exists step :: Internal(step) && Enabled(s, step) then
      var step :| Internal(step) && Enabled(s, step); step
    else Load(0)
  }

  /** There is such a choice: until everything is at rest some step is possible. */
  lemma ScheduleExists(mode: Mode)
    ensures IsSchedule(mode, s => Pick(s))
  {
    hide Sound, Internal, Enabled, Quiescent;
    forall s | Sound(mode, s) && !Quiescent(s) ensures Internal(Pick(s)) && Enabled(s, Pick(s)) {
      var step := CanStep(mode, s);
    }
  }

  ghost predicate OnlyLateStuck(mode: Mode, s: State) {
    forall k :: Stuck(s, k) <==> k in s.late && mode == SleepAtOnce
  }

  /** However the scheduler picks among the steps that are possible, the protocol comes to rest, and
      then the keys with both an element and a waiter are the late ones; with a retry after
      registration there are none. */
  lemma {:induction false} ComesToRest(mode: Mode, s: State, pick: State -> Step) returns (trace: seq<State>)
    requires Sound(mode, s) && IsSchedule(mode, pick)
    ensures Follows(mode, trace, pick) && trace[0] == s
    ensures Quiescent(trace[|trace| - 1]) && OnlyLateStuck(mode, trace[|trace| - 1])
    decreases Stages(s), Unloaded(s), ToCollect(s), ToSend(s), Ready(s), ToScan(s)
  {
    hide Enabled, Next, Stages, Unloaded, ToCollect, ToSend, Ready, ToScan, Internal, Stuck;
    if Quiescent(s) {
      trace := [s];
      forall k ensures Stuck(s, k) <==> k in s.late && mode == SleepAtOnce { AtRest(mode, s, k); }
    } else {
      hide Quiescent, Sound, OnlyLateStuck;
      var step := pick(s);
      InternalStepDescends(mode, s, step);
      SoundStep(mode, s, step);
      var more := ComesToRest(mode, Next(mode, s, step), pick);
      trace := [s] + more;
    }
  }

  /** So it does from every state of every run. */
  lemma EveryRunComesToRest(mode: Mode, run: seq<State>, steps: seq<Step>, i: nat, pick: State -> Step)
    returns (trace: seq<State>)
    requires IsRun(mode, run, steps) && i < |run| && IsSchedule(mode, pick)
    ensures Follows(mode, trace, pick) && trace[0] == run[i] && Quiescent(trace[|trace| - 1])
    ensures OnlyLateStuck(mode, trace[|trace| - 1])
  {
    hide IsRun, IsSchedule, Sound, Follows, Quiescent, OnlyLateStuck;
    RunSound(mode, run, steps, i);
    trace := ComesToRest(mode, run[i], pick);
    FollowsSomething(mode, trace, pick);
  }

  lemma FollowsSomething(mode: Mode, trace: seq<State>, pick: State -> Step)
    requires Follows(mode, trace, pick)
    ensures trace != []
  {
  }
}
