/** Live migration over whole runs: when it is a sequential execution on one map, exactly, and the
    runs on which it is not. */
module MigrationRuns {
  import opened Bytes
  import opened SlotHash
  import opened Redirect
  import opened ClusterTable
  import opened Migration

  ghost predicate IsRun(u: Setup, states: seq<State>, steps: seq<Step>, events: seq<Event>) {
    && |states| == |steps| + 1 && |events| == |steps|
    && Init(u, states[0])
    && forall i :: 0 <= i < |steps| ==> Next(u, states[i], steps[i], states[i + 1], events[i])
  }

  /** The served commands, one after another on a single map, give these replies and this map. */
  ghost predicate Sequential(m: Store, events: seq<Event>, m': Store)
    decreases |events|
  {
    if events == [] then m == m'
    else
      var before := events[..|events| - 1];
      match events[|events| - 1]
      case Internal => Sequential(m, before, m')
      case Served(cmd, reply) =>
        exists mid :: Sequential(m, before, mid) && reply == ReplyOf(cmd, mid) && m' == StoreAfter(cmd, mid)
  }

  lemma {:induction false} OneOutcome(m: Store, events: seq<Event>, x: Store, y: Store)
    requires Sequential(m, events, x) && Sequential(m, events, y)
    ensures x == y
    decreases |events|
  {
    hide ReplyOf, StoreAfter;
    if events != [] {
      var before := events[..|events| - 1];
      match events[|events| - 1]
      case Internal => OneOutcome(m, before, x, y);
      case Served(cmd, reply) =>
        var a :| Sequential(m, before, a) && reply == ReplyOf(cmd, a) && x == StoreAfter(cmd, a);
        var b :| Sequential(m, before, b) && reply == ReplyOf(cmd, b) && y == StoreAfter(cmd, b);
        OneOutcome(m, before, a, b);
    }
  }

  lemma InitIsGood(u: Setup, s: State)
    requires Init(u, s)
    ensures Inv(u, s) && Abs(u, s) == s.stores[u.src]
  {
  }

  lemma {:induction false} RunInv(u: Setup, states: seq<State>, steps: seq<Step>, events: seq<Event>, i: nat)
    requires IsRun(u, states, steps, events) && i < |states|
    ensures Inv(u, states[i]) && u.src in states[i].stores && u.tgt in states[i].stores
    ensures u.src in states[i].views && u.tgt in states[i].views
  {
    hide Inv, Init, Next;
    if i == 0 {
      InitIsGood(u, states[0]);
    } else {
      RunInv(u, states, steps, events, i - 1);
      assert Next(u, states[i - 1], steps[i - 1], states[i], events[i - 1]);
      StepRefines(u, states[i - 1], steps[i - 1], states[i], events[i - 1]);
    }
    HasBoth(u, states[i]);
  }

  lemma HasBoth(u: Setup, s: State)
    requires Inv(u, s)
    ensures u.src != u.tgt && u.src in s.stores && u.tgt in s.stores && u.src in s.views && u.tgt in s.views
  {
    hide GoodStores, GoodMsg, Phase;
  }

  /** At a point of a run, the commands served so far have acted one after another on the map the two
      nodes hold together. */
  ghost predicate OneMapAt(u: Setup, states: seq<State>, events: seq<Event>, i: nat)
    requires i < |states| && i <= |events|
    requires states[0].stores.Keys >= {u.src} && states[i].stores.Keys >= {u.src, u.tgt}
  {
    Sequential(states[0].stores[u.src], events[..i], Abs(u, states[i]))
  }

  /** From one point of a run to the next the one map is followed exactly if the step refines it. */
  lemma OneMapNext(u: Setup, m: Store, events: seq<Event>, s: State, s': State, i: nat)
    requires i < |events| && u.src in s.stores && u.tgt in s.stores && u.src in s'.stores && u.tgt in s'.stores
    requires Sequential(m, events[..i], Abs(u, s))
    ensures Sequential(m, events[..i + 1], Abs(u, s')) <==> Refines(u, s, s', events[i])
  {
    hide ReplyOf, StoreAfter, Abs;
    var all := events[..i + 1];
    assert all[..|all| - 1] == events[..i];
    var e := events[i];
    if Sequential(m, all, Abs(u, s')) {
      match e
      case Internal => OneOutcome(m, events[..i], Abs(u, s), Abs(u, s'));
      case Served(cmd, reply) =>
        var mid :| Sequential(m, events[..i], mid) && reply == ReplyOf(cmd, mid) && Abs(u, s') == StoreAfter(cmd, mid);
        OneOutcome(m, events[..i], Abs(u, s), mid);
    }
  }

  /** A run is a sequential execution of the commands it served on one map, at every point, exactly
      when each of its steps is faithful. */
  lemma RunRefinesExactly(u: Setup, states: seq<State>, steps: seq<Step>, events: seq<Event>)
    requires IsRun(u, states, steps, events)
    ensures forall i :: 0 <= i < |states| ==>
              states[i].stores.Keys >= {u.src, u.tgt} && states[i].views.Keys >= {u.src, u.tgt}
    ensures (forall i :: 0 <= i < |states| ==> OneMapAt(u, states, events, i)) <==>
            (forall i :: 0 <= i < |steps| ==> Faithful(u, states[i], steps[i]))
  {
    hide Inv, Init, Next, Faithful, Sequential, Abs, Refines;
    forall i | 0 <= i < |states|
      ensures states[i].stores.Keys >= {u.src, u.tgt} && states[i].views.Keys >= {u.src, u.tgt}
    {
      RunInv(u, states, steps, events, i);
    }
    if forall i :: 0 <= i < |steps| ==> Faithful(u, states[i], steps[i]) {
      forall i | 0 <= i < |states| ensures OneMapAt(u, states, events, i) {
        FaithfulSoFar(u, states, steps, events, i);
      }
    }
    if forall i :: 0 <= i < |states| ==> OneMapAt(u, states, events, i) {
      forall i | 0 <= i < |steps| ensures Faithful(u, states[i], steps[i]) {
        assert OneMapAt(u, states, events, i) && OneMapAt(u, states, events, i + 1);
        OneMapNext(u, states[0].stores[u.src], events, states[i], states[i + 1], i);
        RunInv(u, states, steps, events, i);
        StepRefines(u, states[i], steps[i], states[i + 1], events[i]);
      }
    }
  }

  lemma {:induction false} FaithfulSoFar(u: Setup, states: seq<State>, steps: seq<Step>, events: seq<Event>, n: nat)
    requires IsRun(u, states, steps, events) && n < |states|
    requires forall i :: 0 <= i < |states| ==>
               states[i].stores.Keys >= {u.src, u.tgt} && states[i].views.Keys >= {u.src, u.tgt}
    requires forall i :: 0 <= i < n ==> Faithful(u, states[i], steps[i])
    ensures OneMapAt(u, states, events, n)
  {
    hide Inv, Init, Next, Faithful, Abs, Refines;
    if n == 0 {
      InitIsGood(u, states[0]);
      assert events[..0] == [];
    } else {
      hide Sequential;
      FaithfulSoFar(u, states, steps, events, n - 1);
      RunInv(u, states, steps, events, n - 1);
      assert Next(u, states[n - 1], steps[n - 1], states[n], events[n - 1]);
      StepRefines(u, states[n - 1], steps[n - 1], states[n], events[n - 1]);
      OneMapNext(u, states[0].stores[u.src], events, states[n - 1], states[n], n - 1);
    }
  }

  // ---- with writes held back -----------------------------------------------------------------

  /** A command served at the source removes a key that the target holds as well. */
  predicate UncoversCopy(u: Setup, s: State, step: Step)
    requires u.src in s.views && u.tgt in s.views && u.src in s.stores && u.tgt in s.stores
  {
    && step.Deliver? && step.c in s.flight && s.flight[step.c].at == u.src && s.flight[step.c].cmd.write
    && DecisionAt(u, s, s.flight[step.c]).Serve?
    && exists k :: k in s.flight[step.c].cmd.keys && k in s.stores[u.tgt]
                   && k !in StoreAfter(s.flight[step.c].cmd, s.stores[u.src])
  }

  /** A RESTORE that its MIGRATE gave up on is carried out when the source no longer has the key and
      the target does not have this value. */
  predicate LandsLate(u: Setup, s: State, step: Step)
    requires u.tgt in s.views && u.src in s.stores && u.tgt in s.stores
  {
    step.LateLand? && step.i < |s.late| && !LandsUnseen(u, s, s.late[step.i])
  }

  /** A MIGRATE deletes a key whose acknowledged value the target no longer has. */
  predicate DeletesOverwritten(u: Setup, s: State, step: Step)
    requires u.tgt in s.stores
  {
    && step.MigrateFinish? && step.j in s.moving && WellSent(s.moving[step.j]) && !s.moving[step.j].copying
    && exists i :: 0 <= i < s.moving[step.j].sent && !Holds(s.stores[u.tgt], s.moving[step.j].batch[i])
  }

  predicate Holds(m: Store, kv: (Key, Val)) { kv.0 in m && m[kv.0] == kv.1 }

  /** With writes held back, a run is a sequential execution on one map exactly when no command served
      at the source removes a key that the target also holds, no RESTORE lands late where it is seen,
      and no MIGRATE deletes a key whose acknowledged value was overwritten: lost replies, timeouts and
      MIGRATE COPY included. */
  lemma HeldRunRefinesExactly(u: Setup, states: seq<State>, steps: seq<Step>, events: seq<Event>)
    requires IsRun(u, states, steps, events) && u.held
    ensures forall i :: 0 <= i < |states| ==>
              states[i].stores.Keys >= {u.src, u.tgt} && states[i].views.Keys >= {u.src, u.tgt}
    ensures (forall i :: 0 <= i < |states| ==> OneMapAt(u, states, events, i)) <==>
            (forall i :: 0 <= i < |steps| ==> !Visible(u, states[i], steps[i]))
  {
    hide Inv, OneMapAt, Visible;
    RunRefinesExactly(u, states, steps, events);
    forall i | 0 <= i < |steps| ensures Faithful(u, states[i], steps[i]) <==> !Visible(u, states[i], steps[i]) {
      RunInv(u, states, steps, events, i);
      HeldFaithful(u, states[i], steps[i]);
    }
  }

  predicate Visible(u: Setup, s: State, step: Step)
    requires u.src in s.views && u.tgt in s.views && u.src in s.stores && u.tgt in s.stores
  {
    UncoversCopy(u, s, step) || LandsLate(u, s, step) || DeletesOverwritten(u, s, step)
  }

  lemma HeldFaithful(u: Setup, s: State, step: Step)
    requires Inv(u, s) && u.held && u.src in s.views && u.tgt in s.views && u.src in s.stores && u.tgt in s.stores
    ensures Faithful(u, s, step) <==> !Visible(u, s, step)
  {
    hide GoodViews, GoodMsg, DecisionAt, StoreAfter, Accepts, DeletesSafely, Phase;
    if step.MigrateFinish? && step.j in s.moving {
      SafeExactly(s.moving[step.j], s.stores[u.src], s.stores[u.tgt]);
    }
  }

  lemma SafeExactly(mv: Moving, src: Store, tgt: Store)
    requires WellSent(mv) && StillThere(mv, src)
    ensures DeletesSafely(mv, src, tgt) <==> mv.copying || forall i :: 0 <= i < mv.sent ==> Holds(tgt, mv.batch[i])
  {
    if !mv.copying {
      forall i | 0 <= i < mv.sent ensures mv.batch[i].0 in Gone(mv) { assert Gone(mv)[i] == mv.batch[i].0; }
      forall k | k in Gone(mv) ensures exists i :: 0 <= i < mv.sent && mv.batch[i].0 == k {
        var i :| 0 <= i < |Gone(mv)| && Gone(mv)[i] == k;
      }
    }
  }

  // ---- what overwrites an acknowledged value ------------------------------------------------------

  /** How much of its batch a MIGRATE has got to the target, acknowledged or about to be. */
  function Count(mv: Moving): nat { if mv.wait == Answered(true) then mv.sent + 1 else mv.sent }

  /** What a MIGRATE got to the target is there. */
  ghost predicate Arrived(u: Setup, s: State)
    requires u.tgt in s.stores
  {
    forall j :: j in s.moving ==> HasArrived(s.moving[j], s.stores[u.tgt])
  }

  ghost predicate HasArrived(mv: Moving, tgt: Store) {
    Count(mv) <= |mv.batch| && forall i :: 0 <= i < Count(mv) ==> Holds(tgt, mv.batch[i])
  }

  /** A late RESTORE replaces a value that a MIGRATE under way has got to the target. */
  ghost predicate Overwrites(u: Setup, s: State, step: Step)
    requires u.tgt in s.views && u.tgt in s.stores
  {
    && step.LateLand? && step.i < |s.late| && Accepts(u, s, s.late[step.i])
    && exists j, i :: j in s.moving && 0 <= i < Count(s.moving[j]) <= |s.moving[j].batch|
                      && s.moving[j].batch[i].0 == s.late[step.i].key && s.moving[j].batch[i].1 != s.late[step.i].val
  }

  lemma ArrivedStep(u: Setup, s: State, step: Step, s': State, e: Event)
    requires Inv(u, s) && u.held && Next(u, s, step, s', e) && u.tgt in s'.stores && Arrived(u, s)
    requires !Overwrites(u, s, step)
    ensures Arrived(u, s')
  {
    HasBoth(u, s);
    hide Inv, Next, Arrived, Overwrites;
    match step
    case Deliver(c) => ArrivedDelivered(u, s, c, s', e);
    case MigrateLand(j) => ArrivedLanded(u, s, j, s', e);
    case LateLand(i) => ArrivedLate(u, s, i, s', e);
    case _ => ArrivedQuiet(u, s, step, s', e);
  }

  lemma ArrivedDelivered(u: Setup, s: State, c: Client, s': State, e: Event)
    requires Inv(u, s) && u.held && Next(u, s, Deliver(c), s', e) && u.tgt in s'.stores && Arrived(u, s)
    ensures Arrived(u, s')
  {
    hide Inv, DecisionAt, StoreAfter, ReplyOf, HasArrived;
    if DecisionAt(u, s, s.flight[c]).Serve? { ArrivedServed(u, s, c, s', e); }
  }

  lemma ArrivedQuiet(u: Setup, s: State, step: Step, s': State, e: Event)
    requires !step.Deliver? && !step.MigrateLand? && !step.LateLand? && Next(u, s, step, s', e)
    requires u.src != u.tgt && u.tgt in s'.stores && Arrived(u, s)
    ensures Arrived(u, s')
  {
    hide SetSlot, InScript, Phase, BatchOf, Without, Holds, Pending;
  }

  lemma ArrivedServed(u: Setup, s: State, c: Client, s': State, e: Event)
    requires Inv(u, s) && u.held && Next(u, s, Deliver(c), s', e) && DecisionAt(u, s, s.flight[c]).Serve?
    requires u.tgt in s.stores && u.tgt in s'.stores && Arrived(u, s)
    ensures Arrived(u, s')
  {
    HasBoth(u, s);
    hide DecisionAt, GoodViews, GoodMsg, Phase, StoreAfter;
    var m := s.flight[c];
    if m.at == u.tgt {
      if m.cmd.keys == [] { NothingNamed(m.cmd, s.stores[u.tgt]); } else { WhoServes(u, s, m); }
      forall j, i | j in s.moving && 0 <= i < Count(s.moving[j]) ensures Holds(s'.stores[u.tgt], s.moving[j].batch[i]) {
        var k := s.moving[j].batch[i].0;
        assert k in s.stores[u.src];
        if m.cmd.keys != [] { TouchesOnlyNamed(m.cmd, s.stores[u.tgt], k); }
      }
    }
  }

  lemma ArrivedLanded(u: Setup, s: State, j: nat, s': State, e: Event)
    requires Inv(u, s) && u.held && Next(u, s, MigrateLand(j), s', e)
    requires u.tgt in s.stores && u.tgt in s'.stores && Arrived(u, s)
    ensures Arrived(u, s')
  {
    HasBoth(u, s);
    hide GoodViews, GoodMsg, Phase, Accepts;
    var mv, mv' := s.moving[j], s'.moving[j];
    forall i | i in s'.moving ensures i == j { assert i in s.moving; }
    forall i | 0 <= i < Count(mv') ensures Holds(s'.stores[u.tgt], mv'.batch[i]) {
      assert i < mv.sent ==> Holds(s.stores[u.tgt], mv.batch[i]);
    }
  }

  lemma ArrivedLate(u: Setup, s: State, i: nat, s': State, e: Event)
    requires Next(u, s, LateLand(i), s', e) && u.tgt in s.stores && u.tgt in s'.stores && Arrived(u, s)
    requires !Overwrites(u, s, LateLand(i))
    ensures Arrived(u, s')
  {
    hide Accepts;
  }

  /** Over every run with writes held back: a MIGRATE deletes a key whose acknowledged value is gone only
      if a late RESTORE has overwritten it before. */
  lemma {:induction false} OnlyLateOverwrites(u: Setup, states: seq<State>, steps: seq<Step>, events: seq<Event>,
                                              n: nat)
    requires IsRun(u, states, steps, events) && u.held && n < |states|
    requires forall i :: 0 <= i < |states| ==>
               states[i].stores.Keys >= {u.src, u.tgt} && states[i].views.Keys >= {u.src, u.tgt}
    requires forall i :: 0 <= i < n ==> !Overwrites(u, states[i], steps[i])
    ensures Arrived(u, states[n]) && (n < |steps| ==> !DeletesOverwritten(u, states[n], steps[n]))
  {
    hide Inv, Next, Overwrites;
    if n > 0 {
      OnlyLateOverwrites(u, states, steps, events, n - 1);
      RunInv(u, states, steps, events, n - 1);
      assert Next(u, states[n - 1], steps[n - 1], states[n], events[n - 1]);
      ArrivedStep(u, states[n - 1], steps[n - 1], states[n], events[n - 1]);
    }
    hide Init;
    if n < |steps| { ArrivedIsSafe(u, states[n], steps[n]); }
  }

  lemma ArrivedIsSafe(u: Setup, s: State, step: Step)
    requires u.tgt in s.stores && Arrived(u, s)
    ensures !DeletesOverwritten(u, s, step)
  {
  }

  // ---- with every reply received and nothing merely copied -----------------------------------------

  /** A key is at both nodes only while a MIGRATE has sent it and not yet deleted it, and every RESTORE
      has been answered for. */
  ghost predicate Apart(u: Setup, s: State)
    requires u.src in s.stores && u.tgt in s.stores
  {
    && s.late == [] && Arrived(u, s)
    && (forall j :: j in s.moving ==> !s.moving[j].copying)
    && forall k :: k in s.stores[u.src] && k in s.stores[u.tgt] ==> OnTheMove(s, k)
  }

  ghost predicate OnTheMove(s: State, k: Key) {
    exists j, i :: j in s.moving && 0 <= i < Count(s.moving[j]) <= |s.moving[j].batch| && s.moving[j].batch[i].0 == k
  }

  /** No copy, and no MIGRATE that ends without the answer to its last RESTORE. */
  predicate Clean(s: State, step: Step) {
    match step
    case MigrateStart(_, _, copying, _) => !copying
    case MigrateFinish(j) => j in s.moving ==> s.moving[j].wait.Idle? || s.moving[j].wait == Answered(false)
    case _ => true
  }

  lemma ApartStep(u: Setup, s: State, step: Step, s': State, e: Event)
    requires Inv(u, s) && u.held && Next(u, s, step, s', e) && Clean(s, step) && Apart(u, s)
    requires u.src in s'.stores && u.tgt in s'.stores
    ensures Apart(u, s')
  {
    HasBoth(u, s);
    NoneLate(u, s, step, s', e);
    ArrivedStep(u, s, step, s', e);
    hide Inv, Arrived, Apart, Clean, Next;
    match step
    case Deliver(c) => ApartDelivered(u, s, c, s', e);
    case MigrateLand(j) => ApartLanded(u, s, j, s', e);
    case MigrateFinish(j) => ApartFinished(u, s, j, s', e);
    case _ => ApartQuiet(u, s, step, s', e);
  }

  lemma NoneLate(u: Setup, s: State, step: Step, s': State, e: Event)
    requires Next(u, s, step, s', e) && Apart(u, s) && u.tgt in s.views
    ensures !step.LateLand? && !step.LateDrop? && !Overwrites(u, s, step)
  {
    hide Arrived, OnTheMove, DecisionAt, SetSlot, InScript, Phase, BatchOf, CarriedOut, Finished, Accepts;
  }

  /** Steps that touch neither store and end no MIGRATE. */
  lemma ApartQuiet(u: Setup, s: State, step: Step, s': State, e: Event)
    requires !step.Deliver? && !step.MigrateLand? && !step.MigrateFinish? && !step.LateLand? && !step.LateDrop?
    requires Next(u, s, step, s', e) && Clean(s, step) && Apart(u, s) && Arrived(u, s')
    ensures Apart(u, s')
  {
    hide SetSlot, InScript, Phase, BatchOf, Holds, OnTheMove;
    if step.Issue? || step.Admin? {
      SameOnTheMove(s, s');
    } else {
      MoreOnTheMove(s, s', step.j);
    }
  }

  lemma SameOnTheMove(s: State, s': State)
    requires s'.moving == s.moving
    ensures forall k :: OnTheMove(s, k) ==> OnTheMove(s', k)
  {
  }

  lemma ApartDelivered(u: Setup, s: State, c: Client, s': State, e: Event)
    requires Inv(u, s) && u.held && Next(u, s, Deliver(c), s', e) && Apart(u, s)
    requires u.src in s'.stores && u.tgt in s'.stores && Arrived(u, s')
    ensures Apart(u, s')
  {
    hide Inv, DecisionAt, StoreAfter, ReplyOf, Arrived, OnTheMove, Phase;
    SameOnTheMove(s, s');
    if DecisionAt(u, s, s.flight[c]).Serve? { ApartServed(u, s, c, s', e); }
  }

  /** What is on the move stays on the move while no MIGRATE ends. */
  lemma MoreOnTheMove(s: State, s': State, j: nat)
    requires j in s'.moving && s'.moving == s.moving[j := s'.moving[j]]
    requires j in s.moving ==> s'.moving[j].batch == s.moving[j].batch && Count(s.moving[j]) <= Count(s'.moving[j])
    requires j in s.moving ==> Count(s'.moving[j]) <= |s'.moving[j].batch|
    ensures forall k :: OnTheMove(s, k) ==> OnTheMove(s', k)
  {
    forall k | OnTheMove(s, k) ensures OnTheMove(s', k) {
      var a, i :| a in s.moving && 0 <= i < Count(s.moving[a]) <= |s.moving[a].batch| && s.moving[a].batch[i].0 == k;
      assert s'.moving[a].batch[i].0 == k;
    }
  }

  lemma ApartLanded(u: Setup, s: State, j: nat, s': State, e: Event)
    requires u.src in s.stores && u.tgt in s.stores && Apart(u, s) && Next(u, s, MigrateLand(j), s', e)
    requires u.src != u.tgt && u.src in s'.stores && u.tgt in s'.stores && Arrived(u, s')
    ensures Apart(u, s')
  {
    hide Accepts, Arrived;
    MoreOnTheMove(s, s', j);
    var mv := s.moving[j];
    if Accepts(u, s, Pending(mv)) {
      assert OnTheMove(s', mv.batch[mv.sent].0) by { assert s'.moving[j].batch[mv.sent].0 == mv.batch[mv.sent].0; }
    }
    hide OnTheMove;
  }

  lemma ApartFinished(u: Setup, s: State, j: nat, s': State, e: Event)
    requires Inv(u, s) && u.held && u.src in s.stores && u.tgt in s.stores && Apart(u, s)
    requires Next(u, s, MigrateFinish(j), s', e) && Clean(s, MigrateFinish(j))
    requires u.src != u.tgt && u.src in s'.stores && u.tgt in s'.stores && Arrived(u, s')
    ensures Apart(u, s')
  {
    hide GoodViews, GoodMsg, Phase, Arrived, StillThere;
    var mv := s.moving[j];
    forall k | k in s.stores[u.src] && k in s.stores[u.tgt] ensures k in Gone(mv) {
      assert OnTheMove(s, k);
      var a, i :| a in s.moving && 0 <= i < Count(s.moving[a]) <= |s.moving[a].batch| && s.moving[a].batch[i].0 == k;
      assert a == j;
      assert KeysOf(mv.batch[..mv.sent])[i] == k;
    }
  }

  lemma ApartServed(u: Setup, s: State, c: Client, s': State, e: Event)
    requires Inv(u, s) && u.held && Next(u, s, Deliver(c), s', e) && DecisionAt(u, s, s.flight[c]).Serve?
    requires u.src in s.stores && u.tgt in s.stores && Apart(u, s)
    requires u.src in s'.stores && u.tgt in s'.stores && Arrived(u, s')
    ensures Apart(u, s')
  {
    HasBoth(u, s);
    hide DecisionAt, GoodViews, GoodMsg, Phase, StoreAfter, Arrived;
    var m := s.flight[c];
    var before := s.stores[m.at];
    assert forall k :: OnTheMove(s, k) ==> OnTheMove(s', k);
    hide OnTheMove;
    if m.cmd.keys == [] {
      NothingNamed(m.cmd, before);
    } else {
      WhoServes(u, s, m);
      forall k | k in StoreAfter(m.cmd, before) && k !in before ensures k in m.cmd.keys {
        if k !in m.cmd.keys { TouchesOnlyNamed(m.cmd, before, k); }
      }
    }
  }

  /** Then every step is faithful. */
  lemma ApartIsFaithful(u: Setup, s: State, step: Step, s': State, e: Event)
    requires Inv(u, s) && u.held && Next(u, s, step, s', e) && u.src in s.stores && u.tgt in s.stores && Apart(u, s)
    ensures Faithful(u, s, step)
  {
    HeldFaithful(u, s, step);
    hide Inv, DecisionAt, StoreAfter, Faithful, Arrived, OnTheMove;
    ArrivedIsSafe(u, s, step);
    if UncoversCopy(u, s, step) {
      var m := s.flight[step.c];
      var k :| k in m.cmd.keys && k in s.stores[u.tgt] && k !in StoreAfter(m.cmd, s.stores[u.src]);
      SourceHasIt(u, s, m, k);
      NothingOnTheMove(s, k);
    }
  }

  lemma NothingOnTheMove(s: State, k: Key)
    requires s.moving == map[]
    ensures !OnTheMove(s, k)
  {
  }

  lemma SourceHasIt(u: Setup, s: State, m: Msg, k: Key)
    requires Inv(u, s) && u.src in s.stores && u.tgt in s.stores && m.at == u.src && m.at in s.views
    requires GoodMsg(u, Phase(u, s.views), s.stores[u.src], s.views, m)
    requires k in m.cmd.keys && k in s.stores[u.tgt] && DecisionAt(u, s, m).Serve?
    ensures k in s.stores[u.src]
  {
    HasBoth(u, s);
    WhoServes(u, s, m);
    hide DecisionAt, GoodMsg, GoodViews, Phase;
  }

  /** With writes held back, every RESTORE answered and nothing merely copied, every run under every
      interleaving is a sequential execution of the commands it served on the map the two nodes hold
      together. */
  lemma RunRefinesOneMap(u: Setup, states: seq<State>, steps: seq<Step>, events: seq<Event>)
    requires IsRun(u, states, steps, events) && u.held && forall i :: 0 <= i < |steps| ==> Clean(states[i], steps[i])
    ensures forall i :: 0 <= i < |states| ==> states[i].stores.Keys >= {u.src, u.tgt} && OneMapAt(u, states, events, i)
  {
    hide Inv, Init, Next, OneMapAt, Faithful, Apart, Clean;
    RunRefinesExactly(u, states, steps, events);
    forall i | 0 <= i < |steps| ensures Faithful(u, states[i], steps[i]) {
      RunInv(u, states, steps, events, i);
      RunApart(u, states, steps, events, i);
      ApartIsFaithful(u, states[i], steps[i], states[i + 1], events[i]);
    }
  }

  lemma {:induction false} RunApart(u: Setup, states: seq<State>, steps: seq<Step>, events: seq<Event>, i: nat)
    requires IsRun(u, states, steps, events) && u.held && i < |states|
    requires forall j :: 0 <= j < i ==> Clean(states[j], steps[j])
    ensures u.src in states[i].stores && u.tgt in states[i].stores && Apart(u, states[i])
  {
    hide Inv, Next, Clean;
    RunInv(u, states, steps, events, i);
    if i > 0 {
      hide Init, Apart;
      RunApart(u, states, steps, events, i - 1);
      RunInv(u, states, steps, events, i - 1);
      assert Next(u, states[i - 1], steps[i - 1], states[i], events[i - 1]);
      ApartStep(u, states[i - 1], steps[i - 1], states[i], events[i - 1]);
    }
  }

  // ---- runs on which it fails -----------------------------------------------------------------------

  ghost predicate RunsTo(u: Setup, states: seq<State>, steps: seq<Step>, events: seq<Event>, s: State) {
    IsRun(u, states, steps, events) && states[|states| - 1] == s
  }

  ghost predicate Reached(u: Setup, s: State) { exists states, steps, events :: RunsTo(u, states, steps, events, s) }

  lemma Then(u: Setup, s: State, step: Step, s': State, e: Event)
    requires Reached(u, s) && Next(u, s, step, s', e)
    ensures Reached(u, s')
  {
    hide Init, Next;
    var states, steps, events :| RunsTo(u, states, steps, events, s);
    assert RunsTo(u, states + [s'], steps + [step], events + [e], s');
  }

  /** A run that is not a sequential execution of the commands it served on the one map. */
  ghost predicate Strays(u: Setup, states: seq<State>, steps: seq<Step>, events: seq<Event>) {
    && IsRun(u, states, steps, events)
    && exists i :: 0 <= i < |states| && states[i].stores.Keys >= {u.src, u.tgt} && !OneMapAt(u, states, events, i)
  }

  ghost predicate CanStray(u: Setup) { exists states, steps, events :: Strays(u, states, steps, events) }

  /** A step that is not faithful, where a run can take it, makes it such a run. */
  lemma Stray(u: Setup, s: State, step: Step, s': State, e: Event)
    requires Reached(u, s) && Next(u, s, step, s', e) && !Faithful(u, s, step)
    ensures CanStray(u)
  {
    hide Init, Next, OneMapAt, Faithful;
    var states, steps, events :| RunsTo(u, states, steps, events, s);
    var states', steps', events' := states + [s'], steps + [step], events + [e];
    assert IsRun(u, states', steps', events');
    RunRefinesExactly(u, states', steps', events');
    assert states'[|steps|] == s && steps'[|steps|] == step;
    assert Strays(u, states', steps', events');
  }

  /** The views of the two nodes at the first points of the script. */
  function ViewsAt(u: Setup, p: nat): map<NodeId, SlotView> {
    map[u.src := if p >= 2 then SlotView(Some(u.src), Some(u.tgt), None) else Owned(u.src),
        u.tgt := if p >= 1 then SlotView(Some(u.src), None, Some(u.src)) else Owned(u.src)]
  }

  function Two(u: Setup, p: nat, src: Store, tgt: Store, flight: map<Client, Msg>, moving: map<nat, Moving>,
               late: seq<Restore>): State
  {
    State(ViewsAt(u, p), map[u.src := src, u.tgt := tgt], flight, moving, late)
  }

  lemma Imported(u: Setup, src: Store)
    requires u.src != u.tgt
    ensures Next(u, Two(u, 0, src, map[], map[], map[], []), Admin(u.tgt, Importing(u.src)),
                 Two(u, 1, src, map[], map[], map[], []), Internal)
  {
    var s, s' := Two(u, 0, src, map[], map[], map[], []), Two(u, 1, src, map[], map[], map[], []);
    assert s'.views == s.views[u.tgt := s'.views[u.tgt]];
  }

  lemma Migrated(u: Setup, src: Store)
    requires u.src != u.tgt
    ensures Next(u, Two(u, 1, src, map[], map[], map[], []), Admin(u.src, Migrating(u.tgt)),
                 Two(u, 2, src, map[], map[], map[], []), Internal)
  {
    var s, s' := Two(u, 1, src, map[], map[], map[], []), Two(u, 2, src, map[], map[], map[], []);
    assert s'.views == s.views[u.src := s'.views[u.src]];
  }

  lemma Opened(u: Setup, src: Store)
    requires u.src != u.tgt
    ensures Reached(u, Two(u, 2, src, map[], map[], map[], []))
  {
    var s := Two(u, 0, src, map[], map[], map[], []);
    assert RunsTo(u, [s], [], [], s);
    hide Reached, Next;
    Imported(u, src);
    Then(u, s, Admin(u.tgt, Importing(u.src)), Two(u, 1, src, map[], map[], map[], []), Internal);
    Migrated(u, src);
    Then(u, Two(u, 1, src, map[], map[], map[], []), Admin(u.src, Migrating(u.tgt)),
         Two(u, 2, src, map[], map[], map[], []), Internal);
  }

  function Del(k: Key): Cmd { Cmd([k], true, _ => (map[], [])) }

  function Put(k: Key, v: Val): Cmd { Cmd([k], true, _ => (map[k := v], [])) }

  /** A MIGRATE of one key, at some point. */
  function One(k: Key, v: Val, sent: nat, wait: Wait, replace: bool): map<nat, Moving> {
    map[0 := Moving([(k, v)], sent, wait, false, replace)]
  }

  /** MIGRATE begins and sends its RESTORE. */
  lemma RestoreSent(u: Setup, tgt: Store, late: seq<Restore>, k: Key, v: Val, replace: bool)
    requires u.src != u.tgt && Reached(u, Two(u, 2, map[k := v], tgt, map[], map[], late))
    ensures Reached(u, Two(u, 2, map[k := v], tgt, map[], One(k, v, 0, Sent, replace), late))
  {
    hide Reached;
    assert BatchOf(map[k := v], [k]) == [(k, v)] by { assert [k][1..] == []; }
    var s := Two(u, 2, map[k := v], tgt, map[], map[], late);
    var s' := Two(u, 2, map[k := v], tgt, map[], One(k, v, 0, Idle, replace), late);
    Then(u, s, MigrateStart(0, [k], false, replace), s', Internal);
    Then(u, s', MigrateSend(0), Two(u, 2, map[k := v], tgt, map[], One(k, v, 0, Sent, replace), late), Internal);
  }

  /** The target takes a key it does not have, or may replace. */
  lemma TargetTakes(u: Setup, s: State, r: Restore, tgt: Store)
    requires u.src != u.tgt && s.views == ViewsAt(u, 2) && u.tgt in s.stores && s.stores[u.tgt] == tgt
    requires r.key !in tgt || r.replace
    ensures Accepts(u, s, r)
  {
  }

  /** The RESTORE is carried out. */
  lemma RestoreLanded(u: Setup, tgt: Store, late: seq<Restore>, k: Key, v: Val, replace: bool)
    requires u.src != u.tgt && Reached(u, Two(u, 2, map[k := v], tgt, map[], One(k, v, 0, Sent, replace), late))
    requires k !in tgt || replace
    ensures Reached(u, Two(u, 2, map[k := v], tgt[k := v], map[], One(k, v, 0, Answered(true), replace), late))
  {
    hide Reached;
    var s := Two(u, 2, map[k := v], tgt, map[], One(k, v, 0, Sent, replace), late);
    var s' := Two(u, 2, map[k := v], tgt[k := v], map[], One(k, v, 0, Answered(true), replace), late);
    TargetTakes(u, s, Restore(k, v, replace), tgt);
    assert s'.stores == s.stores[u.tgt := tgt[k := v]];
    hide Accepts;
    Then(u, s, MigrateLand(0), s', Internal);
  }

  /** And acknowledged. */
  lemma RestoreAcked(u: Setup, tgt: Store, late: seq<Restore>, k: Key, v: Val, replace: bool)
    requires u.src != u.tgt
    requires Reached(u, Two(u, 2, map[k := v], tgt, map[], One(k, v, 0, Answered(true), replace), late))
    ensures Reached(u, Two(u, 2, map[k := v], tgt, map[], One(k, v, 1, Idle, replace), late))
  {
    hide Reached;
    Then(u, Two(u, 2, map[k := v], tgt, map[], One(k, v, 0, Answered(true), replace), late), MigrateAck(0),
         Two(u, 2, map[k := v], tgt, map[], One(k, v, 1, Idle, replace), late), Internal);
  }

  /** MIGRATE ends: with the key acknowledged, or without. */
  lemma Ended(u: Setup, tgt: Store, late: seq<Restore>, k: Key, v: Val, sent: nat, wait: Wait, replace: bool)
    requires u.src != u.tgt && sent <= 1 && (sent == 1 ==> wait.Idle?)
    requires Reached(u, Two(u, 2, map[k := v], tgt, map[], One(k, v, sent, wait, replace), late))
    ensures Reached(u, Two(u, 2, if sent == 1 then map[] else map[k := v], tgt, map[], map[],
                           if wait.Sent? then late + [Restore(k, v, replace)] else late))
  {
    hide Reached;
    var s := Two(u, 2, map[k := v], tgt, map[], One(k, v, sent, wait, replace), late);
    var src' := if sent == 1 then map[] else map[k := v];
    var late' := if wait.Sent? then late + [Restore(k, v, replace)] else late;
    OneGone(k, v, sent, wait, replace);
    assert late + [] == late;
    assert s.stores[u.src := src'] == map[u.src := src', u.tgt := tgt];
    assert s.moving - {0} == map[];
    hide Without, Gone;
    Then(u, s, MigrateFinish(0), Two(u, 2, src', tgt, map[], map[], late'), Internal);
  }

  lemma OneGone(k: Key, v: Val, sent: nat, wait: Wait, replace: bool)
    requires sent <= 1
    ensures Without(map[k := v], Gone(One(k, v, sent, wait, replace)[0])) == if sent == 1 then map[] else map[k := v]
  {
    if sent == 1 { assert KeysOf([(k, v)][..1])[0] == k; }
  }

  /** The source serves a command for a key it still holds. */
  lemma SourceServes(u: Setup, s: State, cmd: Cmd, k: Key)
    requires u.src != u.tgt && s.views == ViewsAt(u, 2) && u.src in s.stores && k in s.stores[u.src] && cmd.keys == [k]
    ensures DecisionAt(u, s, Msg(u.src, false, cmd, 0)).Serve?
  {
    assert !SomeMissing([k], s.stores[u.src].Keys);
  }

  lemma Issued(u: Setup, src: Store, tgt: Store, moving: map<nat, Moving>, late: seq<Restore>, cmd: Cmd, k: Key)
    requires u.src != u.tgt && SlotOfKey(k) == u.slot && cmd.keys == [k]
    requires Reached(u, Two(u, 2, src, tgt, map[], moving, late))
    ensures Reached(u, Two(u, 2, src, tgt, map[0 := Msg(u.src, false, cmd, 0)], moving, late))
  {
    hide Reached, SlotOfKey;
    Then(u, Two(u, 2, src, tgt, map[], moving, late), Issue(0, u.src, cmd),
         Two(u, 2, src, tgt, map[0 := Msg(u.src, false, cmd, 0)], moving, late), Internal);
  }

  /** A command for a key of the source, issued and served there. */
  lemma ServedAtSource(u: Setup, src: Store, tgt: Store, moving: map<nat, Moving>, late: seq<Restore>, cmd: Cmd, k: Key)
    requires u.src != u.tgt && SlotOfKey(k) == u.slot && cmd.keys == [k] && k in src && (u.held ==> moving == map[])
    requires Reached(u, Two(u, 2, src, tgt, map[], moving, late))
    ensures Reached(u, Two(u, 2, StoreAfter(cmd, src), tgt, map[], moving, late))
  {
    hide Reached, SlotOfKey, StoreAfter, ReplyOf, DecisionAt;
    Issued(u, src, tgt, moving, late, cmd, k);
    var s := Two(u, 2, src, tgt, map[0 := Msg(u.src, false, cmd, 0)], moving, late);
    var s' := Two(u, 2, StoreAfter(cmd, src), tgt, map[], moving, late);
    SourceServes(u, s, cmd, k);
    assert s'.stores == s.stores[u.src := StoreAfter(cmd, src)];
    assert s.flight - {0} == map[];
    Then(u, s, Deliver(0), s', Served(cmd, ReplyOf(cmd, src)));
  }

  /** A command for a key the source does not have, issued there, sent on with ASK and served at the
      target. */
  lemma ServedAtTarget(u: Setup, tgt: Store, late: seq<Restore>, cmd: Cmd, k: Key)
    requires u.src != u.tgt && SlotOfKey(k) == u.slot && cmd.keys == [k]
    requires Reached(u, Two(u, 2, map[], tgt, map[], map[], late))
    ensures Reached(u, Two(u, 2, map[], StoreAfter(cmd, tgt), map[], map[], late))
  {
    hide Reached, SlotOfKey, StoreAfter, ReplyOf, DecisionAt;
    Issued(u, map[], tgt, map[], late, cmd, k);
    var s := Two(u, 2, map[], tgt, map[0 := Msg(u.src, false, cmd, 0)], map[], late);
    var s' := Two(u, 2, map[], tgt, map[0 := Msg(u.tgt, true, cmd, 1)], map[], late);
    var s'' := Two(u, 2, map[], StoreAfter(cmd, tgt), map[], map[], late);
    AskedToTarget(u, s, s', cmd, k);
    assert s'.flight == s.flight[0 := Msg(u.tgt, true, cmd, 1)];
    Then(u, s, Deliver(0), s', Internal);
    assert s''.stores == s'.stores[u.tgt := StoreAfter(cmd, tgt)];
    assert s'.flight - {0} == map[];
    Then(u, s', Deliver(0), s'', Served(cmd, ReplyOf(cmd, tgt)));
  }

  lemma AskedToTarget(u: Setup, s: State, s': State, cmd: Cmd, k: Key)
    requires u.src != u.tgt && cmd.keys == [k] && s.views == ViewsAt(u, 2) == s'.views
    requires u.src in s.stores && s.stores[u.src] == map[] && u.tgt in s'.stores
    ensures DecisionAt(u, s, Msg(u.src, false, cmd, 0)) == Ask(u.slot, u.tgt)
    ensures DecisionAt(u, s', Msg(u.tgt, true, cmd, 1)).Serve?
  {
    EmptyMisses([k]);
  }

  lemma DelDeletes(k: Key, v: Val)
    ensures StoreAfter(Del(k), map[k := v]) == map[]
  {
  }

  lemma PutWrites(k: Key, v: Val, w: Val)
    ensures StoreAfter(Put(k, w), map[k := v]) == map[k := w]
  {
  }

  /** A lost reply leaves the key at both nodes. */
  lemma LostReplyLeavesBoth(u: Setup, k: Key, v: Val)
    requires u.src != u.tgt
    ensures Reached(u, Two(u, 2, map[k := v], map[k := v], map[], map[], []))
  {
    hide Reached;
    Opened(u, map[k := v]);
    RestoreSent(u, map[], [], k, v, false);
    RestoreLanded(u, map[], [], k, v, false);
    Ended(u, map[k := v], [], k, v, 0, Answered(true), false);
  }

  /** A run from the start: RESTORE lands, its reply is lost, and a DEL is then served at the source.
      The client is told the key is gone, and the target still has it. */
  lemma LostReplyRevives(u: Setup, k: Key, v: Val)
    requires u.src != u.tgt && SlotOfKey(k) == u.slot
    ensures exists s :: Reached(u, s) && s.late == [] && s.stores.Keys == s.views.Keys == {u.src, u.tgt}
                        && UncoversCopy(u, s, Deliver(0))
    ensures CanStray(u)
  {
    hide Reached, SlotOfKey, DecisionAt, CanStray;
    LostReplyLeavesBoth(u, k, v);
    Issued(u, map[k := v], map[k := v], map[], [], Del(k), k);
    var s := Two(u, 2, map[k := v], map[k := v], map[0 := Msg(u.src, false, Del(k), 0)], map[], []);
    SourceServes(u, s, Del(k), k);
    DelDeletes(k, v);
    assert k in Del(k).keys && k in s.stores[u.tgt];
    assert s.stores.Keys == s.views.Keys == {u.src, u.tgt};
    hide StoreAfter, ReplyOf;
    assert UncoversCopy(u, s, Deliver(0));
    Stray(u, s, Deliver(0), s.(flight := s.flight - {0}, stores := s.stores[u.src := map[]]),
          Served(Del(k), ReplyOf(Del(k), map[k := v])));
  }

  /** A MIGRATE that timed out, and its RESTORE not yet carried out. */
  lemma TimedOut(u: Setup, k: Key, v: Val, replace: bool)
    requires u.src != u.tgt
    ensures Reached(u, Two(u, 2, map[k := v], map[], map[], map[], [Restore(k, v, replace)]))
  {
    hide Reached;
    Opened(u, map[k := v]);
    RestoreSent(u, map[], [], k, v, replace);
    Ended(u, map[], [], k, v, 0, Sent, replace);
    assert [] + [Restore(k, v, replace)] == [Restore(k, v, replace)];
  }

  /** A late RESTORE that is accepted where the source has not the key and the target another value,
      or none. */
  lemma SeenLate(u: Setup, tgt: Store, k: Key, v: Val, replace: bool)
    requires u.src != u.tgt && (k in tgt ==> replace && tgt[k] != v)
    requires Reached(u, Two(u, 2, map[], tgt, map[], map[], [Restore(k, v, replace)]))
    ensures LandsLate(u, Two(u, 2, map[], tgt, map[], map[], [Restore(k, v, replace)]), LateLand(0))
    ensures CanStray(u)
  {
    hide Reached, CanStray;
    var s := Two(u, 2, map[], tgt, map[], map[], [Restore(k, v, replace)]);
    TargetTakes(u, s, s.late[0], tgt);
    hide Accepts;
    Stray(u, s, LateLand(0), CarriedOut(u, s, s.late[0]).(late := s.late[..0] + s.late[1..]), Internal);
  }

  /** A run from the start: MIGRATE times out, a DEL is served at the source with no copy anywhere, and
      then the RESTORE is carried out: the deleted key is back. */
  lemma LateRestoreRevives(u: Setup, k: Key, v: Val, replace: bool)
    requires u.src != u.tgt && SlotOfKey(k) == u.slot
    ensures Reached(u, Two(u, 2, map[], map[], map[], map[], [Restore(k, v, replace)]))
    ensures LandsLate(u, Two(u, 2, map[], map[], map[], map[], [Restore(k, v, replace)]), LateLand(0))
    ensures CanStray(u)
  {
    hide Reached, SlotOfKey, CanStray;
    TimedOut(u, k, v, replace);
    ServedAtSource(u, map[k := v], map[], map[], [Restore(k, v, replace)], Del(k), k);
    DelDeletes(k, v);
    hide StoreAfter;
    SeenLate(u, map[], k, v, replace);
  }

  /** A run from the start with no deletion by a client at all: MIGRATE REPLACE times out, is given again
      and succeeds, the key is written at the target, and then the first RESTORE is carried out over
      it. */
  lemma LateRestoreOverwrites(u: Setup, k: Key, v: Val, w: Val)
    requires u.src != u.tgt && SlotOfKey(k) == u.slot && v != w
    ensures Reached(u, Two(u, 2, map[], map[k := w], map[], map[], [Restore(k, v, true)]))
    ensures LandsLate(u, Two(u, 2, map[], map[k := w], map[], map[], [Restore(k, v, true)]), LateLand(0))
    ensures CanStray(u)
  {
    hide Reached, SlotOfKey, CanStray;
    var late := [Restore(k, v, true)];
    TimedOut(u, k, v, true);
    RestoreSent(u, map[], late, k, v, true);
    RestoreLanded(u, map[], late, k, v, true);
    RestoreAcked(u, map[k := v], late, k, v, true);
    Ended(u, map[k := v], late, k, v, 1, Idle, true);
    ServedAtTarget(u, map[k := v], late, Put(k, w), k);
    PutWrites(k, v, w);
    hide StoreAfter;
    SeenLate(u, map[k := w], k, v, true);
  }

  /** A run from the start: MIGRATE REPLACE times out, the key is written at the source, a second MIGRATE
      REPLACE has it acknowledged, the first RESTORE is carried out over it, unseen as the source
      still has the key, and then the source deletes it. */
  lemma LateRestoreUnderRetry(u: Setup, k: Key, v: Val, w: Val)
    requires u.src != u.tgt && SlotOfKey(k) == u.slot && v != w
    ensures Reached(u, Two(u, 2, map[k := w], map[k := v], map[], One(k, w, 1, Idle, true), []))
    ensures DeletesOverwritten(u, Two(u, 2, map[k := w], map[k := v], map[], One(k, w, 1, Idle, true), []),
                               MigrateFinish(0))
    ensures CanStray(u)
  {
    hide Reached, SlotOfKey, CanStray;
    var late := [Restore(k, v, true)];
    TimedOut(u, k, v, true);
    ServedAtSource(u, map[k := v], map[], map[], late, Put(k, w), k);
    PutWrites(k, v, w);
    hide StoreAfter;
    RestoreSent(u, map[], late, k, w, true);
    RestoreLanded(u, map[], late, k, w, true);
    RestoreAcked(u, map[k := w], late, k, w, true);
    LandedOver(u, k, v, w);
    StraysDeleting(u, k, v, w);
  }

  lemma LandedOver(u: Setup, k: Key, v: Val, w: Val)
    requires u.src != u.tgt
    requires Reached(u, Two(u, 2, map[k := w], map[k := w], map[], One(k, w, 1, Idle, true), [Restore(k, v, true)]))
    ensures Reached(u, Two(u, 2, map[k := w], map[k := v], map[], One(k, w, 1, Idle, true), []))
  {
    hide Reached;
    var s := Two(u, 2, map[k := w], map[k := w], map[], One(k, w, 1, Idle, true), [Restore(k, v, true)]);
    var s' := Two(u, 2, map[k := w], map[k := v], map[], One(k, w, 1, Idle, true), []);
    TargetTakes(u, s, s.late[0], map[k := w]);
    assert map[k := w][k := v] == map[k := v];
    assert s'.stores == s.stores[u.tgt := map[k := v]];
    hide Accepts;
    Then(u, s, LateLand(0), s', Internal);
  }

  /** A MIGRATE that deletes a key the target has with another value. */
  lemma StraysDeleting(u: Setup, k: Key, v: Val, w: Val)
    requires u.src != u.tgt && v != w
    requires Reached(u, Two(u, 2, map[k := w], map[k := v], map[], One(k, w, 1, Idle, true), []))
    ensures DeletesOverwritten(u, Two(u, 2, map[k := w], map[k := v], map[], One(k, w, 1, Idle, true), []),
                               MigrateFinish(0))
    ensures CanStray(u)
  {
    hide Reached, CanStray;
    var s := Two(u, 2, map[k := w], map[k := v], map[], One(k, w, 1, Idle, true), []);
    assert KeysOf([(k, w)][..1])[0] == k;
    assert k in Gone(s.moving[0]);
    hide Gone, Without;
    assert !Holds(s.stores[u.tgt], s.moving[0].batch[0]);
    Stray(u, s, MigrateFinish(0), Finished(u, s, 0), Internal);
  }

  /** Without writes held back: a write served at the source between the RESTORE and the deletion of
      its key is undone by the deletion. */
  lemma UnheldWriteIsUndone(u: Setup, k: Key, v: Val, w: Val)
    requires u.src != u.tgt && SlotOfKey(k) == u.slot && !u.held && v != w
    ensures Reached(u, Two(u, 2, map[k := w], map[k := v], map[], One(k, v, 1, Idle, false), []))
    ensures !DeletesSafely(One(k, v, 1, Idle, false)[0], map[k := w], map[k := v])
    ensures CanStray(u)
  {
    hide Reached, SlotOfKey, CanStray;
    Opened(u, map[k := v]);
    RestoreSent(u, map[], [], k, v, false);
    RestoreLanded(u, map[], [], k, v, false);
    RestoreAcked(u, map[k := v], [], k, v, false);
    ServedAtSource(u, map[k := v], map[k := v], One(k, v, 1, Idle, false), [], Put(k, w), k);
    PutWrites(k, v, w);
    hide StoreAfter;
    var s := Two(u, 2, map[k := w], map[k := v], map[], One(k, v, 1, Idle, false), []);
    assert KeysOf([(k, v)][..1])[0] == k;
    assert k in Gone(s.moving[0]);
    hide Gone, Without;
    Stray(u, s, MigrateFinish(0), Finished(u, s, 0), Internal);
  }

  // ---- why the order matters ------------------------------------------------------------------------

  /** A client that follows n redirects. */
  ghost function Followed(u: Setup, s: State, m: Msg, n: nat): Msg
    requires s.stores.Keys == s.views.Keys
  {
    if n == 0 then m
    else
      var before := Followed(u, s, m, n - 1);
      if before.at !in s.views then before
      else
        match DecisionAt(u, s, before)
        case Moved(_, to) => Msg(to, false, before.cmd, before.hops + 1)
        case Ask(_, to) => Msg(to, true, before.cmd, before.hops + 1)
        case _ => before
  }

  lemma Bounces(u: Setup, s: State, cmd: Cmd, hops: nat)
    requires GoodViews(u, s.views) && Phase(u, s.views) == 2 && s.stores.Keys == s.views.Keys
    requires s.stores[u.src] == map[] && cmd.keys != []
    ensures var s' := s.(views := s.views[u.src := Owned(u.tgt)]);
            && s'.stores.Keys == s'.views.Keys
            && DecisionAt(u, s', Msg(u.src, false, cmd, hops)) == Moved(u.slot, u.tgt)
            && DecisionAt(u, s', Msg(u.tgt, false, cmd, hops)) == Moved(u.slot, u.src)
  {
    var s' := s.(views := s.views[u.src := Owned(u.tgt)]);
    assert s'.views.Keys == s.views.Keys;
  }

  /** With NODE given to the source before the target, both steps accepted, a client with a keyed
      command is sent back and forth for as long as it follows, and is never served. */
  lemma {:induction false} HandoverAtSourceFirstLoops(u: Setup, s: State, cmd: Cmd, n: nat)
    requires GoodViews(u, s.views) && Phase(u, s.views) == 2 && s.stores.Keys == s.views.Keys
    requires s.stores[u.src] == map[] && cmd.keys != []
    ensures SetSlot(s.views[u.src], u.src, AssignTo(u.tgt), true, false) == Applied(Owned(u.tgt))
    ensures var s' := s.(views := s.views[u.src := Owned(u.tgt)]);
            && s'.stores.Keys == s'.views.Keys
            && var m := Followed(u, s', Msg(u.src, false, cmd, 0), n);
            && m == Msg(if n % 2 == 0 then u.src else u.tgt, false, cmd, n)
            && m.at in s'.views && DecisionAt(u, s', m).Moved?
  {
    Bounces(u, s, cmd, n);
    assert u.src in s.views && u.tgt in s.views;
    hide DecisionAt, GoodViews, Phase;
    if n > 0 {
      HandoverAtSourceFirstLoops(u, s, cmd, n - 1);
      Bounces(u, s, cmd, n - 1);
    }
  }

  /** With NODE given to the target while the source still holds a key, the target answers for that
      key out of its own store, which does not have the value. */
  lemma EarlyHandoverHidesKey(u: Setup, s: State, cmd: Cmd, k: Key)
    requires Inv(u, s) && Phase(u, s.views) == 2 && k in s.stores[u.src] && cmd.keys == [k]
    requires !(k in s.stores[u.tgt] && s.stores[u.tgt][k] == s.stores[u.src][k])
    ensures SetSlot(s.views[u.tgt], u.tgt, AssignTo(u.tgt), true, true) == Applied(Owned(u.tgt))
    ensures var s' := s.(views := s.views[u.tgt := Owned(u.tgt)]);
            && DecisionAt(u, s', Msg(u.tgt, false, cmd, 0)).Serve?
            && Restrict(s'.stores[u.tgt], cmd.keys) != Restrict(Abs(u, s'), cmd.keys)
  {
    var seen, whole := Restrict(s.stores[u.tgt], [k]), Restrict(Abs(u, s), [k]);
    assert k in whole && whole[k] == s.stores[u.src][k];
    if k in s.stores[u.tgt] {
      assert k in seen && seen[k] == s.stores[u.tgt][k];
    } else {
      assert k !in seen;
    }
    assert seen != whole;
  }
}
