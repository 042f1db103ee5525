/** What the wakeup protocol means over whole runs: which arrivals are late, who is served first,
    and the runs on which the promises of the documentation fail. */
module BlockingRuns {
  import opened Bytes
  import opened WaitQueues
  import opened Blocking

  // ---- late arrivals ----------------------------------------------------------------------

  /** A client that finished registering at a step, on a key that already had an element, with
      nobody ahead of it, and since then the key has kept an element and the client has stayed
      head and has consumed no wakeup. */
  ghost predicate LateSince(run: seq<State>, steps: seq<Step>, k: DbKey, id: Id, i: nat, n: nat)
    requires |run| == |steps| + 1
  {
    && i < n < |run|
    && steps[i] == Complete(id)
    && (forall m :: i <= m <= n ==> k in run[m].stock && HeadOf(run[m], k, id))
    && (forall m :: i < m < n ==> steps[m] != Consume(id))
  }

  /** Exactly those arrivals are late. */
  lemma LateExactly(mode: Mode, run: seq<State>, steps: seq<Step>, k: DbKey, n: nat)
    requires mode == SleepAtOnce && IsRun(mode, run, steps) && n < |run|
    ensures k in run[n].late <==> exists id, i :: LateSince(run, steps, k, id, i, n)
  {
    if k in run[n].late {
      var id, i := LateHasCause(mode, run, steps, k, n);
    }
    forall id, i | LateSince(run, steps, k, id, i, n) ensures k in run[n].late {
      CauseMakesLate(mode, run, steps, k, id, i, n);
    }
  }

  lemma {:induction false} LateHasCause(mode: Mode, run: seq<State>, steps: seq<Step>, k: DbKey, n: nat)
    returns (id: Id, i: nat)
    requires IsRun(mode, run, steps) && n < |run| && k in run[n].late
    ensures LateSince(run, steps, k, id, i, n)
    decreases n
  {
    hide Inv, Enabled, Next, HeadOf;
    if n == 0 { assert false; }
    var s, step := run[n - 1], steps[n - 1];
    assert Enabled(s, step) && run[n] == Next(mode, s, step);
    RunInv(mode, run, steps, n - 1);
    RunInv(mode, run, steps, n);
    InvParts(mode, s, k);
    InvParts(mode, run[n], k);
    LateCause(mode, s, step, k);
    if k in s.late {
      id, i := LateHasCause(mode, run, steps, k, n - 1);
      HeadKept(mode, s, step, k, id);
      ConsumeClears(mode, s, step, k, id);
    } else {
      id, i := step.id, n - 1;
      HeadKept(mode, s, step, k, id);
    }
  }

  lemma InvParts(mode: Mode, s: State, k: DbKey)
    requires Inv(mode, s)
    ensures Seating(s) && (k in s.late ==> k in s.stock)
  {
    assert LateAt(mode, s, k);
  }

  lemma ConsumeClears(mode: Mode, s: State, step: Step, k: DbKey, id: Id)
    requires Enabled(s, step) && HeadOf(s, k, id) && k in Next(mode, s, step).late
    ensures step != Consume(id)
  {
    HeadIsHeadKey(s, k);
    hide Heads, HeadKeys, Queue;
  }

  lemma {:induction false} CauseMakesLate(mode: Mode, run: seq<State>, steps: seq<Step>, k: DbKey, id: Id, i: nat,
                                          n: nat)
    requires mode == SleepAtOnce && IsRun(mode, run, steps) && n < |run| && LateSince(run, steps, k, id, i, n)
    ensures k in run[n].late
    decreases n
  {
    hide Enabled, Next;
    var s, step := run[n - 1], steps[n - 1];
    assert Enabled(s, step) && run[n] == Next(mode, s, step);
    if n == i + 1 {
      CompletesLate(mode, s, id, k);
    } else {
      CauseMakesLate(mode, run, steps, k, id, i, n - 1);
      RunInv(mode, run, steps, n - 1);
      StaysLate(mode, s, step, k, id);
    }
  }

  lemma CompletesLate(mode: Mode, s: State, id: Id, k: DbKey)
    requires mode == SleepAtOnce && Enabled(s, Complete(id)) && HeadOf(s, k, id) && k in s.stock
    ensures k in Next(mode, s, Complete(id)).late
  {
    assert k in HeadKeys(s, id);
  }

  lemma StaysLate(mode: Mode, s: State, step: Step, k: DbKey, id: Id)
    requires Inv(mode, s) && Enabled(s, step) && k in s.late && HeadOf(s, k, id) && step != Consume(id)
    requires k in Next(mode, s, step).stock && HeadOf(Next(mode, s, step), k, id)
    ensures k in Next(mode, s, step).late
  {
    InvParts(mode, s, k);
    StockAfter(mode, s, step, k);
    GoneFromFront(Queue(s.queues, k), id);
    if step == Unregister(id) {
      assert SeatsAt(s, k);
      SeatsAtUnregister(mode, s, id, k);
    }
    hide Next, Enabled, Inv;
  }

  lemma GoneFromFront(q: seq<Id>, id: Id)
    ensures Without(q, id) != [] ==> Without(q, id)[0] != id
  {
    var r := Without(q, id);
    if r != [] { assert r[0] in r; }
  }

  // ---- first come, first served ---------------------------------------------------------------

  /** One client stands in a queue ahead of every place of another. */
  predicate Precedes(q: seq<Id>, a: Id, b: Id) {
    q != [] && q[0] != b && (q[0] == a || Precedes(q[1..], a, b))
  }

  lemma {:induction false} PrecedesAppended(q: seq<Id>, r: seq<Id>, a: Id, b: Id)
    requires Precedes(q, a, b)
    ensures Precedes(q + r, a, b)
  {
    if q[0] != a {
      PrecedesAppended(q[1..], r, a, b);
      assert (q + r)[1..] == q[1..] + r;
    }
  }

  lemma {:induction false} PrecedesWithout(q: seq<Id>, x: Id, a: Id, b: Id)
    requires Precedes(q, a, b) && x != a
    ensures Precedes(Without(q, x), a, b)
  {
    if q[0] == a {
    } else {
      PrecedesWithout(q[1..], x, a, b);
      assert q[0] != x ==> Without(q, x)[1..] == Without(q[1..], x);
    }
  }

  lemma {:induction false} JoinsBehind(q: seq<Id>, n: nat, a: Id, b: Id)
    requires a in q && b !in q
    ensures Precedes(q + Copies(b, n), a, b)
  {
    if q[0] != a {
      JoinsBehind(q[1..], n, a, b);
      assert (q + Copies(b, n))[1..] == q[1..] + Copies(b, n);
    }
  }

  predicate Gone(s: State, id: Id) { IsAt(s, id, Removed) || IsAt(s, id, Done) }

  /** The order of a queue never changes: whoever stands ahead stays ahead until it leaves. */
  lemma OrderKept(mode: Mode, s: State, step: Step, k: DbKey, a: Id, b: Id)
    requires Seating(s) && Enabled(s, step) && Precedes(Queue(s.queues, k), a, b)
    ensures || Precedes(Queue(Next(mode, s, step).queues, k), a, b)
            || (step == Unregister(a) && Gone(Next(mode, s, step), a))
  {
    if step.Insert? {
      JoinAt(s.queues, s.clients[step.id].keys, step.id, k);
      PrecedesAppended(Queue(s.queues, k), Copies(step.id, multiset(s.clients[step.id].keys)[k]), a, b);
      hide Join, Precedes, Seating;
    } else if step.Unregister? {
      assert SeatsAt(s, k);
      SeatsAtUnregister(mode, s, step.id, k);
      if step.id != a { PrecedesWithout(Queue(s.queues, k), step.id, a, b); }
      hide Leave, Without, Precedes, Seating, HeadKeys;
    } else {
      QueuesKept(mode, s, step);
      hide Enabled, Next, Precedes, Seating;
    }
  }

  lemma GoneForGood(mode: Mode, s: State, step: Step, id: Id)
    requires Enabled(s, step) && Gone(s, id)
    ensures Gone(Next(mode, s, step), id)
  {
    if Actor(step) != Some(id) {
      BystanderKept(mode, s, step, id);
      hide Next, Enabled;
    } else {
      hide Heads, HeadKeys, Queue;
    }
  }

  /** A client behind another in the registration order of a key stays behind it, or the other is
      gone. */
  lemma {:induction false} AheadUntilGone(mode: Mode, run: seq<State>, steps: seq<Step>, k: DbKey, a: Id, b: Id,
                                          i: nat, n: nat)
    requires IsRun(mode, run, steps) && i < n < |run|
    requires steps[i] == Insert(b) && a in Queue(run[i].queues, k) && k in run[i].clients[b].keys
    ensures Precedes(Queue(run[n].queues, k), a, b) || Gone(run[n], a)
    decreases n
  {
    hide Init, Inv, Enabled, Next, Precedes, Gone;
    var s, step := run[n - 1], steps[n - 1];
    assert Enabled(s, step) && run[n] == Next(mode, s, step);
    RunInv(mode, run, steps, n - 1);
    InvParts(mode, s, k);
    if n == i + 1 {
      BehindOnJoining(mode, s, k, a, b);
    } else {
      AheadUntilGone(mode, run, steps, k, a, b, i, n - 1);
      if Gone(s, a) { GoneForGood(mode, s, step, a); } else { OrderKept(mode, s, step, k, a, b); }
    }
  }

  lemma BehindOnJoining(mode: Mode, s: State, k: DbKey, a: Id, b: Id)
    requires Seating(s) && Enabled(s, Insert(b)) && a in Queue(s.queues, k)
    ensures Precedes(Queue(Next(mode, s, Insert(b)).queues, k), a, b)
  {
    hide Precedes, Join;
    assert SeatsAt(s, k);
    assert multiset(Queue(s.queues, k))[b] == Seats(s, b, k) == 0;
    assert b !in multiset(Queue(s.queues, k));
    JoinAt(s.queues, s.clients[b].keys, b, k);
    JoinsBehind(Queue(s.queues, k), multiset(s.clients[b].keys)[k], a, b);
  }

  /** A registered client that waits for one key only is served after a wakeup no sooner than every
      client registered on that key before it is gone, unless clients retry regardless. */
  lemma FirstComeFirstServed(mode: Mode, run: seq<State>, steps: seq<Step>, k: DbKey, a: Id, b: Id, i: nat, n: nat)
    requires mode != RetryAlways && IsRun(mode, run, steps) && i < n < |steps|
    requires steps[i] == Insert(b) && a in Queue(run[i].queues, k) && KeySet(run[i].clients[b].keys) == {k}
    requires steps[n].Serve? && steps[n].id == b
    ensures Gone(run[n], a)
  {
    hide Init, Inv, Next;
    assert Enabled(run[i], steps[i]) && Enabled(run[n], steps[n]);
    assert k in KeySet(run[i].clients[b].keys);
    AheadUntilGone(mode, run, steps, k, a, b, i, n);
    RunInv(mode, run, steps, n);
    KeysKept(mode, run, steps, b, i, n);
    PastOnceInserted(mode, run, steps, b, i, n);
    ServedHeads(mode, run[n], k, b);
  }

  lemma ServedHeads(mode: Mode, s: State, k: DbKey, b: Id)
    requires mode != RetryAlways && Inv(mode, s) && Retrying(s, b) && KeySet(s.clients[b].keys) == {k}
    ensures HeadOf(s, k, b)
  {
    assert WokenAtHead(mode, s, b);
    var k' :| HeadOf(s, k', b);
    SittingIsRegistered(s, k', b);
    assert k' in KeySet(s.clients[b].keys);
  }

  lemma {:induction false} KeysKept(mode: Mode, run: seq<State>, steps: seq<Step>, b: Id, i: nat, n: nat)
    requires IsRun(mode, run, steps) && i <= n < |run| && b in run[i].clients
    ensures b in run[n].clients && run[n].clients[b].keys == run[i].clients[b].keys
    decreases n
  {
    hide Init, Enabled, Next;
    if i < n {
      KeysKept(mode, run, steps, b, i, n - 1);
      assert Enabled(run[n - 1], steps[n - 1]) && run[n] == Next(mode, run[n - 1], steps[n - 1]);
      ClientKept(mode, run[n - 1], steps[n - 1], b);
    }
  }

  lemma ClientKept(mode: Mode, s: State, step: Step, b: Id)
    requires Enabled(s, step) && b in s.clients
    ensures b in Next(mode, s, step).clients && Next(mode, s, step).clients[b].keys == s.clients[b].keys
  {
    if Actor(step) != Some(b) { BystanderKept(mode, s, step, b); } else { ActorMoves(mode, s, step); }
    hide Next, Enabled;
  }

  lemma {:induction false} PastOnceInserted(mode: Mode, run: seq<State>, steps: seq<Step>, b: Id, i: nat, n: nat)
    requires IsRun(mode, run, steps) && i < n < |run| && steps[i] == Insert(b)
    ensures Past(run[n], b)
    decreases n
  {
    hide Init, Enabled, Next;
    assert Enabled(run[n - 1], steps[n - 1]) && run[n] == Next(mode, run[n - 1], steps[n - 1]);
    if i < n - 1 {
      PastOnceInserted(mode, run, steps, b, i, n - 1);
      PastKept(mode, run[n - 1], steps[n - 1], b);
    } else {
      InsertedIsPast(mode, run[i], b);
    }
  }

  lemma InsertedIsPast(mode: Mode, s: State, b: Id)
    requires Enabled(s, Insert(b))
    ensures Past(Next(mode, s, Insert(b)), b)
  {
    hide Join;
  }

  // ---- seats and wakeups, over every run ------------------------------------------------------

  /** A registered client sits in each queue exactly as often as it names the key, anyone else
      nowhere; and whoever is woken while registered heads one of its own queues. */
  lemma SeatsAndWakeups(mode: Mode, run: seq<State>, steps: seq<Step>, i: nat, id: Id)
    requires IsRun(mode, run, steps) && i < |run|
    ensures forall k :: multiset(Queue(run[i].queues, k))[id] == Seats(run[i], id, k)
    ensures Woken(run[i], id) && id in run[i].clients && InQueues(run[i].clients[id].pc) ==>
              exists k :: k in run[i].clients[id].keys && HeadOf(run[i], k, id)
  {
    RunInv(mode, run, steps, i);
    hide Init, IsRun, Woken, Counting, Watched, LateAt;
    var s := run[i];
    forall k ensures multiset(Queue(s.queues, k))[id] == Seats(s, id, k) { assert SeatsAt(s, k); }
    assert WokenAtHead(mode, s, id);
    if Woken(s, id) && id in s.clients && InQueues(s.clients[id].pc) {
      var k :| HeadOf(s, k, id);
      SittingIsRegistered(s, k, id);
    }
  }

  // ---- the runs on which the documented promises fail -------------------------------------------

  ghost predicate Reachable(mode: Mode, s: State) {
    exists run, steps :: IsRun(mode, run, steps) && run[|run| - 1] == s
  }

  lemma Then(mode: Mode, s: State, step: Step, next: State)
    requires Reachable(mode, s) && Enabled(s, step) && Next(mode, s, step) == next
    ensures Reachable(mode, next)
  {
    hide Enabled, Next, Init;
    var run, steps :| IsRun(mode, run, steps) && run[|run| - 1] == s;
    var run', steps' := run + [next], steps + [step];
    assert IsRun(mode, run', steps') && run'[|run'| - 1] == next;
  }

  lemma Starts(mode: Mode)
    ensures Reachable(mode, State(multiset{}, map[], 0, map[], map[], {}))
  {
    var run, steps := [State(multiset{}, map[], 0, map[], map[], {})], [];
    assert IsRun(mode, run, steps) && run[|run| - 1] == run[0];
  }

  /** The only client there is, with nothing signalled, elements or not. */
  function Alone(stock: multiset<DbKey>, k: DbKey, pc: Pc): State {
    var queued := InQueues(pc);
    State(stock, if queued then map[k := [0]] else map[], if Counted(pc) then 1 else 0,
          map[0 := Client([k], pc, false)], map[], {})
  }

  lemma ScanMoves(mode: Mode, s: State, id: Id, pc: Pc)
    requires Reachable(mode, s) && Enabled(s, Scan(id)) && pc == Scanned(s, s.clients[id])
    ensures Reachable(mode, At(s, id, pc))
  {
    hide Reachable, HeadKeys, Heads, Queue;
    Then(mode, s, Scan(id), At(s, id, pc));
  }

  /** A client that arrives with nobody waiting and finds nothing is about to register. */
  lemma ArrivesAlone(mode: Mode, k: DbKey)
    ensures Reachable(mode, Alone(multiset{}, k, Joining))
  {
    hide Reachable, Queue, HeadKeys, Heads, Join, Leave, AfterRegistering;
    var s := State(multiset{}, map[], 0, map[], map[], {});
    Starts(mode);
    Then(mode, s, Arrive(0, [k]), Alone(multiset{}, k, Arriving));
    Then(mode, Alone(multiset{}, k, Arriving), LookCount(0), Alone(multiset{}, k, First(0)));
    AttemptsAlone(mode, k);
  }

  lemma AttemptsAlone(mode: Mode, k: DbKey)
    requires Reachable(mode, Alone(multiset{}, k, First(0)))
    ensures Reachable(mode, Alone(multiset{}, k, Joining))
  {
    hide Reachable, Next;
    ScanMoves(mode, Alone(multiset{}, k, First(0)), 0, First(1));
    assert At(Alone(multiset{}, k, First(0)), 0, First(1)) == Alone(multiset{}, k, First(1));
    ScanMoves(mode, Alone(multiset{}, k, First(1)), 0, Joining);
    assert At(Alone(multiset{}, k, First(1)), 0, Joining) == Alone(multiset{}, k, Joining);
  }

  lemma JoinOne(qs: Queues<Id>, k: DbKey, w: Id, q: seq<Id>)
    requires q == Queue(qs, k) + [w]
    ensures Join(qs, [k], w) == qs[k := q]
  {
    assert [k][..0] == [];
    assert Join(qs, [k][..0], w) == qs;
  }

  lemma InsertsAlone(mode: Mode, stock: multiset<DbKey>, k: DbKey)
    requires Reachable(mode, Alone(stock, k, Joining))
    ensures Reachable(mode, Alone(stock, k, Inserted))
  {
    hide Reachable, Join;
    JoinOne(map[], k, 0, [0]);
    Then(mode, Alone(stock, k, Joining), Insert(0), Alone(stock, k, Inserted));
  }

  /** As written, a push between a client's attempt and its registration leaves the client asleep
      with the element in its list. */
  lemma LostWakeup(k: DbKey)
    ensures exists s :: Reachable(SleepAtOnce, s) && Quiescent(s) && Stuck(s, k)
  {
    hide Reachable, HeadKeys, Heads, Join, Leave;
    ArrivesAlone(SleepAtOnce, k);
    PushMissesTheArrival(k);
    InsertsAlone(SleepAtOnce, multiset{k}, k);
    var s := Alone(multiset{k}, k, Inserted);
    assert HeadKeys(s, 0) == {k} by { OnlyKeyHeaded(multiset{k}, k); }
    var asleep := Alone(multiset{k}, k, Waiting).(late := {k});
    Then(SleepAtOnce, s, Complete(0), asleep);
    assert Quiescent(asleep) && Stuck(asleep, k);
  }

  lemma OnlyKeyHeaded(stock: multiset<DbKey>, k: DbKey)
    ensures HeadKeys(Alone(stock, k, Inserted), 0) == {k}
  {
  }

  lemma PushMissesTheArrival(k: DbKey)
    requires Reachable(SleepAtOnce, Alone(multiset{}, k, Joining))
    ensures Reachable(SleepAtOnce, Alone(multiset{k}, k, Joining))
  {
    hide Reachable, Queue, HeadKeys, Heads, Join, Leave, AfterRegistering;
    var s := Alone(multiset{}, k, Joining);
    assert multiset{}[k := 1] == multiset{k};
    var pushed := Alone(multiset{k}, k, Joining).(wakers := map[0 := Waker({k}, false, {})]);
    Then(SleepAtOnce, s, Push(k, 1, 0), pushed);
    Then(SleepAtOnce, pushed, Load(0), Alone(multiset{k}, k, Joining));
  }

  /** With a retry after every registration, a client can be served ahead of one that has waited
      longer for the same key. */
  lemma RetryAlwaysJumpsTheQueue(k: DbKey)
    ensures exists s :: && Reachable(RetryAlways, s) && Enabled(s, Serve(1, 1))
                        && IsAt(s, 0, Waiting) && Precedes(Queue(s.queues, k), 0, 1)
                        && s.clients[1].keys == [k]
  {
    hide Reachable, Next;
    ArrivesAlone(RetryAlways, k);
    InsertsAlone(RetryAlways, multiset{}, k);
    FallsAsleep(k);
    SecondArrives(k);
    SecondRegisters(k);
    var s := Pair(k, Trying(0));
    assert Enabled(s, Serve(1, 1));
    assert Precedes(Queue(s.queues, k), 0, 1);
  }

  lemma FallsAsleep(k: DbKey)
    requires Reachable(RetryAlways, Alone(multiset{}, k, Inserted))
    ensures Reachable(RetryAlways, Alone(multiset{}, k, Waiting))
  {
    hide Reachable, Queue, HeadKeys, Heads, Join, Leave;
    Then(RetryAlways, Alone(multiset{}, k, Inserted), Complete(0), Alone(multiset{}, k, Checking(0)));
    hide Next;
    ScanMoves(RetryAlways, Alone(multiset{}, k, Checking(0)), 0, Checking(1));
    assert At(Alone(multiset{}, k, Checking(0)), 0, Checking(1)) == Alone(multiset{}, k, Checking(1));
    ScanMoves(RetryAlways, Alone(multiset{}, k, Checking(1)), 0, Waiting);
    assert At(Alone(multiset{}, k, Checking(1)), 0, Waiting) == Alone(multiset{}, k, Waiting);
  }

  /** One client asleep, an element pushed and not yet signalled, and a second client. */
  function Pair(k: DbKey, pc: Pc): State {
    State(multiset{k}, map[k := if InQueues(pc) then [0, 1] else [0]], if Counted(pc) then 2 else 1,
          map[0 := Client([k], Waiting, false), 1 := Client([k], pc, false)], map[0 := Waker({k}, false, {})], {})
  }

  lemma SecondArrives(k: DbKey)
    requires Reachable(RetryAlways, Alone(multiset{}, k, Waiting))
    ensures Reachable(RetryAlways, Pair(k, Looking))
  {
    hide Reachable, Queue, HeadKeys, Heads, Join, Leave, AfterRegistering;
    var s := Alone(multiset{}, k, Waiting);
    assert multiset{}[k := 1] == multiset{k};
    var pushed := s.(stock := multiset{k}, wakers := map[0 := Waker({k}, false, {})]);
    Then(RetryAlways, s, Push(k, 1, 0), pushed);
    Then(RetryAlways, pushed, Arrive(1, [k]), Pair(k, Arriving));
    Then(RetryAlways, Pair(k, Arriving), LookCount(1), Pair(k, Looking));
  }

  lemma SecondRegisters(k: DbKey)
    requires Reachable(RetryAlways, Pair(k, Looking))
    ensures Reachable(RetryAlways, Pair(k, Trying(0)))
  {
    SecondDefers(k);
    SecondInserts(k);
    hide Reachable, HeadKeys, Heads, Join, Leave, Queue;
    Then(RetryAlways, Pair(k, Inserted), Complete(1), Pair(k, Checking(0)));
    SecondLooks(k);
  }

  lemma SecondDefers(k: DbKey)
    requires Reachable(RetryAlways, Pair(k, Looking))
    ensures Reachable(RetryAlways, Pair(k, Joining))
  {
    hide Reachable, HeadKeys, Heads, Join, Leave;
    var s := Pair(k, Looking);
    assert Next(RetryAlways, s, LookQueues(1)) == At(s, 1, Joining) by {
      assert k in s.clients[1].keys && Queue(s.queues, k) != [];
    }
    hide Next;
    Then(RetryAlways, s, LookQueues(1), Pair(k, Joining));
  }

  lemma SecondInserts(k: DbKey)
    requires Reachable(RetryAlways, Pair(k, Joining))
    ensures Reachable(RetryAlways, Pair(k, Inserted))
  {
    hide Reachable, Join;
    JoinOne(map[k := [0]], k, 1, [0, 1]);
    Then(RetryAlways, Pair(k, Joining), Insert(1), Pair(k, Inserted));
  }

  lemma SecondLooks(k: DbKey)
    requires Reachable(RetryAlways, Pair(k, Checking(0)))
    ensures Reachable(RetryAlways, Pair(k, Trying(0)))
  {
    hide Reachable, Next;
    ScanMoves(RetryAlways, Pair(k, Checking(0)), 1, Trying(0));
    assert At(Pair(k, Checking(0)), 1, Trying(0)) == Pair(k, Trying(0));
  }
}
