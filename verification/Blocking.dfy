/** Blocked clients, pushers and departing waiters as one state machine, a step for each action on
    shared state: the wakeup protocol and its fairness, over every interleaving. All clients wait
    for the same type of value. */
module Blocking {
  import opened Bytes
  import opened WaitQueues

  type Id = nat

  /** Where a client is in its blocking command; an index is a position in its key list. */
  datatype Pc =
    | Arriving         // about to load the count of blocked clients
    | Looking          // about to look for a waiter ahead of it
    | First(i: nat)    // the opportunistic attempt, at a key
    | Joining          // about to register
    | Inserted         // in its queues, not yet counted
    | Waiting          // asleep
    | Checking(i: nat) // woken, looking for a key it can be served from
    | Trying(i: nat)   // attempting the command, at a key
    | Leaving          // finished, still in its queues
    | Removed          // out of its queues, still counted
    | Done

  /** A client's command; `ready` is the single slot of its wakeup channel. */
  datatype Client = Client(keys: seq<DbKey>, pc: Pc, ready: bool)

  /** A signaller: keys whose heads it has still to collect, and heads it has still to signal. It
      begins by loading the count, and gives up when nobody is blocked. */
  datatype Waker = Waker(keys: set<DbKey>, loaded: bool, heads: set<Id>)

  /** `stock` holds each key as often as its list has elements. `late` is history: the keys whose
      head finished registering while the key already had an element, has had no wakeup since, and
      whose list has not been empty since. */
  datatype State = State(
    stock: multiset<DbKey>,
    queues: Queues<Id>,
    count: int,
    clients: map<Id, Client>,
    wakers: map<nat, Waker>,
    late: set<DbKey>)

  /** What a client does once registered: go to sleep, as the code does; attempt the command once
      more, as its documentation says; or attempt it once more if it heads one of its queues. */
  datatype Mode = SleepAtOnce | RetryAlways | RetryAtHead

  datatype Step =
    | Push(k: DbKey, n: nat, j: nat)
    | Take(k: DbKey, n: nat)
    | Signal(ks: set<DbKey>, j: nat)
    | Arrive(id: Id, keys: seq<DbKey>)
    | LookCount(id: Id)
    | LookQueues(id: Id)
    | Scan(id: Id)
    | Serve(id: Id, n: nat)
    | Insert(id: Id)
    | Complete(id: Id)
    | Consume(id: Id)
    | GiveUp(id: Id)
    | Unregister(id: Id)
    | Decrement(id: Id, j: nat)
    | Load(j: nat)
    | Collect(j: nat, ks: set<DbKey>)
    | Send(j: nat, h: Id)

  predicate InQueues(pc: Pc) {
    pc.Inserted? || pc.Waiting? || pc.Checking? || pc.Trying? || pc.Leaving?
  }

  predicate Counted(pc: Pc) { pc.Waiting? || pc.Checking? || pc.Trying? || pc.Leaving? || pc.Removed? }

  predicate HeadOf(s: State, k: DbKey, id: Id) { Queue(s.queues, k) != [] && Queue(s.queues, k)[0] == id }

  /** The keys whose queue a client heads. */
  function HeadKeys(s: State, id: Id): set<DbKey> { set k | k in s.queues && HeadOf(s, k, id) }

  lemma HeadIsHeadKey(s: State, k: DbKey)
    ensures forall id :: HeadOf(s, k, id) <==> k in HeadKeys(s, id)
  {
  }

  function At(s: State, id: Id, pc: Pc): State
    requires id in s.clients
  {
    s.(clients := s.clients[id := s.clients[id].(pc := pc)])
  }

  /** Elements leave a list; once it is empty nobody is late for it. */
  function Taken(s: State, k: DbKey, n: nat): State
    requires n <= s.stock[k]
  {
    s.(stock := s.stock[k := s.stock[k] - n], late := if n == s.stock[k] then s.late - {k} else s.late)
  }

  /** The key a scanning client is at. */
  predicate Scanning(s: State, id: Id) {
    id in s.clients && (s.clients[id].pc.First? || s.clients[id].pc.Checking? || s.clients[id].pc.Trying?)
    && s.clients[id].pc.i <= |s.clients[id].keys|
  }

  predicate IsAt(s: State, id: Id, pc: Pc) { id in s.clients && s.clients[id].pc == pc }

  predicate Enabled(s: State, step: Step) {
    match step
    case Push(k, n, j) => n > 0 && j !in s.wakers
    case Take(k, n) => n <= s.stock[k]
    case Signal(ks, j) => j !in s.wakers
    case Arrive(id, keys) => id !in s.clients && keys != []
    case LookCount(id) => IsAt(s, id, Arriving)
    case LookQueues(id) => IsAt(s, id, Looking)
    case Scan(id) =>
      && Scanning(s, id)
      && var c := s.clients[id];
      c.pc.i < |c.keys| && !c.pc.Checking? ==> c.keys[c.pc.i] !in s.stock
    case Serve(id, n) =>
      && Scanning(s, id) && !s.clients[id].pc.Checking?
      && var c := s.clients[id];
      c.pc.i < |c.keys| && 0 < n <= s.stock[c.keys[c.pc.i]]
    case Insert(id) => IsAt(s, id, Joining)
    case Complete(id) => IsAt(s, id, Inserted)
    case Consume(id) => IsAt(s, id, Waiting) && s.clients[id].ready
    case GiveUp(id) => id in s.clients && (s.clients[id].pc.Waiting? || s.clients[id].pc.Trying?)
    case Unregister(id) => IsAt(s, id, Leaving)
    case Decrement(id, j) => IsAt(s, id, Removed) && j !in s.wakers
    case Load(j) => j in s.wakers && !s.wakers[j].loaded
    case Collect(j, ks) => j in s.wakers && s.wakers[j].loaded && ks <= s.wakers[j].keys
    case Send(j, h) => j in s.wakers && h in s.wakers[j].heads && h in s.clients
  }

  /** Where a scanning client goes from the key it is at, with nothing taken. */
  function Scanned(s: State, c: Client): Pc
    requires c.pc.First? || c.pc.Checking? || c.pc.Trying?
  {
    if c.pc.i >= |c.keys| then (if c.pc.First? then Joining else Waiting)
    else if c.pc.First? then First(c.pc.i + 1)
    else if c.pc.Trying? then Trying(c.pc.i + 1)
    else if c.keys[c.pc.i] in s.stock then Trying(0)
    else Checking(c.pc.i + 1)
  }

  function AfterRegistering(mode: Mode, s: State, id: Id): Pc {
    if mode == RetryAlways || (mode == RetryAtHead && HeadKeys(s, id) != {}) then Checking(0) else Waiting
  }

  function Next(mode: Mode, s: State, step: Step): State
    requires Enabled(s, step)
  {
    match step
    case Push(k, n, j) =>
      s.(stock := s.stock[k := s.stock[k] + n], wakers := s.wakers[j := Waker({k}, false, {})])
    case Take(k, n) => Taken(s, k, n)
    case Signal(ks, j) => s.(wakers := s.wakers[j := Waker(ks, false, {})])
    case Arrive(id, keys) => s.(clients := s.clients[id := Client(keys, Arriving, false)])
    case LookCount(id) => At(s, id, if s.count == 0 then First(0) else Looking)
    case LookQueues(id) =>
      At(s, id, if exists k :: k in s.clients[id].keys && Queue(s.queues, k) != [] then Joining else First(0))
    case Scan(id) => At(s, id, Scanned(s, s.clients[id]))
    case Serve(id, n) =>
      var c := s.clients[id];
      At(Taken(s, c.keys[c.pc.i], n), id, if c.pc.First? then Done else Leaving)
    case Insert(id) => At(s, id, Inserted).(queues := Join(s.queues, s.clients[id].keys, id))
    case Complete(id) =>
      var pc := AfterRegistering(mode, s, id);
      At(s, id, pc).(count := s.count + 1,
                     late := if pc == Waiting then s.late + (set k | k in HeadKeys(s, id) && k in s.stock) else s.late)
    case Consume(id) =>
      s.(clients := s.clients[id := s.clients[id].(pc := Checking(0), ready := false)],
         late := s.late - HeadKeys(s, id))
    case GiveUp(id) => At(s, id, Leaving)
    case Unregister(id) =>
      At(s, id, Removed).(queues := Leave(s.queues, s.clients[id].keys, id), late := s.late - HeadKeys(s, id))
    case Decrement(id, j) =>
      At(s, id, Done).(count := s.count - 1, wakers := s.wakers[j := Waker(KeySet(s.clients[id].keys), true, {})])
    case Load(j) =>
      s.(wakers := if s.count == 0 then s.wakers - {j} else s.wakers[j := s.wakers[j].(loaded := true)])
    case Collect(j, ks) =>
      var w := s.wakers[j];
      s.(wakers := s.wakers[j := w.(keys := w.keys - ks, heads := w.heads + Heads(s.queues, ks))])
    case Send(j, h) =>
      var w := s.wakers[j];
      s.(wakers := s.wakers[j := w.(heads := w.heads - {h})],
         clients := s.clients[h := s.clients[h].(ready := true)])
  }

  predicate Init(s: State) { s == State(multiset{}, map[], 0, map[], map[], {}) }

  ghost predicate IsRun(mode: Mode, run: seq<State>, steps: seq<Step>) {
    && |run| == |steps| + 1
    && Init(run[0])
    && forall i :: 0 <= i < |steps| ==> Enabled(run[i], steps[i]) && run[i + 1] == Next(mode, run[i], steps[i])
  }

  // ---- seats: who is in which queue, and how often --------------------------------------

  /** How often a client should sit in a queue: as often as it names the key, while registered. */
  function Seats(s: State, id: Id, k: DbKey): nat {
    if id in s.clients && InQueues(s.clients[id].pc) then multiset(s.clients[id].keys)[k] else 0
  }

  ghost predicate SeatsAt(s: State, k: DbKey) { forall id :: multiset(Queue(s.queues, k))[id] == Seats(s, id, k) }

  ghost predicate Seating(s: State) { NoEmptyQueue(s.queues) && forall k :: SeatsAt(s, k) }

  lemma SeatingStep(mode: Mode, s: State, step: Step)
    requires Seating(s) && Enabled(s, step)
    ensures Seating(Next(mode, s, step))
  {
    if step.Insert? {
      SeatingInsert(mode, s, step.id);
    } else if step.Unregister? {
      SeatingUnregister(mode, s, step.id);
    } else {
      hide Enabled, Next, Seats, NoEmptyQueue;
      var s' := Next(mode, s, step);
      QueuesKept(mode, s, step);
      forall k ensures SeatsAt(s', k) {
        assert SeatsAt(s, k);
        forall id ensures Seats(s', id, k) == Seats(s, id, k) { SeatsKept(mode, s, step, id, k); }
      }
    }
  }

  lemma QueuesKept(mode: Mode, s: State, step: Step)
    requires Enabled(s, step) && !step.Insert? && !step.Unregister?
    ensures Next(mode, s, step).queues == s.queues
  {
    hide HeadKeys, Heads, AfterRegistering;
  }

  /** The client a step acts on, if any. */
  function Actor(step: Step): Option<Id> {
    match step
    case Push(_, _, _) => None
    case Take(_, _) => None
    case Signal(_, _) => None
    case Load(_) => None
    case Collect(_, _) => None
    case Send(_, h) => Some(h)
    case _ => Some(step.id)
  }

  lemma BystanderKept(mode: Mode, s: State, step: Step, x: Id)
    requires Enabled(s, step) && Actor(step) != Some(x)
    ensures var s' := Next(mode, s, step);
            (x in s'.clients <==> x in s.clients) && (x in s.clients ==> s'.clients[x] == s.clients[x])
  {
    hide HeadKeys, Heads, Queue, AfterRegistering;
  }

  /** What a step does to the client it acts on. */
  lemma ActorMoves(mode: Mode, s: State, step: Step)
    requires Enabled(s, step) && Actor(step).Some? && !step.Arrive?
    ensures var s', id := Next(mode, s, step), Actor(step).value;
            && id in s.clients && id in s'.clients && s'.clients[id].keys == s.clients[id].keys
            && var pc, pc' := s.clients[id].pc, s'.clients[id].pc;
            && (InQueues(pc) == InQueues(pc') || step.Insert? || step.Unregister?)
            && (Counted(pc) == Counted(pc') || step.Complete? || step.Decrement?)
  {
    hide HeadKeys, Heads, Queue;
  }

  lemma SeatsKept(mode: Mode, s: State, step: Step, id: Id, k: DbKey)
    requires Enabled(s, step) && !step.Insert? && !step.Unregister?
    ensures Seats(Next(mode, s, step), id, k) == Seats(s, id, k)
  {
    if Actor(step) != Some(id) {
      BystanderKept(mode, s, step, id);
      hide Next, Enabled;
    } else if !step.Arrive? {
      ActorMoves(mode, s, step);
      hide Next, Enabled;
    }
  }

  lemma SeatingInsert(mode: Mode, s: State, id: Id)
    requires Seating(s) && Enabled(s, Insert(id))
    ensures Seating(Next(mode, s, Insert(id)))
  {
    hide Join, NoEmptyQueue, SeatsAt;
    NoEmptyQueueKept(s.queues, s.clients[id].keys, id);
    forall k ensures SeatsAt(Next(mode, s, Insert(id)), k) { SeatsAtInsert(mode, s, id, k); }
  }

  lemma SeatsAtInsert(mode: Mode, s: State, id: Id, k: DbKey)
    requires SeatsAt(s, k) && Enabled(s, Insert(id))
    ensures SeatsAt(Next(mode, s, Insert(id)), k)
  {
    hide Join, Copies, Queue;
    var s', keys := Next(mode, s, Insert(id)), s.clients[id].keys;
    JoinAt(s.queues, keys, id, k);
    CopiesCount(id, multiset(keys)[k]);
    assert Seats(s, id, k) == 0;
    var q, extra := Queue(s.queues, k), Copies(id, multiset(keys)[k]);
    assert multiset(q + extra) == multiset(q) + multiset(extra);
    forall x ensures multiset(Queue(s'.queues, k))[x] == Seats(s', x, k) {
      assert multiset(q)[x] == Seats(s, x, k);
    }
  }

  lemma SeatingUnregister(mode: Mode, s: State, id: Id)
    requires Seating(s) && Enabled(s, Unregister(id))
    ensures Seating(Next(mode, s, Unregister(id)))
  {
    hide Leave, NoEmptyQueue, SeatsAt;
    NoEmptyQueueKept(s.queues, s.clients[id].keys, id);
    forall k ensures SeatsAt(Next(mode, s, Unregister(id)), k) { SeatsAtUnregister(mode, s, id, k); }
  }

  lemma SeatsAtUnregister(mode: Mode, s: State, id: Id, k: DbKey)
    requires SeatsAt(s, k) && Enabled(s, Unregister(id))
    ensures SeatsAt(Next(mode, s, Unregister(id)), k)
    ensures Queue(Next(mode, s, Unregister(id)).queues, k) == Without(Queue(s.queues, k), id)
  {
    hide Leave, Without, HeadKeys, Queue;
    var s', keys := Next(mode, s, Unregister(id)), s.clients[id].keys;
    assert Seats(s, id, k) == multiset(keys)[k];
    LeaveIsWithout(s.queues, keys, id, k);
    forall x ensures multiset(Queue(s'.queues, k))[x] == Seats(s', x, k) {
      assert multiset(Queue(s.queues, k))[x] == Seats(s, x, k);
    }
  }

  // ---- the count of blocked clients -------------------------------------------------------

  ghost function CountedClients(s: State): set<Id> { set id | id in s.clients && Counted(s.clients[id].pc) }

  ghost predicate Counting(s: State) { s.count == |CountedClients(s)| }

  lemma CountingStep(mode: Mode, s: State, step: Step)
    requires Counting(s) && Enabled(s, step)
    ensures Counting(Next(mode, s, step))
  {
    hide CountedClients, Enabled, Next;
    var before, after := CountedClients(s), CountedClients(Next(mode, s, step));
    forall x { CountedAfter(mode, s, step, x); }
    CountAfter(mode, s, step);
    if step.Complete? {
      assert after == before + {step.id};
    } else if step.Decrement? {
      assert after == before - {step.id};
    } else {
      assert after == before;
    }
  }

  lemma CountAfter(mode: Mode, s: State, step: Step)
    requires Enabled(s, step)
    ensures Next(mode, s, step).count - s.count == if step.Complete? then 1 else if step.Decrement? then -1 else 0
    ensures step.Complete? ==> step.id !in CountedClients(s)
    ensures step.Decrement? ==> step.id in CountedClients(s)
  {
    hide HeadKeys, Heads, Queue;
  }

  lemma CountedAfter(mode: Mode, s: State, step: Step, x: Id)
    requires Enabled(s, step)
    ensures x in CountedClients(Next(mode, s, step)) <==>
            (if Actor(step) == Some(x) && step.Complete? then true
             else if Actor(step) == Some(x) && step.Decrement? then false
             else x in CountedClients(s))
  {
    if Actor(step) != Some(x) {
      BystanderKept(mode, s, step, x);
      hide Next, Enabled;
    } else if !step.Arrive? && !step.Complete? && !step.Decrement? {
      ActorMoves(mode, s, step);
      hide Next, Enabled;
    } else {
      hide HeadKeys;
    }
  }

  // ---- only heads are woken -----------------------------------------------------------------

  /** A client that has registered at some point. */
  predicate Past(s: State, id: Id) {
    id in s.clients && (InQueues(s.clients[id].pc) || s.clients[id].pc.Removed? || s.clients[id].pc.Done?)
  }

  /** A wakeup is in the client's slot or on its way there. */
  ghost predicate Woken(s: State, id: Id) {
    (id in s.clients && s.clients[id].ready) || exists j :: j in s.wakers && id in s.wakers[j].heads
  }

  predicate Retrying(s: State, id: Id) {
    id in s.clients && (s.clients[id].pc.Checking? || s.clients[id].pc.Trying?)
  }

  ghost predicate HeadsSome(s: State, id: Id) { exists k :: HeadOf(s, k, id) }

  /** Only a registered client is ever woken, and while it stays registered it heads one of its
      queues; so does one that retries, unless retries are made regardless. */
  ghost predicate WokenAtHead(mode: Mode, s: State, id: Id) {
    && (Woken(s, id) ==> Past(s, id))
    && (Woken(s, id) && InQueues(s.clients[id].pc) ==> HeadsSome(s, id))
    && (Retrying(s, id) && mode != RetryAlways ==> HeadsSome(s, id))
  }

  ghost predicate Waking(mode: Mode, s: State) { forall id :: WokenAtHead(mode, s, id) }

  /** A head stays head until it leaves. */
  lemma HeadKept(mode: Mode, s: State, step: Step, k: DbKey, id: Id)
    requires Seating(s) && Enabled(s, step) && HeadOf(s, k, id) && step != Unregister(id)
    ensures HeadOf(Next(mode, s, step), k, id)
  {
    if step.Insert? {
      hide Join, Seating;
      JoinAt(s.queues, s.clients[step.id].keys, step.id, k);
    } else if step.Unregister? {
      hide Leave, HeadKeys;
      assert SeatsAt(s, k);
      SeatsAtUnregister(mode, s, step.id, k);
    } else {
      QueuesKept(mode, s, step);
      hide Enabled, Next;
    }
  }

  lemma HeadsSomeKept(mode: Mode, s: State, step: Step, id: Id)
    requires Seating(s) && Enabled(s, step) && HeadsSome(s, id) && step != Unregister(id)
    ensures HeadsSome(Next(mode, s, step), id)
  {
    hide Seating, Enabled, Next, HeadOf;
    var k :| HeadOf(s, k, id);
    HeadKept(mode, s, step, k, id);
  }

  /** Whoever sits in a queue is registered. */
  lemma SittingIsRegistered(s: State, k: DbKey, id: Id)
    requires Seating(s) && id in Queue(s.queues, k)
    ensures id in s.clients && InQueues(s.clients[id].pc) && k in s.clients[id].keys
  {
    assert SeatsAt(s, k);
    assert multiset(Queue(s.queues, k))[id] == Seats(s, id, k);
    assert multiset(s.clients[id].keys)[k] > 0;
  }

  predicate ActsOnWaker(step: Step, j: nat) { (step.Load? || step.Collect? || step.Send?) && step.j == j }

  /** A signaller no step acts on stays as it is; a new one has no heads yet. */
  lemma WakerKept(mode: Mode, s: State, step: Step, j: nat)
    requires Enabled(s, step) && !ActsOnWaker(step, j)
    ensures j in s.wakers ==> j in Next(mode, s, step).wakers && Next(mode, s, step).wakers[j] == s.wakers[j]
    ensures j !in s.wakers && j in Next(mode, s, step).wakers ==> Next(mode, s, step).wakers[j].heads == {}
  {
    hide HeadKeys, Heads, Queue, AfterRegistering;
  }

  lemma ReadyAfter(mode: Mode, s: State, step: Step, id: Id)
    requires Enabled(s, step) && id in Next(mode, s, step).clients && Next(mode, s, step).clients[id].ready
    ensures Woken(s, id)
  {
    if Actor(step) != Some(id) {
      BystanderKept(mode, s, step, id);
      hide Next, Enabled;
    } else if step.Send? {
      assert id in s.wakers[step.j].heads;
    } else {
      hide HeadKeys, Heads, Queue, AfterRegistering;
    }
  }

  lemma WokenAfter(mode: Mode, s: State, step: Step, id: Id)
    requires Seating(s) && Enabled(s, step) && Woken(Next(mode, s, step), id)
    ensures Woken(s, id) || (step.Collect? && HeadsSome(s, id) && Past(s, id))
  {
    var s' := Next(mode, s, step);
    if id in s'.clients && s'.clients[id].ready {
      ReadyAfter(mode, s, step, id);
    } else {
      var j :| j in s'.wakers && id in s'.wakers[j].heads;
      if ActsOnWaker(step, j) {
        HeadsAfter(mode, s, step, j, id);
      } else {
        WakerKept(mode, s, step, j);
      }
    }
    hide Seating, Next, Enabled, HeadsSome;
  }

  lemma HeadsAfter(mode: Mode, s: State, step: Step, j: nat, id: Id)
    requires Seating(s) && Enabled(s, step) && ActsOnWaker(step, j)
    requires j in Next(mode, s, step).wakers && id in Next(mode, s, step).wakers[j].heads
    ensures Woken(s, id) || (step.Collect? && HeadsSome(s, id) && Past(s, id))
  {
    hide Seating, Queue, HeadKeys;
    if id !in s.wakers[j].heads {
      assert id in Heads(s.queues, step.ks);
      var k :| k in step.ks && Queue(s.queues, k) != [] && Queue(s.queues, k)[0] == id;
      assert HeadOf(s, k, id);
      SittingIsRegistered(s, k, id);
    }
  }

  lemma WakingStep(mode: Mode, s: State, step: Step, id: Id)
    requires Seating(s) && WokenAtHead(mode, s, id) && Enabled(s, step)
    ensures WokenAtHead(mode, Next(mode, s, step), id)
  {
    hide Seating, Enabled, Next, HeadsSome, Woken;
    var s' := Next(mode, s, step);
    if Woken(s', id) { WokenAfter(mode, s, step, id); }
    if Retrying(s', id) { RetryingAfter(mode, s, step, id); }
    if HeadsSome(s, id) && step != Unregister(id) { HeadsSomeKept(mode, s, step, id); }
    if Past(s, id) { PastKept(mode, s, step, id); }
  }

  lemma PastKept(mode: Mode, s: State, step: Step, id: Id)
    requires Enabled(s, step) && Past(s, id)
    ensures Past(Next(mode, s, step), id)
    ensures InQueues(Next(mode, s, step).clients[id].pc) ==> InQueues(s.clients[id].pc) && step != Unregister(id)
  {
    hide HeadKeys, Heads, Queue;
    if Actor(step) != Some(id) {
      BystanderKept(mode, s, step, id);
      hide Next, Enabled;
    }
  }

  /** A client begins to retry on a wakeup, or at the head of a queue, or in the mode that always
      retries. */
  lemma RetryingAfter(mode: Mode, s: State, step: Step, id: Id)
    requires Enabled(s, step) && Retrying(Next(mode, s, step), id)
    ensures step != Unregister(id)
    ensures Retrying(s, id) || Woken(s, id) || HeadsSome(s, id) || mode == RetryAlways
  {
    if Actor(step) != Some(id) {
      BystanderKept(mode, s, step, id);
      hide Next, Enabled;
    } else {
      hide Heads, Queue;
      if step.Complete? && mode == RetryAtHead {
        var k :| k in HeadKeys(s, id);
        assert HeadOf(s, k, id);
      }
    }
  }

  // ---- no wakeup is lost, but for late arrivals -----------------------------------------------

  /** A head that will look at the key, or hand it on, without any further signal. */
  predicate Busy(c: Client, k: DbKey) {
    || c.ready
    || c.pc.Inserted?
    || c.pc.Leaving?
    || ((c.pc.Checking? || c.pc.Trying?) && c.pc.i <= |c.keys| && k in c.keys[c.pc.i..])
  }

  /** A signaller still has the key to look up, or its head to signal. */
  ghost predicate Owed(s: State, k: DbKey, h: Id) {
    exists j :: j in s.wakers && (k in s.wakers[j].keys || h in s.wakers[j].heads)
  }

  /** A departed waiter has still to hand the key on. */
  ghost predicate Handed(s: State, k: DbKey) { exists id :: IsAt(s, id, Removed) && k in s.clients[id].keys }

  /** Somebody will make the head of the queue look at the key. */
  ghost predicate Attended(s: State, k: DbKey, h: Id) {
    (h in s.clients && Busy(s.clients[h], k)) || Owed(s, k, h) || Handed(s, k)
  }

  /** A key with both an element and a waiter is attended to, or its head was late. */
  ghost predicate Watched(s: State, k: DbKey) {
    k in s.stock && Queue(s.queues, k) != [] ==> k in s.late || Attended(s, k, Queue(s.queues, k)[0])
  }

  lemma HandedKept(mode: Mode, s: State, step: Step, k: DbKey)
    requires Enabled(s, step) && Handed(s, k)
    ensures Handed(Next(mode, s, step), k) || (step.Decrement? && forall h :: Owed(Next(mode, s, step), k, h))
  {
    hide HeadKeys, Heads, Queue;
    var id :| IsAt(s, id, Removed) && k in s.clients[id].keys;
    if Actor(step) != Some(id) {
      BystanderKept(mode, s, step, id);
      hide Next, Enabled;
      assert IsAt(Next(mode, s, step), id, Removed);
    } else if step.Decrement? {
      assert k in Next(mode, s, step).wakers[step.j].keys;
    } else {
      assert IsAt(Next(mode, s, step), id, Removed);
    }
  }

  lemma OwedKept(mode: Mode, s: State, step: Step, k: DbKey, h: Id)
    requires Seating(s) && Counting(s) && Enabled(s, step) && HeadOf(s, k, h) && Owed(s, k, h)
    ensures Attended(Next(mode, s, step), k, h)
  {
    var j :| j in s.wakers && (k in s.wakers[j].keys || h in s.wakers[j].heads);
    if ActsOnWaker(step, j) {
      hide Seating, Counting;
      OwedDischarged(mode, s, step, k, h, j);
    } else {
      hide Seating, Counting, Enabled, Next;
      WakerKept(mode, s, step, j);
    }
  }

  lemma OwedDischarged(mode: Mode, s: State, step: Step, k: DbKey, h: Id, j: nat)
    requires Seating(s) && Counting(s) && Enabled(s, step) && HeadOf(s, k, h) && ActsOnWaker(step, j)
    requires k in s.wakers[j].keys || h in s.wakers[j].heads
    ensures Attended(Next(mode, s, step), k, h)
  {
    hide Seating, Counting, HeadKeys;
    var s' := Next(mode, s, step);
    if step.Load? && s.count == 0 {
      UncountedHead(s, k, h);
    } else if step.Collect? && k in step.ks {
      assert h in Heads(s.queues, step.ks);
      assert h in s'.wakers[j].heads;
    } else {
      hide Heads, Queue;
      assert step == Send(j, h) || k in s'.wakers[j].keys || h in s'.wakers[j].heads;
    }
  }

  /** While nobody is counted, a head is a client that has not finished registering. */
  lemma UncountedHead(s: State, k: DbKey, h: Id)
    requires Seating(s) && Counting(s) && HeadOf(s, k, h) && s.count == 0
    ensures h in s.clients && s.clients[h].pc == Inserted
  {
    SittingIsRegistered(s, k, h);
    assert h !in CountedClients(s);
  }

  lemma BusyKept(mode: Mode, s: State, step: Step, k: DbKey, h: Id)
    requires Seating(s) && Enabled(s, step) && HeadOf(s, k, h) && k in s.stock
    requires h in s.clients && Busy(s.clients[h], k) && step != Unregister(h)
    ensures var s' := Next(mode, s, step); k in s'.late || (h in s'.clients && Busy(s'.clients[h], k))
  {
    SittingIsRegistered(s, k, h);
    hide Seating;
    if Actor(step) != Some(h) {
      BystanderKept(mode, s, step, h);
      hide Next, Enabled;
    } else {
      hide Heads, Queue;
      assert k in s.queues by { assert Queue(s.queues, k) != []; }
      assert k in HeadKeys(s, h);
      var c := s.clients[h];
      assert c.keys[0..] == c.keys;
      if (c.pc.Checking? || c.pc.Trying?) && c.pc.i < |c.keys| {
        assert c.keys[c.pc.i..] == [c.keys[c.pc.i]] + c.keys[c.pc.i + 1..];
      }
    }
  }

  lemma WatchInsert(mode: Mode, s: State, id: Id, k: DbKey)
    requires Seating(s) && Counting(s) && Watched(s, k) && Enabled(s, Insert(id))
    ensures Watched(Next(mode, s, Insert(id)), k)
  {
    hide Seating, Counting, Join, Attended;
    var s' := Next(mode, s, Insert(id));
    JoinAt(s.queues, s.clients[id].keys, id, k);
    if Queue(s.queues, k) == [] {
      assert Attended(s', k, id) by { AttendedWhenBusy(s', k, id); }
    } else {
      var h := Queue(s.queues, k)[0];
      if k in s.stock && k !in s.late { AttendedKept(mode, s, Insert(id), k, h); }
    }
  }

  lemma AttendedWhenBusy(s: State, k: DbKey, h: Id)
    requires h in s.clients && Busy(s.clients[h], k)
    ensures Attended(s, k, h)
  {
  }

  lemma AttendedKept(mode: Mode, s: State, step: Step, k: DbKey, h: Id)
    requires Seating(s) && Counting(s) && Enabled(s, step) && HeadOf(s, k, h) && k in s.stock && Attended(s, k, h)
    requires step != Unregister(h)
    ensures k in Next(mode, s, step).late || Attended(Next(mode, s, step), k, h)
  {
    hide Seating, Counting, Enabled, Next, Busy, Owed, Handed, HeadOf;
    if h in s.clients && Busy(s.clients[h], k) {
      BusyKept(mode, s, step, k, h);
    } else if Owed(s, k, h) {
      OwedKept(mode, s, step, k, h);
    } else {
      HandedKept(mode, s, step, k);
    }
  }

  lemma WatchUnregister(mode: Mode, s: State, id: Id, k: DbKey)
    requires Seating(s) && Counting(s) && Watched(s, k) && Enabled(s, Unregister(id))
    ensures Watched(Next(mode, s, Unregister(id)), k)
  {
    hide Counting, Leave, Without, Attended;
    var s' := Next(mode, s, Unregister(id));
    assert SeatsAt(s, k);
    SeatsAtUnregister(mode, s, id, k);
    if k in s.clients[id].keys {
      assert IsAt(s', id, Removed) && k in s'.clients[id].keys;
      assert Handed(s', k);
      assert forall h :: Attended(s', k, h) by { HandedAttends(s', k); }
    } else if Queue(s.queues, k) != [] {
      var h := Queue(s.queues, k)[0];
      SittingIsRegistered(s, k, h);
      assert multiset(Queue(s.queues, k))[id] == Seats(s, id, k) == 0;
      assert id !in multiset(Queue(s.queues, k));
      WithoutStranger(Queue(s.queues, k), id);
      if k in s.stock && k !in s.late { AttendedKept(mode, s, Unregister(id), k, h); }
    } else {
      assert Queue(s'.queues, k) == [] by {
        assert Without(Queue(s.queues, k), id) == [] by { WithoutStranger([], id); }
      }
    }
  }

  lemma HandedAttends(s: State, k: DbKey)
    requires Handed(s, k)
    ensures forall h :: Attended(s, k, h)
  {
  }

  /** What the steps that leave the queues alone do to a key's elements and lateness. */
  lemma StockAfter(mode: Mode, s: State, step: Step, k: DbKey)
    requires Enabled(s, step) && k in Next(mode, s, step).stock
    ensures k in s.stock || (step.Push? && step.k == k)
    ensures k in s.late ==>
              k in Next(mode, s, step).late || ((step.Consume? || step.Unregister?) && HeadOf(s, k, step.id))
  {
    hide Heads, Queue;
  }

  lemma WatchOther(mode: Mode, s: State, step: Step, k: DbKey)
    requires Seating(s) && Counting(s) && Watched(s, k) && Enabled(s, step) && !step.Insert? && !step.Unregister?
    ensures Watched(Next(mode, s, step), k)
  {
    hide Seating, Counting, Enabled, Next, Attended;
    var s' := Next(mode, s, step);
    QueuesKept(mode, s, step);
    if k in s'.stock && Queue(s.queues, k) != [] {
      var h := Queue(s.queues, k)[0];
      StockAfter(mode, s, step, k);
      if step.Push? && step.k == k {
        PushOwes(mode, s, step, h);
      } else if k in s.late && k !in s'.late {
        ConsumeLooks(mode, s, step.id, k);
      } else if k !in s.late {
        AttendedKept(mode, s, step, k, h);
      }
    }
  }

  lemma PushOwes(mode: Mode, s: State, step: Step, h: Id)
    requires Enabled(s, step) && step.Push?
    ensures Attended(Next(mode, s, step), step.k, h)
  {
    assert step.k in Next(mode, s, step).wakers[step.j].keys;
  }

  lemma ConsumeLooks(mode: Mode, s: State, id: Id, k: DbKey)
    requires Seating(s) && Enabled(s, Consume(id)) && HeadOf(s, k, id)
    ensures Attended(Next(mode, s, Consume(id)), k, id)
  {
    SittingIsRegistered(s, k, id);
    hide Seating, HeadKeys;
    assert s.clients[id].keys[0..] == s.clients[id].keys;
  }

  lemma WatchStep(mode: Mode, s: State, step: Step, k: DbKey)
    requires Seating(s) && Counting(s) && Watched(s, k) && Enabled(s, step)
    ensures Watched(Next(mode, s, step), k)
  {
    hide Seating, Counting, Enabled, Next, Watched;
    match step {
      case Insert(id) => WatchInsert(mode, s, id, k);
      case Unregister(id) => WatchUnregister(mode, s, id, k);
      case _ => WatchOther(mode, s, step, k);
    }
  }

  // ---- lateness ---------------------------------------------------------------------------

  /** A late key has an element and a head that is asleep or on its way out; there is none unless
      registered clients go to sleep at once. */
  ghost predicate LateAt(mode: Mode, s: State, k: DbKey) {
    k in s.late ==>
      && mode == SleepAtOnce
      && k in s.stock
      && Queue(s.queues, k) != []
      && (IsAt(s, Queue(s.queues, k)[0], Waiting) || IsAt(s, Queue(s.queues, k)[0], Leaving))
  }

  lemma LateStep(mode: Mode, s: State, step: Step, k: DbKey)
    requires Seating(s) && LateAt(mode, s, k) && Enabled(s, step)
    ensures LateAt(mode, Next(mode, s, step), k)
  {
    hide Seating, Next, Enabled;
    var s' := Next(mode, s, step);
    if k in s'.late {
      LateCause(mode, s, step, k);
      if k in s.late {
        var h := Queue(s.queues, k)[0];
        assert HeadOf(s, k, h);
        HeadKept(mode, s, step, k, h);
        LateHead(mode, s, step, h, k);
      } else {
        QueuesKept(mode, s, step);
        assert HeadOf(s, k, step.id) && HeadOf(s', k, step.id);
        StockKept(mode, s, step);
      }
    }
  }

  /** A key becomes late only by its head finishing registration, in the mode without a retry. */
  lemma LateCause(mode: Mode, s: State, step: Step, k: DbKey)
    requires Seating(s) && Enabled(s, step) && k in Next(mode, s, step).late
    ensures k in s.late || (step.Complete? && HeadOf(s, k, step.id) && k in s.stock && mode == SleepAtOnce
                            && IsAt(Next(mode, s, step), step.id, Waiting))
    ensures k in s.late ==>
              (k in s.stock ==> k in Next(mode, s, step).stock) && !(step.Unregister? && HeadOf(s, k, step.id))
  {
    hide Seating, Heads, Join, Leave;
    HeadIsHeadKey(s, k);
    hide Queue;
  }

  /** The head of a late key stays asleep or on its way out for as long as the key is late. */
  lemma LateHead(mode: Mode, s: State, step: Step, h: Id, k: DbKey)
    requires Enabled(s, step) && HeadOf(s, k, h) && k in s.late && k in Next(mode, s, step).late
    requires IsAt(s, h, Waiting) || IsAt(s, h, Leaving)
    ensures IsAt(Next(mode, s, step), h, Waiting) || IsAt(Next(mode, s, step), h, Leaving)
  {
    if Actor(step) != Some(h) {
      BystanderKept(mode, s, step, h);
      hide Next, Enabled;
    } else {
      hide Heads, Queue;
      assert k in HeadKeys(s, h) by { assert Queue(s.queues, k) != []; }
    }
  }

  lemma StockKept(mode: Mode, s: State, step: Step)
    requires Enabled(s, step) && step.Complete?
    ensures Next(mode, s, step).stock == s.stock
  {
    hide HeadKeys;
  }

  // ---- whole runs -----------------------------------------------------------------------

  ghost predicate Inv(mode: Mode, s: State) {
    && Seating(s)
    && Counting(s)
    && Waking(mode, s)
    && forall k :: Watched(s, k) && LateAt(mode, s, k)
  }

  lemma InvStep(mode: Mode, s: State, step: Step)
    requires Inv(mode, s) && Enabled(s, step)
    ensures Inv(mode, Next(mode, s, step))
  {
    hide Seating, Counting, WokenAtHead, Watched, LateAt, Enabled, Next;
    SeatingStep(mode, s, step);
    CountingStep(mode, s, step);
    forall id ensures WokenAtHead(mode, Next(mode, s, step), id) { WakingStep(mode, s, step, id); }
    forall k ensures Watched(Next(mode, s, step), k) && LateAt(mode, Next(mode, s, step), k) {
      WatchStep(mode, s, step, k);
      LateStep(mode, s, step, k);
    }
  }

  lemma InvInit(mode: Mode, s: State)
    requires Init(s)
    ensures Inv(mode, s)
  {
    forall k ensures SeatsAt(s, k) { }
    assert CountedClients(s) == {};
  }

  lemma {:induction false} RunInv(mode: Mode, run: seq<State>, steps: seq<Step>, i: nat)
    requires IsRun(mode, run, steps) && i < |run|
    ensures Inv(mode, run[i])
  {
    hide Init, Inv, Enabled, Next;
    if i == 0 {
      InvInit(mode, run[0]);
    } else {
      RunInv(mode, run, steps, i - 1);
      assert Enabled(run[i - 1], steps[i - 1]) && run[i] == Next(mode, run[i - 1], steps[i - 1]);
      InvStep(mode, run[i - 1], steps[i - 1]);
    }
  }

  /** Nothing is left to do but for the environment: every signaller has finished and every client
      is gone or asleep without a wakeup. */
  ghost predicate Quiescent(s: State) {
    && (forall j :: j in s.wakers ==> s.wakers[j].loaded && s.wakers[j].keys == {} && s.wakers[j].heads == {})
    && (forall id :: id in s.clients ==>
          s.clients[id].pc == Done || (s.clients[id].pc == Waiting && !s.clients[id].ready))
  }

  /** A key with an element and a client waiting for it. */
  predicate Stuck(s: State, k: DbKey) { k in s.stock && Queue(s.queues, k) != [] }

  /** Over every run: a key with an element and a waiter has its head about to look, about to be
      signalled or about to be handed the key, or the head was late. */
  lemma EveryHeadIsAttended(mode: Mode, run: seq<State>, steps: seq<Step>, i: nat, k: DbKey)
    requires IsRun(mode, run, steps) && i < |run| && Stuck(run[i], k)
    ensures k in run[i].late || Attended(run[i], k, Queue(run[i].queues, k)[0])
  {
    hide Init, IsRun, Attended, Seating, Counting, Waking, LateAt;
    RunInv(mode, run, steps, i);
    assert Watched(run[i], k);
  }

  /** When everything has come to rest the keys that still have both an element and a waiter are
      exactly the late ones, and there are none once a registered client tries again. */
  lemma AtRest(mode: Mode, s: State, k: DbKey)
    requires Inv(mode, s) && Quiescent(s)
    ensures Stuck(s, k) <==> k in s.late
    ensures mode != SleepAtOnce ==> !Stuck(s, k)
  {
    hide Counting, Waking;
    assert Watched(s, k) && LateAt(mode, s, k);
    if Stuck(s, k) { SittingIsRegistered(s, k, Queue(s.queues, k)[0]); }
  }

  lemma OnlyLateHeadsAreStuck(mode: Mode, run: seq<State>, steps: seq<Step>, i: nat, k: DbKey)
    requires IsRun(mode, run, steps) && i < |run| && Quiescent(run[i])
    ensures Stuck(run[i], k) <==> k in run[i].late
    ensures mode != SleepAtOnce ==> !Stuck(run[i], k)
  {
    hide IsRun, Inv, Quiescent;
    RunInv(mode, run, steps, i);
    AtRest(mode, run[i], k);
  }
}
