/** The live migration of one slot between two nodes of a cluster: every node a step-taking
    machine with its own slot view and store, client commands in flight between them, the operator's
    SETSLOT and MIGRATE commands interleaved at will, and RESTOREs that a MIGRATE sent and gave up on.
    When a step does what it should to the one map the clients see, exactly.

    Two assumptions are part of the model: a node's serving decision and the command it lets through
    are one step; a command sees and changes only the keys it names. Whether writes at the source
    are held back while MIGRATE runs is a parameter: they are when the server propagates its writes,
    and then only. */
module Migration {
  import opened Bytes
  import opened SlotHash
  import opened Redirect
  import opened ClusterTable

  type Client = nat

  // ---- commands and the one map they act on -------------------------------------------

  /** A command: the keys it names, whether it writes, and what it does to those keys. */
  datatype Cmd = Cmd(keys: seq<Key>, write: bool, run: Store -> (Store, Bytes))

  function Without(m: Store, keys: seq<Key>): Store { m - (set k | k in m && k in keys) }

  /** A command run against a store: its reply, and the store with only the named keys changed. */
  function ReplyOf(c: Cmd, m: Store): Bytes { c.run(Restrict(m, c.keys)).1 }

  function StoreAfter(c: Cmd, m: Store): Store {
    if c.write then Without(m, c.keys) + Restrict(c.run(Restrict(m, c.keys)).0, c.keys) else m
  }

  // ---- the cluster --------------------------------------------------------------------

  /** The fixed part: which node gives the slot away and which receives it, and whether the source
      holds its writes back while MIGRATE runs. */
  datatype Setup = Setup(src: NodeId, tgt: NodeId, slot: int, held: bool)

  /** A client's command on its way to a node, after some number of redirects. */
  datatype Msg = Msg(at: NodeId, asking: bool, cmd: Cmd, hops: nat)

  /** A RESTORE of one key, sent under ASKING. */
  datatype Restore = Restore(key: Key, val: Val, replace: bool)

  /** What a MIGRATE is waiting for: nothing, its RESTORE to be carried out, or the answer to it. */
  datatype Wait = Idle | Sent | Answered(ok: bool)

  /** A MIGRATE in progress at the source: the values it read, how many of them the target has
      acknowledged, and how it stands with the next one. */
  datatype Moving = Moving(batch: seq<(Key, Val)>, sent: nat, wait: Wait, copying: bool, replace: bool)

  /** `late` are the RESTOREs whose MIGRATE ended before they were carried out. */
  datatype State = State(
    views: map<NodeId, SlotView>,
    stores: map<NodeId, Store>,
    flight: map<Client, Msg>,
    moving: map<nat, Moving>,
    late: seq<Restore>)

  datatype Step =
    | Issue(c: Client, at: NodeId, cmd: Cmd)
    | Deliver(c: Client)
    | Admin(at: NodeId, action: Action)
    | MigrateStart(j: nat, keys: seq<Key>, copying: bool, replace: bool)
    | MigrateSend(j: nat)
    | MigrateLand(j: nat)
    | MigrateAck(j: nat)
    | MigrateFinish(j: nat)
    | LateLand(i: nat)
    | LateDrop(i: nat)

  datatype Event = Internal | Served(cmd: Cmd, reply: Bytes)

  const NOBODY := SlotView(None, None, None)

  function Owned(id: NodeId): SlotView { SlotView(Some(id), None, None) }

  /** How far the operator's script has got, read off the two nodes' views. */
  function Phase(u: Setup, views: map<NodeId, SlotView>): nat
    requires u.src in views && u.tgt in views
  {
    if views[u.src] == Owned(u.tgt) then 4
    else if views[u.tgt] == Owned(u.tgt) then 3
    else if views[u.src].migrating.Some? then 2
    else if views[u.tgt].importing.Some? then 1
    else 0
  }

  /** The script: IMPORTING at the target, MIGRATING at the source, NODE at the target once the
      source is empty, NODE at the source, and then NODE anywhere else. */
  predicate InScript(u: Setup, s: State, at: NodeId, action: Action)
    requires u.src in s.views && u.tgt in s.views && u.src in s.stores
  {
    match Phase(u, s.views)
    case 0 => at == u.tgt && action == Importing(u.src)
    case 1 => at == u.src && action == Migrating(u.tgt)
    case 2 => at == u.tgt && action == AssignTo(u.tgt) && s.stores[u.src] == map[]
    case 3 => at == u.src && action == AssignTo(u.tgt)
    case _ => at != u.src && at != u.tgt && action == AssignTo(u.tgt)
  }

  function DecisionAt(u: Setup, s: State, m: Msg): Decision
    requires m.at in s.views && m.at in s.stores
  {
    if m.cmd.keys == [] then Serve
    else DecideInSlot(Request(m.cmd.keys, false, !m.cmd.write, m.asking, false), Self(m.at, None), u.slot,
                      s.views[m.at], s.stores[m.at].Keys)
  }

  /** The pairs of a batch that exist at the source, in the order they were named. */
  function BatchOf(m: Store, keys: seq<Key>): seq<(Key, Val)> {
    if keys == [] then []
    else if keys[0] in m then [(keys[0], m[keys[0]])] + BatchOf(m, keys[1..])
    else BatchOf(m, keys[1..])
  }

  function KeysOf(batch: seq<(Key, Val)>): seq<Key> { seq(|batch|, i requires 0 <= i < |batch| => batch[i].0) }

  ghost predicate Deliverable(u: Setup, s: State, m: Msg) {
    m.at in s.views && m.at in s.stores && !(u.held && s.moving != map[] && m.at == u.src && m.cmd.write)
  }

  /** One step of the cluster and what a client sees of it. */
  ghost predicate Next(u: Setup, s: State, step: Step, s': State, e: Event) {
    && u.src in s.views && u.tgt in s.views && u.src in s.stores && u.tgt in s.stores
    && match step
       case Issue(c, at, cmd) =>
         && c !in s.flight && at in s.views && (forall k :: k in cmd.keys ==> SlotOfKey(k) == u.slot)
         && s' == s.(flight := s.flight[c := Msg(at, false, cmd, 0)]) && e == Internal
       case Deliver(c) =>
         && c in s.flight && Deliverable(u, s, s.flight[c])
         && Delivered(s, c, s.flight[c], DecisionAt(u, s, s.flight[c]), s', e)
       case Admin(at, action) =>
         && at in s.views && at in s.stores && InScript(u, s, at, action)
         && var r := SetSlot(s.views[at], at, action, action.Stable? || action.id in s.views, s.stores[at] != map[]);
         && e == Internal
         && s' == if r.Applied? then s.(views := s.views[at := r.view]) else s
       case MigrateStart(j, keys, copying, replace) =>
         && j !in s.moving && (u.held ==> s.moving == map[]) && Phase(u, s.views) == 2 && e == Internal
         && s' == s.(moving := s.moving[j := Moving(BatchOf(s.stores[u.src], keys), 0, Idle, copying, replace)])
       case MigrateSend(j) =>
         && j in s.moving && s.moving[j].wait.Idle? && s.moving[j].sent < |s.moving[j].batch| && e == Internal
         && s' == Waiting(s, j, Sent)
       case MigrateLand(j) =>
         && j in s.moving && s.moving[j].wait.Sent? && s.moving[j].sent < |s.moving[j].batch| && e == Internal
         && s' == Waiting(CarriedOut(u, s, Pending(s.moving[j])), j, Answered(Accepts(u, s, Pending(s.moving[j]))))
       case MigrateAck(j) =>
         && j in s.moving && s.moving[j].wait == Answered(true) && e == Internal
         && s' == s.(moving := s.moving[j := s.moving[j].(sent := s.moving[j].sent + 1, wait := Idle)])
       case MigrateFinish(j) =>
         && j in s.moving && WellSent(s.moving[j]) && e == Internal
         && s' == Finished(u, s, j)
       case LateLand(i) =>
         && i < |s.late| && e == Internal
         && s' == CarriedOut(u, s, s.late[i]).(late := s.late[..i] + s.late[i + 1..])
       case LateDrop(i) =>
         && i < |s.late| && e == Internal
         && s' == s.(late := s.late[..i] + s.late[i + 1..])
  }

  /** What the client does with a node's answer. */
  ghost predicate Delivered(s: State, c: Client, m: Msg, d: Decision, s': State, e: Event)
    requires m.at in s.stores
  {
    match d
    case Serve =>
      && s' == s.(flight := s.flight - {c}, stores := s.stores[m.at := StoreAfter(m.cmd, s.stores[m.at])])
      && e == Served(m.cmd, ReplyOf(m.cmd, s.stores[m.at]))
    case Ask(_, to) => s' == s.(flight := s.flight[c := Msg(to, true, m.cmd, m.hops + 1)]) && e == Internal
    case Moved(_, to) => s' == s.(flight := s.flight[c := Msg(to, false, m.cmd, m.hops + 1)]) && e == Internal
    case _ => s' == s.(flight := s.flight - {c}) && e == Internal
  }

  /** The target serves a RESTORE, sent under ASKING, and does not find the key in the way. */
  predicate Accepts(u: Setup, s: State, r: Restore)
    requires u.tgt in s.views && u.tgt in s.stores
  {
    && DecideInSlot(Request([r.key], false, false, true, false), Self(u.tgt, None), u.slot,
                    s.views[u.tgt], s.stores[u.tgt].Keys).Serve?
    && (r.key in s.stores[u.tgt] ==> r.replace)
  }

  /** A RESTORE carried out, or turned away, by the target. */
  function CarriedOut(u: Setup, s: State, r: Restore): State
    requires u.tgt in s.views && u.tgt in s.stores
  {
    if Accepts(u, s, r) then s.(stores := s.stores[u.tgt := s.stores[u.tgt][r.key := r.val]]) else s
  }

  predicate WellSent(mv: Moving) { mv.sent <= |mv.batch| && (mv.wait.Idle? || mv.sent < |mv.batch|) }

  /** The RESTORE a MIGRATE is at. */
  function Pending(mv: Moving): Restore
    requires mv.sent < |mv.batch|
  {
    Restore(mv.batch[mv.sent].0, mv.batch[mv.sent].1, mv.replace)
  }

  function Waiting(s: State, j: nat, wait: Wait): State
    requires j in s.moving
  {
    s.(moving := s.moving[j := s.moving[j].(wait := wait)])
  }

  /** The end of a MIGRATE, after all of its batch, a refusal, a failure or a timeout: the acknowledged
      keys are deleted at the source, unless they were only to be copied. A RESTORE that was not yet
      carried out may still be. */
  function Finished(u: Setup, s: State, j: nat): State
    requires u.src in s.stores && j in s.moving && WellSent(s.moving[j])
  {
    var mv := s.moving[j];
    s.(stores := s.stores[u.src := Without(s.stores[u.src], Gone(mv))],
       moving := s.moving - {j},
       late := s.late + if mv.wait.Sent? then [Pending(mv)] else [])
  }

  function Gone(mv: Moving): seq<Key>
    requires mv.sent <= |mv.batch|
  {
    if mv.copying then [] else KeysOf(mv.batch[..mv.sent])
  }

  // ---- the map the clients see --------------------------------------------------------

  /** The source's value of a key if it has one, else the target's. */
  function Abs(u: Setup, s: State): Store
    requires u.src in s.stores && u.tgt in s.stores
  {
    s.stores[u.tgt] + s.stores[u.src]
  }

  // ---- the invariant ------------------------------------------------------------------

  /** The views of all nodes at each point of the script. */
  ghost predicate GoodViews(u: Setup, views: map<NodeId, SlotView>) {
    && u.src != u.tgt && u.src in views && u.tgt in views
    && var p := Phase(u, views);
    && views[u.src] == (if p >= 4 then Owned(u.tgt)
                        else if p >= 2 then SlotView(Some(u.src), Some(u.tgt), None)
                        else Owned(u.src))
    && views[u.tgt] == (if p >= 3 then Owned(u.tgt)
                        else if p >= 1 then SlotView(Some(u.src), None, Some(u.src))
                        else Owned(u.src))
    && forall n :: n in views && n != u.src && n != u.tgt ==>
         views[n] == Owned(u.src) || (p >= 4 && views[n] == Owned(u.tgt))
  }

  /** Where the keys are: nowhere but at the two nodes, at the target only once the slot is open,
      and at the source only until it is handed over. */
  ghost predicate GoodStores(u: Setup, p: nat, stores: map<NodeId, Store>, moving: map<nat, Moving>,
                             late: seq<Restore>)
  {
    && u.src in stores && u.tgt in stores
    && (forall n :: n in stores && n != u.src && n != u.tgt ==> stores[n] == map[])
    && (p <= 1 ==> stores[u.tgt] == map[] && moving == map[] && late == [])
    && (p >= 3 ==> stores[u.src] == map[])
    && GoodMoving(u, stores[u.src], moving)
  }

  /** With writes held back there is one MIGRATE at a time, and what it read is still what the source
      holds. */
  ghost predicate GoodMoving(u: Setup, src: Store, moving: map<nat, Moving>) {
    && (forall j :: j in moving ==> WellSent(moving[j]) && (u.held ==> StillThere(moving[j], src)))
    && (u.held ==> forall i, j :: i in moving && j in moving ==> i == j)
  }

  ghost predicate StillThere(mv: Moving, src: Store) {
    forall i :: 0 <= i < |mv.batch| ==> mv.batch[i].0 in src && src[mv.batch[i].0] == mv.batch[i].1
  }

  /** A message in flight: an ASKING one is at the target and names nothing the source holds, and
      the redirects behind a message bound where it can be. */
  ghost predicate GoodMsg(u: Setup, p: nat, src: Store, views: map<NodeId, SlotView>, m: Msg) {
    && m.at in views
    && (m.asking ==> m.at == u.tgt && p >= 2 && 1 <= m.hops <= 2 && forall k :: k in m.cmd.keys ==> k !in src)
    && (!m.asking ==>
          && m.hops <= 2
          && (m.at == u.src ==> m.hops <= 1)
          && (m.at == u.tgt && m.hops > 0 ==> p >= 4)
          && (m.at != u.src && m.at != u.tgt ==> m.hops == 0))
  }

  ghost predicate Inv(u: Setup, s: State) {
    && GoodViews(u, s.views)
    && s.stores.Keys == s.views.Keys
    && GoodStores(u, Phase(u, s.views), s.stores, s.moving, s.late)
    && forall c :: c in s.flight ==> GoodMsg(u, Phase(u, s.views), s.stores[u.src], s.views, s.flight[c])
  }

  /** Before the migration: every node agrees that the source owns the slot, and only it has keys. */
  ghost predicate Init(u: Setup, s: State) {
    && u.src != u.tgt && u.src in s.views && u.tgt in s.views && s.stores.Keys == s.views.Keys
    && (forall n :: n in s.views ==> s.views[n] == Owned(u.src))
    && (forall n :: n in s.stores && n != u.src ==> s.stores[n] == map[])
    && s.flight == map[] && s.moving == map[] && s.late == []
  }

  // ---- one command on one of two stores -----------------------------------------------

  /** A command whose keys are all at the source reads there what it would on the one map, and does to
      the one map what it does there exactly when it removes no key that the target holds too. */
  lemma ActsAtSource(c: Cmd, src: Store, tgt: Store)
    requires tgt == map[] || forall k :: k in c.keys ==> k in src
    ensures ReplyOf(c, src) == ReplyOf(c, tgt + src)
    ensures tgt + StoreAfter(c, src) == StoreAfter(c, tgt + src) <==> RemovesNothingHeld(c, src, tgt)
  {
    assert Restrict(src, c.keys) == Restrict(tgt + src, c.keys);
    hide Restrict, Without;
    if c.write { WrittenAtSource(c.keys, src, tgt, c.run(Restrict(src, c.keys)).0); }
  }

  /** No key of a command that the target holds is missing after the command ran at the source. */
  predicate RemovesNothingHeld(c: Cmd, src: Store, tgt: Store) {
    c.write ==> forall k :: k in c.keys && k in tgt ==> k in StoreAfter(c, src)
  }

  lemma WrittenAtSource(ks: seq<Key>, src: Store, tgt: Store, r: Store)
    ensures tgt + (Without(src, ks) + Restrict(r, ks)) == Without(tgt + src, ks) + Restrict(r, ks)
       <==> forall k :: k in ks && k in tgt ==> k in Without(src, ks) + Restrict(r, ks)
  {
    var left, right := tgt + (Without(src, ks) + Restrict(r, ks)), Without(tgt + src, ks) + Restrict(r, ks);
    if k :| k in ks && k in tgt && k !in Without(src, ks) + Restrict(r, ks) {
      assert k in left && k !in right;
    } else {
      assert left == right;
    }
  }

  /** A command none of whose keys are at the source acts at the target as on the one map. */
  lemma ActsAtTarget(c: Cmd, src: Store, tgt: Store)
    requires forall k :: k in c.keys ==> k !in src
    ensures ReplyOf(c, tgt) == ReplyOf(c, tgt + src)
    ensures StoreAfter(c, tgt) + src == StoreAfter(c, tgt + src)
  {
    assert Restrict(tgt, c.keys) == Restrict(tgt + src, c.keys);
    hide Restrict, Without;
    if c.write { WrittenAtTarget(c.keys, src, tgt, c.run(Restrict(tgt, c.keys)).0); }
  }

  lemma WrittenAtTarget(ks: seq<Key>, src: Store, tgt: Store, r: Store)
    requires forall k :: k in ks ==> k !in src
    ensures Without(tgt, ks) + Restrict(r, ks) + src == Without(tgt + src, ks) + Restrict(r, ks)
  {
  }

  /** A command changes nothing it does not name. */
  lemma TouchesOnlyNamed(c: Cmd, m: Store, k: Key)
    requires k !in c.keys
    ensures k in StoreAfter(c, m) <==> k in m
    ensures k in m ==> StoreAfter(c, m)[k] == m[k]
  {
  }

  lemma NothingNamed(c: Cmd, m: Store)
    requires c.keys == []
    ensures StoreAfter(c, m) == m
  {
    if c.write { assert Without(m, []) + Restrict(c.run(Restrict(m, [])).0, []) == m; }
  }

  // ---- who serves ---------------------------------------------------------------------

  /** The only nodes that serve a keyed command, and what they hold of it then. */
  lemma WhoServes(u: Setup, s: State, m: Msg)
    requires Inv(u, s) && GoodMsg(u, Phase(u, s.views), s.stores[u.src], s.views, m)
    requires m.cmd.keys != [] && DecisionAt(u, s, m).Serve?
    ensures var p := Phase(u, s.views);
            || (m.at == u.src && p <= 1)
            || (m.at == u.src && p == 2 && forall k :: k in m.cmd.keys ==> k in s.stores[u.src])
            || (m.at == u.tgt && p >= 2 && forall k :: k in m.cmd.keys ==> k !in s.stores[u.src])
  {
    hide GoodMoving, Restrict, Without;
    var keys, held := m.cmd.keys, s.stores[u.src].Keys;
    if m.at == u.src && Phase(u, s.views) == 2 {
      assert !SomeMissing(keys, held);
      assert forall i :: 0 <= i < |keys| ==> keys[i] in held;
    }
    EmptyMisses(keys);
  }

  lemma EmptyMisses(keys: seq<Key>)
    requires keys != []
    ensures SomeMissing(keys, {})
  {
    var k := keys[0];
    assert exists i :: 0 <= i < |keys| && keys[i] == k;
  }

  /** Where a redirect sends a message, and that it keeps the bound on redirects. */
  lemma Redirects(u: Setup, s: State, m: Msg)
    requires Inv(u, s) && GoodMsg(u, Phase(u, s.views), s.stores[u.src], s.views, m) && m.cmd.keys != []
    ensures var p, d := Phase(u, s.views), DecisionAt(u, s, m);
            && !d.Unbound? && !d.CrossSlot?
            && (d.Ask? ==> GoodMsg(u, p, s.stores[u.src], s.views, Msg(d.to, true, m.cmd, m.hops + 1)))
            && (d.Moved? ==> GoodMsg(u, p, s.stores[u.src], s.views, Msg(d.to, false, m.cmd, m.hops + 1)))
            && (d.TryAgain? ==> |m.cmd.keys| > 1)
  {
    hide GoodMoving, Restrict, Without;
    var d := DecisionAt(u, s, m);
    if d.Ask? && |m.cmd.keys| == 1 {
      assert forall k :: k in m.cmd.keys ==> k == m.cmd.keys[0];
    }
  }

  /** A single-key command is served after at most two redirects: one that has been redirected
      twice is served where it is. */
  lemma ServedAfterTwoRedirects(u: Setup, s: State, c: Client)
    requires Inv(u, s) && c in s.flight && |s.flight[c].cmd.keys| == 1
    ensures s.flight[c].hops <= 2
    ensures s.flight[c].hops == 2 ==> DecisionAt(u, s, s.flight[c]).Serve?
  {
    hide GoodMoving, Restrict, Without;
    Redirects(u, s, s.flight[c]);
  }

  // ---- every step keeps the invariant and refines the one map --------------------------

  /** What a step must do to the one map: a served command acts on it, all else leaves it. */
  ghost predicate Refines(u: Setup, s: State, s': State, e: Event)
    requires u.src in s.stores && u.tgt in s.stores && u.src in s'.stores && u.tgt in s'.stores
  {
    match e
    case Internal => Abs(u, s') == Abs(u, s)
    case Served(cmd, reply) => Abs(u, s') == StoreAfter(cmd, Abs(u, s)) && reply == ReplyOf(cmd, Abs(u, s))
  }

  /** A RESTORE changes nothing a client can see: it is turned away, or the source has the key, or the
      target has this very value. */
  predicate LandsUnseen(u: Setup, s: State, r: Restore)
    requires u.tgt in s.views && u.src in s.stores && u.tgt in s.stores
  {
    Accepts(u, s, r) ==>
      r.key in s.stores[u.src] || (r.key in s.stores[u.tgt] && s.stores[u.tgt][r.key] == r.val)
  }

  /** The keys about to be deleted at the source are at the target with the source's values. */
  predicate DeletesSafely(mv: Moving, src: Store, tgt: Store)
    requires mv.sent <= |mv.batch|
  {
    forall k :: k in Gone(mv) && k in src ==> k in tgt && tgt[k] == src[k]
  }

  /** When a step does to the one map what it should, told from the state before it: a command served
      at the source removes no key that the target holds, a RESTORE lands unseen, early or late, and a
      MIGRATE deletes only what the target has. */
  ghost predicate Faithful(u: Setup, s: State, step: Step)
    requires u.src in s.views && u.tgt in s.views && u.src in s.stores && u.tgt in s.stores
  {
    match step
    case Deliver(c) =>
      c in s.flight && s.flight[c].at == u.src && DecisionAt(u, s, s.flight[c]).Serve? ==>
        RemovesNothingHeld(s.flight[c].cmd, s.stores[u.src], s.stores[u.tgt])
    case MigrateLand(j) =>
      j in s.moving && s.moving[j].sent < |s.moving[j].batch| ==> LandsUnseen(u, s, Pending(s.moving[j]))
    case MigrateFinish(j) =>
      j in s.moving && WellSent(s.moving[j]) ==> DeletesSafely(s.moving[j], s.stores[u.src], s.stores[u.tgt])
    case LateLand(i) => i < |s.late| ==> LandsUnseen(u, s, s.late[i])
    case _ => true
  }

  lemma RedirectStep(u: Setup, s: State, c: Client, s': State, e: Event)
    requires Inv(u, s) && Next(u, s, Deliver(c), s', e) && !DecisionAt(u, s, s.flight[c]).Serve?
    ensures Inv(u, s') && Refines(u, s, s', e)
  {
    hide DecisionAt, GoodViews, GoodStores, GoodMsg, Phase, StoreAfter, ReplyOf;
    var m := s.flight[c];
    DistinctNodes(u, s);
    assert m.cmd.keys != [] by { KeylessIsServed(u, s, m); }
    Redirects(u, s, m);
  }

  lemma KeylessIsServed(u: Setup, s: State, m: Msg)
    requires m.at in s.views && m.at in s.stores
    ensures m.cmd.keys == [] ==> DecisionAt(u, s, m).Serve?
  {
    hide DecideInSlot;
  }

  lemma ServeStep(u: Setup, s: State, c: Client, s': State, e: Event)
    requires Inv(u, s) && Next(u, s, Deliver(c), s', e) && DecisionAt(u, s, s.flight[c]).Serve?
    ensures Inv(u, s') && (Refines(u, s, s', e) <==> Faithful(u, s, Deliver(c)))
  {
    hide DecisionAt, GoodViews, GoodStores, GoodMsg, Phase, StoreAfter, ReplyOf, Refines;
    DistinctNodes(u, s);
    var m := s.flight[c];
    var p := Phase(u, s.views);
    var src, tgt := s.stores[u.src], s.stores[u.tgt];
    if m.cmd.keys == [] {
      ServesKeyless(u, s, c, s', e);
      assert RemovesNothingHeld(m.cmd, src, tgt);
    } else {
      WhoServes(u, s, m);
      if m.at == u.src {
        ServesAtSource(u, s, c, s', e);
      } else {
        ServesAtTarget(u, s, c, s', e);
      }
    }
  }

  ghost predicate ServedTo(s: State, c: Client, m: Msg, s': State, e: Event) {
    && c in s.flight && m == s.flight[c] && m.at in s.stores
    && s' == s.(flight := s.flight - {c}, stores := s.stores[m.at := StoreAfter(m.cmd, s.stores[m.at])])
    && e == Served(m.cmd, ReplyOf(m.cmd, s.stores[m.at]))
  }

  lemma ServesKeyless(u: Setup, s: State, c: Client, s': State, e: Event)
    requires Inv(u, s) && c in s.flight && ServedTo(s, c, s.flight[c], s', e) && s.flight[c].cmd.keys == []
    ensures Inv(u, s') && Refines(u, s, s', e)
  {
    hide GoodViews, GoodStores, GoodMsg, Phase, StoreAfter;
    DistinctNodes(u, s);
    var m := s.flight[c];
    NothingNamed(m.cmd, s.stores[m.at]);
    NothingNamed(m.cmd, Abs(u, s));
    assert s'.stores == s.stores;
    assert Restrict(s.stores[m.at], []) == Restrict(Abs(u, s), []);
  }

  lemma ServesAtSource(u: Setup, s: State, c: Client, s': State, e: Event)
    requires Inv(u, s) && c in s.flight && ServedTo(s, c, s.flight[c], s', e) && s.flight[c].at == u.src
    requires !(u.held && s.moving != map[] && s.flight[c].cmd.write)
    requires || Phase(u, s.views) <= 1
             || (Phase(u, s.views) == 2 && forall k :: k in s.flight[c].cmd.keys ==> k in s.stores[u.src])
    ensures Inv(u, s')
    ensures Refines(u, s, s', e) <==> RemovesNothingHeld(s.flight[c].cmd, s.stores[u.src], s.stores[u.tgt])
  {
    hide GoodViews, Phase, StoreAfter, ReplyOf, RemovesNothingHeld;
    var m, p := s.flight[c], Phase(u, s.views);
    var src, tgt := s.stores[u.src], s.stores[u.tgt];
    assert u.src != u.tgt by { DistinctNodes(u, s); }
    ActsAtSource(m.cmd, src, tgt);
    var src' := StoreAfter(m.cmd, src);
    assert !m.cmd.write ==> src' == src by { ReadsLeaveAlone(m.cmd, src); }
    assert p == 2 ==> forall k :: k in src' ==> k in src by {
      forall k | k in src' && p == 2
        ensures k in src
      {
        if k !in m.cmd.keys { TouchesOnlyNamed(m.cmd, src, k); }
      }
    }
    StoresStay(u, p, s, s', u.src, src');
    MessagesStay(u, p, s, s', c);
  }

  lemma ReadsLeaveAlone(c: Cmd, m: Store)
    ensures !c.write ==> StoreAfter(c, m) == m
  {
  }

  lemma DistinctNodes(u: Setup, s: State)
    requires Inv(u, s)
    ensures u.src != u.tgt && u.src in s.stores && u.tgt in s.stores
  {
    hide GoodStores, GoodMsg, Phase;
  }

  /** Replacing the source's store by one with no new keys once the slot is open. */
  lemma StoresStay(u: Setup, p: nat, s: State, s': State, at: NodeId, now: Store)
    requires u.src != u.tgt && at == u.src && p <= 2 && GoodStores(u, p, s.stores, s.moving, s.late)
    requires s'.stores == s.stores[at := now] && s'.moving == s.moving && s'.late == s.late
    requires p == 2 ==> forall k :: k in now ==> k in s.stores[u.src]
    requires s.moving != map[] && u.held ==> now == s.stores[u.src]
    ensures GoodStores(u, p, s'.stores, s'.moving, s'.late)
  {
    hide KeysOf, StillThere, WellSent;
  }

  /** Messages stay good while the views do and the source gains no key. */
  lemma MessagesStay(u: Setup, p: nat, s: State, s': State, c: Client)
    requires u.src in s.stores && u.src in s'.stores && s'.flight == s.flight - {c}
    requires p == 2 ==> forall k :: k in s'.stores[u.src] ==> k in s.stores[u.src]
    requires p >= 3 ==> s'.stores[u.src] == map[]
    requires forall d :: d in s.flight ==> GoodMsg(u, p, s.stores[u.src], s.views, s.flight[d])
    ensures forall d :: d in s'.flight ==> GoodMsg(u, p, s'.stores[u.src], s.views, s'.flight[d])
  {
  }

  lemma ServesAtTarget(u: Setup, s: State, c: Client, s': State, e: Event)
    requires Inv(u, s) && c in s.flight && ServedTo(s, c, s.flight[c], s', e) && s.flight[c].at == u.tgt
    requires Phase(u, s.views) >= 2 && forall k :: k in s.flight[c].cmd.keys ==> k !in s.stores[u.src]
    ensures Inv(u, s') && Refines(u, s, s', e)
  {
    hide GoodViews, Phase, StoreAfter, ReplyOf, GoodMsg;
    var m, p := s.flight[c], Phase(u, s.views);
    var src, tgt := s.stores[u.src], s.stores[u.tgt];
    assert u.src != u.tgt by { DistinctNodes(u, s); }
    ActsAtTarget(m.cmd, src, tgt);
    TargetStoresStay(u, p, s, s', StoreAfter(m.cmd, tgt));
  }

  lemma TargetStoresStay(u: Setup, p: nat, s: State, s': State, now: Store)
    requires u.src != u.tgt && p >= 2 && GoodStores(u, p, s.stores, s.moving, s.late)
    requires s'.stores == s.stores[u.tgt := now] && s'.moving == s.moving && s'.late == s.late
    ensures GoodStores(u, p, s'.stores, s'.moving, s'.late)
  {
    hide GoodMoving;
  }

  lemma AdminStep(u: Setup, s: State, at: NodeId, action: Action, s': State, e: Event)
    requires Inv(u, s) && Next(u, s, Admin(at, action), s', e)
    ensures Inv(u, s') && Refines(u, s, s', e) && Phase(u, s'.views) >= Phase(u, s.views)
  {
    hide GoodStores, GoodMsg, GoodViews, Phase, InScript, SetSlot;
    var p, p' := Phase(u, s.views), Phase(u, s'.views);
    AdminViews(u, s, at, action, s', e);
    LaterPhaseStores(u, p, p', s);
    LaterPhaseMessages(u, p, p', s, s');
  }

  lemma AdminViews(u: Setup, s: State, at: NodeId, action: Action, s': State, e: Event)
    requires GoodViews(u, s.views) && Next(u, s, Admin(at, action), s', e)
    ensures u.src in s'.views && u.tgt in s'.views && s'.views.Keys == s.views.Keys && s' == s.(views := s'.views)
    ensures var p, p' := Phase(u, s.views), Phase(u, s'.views);
            && GoodViews(u, s'.views) && p <= p' <= p + 1 && p' <= 4
            && (p' == 3 && p == 2 ==> s.stores[u.src] == map[])
  {
  }

  lemma LaterPhaseStores(u: Setup, p: nat, p': nat, s: State)
    requires GoodStores(u, p, s.stores, s.moving, s.late) && p <= p' <= p + 1 && p' <= 4
    requires p == 2 && p' == 3 ==> s.stores[u.src] == map[]
    ensures GoodStores(u, p', s.stores, s.moving, s.late)
  {
    hide KeysOf, GoodMoving;
  }

  lemma LaterPhaseMessages(u: Setup, p: nat, p': nat, s: State, s': State)
    requires p <= p' && s'.views.Keys == s.views.Keys && s'.flight == s.flight && u.src in s.stores
    requires forall c :: c in s.flight ==> GoodMsg(u, p, s.stores[u.src], s.views, s.flight[c])
    ensures forall c :: c in s'.flight ==> GoodMsg(u, p', s.stores[u.src], s'.views, s'.flight[c])
  {
  }

  lemma IssueStep(u: Setup, s: State, c: Client, at: NodeId, cmd: Cmd, s': State, e: Event)
    requires Inv(u, s) && Next(u, s, Issue(c, at, cmd), s', e)
    ensures Inv(u, s') && Refines(u, s, s', e)
  {
    hide GoodViews, GoodStores, Phase;
    assert GoodMsg(u, Phase(u, s.views), s.stores[u.src], s.views, s'.flight[c]);
  }

  lemma {:induction false} BatchHolds(m: Store, keys: seq<Key>)
    ensures forall i :: 0 <= i < |BatchOf(m, keys)| ==>
              BatchOf(m, keys)[i].0 in m && m[BatchOf(m, keys)[i].0] == BatchOf(m, keys)[i].1
    decreases |keys|
  {
    if keys != [] { BatchHolds(m, keys[1..]); }
  }

  lemma MigrateStartStep(u: Setup, s: State, step: Step, s': State, e: Event)
    requires Inv(u, s) && step.MigrateStart? && Next(u, s, step, s', e)
    ensures Inv(u, s') && Refines(u, s, s', e)
  {
    hide GoodViews, GoodMsg, Phase, BatchOf;
    BatchHolds(s.stores[u.src], step.keys);
  }

  /** Steps that only change how a MIGRATE stands, or drop a RESTORE. */
  lemma BookkeepingStep(u: Setup, s: State, step: Step, s': State, e: Event)
    requires Inv(u, s) && (step.MigrateSend? || step.MigrateAck? || step.LateDrop?) && Next(u, s, step, s', e)
    ensures Inv(u, s') && Refines(u, s, s', e)
  {
    hide Inv, Phase;
    match step
    case MigrateSend(j) => StandsElsewhere(u, s, s', j);
    case MigrateAck(j) => StandsElsewhere(u, s, s', j);
    case LateDrop(i) => DropsOne(u, s, s');
  }

  lemma StandsElsewhere(u: Setup, s: State, s': State, j: nat)
    requires Inv(u, s) && j in s.moving && j in s'.moving && s' == s.(moving := s.moving[j := s'.moving[j]])
    requires s'.moving[j].batch == s.moving[j].batch && (WellSent(s.moving[j]) ==> WellSent(s'.moving[j]))
    ensures Inv(u, s')
  {
    hide GoodViews, GoodMsg, Phase, WellSent;
  }

  lemma DropsOne(u: Setup, s: State, s': State)
    requires Inv(u, s) && s' == s.(late := s'.late) && (s.late == [] ==> s'.late == [])
    ensures Inv(u, s')
  {
    hide GoodViews, GoodMsg, GoodMoving, Phase;
  }

  /** A pair lands at the target unseen exactly if the source has the key or the target the pair. */
  lemma LandedUnseen(src: Store, tgt: Store, k: Key, v: Val)
    ensures tgt[k := v] + src == tgt + src <==> k in src || (k in tgt && tgt[k] == v)
  {
    if k in src || (k in tgt && tgt[k] == v) {
      assert tgt[k := v] + src == tgt + src;
    } else {
      assert (tgt[k := v] + src)[k] == v;
      assert k !in tgt + src || (tgt + src)[k] == tgt[k];
    }
  }

  /** Keys leave the source unseen exactly if the target has them with the same values. */
  lemma DeletedUnseen(src: Store, tgt: Store, gone: seq<Key>)
    ensures tgt + Without(src, gone) == tgt + src <==>
            forall k :: k in gone && k in src ==> k in tgt && tgt[k] == src[k]
    ensures forall k :: k in Without(src, gone) <==> k in src && k !in gone
    ensures src == map[] ==> Without(src, gone) == map[]
  {
    var left, right := tgt + Without(src, gone), tgt + src;
    if k :| k in gone && k in src && !(k in tgt && tgt[k] == src[k]) {
      assert k in right && right[k] == src[k];
      assert k !in left || left[k] != src[k];
    } else {
      assert left == right;
    }
  }

  /** What the stores still satisfy at the end of a MIGRATE. */
  lemma FinishedStores(u: Setup, p: nat, s: State, j: nat)
    requires u.src != u.tgt && GoodStores(u, p, s.stores, s.moving, s.late) && j in s.moving && WellSent(s.moving[j])
    ensures var s' := Finished(u, s, j);
            && GoodStores(u, p, s'.stores, s'.moving, s'.late)
            && forall k :: k in s'.stores[u.src] ==> k in s.stores[u.src]
  {
    hide KeysOf, Gone, StillThere;
    DeletedUnseen(s.stores[u.src], s.stores[u.tgt], Gone(s.moving[j]));
    hide Without;
  }

  /** A RESTORE lands unseen exactly when it should, and disturbs nothing else. */
  lemma CarriedOutStores(u: Setup, s: State, r: Restore)
    requires Inv(u, s) && Phase(u, s.views) >= 2 && u.tgt in s.views && u.src in s.stores && u.tgt in s.stores
    ensures var s' := CarriedOut(u, s, r);
            && Inv(u, s') && s' == s.(stores := s'.stores) && s'.stores[u.src] == s.stores[u.src]
            && u.tgt in s'.stores && (Abs(u, s') == Abs(u, s) <==> LandsUnseen(u, s, r))
  {
    hide GoodViews, GoodMsg, Phase, DecideInSlot, GoodMoving, Accepts;
    DistinctNodes(u, s);
    LandedUnseen(s.stores[u.src], s.stores[u.tgt], r.key, r.val);
  }

  /** A source with no new keys leaves every message in flight as good as it was. */
  lemma FewerAtSource(u: Setup, s: State, s': State)
    requires u.src in s.stores && u.src in s'.stores && u.src in s.views && u.tgt in s.views
    requires s'.views == s.views && s'.flight == s.flight && forall k :: k in s'.stores[u.src] ==> k in s.stores[u.src]
    requires forall c :: c in s.flight ==> GoodMsg(u, Phase(u, s.views), s.stores[u.src], s.views, s.flight[c])
    ensures forall c :: c in s'.flight ==> GoodMsg(u, Phase(u, s'.views), s'.stores[u.src], s'.views, s'.flight[c])
  {
    hide Phase;
  }

  lemma MigrateFinishStep(u: Setup, s: State, j: nat, s': State, e: Event)
    requires Inv(u, s) && Next(u, s, MigrateFinish(j), s', e)
    ensures Inv(u, s') && (Refines(u, s, s', e) <==> Faithful(u, s, MigrateFinish(j)))
  {
    hide GoodViews, GoodMsg, GoodStores, Phase, Without, Gone;
    DistinctNodes(u, s);
    DeletedUnseen(s.stores[u.src], s.stores[u.tgt], Gone(s.moving[j]));
    FinishedStores(u, Phase(u, s.views), s, j);
    FewerAtSource(u, s, s');
  }

  lemma MigrateLandStep(u: Setup, s: State, j: nat, s': State, e: Event)
    requires Inv(u, s) && Next(u, s, MigrateLand(j), s', e)
    ensures Inv(u, s') && (Refines(u, s, s', e) <==> Faithful(u, s, MigrateLand(j)))
  {
    hide GoodViews, GoodMsg, Phase, LandsUnseen, Accepts;
    DistinctNodes(u, s);
    CarriedOutStores(u, s, Pending(s.moving[j]));
    hide CarriedOut, Inv;
    StandsElsewhere(u, CarriedOut(u, s, Pending(s.moving[j])), s', j);
  }

  /** A RESTORE that is carried out after its MIGRATE gave up on it. */
  lemma LateLandStep(u: Setup, s: State, i: nat, s': State, e: Event)
    requires Inv(u, s) && Next(u, s, LateLand(i), s', e)
    ensures Inv(u, s') && (Refines(u, s, s', e) <==> Faithful(u, s, LateLand(i)))
  {
    hide GoodViews, GoodMsg, Phase, LandsUnseen, Accepts, GoodMoving;
    DistinctNodes(u, s);
    CarriedOutStores(u, s, s.late[i]);
    hide CarriedOut;
  }

  /** Every step of the cluster keeps the invariant, and refines the one map exactly when it is
      faithful. */
  lemma StepRefines(u: Setup, s: State, step: Step, s': State, e: Event)
    requires Inv(u, s) && Next(u, s, step, s', e)
    ensures Inv(u, s') && (Refines(u, s, s', e) <==> Faithful(u, s, step))
  {
    hide Inv, Refines;
    assert Inv(u, s);
    match step
    case Issue(c, at, cmd) => IssueStep(u, s, c, at, cmd, s', e);
    case Deliver(c) =>
      if DecisionAt(u, s, s.flight[c]).Serve? { ServeStep(u, s, c, s', e); } else { RedirectStep(u, s, c, s', e); }
    case Admin(at, action) => AdminStep(u, s, at, action, s', e);
    case MigrateStart(_, _, _, _) => MigrateStartStep(u, s, step, s', e);
    case MigrateLand(j) => MigrateLandStep(u, s, j, s', e);
    case MigrateFinish(j) => MigrateFinishStep(u, s, j, s', e);
    case LateLand(i) => LateLandStep(u, s, i, s', e);
    case _ => BookkeepingStep(u, s, step, s', e);
  }

  // ---- consequences -------------------------------------------------------------------

  /** While the slot is open no step creates a key of it at the source. */
  lemma SourceOnlyShrinks(u: Setup, s: State, step: Step, s': State, e: Event)
    requires Inv(u, s) && Next(u, s, step, s', e) && Phase(u, s.views) >= 2
    ensures s'.stores[u.src].Keys <= s.stores[u.src].Keys
  {
    hide GoodMoving, GoodMsg, Phase, GoodViews, DecisionAt, SetSlot, StoreAfter;
    DistinctNodes(u, s);
    match step
    case Deliver(c) =>
      var m := s.flight[c];
      if DecisionAt(u, s, m).Serve? && m.at == u.src {
        if m.cmd.keys == [] {
          NothingNamed(m.cmd, s.stores[u.src]);
        } else {
          WhoServes(u, s, m);
          forall k | k in s'.stores[u.src]
            ensures k in s.stores[u.src]
          {
            if k !in m.cmd.keys { TouchesOnlyNamed(m.cmd, s.stores[u.src], k); }
          }
        }
      }
    case _ =>
  }

  /** An ASK stays valid however late the ASKING command arrives: a single-key one still in flight
      is served by the target, with the reply the one map gives. */
  lemma AskStaysValid(u: Setup, s: State, c: Client)
    requires Inv(u, s) && c in s.flight && s.flight[c].asking && |s.flight[c].cmd.keys| == 1
    ensures s.flight[c].at == u.tgt && DecisionAt(u, s, s.flight[c]).Serve?
    ensures ReplyOf(s.flight[c].cmd, s.stores[u.tgt]) == ReplyOf(s.flight[c].cmd, Abs(u, s))
  {
    hide GoodMoving, Restrict, Without, StoreAfter, ReplyOf;
    ActsAtTarget(s.flight[c].cmd, s.stores[u.src], s.stores[u.tgt]);
  }

  /** The decision used here is the one the whole slot map gives a command of this slot. */
  lemma DecisionIsTheNodes(u: Setup, s: State, m: Msg, table: seq<SlotView>)
    requires m.at in s.views && m.at in s.stores && |table| == 16384 && 0 <= u.slot < 16384
    requires table[u.slot] == s.views[m.at] && forall k :: k in m.cmd.keys ==> SlotOfKey(k) == u.slot
    ensures DecisionAt(u, s, m) == Decide(Request(m.cmd.keys, false, !m.cmd.write, m.asking, false), Self(m.at, None),
                                          table, s.stores[m.at].Keys)
  {
    hide SlotOfKey, DecideInSlot;
  }
}
