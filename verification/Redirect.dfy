/** The serving decision of one cluster node, and the connection state it reads and writes. */
module Redirect {
  import opened Bytes
  import opened SlotHash

  type NodeId = Bytes
  type CommandText = seq<Bytes>

  /** One slot as a node sees it, by node ids. */
  datatype SlotView = SlotView(owner: Option<NodeId>, migrating: Option<NodeId>, importing: Option<NodeId>)

  datatype Decision =
    | Serve
    | CrossSlot
    | Unbound
    | TryAgain
    | Ask(slot: int, to: NodeId)
    | Moved(slot: int, to: NodeId)

  /** What the decision depends on besides the slot and the keys present. */
  datatype Request = Request(
    keys: seq<Key>,
    migrate: bool,      // the command is MIGRATE
    readOnly: bool,     // a known command that does not write
    asking: bool,       // the connection's one-shot flag
    readReplica: bool)  // the connection opted into replica reads

  datatype Self = Self(id: NodeId, replicaOf: Option<NodeId>)

  predicate IsOpen(v: SlotView) { v.migrating.Some? || v.importing.Some? }

  predicate SomeMissing(keys: seq<Key>, present: set<Key>) { exists i :: 0 <= i < |keys| && keys[i] !in present }

  predicate SomePresent(keys: seq<Key>, present: set<Key>) { exists i :: 0 <= i < |keys| && keys[i] in present }

  /** The decision for a command whose keys are all in one slot. */
  function DecideInSlot(req: Request, self: Self, slot: int, v: SlotView, present: set<Key>): Decision {
    if req.migrate && IsOpen(v) then Serve
    else if v.owner.None? then Unbound
    else if v.owner == Some(self.id) && v.migrating.Some? && SomeMissing(req.keys, present) then
      if |req.keys| > 1 && SomePresent(req.keys, present) then TryAgain else Ask(slot, v.migrating.value)
    else if v.importing.Some? && req.asking then
      if |req.keys| > 1 && SomeMissing(req.keys, present) then TryAgain else Serve
    else if v.owner == Some(self.id) then Serve
    else if req.readReplica && self.replicaOf == v.owner && req.readOnly then Serve
    else Moved(slot, v.owner.value)
  }

  predicate OneSlot(keys: seq<Key>) {
    forall i :: 0 < i < |keys| ==> SlotOfKey(keys[i]) == SlotOfKey(keys[0])
  }

  /** The whole decision, from the node's slot map and the keys it holds. */
  function Decide(req: Request, self: Self, table: seq<SlotView>, present: set<Key>): Decision
    requires |table| == 16384
  {
    if req.keys == [] then Serve
    else if !OneSlot(req.keys) then CrossSlot
    else
      var slot := SlotOfKey(req.keys[0]);
      DecideInSlot(req, self, slot, table[slot], present)
  }

  /** clusterRedirect: one pass over the keys for their slots, one for their presence. */
  method ClusterRedirect(req: Request, self: Self, table: seq<SlotView>, present: set<Key>) returns (d: Decision)
    requires |table| == 16384
    ensures d == Decide(req, self, table, present)
  {
    hide SlotOfKey;
    var keys := req.keys;
    if |keys| == 0 { return Serve; }
    var slot := SlotOfKey(keys[0]);
    for i := 1 to |keys|
      invariant forall j :: 0 < j < i ==> SlotOfKey(keys[j]) == slot
    {
      if SlotOfKey(keys[i]) != slot { return CrossSlot; }
    }
    var info := table[slot];
    if req.migrate && (info.migrating.Some? || info.importing.Some?) { return Serve; }
    if info.owner.None? { return Unbound; }
    var missing, existing := 0, 0;
    if info.migrating.Some? || info.importing.Some? { missing, existing := CountPresence(keys, present); }
    var multipleKeys := |keys| > 1;
    if info.owner == Some(self.id) && info.migrating.Some? && missing > 0 {
      if multipleKeys && existing > 0 { return TryAgain; }
      return Ask(slot, info.migrating.value);
    }
    if info.importing.Some? && req.asking {
      if multipleKeys && missing > 0 { return TryAgain; }
      return Serve;
    }
    if info.owner == Some(self.id) { return Serve; }
    if req.readReplica && self.replicaOf.Some? && self.replicaOf == info.owner {
      if req.readOnly { return Serve; }
    }
    return Moved(slot, info.owner.value);
  }

  method CountPresence(keys: seq<Key>, present: set<Key>) returns (missing: nat, existing: nat)
    ensures missing + existing == |keys|
    ensures missing > 0 <==> SomeMissing(keys, present)
    ensures existing > 0 <==> SomePresent(keys, present)
  {
    missing, existing := 0, 0;
    for i := 0 to |keys|
      invariant missing + existing == i
      invariant missing > 0 <==> exists j :: 0 <= j < i && keys[j] !in present
      invariant existing > 0 <==> exists j :: 0 <= j < i && keys[j] in present
    {
      if keys[i] in present { existing := existing + 1; } else { missing := missing + 1; }
    }
  }

  // ---- the connection -----------------------------------------------------------------

  datatype Name = EXEC | DISCARD | RESET | ASKING | MULTI | MIGRATE | Other

  /** A command as the gate sees it. */
  datatype Incoming = Incoming(name: Name, text: CommandText, known: bool, readOnly: bool, control: bool)

  /** The keys all queued commands name, in order. */
  function QueuedKeys(queued: seq<CommandText>, keysOf: CommandText -> seq<Key>): seq<Key> {
    if queued == [] then [] else keysOf(queued[0]) + QueuedKeys(queued[1..], keysOf)
  }

  lemma {:induction false} QueuedKeysAppend(queued: seq<CommandText>, c: CommandText, keysOf: CommandText -> seq<Key>)
    ensures QueuedKeys(queued + [c], keysOf) == QueuedKeys(queued, keysOf) + keysOf(c)
    decreases |queued|
  {
    if queued == [] {
      assert (queued + [c])[1..] == [];
    } else {
      assert (queued + [c])[1..] == queued[1..] + [c];
      QueuedKeysAppend(queued[1..], c, keysOf);
    }
  }

  lemma {:induction false} QueuedKeysCover(queued: seq<CommandText>, i: nat, k: Key, keysOf: CommandText -> seq<Key>)
    requires i < |queued| && k in keysOf(queued[i])
    ensures k in QueuedKeys(queued, keysOf)
    decreases |queued|
  {
    if i > 0 { QueuedKeysCover(queued[1..], i - 1, k, keysOf); }
  }

  class Session {
    var inMulti: bool
    var queued: seq<CommandText>
    var queueErr: bool
    var asking: bool
    var readReplica: bool

    constructor ()
      ensures !inMulti && queued == [] && !queueErr && !asking && !readReplica
    {
      inMulti, queued, queueErr, asking, readReplica := false, [], false, false, false;
    }

    /** The keys a command routes on: its own, or for EXEC those of the whole batch. */
    method RedirectKeys(c: Incoming, keysOf: CommandText -> seq<Key>) returns (keys: seq<Key>)
      ensures keys == RoutedKeys(c, keysOf)
    {
      if !c.name.EXEC? { return keysOf(c.text); }
      if !inMulti { return []; }
      keys := [];
      for i := 0 to |queued|
        invariant keys == QueuedKeys(queued[..i], keysOf)
      {
        QueuedKeysAppend(queued[..i], queued[i], keysOf);
        assert queued[..i + 1] == queued[..i] + [queued[i]];
        keys := keys + keysOf(queued[i]);
      }
      assert queued[..|queued|] == queued;
    }

    function RoutedKeys(c: Incoming, keysOf: CommandText -> seq<Key>): seq<Key>
      reads this
    {
      if !c.name.EXEC? then keysOf(c.text) else if inMulti then QueuedKeys(queued, keysOf) else []
    }

    function RequestFor(c: Incoming, keysOf: CommandText -> seq<Key>): Request
      reads this
    {
      Request(RoutedKeys(c, keysOf), c.name.MIGRATE?, c.readOnly, asking, readReplica)
    }

    /** clusterGate: may the command proceed here? A refusal inside a transaction poisons it, and
        a refused EXEC discards it. */
    method Gate(c: Incoming, keysOf: CommandText -> seq<Key>, self: Self, table: seq<SlotView>, present: set<Key>)
      returns (proceed: bool, d: Decision)
      requires |table| == 16384
      modifies this`inMulti, this`queued, this`queueErr
      ensures c.known ==> d == Decide(old(RequestFor(c, keysOf)), self, table, present)
      ensures proceed <==> !c.known || d.Serve?
      ensures proceed ==> unchanged(this)
      ensures !proceed && c.name.EXEC? ==> !inMulti && queued == [] && !queueErr
      ensures !proceed && !c.name.EXEC? ==>
                inMulti == old(inMulti) && queued == old(queued) && queueErr == (old(queueErr) || inMulti)
    {
      hide Decide;
      if !c.known { return true, Serve; }
      var keys := RedirectKeys(c, keysOf);
      d := ClusterRedirect(RequestFor(c, keysOf), self, table, present);
      if d.Serve? { return true, d; }
      if c.name.EXEC? {
        inMulti, queued, queueErr := false, [], false;
      } else if inMulti {
        queueErr := true;
      }
      return false, d;
    }

    /** clearAsking, after a command was handled: the flag outlives only a command of that name and
        what is handled inside a transaction. */
    method ClearAsking(c: Incoming)
      modifies this`asking
      ensures asking == (old(asking) && (inMulti || c.name.ASKING?))
    {
      if inMulti || c.name.ASKING? { return; }
      asking := false;
    }

    /** One client command: refused on either side of the gate, redirected by it, or run; and then
        the one-shot flag. `saw` is the flag the command was handled under. */
    method Execute(c: Incoming, refusal: Refusal, keysOf: CommandText -> seq<Key>, self: Self, table: seq<SlotView>,
                   present: set<Key>)
      returns (saw: bool, fate: Fate)
      requires |table| == 16384
      modifies this`inMulti, this`queued, this`queueErr, this`asking
      ensures saw == old(asking)
      ensures fate == if refusal.BeforeGate? then TurnedAway
                      else if c.known && !Decide(old(RequestFor(c, keysOf)), self, table, present).Serve?
                      then Redirected
                      else if refusal.AfterGate? then TurnedAway else Ran
      ensures Flags(inMulti, asking) == After(old(Flags(inMulti, asking)), c, fate)
      ensures fate == Ran && Queues(c) && old(inMulti) ==> queued == old(queued) + [c.text] && queueErr == old(queueErr)
      ensures old(inMulti) && inMulti && !(fate == Ran && Queues(c)) ==> queued == old(queued)
      ensures old(inMulti && queueErr) && inMulti ==> queueErr
    {
      hide Decide;
      saw, fate := asking, TurnedAway;
      if !refusal.BeforeGate? {
        var proceed, d := Gate(c, keysOf, self, table, present);
        if !proceed {
          fate := Redirected;
        } else if refusal.AfterGate? {
          queueErr := queueErr || (inMulti && refusal.poisons);
        } else {
          fate := Ran;
          Run(c);
        }
      }
      if asking { ClearAsking(c); }
    }

    /** A command that may run: at once if it is about the connection, into the queue if a
        transaction is open. */
    method Run(c: Incoming)
      modifies this`inMulti, this`queued, this`queueErr, this`asking
      ensures Flags(inMulti, asking) == Flags(MultiAfter(old(inMulti), c), old(asking) || Asks(c, Ran))
      ensures old(inMulti) && inMulti ==> queued == if Queues(c) then old(queued) + [c.text] else old(queued)
      ensures old(inMulti) && inMulti ==> queueErr == (old(queueErr) || (!c.known && !Control(c)))
    {
      if Control(c) {
        if !c.known { return; }
        match c.name {
          case ASKING => asking := true;
          case MULTI => if !inMulti { inMulti, queued, queueErr := true, [], false; }
          case EXEC => if inMulti { inMulti, queued, queueErr := false, [], false; }
          case DISCARD => if inMulti { inMulti, queued, queueErr := false, [], false; }
          case RESET => inMulti, queued, queueErr := false, [], false;
          case _ =>
        }
      } else if inMulti {
        if !c.known { queueErr := true; } else { queued := queued + [c.text]; }
      }
    }
  }

  // ---- how long ASKING lasts -----------------------------------------------------------

  /** Authentication and subscriber mode refuse before the gate; DEBUG, a subscription inside a
      transaction and the byte budget after it, where an open transaction may be spoilt. */
  datatype Refusal = Never | BeforeGate | AfterGate(poisons: bool)

  datatype Fate = TurnedAway | Redirected | Ran

  datatype Flags = Flags(inMulti: bool, asking: bool)

  /** Commands about the connection, which run even inside a transaction. */
  predicate Control(c: Incoming) {
    c.control || c.name.EXEC? || c.name.DISCARD? || c.name.RESET? || c.name.ASKING? || c.name.MULTI?
  }

  predicate Queues(c: Incoming) { c.known && !Control(c) }

  /** Whether a transaction is open after a command has run. */
  predicate MultiAfter(inMulti: bool, c: Incoming) {
    if !c.known then inMulti
    else c.name.MULTI? || (inMulti && !c.name.EXEC? && !c.name.DISCARD? && !c.name.RESET?)
  }

  /** The two flags after one command. */
  function After(f: Flags, c: Incoming, fate: Fate): Flags {
    var inMulti :=
      match fate
      case TurnedAway => f.inMulti
      case Redirected => f.inMulti && !c.name.EXEC?
      case Ran => MultiAfter(f.inMulti, c);
    Flags(inMulti, (f.asking || Asks(c, fate)) && (inMulti || c.name.ASKING?))
  }

  /** An ASKING that ran. */
  predicate Asks(c: Incoming, fate: Fate) { fate == Ran && c.known && c.name.ASKING? }

  /** The flags before the i-th command of a connection. */
  function FlagsAt(cs: seq<Incoming>, fates: seq<Fate>, i: nat): Flags
    requires i <= |cs| == |fates|
  {
    if i == 0 then Flags(false, false) else After(FlagsAt(cs, fates, i - 1), cs[i - 1], fates[i - 1])
  }

  /** A command that hands the flag on: one of that name, or one after which a transaction is open. */
  predicate HandsOn(cs: seq<Incoming>, fates: seq<Fate>, l: nat)
    requires l < |cs| == |fates|
  {
    cs[l].name.ASKING? || FlagsAt(cs, fates, l + 1).inMulti
  }

  /** Over every history of a connection: a command is handled under the flag exactly when an ASKING
      ran before it and every command in between handed the flag on. */
  lemma {:induction false} AskingReaches(cs: seq<Incoming>, fates: seq<Fate>, i: nat)
    requires i <= |cs| == |fates|
    ensures FlagsAt(cs, fates, i).asking <==>
            exists j :: 0 <= j < i && Asks(cs[j], fates[j]) && forall l :: j < l < i ==> HandsOn(cs, fates, l)
  {
    if i > 0 {
      AskingReaches(cs, fates, i - 1);
      var c, fate := cs[i - 1], fates[i - 1];
      if FlagsAt(cs, fates, i).asking {
        if Asks(c, fate) {
          assert Asks(cs[i - 1], fates[i - 1]);
        } else {
          var j :| 0 <= j < i - 1 && Asks(cs[j], fates[j]) && forall l :: j < l < i - 1 ==> HandsOn(cs, fates, l);
          assert HandsOn(cs, fates, i - 1);
        }
      }
      if j :| 0 <= j < i && Asks(cs[j], fates[j]) && forall l :: j < l < i ==> HandsOn(cs, fates, l) {
        assert j < i - 1 ==> HandsOn(cs, fates, i - 1);
      }
    }
  }

  /** A node serves keys of a slot it does not own only while importing it, and only to a connection
      whose ASKING reached the command. */
  lemma UnownedNeedsAsking(cs: seq<Incoming>, fates: seq<Fate>, i: nat, keys: seq<Key>, self: Self,
                           table: seq<SlotView>, present: set<Key>)
    requires i < |cs| == |fates| && |table| == 16384 && keys != []
    requires table[SlotOfKey(keys[0])].owner != Some(self.id) && !cs[i].name.MIGRATE?
    requires Decide(Request(keys, false, cs[i].readOnly, FlagsAt(cs, fates, i).asking, false), self, table,
                    present).Serve?
    ensures table[SlotOfKey(keys[0])].importing.Some?
    ensures exists j :: 0 <= j < i && Asks(cs[j], fates[j]) && forall l :: j < l < i ==> HandsOn(cs, fates, l)
  {
    hide SlotOfKey;
    AskingReaches(cs, fates, i);
  }

  /** Outside a transaction, and opening none, the command after an ASKING is handled under the flag
      and the one after that is not. */
  lemma AskingIsOneShot(cs: seq<Incoming>, fates: seq<Fate>, j: nat)
    requires j + 1 < |cs| == |fates| && Asks(cs[j], fates[j])
    requires !FlagsAt(cs, fates, j + 2).inMulti && !cs[j + 1].name.ASKING?
    ensures FlagsAt(cs, fates, j + 1).asking && !FlagsAt(cs, fates, j + 2).asking
  {
    AskingReaches(cs, fates, j + 1);
  }

  /** An ASKING before MULTI is in force for every command of the transaction and for its EXEC, and
      not after. */
  lemma {:induction false} AskingCoversTransaction(cs: seq<Incoming>, fates: seq<Fate>, j: nat, n: nat)
    requires j + 1 < n < |cs| == |fates| && Asks(cs[j], fates[j])
    requires forall l :: j + 1 < l <= n ==> FlagsAt(cs, fates, l).inMulti
    requires !FlagsAt(cs, fates, n + 1).inMulti && !cs[n].name.ASKING?
    ensures forall i :: j < i <= n ==> FlagsAt(cs, fates, i).asking
    ensures !FlagsAt(cs, fates, n + 1).asking
  {
    forall i | j < i <= n ensures FlagsAt(cs, fates, i).asking {
      AskingReaches(cs, fates, i);
      assert forall l :: j < l < i ==> HandsOn(cs, fates, l);
    }
  }

  /** A batch that may run here names keys of one slot only, whichever of its commands they
      belong to. */
  lemma ServedBatchIsOneSlot(queued: seq<CommandText>, keysOf: CommandText -> seq<Key>, req: Request, self: Self,
                             table: seq<SlotView>, present: set<Key>, i: nat, j: nat, k: Key, l: Key)
    requires |table| == 16384 && req.keys == QueuedKeys(queued, keysOf)
    requires Decide(req, self, table, present).Serve?
    requires i < |queued| && j < |queued| && k in keysOf(queued[i]) && l in keysOf(queued[j])
    ensures SlotOfKey(k) == SlotOfKey(l)
  {
    hide SlotOfKey, QueuedKeys, DecideInSlot;
    QueuedKeysCover(queued, i, k, keysOf);
    QueuedKeysCover(queued, j, l, keysOf);
  }
}
