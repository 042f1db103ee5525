/** A node's cluster configuration: the nodes it knows, the slot map that points at them, and the
    administrative commands that change the two together. */
module ClusterTable {
  import opened Bytes
  import opened Redirect

  // ---- SETSLOT on one slot, by node ids -----------------------------------------------

  datatype Action = Stable | Migrating(id: NodeId) | Importing(id: NodeId) | AssignTo(id: NodeId)

  datatype Refusal = UnknownNode | NotTheOwner | AlreadyTheOwner | TargetIsMyself | StillHoldsKeys

  datatype SetSlotResult = Applied(view: SlotView) | Refused(why: Refusal)

  function SetSlot(v: SlotView, me: NodeId, action: Action, known: bool, holdsKeys: bool): SetSlotResult {
    match action
    case Stable => Applied(v.(migrating := None, importing := None))
    case Migrating(id) =>
      if !known then Refused(UnknownNode)
      else if v.owner != Some(me) then Refused(NotTheOwner)
      else if id == me then Refused(TargetIsMyself)
      else Applied(v.(migrating := Some(id)))
    case Importing(id) =>
      if !known then Refused(UnknownNode)
      else if v.owner == Some(me) then Refused(AlreadyTheOwner)
      else if id == me then Refused(TargetIsMyself)
      else Applied(v.(importing := Some(id)))
    case AssignTo(id) =>
      if !known then Refused(UnknownNode)
      else if v.owner == Some(me) && id != me && holdsKeys then Refused(StillHoldsKeys)
      else Applied(SlotView(Some(id), None, None))
  }

  predicate OneMarker(v: SlotView) { v.migrating.None? || v.importing.None? }

  /** A slot with at most one marker keeps it so exactly when it is not marked for migration while it
      is still marked for import. */
  lemma SecondMarker(v: SlotView, me: NodeId, action: Action, known: bool, holdsKeys: bool)
    requires OneMarker(v) && (v.migrating.Some? ==> v.owner == Some(me))
    requires SetSlot(v, me, action, known, holdsKeys).Applied?
    ensures OneMarker(SetSlot(v, me, action, known, holdsKeys).view) <==> !(action.Migrating? && v.importing.Some?)
  {
  }

  // ---- the configuration --------------------------------------------------------------

  /** One node as this node knows it. It never changes: an update is a new object in its place. */
  class ClusterNode {
    const id: NodeId
    const ip: Bytes
    const port: int
    const cport: int
    const replicaOf: Bytes  // the master's id, or empty
    const configEpoch: int
    const myself: bool

    constructor (id: NodeId, ip: Bytes, port: int, cport: int, replicaOf: Bytes, configEpoch: int, myself: bool)
      ensures this.id == id && this.ip == ip && this.port == port && this.cport == cport
      ensures this.replicaOf == replicaOf && this.configEpoch == configEpoch && this.myself == myself
    {
      this.id, this.ip, this.port, this.cport := id, ip, port, cport;
      this.replicaOf, this.configEpoch, this.myself := replicaOf, configEpoch, myself;
    }
  }

  datatype SlotInfo = SlotInfo(owner: ClusterNode?, migrating: ClusterNode?, importing: ClusterNode?)

  const EMPTY := SlotInfo(null, null, null)

  type NodeMap = map<NodeId, ClusterNode>

  function IdOf(n: ClusterNode?): Option<NodeId> { if n == null then None else Some(n.id) }

  function ViewOf(s: SlotInfo): SlotView { SlotView(IdOf(s.owner), IdOf(s.migrating), IdOf(s.importing)) }

  /** Nothing, or the current entry for its id. */
  predicate Current(n: ClusterNode?, nodes: NodeMap) { n == null || (n.id in nodes && nodes[n.id] == n) }

  /** One well-formed slot: every pointer current, a migration only out of an owned slot, and no
      migration from or to this node itself. */
  predicate GoodSlot(s: SlotInfo, nodes: NodeMap, me: ClusterNode) {
    && Current(s.owner, nodes) && Current(s.migrating, nodes) && Current(s.importing, nodes)
    && (s.migrating != null ==> s.owner == me)
    && s.migrating != me
    && s.importing != me
  }

  predicate GoodTable(t: seq<SlotInfo>, nodes: NodeMap, me: ClusterNode) {
    |t| == 16384 && forall i :: 0 <= i < |t| ==> GoodSlot(t[i], nodes, me)
  }

  predicate GoodNodes(nodes: NodeMap, myID: NodeId) {
    && myID in nodes
    && forall id :: id in nodes ==> nodes[id].id == id && (nodes[id].myself <==> id == myID)
  }

  /** No slot that had an owner has a different one, by id. */
  predicate OwnersKept(before: seq<SlotInfo>, after: seq<SlotInfo>) {
    && |before| == |after|
    && forall i :: 0 <= i < |after| && before[i].owner != null && after[i].owner != null ==>
         before[i].owner.id == after[i].owner.id
  }

  function Repointed(n: ClusterNode?, prev: ClusterNode, next: ClusterNode?): ClusterNode? {
    if n == prev then next else n
  }

  function RepointedSlot(s: SlotInfo, prev: ClusterNode, next: ClusterNode?): SlotInfo {
    SlotInfo(Repointed(s.owner, prev, next), Repointed(s.migrating, prev, next), Repointed(s.importing, prev, next))
  }

  predicate AllRepointed(before: seq<SlotInfo>, after: seq<SlotInfo>, prev: ClusterNode, next: ClusterNode?) {
    |before| == |after| && forall i :: 0 <= i < |after| ==> after[i] == RepointedSlot(before[i], prev, next)
  }

  /** Replacing a node's entry and every pointer to it keeps the table well formed. */
  lemma ReplacedNodeKeepsTable(t: seq<SlotInfo>, t': seq<SlotInfo>, nodes: NodeMap, me: ClusterNode,
                               prev: ClusterNode, next: ClusterNode)
    requires GoodTable(t, nodes, me) && AllRepointed(t, t', prev, next)
    requires next.id == prev.id && prev.id in nodes && nodes[prev.id] == prev
    requires me.id in nodes && nodes[me.id] == me
    ensures GoodTable(t', nodes[next.id := next], if me == prev then next else me)
    ensures OwnersKept(t, t')
  {
    var nodes', me' := nodes[next.id := next], if me == prev then next else me;
    forall i | 0 <= i < |t'|
      ensures GoodSlot(t'[i], nodes', me')
    {
      assert GoodSlot(t[i], nodes, me) && t'[i] == RepointedSlot(t[i], prev, next);
    }
  }

  lemma ForgottenNodeKeepsTable(t: seq<SlotInfo>, t': seq<SlotInfo>, nodes: NodeMap, me: ClusterNode, node: ClusterNode)
    requires GoodTable(t, nodes, me) && AllRepointed(t, t', node, null)
    requires node != me && node.id in nodes && nodes[node.id] == node
    ensures GoodTable(t', nodes - {node.id}, me)
    ensures OwnersKept(t, t')
  {
    forall i | 0 <= i < |t'|
      ensures GoodSlot(t'[i], nodes - {node.id}, me)
    {
      assert GoodSlot(t[i], nodes, me) && t'[i] == RepointedSlot(t[i], node, null);
    }
  }

  lemma NewNodeKeepsTable(t: seq<SlotInfo>, nodes: NodeMap, me: ClusterNode, n: ClusterNode)
    requires GoodTable(t, nodes, me) && n.id !in nodes
    ensures GoodTable(t, nodes[n.id := n], me)
  {
    forall i | 0 <= i < |t|
      ensures GoodSlot(t[i], nodes[n.id := n], me)
    {
      assert GoodSlot(t[i], nodes, me);
    }
  }

  lemma ChangedSlotsStayGood(t: seq<SlotInfo>, t': seq<SlotInfo>, nodes: NodeMap, me: ClusterNode, slots: seq<int>,
                             add: bool)
    requires GoodTable(t, nodes, me) && |t'| == |t| && me.id in nodes && nodes[me.id] == me
    requires forall i :: 0 <= i < |slots| ==> 0 <= slots[i] < 16384 && (t[slots[i]].owner == null) == add
    requires forall s :: 0 <= s < 16384 ==>
               t'[s] == if s !in slots then t[s] else if add then t[s].(owner := me) else EMPTY
    ensures GoodTable(t', nodes, me) && OwnersKept(t, t')
  {
    forall s | 0 <= s < |t'|
      ensures GoodSlot(t'[s], nodes, me)
    {
      assert GoodSlot(t[s], nodes, me);
    }
  }

  lemma SlotPointers(t: seq<SlotInfo>, nodes: NodeMap, me: ClusterNode, slot: int)
    requires GoodTable(t, nodes, me) && 0 <= slot < |t| && GoodNodes(nodes, me.id) && nodes[me.id] == me
    ensures var s := t[slot];
            && (s.owner == me <==> IdOf(s.owner) == Some(me.id))
            && GoodSlot(s.(migrating := null, importing := null), nodes, me)
            && (forall n :: n in nodes.Values && n != me && s.owner == me ==> GoodSlot(s.(migrating := n), nodes, me))
            && (forall n :: n in nodes.Values && n != me ==> GoodSlot(s.(importing := n), nodes, me))
            && (forall n :: n in nodes.Values ==> GoodSlot(SlotInfo(n, null, null), nodes, me))
  {
    assert GoodSlot(t[slot], nodes, me);
  }

  /** Every pointer at prev moved to next, slot by slot, on a copy of the table. */
  method Repoint(before: seq<SlotInfo>, prev: ClusterNode, next: ClusterNode?) returns (t: seq<SlotInfo>)
    ensures AllRepointed(before, t, prev, next)
  {
    t := before;
    for i := 0 to |before|
      invariant |t| == |before|
      invariant forall j :: 0 <= j < i ==> t[j] == RepointedSlot(before[j], prev, next)
      invariant forall j :: i <= j < |t| ==> t[j] == before[j]
    {
      if t[i].owner == prev { t := t[i := t[i].(owner := next)]; }
      if before[i].migrating == prev { t := t[i := t[i].(migrating := next)]; }
      if before[i].importing == prev { t := t[i := t[i].(importing := next)]; }
    }
  }

  predicate Claimed(claims: seq<(int, int)>, n: nat, i: int)
    requires n <= |claims|
  {
    exists c :: 0 <= c < n && claims[c].0 <= i <= claims[c].1
  }

  function ClaimedSlot(s: SlotInfo, claimed: bool, peer: ClusterNode): SlotInfo {
    if claimed && s.owner == null then s.(owner := peer) else s
  }

  method ClaimRange(before: seq<SlotInfo>, lo: int, hi: int, peer: ClusterNode) returns (t: seq<SlotInfo>)
    requires 0 <= lo && hi < |before|
    ensures |t| == |before|
    ensures forall i :: 0 <= i < |t| ==> t[i] == ClaimedSlot(before[i], lo <= i <= hi, peer)
  {
    t := before;
    var i := lo;
    while i <= hi
      invariant lo <= i && (i <= hi + 1 || i == lo) && |t| == |before|
      invariant forall j :: 0 <= j < |t| ==> t[j] == ClaimedSlot(before[j], lo <= j < i && j <= hi, peer)
    {
      if t[i].owner == null { t := t[i := t[i].(owner := peer)]; }
      i := i + 1;
    }
  }

  method MergeClaims(before: seq<SlotInfo>, claims: seq<(int, int)>, peer: ClusterNode) returns (t: seq<SlotInfo>)
    requires |before| == 16384
    requires forall i :: 0 <= i < |claims| ==> 0 <= claims[i].0 && claims[i].1 < 16384
    ensures |t| == |before|
    ensures forall i :: 0 <= i < |t| ==> t[i] == ClaimedSlot(before[i], Claimed(claims, |claims|, i), peer)
  {
    t := before;
    for c := 0 to |claims|
      invariant |t| == 16384
      invariant forall i :: 0 <= i < 16384 ==> t[i] == ClaimedSlot(before[i], Claimed(claims, c, i), peer)
    {
      t := ClaimRange(t, claims[c].0, claims[c].1, peer);
    }
  }

  lemma ClaimsStayGood(t: seq<SlotInfo>, t': seq<SlotInfo>, nodes: NodeMap, me: ClusterNode, claims: seq<(int, int)>,
                       peer: ClusterNode)
    requires GoodTable(t, nodes, me) && |t'| == |t| && Current(peer, nodes)
    requires forall i :: 0 <= i < |t| ==> t'[i] == ClaimedSlot(t[i], Claimed(claims, |claims|, i), peer)
    ensures GoodTable(t', nodes, me) && OwnersKept(t, t')
  {
    forall i | 0 <= i < |t'|
      ensures GoodSlot(t'[i], nodes, me)
    {
      assert GoodSlot(t[i], nodes, me);
    }
  }

  datatype Reply = OK | SlotRepeated | SlotBusy | SlotUnassigned | CannotForgetMyself | NoSuchNode
    | CannotReplicateMyself | NotAMaster | NotEmpty | HasKeys | MeetsMyself

  predicate InRange(slots: seq<int>) { forall i :: 0 <= i < |slots| ==> 0 <= slots[i] < 16384 }

  predicate Distinct(slots: seq<int>) { forall i, j :: 0 <= i < j < |slots| ==> slots[i] != slots[j] }

  class ClusterState {
    var myID: NodeId
    var nodes: NodeMap
    var table: seq<SlotInfo>
    var currentEpoch: int

    ghost predicate Valid()
      reads this
    {
      GoodNodes(nodes, myID) && GoodTable(table, nodes, nodes[myID])
    }

    /** A first start: this node alone, every slot unassigned. */
    constructor (me: ClusterNode)
      requires me.myself
      ensures Valid() && myID == me.id && nodes == map[me.id := me] && currentEpoch == 0
      ensures forall i :: 0 <= i < 16384 ==> table[i] == EMPTY
    {
      myID, nodes, currentEpoch := me.id, map[me.id := me], 0;
      table := seq(16384, _ => EMPTY);
    }

    /** putNodeLocked: the new entry, and every pointer at the old one moved to it. */
    method PutNode(n: ClusterNode)
      requires Valid() && (n.myself <==> n.id == myID)
      modifies this`nodes, this`table
      ensures Valid() && nodes == old(nodes)[n.id := n]
      ensures if n.id in old(nodes) then AllRepointed(old(table), table, old(nodes)[n.id], n) else table == old(table)
      ensures OwnersKept(old(table), table)
    {
      hide GoodSlot;
      if n.id !in nodes {
        NewNodeKeepsTable(table, nodes, nodes[myID], n);
        nodes := nodes[n.id := n];
        return;
      }
      var prev := nodes[n.id];
      ghost var me := nodes[myID];
      nodes := nodes[n.id := n];
      table := Repoint(table, prev, n);
      ReplacedNodeKeepsTable(old(table), table, old(nodes), me, prev, n);
    }

    /** CLUSTER ADDSLOTS and DELSLOTS, and their range forms: the whole batch or nothing. */
    method ApplySlotChange(add: bool, slots: seq<int>) returns (r: Reply)
      requires Valid() && InRange(slots)
      modifies this`table, this`currentEpoch
      ensures Valid() && OwnersKept(old(table), table)
      ensures r.OK? <==> Distinct(slots) && forall i :: 0 <= i < |slots| ==> (old(table)[slots[i]].owner == null) == add
      ensures !r.OK? ==> unchanged(this)
      ensures r.OK? ==> currentEpoch == old(currentEpoch) + 1
      ensures r.OK? ==> forall s :: 0 <= s < 16384 ==>
                table[s] == if s !in slots then old(table)[s]
                            else if add then old(table)[s].(owner := nodes[myID]) else EMPTY
    {
      var seen: set<int> := {};
      for i := 0 to |slots|
        invariant seen == set j | 0 <= j < i :: slots[j]
        invariant forall j :: 0 <= j < i ==> (table[slots[j]].owner == null) == add
        invariant forall j, k :: 0 <= j < k < i ==> slots[j] != slots[k]
      {
        var slot := slots[i];
        if slot in seen { return SlotRepeated; }
        seen := seen + {slot};
        if add && table[slot].owner != null { return SlotBusy; }
        if !add && table[slot].owner == null { return SlotUnassigned; }
      }
      var t := table;
      for i := 0 to |slots|
        invariant |t| == 16384
        invariant forall s :: 0 <= s < 16384 ==>
                    t[s] == if s !in slots[..i] then table[s]
                            else if add then table[s].(owner := nodes[myID]) else EMPTY
      {
        assert slots[..i + 1] == slots[..i] + [slots[i]];
        assert slots[i] !in slots[..i];
        t := t[slots[i] := if add then t[slots[i]].(owner := nodes[myID]) else EMPTY];
      }
      assert slots[..|slots|] == slots;
      ChangedSlotsStayGood(table, t, nodes, nodes[myID], slots, add);
      table := t;
      currentEpoch := currentEpoch + 1;
      return OK;
    }

    /** CLUSTER SETSLOT on one slot. */
    method SetSlotState(slot: int, action: Action, holdsKeys: bool) returns (r: SetSlotResult)
      requires Valid() && 0 <= slot < 16384
      modifies this`table, this`currentEpoch
      ensures Valid()
      ensures r == SetSlot(ViewOf(old(table)[slot]), myID, action, action.Stable? || action.id in nodes, holdsKeys)
      ensures r.Refused? ==> unchanged(this)
      ensures r.Applied? ==> ViewOf(table[slot]) == r.view && table == old(table)[slot := table[slot]]
      ensures r.Applied? ==> currentEpoch == old(currentEpoch) + (if action.AssignTo? then 1 else 0)
      ensures !action.AssignTo? ==> OwnersKept(old(table), table)
    {
      hide GoodSlot;
      var info := table[slot];
      var me := nodes[myID];
      SlotPointers(table, nodes, me, slot);
      if action.Stable? {
        Install(slot, info.(migrating := null, importing := null));
        return Applied(ViewOf(table[slot]));
      }
      if action.id !in nodes { return Refused(UnknownNode); }
      var target := nodes[action.id];
      match action {
      case Migrating(_) =>
        if info.owner != me { return Refused(NotTheOwner); }
        if target == me { return Refused(TargetIsMyself); }
        Install(slot, info.(migrating := target));
      case Importing(_) =>
        if info.owner == me { return Refused(AlreadyTheOwner); }
        if target == me { return Refused(TargetIsMyself); }
        Install(slot, info.(importing := target));
      case AssignTo(_) =>
        if info.owner == me && target != me && holdsKeys { return Refused(StillHoldsKeys); }
        Install(slot, SlotInfo(target, null, null));
        currentEpoch := currentEpoch + 1;
      }
      return Applied(ViewOf(table[slot]));
    }

    /** One slot of the published table replaced. */
    method Install(slot: int, info: SlotInfo)
      requires Valid() && 0 <= slot < 16384 && GoodSlot(info, nodes, nodes[myID])
      modifies this`table
      ensures Valid() && table == old(table)[slot := info]
    {
      hide GoodSlot;
      table := table[slot := info];
    }

    /** CLUSTER FORGET: the node's slots are released with it. */
    method Forget(id: NodeId) returns (r: Reply)
      requires Valid()
      modifies this`nodes, this`table
      ensures Valid() && OwnersKept(old(table), table)
      ensures r.OK? <==> id != myID && id in old(nodes)
      ensures !r.OK? ==> unchanged(this)
      ensures r.OK? ==> nodes == old(nodes) - {id} && AllRepointed(old(table), table, old(nodes)[id], null)
    {
      hide GoodSlot;
      if id == myID { return CannotForgetMyself; }
      if id !in nodes { return NoSuchNode; }
      var node := nodes[id];
      table := Repoint(table, node, null);
      ForgottenNodeKeepsTable(old(table), table, nodes, nodes[myID], node);
      nodes := nodes - {id};
      return OK;
    }

    /** CLUSTER REPLICATE: this node's own entry is replaced by one that follows a master. */
    method Replicate(id: NodeId, storeEmpty: bool) returns (r: Reply)
      requires Valid()
      modifies this`nodes, this`table
      ensures Valid() && OwnersKept(old(table), table)
      ensures r.OK? <==> id != myID && id in old(nodes) && old(nodes)[id].replicaOf == [] && storeEmpty &&
                         forall i :: 0 <= i < 16384 ==> old(table)[i].owner != old(nodes)[myID]
      ensures !r.OK? ==> unchanged(this)
      ensures r.OK? ==> nodes.Keys == old(nodes).Keys && nodes[myID].replicaOf == id && fresh(nodes[myID])
      ensures r.OK? ==> forall other :: other in nodes && other != myID ==> nodes[other] == old(nodes)[other]
    {
      hide GoodSlot;
      if id == myID { return CannotReplicateMyself; }
      if id !in nodes { return NoSuchNode; }
      var master := nodes[id];
      if |master.replicaOf| > 0 { return NotAMaster; }
      var me := nodes[myID];
      var owns := Owns(me);
      if owns || !storeEmpty { return NotEmpty; }
      var updated := new ClusterNode(me.id, me.ip, me.port, me.cport, id, me.configEpoch, me.myself);
      PutNode(updated);
      return OK;
    }

    method Owns(n: ClusterNode) returns (b: bool)
      requires Valid()
      ensures b <==> exists i :: 0 <= i < 16384 && table[i].owner == n
    {
      hide GoodSlot;
      for i := 0 to 16384
        invariant forall j :: 0 <= j < i ==> table[j].owner != n
      {
        if table[i].owner == n { return true; }
      }
      return false;
    }

    /** CLUSTER RESET: alone again, under the same id or, when hard, under a new one. */
    method Reset(hard: bool, newID: NodeId, storeEmpty: bool) returns (r: Reply)
      requires Valid()
      modifies this
      ensures Valid() && r.OK? == storeEmpty
      ensures !r.OK? ==> unchanged(this)
      ensures r.OK? ==> myID == (if hard then newID else old(myID)) && nodes.Keys == {myID}
      ensures r.OK? ==> forall i :: 0 <= i < 16384 ==> table[i] == EMPTY
      ensures r.OK? ==> currentEpoch == if hard then 0 else old(currentEpoch)
    {
      if !storeEmpty { return HasKeys; }
      var me := nodes[myID];
      var id := if hard then newID else me.id;
      var reset := new ClusterNode(id, me.ip, me.port, me.cport, [], if hard then 0 else me.configEpoch, true);
      if hard { currentEpoch := 0; }
      nodes := map[id := reset];
      myID := id;
      table := seq(16384, _ => EMPTY);
      return OK;
    }

    /** The table merge of CLUSTER MEET: the peer's entry, and those of the slots it claims that
        nobody here owns. */
    method Meet(peer: ClusterNode, claims: seq<(int, int)>) returns (r: Reply)
      requires Valid() && !peer.myself
      requires forall i :: 0 <= i < |claims| ==> 0 <= claims[i].0 && claims[i].1 < 16384
      modifies this`nodes, this`table
      ensures Valid() && OwnersKept(old(table), table)
      ensures r.OK? <==> peer.id != myID
      ensures !r.OK? ==> unchanged(this)
      ensures r.OK? ==> nodes == old(nodes)[peer.id := peer]
      ensures r.OK? ==> forall i :: 0 <= i < 16384 ==>
                ViewOf(table[i]) == if old(table)[i].owner == null && Claimed(claims, |claims|, i)
                                    then ViewOf(old(table)[i]).(owner := Some(peer.id)) else ViewOf(old(table)[i])
    {
      hide GoodSlot;
      if peer.id == myID { return MeetsMyself; }
      PutNode(peer);
      ghost var repointed := table;
      var t := MergeClaims(table, claims, peer);
      ClaimsStayGood(repointed, t, nodes, nodes[myID], claims, peer);
      table := t;
      return OK;
    }

    /** Import, take over, migrate: any unassigned slot and any peer end with both markers set. */
    method MarkBothWays(slot: int, peer: NodeId)
      requires Valid() && 0 <= slot < 16384 && table[slot].owner == null && peer in nodes && peer != myID
      modifies this`table, this`currentEpoch
      ensures Valid() && !OneMarker(ViewOf(table[slot]))
    {
      hide GoodSlot, GoodTable;
      var r := SetSlotState(slot, Importing(peer), false);
      var ok := ApplySlotChange(true, [slot]);
      r := SetSlotState(slot, Migrating(peer), false);
    }
  }
}
