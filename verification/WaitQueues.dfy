/** The registry of blocked clients: one arrival-ordered queue for each key somebody waits on. */
module WaitQueues {
  import opened Bytes

  /** A key in a database. */
  datatype DbKey = DbKey(db: nat, key: Bytes)

  type Queues<T> = map<DbKey, seq<T>>

  function Queue<T>(qs: Queues<T>, k: DbKey): seq<T> { if k in qs then qs[k] else [] }

  /** An empty queue does not linger. */
  predicate NoEmptyQueue<T>(qs: Queues<T>) { forall k :: k in qs ==> qs[k] != [] }

  // ---- what registering and unregistering do to the queues ------------------------------

  /** A waiter at the back of the queue of each of its keys, once for every time it names the key. */
  function Join<T>(qs: Queues<T>, keys: seq<DbKey>, w: T): Queues<T> {
    if keys == [] then qs
    else
      var k := keys[|keys| - 1];
      var before := Join(qs, keys[..|keys| - 1], w);
      before[k := Queue(before, k) + [w]]
  }

  function RemoveFirst<T(==)>(q: seq<T>, w: T): seq<T> {
    if q == [] then [] else if q[0] == w then q[1..] else [q[0]] + RemoveFirst(q[1..], w)
  }

  function LeaveOne<T(==)>(qs: Queues<T>, k: DbKey, w: T): Queues<T> {
    var q := RemoveFirst(Queue(qs, k), w);
    if q == [] then qs - {k} else qs[k := q]
  }

  /** One occurrence removed for every key the waiter names; a queue left empty is dropped. */
  function Leave<T(==)>(qs: Queues<T>, keys: seq<DbKey>, w: T): Queues<T> {
    if keys == [] then qs
    else LeaveOne(Leave(qs, keys[..|keys| - 1], w), keys[|keys| - 1], w)
  }

  /** The queue with every occurrence of a waiter gone, the others in the order they had. */
  function Without<T(==)>(q: seq<T>, w: T): (r: seq<T>)
    ensures forall x :: x in r ==> x in q && x != w
    ensures forall x :: x in q && x != w ==> x in r
    ensures multiset(r) == multiset(q)[w := 0]
  {
    if q == [] then []
    else
      assert q == [q[0]] + q[1..];
      if q[0] == w then Without(q[1..], w) else [q[0]] + Without(q[1..], w)
  }

  function Copies<T>(w: T, n: nat): (r: seq<T>)
    ensures |r| == n && forall i :: 0 <= i < n ==> r[i] == w
  {
    seq(n, _ => w)
  }

  function RemoveMany<T(==)>(q: seq<T>, w: T, n: nat): seq<T> {
    if n == 0 then q else RemoveFirst(RemoveMany(q, w, n - 1), w)
  }

  lemma LastSplit(keys: seq<DbKey>)
    requires keys != []
    ensures multiset(keys) == multiset(keys[..|keys| - 1]) + multiset{keys[|keys| - 1]}
  {
    assert keys == keys[..|keys| - 1] + [keys[|keys| - 1]];
  }

  lemma {:induction false} JoinAt<T>(qs: Queues<T>, keys: seq<DbKey>, w: T, k: DbKey)
    ensures Queue(Join(qs, keys, w), k) == Queue(qs, k) + Copies(w, multiset(keys)[k])
  {
    hide Copies;
    if keys == [] {
    } else {
      var init, last := keys[..|keys| - 1], keys[|keys| - 1];
      JoinAt(qs, init, w, k);
      LastSplit(keys);
      if k == last { assert Copies(w, multiset(init)[k]) + [w] == Copies(w, multiset(keys)[k]); }
    }
  }

  lemma LeaveOneAt<T>(qs: Queues<T>, last: DbKey, w: T, k: DbKey)
    ensures Queue(LeaveOne(qs, last, w), k) == if k == last then RemoveFirst(Queue(qs, k), w) else Queue(qs, k)
  {
    hide RemoveFirst;
  }

  lemma {:induction false} LeaveAt<T>(qs: Queues<T>, keys: seq<DbKey>, w: T, k: DbKey)
    ensures Queue(Leave(qs, keys, w), k) == RemoveMany(Queue(qs, k), w, multiset(keys)[k])
  {
    hide LeaveOne, RemoveFirst, Queue;
    if keys == [] {
    } else {
      LeaveAt(qs, keys[..|keys| - 1], w, k);
      LeaveOneAt(Leave(qs, keys[..|keys| - 1], w), keys[|keys| - 1], w, k);
      LastSplit(keys);
    }
  }

  lemma {:induction false} NoEmptyQueueKept<T>(qs: Queues<T>, keys: seq<DbKey>, w: T)
    requires NoEmptyQueue(qs)
    ensures NoEmptyQueue(Join(qs, keys, w)) && NoEmptyQueue(Leave(qs, keys, w))
  {
    if keys != [] { NoEmptyQueueKept(qs, keys[..|keys| - 1], w); }
  }

  lemma {:induction false} RemoveFirstThenWithout<T>(q: seq<T>, w: T)
    ensures Without(RemoveFirst(q, w), w) == Without(q, w)
    ensures multiset(RemoveFirst(q, w)) == multiset(q) - multiset{w}
  {
    if q != [] {
      assert q == [q[0]] + q[1..];
      if q[0] != w {
        RemoveFirstThenWithout(q[1..], w);
        assert RemoveFirst(q, w)[1..] == RemoveFirst(q[1..], w);
      }
    }
  }

  lemma {:induction false} RemoveManyThenWithout<T>(q: seq<T>, w: T, n: nat)
    requires n <= multiset(q)[w]
    ensures Without(RemoveMany(q, w, n), w) == Without(q, w)
    ensures multiset(RemoveMany(q, w, n))[w] == multiset(q)[w] - n
  {
    hide Without, RemoveFirst;
    if n > 0 {
      RemoveManyThenWithout(q, w, n - 1);
      RemoveFirstThenWithout(RemoveMany(q, w, n - 1), w);
    }
  }

  lemma {:induction false} WithoutStranger<T>(q: seq<T>, w: T)
    requires w !in q
    ensures Without(q, w) == q
  {
    if q != [] { WithoutStranger(q[1..], w); }
  }

  /** A waiter that sits in a queue as often as it names the key leaves none of itself behind, and
      the rest of the queue in order. */
  lemma LeaveIsWithout<T>(qs: Queues<T>, keys: seq<DbKey>, w: T, k: DbKey)
    requires multiset(Queue(qs, k))[w] == multiset(keys)[k]
    ensures Queue(Leave(qs, keys, w), k) == Without(Queue(qs, k), w)
  {
    var q, n := Queue(qs, k), multiset(keys)[k];
    LeaveAt(qs, keys, w, k);
    RemoveManyThenWithout(q, w, n);
    var r := RemoveMany(q, w, n);
    assert multiset(r)[w] == 0;
    assert w !in multiset(r);
    WithoutStranger(r, w);
  }

  /** Registering a waiter and unregistering it at once restores the registry. */
  lemma JoinThenLeave<T>(qs: Queues<T>, keys: seq<DbKey>, w: T)
    requires NoEmptyQueue(qs) && forall k :: w !in Queue(qs, k)
    ensures Leave(Join(qs, keys, w), keys, w) == qs
  {
    hide Join, Leave, Without, Copies;
    var after := Leave(Join(qs, keys, w), keys, w);
    forall k ensures Queue(after, k) == Queue(qs, k) {
      JoinAt(qs, keys, w, k);
      assert multiset(Copies(w, multiset(keys)[k]))[w] == multiset(keys)[k] by { CopiesCount(w, multiset(keys)[k]); }
      LeaveIsWithout(Join(qs, keys, w), keys, w, k);
      WithoutAppended(Queue(qs, k), Copies(w, multiset(keys)[k]), w);
    }
    NoEmptyQueueKept(qs, keys, w);
    NoEmptyQueueKept(Join(qs, keys, w), keys, w);
    assert forall k :: k in after <==> Queue(after, k) != [];
  }

  lemma {:induction false} CopiesCount<T>(w: T, n: nat)
    ensures multiset(Copies(w, n))[w] == n && forall x :: x != w ==> multiset(Copies(w, n))[x] == 0
  {
    if n > 0 {
      CopiesCount(w, n - 1);
      assert Copies(w, n) == Copies(w, n - 1) + [w];
    }
  }

  lemma {:induction false} WithoutAppended<T>(q: seq<T>, r: seq<T>, w: T)
    requires w !in q && forall i :: 0 <= i < |r| ==> r[i] == w
    ensures Without(q + r, w) == q
  {
    if q != [] {
      assert (q + r)[1..] == q[1..] + r;
      WithoutAppended(q[1..], r, w);
    } else if r != [] {
      assert q + r == r && (q + r)[1..] == q + r[1..];
      WithoutAppended(q, r[1..], w);
    }
  }

  /** The waiters at the head of the queues of some keys. */
  function Heads<T>(qs: Queues<T>, ks: set<DbKey>): set<T> {
    set k | k in ks && Queue(qs, k) != [] :: Queue(qs, k)[0]
  }

  lemma HeadsOfMore<T>(qs: Queues<T>, ks: set<DbKey>, k: DbKey)
    ensures Heads(qs, ks + {k}) == Heads(qs, ks) + if Queue(qs, k) == [] then {} else {Queue(qs, k)[0]}
  {
    assert forall h :: h in Heads(qs, ks) ==> h in Heads(qs, ks + {k});
  }

  function KeySet(keys: seq<DbKey>): set<DbKey> { set k | k in keys }

  // ---- the registry ---------------------------------------------------------------------

  /** One blocked client. The two channels hold at most one message each. */
  class Waiter {
    const keys: seq<DbKey>
    const id: nat
    const wantType: Bytes
    var ready: bool
    var forced: Option<Bytes>

    constructor (keys: seq<DbKey>, id: nat, wantType: Bytes)
      ensures this.keys == keys && this.id == id && this.wantType == wantType && !ready && forced == None
    {
      this.keys, this.id, this.wantType, ready, forced := keys, id, wantType, false, None;
    }
  }

  ghost predicate Registered(byId: map<nat, Waiter>, w: Waiter) { w.id in byId && byId[w.id] == w }

  /** Every registered waiter sits in a key's queue exactly as often as it names the key, and nobody
      else sits there. */
  ghost predicate SeatedAt(q: seq<Waiter>, k: DbKey, byId: map<nat, Waiter>) {
    && (forall x :: x in q ==> Registered(byId, x))
    && (forall i :: i in byId ==> multiset(q)[byId[i]] == multiset(byId[i].keys)[k])
  }

  ghost predicate Seated(qs: Queues<Waiter>, byId: map<nat, Waiter>) {
    && NoEmptyQueue(qs)
    && (forall i :: i in byId ==> byId[i].id == i)
    && (forall k :: SeatedAt(Queue(qs, k), k, byId))
  }

  lemma SeatTaken(q: seq<Waiter>, k: DbKey, byId: map<nat, Waiter>, w: Waiter)
    requires SeatedAt(q, k, byId) && w.id !in byId
    ensures SeatedAt(q + Copies(w, multiset(w.keys)[k]), k, byId[w.id := w])
  {
    var n := multiset(w.keys)[k];
    CopiesCount(w, n);
    assert w !in q;
    assert multiset(q)[w] == 0;
    assert multiset(q + Copies(w, n)) == multiset(q) + multiset(Copies(w, n));
  }

  lemma SeatVacated(q: seq<Waiter>, k: DbKey, byId: map<nat, Waiter>, w: Waiter)
    requires SeatedAt(q, k, byId) && Registered(byId, w)
    requires forall i :: i in byId ==> byId[i].id == i
    ensures SeatedAt(Without(q, w), k, byId - {w.id})
  {
    forall x | x in Without(q, w) ensures Registered(byId - {w.id}, x) {
      assert Registered(byId, x);
    }
  }

  lemma SeatedAfterJoin(qs: Queues<Waiter>, byId: map<nat, Waiter>, w: Waiter)
    requires Seated(qs, byId) && w.id !in byId
    ensures Seated(Join(qs, w.keys, w), byId[w.id := w])
    ensures forall k :: Queue(Join(qs, w.keys, w), k) == Queue(qs, k) + Copies(w, multiset(w.keys)[k])
  {
    hide Join, NoEmptyQueue, SeatedAt, Queue, Copies;
    NoEmptyQueueKept(qs, w.keys, w);
    forall k
      ensures Queue(Join(qs, w.keys, w), k) == Queue(qs, k) + Copies(w, multiset(w.keys)[k])
      ensures SeatedAt(Queue(Join(qs, w.keys, w), k), k, byId[w.id := w])
    {
      JoinAt(qs, w.keys, w, k);
      SeatTaken(Queue(qs, k), k, byId, w);
    }
  }

  lemma SeatedAfterLeave(qs: Queues<Waiter>, byId: map<nat, Waiter>, w: Waiter)
    requires Seated(qs, byId) && Registered(byId, w)
    ensures Seated(Leave(qs, w.keys, w), byId - {w.id})
    ensures forall k :: Queue(Leave(qs, w.keys, w), k) == Without(Queue(qs, k), w)
  {
    hide Leave, NoEmptyQueue, SeatedAt, Queue, Without;
    NoEmptyQueueKept(qs, w.keys, w);
    forall k
      ensures Queue(Leave(qs, w.keys, w), k) == Without(Queue(qs, k), w)
      ensures SeatedAt(Queue(Leave(qs, w.keys, w), k), k, byId - {w.id})
    {
      SeatCount(Queue(qs, k), k, byId, w);
      LeaveIsWithout(qs, w.keys, w, k);
      SeatVacated(Queue(qs, k), k, byId, w);
    }
  }

  lemma SeatCount(q: seq<Waiter>, k: DbKey, byId: map<nat, Waiter>, w: Waiter)
    requires SeatedAt(q, k, byId) && Registered(byId, w)
    ensures multiset(q)[w] == multiset(w.keys)[k]
  {
  }

  predicate AnyOfType(q: seq<Waiter>, wantType: Bytes) {
    exists i :: 0 <= i < |q| && q[i].wantType == wantType
  }

  class Registry {
    var queues: Queues<Waiter>
    var byId: map<nat, Waiter>
    var count: int

    ghost predicate Valid()
      reads this
    {
      Seated(queues, byId) && count == |byId|
    }

    constructor ()
      ensures Valid() && byId == map[]
    {
      queues, byId, count := map[], map[], 0;
    }

    /** Whether a waiter that could take the same value is queued on one of these keys. */
    method QueueAhead(wantType: Bytes, keys: seq<DbKey>) returns (ahead: bool)
      requires Valid()
      ensures ahead <==> exists i :: 0 <= i < |keys| && AnyOfType(Queue(queues, keys[i]), wantType)
    {
      hide NoEmptyQueue, Queue, AnyOfType;
      if count == 0 {
        forall k ensures !AnyOfType(Queue(queues, k), wantType) { EmptyRegistry(k, wantType); }
        return false;
      }
      for i := 0 to |keys|
        invariant forall j :: 0 <= j < i ==> !AnyOfType(Queue(queues, keys[j]), wantType)
      {
        var found := HasType(Queue(queues, keys[i]), wantType);
        if found { return true; }
      }
      return false;
    }

    lemma EmptyRegistry(k: DbKey, wantType: Bytes)
      requires Valid() && count == 0
      ensures !AnyOfType(Queue(queues, k), wantType)
    {
      assert byId == map[];
      var q := Queue(queues, k);
      assert SeatedAt(q, k, byId);
      assert |q| > 0 ==> Registered(byId, q[0]);
    }

    method Register(wt: Waiter)
      requires Valid() && wt.id !in byId
      modifies this
      ensures Valid() && byId == old(byId)[wt.id := wt]
      ensures forall k :: Queue(queues, k) == Queue(old(queues), k) + Copies(wt, multiset(wt.keys)[k])
    {
      hide Join, Seated, Queue, Copies;
      EmptyKeyList(queues, wt);
      for i := 0 to |wt.keys|
        invariant byId == old(byId) && count == old(count)
        invariant queues == Join(old(queues), wt.keys[..i], wt)
      {
        var k := wt.keys[i];
        JoinStep(old(queues), wt.keys, wt, i);
        queues := queues[k := Queue(queues, k) + [wt]];
      }
      assert wt.keys[..|wt.keys|] == wt.keys;
      SeatedAfterJoin(old(queues), byId, wt);
      byId := byId[wt.id := wt];
      count := count + 1;
    }

    method Unregister(wt: Waiter)
      requires Valid() && wt.id in byId && byId[wt.id] == wt
      modifies this
      ensures Valid() && byId == old(byId) - {wt.id}
      ensures forall k :: Queue(queues, k) == Without(Queue(old(queues), k), wt)
    {
      hide Leave, LeaveOne, Seated, Without, Queue;
      EmptyKeyList(queues, wt);
      for i := 0 to |wt.keys|
        invariant byId == old(byId) && count == old(count)
        invariant queues == Leave(old(queues), wt.keys[..i], wt)
      {
        var k := wt.keys[i];
        LeaveStep(old(queues), wt.keys, wt, i);
        queues := RemovedFrom(queues, k, wt);
      }
      assert wt.keys[..|wt.keys|] == wt.keys;
      SeatedAfterLeave(old(queues), byId, wt);
      byId := byId - {wt.id};
      count := count - 1;
    }

    /** Signals the earliest waiter of each key, and nobody else. */
    method WakeKeys(keys: seq<DbKey>)
      modifies Heads(queues, KeySet(keys))`ready
      ensures forall w :: w in Heads(queues, KeySet(keys)) ==> w.ready
    {
      var heads: seq<Waiter> := [];
      for i := 0 to |keys|
        invariant (set w | w in heads) == Heads(queues, KeySet(keys[..i]))
      {
        HeadsOfMore(queues, KeySet(keys[..i]), keys[i]);
        assert KeySet(keys[..i + 1]) == KeySet(keys[..i]) + {keys[i]};
        var q := Queue(queues, keys[i]);
        if |q| > 0 { heads := heads + [q[0]]; }
      }
      assert keys[..|keys|] == keys;
      for i := 0 to |heads|
        invariant forall w :: w in heads[..i] ==> w.ready
      {
        assert heads[i] in heads;
        heads[i].ready := true;
      }
      assert heads[..|heads|] == heads;
      assert forall w :: w in Heads(queues, KeySet(keys)) ==> w in heads;
    }

    /** Ends one wait from outside, unless an end is already on its way. */
    method UnblockClient(id: nat, message: Bytes) returns (found: bool)
      requires Valid()
      modifies byId.Values`forced
      ensures found <==> id in byId
      ensures forall w :: w in byId.Values ==>
                w.forced == if w.id == id && old(w.forced) == None then Some(message) else old(w.forced)
    {
      if id !in byId { return false; }
      var wt := byId[id];
      if wt.forced == None { wt.forced := Some(message); }
      return true;
    }
  }

  lemma JoinStep<T>(qs: Queues<T>, keys: seq<DbKey>, w: T, i: nat)
    requires i < |keys|
    ensures Join(qs, keys[..i + 1], w)
         == var before := Join(qs, keys[..i], w); before[keys[i] := Queue(before, keys[i]) + [w]]
  {
    assert keys[..i + 1][..i] == keys[..i];
  }

  lemma LeaveStep<T>(qs: Queues<T>, keys: seq<DbKey>, w: T, i: nat)
    requires i < |keys|
    ensures Leave(qs, keys[..i + 1], w) == LeaveOne(Leave(qs, keys[..i], w), keys[i], w)
  {
    assert keys[..i + 1][..i] == keys[..i];
  }

  lemma EmptyKeyList<T>(qs: Queues<T>, w: T)
    ensures Join(qs, [], w) == qs && Leave(qs, [], w) == qs
  {
  }

  method HasType(q: seq<Waiter>, wantType: Bytes) returns (found: bool)
    ensures found <==> AnyOfType(q, wantType)
  {
    for j := 0 to |q|
      invariant forall i :: 0 <= i < j ==> q[i].wantType != wantType
    {
      if q[j].wantType == wantType { return true; }
    }
    return false;
  }

  lemma {:induction false} RemoveFirstAt<T>(q: seq<T>, w: T, i: nat)
    requires i <= |q| && (forall j :: 0 <= j < i ==> q[j] != w) && (i < |q| ==> q[i] == w)
    ensures RemoveFirst(q, w) == q[..i] + if i < |q| then q[i + 1..] else []
  {
    if i == 0 {
    } else {
      RemoveFirstAt(q[1..], w, i - 1);
    }
  }

  /** The scan for a waiter in one queue, stopping at its first occurrence. */
  method RemovedFrom(qs: Queues<Waiter>, k: DbKey, wt: Waiter) returns (r: Queues<Waiter>)
    ensures r == LeaveOne(qs, k, wt)
  {
    hide RemoveFirst;
    var q := Queue(qs, k);
    var i := 0;
    while i < |q| && q[i] != wt
      invariant 0 <= i <= |q| && forall j :: 0 <= j < i ==> q[j] != wt
    {
      i := i + 1;
    }
    RemoveFirstAt(q, wt, i);
    if i < |q| {
      r := qs[k := q[..i] + q[i + 1..]];
    } else {
      assert q[..i] + [] == q;
      r := qs;
    }
    if Queue(r, k) == [] { r := r - {k}; }
  }
}
