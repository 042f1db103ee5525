/** DUMP payloads, RESTORE and MIGRATE: a key's value as checksummed bytes, its rebuilding in a
    scratch store, and its move to another node over a connection that may fail anywhere. */
module Dump {
  import opened Bytes
  import opened RespGrammar
  import opened RespReader
  import opened CommandCodec

  // ---- the payload --------------------------------------------------------------------

  const MAGIC: Bytes := [83, 72, 65, 82, 68, 75, 86, 49]  // "SHARDKV1"
  const VERSION: nat := 1
  const FOOTER: nat := 10

  type Word = w: int | 0 <= w < 0x1_0000_0000_0000_0000

  /** The checksum: any function of the bytes it covers. */
  type Checksum = Bytes -> Word

  function LittleEndian(x: nat, n: nat): (b: Bytes)
    ensures |b| == n
    decreases n
  {
    if n == 0 then [] else [x % 256] + LittleEndian(x / 256, n - 1)
  }

  function FromLittleEndian(b: Bytes): nat {
    if b == [] then 0 else b[0] + 256 * FromLittleEndian(b[1..])
  }

  function Power256(n: nat): nat { if n == 0 then 1 else 256 * Power256(n - 1) }

  lemma {:induction false} LittleEndianRoundTrip(x: nat, n: nat)
    requires x < Power256(n)
    ensures FromLittleEndian(LittleEndian(x, n)) == x
    decreases n
  {
    if n > 0 {
      LittleEndianRoundTrip(x / 256, n - 1);
      assert LittleEndian(x, n)[1..] == LittleEndian(x / 256, n - 1);
    }
  }

  lemma WordFits()
    ensures Power256(2) == 0x1_0000 && Power256(8) == 0x1_0000_0000_0000_0000
  {
    assert Power256(3) == 256 * Power256(2);
    assert Power256(4) == 256 * Power256(3);
    assert Power256(5) == 256 * Power256(4);
    assert Power256(6) == 256 * Power256(5);
    assert Power256(7) == 256 * Power256(6);
  }

  /** The covered part of a payload: magic, commands, version. */
  function Covered(cmds: seq<Command>): Bytes { MAGIC + EncodeAll(cmds) + LittleEndian(VERSION, 2) }

  function EncodePayload(cmds: seq<Command>, crc: Checksum): Bytes {
    Covered(cmds) + LittleEndian(crc(Covered(cmds)), 8)
  }

  function Prepended(done: seq<Command>, r: Option<seq<Command>>): Option<seq<Command>> {
    if r.None? then None else Some(done + r.value)
  }

  /** The commands of a body up to a clean end of input; any other ending refuses the whole. */
  function DecodeBody(s: Bytes, split: Splitter): Option<seq<Command>>
    decreases |s|
  {
    var p := ReadCommand(s, split);
    match p.result
    case Err(e) => if e == EOF then Some([]) else None
    case Ok(args) =>
      Prepended([args], DecodeBody(p.rest, split))
  }

  /** The framing a payload must have, whatever its body. */
  predicate WellFramed(payload: Bytes, crc: Checksum) {
    && |payload| >= |MAGIC| + FOOTER
    && payload[..|MAGIC|] == MAGIC
    && var footer := payload[|payload| - FOOTER..];
    && 0 < FromLittleEndian(footer[..2]) <= VERSION
    && crc(payload[..|payload| - 8]) == FromLittleEndian(footer[2..])
  }

  function DecodePayload(payload: Bytes, crc: Checksum, split: Splitter): Option<seq<Command>> {
    if !WellFramed(payload, crc) then None
    else
      match DecodeBody(payload[|MAGIC|..|payload| - FOOTER], split)
      case None => None
      case Some(cmds) => if cmds == [] then None else Some(cmds)
  }

  method EncodeDumpPayload(cmds: seq<Command>, crc: Checksum) returns (buf: Bytes)
    ensures buf == EncodePayload(cmds, crc)
  {
    hide EncodeAll, EncodeCommand, LittleEndian;
    NoFrames(MAGIC, cmds);
    buf := MAGIC;
    for i := 0 to |cmds|
      invariant buf == MAGIC + EncodeAll(cmds[..i])
    {
      var frame := EncodeCommandBytes(cmds[i]);
      FrameAppended(MAGIC, cmds, i);
      buf := buf + frame;
    }
    assert cmds[..|cmds|] == cmds;
    buf := buf + LittleEndian(VERSION, 2);
    buf := buf + LittleEndian(crc(buf), 8);
  }

  lemma NoFrames(head: Bytes, cmds: seq<Command>)
    ensures head + EncodeAll(cmds[..0]) == head
  {
  }

  lemma FrameAppended(head: Bytes, cmds: seq<Command>, i: nat)
    requires i < |cmds|
    ensures head + EncodeAll(cmds[..i]) + EncodeCommand(cmds[i]) == head + EncodeAll(cmds[..i + 1])
  {
    hide EncodeAll, EncodeCommand;
    EncodeAllAppend(cmds[..i], [cmds[i]]);
    EncodeOne(cmds[i]);
    assert cmds[..i + 1] == cmds[..i] + [cmds[i]];
  }

  method DecodeDumpPayload(payload: Bytes, crc: Checksum, split: Splitter, size: nat) returns (r: Option<seq<Command>>)
    requires 0 < size
    ensures r == DecodePayload(payload, crc, split)
  {
    hide FromLittleEndian, DecodeBody;
    if |payload| < |MAGIC| + FOOTER { return None; }
    if payload[..|MAGIC|] != MAGIC { return None; }
    var body := payload[|MAGIC|..|payload| - FOOTER];
    var footer := payload[|payload| - FOOTER..];
    var v := FromLittleEndian(footer[..2]);
    if v == 0 || v > VERSION { return None; }
    var want := FromLittleEndian(footer[2..]);
    if crc(payload[..|payload| - 8]) != want { return None; }
    r := ReadBody(body, split, size);
    if r.Some? && |r.value| == 0 { return None; }
  }

  method ReadBody(body: Bytes, split: Splitter, size: nat) returns (res: Option<seq<Command>>)
    requires 0 < size
    ensures res == DecodeBody(body, split)
  {
    hide ReadCommand, ReadsAs, DecodeBody, Prepended;
    var r := new Reader(body, split, size);
    var cmds: seq<Command> := [];
    PrependedMore([], [], DecodeBody(body, split));
    while true
      invariant r.Valid() && fresh(r) && r.split == split
      invariant DecodeBody(body, split) == Prepended(cmds, DecodeBody(r.input, split))
      decreases |r.input|
    {
      ghost var before := r.input;
      var c := r.ReadCommand();
      BodyStep(before, split, c, r.input);
      PrependedMore(cmds, if c.Ok? then c.value else [], DecodeBody(r.input, split));
      if c == Err(EOF) { return Some(cmds); }
      if c.Err? || |c.value| == 0 { return None; }
      cmds := cmds + [c.value];
    }
  }

  lemma BodyStep(before: Bytes, split: Splitter, c: Result<Command>, after: Bytes)
    requires ReadCommand(before, split).result == c && ReadCommand(before, split).rest == after
    ensures c.Err? ==> DecodeBody(before, split) == if c.error == EOF then Some([]) else None
    ensures c.Ok? ==> c.value != [] && |after| < |before|
    ensures c.Ok? ==> DecodeBody(before, split) == Prepended([c.value], DecodeBody(after, split))
  {
    hide ReadCommand;
  }

  lemma PrependedMore(done: seq<Command>, c: Command, r: Option<seq<Command>>)
    ensures Prepended(done, Prepended([c], r)) == Prepended(done + [c], r)
    ensures Prepended(done, Some([])) == Some(done)
    ensures Prepended([], r) == r && Prepended(done, None) == None
  {
    assert done + [] == done;
    if r.Some? {
      assert done + ([c] + r.value) == done + [c] + r.value;
      assert [] + r.value == r.value;
    }
  }

  lemma {:induction false} BodyRoundTrip(cmds: seq<Command>, split: Splitter)
    requires AllSendable(cmds)
    ensures DecodeBody(EncodeAll(cmds), split) == Some(cmds)
    decreases |cmds|
  {
    hide ReadCommand, EncodeCommand;
    if cmds == [] {
      ReadCommandOfNothing(split);
    } else {
      CommandRoundTrip(cmds[0], EncodeAll(cmds[1..]), split);
      BodyRoundTrip(cmds[1..], split);
      assert [cmds[0]] + cmds[1..] == cmds;
    }
  }

  /** Of a body cut off anywhere the whole commands are accepted, and the cut goes unnoticed, unless it
      is inside an argument: then everything is refused. */
  lemma {:induction false} TruncatedBody(cmds: seq<Command>, cut: Bytes, split: Splitter)
    requires AllSendable(cmds) && cut <= EncodeAll(cmds)
    ensures var k := CompleteIn(cmds, |cut|);
            |EncodeAll(cmds[..k])| <= |cut| &&
            DecodeBody(cut, split)
            == if k < |cmds| && CutError(cmds[k], |cut| - |EncodeAll(cmds[..k])|) == UnexpectedEOF
               then None else Some(cmds[..k])
    decreases |cmds|
  {
    hide ReadCommand, EncodeCommand, CutError;
    CompleteInIsMaximal(cmds, |cut|);
    if cmds == [] {
      ReadCommandOfNothing(split);
    } else {
      var first, rest := EncodeCommand(cmds[0]), cmds[1..];
      if |cut| < |first| {
        assert cut == EncodeAll(cmds)[..|cut|] == first[..|cut|];
        CutCommandEndsInput(cmds[0], cut, split);
        assert cmds[..0] == [];
      } else {
        var more := cut[|first|..];
        assert cut == first + more;
        CommandRoundTrip(cmds[0], more, split);
        TruncatedBody(rest, more, split);
        BodyStep(cut, split, Ok(cmds[0]), more);
        hide DecodeBody;
        var j := CompleteIn(rest, |more|);
        assert cmds[..j + 1] == [cmds[0]] + rest[..j] && cmds[..j + 1][1..] == rest[..j];
      }
    }
  }

  /** A payload of a key's constructor commands decodes to exactly those commands, under any
      checksum. */
  lemma PayloadRoundTrip(cmds: seq<Command>, crc: Checksum, split: Splitter)
    requires AllSendable(cmds) && cmds != []
    ensures DecodePayload(EncodePayload(cmds, crc), crc, split) == Some(cmds)
  {
    hide EncodeAll, LittleEndian, FromLittleEndian, DecodeBody, Power256;
    var covered, body := Covered(cmds), EncodeAll(cmds);
    var version, sum := LittleEndian(VERSION, 2), LittleEndian(crc(covered), 8);
    var payload := EncodePayload(cmds, crc);
    assert payload == MAGIC + body + version + sum;
    assert payload[..|payload| - 8] == covered;
    assert payload[..|MAGIC|] == MAGIC;
    var footer := payload[|payload| - FOOTER..];
    assert footer == version + sum;
    assert footer[..2] == version && footer[2..] == sum;
    WordFits();
    LittleEndianRoundTrip(VERSION, 2);
    LittleEndianRoundTrip(crc(covered), 8);
    assert payload[|MAGIC|..|payload| - FOOTER] == body;
    BodyRoundTrip(cmds, split);
  }

  // ---- RESTORE: rebuild in a scratch store, then adopt the finished key -----------------

  datatype Applied = Applied(store: Store, failed: bool)

  /** What the command table and the store supply: the handler of a well-formed command, the upper
      casing of a name, and the constructor commands of a value. */
  datatype Handlers = Handlers(
    apply: (Store, Command) -> Applied,
    known: Command -> bool,
    upper: Bytes -> Bytes,
    dump: (Key, Val) -> seq<Command>)

  const SET: Bytes := [83, 69, 84]
  const RPUSH: Bytes := [82, 80, 85, 83, 72]
  const HSET: Bytes := [72, 83, 69, 84]
  const SADD: Bytes := [83, 65, 68, 68]
  const ZADD: Bytes := [90, 65, 68, 68]
  const XADD: Bytes := [88, 65, 68, 68]
  const XSETID: Bytes := [88, 83, 69, 84, 73, 68]
  const XCLAIM: Bytes := [88, 67, 76, 65, 73, 77]
  const XGROUP: Bytes := [88, 71, 82, 79, 85, 80]

  /** Where each constructor a payload may carry names its key. */
  function KeyPosition(name: Bytes): Option<nat> {
    if name in {SET, RPUSH, HSET, SADD, ZADD, XADD, XSETID, XCLAIM} then Some(1)
    else if name == XGROUP then Some(2)
    else None
  }

  predicate Allowed(h: Handlers, cmd: Command) {
    && cmd != []
    && KeyPosition(h.upper(cmd[0])).Some?
    && KeyPosition(h.upper(cmd[0])).value < |cmd|
    && h.known(cmd)
  }

  /** The command with its key replaced by the one RESTORE named. */
  function Retargeted(h: Handlers, cmd: Command, key: Key): Command
    requires Allowed(h, cmd)
  {
    cmd[KeyPosition(h.upper(cmd[0])).value := key]
  }

  /** The scratch store after the commands, or nothing when one is not allowed or fails. */
  function Build(h: Handlers, key: Key, cmds: seq<Command>): Option<Store> {
    if cmds == [] then Some(map[])
    else
      var last := cmds[|cmds| - 1];
      match Build(h, key, cmds[..|cmds| - 1])
      case None => None
      case Some(scratch) =>
        if !Allowed(h, last) then None
        else
          var a := h.apply(scratch, Retargeted(h, last, key));
          if a.failed then None else Some(a.store)
  }

  /** The value a payload's commands build under a key, if they build one. */
  function Rebuilt(h: Handlers, key: Key, cmds: seq<Command>): Option<Val> {
    match Build(h, key, cmds)
    case None => None
    case Some(scratch) => if key in scratch then Some(scratch[key]) else None
  }

  lemma BuildStops(h: Handlers, key: Key, cmds: seq<Command>, i: nat)
    requires i <= |cmds| && Build(h, key, cmds[..i]) == None
    ensures Build(h, key, cmds) == None
    decreases |cmds| - i
  {
    if i == |cmds| {
      assert cmds[..i] == cmds;
    } else {
      assert cmds[..i + 1][..i] == cmds[..i];
      BuildStops(h, key, cmds, i + 1);
    }
  }

  datatype RestoreReply = Restored | BusyKey | BadPayload | BadData

  /** The stored result of RESTORE, from the store before it. */
  function Restoring(st: Store, h: Handlers, crc: Checksum, split: Splitter, key: Key, payload: Bytes, replace: bool)
    : (RestoreReply, Store)
  {
    if key in st && !replace then (BusyKey, st)
    else
      match DecodePayload(payload, crc, split)
      case None => (BadPayload, st)
      case Some(cmds) =>
        match Rebuilt(h, key, cmds)
        case None => (BadData, st)
        case Some(v) => (Restored, st[key := v])
  }

  /** RESTORE of any payload, well formed or not, changes nothing or only the key it names. */
  lemma RestoreTouchesOneKey(st: Store, h: Handlers, crc: Checksum, split: Splitter, key: Key, payload: Bytes,
                             replace: bool)
    ensures var (reply, after) := Restoring(st, h, crc, split, key, payload, replace);
            && (reply != Restored ==> after == st)
            && after - {key} == st - {key}
            && (reply == Restored ==> key in after && (key in st ==> replace))
  {
    hide DecodePayload, Rebuilt;
  }

  /** Constructor commands that rebuild a value under its key. */
  predicate Rebuilds(h: Handlers, key: Key, cmds: seq<Command>, v: Val) {
    cmds != [] && AllSendable(cmds) && Rebuilt(h, key, cmds) == Some(v)
  }

  /** RESTORE of a DUMP payload puts the dumped value under the key. */
  lemma DumpThenRestore(st: Store, h: Handlers, crc: Checksum, split: Splitter, key: Key, cmds: seq<Command>, v: Val,
                        replace: bool)
    requires Rebuilds(h, key, cmds, v)
    ensures Restoring(st, h, crc, split, key, EncodePayload(cmds, crc), replace)
         == if key in st && !replace then (BusyKey, st) else (Restored, st[key := v])
  {
    hide DecodePayload, EncodePayload, Rebuilt, AllSendable;
    PayloadRoundTrip(cmds, crc, split);
  }

  class Database {
    var store: Store
    const h: Handlers
    const crc: Checksum
    const split: Splitter

    constructor (h: Handlers, crc: Checksum, split: Splitter)
      ensures store == map[] && this.h == h && this.crc == crc && this.split == split
    {
      this.store, this.h, this.crc, this.split := map[], h, crc, split;
    }

    method RestoreKey(key: Key, cmds: seq<Command>, replace: bool) returns (r: RestoreReply)
      modifies this
      ensures r == match Rebuilt(h, key, cmds)
                   case None => BadData
                   case Some(_) => if key in old(store) && !replace then BusyKey else Restored
      ensures store == if r == Restored then old(store)[key := Rebuilt(h, key, cmds).value] else old(store)
    {
      var built := Rebuild(key, cmds);
      if built.None? { return BadData; }
      if key in store && !replace { return BusyKey; }
      store := store[key := built.value];
      return Restored;
    }

    method Rebuild(key: Key, cmds: seq<Command>) returns (r: Option<Val>)
      ensures r == Rebuilt(h, key, cmds)
    {
      hide Allowed, Retargeted;
      var scratch: Store := map[];
      for i := 0 to |cmds|
        invariant Build(h, key, cmds[..i]) == Some(scratch)
      {
        assert cmds[..i + 1][..i] == cmds[..i];
        if !Allowed(h, cmds[i]) { BuildStops(h, key, cmds, i + 1); return None; }
        var a := h.apply(scratch, Retargeted(h, cmds[i], key));
        if a.failed { BuildStops(h, key, cmds, i + 1); return None; }
        scratch := a.store;
      }
      assert cmds[..|cmds|] == cmds;
      return if key in scratch then Some(scratch[key]) else None;
    }

    method Restore(key: Key, payload: Bytes, replace: bool) returns (r: RestoreReply)
      modifies this
      ensures (r, store) == Restoring(old(store), h, crc, split, key, payload, replace)
    {
      hide DecodePayload, Rebuilt;
      if !replace && key in store { return BusyKey; }
      var cmds := DecodeDumpPayload(payload, crc, split, 1);
      if cmds.None? { return BadPayload; }
      r := RestoreKey(key, cmds.value, replace);
    }
  }

  // ---- MIGRATE ------------------------------------------------------------------------

  /** What the network does to one command sent to the destination: it never arrives, it is carried
      out but its reply is lost, or it is carried out and answered. */
  datatype Fate = NeverArrives | ReplyLost | Answered

  datatype MigrateReply = NoKey | Moved | Failed

  /** The keys of a list that a store holds, in the list's order. */
  function Present(st: Store, keys: seq<Key>): (r: seq<Key>)
    ensures forall k :: k in r <==> k in keys && k in st
  {
    if keys == [] then []
    else
      var last := keys[|keys| - 1];
      Present(st, keys[..|keys| - 1]) + if last in st then [last] else []
  }

  datatype Payload = Payload(key: Key, body: Bytes)

  /** The payloads of these keys, as this node would dump them now. */
  predicate PayloadsOf(ps: seq<Payload>, ks: seq<Key>, st: Store, h: Handlers, crc: Checksum) {
    && |ps| == |ks|
    && forall i :: 0 <= i < |ps| ==>
         ps[i].key == ks[i] && ks[i] in st && ps[i].body == EncodePayload(h.dump(ks[i], st[ks[i]]), crc)
  }

  method Payloads(src: Database, keys: seq<Key>) returns (ps: seq<Payload>)
    ensures PayloadsOf(ps, Present(src.store, keys), src.store, src.h, src.crc)
  {
    hide EncodePayload;
    ps := [];
    for i := 0 to |keys|
      invariant PayloadsOf(ps, Present(src.store, keys[..i]), src.store, src.h, src.crc)
    {
      assert keys[..i + 1][..i] == keys[..i];
      if keys[i] in src.store {
        var body := EncodeDumpPayload(src.h.dump(keys[i], src.store[keys[i]]), src.crc);
        ps := ps + [Payload(keys[i], body)];
      }
    }
    assert keys[..|keys|] == keys;
  }

  /** The destination can rebuild every key this node would send it. */
  predicate Portable(src: Store, dump: (Key, Val) -> seq<Command>, dst: Handlers) {
    forall k :: k in src ==> Rebuilds(dst, k, dump(k, src[k]), src[k])
  }

  /** The destination's store once these keys have arrived from the source. */
  function Arrived(dst: Store, src: Store, ks: seq<Key>): Store { dst + Restrict(src, ks) }

  lemma OneMoreArrives(dst: Store, src: Store, ks: seq<Key>, k: Key)
    requires k in src
    ensures Arrived(dst, src, ks)[k := src[k]] == Arrived(dst, src, ks + [k])
    ensures k !in Arrived(dst, src, ks) ==> k !in dst
  {
  }

  /** The exchange with the destination: ASKING and RESTORE for each payload in turn, until one is
      refused or the connection fails. The payloads were taken from `st`, which may be the
      destination's own store. */
  method Ship(dst: Database, ps: seq<Payload>, replace: bool, asking: nat -> Fate, restoring: nat -> Fate,
              ghost st: Store, ghost ks: seq<Key>, ghost from: Handlers)
    returns (ok: bool, moved: seq<Key>, doubt: seq<Key>)
    requires PayloadsOf(ps, ks, st, from, dst.crc) && Portable(st, from.dump, dst.h)
    modifies dst
    ensures moved + doubt <= ks && |doubt| <= 1
    ensures dst.store == Arrived(old(dst.store), st, moved + doubt)
    ensures !replace ==> forall k :: k in moved + doubt ==> k !in old(dst.store)
    ensures ok ==> moved == ks && doubt == []
    ensures ks != [] ==>
              (moved != [] <==>
                 asking(0) == Answered && restoring(0) == Answered && (replace || ks[0] !in old(dst.store)))
  {
    hide Portable, Restoring, EncodePayload, Arrived;
    moved, doubt := [], [];
    NothingArrives(dst.store, st);
    for i := 0 to |ps|
      invariant moved == ks[..i]
      invariant dst.store == Arrived(old(dst.store), st, moved)
      invariant !replace ==> forall k :: k in moved ==> k !in old(dst.store)
      invariant i > 0 ==> asking(0) == Answered && restoring(0) == Answered && (replace || ks[0] !in old(dst.store))
    {
      assert moved + [] == moved;
      NothingArrives(old(dst.store), st);
      if asking(i) != Answered { return false, moved, []; }
      if restoring(i) == NeverArrives { return false, moved, []; }
      var k := ps[i].key;
      ArrivalOf(dst.store, st, from.dump, dst.h, dst.crc, dst.split, k, replace);
      OneMoreArrives(old(dst.store), st, moved, k);
      var r := dst.Restore(ps[i].key, ps[i].body, replace);
      assert ks[..i] + [k] == ks[..i + 1];
      if restoring(i) == ReplyLost { return false, moved, if r == Restored then [k] else []; }
      if r != Restored { return false, moved, []; }
      moved := moved + [ps[i].key];
    }
    assert moved + [] == moved;
    return true, moved, [];
  }

  lemma NothingArrives(dst: Store, src: Store)
    ensures Arrived(dst, src, []) == dst
  {
  }

  lemma ArrivalOf(st: Store, src: Store, dump: (Key, Val) -> seq<Command>, h: Handlers, crc: Checksum, split: Splitter,
                  k: Key, replace: bool)
    requires Portable(src, dump, h) && k in src
    ensures Restoring(st, h, crc, split, k, EncodePayload(dump(k, src[k]), crc), replace)
         == if k in st && !replace then (BusyKey, st) else (Restored, st[k := src[k]])
  {
    hide Restoring, EncodePayload, Rebuilds;
    DumpThenRestore(st, h, crc, split, k, dump(k, src[k]), src[k], replace);
  }

  /** Every value that was in a store is in one of two. */
  ghost predicate NothingLost(before: Store, src: Store, dst: Store) {
    forall k :: k in before ==> (k in src && src[k] == before[k]) || (k in dst && dst[k] == before[k])
  }

  /** The first key sent is restored and acknowledged. */
  predicate FirstArrives(ks: seq<Key>, replace: bool, connected: bool, asking: nat -> Fate, restoring: nat -> Fate,
                         dst: Store)
  {
    connected && ks != [] && asking(0) == Answered && restoring(0) == Answered && (replace || ks[0] !in dst)
  }

  /** MIGRATE, with the destination's answers and the network's failures as they come: `connected`
      covers the dial, AUTH and SELECT, and `asking` and `restoring` give the fate of the two
      commands sent for each payload. `doubt` is the key, if any, that arrived unacknowledged.
      Nothing stops the destination from being the source itself. */
  method Migrate(src: Database, dst: Database, keys: seq<Key>, copying: bool, replace: bool,
                 connected: bool, asking: nat -> Fate, restoring: nat -> Fate)
    returns (reply: MigrateReply, moved: seq<Key>, doubt: seq<Key>)
    requires dst.crc == src.crc && Portable(src.store, src.h.dump, dst.h)
    modifies src, dst
    // Every value that was here is here still or at the destination, unless a key was moved onto
    // itself and then deleted.
    ensures NothingLost(old(src.store), src.store, dst.store) <==>
            !(src == dst && !copying
              && FirstArrives(Present(old(src.store), keys), replace, connected, asking, restoring, old(dst.store)))
    // What left is what was acknowledged; what arrived is that and at most one key in doubt.
    ensures src.store == if copying then old(src.store) else old(src.store) - (set k | k in moved)
    ensures src != dst ==> dst.store == Arrived(old(dst.store), old(src.store), moved + doubt)
    ensures src != dst ==> old(dst.store).Keys <= dst.store.Keys
    ensures moved + doubt <= Present(old(src.store), keys) && |doubt| <= 1
    ensures !replace ==> forall k :: k in moved + doubt ==> k !in old(dst.store)
    ensures reply == NoKey <==> forall k :: k in keys ==> k !in old(src.store)
    ensures reply == Moved ==> moved == Present(old(src.store), keys) && doubt == []
  {
    hide Portable, EncodePayload, Present;
    ghost var st, ks := src.store, Present(src.store, keys);
    var ps := Payloads(src, keys);
    if ps == [] {
      NothingArrives(dst.store, st);
      assert ks == [];
      return NoKey, [], [];
    }
    assert ks[0] in ks;
    if !connected {
      NothingArrives(dst.store, st);
      return Failed, [], [];
    }
    var ok;
    ok, moved, doubt := Ship(dst, ps, replace, asking, restoring, st, ks, src.h);
    MovedKeysArrived(old(dst.store), st, moved, doubt, ks);
    OntoItself(st, moved + doubt);
    if !copying { src.store := src.store - (set k | k in moved); }
    assert moved != [] ==> moved[0] == ks[0] && moved[0] in moved;
    return if ok then Moved else Failed, moved, doubt;
  }

  /** Keys restored over themselves leave a store as it was. */
  lemma OntoItself(st: Store, ks: seq<Key>)
    ensures Arrived(st, st, ks) == st
  {
  }

  lemma MovedKeysArrived(dst: Store, src: Store, moved: seq<Key>, doubt: seq<Key>, ks: seq<Key>)
    requires moved + doubt <= ks && forall k :: k in ks ==> k in src
    ensures dst.Keys <= Arrived(dst, src, moved + doubt).Keys
    ensures forall k :: k in moved ==>
              k in src && k in Arrived(dst, src, moved + doubt) && Arrived(dst, src, moved + doubt)[k] == src[k]
  {
    assert forall k :: k in moved ==> k in moved + doubt;
    assert ks == moved + doubt + ks[|moved + doubt|..];
    assert forall k :: k in moved + doubt ==> k in ks;
  }

  /** MIGRATE with REPLACE to the node's own address: the key is restored over itself, acknowledged,
      and deleted, and is then nowhere. */
  method MigrateToItself(db: Database, k: Key) returns (reply: MigrateReply)
    requires k in db.store && Portable(db.store, db.h.dump, db.h)
    modifies db
    ensures db.store == old(db.store) - {k}
  {
    hide Portable;
    assert [k][..0] == [] && Present(db.store, []) == [];
    assert Present(db.store, [k]) == [k];
    var moved, doubt;
    reply, moved, doubt := Migrate(db, db, [k], false, true, true, _ => Answered, _ => Answered);
    assert moved != [];
    assert moved == [k];
    assert (set x | x in moved) == {k};
  }
}
