/** The append-only log: a buffered file of encoded commands, its growth accounting, compacting
    rewrites that may fail at any stage, and what a crash can leave of it. */
module AofLog {
  import opened Bytes
  import opened RespGrammar
  import opened RespReader
  import opened CommandCodec

  datatype SyncPolicy = EverySec | Always | Never

  /** A file as a crash sees it: any prefix that keeps the synced part may remain. */
  datatype Image = Image(content: Bytes, synced: nat)

  ghost predicate CrashOf(img: Image, disk: Bytes) {
    disk <= img.content && |disk| >= img.synced
  }

  /** How far a rewrite gets: a failure before the rename leaves the file in place; past it, the
      directory may or may not reach the disk, and the new file may or may not open again. */
  datatype RewriteFate = Fails(at: nat) | Renamed(dirSynced: bool, reopened: bool)

  /** The log's own account of its file: the bytes it began with, the records it accepted since,
      and the cut-off piece of a lost record that a failed write may have left behind them. */
  datatype Account = Account(base: Bytes, records: seq<Command>, lost: Command, torn: Bytes)

  ghost predicate ValidAccount(a: Account) {
    && AllSendable(a.records)
    && (a.torn != [] ==> Sendable(a.lost) && a.torn < EncodeCommand(a.lost))
  }

  ghost function Accepted(a: Account): Bytes { a.base + EncodeAll(a.records) }

  ghost function Contents(a: Account): Bytes { Accepted(a) + a.torn }

  function NewAccount(base: Bytes): Account { Account(base, [], [], []) }

  lemma NewAccountHolds(base: Bytes)
    ensures var a := NewAccount(base); ValidAccount(a) && Accepted(a) == Contents(a) == base
  {
  }

  function WithRecord(a: Account, args: Command): Account { a.(records := a.records + [args]) }

  lemma AcceptedMore(a: Account, args: Command)
    ensures Accepted(WithRecord(a, args)) == Accepted(a) + EncodeCommand(args)
  {
    hide EncodeCommand;
    EncodeAllAppend(a.records, [args]);
    EncodeOne(args);
  }

  /** A record that made it into the log whole keeps the account; one cut off becomes torn. */
  lemma AccountAfterWrite(a: Account, args: Command, taken: nat)
    requires ValidAccount(a) && a.torn == [] && Sendable(args) && taken <= |EncodeCommand(args)|
    ensures var cut := EncodeCommand(args)[..taken];
            var a' := if taken == |EncodeCommand(args)| then WithRecord(a, args) else a.(lost := args, torn := cut);
            ValidAccount(a') && Contents(a') == Contents(a) + cut
  {
    hide EncodeCommand, EncodeAll, Sendable;
    AcceptedMore(a, args);
    assert EncodeCommand(args)[..|EncodeCommand(args)|] == EncodeCommand(args);
  }

  /** A file after part of a buffer was flushed into it. */
  ghost function Extended(file: Bytes, pending: Bytes, k: nat): (r: Bytes)
    requires k <= |pending|
    ensures file <= r <= file + pending
  {
    assert file + pending[..k] == (file + pending)[..|file| + k];
    file + pending[..k]
  }

  class Log {
    var file: Bytes      // the file at the log's path, as far as it has been written
    var synced: nat      // how much of it is durable
    var pending: Bytes   // what the buffered writer still holds
    var broken: bool     // a write failed; the buffered writer refuses every later one
    var policy: SyncPolicy
    var closed: bool
    var size: nat
    var baseSize: nat
    ghost var account: Account
    ghost var stale: seq<Image>  // what a crash could bring back instead: every file whose replacement,
                                 // or creation, the directory is not known to have on disk

    ghost predicate Valid()
      reads this
    {
      && ValidAccount(account)
      && |account.base| <= synced <= |file|
      && (account.torn != [] ==> broken)
      && (closed ==> file <= Contents(account))
      && (!closed ==>
            && file + pending == Contents(account)
            && size == |Accepted(account)|
            && |account.base| <= baseSize <= size)
    }

    /** A log opened on a file takes what it finds, whole or cut off, as its base. Opening may create
        the file, and does not sync the directory. */
    constructor (content: Bytes, policy: SyncPolicy, created: bool)
      requires created ==> content == []
      ensures Valid() && !closed && !broken && file == content && this.policy == policy
      ensures account == NewAccount(content) && stale == if created then [Image([], 0)] else []
      ensures baseSize == size == |content|
    {
      file, synced, pending, broken, closed := content, |content|, [], false, false;
      size, baseSize := |content|, |content|;
      this.policy := policy;
      account, stale := NewAccount(content), if created then [Image([], 0)] else [];
      new;
      NewAccountHolds(content);
    }

    /** A log opened again by a new process on the same machine: the file is there in full, but no more
        of it is durable than was, and a file that could come back still can. */
    constructor Reopen(content: Bytes, synced: nat, policy: SyncPolicy, ghost a: Account, ghost stale: seq<Image>)
      requires ValidAccount(a) && a.torn == [] && content == Contents(a) && |a.base| <= synced <= |content|
      ensures Valid() && !closed && !broken && file == content && this.synced == synced && this.policy == policy
      ensures account == a && this.stale == stale && baseSize == size == |content|
    {
      file, this.synced, pending, broken, closed := content, synced, [], false, false;
      size, baseSize := |content|, |content|;
      this.policy := policy;
      account, this.stale := a, stale;
    }

    /** The buffered writer taking b, and draining any part of its buffer to the file on the way. A
        failed drain leaves it holding what it could not write and refusing everything after. */
    method Put(b: Bytes, sound: bool) returns (taken: nat)
      requires !broken
      modifies this`file, this`pending, this`broken
      ensures taken <= |b| && file + pending == old(file + pending) + b[..taken]
      ensures |file| >= |old(file)| && broken == (taken < |b|) && (sound ==> !broken)
    {
      taken :| 0 <= taken <= |b| && (sound ==> taken == |b|);
      broken := taken < |b|;
      ghost var all := file + pending + b[..taken];
      pending := pending + b[..taken];
      var drained: nat :| drained <= |pending|;
      file := file + pending[..drained];
      pending := pending[drained..];
      assert file + pending == all;
    }

    /** Writing the buffer out, all of it or, on an error, only some. */
    method Drain(sound: bool) returns (ok: bool)
      modifies this`file, this`pending, this`broken
      ensures file + pending == old(file + pending) && |file| >= |old(file)|
      ensures sound && !old(broken) ==> ok
      ensures ok ==> pending == [] && !old(broken)
      ensures broken == (old(broken) || !ok)
    {
      if broken { return false; }
      var drained: nat :| drained <= |pending| && (sound ==> drained == |pending|);
      ghost var all := file + pending;
      file := file + pending[..drained];
      pending := pending[drained..];
      assert file + pending == all;
      ok := pending == [];
      broken := !ok;
    }

    method Sync(sound: bool) returns (ok: bool)
      modifies this`synced
      ensures synced == (if ok then |file| else old(synced)) && (sound ==> ok)
    {
      ok :| sound ==> ok;
      if ok { synced := |file|; }
    }

    /** One record. Success means the log accepted it; under Always it also means that nothing the
        log has accepted can be lost from its file any more. A closed log reports success and keeps
        nothing. `sound` says that no call to the disk fails. */
    method Append(args: Command, sound: bool) returns (ok: bool)
      requires Valid() && Sendable(args)
      modifies this`file, this`pending, this`broken, this`synced, this`size, this`account
      ensures Valid()
      ensures closed ==> ok && unchanged(this)
      ensures !closed && ok ==> account == WithRecord(old(account), args)
      ensures !closed && ok && policy.Always? ==> synced == |file| == |Contents(account)| && !broken
      ensures !closed && !ok ==> account.records == old(account.records) || account == WithRecord(old(account), args)
      ensures !closed && !broken ==> account == WithRecord(old(account), args)
      ensures account.base == old(account.base) && |file| >= |old(file)| && synced >= old(synced)
      ensures old(broken) ==> (closed || !ok) && broken && account == old(account)
      ensures sound && !old(broken) ==> ok
    {
      hide EncodeCommand, EncodeAll, Sendable;
      if closed { return true; }
      if broken { return false; }
      var frame := EncodeCommand(args);
      var taken := Put(frame, sound);
      AccountAfterWrite(account, args, taken);
      AcceptedMore(account, args);
      if taken < |frame| {
        account := account.(lost := args, torn := frame[..taken]);
        return false;
      }
      account := WithRecord(account, args);
      var n := CommandSize(args);
      size := size + n;
      if policy.Always? {
        ok := Drain(sound);
        if !ok { return false; }
        assert file + pending == file;
        ok := Sync(sound);
        return;
      }
      return true;
    }

    /** The once-a-second flush, and the explicit one at shutdown. */
    method Flush() returns (ok: bool)
      requires Valid()
      modifies this`file, this`pending, this`broken, this`synced
      ensures Valid() && |file| >= |old(file)| && synced >= old(synced)
      ensures closed ==> ok && unchanged(this)
      ensures !closed && ok ==> synced == |file| == |Contents(account)|
      ensures !broken ==> !old(broken)
    {
      hide EncodeCommand, EncodeAll, Sendable;
      if closed { return true; }
      ok := Drain(false);
      if !ok { return false; }
      assert file + pending == file;
      ok := Sync(false);
    }

    method Close() returns (ok: bool)
      requires Valid()
      modifies this`file, this`pending, this`broken, this`synced, this`closed
      ensures Valid() && closed && |file| >= |old(file)| && synced >= old(synced)
      ensures !old(closed) && ok ==> synced == |file| == |Contents(account)|
    {
      hide EncodeCommand, EncodeAll, Sendable;
      if closed { return true; }
      closed := true;
      var drained := Drain(false);
      assert file <= file + pending;
      assert drained ==> file + pending == file;
      var done := Sync(false);
      ok := drained && done;
    }

    /** Replacing the history by a snapshot: the temporary file, the rename, the reopening. Any
        failure up to the rename leaves the log as it was; a failure to reopen leaves the snapshot
        in place and closes the log, after a last flush of the old buffer into the old file. The
        sync of the directory may fail unnoticed, and then the old file may come back. */
    method Rewrite(snapshot: seq<Command>, fate: RewriteFate) returns (ok: bool)
      requires Valid() && AllSendable(snapshot)
      modifies this
      ensures Valid() && policy == old(policy)
      ensures old(closed) ==> ok && unchanged(this)
      ensures !old(closed) ==> ok == (fate.Renamed? && fate.reopened) && closed == (fate.Renamed? && !fate.reopened)
      ensures !old(closed) && fate.Fails? ==> unchanged(this)
      ensures ok && !old(closed) ==> !broken && pending == [] && baseSize == size == |file|
      ensures !old(closed) && fate.Renamed? ==>
                account == NewAccount(EncodeAll(snapshot)) && file == EncodeAll(snapshot) && synced == |file|
      ensures !old(closed) && fate.Renamed? && fate.dirSynced ==> stale == []
      ensures !old(closed) && fate.Renamed? && !fate.dirSynced ==>
                && |stale| == |old(stale)| + 1 && stale[..|old(stale)|] == old(stale)
                && var img := stale[|old(stale)|];
                && old(file) <= img.content <= old(file + pending) && img.synced == old(synced)
    {
      hide EncodeAll, Sendable, ValidAccount, Accepted, Contents, Extended;
      if closed { return true; }
      var temp, written, whole := WriteSnapshot(snapshot, fate);
      if !whole { return false; }
      var flushed: nat :| flushed <= |pending| && (fate.reopened ==> flushed == 0);
      stale := if fate.dirSynced then [] else stale + [Image(Extended(file, pending, flushed), synced)];
      file, synced, pending := temp, |temp|, [];
      account := NewAccount(temp);
      NewAccountHolds(temp);
      if !fate.reopened {
        closed := true;
        return false;
      }
      broken := false;
      size, baseSize := written, written;
      return true;
    }
  }

  /** The temporary file of a rewrite; its writing may fail at any command, or after the last one. */
  method WriteSnapshot(snapshot: seq<Command>, fate: RewriteFate) returns (temp: Bytes, written: nat, ok: bool)
    ensures ok == fate.Renamed?
    ensures ok ==> temp == EncodeAll(snapshot) && written == |temp|
  {
    hide EncodeCommand;
    temp, written := [], 0;
    for i := 0 to |snapshot|
      invariant temp == EncodeAll(snapshot[..i]) && written == |temp|
    {
      if fate.Fails? && fate.at == i { return temp, written, false; }
      temp := temp + EncodeCommand(snapshot[i]);
      EncodeAllAppend(snapshot[..i], [snapshot[i]]);
      EncodeOne(snapshot[i]);
      assert snapshot[..i + 1] == snapshot[..i] + [snapshot[i]];
      var n := CommandSize(snapshot[i]);
      written := written + n;
    }
    assert snapshot[..|snapshot|] == snapshot;
    return temp, written, fate.Renamed?;  // else the flush, the fsync or the rename failed
  }

  // ---- replay -------------------------------------------------------------------------

  /** The replay of a file at startup. */
  method Load(content: Bytes, split: Splitter, size: nat) returns (cmds: seq<Command>)
    requires 0 < size
    ensures cmds == ReadAll(content, split)
  {
    hide ReadCommand, RespReader.ReadsAs;
    var r := new Reader(content, split, size);
    cmds := [];
    while true
      invariant r.Valid() && fresh(r) && r.split == split
      invariant ReadAll(content, split) == cmds + ReadAll(r.input, split)
      decreases |r.input|
    {
      ghost var before := r.input;
      var res := r.ReadCommand();
      ReadAllStep(before, split, res, r.input);
      if res.Err? {
        assert cmds + [] == cmds;
        break;
      }
      if |res.value| > 0 { cmds := cmds + [res.value]; }
    }
  }

  lemma ReadAllStep(before: Bytes, split: Splitter, r: Result<Command>, after: Bytes)
    requires ReadCommand(before, split).result == r && ReadCommand(before, split).rest == after
    ensures ReadAll(before, split) == if r.Err? then [] else [r.value] + ReadAll(after, split)
    ensures r.Ok? ==> r.value != [] && |after| < |before|
  {
    hide ReadCommand;
  }
}
