/** The server over its append-only log: writes that apply and append in one step, compacting
    rewrites from a dump, crashes, and restarts on whatever a crash left. */
module AofServer {
  import opened Bytes
  import opened Decimal
  import opened RespGrammar
  import opened RespReader
  import opened CommandCodec
  import opened AofLog

  /** A dataset: its empty state, what a command does to it, and its dump. */
  datatype Engine<!S> = Engine(init: S, apply: (S, Command) -> S, dump: S -> seq<Command>)

  function Replay<S>(e: Engine<S>, s: S, cmds: seq<Command>): S
    decreases |cmds|
  {
    if cmds == [] then s else Replay(e, e.apply(s, cmds[0]), cmds[1..])
  }

  lemma {:induction false} ReplayAppend<S>(e: Engine<S>, s: S, a: seq<Command>, b: seq<Command>)
    ensures Replay(e, s, a + b) == Replay(e, Replay(e, s, a), b)
    decreases |a|
  {
    if a == [] {
      assert a + b == b;
    } else {
      assert (a + b)[1..] == a[1..] + b;
      ReplayAppend(e, e.apply(s, a[0]), a[1..], b);
    }
  }

  /** The assumption on the store: replaying a dump rebuilds the state it was taken from. */
  ghost predicate DumpFaithful<S(!new)>(e: Engine<S>) {
    forall s :: AllSendable(e.dump(s)) && Replay(e, e.init, e.dump(s)) == s
  }

  // ---- what a crash leaves of a log ---------------------------------------------------

  /** The commands replayed from what a crash left of a cleanly begun log: its base, then at
      least the records known to be on disk, and nothing that was not accepted. */
  lemma SurvivingRecords(a: Account, base: seq<Command>, disk: Bytes, kept: nat, split: Splitter) returns (j: nat)
    requires ValidAccount(a) && a.base == EncodeAll(base) && AllSendable(base)
    requires disk <= Contents(a) && kept <= |a.records|
    requires |disk| >= |a.base| + |EncodeAll(a.records[..kept])|
    ensures kept <= j <= |a.records| && ReadAll(disk, split) == base + a.records[..j]
  {
    hide EncodeAll, EncodeCommand, Sendable, ReadAll, CompleteIn;
    var lost := if a.torn == [] then [] else [a.lost];
    var cmds := base + a.records + lost;
    WholeContents(a, base);
    ReplayOfPrefix(cmds, disk, split);
    CompleteInIsMaximal(cmds, |disk|);
    var k := CompleteIn(cmds, |disk|);
    if k < |base| + kept {
      LongerPrefix(cmds, k + 1, |base| + kept);
      assert cmds[..|base| + kept] == base + a.records[..kept];
      EncodeAllAppend(base, a.records[..kept]);
      assert false;
    }
    if k > |base| + |a.records| {
      assert cmds[..k] == cmds;
      TornIsShort(a, base, disk);
      assert false;
    }
    j := k - |base|;
    assert cmds[..k] == base + a.records[..j];
  }

  lemma {:induction false} LongerPrefix(cmds: seq<Command>, i: nat, j: nat)
    requires i <= j <= |cmds|
    ensures |EncodeAll(cmds[..i])| <= |EncodeAll(cmds[..j])|
  {
    hide EncodeAll;
    assert cmds[..j] == cmds[..i] + cmds[i..j];
    EncodeAllAppend(cmds[..i], cmds[i..j]);
  }

  lemma WholeContents(a: Account, base: seq<Command>)
    requires ValidAccount(a) && a.base == EncodeAll(base)
    ensures var lost := if a.torn == [] then [] else [a.lost];
            Contents(a) <= EncodeAll(base + a.records + lost)
  {
    hide EncodeAll, EncodeCommand, Sendable;
    EncodeAllAppend(base, a.records);
    if a.torn != [] {
      EncodeAllAppend(base + a.records, [a.lost]);
      EncodeOne(a.lost);
    } else {
      assert base + a.records + [] == base + a.records;
    }
  }

  lemma TornIsShort(a: Account, base: seq<Command>, disk: Bytes)
    requires ValidAccount(a) && a.base == EncodeAll(base) && disk <= Contents(a) && a.torn != []
    ensures |disk| < |EncodeAll(base + a.records + [a.lost])|
  {
    hide EncodeAll, EncodeCommand, Sendable;
    EncodeAllAppend(base, a.records);
    EncodeAllAppend(base + a.records, [a.lost]);
    EncodeOne(a.lost);
  }

  // ---- the files a crash can leave ------------------------------------------------------

  /** One file of the log's history: the commands it began with and how many of the writes they
      stand for, what was appended to it, and what is durable of it. It holds no write beyond the
      first `upTo`, and every success under Always among the first `kept` writes. */
  datatype Generation = Generation(base: seq<Command>, taken: nat, account: Account, img: Image, upTo: nat, kept: nat)

  ghost predicate Sound<S(!new)>(e: Engine<S>, writes: seq<Command>, g: Generation) {
    && AllSendable(g.base) && ValidAccount(g.account) && g.account.base == EncodeAll(g.base)
    && g.taken <= g.upTo <= |writes|
    && Replay(e, e.init, g.base) == Replay(e, e.init, writes[..g.taken])
    && g.account.records <= writes[g.taken..g.upTo]
    && g.img.content <= Contents(g.account) && |g.account.base| <= g.img.synced <= |g.img.content|
    && g.kept <= g.taken + |g.account.records|
    && (g.kept > g.taken ==> |g.account.base| + |EncodeAll(g.account.records[..g.kept - g.taken])| <= g.img.synced)
  }

  /** What a crash left of a file tells exactly the first k writes. */
  ghost predicate Tells(g: Generation, writes: seq<Command>, disk: Bytes, split: Splitter, k: nat) {
    g.taken <= k <= |writes| && ReadAll(disk, split) == g.base + writes[g.taken..k]
  }

  /** What a crash leaves of a sound file tells a number of the writes, all it has to keep included,
      and replays to the state after them. */
  lemma Survives<S(!new)>(e: Engine<S>, writes: seq<Command>, g: Generation, disk: Bytes, split: Splitter)
    returns (k: nat)
    requires Sound(e, writes, g) && CrashOf(g.img, disk)
    ensures g.kept <= k <= g.upTo && k <= g.taken + |g.account.records| && Tells(g, writes, disk, split, k)
    ensures Replay(e, e.init, ReadAll(disk, split)) == Replay(e, e.init, writes[..k])
  {
    hide EncodeAll, Sendable, Replay, ReadAll;
    var a := g.account;
    var need := if g.kept > g.taken then g.kept - g.taken else 0;
    assert EncodeAll(a.records[..0]) == [] by { EncodeNone(); }
    var j := SurvivingRecords(a, g.base, disk, need, split);
    k := g.taken + j;
    assert a.records[..j] == writes[g.taken..k];
    ReplayAppend(e, e.init, g.base, writes[g.taken..k]);
    ReplayAppend(e, e.init, writes[..g.taken], writes[g.taken..k]);
    assert writes[..k] == writes[..g.taken] + writes[g.taken..k];
  }

  lemma TellsOnce(g: Generation, writes: seq<Command>, disk: Bytes, split: Splitter, k: nat, k': nat)
    requires Tells(g, writes, disk, split, k) && Tells(g, writes, disk, split, k')
    ensures k == k'
  {
    assert |g.base + writes[g.taken..k]| == |g.base| + k - g.taken;
    assert |g.base + writes[g.taken..k']| == |g.base| + k' - g.taken;
  }

  /** A file stays sound as the writes go on without it. */
  lemma SoundLater<S(!new)>(e: Engine<S>, writes: seq<Command>, g: Generation, args: Command)
    requires Sound(e, writes, g)
    ensures Sound(e, writes + [args], g)
  {
    hide EncodeAll, Sendable, Replay, ValidAccount, Contents;
    assert (writes + [args])[..g.taken] == writes[..g.taken];
    assert (writes + [args])[g.taken..g.upTo] == writes[g.taken..g.upTo];
  }

  // ---- the server ---------------------------------------------------------------------

  /** How the log stands to the writes made so far: its base replays to the state after the
      first taken of them, its records are the next ones, and the writes known durable are within
      what is synced. */
  ghost predicate Recorded<S(!new)>(e: Engine<S>, writes: seq<Command>, base: seq<Command>, taken: nat, durable: nat,
                                    a: Account, synced: nat, whole: bool)
  {
    && AllSendable(base)
    && a.base == EncodeAll(base)
    && taken <= |writes|
    && durable <= |writes|
    && Replay(e, e.init, base) == Replay(e, e.init, writes[..taken])
    && a.records <= writes[taken..]
    && (whole ==> a.records == writes[taken..])
    && durable <= taken + |a.records|
    && (durable > taken ==> |a.base| + |EncodeAll(a.records[..durable - taken])| <= synced)
  }

  /** The files replaced while the directory was not known to be on disk, oldest first: each keeps
      the successes up to its replacement. */
  ghost predicate Kept<S(!new)>(e: Engine<S>, writes: seq<Command>, acked: nat, past: seq<Generation>,
                                stale: seq<Image>)
  {
    && |past| == |stale|
    && (forall i :: 0 <= i < |past| ==> past[i].img == stale[i] && Sound(e, writes, past[i]))
    && (forall i :: 0 <= i < |past| ==> past[0].upTo <= past[i].upTo)
    && (forall i :: 0 <= i < |past| && acked <= past[i].upTo ==> past[i].kept == acked)
  }

  class Server<S(!new)> {
    const e: Engine<S>
    const log: Log
    var state: S
    var rewriteOK: bool
    ghost var writes: seq<Command>  // every write since the empty state, in order
    ghost var base: seq<Command>    // the commands the log's file began with
    ghost var taken: nat            // how many of the writes those commands stand for
    ghost var durable: nat          // the last write whose append succeeded, under Always, while the log was open
    ghost var acked: nat            // the last write whose append succeeded under Always
    ghost var closedAt: nat         // how many writes there were when the log closed
    ghost var past: seq<Generation> // the files a crash may bring back instead of the log's own

    ghost predicate Valid()
      reads this, log
    {
      && log.Valid()
      && DumpFaithful(e)
      && state == Replay(e, e.init, writes)
      && Recorded(e, writes, base, taken, durable, log.account, log.synced, !log.closed && !log.broken)
      && acked <= |writes|
      && (!log.closed ==> durable == acked)
      && (log.closed ==>
            && taken + |log.account.records| <= closedAt <= |writes|
            && (acked <= closedAt ==> durable == acked))
      && Kept(e, writes, acked, past, log.stale)
      && forall i :: 0 <= i < |past| ==> past[i].upTo <= taken
    }

    /** The log's own file. */
    ghost function Current(): Generation
      reads this, log
    {
      Generation(base, taken, log.account, Image(log.file, log.synced),
                 if log.closed && closedAt <= |writes| then closedAt else |writes|, durable)
    }

    /** A file that may be found at the log's path after a crash. */
    ghost predicate MayReturn(g: Generation)
      reads this, log
    {
      g == Current() || g in past
    }

    /** No success came after the log closed, nor after the oldest replacement that a crash could
        still undo. */
    ghost predicate Unexposed()
      reads this, log
    {
      (log.closed ==> acked <= closedAt) && (past != [] ==> acked <= past[0].upTo)
    }

    /** A start on a log whose last record is whole: its replay is the state. */
    constructor (e: Engine<S>, cmds: seq<Command>, policy: SyncPolicy, created: bool, split: Splitter, size: nat)
      requires DumpFaithful(e) && AllSendable(cmds) && 0 < size && (created ==> cmds == [])
      ensures Valid() && fresh(log) && this.e == e && writes == cmds && acked == 0
      ensures log.file == EncodeAll(cmds) && !log.closed && !log.broken && log.policy == policy
      ensures past == [] || created
    {
      hide EncodeAll, DumpFaithful, AllSendable, ReadAll, Sound;
      this.e := e;
      EncodeNone();
      log := new Log(EncodeAll(cmds), policy, created);
      ReplayOfWhole(cmds, split);
      var loaded := Load(EncodeAll(cmds), split, size);
      state := Replay(e, e.init, loaded);
      rewriteOK := true;
      writes, base, taken, durable, acked, closedAt := cmds, cmds, |cmds|, 0, 0, 0;
      past := if created then [NoFile()] else [];
      new;
      assert cmds[..|cmds|] == cmds;
      NoFileIsSound(e, cmds);
    }

    /** A new process on the file that a stopped one left, the machine having gone on: what tells the
        first k writes is still what it was, and so is every file that could come back. */
    constructor Resumed(o: Server<S>, policy: SyncPolicy, split: Splitter, size: nat, ghost k: nat)
      requires o.Valid() && o.Unexposed() && 0 < size && o.log.file == EncodeAll(ReadAll(o.log.file, split))
      requires o.acked <= k <= o.taken + |o.log.account.records| && Tells(o.Current(), o.writes, o.log.file, split, k)
      requires Replay(o.e, o.e.init, ReadAll(o.log.file, split)) == Replay(o.e, o.e.init, o.writes[..k])
      ensures Valid() && fresh(log) && e == o.e && log.file == o.log.file && log.policy == policy
      ensures !log.closed && !log.broken && writes == o.writes[..k] && acked == o.acked && past == o.past
    {
      hide EncodeAll, DumpFaithful, Sendable, ReadAll, Sound, Replay, Kept, Recorded, ValidAccount, Contents;
      e := o.e;
      var loaded := Load(o.log.file, split, size);
      state := Replay(o.e, o.e.init, loaded);
      rewriteOK := true;
      ghost var a := Account(o.log.account.base, o.writes[o.taken..k], [], []);
      ResumedAccount(o.e, o.writes, o.base, o.taken, o.durable, o.log.account, o.log.synced,
                     !o.log.closed && !o.log.broken, o.log.file, split, k);
      KeptEarlier(o.e, o.writes, o.acked, o.past, o.log.stale, k);
      log := new Log.Reopen(o.log.file, o.log.synced, policy, a, o.log.stale);
      writes, base, taken, durable, acked, closedAt := o.writes[..k], o.base, o.taken, o.acked, o.acked, 0;
      past := o.past;
    }

    /** One write: the mutation and its append, with nothing in between. */
    method Write(args: Command, sound: bool) returns (ok: bool)
      requires Valid() && Sendable(args)
      modifies this`state, this`writes, this`acked, this`durable, log
      ensures Valid() && writes == old(writes) + [args]
      ensures acked == if ok && log.policy.Always? then |writes| else old(acked)  // open or closed
      ensures log.closed == old(log.closed) && log.policy == old(log.policy) && log.stale == old(log.stale)
      ensures (sound && !old(log.broken)) || log.closed ==> ok
    {
      hide EncodeAll, DumpFaithful, Sendable, Replay, Kept, Recorded;
      ReplayOne(e, e.init, writes, args);
      RecordedWithin(e, writes, base, taken, durable, log.account, log.synced, !log.closed && !log.broken);
      state := e.apply(state, args);
      writes := writes + [args];
      ghost var before, synced, was := log.account, log.synced, !log.closed && !log.broken;
      ok := log.Append(args, sound);
      RecordedMore(e, old(writes), base, taken, durable, before, synced, was, args, log.account, log.synced,
                   !log.closed && !log.broken);
      if ok && log.policy.Always? {
        if !log.closed {
          DurableNow(e, writes, base, taken, durable, log.account, log.synced);
          durable := |writes|;
        }
        acked := |writes|;
      }
      KeptLater(e, old(writes), old(acked), past, log.stale, args, acked);
    }

    /** A rewrite: dump and swap under the one lock that orders writes. */
    method RewriteAOF(fate: RewriteFate) returns (ok: bool)
      requires Valid()
      modifies this`rewriteOK, this`base, this`taken, this`closedAt, this`past, log
      ensures Valid() && rewriteOK == ok && log.policy == old(log.policy)
      ensures !old(log.closed) ==> log.closed == (fate.Renamed? && !fate.reopened)
      ensures !old(log.closed) ==> ok == (fate.Renamed? && fate.reopened) && (ok ==> !log.broken)
      ensures !old(log.closed) && fate.Renamed? ==> (past == [] <==> fate.dirSynced)
      ensures !old(log.closed) && fate == Renamed(true, true) ==> Unexposed()
    {
      hide EncodeAll, Sendable, Replay, Sound, Recorded, Kept, Accepted, Contents;
      var snapshot := e.dump(state);
      assert AllSendable(snapshot) && Replay(e, e.init, snapshot) == state;
      RecordedWithin(e, writes, base, taken, durable, log.account, log.synced, !log.closed && !log.broken);
      ghost var wasClosed, own := log.closed, Current();
      if !wasClosed { CurrentIsSound(); }
      ok := log.Rewrite(snapshot, fate);
      rewriteOK := ok;
      if !wasClosed && fate.Renamed? {
        base, taken, closedAt := snapshot, |writes|, |writes|;
        FreshlyRecorded(e, writes, snapshot, durable, log.synced, !log.closed && !log.broken);
        if fate.dirSynced {
          past := [];
          NoneKept(e, writes, acked);
        } else {
          ghost var img := log.stale[|old(log.stale)|];
          assert log.stale == old(log.stale) + [img];
          KeptMore(e, writes, acked, past, old(log.stale), own, img);
          past := past + [own.(img := img)];
        }
      }
    }

    /** The log's own file is sound. */
    lemma CurrentIsSound()
      requires Valid()
      ensures Sound(e, writes, Current())
    {
      hide EncodeAll, DumpFaithful, Sendable, Replay, ValidAccount, Contents;
      if !log.closed {
        assert log.file <= log.file + log.pending;
        assert writes[taken..|writes|] == writes[taken..];
      } else {
        assert log.account.records <= writes[taken..closedAt];
      }
    }

    /** While the log is open and no write to it has failed, replaying the file and the buffered
        tail gives the state in memory, and the size kept is the number of bytes they hold. */
    lemma LogIsTheState(split: Splitter)
      requires Valid() && !log.closed && !log.broken
      ensures Replay(e, e.init, ReadAll(log.file + log.pending, split)) == state
      ensures log.size == |log.file + log.pending|
    {
      hide EncodeAll, DumpFaithful, Sendable, Replay, ReadAll, Kept;
      var a := log.account;
      assert a.torn == [] && Contents(a) == Accepted(a);
      EncodeAllAppend(base, a.records);
      assert AllSendable(base + a.records);
      ReplayOfWhole(base + a.records, split);
      ReplayAppend(e, e.init, base, a.records);
      ReplayAppend(e, e.init, writes[..taken], writes[taken..]);
      assert writes == writes[..taken] + writes[taken..];
    }

    /** Every file a crash may leave is sound, and keeps every success unless one was exposed. */
    lemma ReturningFiles(g: Generation)
      requires Valid() && MayReturn(g)
      ensures Sound(e, writes, g) && (Unexposed() ==> g.kept == acked)
    {
      CurrentIsSound();
      hide DumpFaithful, Replay, Recorded, Sound;
      if g in past {
        var i :| 0 <= i < |past| && past[i] == g;
      }
    }

    /** Whatever a crash leaves at the log's path, the log's own file or one that was replaced,
        replays to the state after some number of the writes, every acknowledged one included,
        provided none was exposed. */
    lemma CrashKeepsAcknowledged(g: Generation, disk: Bytes, split: Splitter) returns (k: nat)
      requires Valid() && Unexposed() && MayReturn(g) && CrashOf(g.img, disk)
      ensures acked <= k <= |writes| && k <= g.taken + |g.account.records| && Tells(g, writes, disk, split, k)
      ensures Replay(e, e.init, ReadAll(disk, split)) == Replay(e, e.init, writes[..k])
    {
      hide Valid, Sound, Replay, ReadAll;
      ReturningFiles(g);
      k := Survives(e, writes, g, disk, split);
    }

    /** Once a success was exposed there is a crash that loses it. */
    lemma ExposedLoses(split: Splitter) returns (g: Generation, disk: Bytes, k: nat)
      requires Valid() && !Unexposed()
      ensures MayReturn(g) && CrashOf(g.img, disk)
      ensures k < acked && Tells(g, writes, disk, split, k)
      ensures Replay(e, e.init, ReadAll(disk, split)) == Replay(e, e.init, writes[..k])
    {
      hide DumpFaithful, Recorded, Replay, ReadAll, Tells;
      g := if log.closed && acked > closedAt then Current() else past[0];
      ReturningFiles(g);
      disk := g.img.content;
      assert CrashOf(g.img, disk) by { SyncedWithin(e, writes, g); }
      k := Survives(e, writes, g, disk, split);
    }

    /** Every crash keeps every success exactly when none came after the log closed or after a
        replacement of its file that the directory may not have on disk. */
    lemma CrashKeepsExactly(split: Splitter)
      requires Valid()
      ensures Unexposed() <==> forall g, disk :: MayReturn(g) && CrashOf(g.img, disk) ==> KeepsAll(g, disk, split)
    {
      hide Valid, Tells, Replay;
      if Unexposed() {
        forall g, disk | MayReturn(g) && CrashOf(g.img, disk) ensures KeepsAll(g, disk, split) {
          var k := CrashKeepsAcknowledged(g, disk, split);
        }
      } else {
        var g, disk, k := ExposedLoses(split);
        if KeepsAll(g, disk, split) {
          var k' :| acked <= k' && Tells(g, writes, disk, split, k');
          TellsOnce(g, writes, disk, split, k, k');
        }
      }
    }

    ghost predicate KeepsAll(g: Generation, disk: Bytes, split: Splitter)
      reads this, log
    {
      exists k :: acked <= k && Tells(g, writes, disk, split, k)
    }

    lemma PastWithin()
      requires Valid() && past != []
      ensures past[0].upTo <= |writes|
    {
      hide DumpFaithful, Recorded, Replay, Sound;
      UpToWithin(e, writes, past[0]);
    }

    /** A rewrite whose directory sync fails, a write acknowledged under Always, and a crash that
        brings the old file back: the write is lost. */
    method LoseBehindRename(args: Command, split: Splitter)
      returns (ghost g: Generation, ghost disk: Bytes, ghost k: nat)
      requires Valid() && Sendable(args) && !log.closed && log.policy.Always?
      modifies this, log
      ensures Valid() && acked == |writes| && MayReturn(g) && CrashOf(g.img, disk)
      ensures k < acked && Replay(e, e.init, ReadAll(disk, split)) == Replay(e, e.init, writes[..k])
    {
      hide Valid, Replay, ReadAll, Tells, Sendable;
      var rewritten := RewriteAOF(Renamed(false, true));
      PastWithin();
      var ok := Write(args, true);
      g, disk, k := ExposedLoses(split);
    }

    /** A rewrite that cannot open the new file, and a write that is acknowledged all the same: it is
        in no file at all. */
    method LoseBehindClosing(args: Command, split: Splitter)
      returns (ghost g: Generation, ghost disk: Bytes, ghost k: nat)
      requires Valid() && Sendable(args) && !log.closed && log.policy.Always?
      modifies this, log
      ensures Valid() && acked == |writes| && MayReturn(g) && CrashOf(g.img, disk)
      ensures k < acked && Replay(e, e.init, ReadAll(disk, split)) == Replay(e, e.init, writes[..k])
    {
      hide DumpFaithful, Recorded, Replay, ReadAll, Tells, Sendable;
      var rewritten := RewriteAOF(Renamed(true, false));
      var ok := Write(args, true);
      g, disk, k := ExposedLoses(split);
    }

    /** A restart on what a crash of the machine left, when that ends at a whole record: the new server's
        state is the old one's after some number of its writes, every acknowledged one included. What
        was found at the log's path is then what the directory has on disk. */
    method Restart(disk: Bytes, ghost g: Generation, policy: SyncPolicy, split: Splitter, size: nat)
      returns (s: Server<S>, ghost k: nat)
      requires Valid() && Unexposed() && MayReturn(g) && CrashOf(g.img, disk) && 0 < size
      requires disk == EncodeAll(ReadAll(disk, split))
      ensures fresh(s) && s.Valid() && s.e == e && s.writes == ReadAll(disk, split) && s.log.file == disk
      ensures acked <= k <= |writes| && s.state == Replay(e, e.init, writes[..k]) && s.past == []
    {
      hide EncodeAll, DumpFaithful, Sendable, Replay, ReadAll, Sound, Recorded, Kept;
      k := CrashKeepsAcknowledged(g, disk, split);
      ReturningFiles(g);
      ToldIsSendable(e, writes, g, disk, split, k);
      var cmds := Load(disk, split, size);
      s := new Server(e, cmds, policy, false, split, size);
    }

    /** A restart of the process alone, on a file that ends at a whole record: every acknowledged write is
        there, and a later crash of the machine can still bring back the same files. */
    method Resume(policy: SyncPolicy, split: Splitter, size: nat) returns (s: Server<S>, ghost k: nat)
      requires Valid() && Unexposed() && 0 < size && log.file == EncodeAll(ReadAll(log.file, split))
      ensures acked <= k <= |writes| && fresh(s) && s.e == e && s.log.file == log.file && s.writes == writes[..k]
      ensures s.Valid() && s.acked == acked && s.past == past && s.Unexposed()
    {
      hide Valid, Sound, Replay, ReadAll, EncodeAll, Tells;
      assert log.synced <= |log.file| by { FileIsSynced(); }
      k := CrashKeepsAcknowledged(Current(), log.file, split);
      s := new Server.Resumed(this, policy, split, size, k);
    }

    lemma FileIsSynced()
      requires Valid()
      ensures log.synced <= |log.file|
    {
      hide DumpFaithful, Recorded, Kept, Replay;
    }
  }

  /** No file at all: what a crash leaves of one just created. */
  ghost function NoFile(): Generation { Generation([], 0, NewAccount([]), Image([], 0), 0, 0) }

  lemma NoFileIsSound<S(!new)>(e: Engine<S>, writes: seq<Command>)
    ensures Sound(e, writes, NoFile())
  {
    EncodeNone();
    NewAccountHolds([]);
    assert writes[..0] == [];
  }

  lemma SyncedWithin<S(!new)>(e: Engine<S>, writes: seq<Command>, g: Generation)
    requires Sound(e, writes, g)
    ensures g.img.synced <= |g.img.content|
  {
    hide EncodeAll, Replay, ValidAccount, Contents;
  }

  lemma UpToWithin<S(!new)>(e: Engine<S>, writes: seq<Command>, g: Generation)
    requires Sound(e, writes, g)
    ensures g.upTo <= |writes|
  {
    hide EncodeAll, Replay, ValidAccount, Contents;
  }

  lemma SoundExtended<S(!new)>(e: Engine<S>, writes: seq<Command>, g: Generation, img: Image)
    requires Sound(e, writes, g) && g.img.content <= img.content <= Contents(g.account) && img.synced == g.img.synced
    ensures Sound(e, writes, g.(img := img))
  {
    hide EncodeAll, Replay, ValidAccount, Contents;
  }

  lemma KeptLater<S(!new)>(e: Engine<S>, writes: seq<Command>, acked: nat, past: seq<Generation>, stale: seq<Image>,
                           args: Command, acked': nat)
    requires Kept(e, writes, acked, past, stale) && (acked' == acked || acked' == |writes| + 1)
    ensures Kept(e, writes + [args], acked', past, stale)
  {
    hide Sound;
    forall i | 0 <= i < |past| ensures Sound(e, writes + [args], past[i]) && past[i].upTo <= |writes| {
      SoundLater(e, writes, past[i], args);
      UpToWithin(e, writes, past[i]);
    }
  }

  /** The log's own file joins those that may come back, with what was last flushed into it. */
  lemma KeptMore<S(!new)>(e: Engine<S>, writes: seq<Command>, acked: nat, past: seq<Generation>, stale: seq<Image>,
                          own: Generation, img: Image)
    requires Kept(e, writes, acked, past, stale) && Sound(e, writes, own) && own.upTo == |writes| && own.kept == acked
    requires own.img.content <= img.content <= Contents(own.account) && img.synced == own.img.synced
    ensures Kept(e, writes, acked, past + [own.(img := img)], stale + [img])
  {
    SoundExtended(e, writes, own, img);
    hide Sound, Contents;
    forall i | 0 <= i < |past| ensures past[i].upTo <= |writes| { UpToWithin(e, writes, past[i]); }
  }

  /** The same files as seen from the first k writes, when none was replaced later. */
  lemma KeptEarlier<S(!new)>(e: Engine<S>, writes: seq<Command>, acked: nat, past: seq<Generation>, stale: seq<Image>,
                             k: nat)
    requires Kept(e, writes, acked, past, stale) && k <= |writes| && forall i :: 0 <= i < |past| ==> past[i].upTo <= k
    ensures Kept(e, writes[..k], acked, past, stale)
  {
    hide Sound;
    forall i | 0 <= i < |past| ensures Sound(e, writes[..k], past[i]) { SoundEarlier(e, writes, past[i], k); }
  }

  lemma SoundEarlier<S(!new)>(e: Engine<S>, writes: seq<Command>, g: Generation, k: nat)
    requires Sound(e, writes, g) && g.upTo <= k <= |writes|
    ensures Sound(e, writes[..k], g)
  {
    hide EncodeAll, Sendable, Replay, ValidAccount, Contents;
    assert writes[..k][..g.taken] == writes[..g.taken];
    assert writes[..k][g.taken..g.upTo] == writes[g.taken..g.upTo];
  }

  /** A file that ends at a whole record and tells the first k writes, as a new process takes it. */
  lemma ResumedAccount<S(!new)>(e: Engine<S>, writes: seq<Command>, base: seq<Command>, taken: nat, durable: nat,
                                a: Account, synced: nat, whole: bool, file: Bytes, split: Splitter, k: nat)
    requires Recorded(e, writes, base, taken, durable, a, synced, whole) && ValidAccount(a)
    requires taken <= k <= taken + |a.records| && durable <= k
    requires ReadAll(file, split) == base + writes[taken..k] && file == EncodeAll(ReadAll(file, split))
    ensures var a' := Account(a.base, writes[taken..k], [], []);
            && ValidAccount(a') && file == Contents(a')
            && Recorded(e, writes[..k], base, taken, durable, a', synced, true)
  {
    hide EncodeAll, Sendable, Replay, ReadAll;
    EncodeAllAppend(base, writes[taken..k]);
    assert writes[taken..k] == a.records[..k - taken] by {
      forall i | 0 <= i < k - taken ensures writes[taken..k][i] == a.records[i] {
        assert a.records[i] == writes[taken..][i];
      }
    }
    assert writes[..k][..taken] == writes[..taken];
    assert writes[..k][taken..] == writes[taken..k];
    if durable > taken { assert writes[taken..k][..durable - taken] == a.records[..durable - taken]; }
  }

  lemma ToldIsSendable<S(!new)>(e: Engine<S>, writes: seq<Command>, g: Generation, disk: Bytes, split: Splitter, k: nat)
    requires Sound(e, writes, g) && Tells(g, writes, disk, split, k) && k <= g.taken + |g.account.records|
    ensures AllSendable(ReadAll(disk, split))
  {
    hide EncodeAll, Replay, ReadAll, Sendable, Contents;
    assert writes[g.taken..k] == g.account.records[..k - g.taken] by {
      forall i | 0 <= i < k - g.taken ensures writes[g.taken..k][i] == g.account.records[i] {
        assert g.account.records[i] == writes[g.taken..g.upTo][i];
      }
    }
  }

  lemma EncodeNone()
    ensures EncodeAll([]) == []
  {
  }

  lemma ReplayOne<S>(e: Engine<S>, s: S, cmds: seq<Command>, args: Command)
    ensures Replay(e, s, cmds + [args]) == e.apply(Replay(e, s, cmds), args)
  {
    ReplayAppend(e, s, cmds, [args]);
    assert [args][1..] == [];
  }

  lemma RecordedWithin<S(!new)>(e: Engine<S>, writes: seq<Command>, base: seq<Command>, taken: nat, durable: nat,
                                a: Account, synced: nat, whole: bool)
    requires Recorded(e, writes, base, taken, durable, a, synced, whole)
    ensures taken + |a.records| <= |writes| && durable <= |writes| && (whole ==> a.records == writes[taken..])
  {
    hide EncodeAll, Replay, Sendable;
  }

  /** With every record synced, every write is durable. */
  lemma DurableNow<S(!new)>(e: Engine<S>, writes: seq<Command>, base: seq<Command>, taken: nat, durable: nat,
                            a: Account, synced: nat)
    requires Recorded(e, writes, base, taken, durable, a, synced, true) && synced == |Contents(a)|
    ensures Recorded(e, writes, base, taken, |writes|, a, synced, true)
  {
    hide EncodeAll, Replay, Sendable;
    EncodedRecords(a);
  }

  /** A file that begins with a dump of the state stands for every write. */
  lemma FreshlyRecorded<S(!new)>(e: Engine<S>, writes: seq<Command>, snapshot: seq<Command>, durable: nat,
                                 synced: nat, whole: bool)
    requires AllSendable(snapshot) && Replay(e, e.init, snapshot) == Replay(e, e.init, writes) && durable <= |writes|
    ensures Recorded(e, writes, snapshot, |writes|, durable, NewAccount(EncodeAll(snapshot)), synced, whole)
  {
    hide EncodeAll, Replay, Sendable;
    assert writes[..|writes|] == writes;
  }

  lemma NoneKept<S(!new)>(e: Engine<S>, writes: seq<Command>, acked: nat)
    ensures Kept(e, writes, acked, [], [])
  {
  }

  lemma EncodedRecords(a: Account)
    ensures |a.base| + |EncodeAll(a.records)| <= |Contents(a)| && a.records[..|a.records|] == a.records
  {
    hide EncodeAll;
  }

  lemma RecordedMore<S(!new)>(e: Engine<S>, writes: seq<Command>, base: seq<Command>, taken: nat, durable: nat,
                              a: Account, synced: nat, was: bool, args: Command, a': Account, synced': nat, whole: bool)
    requires Recorded(e, writes, base, taken, durable, a, synced, was) && (whole ==> was)
    requires a'.base == a.base && synced' >= synced
    requires a'.records == a.records || (a' == WithRecord(a, args) && a.records == writes[taken..])
    requires whole ==> a' == WithRecord(a, args)
    ensures Recorded(e, writes + [args], base, taken, durable, a', synced', whole)
  {
    hide EncodeAll, Replay, Sendable;
    assert (writes + [args])[..taken] == writes[..taken];
    assert (writes + [args])[taken..] == writes[taken..] + [args];
    if durable > taken { assert a'.records[..durable - taken] == a.records[..durable - taken]; }
  }

  // ---- restarting on a cut-off file ---------------------------------------------------

  /** The piece of a frame that a crash left behind the last whole one. */
  function TornTail(cmds: seq<Command>, cut: Bytes): (r: Bytes)
    requires cut <= EncodeAll(cmds)
    ensures r != [] ==> CompleteIn(cmds, |cut|) < |cmds|
  {
    CompleteInIsMaximal(cmds, |cut|);
    assert cmds[..|cmds|] == cmds;
    cut[|EncodeAll(cmds[..CompleteIn(cmds, |cut|)])|..]
  }

  /** A log reopened at a frame boundary replays the old whole records and then all new ones. */
  lemma ReopenAtBoundary(cmds: seq<Command>, cut: Bytes, new_: seq<Command>, split: Splitter)
    requires AllSendable(cmds) && AllSendable(new_) && cut <= EncodeAll(cmds)
    requires TornTail(cmds, cut) == []
    ensures ReadAll(cut + EncodeAll(new_), split) == cmds[..CompleteIn(cmds, |cut|)] + new_
  {
    hide EncodeAll, Sendable, ReadAll, CompleteIn, TornTail;
    var whole := cmds[..CompleteIn(cmds, |cut|)];
    CutIsWhole(cmds, cut);
    assert cut == EncodeAll(whole);
    EncodeAllAppend(whole, new_);
    ReplayOfWhole(whole + new_, split);
  }

  lemma CutIsWhole(cmds: seq<Command>, cut: Bytes)
    requires cut <= EncodeAll(cmds)
    ensures cut == EncodeAll(cmds[..CompleteIn(cmds, |cut|)]) + TornTail(cmds, cut)
  {
    hide EncodeAll, CompleteIn;
    CompleteInIsMaximal(cmds, |cut|);
    var k := CompleteIn(cmds, |cut|);
    assert cmds == cmds[..k] + cmds[k..];
    EncodeAllAppend(cmds[..k], cmds[k..]);
    assert EncodeAll(cmds[..k]) == cut[..|EncodeAll(cmds[..k])|];
  }

  /** A cut-off header swallows the header of the record written after it. */
  lemma TornHeaderMisreads(n: nat, torn: Bytes, c: Command, split: Splitter)
    requires torn != [] && torn < Header(STAR, n) && c != []
    ensures ReadCommand(torn + EncodeCommand(c), split).result == Err(InvalidMultibulk)
  {
    hide NextLine, EncodeBulks, CountOf, Itoa;
    var line := torn + [STAR] + Itoa(|c|);
    HeaderText(STAR, n);
    HeaderText(STAR, |c|);
    assert torn == ([STAR] + Itoa(n) + CRLF)[..|torn|];
    assert LF !in torn by {
      assert forall i :: 0 <= i < |torn| ==> torn[i] == ([STAR] + Itoa(n) + CRLF)[i];
    }
    assert line[|line| - 1] == ([STAR] + Itoa(|c|))[|Itoa(|c|)|];
    assert torn + EncodeCommand(c) == line + CRLF + EncodeBulks(c);
    NextLineOfText(line, EncodeBulks(c));
    StarIsNoDigit(line[1..], |torn| - 1);
  }

  lemma StarIsNoDigit(body: Bytes, i: nat)
    requires i < |body| && body[i] == STAR
    ensures CountOf(body).None?
  {
    if Unsigned(body) != body { assert Unsigned(body)[i - 1] == STAR; }
  }

  /** Behind a whole header every outcome has the argument count that header announced. */
  lemma TornBodyMisreads(args: Command, torn: Bytes, c: Command, split: Splitter)
    requires Sendable(args) && Header(STAR, |args|) <= torn < EncodeCommand(args)
    ensures var r := ReadCommand(torn + EncodeCommand(c), split).result; r.Ok? ==> |r.value| == |args|
  {
    hide NextLine, EncodeBulks, CountOf, Itoa, ReadBulks;
    var h := [STAR] + Itoa(|args|);
    CountOfHeader(|args|);
    var after := torn[|h| + 2..] + EncodeCommand(c);
    assert torn == h + CRLF + torn[|h| + 2..];
    assert torn + EncodeCommand(c) == h + CRLF + after;
    NextLineOfText(h, after);
    assert ReadStep(h + CRLF + after, split) == Done(Prefixed([], |h| + 2, ReadBulks(after, |args|)));
  }

  /** A log reopened behind a cut-off record loses what is written to it: any first new command
      with a different argument count is not replayed as it was written. */
  lemma ReopenBehindTornRecord(cmds: seq<Command>, cut: Bytes, c: Command, split: Splitter)
    requires AllSendable(cmds) && Sendable(c) && cut <= EncodeAll(cmds)
    requires TornTail(cmds, cut) != []
    requires |c| != |cmds[CompleteIn(cmds, |cut|)]|
    ensures ReadAll(cut + EncodeCommand(c), split) != cmds[..CompleteIn(cmds, |cut|)] + [c]
  {
    hide EncodeAll, ReadAll, CompleteIn, ReadCommand, EncodeCommand, Header;
    var k := CompleteIn(cmds, |cut|);
    var torn := TornTail(cmds, cut);
    CutIsWhole(cmds, cut);
    TornIsCut(cmds, cut);
    var s := torn + EncodeCommand(c);
    assert cut + EncodeCommand(c) == EncodeAll(cmds[..k]) + s;
    ReadAllPrefix(cmds[..k], s, split);
    if |torn| < |Header(STAR, |cmds[k]|)| {
      HeaderFirst(cmds[k]);
      assert torn < Header(STAR, |cmds[k]|);
      TornHeaderMisreads(|cmds[k]|, torn, c, split);
    } else {
      HeaderFirst(cmds[k]);
      TornBodyMisreads(cmds[k], torn, c, split);
    }
    FirstRead(s, split, c);
    SamePrefix(cmds[..k], ReadAll(s, split), [c]);
  }

  /** The next restart replays the old whole records and then everything appended. */
  ghost predicate ReplaysAppended(whole: seq<Command>, cut: Bytes, split: Splitter) {
    forall later: seq<Command> :: AllSendable(later) ==> ReadAll(cut + EncodeAll(later), split) == whole + later
  }

  /** A log reopened on what a crash left replays everything appended to it afterwards exactly
      when the crash left no piece of a frame: nothing truncates such a piece. */
  lemma ReopenedLogIsExact(cmds: seq<Command>, cut: Bytes, split: Splitter)
    requires AllSendable(cmds) && cut <= EncodeAll(cmds)
    ensures ReplaysAppended(cmds[..CompleteIn(cmds, |cut|)], cut, split) <==> TornTail(cmds, cut) == []
  {
    hide EncodeAll, ReadAll, CompleteIn, TornTail;
    var k := CompleteIn(cmds, |cut|);
    if TornTail(cmds, cut) == [] {
      forall later: seq<Command> | AllSendable(later)
        ensures ReadAll(cut + EncodeAll(later), split) == cmds[..k] + later
      {
        ReopenAtBoundary(cmds, cut, later, split);
      }
    } else {
      var c: Command := if |cmds[k]| == 1 then [[], []] else [[]];
      ReopenBehindTornRecord(cmds, cut, c, split);
      EncodeOne(c);
      assert AllSendable([c]);
    }
  }

  /** A restart on what a crash left of a sound file replays, at the next restart, everything written
      since exactly when the image ended at a whole record. */
  lemma RestartIsExact<S(!new)>(e: Engine<S>, writes: seq<Command>, g: Generation, disk: Bytes, split: Splitter)
    requires Sound(e, writes, g) && CrashOf(g.img, disk)
    ensures ReplaysAppended(ReadAll(disk, split), disk, split) <==> disk == EncodeAll(ReadAll(disk, split))
  {
    hide EncodeAll, Replay, ReadAll, Sendable, CompleteIn, ReplaysAppended, TornTail;
    var a := g.account;
    var lost := if a.torn == [] then [] else [a.lost];
    var all := g.base + a.records + lost;
    WholeContents(a, g.base);
    ReplayOfPrefix(all, disk, split);
    ReopenedLogIsExact(all, disk, split);
    CutIsWhole(all, disk);
    var whole := EncodeAll(all[..CompleteIn(all, |disk|)]);
    assert TornTail(all, disk) == [] ==> whole + TornTail(all, disk) == whole;
  }

  lemma SamePrefix(a: seq<Command>, x: seq<Command>, y: seq<Command>)
    ensures a + x == a + y <==> x == y
  {
    assert (a + x)[|a|..] == x && (a + y)[|a|..] == y;
  }

  lemma HeaderFirst(args: Command)
    ensures Header(STAR, |args|) <= EncodeCommand(args)
  {
    hide Header, EncodeBulks;
  }

  lemma TornIsCut(cmds: seq<Command>, cut: Bytes)
    requires cut <= EncodeAll(cmds) && CompleteIn(cmds, |cut|) < |cmds|
    ensures TornTail(cmds, cut) < EncodeCommand(cmds[CompleteIn(cmds, |cut|)])
  {
    hide EncodeAll, CompleteIn, EncodeCommand;
    CompleteInIsMaximal(cmds, |cut|);
    var k := CompleteIn(cmds, |cut|);
    var head, next := EncodeAll(cmds[..k]), EncodeCommand(cmds[k]);
    assert cmds == cmds[..k + 1] + cmds[k + 1..];
    EncodeAllAppend(cmds[..k + 1], cmds[k + 1..]);
    assert cmds[..k + 1] == cmds[..k] + [cmds[k]];
    EncodeAllAppend(cmds[..k], [cmds[k]]);
    EncodeOne(cmds[k]);
    var all := EncodeAll(cmds);
    assert all == head + next + EncodeAll(cmds[k + 1..]);
    assert cut == all[..|cut|];
    assert TornTail(cmds, cut) == next[..|cut| - |head|];
  }

  lemma {:induction false} ReadAllPrefix(cmds: seq<Command>, s: Bytes, split: Splitter)
    requires AllSendable(cmds)
    ensures ReadAll(EncodeAll(cmds) + s, split) == cmds + ReadAll(s, split)
    decreases |cmds|
  {
    hide ReadCommand, EncodeCommand;
    if cmds == [] {
      assert EncodeAll(cmds) + s == s;
    } else {
      var rest := EncodeAll(cmds[1..]) + s;
      assert EncodeAll(cmds) + s == EncodeCommand(cmds[0]) + rest;
      CommandRoundTrip(cmds[0], rest, split);
      ReadAllPrefix(cmds[1..], s, split);
    }
  }

  lemma FirstRead(s: Bytes, split: Splitter, c: Command)
    requires var r := ReadCommand(s, split).result; r.Ok? ==> r.value != c
    ensures ReadAll(s, split) != [c]
  {
    hide ReadCommand;
    var r := ReadCommand(s, split);
    if r.result.Ok? { assert ReadAll(s, split)[0] == r.result.value; }
  }
}
