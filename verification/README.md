# shardkv in Dafny

A model of the parts of shardkv whose correctness is hardest to see from the code, with proofs that
hold for every input, every interleaving and every run.

* **Live slot migration** (`Migration`, `MigrationRuns`, on `Redirect`, `ClusterTable`, `SlotHash`): nodes with
  their own slot views and stores, client commands in flight, the operator's SETSLOT and MIGRATE
  commands interleaved at will, replies lost, and RESTOREs carried out after their MIGRATE timed out:
  when a run is an execution on one map, exactly.
* **Blocked clients** (`WaitQueues`, `Blocking`, `BlockingRuns`, `BlockingProgress`): the registry of wait
  queues as a class, and the wakeup protocol as a machine with one step for every action on shared
  state. No wakeup is lost but for an exactly described kind of arrival, clients are served in order,
  and the protocol always comes to rest.
* **RESP** (`RespGrammar`, `RespReader`, `CommandCodec`, `RespWriter`, `ReplyCodec`, `Decimal`): the buffered
  and the streamed command parser against one grammar, the command and reply encoders and decoders as
  inverses, for RESP2 and RESP3.
* **Durability** (`Backlog`, `AofLog`, `AofServer`): the replication ring against the unbounded stream, the
  append-only log with rewrites, failures, crashes and restarts against the state it has to restore.
* **Keys on the move** (`Dump`): DUMP payloads, RESTORE in a scratch store, MIGRATE over a connection that
  fails anywhere.
* **Cluster files and hashing** (`SlotRanges`, `ConfigFile`, `CrcBits`, `SlotHash`, `SortPattern`): slot ranges,
  the configuration file, CRC16 and hash tags, SORT's pattern rule.
* **Connections and ordering** (`ReplyMode`, `SortOrder`): CLIENT REPLY over the writer's buffer, and when
  SORT's answer is determined by its data.

`dafny verify dfyconfig.toml` checks everything. Bytes are integers from 0 to 255; Go's `int` bounds
appear where a parser depends on them. Clocks, sockets, the scheduler, the disk and the network appear
as nondeterministic choices or as parameters.

## Where the code and its documentation differ

The model follows the code. Each of these is stated and proved.

* A blocked client makes no attempt after it registers, although `blocking.go:362-366` says so; a push
  that falls between its first attempt and the end of its registration can leave it asleep with the
  element in its list (`BlockingRuns.LostWakeup`). `BlockingRuns.LateExactly` says exactly when, and
  `BlockingProgress.ComesToRest` that a retry after registration would remove the case.
  `BlockingRuns.RetryAlwaysJumpsTheQueue` shows that an unconditional retry would break the queue order,
  which a retry at the head of a queue keeps (`BlockingRuns.FirstComeFirstServed`).
* A slot can carry both migration markers, although `cluster.go:84` says at most one is ever set
  (`ClusterTable.ClusterState.MarkBothWays`, `ClusterTable.SecondMarker`).
* A log reopened behind a torn record is not cut back to its last whole record, so what is appended
  after it is not replayed as written (`AofServer.ReopenedLogIsExact`, an if-and-only-if).
* Under the always policy an append can succeed and still not survive a crash: on a log closed by a
  failed reopening it keeps nothing (`AofServer.Server.LoseBehindClosing`), and after a rewrite, or for a
  new log, whose directory sync failed unnoticed (`aof.go:286-295`) the old file, or none, may come back
  (`AofServer.Server.LoseBehindRename`). `AofServer.Server.CrashKeepsExactly` says exactly when.
* Booleans decode differently under RESP2 and RESP3, beside the types the documentation names
  (`ReplyCodec.SameInBothVersions`).
* A nil argument is written in two ways, and a log that holds one stops there
  (`RespWriter.EncodersAgree`, `RespWriter.LoggedCommandReadBack`).
* A backlog of size 0 still serves a replica that is exactly up to date (`Backlog.ReplBacklog.Read`).
* A node with an IPv6 host, or with very many slots on the move, writes a configuration line it cannot
  read back, and the current epoch is written but never read (`ConfigFile.LoadsWhatWasSaved`, an
  if-and-only-if).
* A SORT weight that reads as NaN leaves the answer to the order the elements came in, although
  `commands_sort.go:259-262` says it is fully determined by the data (`SortOrder.DeterminedExactly`).
* A SORT pattern with its star before or inside its hash tag can form keys in other slots, although
  `commands_sort.go:190-193` takes any tag for a guarantee (`SortPattern.PatternRule`, an if-and-only-if).
* A MIGRATE whose acknowledgement is lost leaves the key at both nodes, and a DEL then served at the
  source uncovers the copy at the target (`MigrationRuns.LostReplyRevives`).
* A MIGRATE that times out may have its RESTORE carried out later, when the key was deleted
  (`MigrationRuns.LateRestoreRevives`), when a second MIGRATE had moved it and it was written at the target
  (`MigrationRuns.LateRestoreOverwrites`), or between a second MIGRATE's acknowledgement and its deletion
  (`MigrationRuns.LateRestoreUnderRetry`). `MigrationRuns.HeldRunRefinesExactly` says exactly which steps break
  the one map.
* Writes wait for a MIGRATE only while something is propagated (`server.go:1075-1078`), although
  `commands_dump.go:481-484` says they always do; without it a write served between the RESTORE and the
  deletion of its key is undone (`MigrationRuns.UnheldWriteIsUndone`).
* A MIGRATE with REPLACE to the node's own address deletes the only copy of the key
  (`Dump.MigrateToItself`).
* A RESTORE payload whose body ends inside a frame, but not inside an argument, is accepted with the
  commands before the cut (`Dump.TruncatedBody`).

## Model

| member | source | states |
|---|---|---|
| `MigrationRuns.RunRefinesExactly` | internal/server/cluster_redirect.go:56-134 | Over every run of client commands, redirects, SETSLOT steps in the documented order and MIGRATEs, with COPY, REPLACE, refusals, lost replies, timeouts and RESTOREs carried out late or never, writes held back or not, several MIGRATEs at once if not: the commands served act one after another on the single map "the source's value if present, else the target's", with its replies, at every point, exactly when each step passes a test on the state before it. |
| `MigrationRuns.HeldRunRefinesExactly` | internal/server/commands_dump.go:481-484 | With writes held back during MIGRATE, that is so exactly when no command served at the source removes a key that the target also holds, no RESTORE is carried out after its MIGRATE ended where the source has not the key and the target not the value, and no MIGRATE deletes a key whose acknowledged value the target no longer has. |
| `MigrationRuns.OnlyLateOverwrites` | internal/server/commands_dump.go:547-551 | Over every run with writes held back, until a late RESTORE overwrites a value that a MIGRATE under way got to the target, every such value is there and no MIGRATE deletes one that is not. |
| `MigrationRuns.RunRefinesOneMap` | internal/server/cluster_redirect.go:56-134 | It is so for every run with writes held back, every RESTORE answered before its MIGRATE ends, and no COPY. |
| `MigrationRuns.LostReplyRevives` | internal/server/commands_dump.go:586-591 | A run from the start in which a RESTORE lands, its reply is lost, and a DEL served at the source uncovers the target's copy; it is not an execution on one map. |
| `MigrationRuns.LateRestoreRevives` | internal/server/commands_dump.go:547-551 | A run from the start in which a MIGRATE times out, a DEL is served at the source while no other node has the key, and the RESTORE then brings it back; it is not an execution on one map. |
| `MigrationRuns.LateRestoreOverwrites` | internal/server/commands_dump.go:582-584 | A run in which a MIGRATE REPLACE times out, is given again and succeeds, the key is written at the target, and the first RESTORE overwrites it. |
| `MigrationRuns.LateRestoreUnderRetry` | internal/server/commands_dump.go:603-614 | A run in which the late RESTORE overwrites, unseen, what a second MIGRATE has acknowledged, and the second MIGRATE then deletes the only copy of the newer value. |
| `MigrationRuns.LostReplyLeavesBoth` | internal/server/commands_dump.go:586-591 | A run that ends with a key at both nodes and no MIGRATE under way. |
| `MigrationRuns.UnheldWriteIsUndone` | internal/server/server.go:1074-1080 | Without propagation, a run in which a write at the source is undone when MIGRATE deletes its key; it is not an execution on one map. |
| `MigrationRuns.HandoverAtSourceFirstLoops` | internal/server/commands_cluster.go:259-271 | With NODE at the source before the target, a client following redirects is sent back and forth with MOVED at every one of its n hops, for every n. |
| `MigrationRuns.EarlyHandoverHidesKey` | internal/server/commands_cluster.go:335-340 | With NODE at the target while the source still holds a key, a read of that key is served without it. |
| `Migration.StepRefines` | internal/server/cluster_redirect.go:56-134 | Every step keeps the invariant on views, stores and messages in flight; it does to the one map what it should -- a served command that command, every other step nothing -- exactly when it is faithful. |
| `Migration.ServeStep` | internal/server/cluster_redirect.go:85-133 | A command that the gate lets through changes the one map exactly as the command would, unless at the source it removes a key the target holds, and then it does not. |
| `Migration.ActsAtSource` | internal/server/cluster_redirect.go:85-111 | A command served at the source replies as on the one map, and leaves the one map as it should exactly when it removes no key the target holds. |
| `Migration.MigrateLandStep` | internal/server/commands_dump.go:569-592 | A RESTORE carried out or refused by the target under ASKING keeps the invariant, and leaves the one map as it was exactly when it is refused, or the source has the key, or the target that very value. |
| `Migration.LateLandStep` | internal/server/commands_dump.go:547-551 | The same for a RESTORE carried out at any time and in any phase after its MIGRATE gave up on it. |
| `Migration.MigrateFinishStep` | internal/server/commands_dump.go:603-614 | Ending a MIGRATE at any point, its RESTORE unsent, under way, carried out or acknowledged, keeps the invariant, and leaves the one map as it was exactly when the target has the keys deleted with the source's present values. |
| `Migration.AdminStep` | internal/server/commands_cluster.go:313-351 | Each SETSLOT of the script moves to the next phase, never back, and leaves the one map as it was. |
| `Migration.WhoServes` | internal/server/cluster_redirect.go:85-133 | Only the source (before the slot opens, or when it holds every key named) or the target (when the source holds none of them) ever serves a keyed command. |
| `Migration.ServedAfterTwoRedirects` | internal/server/cluster_redirect.go:99-133 | A single-key command in flight has been redirected at most twice, and after two redirects it is served where it is. |
| `Migration.SourceOnlyShrinks` | internal/server/cluster_redirect.go:85-111 | While the slot is migrating no step adds a key to the source. |
| `Migration.AskStaysValid` | internal/server/cluster_redirect.go:85-111 | A single-key command sent on with ASK, however late it arrives, is served at the target with the reply the one map gives. |
| `Migration.DecisionIsTheNodes` | internal/server/cluster_redirect.go:56-134 | The decision used in the machine is the one the node's own redirect method computes from its table and keyspace. |
| `Redirect.ClusterRedirect` | internal/server/cluster_redirect.go:56-134 | The loops and branches over a command's keys compute the decision function: cross-slot, unbound, TRYAGAIN, ASK, MOVED or serve. |
| `Redirect.CountPresence` | internal/server/cluster_redirect.go:85-98 | The two counters add up to the number of keys and are positive exactly when a key is missing, and when one is present. |
| `Redirect.Session.RedirectKeys` | internal/server/cluster_redirect.go:143-155 | The keys routed: the command's own, or for EXEC those of everything queued. |
| `Redirect.Session.Gate` | internal/server/cluster_redirect.go:165-189 | A command proceeds exactly when the decision is to serve; a refused EXEC discards the transaction and a refused queued command marks it failed. |
| `Redirect.AskingReaches` | internal/server/cluster_redirect.go:191-204 | Over every history of a connection, whatever was refused or redirected: a command is handled under the ASKING flag exactly when an ASKING ran before it and every command in between was itself one or left a transaction open. |
| `Redirect.AskingIsOneShot` | internal/server/commands_tx.go:41-46 | Outside a transaction the command after an ASKING is handled under the flag and the one after that is not. |
| `Redirect.AskingCoversTransaction` | internal/server/cluster_redirect.go:191-204 | An ASKING before MULTI is in force for every command of the transaction and its EXEC, and not after. |
| `Redirect.UnownedNeedsAsking` | internal/server/cluster_redirect.go:99-133 | A node serves a keyed command in a slot it does not own, replica reads and MIGRATE apart, only while importing it and only if an ASKING reached the command. |
| `Redirect.Session.Execute` | internal/server/commands_tx.go:34-47 | One client command, refused on either side of the gate, redirected or run: its fate, the queue, and the flags that `Redirect.AskingReaches` follows. |
| `Redirect.ServedBatchIsOneSlot` | internal/server/cluster_redirect.go:143-155 | All keys of all commands of a transaction that is served hash to one slot. |
| `ClusterTable.ClusterState.PutNode` | internal/server/cluster.go:238-257 | Replaces a node's entry and every pointer to it; the table stays well formed and no owner changes name. |
| `ClusterTable.ClusterState.ApplySlotChange` | internal/server/commands_cluster.go:218-254 | ADDSLOTS and DELSLOTS take a whole batch or nothing, exactly when the slots are distinct and all free (or all assigned); well-formedness kept. |
| `ClusterTable.ClusterState.SetSlotState` | internal/server/commands_cluster.go:272-361 | SETSLOT agrees with the function on node names for every action and refusal, keeps the table well formed, and only NODE changes an owner. |
| `ClusterTable.ClusterState.Forget` | internal/server/commands_cluster.go:383-421 | FORGET removes the node and every pointer to it and nothing else; well-formedness kept. |
| `ClusterTable.ClusterState.Replicate` | internal/server/commands_cluster.go:430-471 | REPLICATE succeeds exactly for a known master when this node owns nothing and holds nothing, and replaces only this node's entry. |
| `ClusterTable.ClusterState.Owns` | internal/server/commands_cluster.go:430-471 | The loop over the table finds whether a node owns a slot. |
| `ClusterTable.ClusterState.Reset` | internal/server/commands_cluster.go:481-523 | RESET on an empty node leaves this node alone with an empty table, under a new name if hard. |
| `ClusterTable.ClusterState.Meet` | internal/server/cluster.go:557-574 | MEET records the peer and gives it exactly the claimed slots nobody here owned; every other slot shows what it did before. |
| `ClusterTable.ClusterState.MarkBothWays` | internal/server/cluster.go:81-89 | IMPORTING, ADDSLOTS and MIGRATING on any unassigned slot end with both markers set. |
| `ClusterTable.SecondMarker` | internal/server/commands_cluster.go:313-335 | A slot with at most one marker gets a second exactly when it is marked for migration while marked for import. |
| `ClusterTable.ReplacedNodeKeepsTable` | internal/server/cluster.go:235-257 | Moving every pointer at an entry to its replacement keeps every pointer current. |
| `ClusterTable.ForgottenNodeKeepsTable` | internal/server/commands_cluster.go:404-417 | Clearing every pointer at a removed node keeps every pointer current. |
| `ClusterTable.ChangedSlotsStayGood` | internal/server/commands_cluster.go:236-251 | The slots changed by a batch stay well formed, and no owner changes from one name to another. |
| `ClusterTable.ClaimsStayGood` | internal/server/cluster.go:562-571 | Adopting claimed slots that nobody owns keeps the table well formed. |
| `WaitQueues.Registry.QueueAhead` | internal/server/blocking.go:123-137 | Whether a waiter for the same type is queued on one of the keys, the count being only a shortcut. |
| `WaitQueues.Registry.Register` | internal/server/blocking.go:140-148 | The waiter goes to the back of each of its keys' queues, once for every time it names the key; every waiter still sits in each queue exactly as often as it names it. |
| `WaitQueues.Registry.Unregister` | internal/server/blocking.go:153-170 | The waiter is gone from every queue, the others keep their order, and no empty queue lingers. |
| `WaitQueues.Registry.WakeKeys` | internal/server/blocking.go:175-193 | Signals the head of each key's queue and nobody else. |
| `WaitQueues.Registry.UnblockClient` | internal/server/blocking.go:291-304 | Finds the client exactly if it is blocked, and ends its wait unless an end is already on its way. |
| `WaitQueues.LeaveIsWithout` | internal/server/blocking.go:155-166 | Removing the first occurrence once per named key removes every occurrence and keeps the order of the rest. |
| `WaitQueues.JoinThenLeave` | internal/server/blocking.go:140-170 | Registering a waiter and unregistering it restores the registry. |
| `Blocking.InvStep` | internal/server/blocking.go:123-193 | Every step of every client, pusher and signaller keeps the invariant on seats, the count, who is woken and who is attended to, with or without a retry after registration. |
| `Blocking.EveryHeadIsAttended` | internal/server/blocking.go:367-479 | In every state of every run, a key with an element and a waiter has its head about to look, about to be signalled by a pusher or handed the key by a departing waiter, or the head was late. |
| `Blocking.OnlyLateHeadsAreStuck` | internal/server/blocking.go:367-479 | When the protocol is at rest, the keys with both an element and a waiter are exactly the late ones; with a retry after registration there are none. |
| `Blocking.SeatingStep` | internal/server/blocking.go:140-170 | Every step keeps each registered client in each queue exactly as often as it names the key. |
| `Blocking.CountingStep` | internal/server/blocking.go:147-169 | The count of blocked clients is the number of clients between counting themselves in and out. |
| `Blocking.HeadKept` | internal/server/blocking.go:140-170 | A head stays head until it leaves. |
| `Blocking.WakingStep` | internal/server/blocking.go:175-193 | Only a client at the head of one of its queues is ever woken or retries. |
| `Blocking.WatchStep` | internal/server/blocking.go:206-238 | Every step, a signaller giving up on a zero count included, leaves each key with an element and a waiter attended to. |
| `Blocking.LateStep` | internal/server/blocking.go:390-453 | A late key has an element and a head that is asleep or leaving, and there is none when registered clients retry. |
| `BlockingRuns.LateExactly` | internal/server/blocking.go:367-453 | A key is late exactly when its head finished registering with an element already there and nobody ahead, and since then the list was never empty and the head consumed no wakeup. |
| `BlockingRuns.LostWakeup` | internal/server/blocking.go:362-402 | A run that ends at rest with an element in the list of a sleeping client. |
| `BlockingRuns.FirstComeFirstServed` | internal/server/blocking.go:390-453 | A client waiting for one key is served after a wakeup only once every client registered on that key before it is gone, as written and with a retry at the head. |
| `BlockingRuns.RetryAlwaysJumpsTheQueue` | internal/server/blocking.go:362-366 | A run in which a retry after every registration serves a client ahead of one that has waited longer. |
| `BlockingRuns.OrderKept` | internal/server/blocking.go:140-170 | Whoever stands ahead in a queue stays ahead until it leaves. |
| `BlockingRuns.SeatsAndWakeups` | internal/server/blocking.go:140-193 | In every state of every run seats match key lists, and whoever is woken while registered heads one of its own queues. |
| `BlockingProgress.InternalStepDescends` | internal/server/blocking.go:367-479 | Every step of the protocol lowers a well-founded measure, so none is taken for ever. |
| `BlockingProgress.CanStep` | internal/server/blocking.go:367-479 | Unless everything is at rest some step of the protocol is possible. |
| `BlockingProgress.ScheduleExists` | internal/server/blocking.go:367-479 | There is such a way to pick, as `BlockingProgress.ComesToRest` asks for: a possible step in every sound state that is not at rest. |
| `BlockingProgress.ComesToRest` | internal/server/blocking.go:367-479 | However the scheduler picks among the possible steps, the protocol comes to rest, with only late heads left waiting for a key that has an element. |
| `BlockingProgress.EveryRunComesToRest` | internal/server/blocking.go:367-479 | The same from every state of every run. |
| `Decimal.ParseCount` | internal/resp/resp.go:408-435 | Accepts exactly an optional sign and digits of magnitude at most the largest int, with that value. |
| `Decimal.ItoaRoundTrip` | internal/resp/resp.go:828-830 | A rendered integer reads back as itself and is one clean line. |
| `Decimal.GuardIsExact` | internal/resp/resp.go:420-430 | The overflow guard refuses exactly the numbers beyond an int. |
| `RespReader.Reader.ReadCommand` | internal/resp/resp.go:222-242 | Arguments, error, remaining input and bytes counted are those of the grammar on the remaining bytes, whatever is buffered; blank and non-positive frames are skipped and the skipping ends. |
| `RespReader.Reader.ReadBufferedCommand` | internal/resp/resp.go:247-300 | Succeeds exactly when a whole well-formed frame is buffered, and then reads what the grammar reads; otherwise changes nothing. |
| `RespReader.Reader.ReadStreamedCommand` | internal/resp/resp.go:335-395 | Reads what the grammar reads from any state of the buffer, errors included. |
| `RespReader.NextLineAt` | internal/resp/resp.go:304-310 | Finds the next line of a frame exactly when there is one. |
| `RespReader.BulkSpan` | internal/resp/resp.go:316-330 | Finds the span of the next bulk string exactly when it is complete, and it is what the grammar reads there. |
| `RespReader.MeasureBulks` | internal/resp/resp.go:271-279 | The first pass succeeds exactly when every bulk string is complete, and measures their payloads. |
| `RespReader.CopyBulks` | internal/resp/resp.go:281-294 | The second pass copies every payload into one block and cuts the arguments the grammar reads out of it. |
| `RespReader.Reader.ReadLine` | internal/resp/resp.go:517-540 | The next line of the input through the buffer, or the end of the input. |
| `RespReader.Reader.ReadFull` | internal/resp/resp.go:387-391 | Exactly the bytes asked for, if there are as many. |
| `CommandCodec.CommandRoundTrip` | internal/resp/resp.go:335-395 | A command's bytes followed by anything read back as its arguments, leave the rest and count their own length. |
| `CommandCodec.CutCommandEndsInput` | internal/resp/resp.go:335-395 | Any proper prefix of a command's bytes reads as an end of input, never as a command: an unexpected one exactly when the cut is inside an argument's payload. |
| `CommandCodec.ReplayOfPrefix` | internal/aof/aof.go:301-326 | Of any prefix of a log, exactly the commands whose frames are complete in it are replayed. |
| `CommandCodec.CompleteInIsMaximal` | internal/aof/aof.go:301-326 | The number of complete frames is the largest whose bytes fit. |
| `CommandCodec.CommandSize` | internal/resp/resp.go:1173-1179 | The size formula is the length of the encoded command. |
| `CommandCodec.EncodeCommandBytes` | internal/server/backlog.go:113-126 | The loop of appends produces the command's bytes. |
| `RespWriter.Writer.Put` | internal/resp/resp.go:717-719 | What is written is delivered in order, however the buffer drains, or dropped while the buffer points at the void. |
| `RespWriter.Writer.Suppress` | internal/resp/resp.go:734-740 | Discards the buffer and what follows, unless already suppressed. |
| `RespWriter.Writer.Resume` | internal/resp/resp.go:743-749 | Delivers again, dropping what was written while suppressed. |
| `RespWriter.Writer.BeginPush` | internal/resp/resp.go:765-770 | The outermost frame while suppressed points the buffer at the connection; an inner one changes nothing. |
| `RespWriter.Writer.EndPush` | internal/resp/resp.go:774-783 | The outermost frame while suppressed leaves in full before the buffer points at the void again. |
| `RespWriter.Writer.WriteCommand` | internal/resp/resp.go:1184-1194 | Writes the array header and one bulk string or null for each argument. |
| `RespWriter.Writer.WriteBulk` | internal/resp/resp.go:834-844 | A bulk string, or the null of the protocol version for nil. |
| `RespWriter.Writer.WriteBool` | internal/resp/resp.go:953-967 | A boolean in RESP3, an integer in RESP2. |
| `RespWriter.Writer.WriteVerbatim` | internal/resp/resp.go:1034-1046 | A verbatim string with its format in RESP3, a bulk string in RESP2. |
| `RespWriter.EncodersAgree` | internal/resp/resp.go:1184-1194 | The two command encoders give the same bytes exactly when no argument is nil. |
| `RespWriter.LoggedCommandReadBack` | internal/resp/resp.go:1184-1194 | A written command reads back as its arguments if none is nil, and as an invalid bulk length otherwise. |
| `ReplyCodec.ReplyRoundTrip` | internal/resp/reply.go:93-159 | For every reply tree within the limits, decoding its RESP2 or RESP3 bytes followed by any tail gives the documented value and leaves the tail. |
| `ReplyCodec.LeafRoundTrip` | internal/resp/reply.go:93-182 | The same for every reply without items: lines, numbers, bulk and verbatim strings, nulls, booleans. |
| `ReplyCodec.ItemsRoundTrip` | internal/resp/reply.go:184-230 | The same for the items of a collection, in order. |
| `ReplyCodec.SameInBothVersions` | internal/resp/reply.go:93-159 | A reply decodes to the same value under both versions exactly when it holds no map, boolean or double and every verbatim format has three bytes. |
| `ReplyCodec.FormatStripped` | internal/resp/reply.go:164-182 | The format of a verbatim string is removed exactly when it has three bytes. |
| `ReplyCodec.NestingLimit` | internal/resp/reply.go:93-96 | Nested arrays decode exactly up to the depth limit. |
| `ReplyCodec.Serialize` | internal/resp/resp.go:798-1046 | The writer methods called over a reply tree put its bytes on the connection. |
| `ReplyCodec.ReadReply` | internal/resp/reply.go:93-159 | Value, error, remaining input and bytes counted are those of the decoding function on the remaining bytes, whatever is buffered, on every error too. |
| `ReplyCodec.ReadReplyBulk` | internal/resp/reply.go:164-182 | The same for bulk and verbatim strings. |
| `ReplyCodec.ReadReplyArray` | internal/resp/reply.go:184-203 | The same for arrays, sets and pushes. |
| `ReplyCodec.ReadReplyMap` | internal/resp/reply.go:212-230 | The same for maps, later entries of one name winning. |
| `Backlog.ReplBacklog.Feed` | internal/server/backlog.go:57-77 | After any write of any size the ring holds the end of the whole stream. |
| `Backlog.ReplBacklog.Read` | internal/server/backlog.go:86-103 | Succeeds exactly for offsets still held, up to and including the end, and returns exactly the stream from there. |
| `Backlog.ReplBacklog.HistLen` | internal/server/backlog.go:104-107 | The history is the stream or the size, whichever is shorter. |
| `Backlog.TailAfterFeed` | internal/server/backlog.go:57-77 | The ring's tail after a write is the tail of the longer stream, a write longer than the ring included. |
| `Backlog.ReplBacklog.Continue` | internal/server/replication.go:195-204 | A replica resuming at a command boundary is served exactly when the ring still holds everything after it, and the bytes sent parse to exactly the commands encoded after it. |
| `Backlog.ResyncIsExact` | internal/server/backlog.go:86-126 | The stream from a command boundary parses to exactly the commands encoded after it. |
| `AofLog.Log.Append` | internal/aof/aof.go:161-178 | An append that succeeds adds one whole record, on disk under the always policy; one that fails adds nothing or one; after a failure nothing is added. |
| `AofLog.Log.Flush` | internal/aof/aof.go:140-150 | A flush that succeeds puts every record on disk. |
| `AofLog.Log.Close` | internal/aof/aof.go:206-214 | A close that succeeds puts every record on disk. |
| `AofLog.Log.Rewrite` | internal/aof/aof.go:223-295 | Leaves the log as it was, or holding exactly the snapshot, on disk; a failed reopening leaves it closed; the old file, with what was flushed into it, joins those a crash may bring back exactly when the directory sync failed, and none may when it succeeded. |
| `AofLog.Load` | internal/aof/aof.go:301-326 | Loads the commands up to the first error of the grammar. |
| `AofServer.Server.Write` | internal/server/server.go:1074-1126 | A write changes the state and appends its record as one step. Acknowledged means that the append succeeded under the always policy, on an open or a closed log: the client is answered before, and a failure is only logged (`server.go:1244-1250`). |
| `AofServer.Server.RewriteAOF` | internal/server/aof_rewrite.go:120-154 | A rewrite, failed or not, keeps the log telling the state; one that fully succeeds leaves no acknowledged write exposed. |
| `AofServer.Server.LogIsTheState` | internal/server/aof_rewrite.go:131-154 | While the log is open and sound, replaying the file and the buffered tail gives the state in memory, and the size is the length of the two. |
| `AofServer.Server.CrashKeepsExactly` | internal/aof/aof.go:161-295 | Every crash, of the log's file or of any replaced file that may come back, keeps every acknowledged write exactly when none came after the log closed or after a replacement the directory may not have on disk. |
| `AofServer.Server.CrashKeepsAcknowledged` | internal/aof/aof.go:161-178 | Then whatever a crash leaves replays to the state after some number of the writes, all acknowledged ones included. |
| `AofServer.Server.ExposedLoses` | internal/aof/aof.go:286-295 | Otherwise there is a crash after which an acknowledged write is not replayed. |
| `AofServer.Server.LoseBehindRename` | internal/aof/aof.go:223-295 | A rewrite with a failed directory sync, an acknowledged write, and a crash that loses it, from any open log under the always policy. |
| `AofServer.Server.LoseBehindClosing` | internal/aof/aof.go:161-178 | The same for a rewrite that cannot reopen its file. |
| `AofServer.Server.Restart` | internal/aof/aof.go:80-96 | A restart on what a crash of the machine left, ending at a whole record, continues from the state after some number of the writes, all acknowledged ones included. |
| `AofServer.Server.Resume` | internal/aof/aof.go:80-96 | A restart of the process alone does so too, with no more of the file durable than was, and with every replaced file that could come back still able to. |
| `AofServer.RestartIsExact` | internal/aof/aof.go:80-96 | What is written after a restart on any crash image is replayed by the next one exactly when the image ended at a whole record. |
| `AofServer.Survives` | internal/aof/aof.go:301-326 | What a crash leaves of any file of the log's history tells a number of the writes, none skipped, with all those it was known to hold on disk. |
| `AofServer.SurvivingRecords` | internal/aof/aof.go:301-326 | Any image of a log that keeps some number of records replays to the base and at least those records. |
| `AofServer.ReopenedLogIsExact` | internal/aof/aof.go:80-96 | A log reopened after a crash replays everything appended later exactly when the crash left no torn record. |
| `AofServer.ReopenAtBoundary` | internal/aof/aof.go:80-96 | After a crash at a frame boundary, old and new records replay in order. |
| `AofServer.TornHeaderMisreads` | internal/aof/aof.go:301-326 | A record appended behind a torn header turns it into an invalid one. |
| `AofServer.TornBodyMisreads` | internal/aof/aof.go:301-326 | A record appended behind a torn body is read, if at all, as the rest of that record. |
| `Dump.EncodeDumpPayload` | internal/server/commands_dump.go:133-145 | The loop produces magic, commands, version and checksum. |
| `Dump.DecodeDumpPayload` | internal/server/commands_dump.go:153-186 | Accepts exactly a payload with that framing whose body is at least one command up to an end of input that is not inside an argument, and returns the whole commands. |
| `Dump.TruncatedBody` | internal/server/commands_dump.go:169-185 | Of a body cut anywhere the whole commands before the cut are accepted, or all is refused exactly when the cut is inside an argument. |
| `Dump.PayloadRoundTrip` | internal/server/commands_dump.go:133-186 | A payload decodes to the commands it was made of, under any checksum. |
| `Dump.Database.RestoreKey` | internal/server/commands_dump.go:344-385 | Adopts the key built in the scratch store, or changes nothing. |
| `Dump.Database.Rebuild` | internal/server/commands_dump.go:350-374 | Runs the allowed, retargeted commands on an empty store and yields the key's value if all succeed and build one. |
| `Dump.Database.Restore` | internal/server/commands_dump.go:271-323 | The whole command: busy key, bad payload, bad data or the new value, in that order. |
| `Dump.RestoreTouchesOneKey` | internal/server/commands_dump.go:344-385 | RESTORE of any payload changes nothing or only the key it names, and replaces a key only when told to. |
| `Dump.DumpThenRestore` | internal/server/commands_dump.go:133-385 | RESTORE of what DUMP returned puts the same value under the key. |
| `Dump.Migrate` | internal/server/commands_dump.go:485-614 | Wherever the connection fails, a lost acknowledgement included, every value is still at the source or at the destination exactly unless the two are one node, COPY is not given and the first key is acknowledged; the source loses exactly the acknowledged keys, and another node has gained, when it returns, those and at most one in doubt. |
| `Dump.MigrateToItself` | internal/server/commands_dump.go:485-614 | MIGRATE of a key with REPLACE to the node's own address leaves every other key and no copy of this one. |
| `Dump.Ship` | internal/server/commands_dump.go:569-594 | The exchange delivers a prefix of the payloads, at most one unacknowledged, and touches nothing else at the destination, which may be the source. |
| `SlotRanges.OwnedSlots` | internal/server/cluster.go:298-318 | One pass yields sorted, disjoint, separated ranges that cover exactly the node's slots. |
| `SlotRanges.SlotRuns` | internal/server/commands_cluster.go:713-735 | One pass yields sorted, disjoint runs of one owner each, no two of one owner touching, covering exactly the owned slots. |
| `SlotRanges.RangesAreMaximal` | internal/server/cluster.go:298-318 | The ranges of a node are exactly the maximal intervals of its slots. |
| `SlotRanges.RunsAreMaximal` | internal/server/commands_cluster.go:713-735 | The runs of the table are exactly the maximal intervals of every owner. |
| `SlotRanges.RenderingsAgree` | internal/server/cluster.go:295-318 | A node's ranges are the table's runs of that node. |
| `ConfigFile.LoadsWhatWasSaved` | internal/server/cluster.go:330-470 | Loading a saved file gives back every node, every owner and this node's identity, with no slot on the move and epoch 0, exactly when every host is plain and every line within the scanner's limit; the same state as saved exactly when besides no slot was on the move and the epoch was 0. |
| `ConfigFile.SaveConfig` | internal/server/cluster.go:443-454 | One line for each node, with the ranges it owns and, on this node's line, the markers, both read off the table; then the vars line. |
| `ConfigFile.MarkersTell` | internal/server/commands_cluster.go:637-646 | A marker is shown exactly for a slot that the table has migrating or importing, with that peer. |
| `ConfigFile.LoadConfig` | internal/server/cluster.go:330-398 | The passes over the file compute the load function, refusing a malformed line or range. |
| `ConfigFile.SaveThenLoad` | internal/server/cluster.go:330-470 | The same on the lines themselves: they restore nodes, owners and identity exactly when every one can be read back. |
| `ConfigFile.LineRoundTrip` | internal/server/commands_cluster.go:612-648 | A node's line is read back as that node exactly when its host is plain and the line fits the scanner. |
| `ConfigFile.AddressRoundTrip` | internal/server/cluster.go:400-422 | An address is read back as written exactly when the host has no comma, colon or bracket. |
| `ConfigFile.RangeRoundTrip` | internal/server/cluster.go:424-438 | A range is read back as written and is not taken for a marker. |
| `ConfigFile.Ipv6HostIsLost` | internal/server/cluster.go:400-422 | The address of a node at ::1 is not read back. |
| `ConfigFile.ManyMarkersAreLost` | internal/server/cluster.go:345-376 | A line with 1400 markers is longer than the scanner takes. |
| `SlotHash.TableCrc16` | internal/server/cluster_slots.go:47-53 | The table-driven loop computes the remainder of long division, bit by bit, by the CRC-16/XMODEM polynomial. |
| `SlotHash.MakeTable` | internal/server/cluster_slots.go:28-45 | Every entry of the table is the remainder for its byte. |
| `SlotHash.RegisterIsCrc` | internal/server/cluster_slots.go:47-53 | Feeding a register byte by byte gives the remainder of the whole message. |
| `SlotHash.KeySlot` | internal/server/cluster_slots.go:74-96 | The slot of a key is that of its hash tag, or of the key. |
| `SlotHash.TagDecides` | internal/server/cluster_slots.go:74-96 | The first non-empty pair of braces decides, whatever surrounds it. |
| `SlotHash.NoTagNoCut` | internal/server/cluster_slots.go:74-96 | Only a non-empty tag is ever cut out of a key. |
| `SortPattern.PatternRule` | internal/server/commands_sort.go:194-204 | Every key a pattern can form is in the slot the pattern promises exactly when its first star comes after its tag. |
| `SortPattern.BehindTagIsConfined` | internal/server/commands_sort.go:387-410 | With the star after the tag, every key formed hashes to the promised slot. |
| `SortOrder.DeterminedExactly` | internal/server/commands_sort.go:208-295 | For elements of any number, repeated ones included, and any stable sort, SORT's answer is the same for every order they come in exactly when no NaN stands beside a different weighed element. |
| `SortOrder.ClashFreeIsDetermined` | internal/server/commands_sort.go:259-284 | Without such a pair the answer is the same for every order. |
| `SortOrder.InsertionSortIsStable` | internal/server/commands_sort.go:263 | The insertion sort, which the library's sort is up to 20 elements, is such a stable sort. |
| `SortOrder.LessTotal` | internal/server/commands_sort.go:263-284 | The comparison orders any two different items one way and only one, unless one weighs NaN and the other something. |
| `SortOrder.LessTransitive` | internal/server/commands_sort.go:263-284 | The comparison is transitive. |
| `SortOrder.SortOrders` | internal/server/commands_sort.go:263-284 | Without a clash any stable sort puts the items in order and loses none. |
| `SortOrder.OneOrder` | internal/server/commands_sort.go:259-262 | There is one way to put items that do not clash in order, repeated ones included. |
| `SortOrder.NaNIsNotDetermined` | internal/server/commands_sort.go:249-253 | With two different elements, one weighing NaN and the other a number, the answer depends on the order they came in, for any stable sort. |
| `ReplyMode.Connection.Serve` | internal/server/commands_client.go:326-370 | Over every sequence of commands, pushes and flushes the client receives exactly the pushes and the replies the on/off/skip-next specification keeps, in order. |
| `ReplyMode.Connection.Handle` | internal/server/commands_client.go:326-370 | One event delivers what the specification says and leaves the state that stands for its next mode. |
| `ReplyMode.Connection.SwitchOn` | internal/server/commands_client.go:53-73 | ON and RESET clear every mode and are answered. |
| `ReplyMode.Connection.Advance` | internal/server/commands_client.go:359-370 | The step after every command: a requested skip begins, a running one ends and delivery resumes unless off. |
| `ReplyMode.Connection.Emit` | internal/resp/resp.go:734-783 | A push is delivered in full whether or not replies are suppressed; a reply only if they are not. |
| `ReplyMode.OnIsAlwaysAnswered` | internal/server/commands_client.go:326-350 | ON and RESET are answered whatever came before. |
| `ReplyMode.SkipHidesOneCommand` | internal/server/commands_client.go:317-350 | SKIP hides the next command's reply and no other, however many pushes come between. |

## Left out

- Migration: one slot moving between two nodes, other nodes only redirecting; replicas and READONLY
  routing are in `Redirect` but take no part in the machine. A node's decision and the command it lets
  through are one step, and a command touches only the keys it names. A MIGRATE reads its batch in one
  step and deletes what was acknowledged in one step. Whether writes wait while MIGRATE runs is a
  parameter of a run.
- Blocking: all waiters want one type and pop; a head that cannot use what arrived keeps the queue. The
  attempts over several keys are one key a step, the check and the pop at one key being one step. The
  sweeps of SWAPDB, FLUSHALL and FLUSHDB are covered as signals that nothing calls for, and the forced
  end of a wait as a client giving up.
- WaitQueues.Registry.WakeKeys: the lock and the channel sends are one call; `Blocking` has them as separate
  steps.
- SortOrder: beyond 20 elements the library merges sorted blocks; that this is a stable sort which asks only
  whether a later item is less than an earlier one is assumed. DESC, LIMIT and GET are not modelled.
- Dump: expiry, IDLETIME and FREQ; the checksum is any function; the handlers of the constructor commands
  and the dump of a value are parameters, assumed to rebuild what they dumped.
- Dump.Migrate: dial, AUTH and SELECT are one parameter; a RESTORE carried out after it returned is a step of
  `Migration`.
- ConfigFile: lines and fields of printable ASCII; the temporary file and its rename; the order of the nodes
  behind this one, and the new address a restarted node announces.
- Redirect.Session.Execute: what a command's handler does beyond the transaction and the ASKING flag; WATCH.
- AofServer: the dump of the state is assumed to replay to it; the automatic rewrite trigger and the
  background sync loop's timing are not modelled.
- Doubles are opaque text in the reply codec, with reading and rendering as parameters.
- The splitting of inline commands is any function of the line.
- The shared limits on clients and memory, authentication, INFO, CONFIG, COMMAND and CLIENT LIST: reporting
  and plumbing.
- The command handlers over the store, the store itself, replication handshakes, Pub/Sub and keyspace
  notifications: thin code around parts that are not modelled.
