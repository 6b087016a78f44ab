# Protocols, caches, credentials and codecs of the command-line tool and its scripts

This project models the parts of the repository where several steps have to fit together, and proves
what they promise together:

- **RPC streams** (`cli/src/rpc.rs`). A stream's queue, write half and `ended` flag sit behind one
  mutex, and a write loop takes the half out while it drains the queue. `StreamMux` has one step per
  lock region, per byte written and per shutdown, in any interleaving, with writers that may fail;
  `StreamTable` is the same table as a class. `StreamReuse` lets an id be used again. `Duplex` adds the
  sending tasks of a duplex call, the ordered channel and the receiver.
- **RPC requests and calls** (`cli/src/rpc.rs`, `cli/src/msgpack_rpc.rs`): `RpcDispatch` counts responses
  and callbacks over whole runs and gives the exact condition under which the dispatch loop can get
  through one batch on its bounded channel; `RpcAnswers` says what each response is. `MsgPack` and
  `MsgPackValues` show that the way bytes are split into reads is invisible, and that objects are
  self-delimiting; `MsgPackDecoding` reads them back (MessagePack specification, section "Formats").
- **Download cache** (`cli/src/download_cache.rs`, `cli/src/state.rs`): `CacheProtocol` runs any number of
  processes through `create`, with a crash or cancellation possible wherever the code allows one, and
  `CacheResults` says when a creation succeeds and what a process returns;
  `CacheLru` and `CacheDirectory` treat the list of recent names and the order in which directories and
  list change; `CacheInterleavings` interleaves the operations of one process, and in `CacheRestarts` saving
  the list may fail.
- **Credentials** (`cli/src/auth.rs`): chunks in the keyring, the failover to a file, the value kept in
  memory, and what the next process finds.
- **Mock policy server** (`scripts/mock-policy-server/server.ts`): validated updates, the state file and
  restoring from it; `PolicyMeaning` says in terms of the posted JSON what is accepted and what it does.
- **Source synchronisation** (`scripts/sync-agent-host-protocol.ts`): edits applied from last to first, and
  merging of duplicate imports down to the text of the lines.
- **Icon encoders** (`scripts/generate-icons.js`): the CRC-32, also as polynomial division, and the BMP and ICO layouts with readers that
  decode them again.

Each protocol is a datatype of actions with an `Enabled` predicate and a step function; the main lemmas
speak about every run. Code that changes an object in place is a class or a method with loops, whose
contract equates the new state with the function that the lemmas are about. The environment's choices
(failures, listings, random ids, what is drawn) are parameters.

Findings that the proofs turned up, each with a concrete run or an exact condition:

- A sealed credential is written without a proper end if its length is an exact multiple of the chunk step
  or its last part ends in the marker. With nothing older behind it, it can then not be read back. Clearing
  succeeds exactly if the text ends properly or reading on behind it finds a text, and all further entries
  opened before are still there (`Keyring.StoreThenReadIff`, `Keyring.ExactMultipleRunsOn`,
  `KeyringStorages.ClearSucceedsIff`).
- A reply that is dispatched between sending a call and registering its callback is lost
  (`RpcDispatch.CallbackAccounting`, `RpcDispatch.EarlyReplyIsLost`).
- The dispatch loop awaits sends on a channel that only it drains. It gets through the messages decoded from
  one read exactly if none of them panics and those it answers or announces at once fit the free slots, so
  nine synchronous requests in one read stop it (`RpcDispatch.BatchCompletesIff`, `RpcDispatch.NineRequestsStop`).
- Inserting a stream under an id that was used before is harmless exactly if no record is left under the id
  (`StreamReuse.ReuseIsHarmlessIff`, `StreamMux.ReusedIdLosesWriter`).
- The comment at `cli/src/download_cache.rs:174-175` says that the reaping prefix cannot match another
  entry's staging directory; it does exactly for an entry whose own name continues the prefix
  (`CacheNames.PrefixMatches`, `CacheNames.MarkedNameIsReaped`).
- Operations interleaved in one process can leave a cache directory that the list does not know. After a
  creation's rename everything is listed exactly if, since its touch, nobody deleted the name and no touch
  found at least five names in front of it and none behind
  (`CacheInterleavings.ListedAfterRenameIff`). From at most five names and with removals that succeed:
  exactly if nobody deleted it and the names used since and not deleted again were fewer than five at any
  time (`CacheInterleavings.ListedWhileFewIff`; runs in `CacheInterleavings.InterleavedCreatesLeak` and
  `CacheInterleavings.DeletionBetweenLeaks`).
- The error of saving the list is ignored. The list in memory still covers every directory, but a restart may
  not. If the file could not be opened, one operation leaks exactly if it creates an entry that the last save
  lacks; if the save was cut off, exactly if the operation got to saving and leaves a directory
  (`CacheRestarts.FailedSaveIff`, `CacheRestarts.CutOffSaveIff`; over whole runs
  `CacheRestarts.RestartKeepsListedIff`; a run in `CacheRestarts.FailedSaveLeaks`).
- Merging imports misbehaves exactly on lines that look like its own placeholder, and a second run changes
  the result exactly if a name is imported both as a type and with an inline `type`
  (`ImportMeaning.KeepsShapeIff`, `ImportMeaning.ThrowsIff`, `ImportMeaning.SecondRunIff`; texts in
  `ImportExamples`).

## Model

| member | source | states |
|---|---|---|
| StreamMux.StreamsRefineFifo | cli/src/rpc.rs:542-631 | in every interleaving with fresh ids: bytes delivered, then those held by the write loop, then those queued are exactly the bytes `write` accepted, in order; a failed writer has delivered a prefix; a half shut down without failing has delivered everything, and only after `remove` |
| StreamMux.AcceptedIsWrites | cli/src/rpc.rs:564-573 | the accepted bytes of a run are its `write` buffers, in call order, that found a record |
| StreamMux.WriterOwnership | cli/src/rpc.rs:531-631 | in every reachable state a write half is in exactly one place (record, one task, shut down once); idle half means empty queue, not ended and no loop; queued data or `ended` means exactly one loop |
| StreamMux.RecordNeverMissing | cli/src/rpc.rs:605-608 | the missing-record branch of the write loop is unreachable |
| StreamMux.RunKeepsInv | cli/src/rpc.rs:542-631 | every step of every run keeps the stream invariant |
| StreamMux.InternalProgress | cli/src/rpc.rs:596-631 | a spawned task can always take a step, which is a failed write only if the writer is broken, and each such step lowers a measure |
| StreamMux.InternalRunsAreBounded | cli/src/rpc.rs:596-631 | without outside calls the tasks take no more steps than that measure |
| StreamMux.RestMeansDelivered | cli/src/rpc.rs:596-631 | when no task can move, an unfailed writer has delivered everything accepted and a removed stream was shut down exactly once |
| StreamMux.ReusedIdLosesWriter | cli/src/rpc.rs:575-584 | inserting twice under one id while a loop runs loses the new write half |
| StreamReuse.VacantReuseKeepsOwnership | cli/src/rpc.rs:542-631 | over any number of uses of one id: as long as every insertion finds no record, each write half is in exactly one place, be it shut down |
| StreamReuse.ReuseIsHarmlessIff | cli/src/rpc.rs:575-584 | inserting under an id again keeps that in every continuation if and only if no record is left under the id |
| StreamTable.Streams.Insert | cli/src/rpc.rs:575-584 | a new record with the idle half; other streams unchanged |
| StreamTable.Streams.Write | cli/src/rpc.rs:564-573 | queues the buffer and hands the half to one new loop if it was idle; other streams unchanged |
| StreamTable.Streams.Remove | cli/src/rpc.rs:543-562 | removes the record and shuts an idle half down once, or marks the stream as ended |
| StreamTable.Streams.TakeTurn | cli/src/rpc.rs:603-621 | the locked block of the write loop: missing, finished, parked, or the whole queue taken |
| StreamTable.Streams.Drain | cli/src/rpc.rs:623-627 | writes the items in order up to the first failure |
| StreamTable.Streams.WriteLoop | cli/src/rpc.rs:596-631 | undisturbed, it writes the whole queue in order and parks the half, or removes the record and shuts down if ended |
| Duplex.FramesConform | cli/src/rpc.rs:453-524 | in every run, with or without streams: `streams_started` comes first, segments have 1 to 4096 bytes, nothing follows a stream's end frame, at most one response |
| Duplex.SegmentsAreRead | cli/src/rpc.rs:477-523 | in every run a stream's segments concatenate to a prefix of what its task read, and to all of it once its end frame is sent |
| Duplex.SendStepKeepsInv | cli/src/rpc.rs:453-524 | every step of the sending tasks keeps that order |
| Duplex.CallStepKeepsInv | cli/src/rpc.rs:278-291 | every step of sender, channel, receiver, end handlers and write loops keeps the invariant of the whole call |
| Duplex.AnsweredOnce | cli/src/rpc.rs:254-271 | in every run: no response before the call is answered, and exactly one once it is answered on an open channel |
| Duplex.DuplexEndToEnd | cli/src/rpc.rs:275-302 | what arrives at the far end of a stream is always a prefix of what its task read, and once everything has come to rest it is all of it, closed exactly once |
| Duplex.RestIsComplete | cli/src/rpc.rs:453-524 | when nothing more can happen on an open channel, the call has been announced first and answered exactly once, and every stream is registered, delivered whole to an unbroken far end, and closed exactly once |
| MsgPack.ScanExtends | cli/src/msgpack_rpc.rs:139-162 | a decided decode stays decided the same way when more bytes arrive |
| MsgPack.ScanPrefix | cli/src/msgpack_rpc.rs:143-150 | no proper prefix of an object decodes or is rejected |
| MsgPack.FramesSplit | cli/src/msgpack_rpc.rs:66-98 | parsing in two reads gives the frames of parsing in one: reading on continues from the leftover |
| MsgPack.FramesPartition | cli/src/msgpack_rpc.rs:71-97 | frames followed by the leftover are exactly the bytes received, each frame is one object, the leftover holds none |
| MsgPack.MsgPackCodec.Decode | cli/src/msgpack_rpc.rs:139-162 | takes exactly one object off the front of the buffer, or nothing if it is incomplete, or fails |
| MsgPack.MsgPackCodec.DecodeAll | cli/src/msgpack_rpc.rs:71-97 | the inner loop takes off all complete objects, in order, and stops at the first that is incomplete or undecodable |
| MsgPack.MsgPackCodec.ReadAll | cli/src/msgpack_rpc.rs:66-98 | however the bytes are split into reads, the frames and the leftover are those of all bytes at once |
| MsgPackValues.FormatsUnderstood | cli/src/msgpack_rpc.rs:27-35 | headers of all formats the encoder writes are read back with their sizes and counts |
| MsgPackValues.OtherFormats | cli/src/msgpack_rpc.rs:139-162 | headers of the formats it does not write, 32-bit floats and extensions, are read with their sizes, and the unused byte is refused |
| MsgPackValues.EncodeIsObject | cli/src/msgpack_rpc.rs:112-117 | every encoded value, of any nesting, is one self-delimiting object |
| MsgPackValues.FramesOfObjects | cli/src/msgpack_rpc.rs:71-97 | a stream of encoded values is cut exactly at the sender's boundaries |
| MsgPackValues.ReadObjects | cli/src/msgpack_rpc.rs:66-98 | reading that stream in any pieces yields the encodings one by one |
| MsgPackDecoding.ReadEncoded | cli/src/msgpack_rpc.rs:27-35 | round trip: every value, of any nesting, with any bytes behind its encoding, is read back, and these bytes are left |
| MsgPackDecoding.EncodingsApart | cli/src/msgpack_rpc.rs:112-117 | no encoding is the beginning of another value's |
| RpcDispatch.OneResponseEach | cli/src/rpc.rs:409-450 | in every run each finished request with an id got exactly one response with that id; notifications and unfinished requests got none |
| RpcAnswers.HandlerIsAnswered | cli/src/rpc.rs:101-271 | in every run, for every request with an id to a registered method: a response if and only if its handler has ended (a synchronous one at once, the others later), with the request's id, and it is the success with exactly the handler's result, code -1 if the handler failed, code 0 if the parameters cannot be decoded |
| RpcAnswers.UnknownIsRefused | cli/src/rpc.rs:429-437 | a request with an id for an unknown method gets code -1, at once |
| RpcDispatch.CallbackAccounting | cli/src/rpc.rs:342-381 | a callback runs at most once, and if and only if a reply with the call's own id is dispatched after it was registered |
| RpcDispatch.EarlyReplyIsLost | cli/src/rpc.rs:356-378 | a run in which the reply comes before the registration: the callback never runs |
| RpcDispatch.BatchCompletesIff | cli/src/msgpack_rpc.rs:59-97 | for any messages decoded from one read: the loop can finish them if and only if none makes it panic, and the slots taken plus the messages it answers or announces at once fit the capacity of 8 |
| RpcAnswers.MixedBatchIff | cli/src/rpc.rs:420-450 | the same in terms of the messages: the loop gets through them if and only if no reply lacks its id and there are free slots for the requests with an id that are synchronous or refused and the duplex calls that can be decoded |
| RpcAnswers.DuplexCallsIff | cli/src/rpc.rs:455-475 | decodable duplex calls: if and only if there are no more than free slots |
| RpcAnswers.AsyncRequestsPass | cli/src/msgpack_rpc.rs:77-84 | any number of asynchronous requests pass |
| RpcDispatch.SyncRequestsIff | cli/src/rpc.rs:101-141 | synchronous requests, whatever their handlers return: the loop gets through them if and only if there are no more than free slots |
| RpcDispatch.NineRequestsStop | cli/src/msgpack_rpc.rs:59-97 | nine requests to one synchronous method in one read stop a loop whose channel is empty |
| RpcAnswers.EightRequestsPass | cli/src/msgpack_rpc.rs:59 | eight still fit |
| RpcDispatch.RpcDispatcher.DispatchWithPartial | cli/src/rpc.rs:420-450 | routes by method kind, refuses unknown methods, and takes at most the named callback out of the table |
| CacheNames.PrefixMatches | cli/src/download_cache.rs:210-216 | for all names: `{name}.staging-` is a prefix of a staging directory of `other` if and only if the names are equal or `other` itself continues that prefix |
| CacheNames.PlainPrefixMatches | cli/src/download_cache.rs:170-180 | for names without the marker: exactly when the names are equal |
| CacheNames.MarkedNameIsReaped | cli/src/download_cache.rs:174-175 | a name pair for which the comment is wrong |
| CacheProtocol.InvHolds | cli/src/download_cache.rs:95-206 | the invariant of lock, staging and target holds in every run of any number of processes with crashes and cancellations |
| CacheProtocol.OneCreatorPerName | cli/src/download_cache.rs:121-183 | at most one process per name is between lock and unlock |
| CacheProtocol.EntriesAreFinished | cli/src/download_cache.rs:178-203 | an entry is never partial |
| CacheProtocol.EntriesAppearByRename | cli/src/download_cache.rs:188-203 | an entry appears only by renaming the process's own staging directory whose creator has finished |
| CacheProtocol.RenameFindsNoEntry | cli/src/download_cache.rs:188-195 | within the protocol the rename never meets an existing entry |
| CacheProtocol.OkMeansSeen | cli/src/download_cache.rs:105-206 | for every process that returns `Ok` there is the one step of its own, a check or its rename, that decides so, and the entry exists right after that step |
| CacheResults.SuccessfulCreate | cli/src/download_cache.rs:95-206 | from any reachable world: a process spawned for a name without an entry on which nobody else works, whose calls succeed and which is not stopped, returns `Ok` within eleven steps plus one for every entry listed, and its entry is there and finished; what others do on other names changes nothing |
| CacheResults.OkIff | cli/src/download_cache.rs:104-203 | in every run: a process decides on `Ok` if and only if it met its entry at one of its checks (before the lock, while waiting for it, or again under it) or made it by its rename |
| CacheResults.ErrorIff | cli/src/download_cache.rs:110-203 | in every run: it decides on an error if and only if it was cancelled, a call failed before the lock was held, the staging directory could not be made, the creator failed, or 21 renames failed |
| CacheResults.ResultIff | cli/src/download_cache.rs:95-206 | a process that has returned: `Ok` exactly if it met or made its entry, an error exactly if it gave up |
| CacheProtocol.LiveStagingIsSafe | cli/src/download_cache.rs:170-183 | nothing others do touches a directory that a live process is filling or about to rename |
| CacheProtocol.UnlockedMeansNoStaging | cli/src/download_cache.rs:118-206 | while nobody holds a name's lock, its staging directories are only leaked ones: on every way out, also on cancellation, the staging directory goes in a step before the lock |
| CacheProtocol.OnlyCrashesLeak | cli/src/download_cache.rs:40-46 | over whole runs: a staging directory counts as leaked if and only if, at some earlier step, the process that owned it crashed or its guard could not remove it |
| CacheProtocol.ReapingIsComplete | cli/src/download_cache.rs:208-220 | over the run from a complete listing to staging: with successful removals no directory with the staging prefix is left when staging begins, whatever others do meanwhile |
| StateFile.PersistedState.LoadOrGet | cli/src/state.rs:46-59 | the cached value, else the file's, else the default; afterwards cached |
| StateFile.PersistedState.Save | cli/src/state.rs:61-85 | caches the value whatever happens to the file, and says what the file holds afterwards |
| CacheLru.RecentMeaning | cli/src/download_cache.rs:222-242 | the reference list holds exactly the used names, once each, ordered by last use |
| CacheLru.ListIsRecency | cli/src/download_cache.rs:222-242 | with successful removals the list is the first five of that reference |
| CacheLru.FailuresBoundLength | cli/src/download_cache.rs:229-238 | with failing removals: no duplicates, the touched name first, at most five plus the number of failures |
| CacheLru.StaysIff | cli/src/download_cache.rs:222-242 | after any earlier uses, a used name is still listed if and only if fewer than five different names were used since |
| CacheDirectory.TouchMeaning | cli/src/download_cache.rs:222-242 | a touched name comes first, no other gets in, and at most one directory goes, never the touched one |
| CacheDirectory.DeleteMeaning | cli/src/download_cache.rs:80-89 | a deletion leaves neither directory nor name, or changes nothing if the directory cannot be removed |
| CacheDirectory.CreateMeaning | cli/src/download_cache.rs:185-206 | a creation that succeeds leaves its directory, its name first in the list, and no other new directory |
| CacheDirectory.AtMostFiveDirectories | cli/src/download_cache.rs:229-238 | over any run of operations and crashes in which removals succeed there are never more than five directories |
| CacheDirectory.PlanKeepsListed | cli/src/download_cache.rs:80-89 | cutting any operation off after any file-system step leaves every directory listed |
| CacheDirectory.NoDirectoryLeaks | cli/src/download_cache.rs:185-242 | over any run of operations with crashes, in which saves succeed, every directory stays listed |
| CacheInterleavings.RenamedIsListedIff | cli/src/download_cache.rs:185-242 | single parts of other operations (touch, rename, removal, deletion from the list) in any order between a creation's touch and its rename, whichever removals fail: the new directory is listed if and only if none of them deleted the name or touched with five names in front of it and none behind |
| CacheInterleavings.ListedAfterRenameIff | cli/src/download_cache.rs:69-203 | the same for whole look-ups, creations and deletions in between, from any listed state: after the rename every directory is listed if and only if none of their parts dropped the name |
| CacheInterleavings.ListedWhileFewIff | cli/src/download_cache.rs:69-242 | from at most five names and with evictions that succeed: if and only if the name was not deleted, and the names used since and not deleted again were always fewer than five |
| CacheInterleavings.ListedByCountIff | cli/src/download_cache.rs:185-203 | without deletions: if and only if fewer than five different names were used in between |
| CacheInterleavings.InterleavedCreatesLeak | cli/src/download_cache.rs:185-203 | a run: five other names created in between, and the renamed directory is not listed |
| CacheInterleavings.DeletionBetweenLeaks | cli/src/download_cache.rs:80-89 | a run: the name is deleted in between, and the renamed directory is not listed |
| CacheRestarts.MemoryCoversDirectories | cli/src/download_cache.rs:185-187 | over any run with failing or cut-off saves and crashes: the list in memory covers every directory, as long as each restart follows a written save |
| CacheRestarts.RestartKeepsListedIff | cli/src/state.rs:46-85 | from a written save on, over any run of operations, crashes and restarts in which every save fails: the next restart finds every directory listed if and only if each directory made meanwhile under a name that the save lacks was removed again, and, if a save was cut off, every old and new directory was removed |
| CacheRestarts.FailedSaveIff | cli/src/state.rs:61-85 | one operation whose save cannot open the file: a restart finds every directory listed if and only if the operation is not a creation of a new entry missing from the last save |
| CacheRestarts.CutOffSaveIff | cli/src/state.rs:61-85 | one operation whose save is cut off: if and only if the operation does not get to saving, or leaves no directory |
| CacheRestarts.FailedSaveLeaks | cli/src/download_cache.rs:185-203 | one failed save, the rename and a restart: the directory is not listed |
| CacheDirectory.DownloadCache.Touch | cli/src/download_cache.rs:222-242 | new list, evicted directory and file |
| CacheDirectory.DownloadCache.Exists | cli/src/download_cache.rs:69-77 | answers whether the entry is there and marks it as used |
| CacheDirectory.DownloadCache.Delete | cli/src/download_cache.rs:80-89 | removes the directory before the list entry, or fails with both kept |
| CacheDirectory.DownloadCache.Create | cli/src/download_cache.rs:95-206 | lists the name before the directory appears |
| Keyring.ReadChunks | cli/src/auth.rs:326-371 | what reading the entries of a stored text returns, whatever lies behind them |
| Keyring.StoreThenRead | cli/src/auth.rs:349-371 | reading after a store returns the text, whatever was stored before, if its length is no multiple of the step and its last part does not end in the marker |
| Keyring.StoreThenReadIff | cli/src/auth.rs:353-363 | without older entries behind it that condition is exact, and otherwise nothing is found |
| Keyring.ExactMultipleRunsOn | cli/src/auth.rs:357-360 | at an exact multiple reading runs on into older entries |
| Keyring.MarkerTextIsLost | cli/src/auth.rs:340-345 | the text `<MORE>`, stored in an empty keyring, is not found again |
| KeyringStorages.ClearThenRead | cli/src/auth.rs:373-383 | after a successful clear there is nothing to read |
| KeyringStorages.OpenedCount | cli/src/auth.rs:326-347 | reading a stored text opens its own entries, and beyond them exactly, if it is not properly terminated, what reading on behind it opens |
| KeyringStorages.ClearSucceedsIff | cli/src/auth.rs:373-383 | clearing a stored text, whatever older entries lie behind it, succeeds if and only if the text is properly terminated or reading on finds a text, and all further entries opened before are still there |
| KeyringStorages.ClearFailsAtExactMultiple | cli/src/auth.rs:373-379 | clearing a text of exactly filled chunks fails after deleting all its own entries |
| KeyringStorages.KeyringStorage.Read | cli/src/auth.rs:327-347 | the loop computes the read function and remembers the entries opened |
| KeyringStorages.KeyringStorage.Store | cli/src/auth.rs:349-371 | the loop writes the chunks in order until one fails, and every entry it writes has at most `limit` characters |
| KeyringStorages.KeyringStorage.Clear | cli/src/auth.rs:373-383 | reads first, then deletes every opened entry until one fails |
| Auth.CredentialsSurviveRestart | cli/src/auth.rs:439-521 | over any run of stores, clears, failures and restarts: when the storage took the latest value, a restarted process has the value this one has in memory |
| Auth.AcceptedStoreSurvives | cli/src/auth.rs:615-637 | a credential that one backend accepts is what the next process finds |
| Auth.ClearSurvives | cli/src/auth.rs:515-521 | after a successful clear the next process finds no credential |
| Auth.StoredInKeyringSurvivesIff | cli/src/auth.rs:349-371 | a credential taken by the keyring survives if and only if its text is properly terminated |
| Auth.KeyringChosenIff | cli/src/auth.rs:457-484 | the keyring is chosen if and only if the user does not ask for the file, there is none, and every entry that reading opens can be accessed; the value is that of the chosen backend |
| Auth.StepKeepsInv | cli/src/auth.rs:439-521 | every operation keeps file, keyring and memory consistent |
| Auth.Auth.WithStorage | cli/src/auth.rs:439-488 | chooses keyring or file once and keeps what was read |
| Auth.Auth.GetCurrentCredential | cli/src/auth.rs:506-512 | returns the value in memory and leaves it there |
| Auth.Auth.StoreCredentials | cli/src/auth.rs:615-637 | the value in memory is the new one; storage and fallback change as in the run model |
| Auth.Auth.ClearCredentials | cli/src/auth.rs:515-521 | forgets the value only if the storage was cleared |
| PolicyMeaning.AcceptedIff | scripts/mock-policy-server/server.ts:324-392 | exactly which payloads are accepted, in terms of their JSON fields, the endpoints and their presets |
| PolicyMeaning.RefusedForFirst | scripts/mock-policy-server/server.ts:343-392 | a list is refused because of its first bad record, for the fault of this record that is checked first |
| PolicyMeaning.UpdateMeaning | scripts/mock-policy-server/server.ts:409-435 | field by field, for every record of an accepted payload: an explicit field wins; otherwise, with a preset, the status is the preset's or 200, the body is the preset's and the endpoint is active; otherwise the old value stays; other endpoints are unchanged |
| PolicyMeaning.DefaultMeaning | scripts/mock-policy-server/server.ts:450-462 | every endpoint's default: status (or 200) and body of its first preset, JSON mode, active if mocked by default |
| PolicyServer.RestoreAfterSave | scripts/mock-policy-server/server.ts:489-511 | restoring from what was saved gives back the state |
| PolicyServer.BulkEqualsSingles | scripts/mock-policy-server/server.ts:324-442 | an accepted bulk update equals its items sent singly, in any order, all accepted |
| PolicyServer.RestoreAgreesWithMemory | scripts/mock-policy-server/server.ts:437-511 | over any run of updates, resets, failed writes, crashes and restarts, re-initialising from the file rebuilds the state in memory |
| PolicyServer.CommitIsAtomic | scripts/mock-policy-server/server.ts:437-440 | a crash leaves the complete old or new state; a refused payload or failed write changes nothing |
| PolicyServer.Server.ValidateUpdates | scripts/mock-policy-server/server.ts:343-407 | the loop refuses the first bad update for its first reason, or returns all updates |
| PolicyServer.Server.NextState | scripts/mock-policy-server/server.ts:409-435 | the updates applied in order to a copy |
| PolicyServer.Server.ApplyEndpointUpdates | scripts/mock-policy-server/server.ts:324-442 | accepted, refused or failed, with the state and the file in each case |
| PolicyServer.Server.CreateDefaultEndpointState | scripts/mock-policy-server/server.ts:450-462 | the defaults of all endpoints |
| PolicyServer.Server.PersistEndpointState | scripts/mock-policy-server/server.ts:489-511 | the file holds the whole saved state, or is what it was |
| PolicyServer.Server.ResetEndpointState | scripts/mock-policy-server/server.ts:444-448 | defaults in memory and file, or nothing changed |
| PolicyServer.Server.InitializeEndpointState | scripts/mock-policy-server/server.ts:471-487 | the restored state; an invalid file gives the defaults |
| PolicyServer.Server.Post | scripts/mock-policy-server/server.ts:437-441 | one step of the run model; state and file agree afterwards |
| TextEdits.ApplyEdits | scripts/sync-agent-host-protocol.ts:55-60 | the loop applies any list of edits from the last to the first |
| TextEdits.LastToFirstIsSimultaneous | scripts/sync-agent-host-protocol.ts:55-60 | for ordered edits this equals replacing all spans of the original text at once |
| TextEdits.OrderMatters | scripts/sync-agent-host-protocol.ts:55-60 | unordered edits hit text that moved |
| TextEdits.KeptCharacters | scripts/sync-agent-host-protocol.ts:58-59 | every character outside the spans is kept, moved by what was replaced before it |
| TextEdits.InsertedTexts | scripts/sync-agent-host-protocol.ts:58-59 | every new text stands, character by character, where its span was, moved likewise |
| TextEdits.ReplacedLength | scripts/sync-agent-host-protocol.ts:58-59 | nothing else is in the result |
| ImportLines.MatchPrinted | scripts/sync-agent-host-protocol.ts:172-173 | the regular expressions give back the groups of a printed line |
| ImportLines.MatchIff | scripts/sync-agent-host-protocol.ts:172-173 | a line matches with given groups if and only if it consists of exactly these parts: names without a closing brace, a module without a quote, and nothing behind the semicolon |
| ImportLines.OtherIff | scripts/sync-agent-host-protocol.ts:192-194 | a line is left alone if and only if it is no import of either form |
| ImportLines.NamesAreClean | scripts/sync-agent-host-protocol.ts:180 | listed names are trimmed, not empty and without commas |
| ImportLines.ParsePrinted | scripts/sync-agent-host-protocol.ts:208-213 | a printed import line reads back as its names and module |
| ImportMerge.CollectImports | scripts/sync-agent-host-protocol.ts:167-199 | the first loop's map and its list with placeholders |
| ImportMerge.RestoreImports | scripts/sync-agent-host-protocol.ts:201-219 | the second loop: placeholders replaced in order, or the exception |
| ImportMerge.MergeDuplicateImports | scripts/sync-agent-host-protocol.ts:158-220 | both loops compute the merge function |
| ImportMerge.CollectedAt | scripts/sync-agent-host-protocol.ts:175-194 | the map holds, for each imported module, all its type and value names in order |
| ImportMeaning.KeepsShapeIff | scripts/sync-agent-host-protocol.ts:158-220 | one import per module, at the place of its first one, other lines in order: exactly if no other line looks like a placeholder |
| ImportMeaning.ThrowsIff | scripts/sync-agent-host-protocol.ts:202-204 | the merge throws exactly if a line names, as a placeholder, a module that is not imported |
| ImportMeaning.KeepsBindings | scripts/sync-agent-host-protocol.ts:205-216 | every module keeps its set of value names and its set of type names, inline `type` included |
| ImportMeaning.SecondRunIff | scripts/sync-agent-host-protocol.ts:158-220 | a second run changes nothing exactly if no name is imported both as a type and with an inline `type` |
| ImportExamples.TypeAndValueText | scripts/sync-agent-host-protocol.ts:153-157 | the example in the source's description: a type and a value import become `import { B, type A }` |
| ImportExamples.DanglingText | scripts/sync-agent-host-protocol.ts:202-204 | the single line `__IMPORT_PLACEHOLDER__m` makes the merge throw |
| ImportExamples.PlaceholderLines | scripts/sync-agent-host-protocol.ts:201-219 | an import of a module followed by its placeholder line: nothing throws, but the line has become another import |
| ImportExamples.SecondRunChangesText | scripts/sync-agent-host-protocol.ts:205-216 | `import type { A }` and `import { type A }` of one module: a second run changes the merged file |
| CrcDivision.Crc32 | scripts/generate-icons.js:266-275 | the two loops compute the complemented remainder of the message as a polynomial (times the 32nd power, its first 32 coefficients complemented) by the generator polynomial; for the bytes of `IEND` the value is 0xAE426082 |
| CrcDivision.ChecksumIsRemainder | scripts/generate-icons.js:266-275 | the same law about the checksum function, for every message |
| CrcDivision.GeneratorBits | scripts/generate-icons.js:271 | the constant of the loop holds the coefficients of the generator polynomial, the highest in its lowest bit |
| Crc.UpdateBijective | scripts/generate-icons.js:269-272 | for each byte every running value has exactly one predecessor |
| Crc.WordOfFold | scripts/generate-icons.js:268-273 | the loop on 32-bit numbers agrees with the loop on lists of bits |
| CrcBursts.MessagesLinear | scripts/generate-icons.js:268-273 | the running value is linear over xor in start value and message together |
| CrcBursts.MessageIsBits | scripts/generate-icons.js:268-273 | taking in bytes is taking in their bits one by one |
| CrcBursts.DetectsShortBursts | scripts/generate-icons.js:266-275 | equal-length messages that differ only within 32 consecutive bits never share a checksum |
| CrcBursts.DetectsFourBytes | scripts/generate-icons.js:266-275 | nor do messages that differ only within four consecutive bytes |
| CrcBursts.LongerBurstsCollide | scripts/generate-icons.js:266-275 | 33 bits are too many: from every value two strings of 33 bits lead to the same one |
| Bmp.GenerateBmp | scripts/generate-icons.js:50-129 | succeeds exactly if all fields can hold their values, and then the buffer is header plus rows from the bottom |
| Bmp.DrawRows | scripts/generate-icons.js:90-126 | every row is drawn at its own place over zeros, nothing else changes |
| BmpReading.BmpReadsBack | scripts/generate-icons.js:50-129 | a reader that goes by the file's fields, and refuses any wrong one, gets back exactly the picture drawn, for all sizes that fit |
| BmpReading.PlacesApart | scripts/generate-icons.js:110-119 | no two colour bytes share a place |
| BmpReading.PlaceInside | scripts/generate-icons.js:110-119 | every pixel's three bytes are inside the pixel data |
| BmpReading.PaddingApart | scripts/generate-icons.js:52 | no colour byte lies in the padding of a row |
| BmpReading.PaddingIsZero | scripts/generate-icons.js:52-56 | the padding is zero |
| Ico.GenerateIco | scripts/generate-icons.js:134-180 | succeeds exactly if all fields can hold their values, and then the buffer is header, directory and images |
| Ico.CollectEntries | scripts/generate-icons.js:135-151 | each entry's offset is where the images before it end |
| Ico.DoubleFits | scripts/generate-icons.js:147 | writing the doubled height never fails |
| Ico.CopyImage | scripts/generate-icons.js:176 | one image is copied to its entry's offset, right behind the images before it |
| Ico.CopyImages | scripts/generate-icons.js:175-177 | the images fill the file behind the directory, in order, to its end |
| IcoReading.OffsetsTile | scripts/generate-icons.js:140-153 | the ranges start behind the directory, follow each other without gap or overlap, and end with the file |
| IcoReading.RangeHoldsImage | scripts/generate-icons.js:162-177 | each range holds its own image |
| IcoReading.IcoReadsBack | scripts/generate-icons.js:134-180 | following any directory entry gives the picture drawn for its size, and its side bytes are the size, or zero from 256 on |
| IcoReading.IcoCount | scripts/generate-icons.js:157-159 | the header marks an icon file and counts the entries |

## Left out

- StreamMux.StreamsRefineFifo: ids are fresh, that is, fewer than 2^32 allocations of the wrapping counter; when an id may be used again is in `StreamReuse`, which tracks write halves but not bytes. The far end takes every byte at once: there is no backpressure, a slow reader appears as a task that takes no step.
- StreamTable.Streams.WriteLoop: its contract is about a stream that no other task touches meanwhile; interleavings are in `StreamMux`.
- Duplex.DuplexEndToEnd: only the sending side of `streams_started` is in `cli/src/rpc.rs`; the receiving end is taken as its mirror, which registers the announced streams when the message arrives.
- RpcDispatch.OneResponseEach: responses are counted when they are handed to the writing side; a channel or connection that is already closed loses them.
- RpcDispatch.BatchCompletesIff: the messages of one read on the bounded channel, on which other tasks may send as well; fairness of the runtime's scheduling is not part of this model.
- MsgPack.FramesPartition: a frame is decided by its MessagePack extent; type errors, UTF-8 errors and the nesting limit of the decoder library are not part of this model.
- MsgPackDecoding.ReadEncoded: the reader follows the specification; how the receiver fits values to its own types is not part of this model.
- CacheProtocol.InvHolds: `FileLock` is taken as an operating-system lock released on exit and crash, rename and recursive removal are atomic, creators write only into the path they were given, and names of entries do not contain the staging marker (`CacheNames.MarkedNameIsReaped` shows one that does).
- CacheDirectory.NoDirectoryLeaks: one process running one operation at a time, and each save of the list succeeds in one step; failing and cut-off saves are in `CacheRestarts`, and the lists of several processes are not part of this model.
- CacheInterleavings.ListedAfterRenameIff: other operations run to their end, since a crash would stop the creation as well, and none of them creates the same name, whose lock is held; an update of the list with its eviction is one step, as it runs under a mutex.
- CacheDirectory.DownloadCache.Create: the call with nobody else around; its locking is in `CacheProtocol`.
- Auth.CredentialsSurviveRestart: the environment setting is constant over the run, and unsealing is a fixed function that inverts sealing; encryption is not part of this model. The keyring must be readable if there is no file.
- KeyringStorages.KeyringStorage.Store: texts are ASCII, so that byte positions and characters agree; other text would also hit the slicing panic.
- TextEdits.LastToFirstIsSimultaneous: that the formatter returns ordered edits inside the text is its contract and is assumed.
- ImportMerge.MergeDuplicateImports: starts from lines; collapsing of multi-line imports, CRLF and the final join are not part of this model.
- Bmp.GenerateBmp: what is drawn at a pixel is a parameter, so stroke geometry and rounding are not part of this model; sizes are natural numbers.
- Ico.GenerateIco: the writer adds no mask rows although the doubled height announces them; the reader in `IcoReading` halves the height.
- `register_sync`, `register_async` and `register_duplex` appear by what they answer; the panic on a duplicate name of a synchronous method is not modelled.
- `ThreadKeyringStorage` and its time limit, login flows, token refresh and keep-alive timers.
- HTTP routing, passthrough and schema handling of the mock policy server; JSON text itself (payloads are parsed values).
- Waiting times, logging and heartbeats in the cache; `convertIndentation` and header stripping in the sync script: easy members.
- SVG output and the zlib part of PNG files.
