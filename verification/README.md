# Verified model of zz-drop

zz-drop moves files between a local directory and a cloud folder. A long-lived agent keeps an unlocked set of provider
profiles in RAM, answers one connection at a time, caches remote listings and one warm provider client, rewrites the
encrypted container when a profile changes, locks itself when its time to live runs out and exits when idle. CLI
commands and the TUI are separate processes that talk to it or write the container beside it. Around it stand the
command grammar, the shell completer, bulk upload and download over a remote tree, and a few codecs.

This project models that logic in Dafny and proves its safety and correctness properties.

    dafny verify dfyconfig.toml

## How the model is built

- **The agent.** `AgentModel` has every transition as a function on values. `AgentObjects` and `ListCaches` have the
  objects of the source, with fields updated in place; every method is proved equal to the transition of the same
  meaning. `AgentRequests` says field by field what each request does and answers, `AgentSafety` what all runs keep,
  `ServerLoops` treats the accept loop and its exit, `Containers` the rewriting of the container file with every intermediate disk state, `SharedSaves` several processes rewriting it at
  once, `Writers` the CLI and TUI commands, `MultiWriters` all processes interleaved with the agent, `Witnesses` concrete
  runs.
- **Save and download.** `RemoteTrees` is the in-memory remote, `Collisions` the names it tries when one is taken;
  `LocalWalk`, `SaveAll`, `Download` the two recursive commands, with `PathTexts` saying where the text of a path leads;
  `Mirror` the theorem that one undoes the other; `SaveCommands` the save command around the agent and what its
  invalidation leaves; `Glob` the remote globs; `UserPaths` and `DownloadFiles` downloads of named files.
- **Text in and out.** `GlobalFlags` and `Grammar` with `CommandLines` (command line), `Completion`, `Positions` and
  `AgentCompletion` (shell completion), `Ndjson` (its output), `CivilDate` (timestamps), `Sidecars`, `Framing`, with `Utf8`, `Decimal`,
  `ByteOrders`, `Sorting`, `Text`, `Basics` below them.

Cached listings carry a history field saying which profile the asking client was built from and what the provider
answered. No operation reads it; it lets "fetched with the active profile" be stated. Strings are sequences of Unicode
scalar values; where the source works on bytes (sidecar limits, globs, frames) the model encodes them as UTF-8. Clocks,
provider answers, disk faults, directory contents and the environment are parameters quantified over.

## What the source does not quite promise

Each of these is stated as the exact condition under which the expected property holds, with a concrete input that
breaks it.

- `unlock` does not drop the completion caches, unlike every other change of the active profile. The caches are coherent
  throughout a run if and only if every Unlock arrives with empty caches or keeps the active profile
  (`CoherentThroughout`); a run from start-up that serves the old profile's listing is `OldListingIsServed`.
- An unlock reads the container, waits for a passphrase, may rewrite the container under a stronger key, and sends what it
  read; a command fetches its profile, works, and sends it back, and the agent matches it by alias alone. After the TUI's
  save and acknowledged push, and as long as nobody brings in another set of their own or wipes, the profiles stay as
  pushed, by alias and id, if and only if no unlock takes effect with another set that it had read before the push, no
  command's update with another id under one of the aliases that it had fetched before, and no such update by any other
  client (`PushedProfilesStay`). The aliases alone stay if and only if no such unlock takes effect (`PushedAliasesStay`).
  `AddedProfileIsLost` is a run that loses an alias, `DeletedProfileComesBack` one that keeps the aliases and exchanges a
  profile added again for the deleted one.
- Between the TUI's save and its push, an update from the CLI writes the agent's set over the saved one
  (`UpdateBeforePushUndoesTheSave`, at a concrete input `SaveIsUndoneBeforePush`).
- All savers share one sibling file. The container is whole at every point if and only if every rename finds a sibling
  whose last text since its truncation is complete and no shorter than those before it, and the same holds of what is
  written to a file already renamed (`WholeIffSafe`); saves that take turns are safe however they end
  (`SavesInTurnAreSafe`), `TornContainer`, `SecondTextOverFirst` and `OverwrittenContainer` are interleavings that need
  not be.
- A save-all invalidates its destination and the directories above it, not the directories below it that a recursive save
  fills, and nothing after a batch with a failure (`FailureInvalidatesNothing`), although docs/sacs.md speaks of the
  file's own directory. A directory changes if and only if it receives a file or a new subdirectory
  (`ChangedDirectories`), and a listing of a changed directory is left if and only if one was cached of a changed
  directory strictly below the destination (`StaleListingsLeft`); `NestedListingSurvives` and
  `CrowdedBatchLeavesStaleListing` show both.
- Cache keys hold the prefix as it was typed, while invalidation walks normalised prefixes. Listings of ancestors are gone
  if and only if no cached key spells one of them differently (`NoAncestorSurvives`); `docs/` is one that survives
  (`TrailingSlashEntrySurvives`).
- A cache hit ignores the requested maximum (`HitIgnoresRequestedMaximum`, `HitIsLongerThanAsked`), and `truncated` is
  judged before the kind filter, so it can be a false alarm (`TruncationFalseAlarm`, `CompleteListingIsFlagged`).
- A failed listing fills nothing, but the lookup before it may have dropped an expired entry (`FailedListingIsNotCached`,
  `FailureDropsExpiredEntry`).
- Auto-lock is not activity, a lock on request is: an agent locked by its TTL can exit on that very tick
  (`AutoLockCanExitAtOnce`, with the default times `LocksAndExitsAtOnce`).
- Where nothing local is in the way, the mirror is exact if and only if all names are safe local components and the prefix
  can be listed (`MirrorIsExact`): a name with a backslash is saved and not fetched (`BackslashNameIsSelectedButUnsafe`),
  and a tree without files saved below a prefix that does not exist leaves nothing to download, which counts as one
  failure (`EmptyTreeIsNotMirrored`).
- Renamed files are documented to sort by time. They do across seconds, whatever their numbers (`RenamesSortByTime`).
  Within one second the first rename sorts before a later one if and only if the name has no extension
  (`FirstRenameSortsFirst`), and later ones sort as their numbers do as text (`LaterRenamesSortAsText`): the tenth comes
  before the ninth (`TenthSortsBeforeNinth`).
- The parser has an error for letters that no verb has, and never gives it for them: such a token is a file name. It is
  given for `r` without `a` alone (`ParserRefuses`). A line of files alone and the same line behind `s` mean the same if
  and only if the last file has no slash at its end (`BareLineIsSLine`).
- `?` in a glob is documented as one character and is one byte (`QuestionIsOneByte`, `AccentedLetterIsNotOneByte`).
- A file whose name holds `*` or `?` cannot always be named alone: it is fetched, but together with every other file of
  its directory that its name matches, when it is read as a glob (`StoredFileIsExpanded`, `StoredFileArrives`).
- An email and an alias that are each accepted may together be unreadable: exactly when their lengths sum to more than
  254 bytes (`PairRoundTrip`, `AnAcceptedPairCanBeUnreadable`).
- Behind a word ending in `/` the completer lists the parent and offers its names as if they were below the word
  (`RemoteValueIsListedPath`, `TrailingSlashListsTheRoot`). The footer of remote groups says "newest first", but those
  groups are sorted by name.
- A container flag silences `ZZ_CONTAINER` without an error, although the error text of conflicting flags speaks of a
  conflict with it (`ParseGlobal`).

## Model

| member | source | states |
|---|---|---|
| RemotePrefix.WalkToRoot | src/agent/list_cache.rs:209-223 | the loop yields exactly the chain of ever shorter prefixes, then the root |
| RemotePrefix.SegmentsArePieces | src/agent/list_cache.rs:209-223 | the segments of a prefix are the pieces between its slashes that are not empty, `.` or `..`; trimming its ends changes nothing |
| RemotePrefix.ChainAt | src/agent/list_cache.rs:209-223 | position k of the chain is the prefix with k segments removed; the root is last |
| RemotePrefix.ChainIsDistinct | src/agent/list_cache.rs:209-223 | no prefix occurs twice in a chain |
| RemotePrefix.InChain | src/agent/list_cache.rs:209-223 | a prefix is in the chain iff it is canonical, non-empty and its segments are an initial part; siblings sharing only characters are not |
| RemotePrefix.ParentChainIsSuffix | src/agent/list_cache.rs:209-223 | for a canonical prefix the chain is itself followed by its parent's chain |
| RemotePrefix.NormaliseIdempotent | src/agent/list_cache.rs:209-223 | splitting and joining is idempotent and yields canonical prefixes |
| ListCaches.Lookup | src/agent/list_cache.rs:125-147 | a lookup answers iff there is an entry no older than the TTL, and removes only an expired one |
| ListCaches.InvalidationIsExact | src/agent/list_cache.rs:171-175 | invalidation removes exactly the entries, of every kind, whose key is the root or a canonical ancestor or the target; the others stay as they were |
| ListCaches.NoAncestorSurvives | src/agent/list_cache.rs:43-46 | no listing of an ancestor directory survives iff every such cached key is spelled canonically |
| ListCaches.TrailingSlashEntrySurvives | src/agent/list_cache.rs:43-46 | the concrete key `docs/` survives an invalidation of `docs` |
| ListCaches.ListCache.Get | src/agent/list_cache.rs:125-147 | map and answer are those of the lookup |
| ListCaches.ListCache.Put | src/agent/list_cache.rs:149-165 | the map gains exactly that entry |
| ListCaches.ListCache.InvalidatePrefixToRoot | src/agent/list_cache.rs:171-175 | one retain pass per chain element leaves exactly the entries outside the chain |
| Profiles.FindByAlias | core/src/profile/set.rs:59-69 | a set contains an alias iff it is among its aliases; what is found carries it |
| Profiles.ReplaceKeepsTheRest | src/agent/state.rs:207-232 | replacing a profile keeps the alias sequence, the schema version and every other position, and the new one is found |
| Profiles.ReplaceKeepsOthers | src/agent/state.rs:207-232 | every other alias still finds the same profile |
| Containers.ContainerFile.Save | src/agent/state.rs:260-328 | with no other save under way, at every intermediate state the container is the whole old or the whole new envelope; success means it opens to the set, failure that it is unchanged |
| SharedSaves.WholeIffSafe | src/agent/state.rs:293-305 | in every interleaving of saves by any processes, failing ones included, the container is whole at every point iff every rename finds a sibling whose last text since truncation is complete and covers those before it, and so does whatever is written to a file already renamed |
| SharedSaves.SavesInTurnAreSafe | core/src/profile/rotation.rs:53-81 | saves that take turns, however each of them ends, keep it whole at every point and leave the last text that finished |
| SharedSaves.TornContainer | tui/src/cli.rs:935-943 | a truncation between another save's write and rename empties the container |
| SharedSaves.SecondTextOverFirst | tui/src/cli.rs:935-943 | two texts written before the first rename leave the second whole iff it is no shorter |
| SharedSaves.OverwrittenContainer | tui/src/cli.rs:935-943 | a write through a file opened before another save's rename lands in the live container, which is whole iff the text covers the other |
| AgentObjects.RemoteClientCache.WithClient | src/agent/remote_client.rs:86-117 | the warm client is reused while the profile id matches and rebuilt otherwise; a failed build changes nothing |
| AgentObjects.AgentState.UnlockWith | src/agent/state.rs:94-128 | the new state of an unlock, with the caches left as they were |
| AgentObjects.AgentState.LockNow | src/agent/state.rs:130-154 | a lock forgets set, key, alias and clock, drops both caches and counts as activity |
| AgentObjects.AgentState.CheckTtlAndLock | src/agent/state.rs:331-352 | locks iff the TTL has passed, without counting as activity |
| AgentObjects.AgentState.GetActiveProfileRenewingTtl | src/agent/state.rs:167-180 | renews both clocks and returns the active profile |
| AgentObjects.AgentState.SetActiveAliasTo | src/agent/state.rs:185-205 | switches and drops the caches iff unlocked and the alias is known; otherwise nothing changes |
| AgentObjects.AgentState.Persist | src/agent/state.rs:260-328 | Ok means the disk opens to the set, Err that it is unchanged; with no other save under way no crash point shows anything but old or new |
| AgentObjects.AgentState.UpdateOneProfile | src/agent/state.rs:207-232 | replaces the first profile of that alias, drops caches iff it is the active one, then persists |
| AgentObjects.AgentState.ReplaceProfileSet | src/agent/state.rs:238-258 | replaces the set, forgets an alias that is gone, drops caches, then persists |
| AgentObjects.AgentState.ListRemoteAt | src/agent/state.rs:390-470 | reply and state of a listing: hit, renewal on a miss, error paths, filter, cap and put |
| AgentObjects.AgentState.InvalidateRemotePrefix | src/agent/state.rs:474-478 | only the list cache changes, by exactly the chain |
| AgentObjects.AgentState.DispatchRequest | src/agent/server.rs:232-337 | every request arm has the reply and effect of its transition |
| AgentObjects.AgentState.ServeRequest | src/agent/server.rs:182-230 | every request counts as activity before it is dispatched; Exit raises the exit flag |
| AgentRequests.StartsLocked | src/agent/state.rs:76-92 | an agent starts with nothing in RAM, the TTL it was given, its activity clock at the start and the flag down |
| AgentRequests.LockForgets | src/agent/state.rs:130-154 | in every run, after a Lock set, key, alias, clock, list cache and warm client are gone, the disk is unchanged and the activity clock is the Lock's |
| AgentRequests.LockLocks | src/agent/server.rs:232-337 | after a Lock in any run and whatever follows but an accepted Unlock, every profile, listing, update and switch request is answered NotUnlocked and the container stays as it is |
| AgentRequests.TickForgetsOrKeeps | src/agent/state.rs:331-352 | a tick past the TTL leaves nothing in RAM and no activity, any other tick leaves everything |
| AgentRequests.UnlockHolds | src/agent/state.rs:94-128 | an Unlock is accepted iff its set has the alias; then set, key, alias, clock and TTL are the ones sent, and nothing else changes |
| AgentRequests.UnlockLastsItsTtl | src/agent/state.rs:331-346 | left alone, the agent is unlocked at a tick iff no more than the seconds asked for have passed, and blank otherwise |
| AgentRequests.GetProfileAnswers | src/agent/state.rs:167-180 | GetProfile answers with the first profile under the active alias or NotUnlocked, and renews both clocks |
| AgentRequests.SetActiveAliasHolds | src/agent/state.rs:185-205 | a switch is accepted iff unlocked with the alias in the set; then GetProfile answers with that profile and both caches are empty |
| AgentRequests.UpdateProfileHolds | src/agent/state.rs:207-232 | an update puts the profile in the first position of its alias and changes no other, drops the caches iff it is the active one, and is on disk iff the save went through |
| AgentRequests.UpdateProfileSetHolds | src/agent/state.rs:238-258 | a replaced set is held and on disk, the active alias stays iff the set has it, and the caches are gone |
| AgentRequests.StatusReports | src/agent/state.rs:354-368 | Status tells whether a set is held and the whole seconds the TTL has left, and changes nothing but activity |
| AgentRequests.InvalidateHolds | src/agent/state.rs:474-478 | an invalidation drops the root and every canonical prefix of the target, of every kind, and nothing else |
| AgentRequests.OnlyExitRaisesTheFlag | src/agent/server.rs:224-227 | the exit flag is raised by an Exit request and by nothing else, and never lowered |
| AgentRequests.ExitRaisesTheFlag | src/agent/server.rs:232-337 | Exit raises the flag and Ping does nothing, but for the activity of each |
| AgentRequests.ActivityOf | src/agent/server.rs:208-217 | every request and every connection counts as activity, a tick does not |
| AgentRequests.AnsweredFromCache | src/agent/list_cache.rs:125-147 | with an entry for prefix and kind no older than a minute the reply is that entry and only activity changes |
| AgentRequests.AskedOfProvider | src/agent/state.rs:390-470 | otherwise the active profile's provider is asked, through the warm client iff its id matches; no active profile, no buildable client and a failing call are errors |
| AgentRequests.FreshReplies | src/agent/state.rs:435-466 | a fresh reply is as many of the wanted entries from the front as the maximum and two hundred allow, flagged iff the provider had more in all, and kept under its key |
| AgentRequests.EveryReplyIsASelection | src/agent/state.rs:446-452 | in every run every reply is an order-preserving selection of one provider answer of that run, each entry under its name, size and kind, only the kind asked for, without gaps and complete unless flagged |
| AgentSafety.StepKeepsInv | src/agent/state.rs:94-258 | every request and tick keeps set, key and clock together, the alias contained in the set, and caches only under an active alias |
| AgentSafety.LockedMeansEmpty | src/agent/state.rs:130-154 | in every run a locked agent holds nothing and answers neither listings nor profile requests |
| AgentSafety.CoherentStep | src/agent/state.rs:94-128 | a step keeps every cached listing and the warm client those of the active profile iff it is not an unguarded Unlock |
| AgentSafety.CoherentThroughout | src/agent/state.rs:94-258 | a run is coherent at every point iff every Unlock in it met the guard |
| AgentSafety.CarefulRunsAreCoherent | src/agent/state.rs:94-128 | every run from start-up whose unlocks arrive while locked, or keep the active profile, is coherent at every point |
| AgentSafety.UnlockOverWarmCacheServesOldListing | src/agent/state.rs:94-128 | without the guard a listing of the previous profile is served under the new one |
| Witnesses.OldListingIsServed | src/agent/state.rs:94-128 | a run of three requests from start-up that ends incoherent and serves the first profile's files under the second |
| AgentSafety.EveryListingReply | src/agent/state.rs:390-470 | every reply in every run has at most 200 entries, is an initial part of the kind-filtered provider listing and all of it unless flagged; a hit is within the cache TTL |
| AgentSafety.EveryEntryWasFetched | src/agent/state.rs:390-470 | every cached entry was filled by a listing request of the run, from the provider's answer at that time, and has stood under its key ever since |
| AgentSafety.HitIgnoresRequestedMaximum | src/agent/list_cache.rs:43-46 | a reply exceeds the requested maximum iff it is a hit on a longer entry |
| AgentSafety.TruncationFalseAlarm | src/agent/state.rs:435-444 | a complete listing is flagged iff it fits the cap only after the kind filter |
| AgentSafety.FailedListingIsNotCached | src/agent/state.rs:390-470 | a failed listing changes the map only by dropping an expired entry of its own key |
| Witnesses.HitIsLongerThanAsked | src/agent/list_cache.rs:43-46 | asked for one entry, a hit answers with three |
| Witnesses.CompleteListingIsFlagged | src/agent/state.rs:435-444 | one directory among three entries, all of it shown and flagged as cut short |
| Witnesses.FailureDropsExpiredEntry | src/agent/list_cache.rs:125-147 | a failing listing after expiry empties the map |
| AgentSafety.UpdateIsDurable | src/agent/state.rs:207-232 | an acknowledged update is in RAM and on disk; count, alias order and every other profile are kept; a failure leaves the file alone |
| ServerLoops.HandleConnection | src/agent/server.rs:182-230 | a connection serves its requests in order until Exit |
| ServerLoops.RunLoop | src/agent/server.rs:123-163 | the accept loop with tick, idle exit and exit flag reaches the state, tick count and reason of its specification |
| ServerLoops.ExitEndsTheLoop | src/agent/server.rs:123-163 | the loop ends for an Exit iff one was asked for in an iteration it has passed, and then in the very next one |
| ServerLoops.NothingBehindExit | src/agent/server.rs:208-230 | no request behind an Exit is served, and the Exit only raises the flag and counts as activity |
| ServerLoops.ConnectionIsActivity | src/agent/server.rs:182-208 | a connection without a request counts as activity and changes nothing else |
| ServerLoops.LoopIsARun | src/agent/server.rs:123-163 | what the loop does is one of the runs the safety theorems speak of |
| ServerLoops.QuietLoopEndsPastDeadline | src/agent/server.rs:123-145 | without connections the loop ends at the first tick past the later of TTL expiry and idle limit, and at none before |
| ServerLoops.ExitBound | src/agent/server.rs:123-145 | with ticks at least a poll apart it ends, locked, within floor((D - now) / poll) + 2 ticks |
| ServerLoops.AutoLockCanExitAtOnce | src/agent/state.rs:331-346 | the tick that auto-locks also exits iff the agent was idle long enough |
| Witnesses.LocksAndExitsAtOnce | src/agent/server.rs:123-145 | with the default times an agent unlocked once and left alone locks and exits on one tick |
| ServerLoops.UnlockClockIsLastRenewal | src/agent/state.rs:121-127 | in every run the unlock clock is the last renewal: an accepted Unlock, GetProfile or a listing that misses |
| ServerLoops.TickHonoursTtl | src/agent/state.rs:331-368 | after any tick an unlocked agent was renewed no longer ago than its TTL |
| Writers.ReplaceProvider | src/commands/mod.rs:331-340 | at the first position of the refreshed kind stands the refreshed provider, every other position is as it was, and without that kind nothing changes |
| Writers.RunWithRemote | src/commands/mod.rs:194-358 | state and exit code of reaching the agent, get-profile, operate, update-profile, invalidate |
| Writers.CommandKeepsTheRefresh | src/commands/mod.rs:194-358 | after the command RAM and disk hold, under the active alias, the fetched profile with exactly the first provider of the refreshed kind replaced |
| Writers.RefreshArrives | src/commands/mod.rs:331-340 | pushed to an unlocked agent that has the alias, the refresh is found under it in RAM and on disk, and every other alias finds what it found before |
| Writers.EarlyExits | src/commands/mod.rs:194-330 | exit code and state of every command that does not reach its operation, by how far it got |
| Writers.PerformAddInnerProfile | tui/src/cli.rs:791-965 | adds iff all checks pass and the save succeeds; then disk and agent hold the old set with the new profile; otherwise the file is unchanged |
| Writers.PerformDeleteInnerProfile | tui/src/cli.rs:967-1033 | deletes iff the alias exists and is not the last one and the save succeeds; otherwise the file is unchanged |
| Writers.AddIsCheckedFor | tui/src/cli.rs:806-823 | an add is let through iff the alias is valid and not in the set, and set, key and setup are at hand; an alias in the set is refused as existing |
| Writers.DeleteIsCheckedFor | tui/src/cli.rs:977-1001 | a delete is let through iff the alias is in the set and another one is too; the last profile is refused |
| Writers.SaveAndPushReachBoth | tui/src/cli.rs:923-965 | after save and push the file opens to the new set, an unlocked agent holds it without caches and a locked one stays locked |
| Writers.DeleteUndoesAdd | tui/src/cli.rs:986-1010 | deleting an added alias restores the set exactly |
| Writers.DeleteRemovesOnlyTheAlias | tui/src/cli.rs:986-1010 | a delete removes that alias and keeps every other profile |
| MultiWriters.SyncStep | src/agent/state.rs:207-258 | one action of any process keeps the tags (aliases, or aliases with ids) in RAM and on disk in step iff it does not remove the file, any whole set it brings in has the current tags, and any profile it updates keeps the tag of its holder |
| MultiWriters.InStepIffGuarded | src/agent/state.rs:207-258 | over any interleaving of all processes disk and RAM are in step at every point iff every action met that guard |
| MultiWriters.Carried | src/commands/z_unlock.rs:394-552 | while in step an unlock carries the current tags iff it read the container meanwhile or had read the same before |
| MultiWriters.CarriedProfile | src/commands/mod.rs:275-340 | while in step a command carries a current tag if it fetched its profile meanwhile, else what it fetched before |
| MultiWriters.OnlyLateOnesBreakStep | src/agent/state.rs:207-258 | without foreign sets and wipes disk and RAM stay in step iff no unlock and no update takes effect with differing tags taken in before the run |
| MultiWriters.PushedProfilesStay | tui/src/cli.rs:923-957 | likewise for profiles by alias and id: none lost, revived or exchanged at any point iff no such late unlock takes effect and no update with another id under one of the aliases, fetched before the push |
| MultiWriters.PushedAliasesStay | tui/src/cli.rs:923-957 | after save, anything at all and an acknowledged push, the pushed aliases stay in order on disk and in RAM at every point iff no unlock takes effect with a set of other aliases read before the push |
| MultiWriters.NothingIsLostWithoutPending | tui/src/cli.rs:923-957 | with no unlock and no command under way, profiles stay by alias and id whatever commands, unlocks, ticks and new agents are interleaved |
| MultiWriters.LateUnlockUndoesThePush | src/commands/z_unlock.rs:394-552 | such an unlock followed by one CLI update puts the old aliases back on disk |
| MultiWriters.LateRotationUndoesThePush | core/src/profile/rotation.rs:34-51 | its key rotation puts them back at once, while the agent still holds the pushed set |
| MultiWriters.LateUpdateExchangesTheProfile | src/agent/state.rs:217-222 | an update that fetched before its alias changed hands puts the old profile back in RAM and on disk |
| MultiWriters.UpdateBeforePushUndoesTheSave | tui/src/cli.rs:923-957 | between save and push a successful CLI update puts the agent's aliases back on disk |
| Witnesses.AddedProfileIsLost | src/commands/z_unlock.rs:394-552 | a concrete run in which a profile added and pushed is gone from disk after a waiting unlock goes on |
| Witnesses.DeletedProfileComesBack | src/agent/state.rs:217-222 | a concrete run in which a profile deleted and replaced under the same alias is back after a late update, the aliases unchanged |
| Witnesses.SaveIsUndoneBeforePush | tui/src/cli.rs:923-957 | a concrete run in which a saved profile is off the disk before the push |
| SaveCommands.SaveAllCommand | src/commands/mod.rs:57-96 | state of agent and remote and exit code of a save-all: reaching the agent, walking, uploading, pushing, invalidating |
| SaveCommands.OthersStayAsTheyWere | src/commands/upload.rs:355-436 | a save-all, renames included, changes entries only of directories on the way to its files |
| SaveCommands.ChangedDirectories | src/commands/upload.rs:355-436 | a save without failures changes exactly the directories that receive a file or a new subdirectory |
| SaveCommands.StaleListingsLeft | src/commands/mod.rs:342-353 | with canonical keys, a cached listing of a directory that really changed is left iff one was cached of such a directory strictly below the destination |
| SaveCommands.StaleListingsByKey | src/commands/mod.rs:342-353 | for keys and destinations of any spelling, a stale listing is left iff its key is not canonical or its directory not the destination or above |
| SaveCommands.TypedDestIsPlain | src/cli/parser.rs:375-386 | a destination as the grammar leaves it is spelled alike by uploads and listings unless it names `.` or `..` |
| SaveCommands.TopLevelSaveLeavesNothingStale | src/commands/mod.rs:71-83 | without recursion no stale listing is left, at the root or below it |
| SaveCommands.SavedCommandCache | src/commands/mod.rs:342-353 | after the whole command with exit code 0 the stale listings in the cache are exactly those strictly below the destination |
| SaveCommands.FailureInvalidatesNothing | src/commands/mod.rs:347-353 | after any other exit code the agent is exactly as after the refresh; after 0 the cache lacks exactly the chain |
| SaveCommands.NestedListingSurvives | src/commands/mod.rs:84-96 | saving `snap/file.md` below `backup` changes `backup/snap` and leaves its cached listing |
| SaveCommands.FailedBatchLeavesStaleListing | src/commands/mod.rs:342-353 | a batch with one failure stores the other file and leaves the listing of the destination |
| SaveCommands.CrowdedBatchLeavesStaleListing | src/commands/mod.rs:342-353 | at a concrete remote: `a` and its renames taken, `b` stored, the cached listing of the root left |
| RemoteTrees.FakeRemoteFs.PutFile | src/commands/remote_fs.rs:353-360 | stores the file and every directory on the way |
| RemoteTrees.FakeRemoteFs.EnsureDir | src/commands/remote_fs.rs:381-388 | the directory and all its ancestors exist afterwards |
| RemoteTrees.FakeRemoteFs.Upload | src/commands/remote_fs.rs:390-457 | remote and outcome under the three collision policies, with the hundred-rename loop |
| RemoteTrees.FakeRemoteFs.List | src/commands/remote_fs.rs:477-509 | exactly the children of a directory, each once, files first; an unknown directory is an error |
| RemoteTrees.OverwriteAndFail | src/commands/remote_fs.rs:417-428 | both store the body under the name itself and report its size, but Fail refuses iff the name is there and then changes no file |
| RemoteTrees.RenamePolicy | src/commands/remote_fs.rs:429-457 | Rename never touches a stored file, stores the body under the name it reports, which is its own iff that was free, and gives up iff all hundred and one names are taken |
| RemoteTrees.RenamesToFirstFree | src/commands/remote_fs.rs:429-449 | the name it reports is the rename with the least number that was free |
| Collisions.AttemptsDiffer | core/src/providers/nextcloud/collision.rs:31-66 | no two attempts of one upload try the same name, whatever the clock does between them |
| Collisions.GivingUpNeedsManyFiles | src/commands/remote_fs.rs:429-449 | an upload gives up renaming only where a hundred and one files at least lie beside its name |
| Collisions.ExtensionIsKept | core/src/providers/nextcloud/collision.rs:55-65 | a rename keeps the extension and puts its mark right before it |
| Collisions.RenamesSortByTime | core/src/providers/nextcloud/collision.rs:15-23 | until the year 9999 renames made in different seconds sort by time, whatever their numbers |
| Collisions.FirstRenameSortsFirst | core/src/providers/nextcloud/collision.rs:15-23 | within one second the first rename sorts before a later one iff the name has no extension |
| Collisions.LaterRenamesSortAsText | core/src/providers/nextcloud/collision.rs:15-23 | within one second two later renames sort as their numbers do as text |
| Collisions.TenthSortsBeforeNinth | core/src/providers/nextcloud/collision.rs:15-23 | so the tenth comes before the ninth |
| Collisions.KnownRename | core/src/providers/nextcloud/collision.rs:42-66 | a file, its second and the name it gets, spelled out |
| RemoteTrees.UploadKeepsListable | src/commands/remote_fs.rs:390-457 | every stored file's ancestors stay listable |
| LocalWalk.Walker.WalkInner | src/commands/walk.rs:35-84 | pushing and popping the prefix visits the entries as specified and restores the prefix |
| LocalWalk.WalkLocal | src/commands/walk.rs:28-33 | the selected files, sorted by path, or an error iff the root or a directory below it cannot be read |
| LocalWalk.WalkSelects | src/commands/walk.rs:35-84 | a file is selected iff it is regular and no component is hidden or a link; without recursion only top-level ones |
| LocalWalk.WalkFailsOnUnreadable | src/commands/walk.rs:35-84 | the walk fails iff it recurses and a directory on a way without hidden names cannot be read |
| LocalWalk.SelectionIsConsistent | src/commands/walk.rs:35-84 | a path selects one content and no selected file lies below another |
| LocalWalk.WalkedPathsAreDistinct | src/commands/walk.rs:35-84 | no path is selected twice |
| SaveAll.RunSaveAll | src/commands/upload.rs:46-86 | remote and tally are those of uploading the sorted selection one by one |
| SaveAll.UploadWalkEntry | src/commands/upload.rs:355-379 | one file goes below the prefix under its relative path with the Rename policy, and the tally counts the outcome |
| SaveAll.SaveIntoEmpty | src/commands/upload.rs:355-436 | into an empty prefix every file is stored under its own name with its bytes, nothing else changes, no rename and no failure |
| SaveAll.SavingKeepsListable | src/commands/upload.rs:355-436 | after any save-all every stored file can be reached by listings |
| Download.DownloadDir | src/commands/download.rs:414-499 | terminates; whatever the remote lists, nothing is removed and nothing written except where the text of the path leads strictly below the destination, component by component; with nothing local in the way exactly the wanted files arrive, other local files stay, and the tally counts files and refusals |
| Download.SafeNamesAreOneStep | src/commands/download.rs:99-112 | a name is accepted iff its text, split at both separators and followed with `..` as a step up, resolves to exactly itself as one component and holds no control character |
| Download.SpaceIsSafe | src/commands/download.rs:99-112 | a name with a space and a leading dot are accepted, the two dots refused |
| Download.RunDownloadAll | src/commands/download.rs:162-207 | the same for the command with its remote prefix |
| Mirror.MirrorIsExact | src/commands/download.rs:414-499 | save-all then download-all brings every file of the tree to its place, leaves every other local file and reports no failure iff all names are safe and the prefix is listable; successes are then the number of files |
| Mirror.FreePlaceReproduces | src/commands/download.rs:414-499 | into a place without files the result is the tree, all of it and nothing else |
| Mirror.SaveThenDownload | src/commands/upload.rs:46-86 | the two commands run one after the other meet the mirror theorem, with no rename and no failed save, into any place where nothing is in the way |
| Witnesses.BackslashNameIsSelectedButUnsafe | src/commands/download.rs:99-112 | a local name with a backslash is selected for saving and is no safe component |
| Witnesses.EmptyTreeIsNotMirrored | src/commands/download.rs:414-430 | an empty tree saved below an absent prefix gives one failure on the way back |
| UserPaths.SplitUserPath | src/commands/walk.rs:91-116 | the components of a file argument, or the reason given by its first refused component |
| UserPaths.ArgumentIsRead | src/commands/walk.rs:91-116 | an argument names the pieces between its slashes that are not empty or `.`, when there are any and none begins with a dot; else the first that does decides, `..` as no file and any other as hidden |
| UserPaths.NameablePathsAreNamed | src/commands/walk.rs:91-116 | the paths an argument can name are exactly the visible, non-empty, separator-free ones, each named by its own spelling |
| UserPaths.WalkedFilesCanBeNamed | src/commands/walk.rs:28-116 | the path of every file the walk selects is one that an argument taken literally can name |
| DownloadFiles.DownloadOne | src/commands/download.rs:209-249 | local state and tally of one argument taken literally |
| DownloadFiles.LiteralArgument | src/commands/download.rs:209-249 | a hidden argument is passed over, any other refusal is a failure; a path is stored under its last component iff there is such a file and room for it, else it is a failure and no file changes |
| DownloadFiles.DownloadArgument | src/commands/download.rs:39-83 | one argument is taken literally or expanded, and each file it stands for is fetched in order |
| DownloadFiles.StoredFileIsExpanded | src/commands/download.rs:114-143 | a stored file named by its path is always among the files fetched, and the only one iff no glob is read in it or no other file of its directory matches |
| DownloadFiles.NamedFileArrives | src/commands/download.rs:209-249 | a stored file named literally arrives with its bytes iff the directory can be made and no directory has its name, and counts as a failure otherwise |
| DownloadFiles.StoredFileArrives | src/commands/download.rs:24-84 | with the directory makeable and no directory of its name there, it arrives under its last component with its bytes, whatever its name and whatever else its name matches |
| Glob.MatchMeansCut | src/commands/download.rs:147-160 | the matcher accepts iff the name can be cut into pieces that stand under the pattern's symbols |
| Glob.MatchOfConcatenation | src/commands/download.rs:147-160 | a concatenated pattern matches iff the name splits into a match of each part |
| Glob.MatchIsSymmetric | src/commands/download.rs:147-160 | reversing pattern and name changes nothing |
| Glob.DoubleStarIsStar | src/commands/download.rs:147-160 | anywhere in a pattern two stars mean one |
| Glob.LiteralPattern | src/commands/download.rs:147-160 | a pattern without metacharacters matches only itself |
| Glob.GlobsMatchOthers | src/commands/download.rs:108-160 | an argument counts as a glob iff it matches some other name than itself |
| Glob.QuestionIsOneByte | src/commands/download.rs:145-160 | `?` matches a one-character name iff the character is ASCII |
| Glob.AccentedLetterIsNotOneByte | src/commands/download.rs:145-160 | `?` does not match an accented letter |
| Glob.ExpandRemoteGlob | src/commands/download.rs:114-143 | the sorted, duplicate-free, complete list of matching files of the parent; the argument itself when the parent has a glob |
| CivilDate.DateOfDayIsCalendar | src/commands/doctor.rs:343-362 | the arithmetic gives for every day the valid date that counting calendar days from 1970-01-01 gives |
| CivilDate.YearFits | src/commands/doctor.rs:343-362 | the corrected quotient hits the year the day lies in, so no unsigned step underflows |
| CivilDate.DatesIncrease | src/commands/doctor.rs:343-362 | later days have later dates |
| CivilDate.DayNumberOfDate | src/commands/doctor.rs:343-362 | days-from-civil inverts it |
| CivilDate.DateOfDayNumber | src/commands/doctor.rs:343-362 | every valid date from the epoch on is reached |
| CivilDate.StampIsExact | src/commands/doctor.rs:343-362 | clock fields are in range and with the date account for every second |
| CivilDate.FormatRoundTrip | src/commands/doctor.rs:343-362 | the printed text reads back to the exact stamp |
| CivilDate.StampIsSpelled | src/commands/doctor.rs:343-362 | until the year 9999 the text is these twenty characters, digit by digit |
| CivilDate.KnownStamp | src/commands/doctor.rs:376-379 | the second 1700000000 with its text |
| Ndjson.EscapeInto | src/sacs/render.rs:98-112 | the loop appends the escaped text and nothing else |
| Ndjson.Render | src/sacs/render.rs:62-96 | one record per candidate in sorted order |
| Ndjson.ReadWrittenRecord | src/sacs/render.rs:72-112 | a JSON string decoder (section 7 of RFC 8259) reads every record back to its candidate |
| Ndjson.RecordIsPrintable | src/sacs/render.rs:98-112 | no record holds a raw ASCII control character, the delete character included |
| Ndjson.RecordIsSpelled | src/sacs/render.rs:72-96 | the line of a candidate spelled out: its five members in order under their names, the kind by its name |
| Ndjson.PlainTextStands | src/sacs/render.rs:98-112 | text without quotes, backslashes and ASCII control characters is written as it is |
| Ndjson.RenderRoundTrip | src/sacs/render.rs:62-112 | splitting and decoding the output gives a permutation of the input, one line each, by rank and then value, ties in the order they came in |
| Sorting.StringLeIsFirstDifference | src/sacs/render.rs:62-70 | the order of values is that of the first differing character, an initial part coming first |
| Sorting.PathLeIsFirstDifference | src/commands/walk.rs:28-33 | the order of paths is that of the first differing component |
| ByteOrders.StringOrderIsByteOrder | src/sacs/render.rs:62-70 | comparing strings by their UTF-8 bytes, as the source does, is comparing them by code points |
| Sidecars.SidecarFile.ReadLocalDefault | core/src/sidecars.rs:65-83 | value or error of reading, from the file's bytes |
| Sidecars.SidecarFile.ReadRemoteDefault | core/src/sidecars.rs:85-111 | value or error of reading, from the file's bytes |
| Sidecars.SidecarFile.WriteLocalDefault | core/src/sidecars.rs:113-124 | an accepted alias is written and reads back; a rejected or failed write leaves the file |
| Sidecars.SidecarFile.WriteRemoteDefault | core/src/sidecars.rs:126-152 | an accepted pair is written and reads back or is Invalid, by total length; a rejected or failed write leaves the file |
| Sidecars.LocalRoundTrip | core/src/sidecars.rs:65-124 | every accepted alias reads back exactly |
| Sidecars.EmailRoundTrip | core/src/sidecars.rs:85-152 | every accepted email alone reads back exactly |
| Sidecars.PairRoundTrip | core/src/sidecars.rs:85-152 | an accepted pair reads back iff the byte lengths sum to at most 254, else the read is Invalid |
| Sidecars.AnAcceptedPairCanBeUnreadable | core/src/sidecars.rs:126-205 | a concrete accepted pair that cannot be read |
| Sidecars.AcceptedReadsAreValid | core/src/sidecars.rs:154-205 | whatever a reader accepts passes the writer's checks |
| Sidecars.AliasRule | core/src/sidecars.rs:154-205 | an alias is accepted iff it is 1 to 64 printable ASCII characters without a separator, not the dot, and without two dots in a row |
| Sidecars.AsciiEmailRule | core/src/sidecars.rs:154-205 | an ASCII email is accepted iff it is 1 to 254 visible characters with an `@` |
| Sidecars.LocalContents | core/src/sidecars.rs:65-83 | the file is read as an alias iff it holds a valid one with or without a newline behind it |
| Sidecars.RemoteContents | core/src/sidecars.rs:85-111 | the file is read as a default iff it holds a valid email, alone or with a valid alias on the second line, in at most 256 bytes |
| Sidecars.RefusedReads | core/src/sidecars.rs:65-111 | a missing file and an unreadable one are told apart, any other refusal is for the contents |
| Framing.Stream.WriteFrame | core/src/agent_proto/framing.rs:137-151 | appends exactly one frame, or refuses and writes nothing |
| Framing.Stream.ReadFrame | core/src/agent_proto/framing.rs:153-166 | agrees with splitting a buffer on every byte string, consumes exactly the frame, refuses an oversized length before the body |
| Framing.ReadBackAll | core/src/agent_proto/framing.rs:42-57 | any list of payloads written is read back in order with every byte consumed, then the end |
| Framing.CutFrameIsTruncated | core/src/agent_proto/framing.rs:109-125 | every proper initial part of a frame is Truncated |
| Framing.AcceptedIsFramed | core/src/agent_proto/framing.rs:109-125 | a buffer is accepted iff a frame stands at its front |
| Framing.FrameLayout | core/src/agent_proto/framing.rs:109-151 | a frame is the payload behind its length in four bytes, the highest first; more than a mebibyte is refused |
| Framing.RefusedFrames | core/src/agent_proto/framing.rs:109-166 | a buffer is refused for its length field as soon as that is complete, else for what is missing behind it |
| Utf8.EncodedForms | core/src/sidecars.rs:85-111 | the four forms of section 3 of RFC 3629: the payload bits of the bytes are the code point, none overlong |
| GlobalFlags.ExtractFlags | src/runtime.rs:158-234 | the single pass computes the scan |
| GlobalFlags.ScanOfItems | src/runtime.rs:158-234 | any line of well-formed groups and positionals gives the groups applied in order, the positionals in order, and a tail after `--` verbatim |
| GlobalFlags.InterleavingIsIrrelevant | src/runtime.rs:158-234 | every interleaving of the same groups and positionals gives the same result |
| GlobalFlags.ConflictFreeOutcome | src/runtime.rs:158-234 | the groups succeed iff no opposites are given; then every switch counts and the last value wins |
| GlobalFlags.AcceptedLineIsItems | src/runtime.rs:158-234 | conversely every accepted line is such an interleaving |
| GlobalFlags.RefusedIffStopped | src/runtime.rs:158-234 | a line is refused, and for which error, iff behind well-formed items two opposites meet or a token is no flag, a switch with a value, or a flag whose value is missing or empty |
| GlobalFlags.OutputIsSpelled | src/runtime.rs:158-234 | what `--json` and `--quiet` do in any state, conflict included |
| GlobalFlags.ContainerIsSpelled | src/runtime.rs:158-234 | what `--local` and `--remote` do in any state, conflict included |
| GlobalFlags.YesIsSpelled | src/runtime.rs:158-234 | what `--yes` does in any state |
| GlobalFlags.ValuesAreSpelled | src/runtime.rs:158-234 | what `--alias` and `--passphrase-file` do with the value behind them |
| GlobalFlags.MergeEnv | src/runtime.rs:245-298 | each field comes from the environment only when no flag set it; exactly the bad values are errors |
| GlobalFlags.ParseGlobal | src/runtime.rs:312-328 | each setting is what the flags say, else what the environment says, else its default; the residual is that of the pre-pass; and exactly a bad value of a variable whose setting no flag made is refused |
| Grammar.ParseModifiers | src/cli/parser.rs:84-112 | the loop accepts and fails as specified |
| Grammar.ModifiersAreASet | src/cli/parser.rs:84-112 | a suffix is accepted iff it is a set of `a`, `r`, `x`; the error is about the first letter that breaks it |
| Grammar.ModifierOrderIsIrrelevant | src/cli/parser.rs:84-131 | for any permutation of the suffix one line parses iff the other does, to the same command |
| Grammar.ParseUnparse | src/cli/parser.rs:133-386 | every typable command has a line that parses back to it |
| Grammar.RangeOfGrammar | src/cli/parser.rs:133-292 | the commands some argument list parses to are exactly the typable ones |
| CommandLines.ParserReadsSpellings | src/cli/parser.rs:133-386 | the parser gives a command exactly for the lines that spell it, token by token: bare or behind `s`, letters in any order, slashes or not, either word for a wipe |
| CommandLines.ParserRefuses | src/cli/parser.rs:84-386 | the parser refuses exactly the listed lines, each for its reason; a letter no verb has is never one |
| CommandLines.BareLineIsSLine | src/cli/parser.rs:139-200 | a line of files alone and the same line behind `s` mean the same iff the last has no slash at its end |
| Completion.CompositeTokensAgree | src/sacs/complete.rs:294-302 | the completer's composite tokens are exactly the parser's reserved `s` and `d` tokens |
| Completion.ParseModifiers | src/sacs/complete.rs:515-527 | the loop reads exactly the modifiers that occur |
| Completion.ModifiersAgree | src/sacs/complete.rs:515-527 | on every suffix the parser accepts the completer reads the same modifiers |
| Completion.OfferedVerbsParse | src/sacs/complete.rs:236-248 | every composite verb offered is one the parser accepts |
| Completion.CollectLocal | src/sacs/complete.rs:595-646 | the loop keeps exactly the matching entries |
| Completion.LocalMatchesAre | src/sacs/complete.rs:595-646 | a local match is an entry of the typed directory of the wanted kind, visible, readable and no link, and it extends the word |
| Completion.CapRows | src/sacs/complete.rs:648-685 | the ranked loops give one row for each of the first fifty and a footer for the rest |
| Completion.EveryGroupShowsTheBest | src/sacs/complete.rs:648-817 | each group shows the best matches under its order (newest first, or by name), at most fifty, and a footer with the exact overflow iff some were left out |
| Completion.Complete | src/sacs/complete.rs:107-152 | in every state and position the run shows the planned groups in order, which `Positions` describes on the candidates |
| Positions.BeforeReady | src/sacs/complete.rs:158-187 | before the agent is ready exactly the listed words that extend the current word are offered and nothing else |
| Positions.FirstPosition | src/sacs/complete.rs:189-282 | in the first position of a ready agent exactly the local files and directories, unless a verb is being composed, and the listed words that extend the current word |
| Positions.AfterSave | src/sacs/complete.rs:304-413 | after `s` and `sx` the first argument is offered local files and directories only, later ones remote directories too; each the best fifty matches, all of them when no more match |
| Positions.AfterDownload | src/sacs/complete.rs:415-475 | after `d` and `dx` remote files and directories and nothing local; from the second argument on remote files and local directories |
| Positions.AfterBulkVerb | src/sacs/complete.rs:304-475 | after a verb with `a` local directories only, then remote directories only, queried as directories |
| Positions.AfterAtom | src/sacs/complete.rs:496-513 | after `z` the container words of the state, once; after every other word command nothing |
| Positions.AfterFile | src/sacs/complete.rs:477-494 | after a file without a verb more local files and remote directories |
| Positions.RemoteMatchesAre | src/sacs/complete.rs:724-817 | a remote match is what the agent lists at the parent of the word, of the kind, extending its last segment |
| Completion.EveryValueExtendsTheWord | src/sacs/complete.rs:107-152 | every value offered but a footer has the current word as a prefix |
| Completion.AtMostFiftyOfAKind | src/sacs/complete.rs:107-152 | no run offers more than fifty local files, local directories, remote files or remote directories |
| Completion.LocalsBeforeVerbs | src/sacs/complete.rs:189-282 | rendered in the first position, every local candidate comes before every verb |
| Completion.FootersComeLast | src/sacs/complete.rs:849-859 | rendered, every footer comes after everything else |
| Completion.RemoteValueIsListedPath | src/sacs/complete.rs:710-837 | a remote value is the queried parent joined with the name iff the word does not end in `/` |
| Witnesses.TrailingSlashListsTheRoot | src/sacs/complete.rs:710-837 | for `docs/` the root is listed and `a` offered as `docs/a` |
| Completion.OnlyWordsUntilReady | src/sacs/complete.rs:120-128 | before the agent is ready the result does not depend on directories or the remote |
| AgentCompletion.AnswersAreForActiveProfile | src/sacs/agent_source.rs:48-66 | after a guarded run the agent answers the completer with what the provider listed for the active profile in this run |
| AgentCompletion.CompleterAsks | src/sacs/agent_source.rs:21-66 | the completer asks for two hundred entries, and every reply but a listing is no answer |
| AgentCompletion.RemoteCandidatesAreOfActiveProfile | src/sacs/complete.rs:724-731 | from provider to prompt: every remote candidate stands for an entry listed at the queried prefix with the active profile; a locked agent contributes none |

## Left out

- Sockets, tokens, peer checks, file permissions, process spawning, the lock file: a connection is an already authorised sequence of requests, and its end by a broken frame is an end of that sequence.
- Encryption and key derivation: sealing is symbolic, an envelope opens under its own key to the set that was sealed.
- The external-change warning `persist` logs from the container's modification time: it changes nothing else.
- Several clock readings within one request: a request reads the monotonic clock once, and the cache clock once per lookup and once per put.
- Refreshing of OAuth state inside a warm client: a client stays the one built from its profile; the CLI's push of a refreshed provider is modelled.
- Widths of counters and ranks (`u32`, `u64`): they are natural numbers here; ranks saturate where the source saturates.
- Logging, colours, output emitters, help text, passphrase prompts: no effect on the state.
- Compression, tar bundles and percentages: floating point and external formats.
- The names a rename tries are any function of name and number in `RemoteTrees` and `SaveAll`; `Collisions` has the source's own, at any time of each attempt.
- The order in which the remote's map is iterated: a listing has files first and is otherwise in any order.
- Local files that vanish or cannot be read between the walk and the upload: the walk yields bodies; a single upload models a failing read.
- `run_upload`, and the loop of `run_download` over its arguments: per-file loops over operations that are modelled.
- One save of the container is one step in `MultiWriters`; `SharedSaves` has the steps of a save, over the files alone and not over the agent.
- The bytes of envelopes: in `SharedSaves` a text is its length, and two texts of which the later does not cover the earlier count as broken.
- Stopping an agent of an older build, and the end of an agent process after Exit: exit codes and flags are modelled, a new agent in its place is an action of `MultiWriters`.
- A wipe of anything but the container, and wiping while a save is under way: `MultiWriters` has the removal of the container as one action.
- Unlocking from a remote container (`--features remote`): its set counts as a foreign one.
- TUI screens, the wizard, and the removal of sidecar files on a delete.
- Sizes in completion descriptions above 1 KiB: floating point; the text of a size is a parameter.
- `--cwd` parsing of the completer and the classification of its state from the file system: the state is a parameter.
- Download.DownloadDir: where a local file or directory is in the way of something that comes down only containment is promised, because the order of the listing then decides what else is reached. The local side has no symbolic links: a link that already lies below the destination would lead writes out of it.
- Download.RunDownloadAll: as for DownloadDir, without symbolic links on the local side.
- Containers.ContainerFile.Save: speaks of one saver; several at once are in `SharedSaves`.
