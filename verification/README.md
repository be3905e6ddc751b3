# OpenHands agent server: a verified model of its stateful cores

The OpenHands agent server lets several server instances share conversations on disk, runs shell
commands in the background, caches model discovery, and keeps a pointer to the active agent profile.
Each of these is a small concurrent or crash-prone protocol. This project models them in Dafny and
proves what they promise over all inputs, all runs and all reachable states.

| file | what it covers |
|---|---|
| `LeaseRecord.dfy` | the lease file: how it is read and written, and what claim, renew, guarded write and release decide on it |
| `LeaseProtocol.dfy` | any number of instances interleaving single file-system and clock accesses, with crashes and outside damage to the file |
| `LeaseProgress.dfy` | what an instance decides on what it reads, and that undisturbed operations go through |
| `LeaseTheorems.dfy` | fencing, the critical section, atomic commits, generations, and a live owner keeping its lease |
| `BashNames.dfy` | bash event file names as an index: name comparisons against event contents |
| `BashSearch.dfy` | the paged search, retention, and a client that follows `next_page_id` while files appear |
| `BashExecution.dfy` | the two stream readers of one command, interleaved at every await |
| `BashCollector.dfy` | rebuilding the output of a finished command from its stored chunks |
| `BashStop.dfy` | a stop request racing the spawn of its command |
| `DiscoveryCache.dfy` | the single-flight cache for model discovery |
| `AgentProfiles.dfy` | the active agent-profile pointer: healing, seeding, save, rename, activate, delete |
| `SecretRedaction.dfy`, `JsonLines.dfy` | redaction of credentials in JSON trees, in place, and in JSON Lines files |
| `TextLines.dfy` | where `splitlines` cuts a text, where newlines do, and when the two agree |
| `SkillNames.dfy` | skill-name normalisation against the validator's regular language |
| `CauseWalk.dfy` | the walk along a possibly cyclic exception chain |
| `ForbiddenAttributes.dfy` | the multiset baseline of forbidden attribute calls |
| `Wrappers.dfy` | `Option` |

`dafny verify dfyconfig.toml` checks the whole project.

State that the original updates in place is a class whose methods state the whole new state; state
machines over steps use the same decision functions as those methods. A run is a sequence of states and
the actions between them. In the lease protocol a step is one file, lock or clock access; in the event
loop parts a step is what happens between two awaits.

## Where the code does not do what it says, or what one would expect

- A lease generation is described as monotonically increasing, but release and an unreadable file restart
  it at 1. Statements about generations are therefore per epoch, a stretch in which the file is neither
  removed nor damaged.
- The ownership check of a guarded write or a renewal ignores expiry. Damage to the lease file that lands
  inside a renewal is overwritten by that renewal, so it does not end the claim (`LeaseTheorems.Fencing`).
- Retention lists files with the pattern `*`, which skips names with a leading dot; the search does not.
  The two agree if and only if the directory has no such name (`BashSearch.RetentionEqualsSearch`,
  `HiddenFileIsKept`).
- A discovery run that is cancelled before its first step never reaches its `finally`, so it stays listed
  for good and every later call for that key that misses the cache joins it
  (`DiscoveryCache.ListedRunIsUnfinished`, `StillbornServesNobody`, `StillbornHappens`). Callers are shielded,
  so it takes a cancellation from outside the cache, such as the shutdown of the event loop.
- A stored `default` profile whose id is missing, or is written in a non-canonical form, is activated under
  an id that no lookup finds: the pointer is set and still dangling. With a missing id every further call
  moves the pointer again (`AgentProfiles.EnsureHeals`, `EnsureCanMiss`, `EnsureTwice`,
  `MissingIdNeverSettles`). Deleting the active profile beside such a `default` leaves the pointer dangling
  (`DeleteCanLosePointer`); `PointerStaysValidExactly` says when operations keep the pointer and when not. Its
  corollaries `OpKeepsPointer` and `PointerStaysValid` are for ids in canonical form.
- Saving under `x.json.json` looks up the identity of `x.json` but overwrites `x`, so `x` gets a new id
  (`AgentProfiles.SaveKeepsPointer`, `GoodSaveLoses`, `DoubleSuffixLosesPointer`).
- The skill-name pattern ends in `$`, which also matches before a final newline: such a name is accepted
  and normalisation changes it (`SkillNames.AcceptedIsFixedUnlessNewline`).
- In a JSON Lines file, a document ended by a line terminator other than a newline loses it when the file
  is rewritten, so it runs into the next line (`JsonLines.ResultIsLineByLine`, `ReturnTerminatedFile`).
- Lines are cut with `splitlines`, which also cuts at line separators and other breaks that JSON allows inside
  a string. A document with such a character is cut in two, neither part parses, and its secrets are exported
  as they are (`JsonLines.BreakHidesSecret`, `SeparatorHidesKey`). This befalls only documents with such a
  character in their own line (`MissedOnlyByInnerBreak`, `PlainLineIsRedacted`), and files without such
  characters are redacted as they should be (`PlainFileIsRedacted`, `TextLines.CutsAgree`).
- Redaction looks at the members of objects and the items of arrays, so a document that is itself an encrypted
  secret, a bare string, is exported as it is (`SecretRedaction.BareTokenIsKept`).

## Model

| member | source | states |
|---|---|---|
| `LeaseTheorems.Fencing` | openhands-agent-server/openhands/agent_server/conversation_lease.py:122-232 | In every run, if the check of a guarded write or renewal with generation g by o passes, then the latest claim that anyone committed (or the record present at the start) is o's with generation g, and no release, other claim or loss of the file came since. |
| `LeaseTheorems.TakenOverMustReclaim` | openhands-agent-server/openhands/agent_server/conversation_lease.py:122-232 | After another instance's claim is committed, o passes no check with generation g, writes nothing inside a guarded body and commits no renewal, before it commits a claim with g of its own. |
| `LeaseTheorems.BodyIsFenced` | openhands-agent-server/openhands/agent_server/conversation_lease.py:196-201 | When a guarded body writes, the latest claim committed by anyone is o's with generation g and nobody has released the lease since, even if the file was damaged after the check. |
| `LeaseTheorems.BodyOverReadableLease` | openhands-agent-server/openhands/agent_server/conversation_lease.py:196-201 | If the lease is readable when a guarded body writes, it is o's with generation g and was never lost since o claimed it. |
| `LeaseTheorems.BodyWasChecked` | openhands-agent-server/openhands/agent_server/conversation_lease.py:196-201 | An instance in its body has passed its check, and no claim or release has come since. |
| `LeaseTheorems.RenewalIsFenced` | openhands-agent-server/openhands/agent_server/conversation_lease.py:187-194 | A renewal that reaches the disk extends the claim in force. |
| `LeaseTheorems.ReleaseRemovesOwnLease` | openhands-agent-server/openhands/agent_server/conversation_lease.py:203-214 | At the moment of the unlink, a readable lease is the releasing instance's own, with the generation it released. |
| `LeaseTheorems.DiskShowsToken` | openhands-agent-server/openhands/agent_server/conversation_lease.py:122-281 | What the disk shows, and what any renewal under way is about to write, is at every state the claim in force as computed from the actions alone. |
| `LeaseTheorems.TokenTracesToClaim` | openhands-agent-server/openhands/agent_server/conversation_lease.py:122-164 | A claim in force goes back to one commit with nothing ending it in between. |
| `LeaseTheorems.GuardReadsOwner` | openhands-agent-server/openhands/agent_server/conversation_lease.py:216-232 | A check that passes read its own owner id and its own generation. |
| `LeaseTheorems.CriticalSection` | openhands-agent-server/openhands/agent_server/conversation_lease.py:125-214 | While one instance is past the lock, no step of another changes the lease, the temporary file, the lock or that instance's progress. |
| `LeaseTheorems.BodiesNeverOverlap` | openhands-agent-server/openhands/agent_server/conversation_lease.py:196-201 | While a guarded body executes, no other instance is past the lock, so no two bodies overlap. |
| `LeaseTheorems.LeaseChangesAtomically` | openhands-agent-server/openhands/agent_server/conversation_lease.py:271-281 | A crash at any point leaves the lease as it was; any other step of an instance leaves the old lease, none, or a complete record of that instance. |
| `LeaseTheorems.PendingClaimWasDecided` | openhands-agent-server/openhands/agent_server/conversation_lease.py:126-164 | A claim being written was decided at one earlier read, and only outside damage can have changed the lease since. |
| `LeaseTheorems.ClaimTakesEffectAtOnce` | openhands-agent-server/openhands/agent_server/conversation_lease.py:125-164 | Read, decide and write of a claim act as one step at the commit: the committed record is the one decided on the lease still on disk. |
| `LeaseTheorems.StepGeneration` | openhands-agent-server/openhands/agent_server/conversation_lease.py:128-164 | A step raises the generation by exactly one when the owner on disk changes, and leaves it otherwise. |
| `LeaseTheorems.GenerationCountsOwnershipChanges` | openhands-agent-server/openhands/agent_server/conversation_lease.py:128-164 | Within an epoch the generation is the first one plus the number of ownership changes committed. |
| `LeaseTheorems.GenerationIsOnePlusChanges` | openhands-agent-server/openhands/agent_server/conversation_lease.py:157-164 | As long as there has been no outside damage, an epoch opens at generation 1, so each generation is 1 plus the ownership changes since the lease appeared. |
| `LeaseTheorems.FreshClaimIsOne` | openhands-agent-server/openhands/agent_server/conversation_lease.py:157-164 | Without outside damage a claim pending while there is no lease carries generation 1. |
| `LeaseTheorems.OneOwnerPerGeneration` | openhands-agent-server/openhands/agent_server/conversation_lease.py:128-164 | Within an epoch equal generations have equal owners. |
| `LeaseTheorems.SupersededNeverPasses` | openhands-agent-server/openhands/agent_server/conversation_lease.py:216-232 | Once another owner is on disk, the former owner and generation never pass the check again in that epoch. |
| `LeaseTheorems.StepKeepsSecure` | openhands-agent-server/openhands/agent_server/conversation_lease.py:133-194 | One step of anyone, with a shared clock and an honest liveness probe, leaves an unexpired live owner in possession and nobody else about to write. |
| `LeaseTheorems.LiveOwnerKeepsLease` | openhands-agent-server/openhands/agent_server/conversation_lease.py:133-194 | An owner that stays alive and renews before each expiry is displaced in no run, by claimers on its host or others, and also when the record names no host or process. |
| `LeaseTheorems.ClaimMakesSecure` | openhands-agent-server/openhands/agent_server/conversation_lease.py:122-164 | Committing a claim establishes the condition under which the owner keeps its lease. |
| `LeaseProgress.ClaimDecision` | openhands-agent-server/openhands/agent_server/conversation_lease.py:126-164 | In every run, what a claim decides on what it read, on the fields of the record: refused in exactly the one case above, else the generation and expiry it goes on to write. |
| `LeaseProgress.ExpiredIsGranted` | openhands-agent-server/openhands/agent_server/conversation_lease.py:133-146 | A claim that read the clock at or past the expiry on disk always goes on to write. |
| `LeaseProgress.GuardDecision` | openhands-agent-server/openhands/agent_server/conversation_lease.py:187-232 | A renewal, a guarded write and a release go on exactly if the disk shows their owner and generation. |
| `LeaseProgress.ClaimGoesThrough` | openhands-agent-server/openhands/agent_server/conversation_lease.py:122-164 | A claim that nobody holds up, on no lease, its own or an expired one, ends with its record on disk, with the generation and expiry stated, and the lock free. |
| `LeaseProgress.NewcomerClaims` | openhands-agent-server/openhands/agent_server/conversation_lease.py:112-164 | The same for a process that has just started, with its own host, pid and time-to-live in the record. |
| `LeaseProgress.RenewalGoesThrough` | openhands-agent-server/openhands/agent_server/conversation_lease.py:187-194 | A renewal of the lease on disk that nobody holds up keeps the generation and moves the expiry to the clock reading plus the time-to-live. |
| `LeaseProgress.GuardGoesThrough` | openhands-agent-server/openhands/agent_server/conversation_lease.py:196-201 | A guarded write on the lease on disk runs its body and leaves lease and lock as they were. |
| `LeaseProgress.ReleaseGoesThrough` | openhands-agent-server/openhands/agent_server/conversation_lease.py:203-214 | A release of the lease on disk leaves no lease. |
| `LeaseProgress.AnythingCanGoWrong` | openhands-agent-server/openhands/agent_server/conversation_lease.py:122-281 | The model lets a process crash wherever it stands, which frees its lock, and lets the file be destroyed at any time. |
| `LeaseProtocol.RunKeepsInv` | openhands-agent-server/openhands/agent_server/conversation_lease.py:122-281 | In every state of every run: whoever is past the lock holds it, a completed temporary file holds its writer's record, and a pending claim, renewal, guarded body or release fits the lease on disk. |
| `LeaseProtocol.StepKeepsInv` | openhands-agent-server/openhands/agent_server/conversation_lease.py:122-281 | Every step, crash and outside damage included, keeps that invariant. |
| `LeaseRecord.ReadBack` | openhands-agent-server/openhands/agent_server/conversation_lease.py:234-281 | Reading what was written gives the same record; only an empty host name is dropped. |
| `LeaseRecord.ReadMeans` | openhands-agent-server/openhands/agent_server/conversation_lease.py:234-269 | What a file reads as, on its raw fields: which must be there and of which type, and when host and pid count as recorded. |
| `LeaseRecord.ConversationLease.Claim` | openhands-agent-server/openhands/agent_server/conversation_lease.py:122-164 | Refused with the lease untouched exactly when another owner's lease has its expiry after now and it is not so that it records this host, another pid, and that pid is not positive or is no process. Else granted: generation 1 without a lease, the same to the same owner, one more with takeover to another; and the file reads back as the new record. |
| `LeaseRecord.ConversationLease.Renew` | openhands-agent-server/openhands/agent_server/conversation_lease.py:187-194 | Lost exactly when there is no readable lease or owner or generation differ, with the file untouched; else the file reads as the same generation with expiry now plus the time-to-live. |
| `LeaseRecord.ConversationLease.EnterGuard` | openhands-agent-server/openhands/agent_server/conversation_lease.py:196-232 | Lost exactly when the file is missing or unreadable, or owner or generation differ; expiry plays no part. |
| `LeaseRecord.ConversationLease.Release` | openhands-agent-server/openhands/agent_server/conversation_lease.py:203-214 | Removes the file exactly when owner and generation match, else leaves it alone. |
| `BashCollector.CollectBashOutput` | openhands-agent-server/openhands/agent_server/bash_router.py:125-157 | For every interleaving of the readers that completes, and whatever other files are there or appear between pages: the exit code of the process (-1 if it has none), and for each stream the text read on it, or nothing if that is empty. |
| `BashCollector.CollectOutputs` | openhands-agent-server/openhands/agent_server/bash_router.py:134-143 | The page loop ends and has collected each output event of the command exactly once. |
| `BashCollector.CollectedEqualsOutput` | openhands-agent-server/openhands/agent_server/bash_router.py:144-157 | Any arrangement of a completed command's events that is sorted by order joins to the exit code and the texts of both streams, however equal orders fall. |
| `BashCollector.SortedJoin` | openhands-agent-server/openhands/agent_server/bash_router.py:146-150 | When orders rise within a stream, sorting any rearrangement by order gives back that stream's text. |
| `BashCollector.SortedExit` | openhands-agent-server/openhands/agent_server/bash_router.py:147-153 | The last event after sorting is the final event of the command. |
| `BashCollector.SortOutputsStable` | openhands-agent-server/openhands/agent_server/bash_router.py:146-147 | Events of equal order keep their relative places. |
| `BashCollector.SortOutputsSorted` | openhands-agent-server/openhands/agent_server/bash_router.py:147 | The sort leaves the events in ascending order. |
| `BashCollector.OtherFilesDoNotMatter` | openhands-agent-server/openhands/agent_server/bash_service.py:202-224 | Files of other commands or kinds, and files that do not load, are never among the outputs selected for a command. |
| `BashExecution.EveryRun` | openhands-agent-server/openhands/agent_server/bash_service.py:316-424 | At every await of every interleaving the invariants below hold, and a run that has exited saved exactly both texts and the exit code. |
| `BashExecution.StepKeepsRunning` | openhands-agent-server/openhands/agent_server/bash_service.py:316-364 | Each step of either reader keeps: chunks saved plus buffer equal the text read; chunks before the final event have exactly the maximum length; only a longer buffer is cut; the shared buffer lags by the chunk being published; orders rise within a stream; the counter is the number of chunks published. |
| `BashExecution.ExitCompletes` | openhands-agent-server/openhands/agent_server/bash_service.py:408-424 | The final event completes both texts, has the end of every stream that had text and at most the maximum of each, carries the exit code, and its order is the number of chunks, above every chunk's. |
| `BashExecution.OrdersCanTie` | openhands-agent-server/openhands/agent_server/bash_service.py:349-358 | Since the counter is bumped only after the publish, a chunk of each stream can be saved with the same order. |
| `BashExecution.TextMeans` | openhands-agent-server/openhands/agent_server/bash_service.py:329-334 | The text read is its pieces in order. |
| `BashExecution.JoinMeans` | openhands-agent-server/openhands/agent_server/bash_router.py:149-150 | The text of a stream in stored events is their stdout, or their stderr, in order. |
| `BashExecution.ServiceChunks` | openhands-agent-server/openhands/agent_server/bash_service.py:343-354 | All events of a command but the last hold 1048576 characters of one stream, the last at most as many of each. |
| `BashExecution.NeverStuck` | openhands-agent-server/openhands/agent_server/bash_service.py:326-381 | A command that has not exited can always take a step. |
| `BashSearch.BashEventStore.Search` | openhands-agent-server/openhands/agent_server/bash_service.py:176-256 | A page holds the first `limit` selected events from the cursor on, and the next cursor is the selected event right after them, if there is one. Its events are in order of time, backwards when descending, and each is stored, in the time window, of the kind and command asked for, and above the order bound. |
| `BashSearch.BashEventStore.Scan` | openhands-agent-server/openhands/agent_server/bash_service.py:202-226 | The scan gives the names that match, each once, in string order, reversed when descending. |
| `BashSearch.BashEventStore.Resolve` | openhands-agent-server/openhands/agent_server/bash_service.py:228-234 | The page starts at the cursor when it names a matched file, and at the beginning when it does not. |
| `BashSearch.BashEventStore.Fill` | openhands-agent-server/openhands/agent_server/bash_service.py:236-256 | Events that do not load or fail the order filter are skipped without counting; the cursor is set only when a further event passes. |
| `BashSearch.PageMeans` | openhands-agent-server/openhands/agent_server/bash_service.py:196-256 | For every page: events in order of time as asked, and only events that were asked for, on their contents. |
| `BashSearch.PageSkipsNothing` | openhands-agent-server/openhands/agent_server/bash_service.py:196-256 | A stored event that was asked for is in the page unless its name lies before the cursor or not before the next one. |
| `BashSearch.PagesInTimeOrder` | openhands-agent-server/openhands/agent_server/bash_service.py:200-256 | Over all pages of a session the events are in order of time, backwards when descending. |
| `BashSearch.PagingUnderAppends` | openhands-agent-server/openhands/agent_server/bash_service.py:202-256 | If files are only added between requests, no event is returned twice, and every one selected at the first request is returned, ascending and descending. |
| `BashSearch.PagingRefinesFiltering` | openhands-agent-server/openhands/agent_server/bash_service.py:226-256 | Over a fixed directory the pages concatenate to the filtered sorted list, all but the last are full, none after the first is empty, and their number is bounded, so following the cursor ends. |
| `BashSearch.CursorIsEffective` | openhands-agent-server/openhands/agent_server/bash_service.py:228-234 | With nothing removed, the cursor is found again and the search does not restart. |
| `BashSearch.PagesInOrder` | openhands-agent-server/openhands/agent_server/bash_service.py:226-256 | The names of all pages so far are in order and all before the next cursor. |
| `BashSearch.PagesCover` | openhands-agent-server/openhands/agent_server/bash_service.py:226-256 | Whatever was selected at the start and lies before the current cursor has been returned, with its contents unchanged. |
| `BashSearch.FullPages` | openhands-agent-server/openhands/agent_server/bash_service.py:236-256 | Also while files are added, every page but the last is full and none after the first is empty. |
| `BashSearch.InOrderUnique` | openhands-agent-server/openhands/agent_server/bash_service.py:226 | A list in name order is determined by its elements, so the filtered sorted list is unique. |
| `BashSearch.BashEventStore.DeleteEventsOlderThan` | openhands-agent-server/openhands/agent_server/bash_service.py:477-506 | The early-stopping loop removes exactly the visible files older than the cutoff that can be unlinked, keeps all others, and returns their number. |
| `BashSearch.RetentionEqualsSearch` | openhands-agent-server/openhands/agent_server/bash_service.py:491-506 | When every unlink succeeds, what stays is exactly what a search from the cutoff matches, if and only if no file name is hidden. |
| `BashSearch.HiddenFileIsKept` | openhands-agent-server/openhands/agent_server/bash_service.py:491-496 | In a directory with just the file `.tmp`, retention keeps it and the search does not match it. |
| `BashSearch.RetentionKeepsExactlyRecent` | openhands-agent-server/openhands/agent_server/bash_service.py:491-496 | For files the service writes, exactly the events before the cutoff are removed. |
| `BashNames.NameIndexAgrees` | openhands-agent-server/openhands/agent_server/bash_service.py:196-224 | For every event and filter, matching on the name selects exactly the events in the time window with the given kind and command id. |
| `BashNames.NameOrderRefinesTime` | openhands-agent-server/openhands/agent_server/bash_service.py:71-88 | An earlier event has the smaller file name. |
| `BashNames.NameAgainstTime` | openhands-agent-server/openhands/agent_server/bash_service.py:206-212 | Comparing a whole file name with a 20-digit bound is comparing the times. |
| `BashNames.TimeStringOrder` | openhands-agent-server/openhands/agent_server/bash_service.py:71-79 | Printed times have equal length, order as the times do, and are equal only for equal times. |
| `BashNames.TimeStringIs` | openhands-agent-server/openhands/agent_server/bash_service.py:79 | A printed time is a four-digit year, five two-digit fields and six digits of microseconds. |
| `BashNames.NumberOfDigits` | openhands-agent-server/openhands/agent_server/bash_service.py:79 | Padded digits read back as the number printed. |
| `BashNames.BeforeMeans` | openhands-agent-server/openhands/agent_server/bash_service.py:71-79 | Time order is year, then month, day, hour, minute, second and microsecond. |
| `BashNames.SplitFileName` | openhands-agent-server/openhands/agent_server/bash_service.py:81-88 | Splitting a name at underscores gives back time, kind, command id and event id. |
| `BashNames.FileNameInjective` | openhands-agent-server/openhands/agent_server/bash_service.py:81-88 | Equal file names mean equal id, time and kind. |
| `BashStop.NoStopLost` | openhands-agent-server/openhands/agent_server/bash_service.py:285-315 | A stop accepted while the spawn is pending has signalled that command's process group by the time its output is read, and no signal had gone to it before the stop. |
| `BashStop.StopSignalsRunning` | openhands-agent-server/openhands/agent_server/bash_service.py:462-466 | A stop of a command whose process exists signals its group at once. |
| `BashStop.EarlyStopSignalsAtSpawn` | openhands-agent-server/openhands/agent_server/bash_service.py:309-314 | The group of a command stopped early is signalled in the step in which its process appears; one not stopped is not signalled. |
| `BashStop.StopOtherwise` | openhands-agent-server/openhands/agent_server/bash_service.py:460-465 | A stop while the spawn is pending is recorded and signals nothing; a stop of an unknown or ended command changes nothing. |
| `BashStop.StopsComeAnyTime` | openhands-agent-server/openhands/agent_server/bash_service.py:294-475 | The model lets a stop come at any time and a task be cancelled wherever it stands. |
| `BashStop.OnlyTheStoppedAreSignalled` | openhands-agent-server/openhands/agent_server/bash_service.py:446-475 | Every group a stop ever signals is that of a command that was asked to stop, and of no other. |
| `BashStop.RecordedStopsArePending` | openhands-agent-server/openhands/agent_server/bash_service.py:442-465 | At every await recorded stops are among the ids registered without a process, and an ended task's id is in neither structure. |
| `BashStop.RunKeepsInv` | openhands-agent-server/openhands/agent_server/bash_service.py:285-475 | In every reachable state the two tables, the tasks and the signals sent fit together. |
| `BashStop.BashEventService.StopBashCommand` | openhands-agent-server/openhands/agent_server/bash_service.py:460-466 | Whether the id is known, what is signalled now, and that only a pending spawn gets a recorded stop. |
| `BashStop.BashEventService.ProcessSpawned` | openhands-agent-server/openhands/agent_server/bash_service.py:309-314 | The new process is registered, and its group is signalled exactly when a stop had been recorded, which is then cleared. |
| `DiscoveryCache.SingleFlight` | openhands-agent-server/openhands/agent_server/acp_router.py:66-92 | In every reachable state a key has at most one unfinished run, and it is the one listed. |
| `DiscoveryCache.BoundedConcurrency` | openhands-agent-server/openhands/agent_server/acp_router.py:62-87 | At most two discoveries execute at once. |
| `DiscoveryCache.TwoSlots` | openhands-agent-server/openhands/agent_server/acp_router.py:62-87 | A waiting run can take a slot exactly if fewer than two execute. |
| `DiscoveryCache.ReturnedValuesAreSound` | openhands-agent-server/openhands/agent_server/acp_router.py:73-91 | Stored results are never errors; a value returned is the result of a run for that key, or a success for that key that a run returned at or before the call and less than 300 seconds before it. |
| `DiscoveryCache.WakeDelivers` | openhands-agent-server/openhands/agent_server/acp_router.py:80-92 | A waiting call gets the value its run returned, and fails exactly if the run raised or was cancelled before its first step. |
| `DiscoveryCache.GetAnswers` | openhands-agent-server/openhands/agent_server/acp_router.py:73-80 | In every execution, when a call is answered from the cache and with what, and which run it otherwise waits for. |
| `DiscoveryCache.RunStores` | openhands-agent-server/openhands/agent_server/acp_router.py:86-92 | A run that returns is delisted; a success is stored for 300 seconds, an error is not, and other keys are untouched. |
| `DiscoveryCache.RunFails` | openhands-agent-server/openhands/agent_server/acp_router.py:86-92 | A run that fails is delisted and stores nothing. |
| `DiscoveryCache.CancelledCallerGivesUpAlone` | openhands-agent-server/openhands/agent_server/acp_router.py:80 | A cancelled caller leaves the cache and the runs as they are. |
| `DiscoveryCache.OthersChangeNothing` | openhands-agent-server/openhands/agent_server/acp_router.py:66-92 | Only a returning run changes what is stored, only calls and ending runs what is listed, and only its own steps a call. |
| `DiscoveryCache.FirstCallIsServed` | openhands-agent-server/openhands/agent_server/acp_router.py:66-92 | The first call on an empty cache ends with what discovery found, stored if it is a success. |
| `DiscoveryCache.CallsComeAnyTime` | openhands-agent-server/openhands/agent_server/acp_router.py:66-92 | The model lets calls come at any time and runs go on, fail or be cancelled; a call can wake exactly when its run has ended. |
| `DiscoveryCache.WaitsForRunInFlight` | openhands-agent-server/openhands/agent_server/acp_router.py:76-80 | The run a call waits for, or got its value from, was in flight for its key at the call, or was started by it. |
| `DiscoveryCache.ListedRunIsUnfinished` | openhands-agent-server/openhands/agent_server/acp_router.py:76-92 | The listed run is one for its key, and is unfinished if and only if it was not cancelled before its first step. |
| `DiscoveryCache.StillbornMeansCancelledUnstarted` | openhands-agent-server/openhands/agent_server/acp_router.py:82-92 | The runs that end without cleaning up are exactly those cancelled before their first step. |
| `DiscoveryCache.StillbornSticks` | openhands-agent-server/openhands/agent_server/acp_router.py:76-92 | Such a run stays listed in every later state. |
| `DiscoveryCache.StillbornServesNobody` | openhands-agent-server/openhands/agent_server/acp_router.py:73-92 | From then on every call for that key is answered from the cache or waits for that run and launches none, and no call gets a value from that run. |
| `DiscoveryCache.StillbornHappens` | openhands-agent-server/openhands/agent_server/acp_router.py:76-92 | An execution of four steps reaches such a run, a second call that waits for it, and that call's failure. |
| `DiscoveryCache.StepKeepsInv` | openhands-agent-server/openhands/agent_server/acp_router.py:56-92 | Every step of callers, runs and the clock, cancellations included, keeps the cache invariant. |
| `DiscoveryCache.DiscoveryCacheObject.Get` | openhands-agent-server/openhands/agent_server/acp_router.py:66-80 | Answered from the cache exactly when no refresh was asked for and an unexpired result is stored; otherwise the run waited for is the one then listed for the key, a new one only if none was listed. Stored results and other keys are untouched. |
| `DiscoveryCache.DiscoveryCacheObject.Finished` | openhands-agent-server/openhands/agent_server/acp_router.py:82-92 | The key is no longer listed; a success answers calls for exactly the next 300 seconds, an error leaves the stored results alone; other keys are untouched. |
| `AgentProfiles.EnsureHeals` | openhands-agent-server/openhands/agent_server/agent_profiles_router.py:226-303 | After ensuring, the active id names a stored profile if and only if it did before, or `default` loads and its canonical id is stored, or `default` can be seeded, or it is unusable and another profile has an id. |
| `AgentProfiles.EnsureMeans` | openhands-agent-server/openhands/agent_server/agent_profiles_router.py:226-303 | What ensuring does, in so many words: when nothing, else to `default`, a new `default`, another profile with an id, or nothing; agent kind and `mcp_config` stay. |
| `AgentProfiles.EnsureCanMiss` | openhands-agent-server/openhands/agent_server/agent_profiles_router.py:260-262 | A `default` whose id is stored in a non-canonical form is activated and still not found. |
| `AgentProfiles.MissingIdNeverSettles` | openhands-agent-server/openhands/agent_server/agent_profiles_router.py:226-262 | A `default` without an id is activated under an id stored nowhere, and under another one by the next call. |
| `AgentProfiles.EnsureTwice` | openhands-agent-server/openhands/agent_server/agent_profiles_router.py:226-282 | Ensuring twice equals ensuring once, if and only if the pointer was valid or `default` is not a loadable file without an id. |
| `AgentProfiles.SeedingIsSafe` | openhands-agent-server/openhands/agent_server/agent_profiles_router.py:256-303 | Ensuring overwrites no stored profile, adds at most `default`, and stays within the limit. |
| `AgentProfiles.GoodHeals` | openhands-agent-server/openhands/agent_server/agent_profiles_router.py:226-282 | With ids as the server writes them, the pointer heals unless `default` is unusable and no other profile has an id. |
| `AgentProfiles.OpKeepsPointerExactly` | openhands-agent-server/openhands/agent_server/agent_profiles_router.py:405-586 | List, save, rename, activate and delete each keep a valid pointer, from every state, if and only if the operation is not a losing one: a save that overwrites the only file with the active id by another id, a delete of the active profile after which ensuring cannot heal, or a delete of the only file without an id while the pointer is the text `None`. |
| `AgentProfiles.PointerStaysValidExactly` | openhands-agent-server/openhands/agent_server/agent_profiles_router.py:226-586 | Over every sequence of operations, a valid pointer is valid after each of them if and only if none is a losing one. |
| `AgentProfiles.DeleteKeepsPointer` | openhands-agent-server/openhands/agent_server/agent_profiles_router.py:449-500 | A delete keeps a valid pointer if and only if it removes a profile that is not the only holder of the active id, or the active one while `default` or another profile can take over. |
| `AgentProfiles.DeleteMeans` | openhands-agent-server/openhands/agent_server/agent_profiles_router.py:449-500 | A delete removes its file and no other; if it was the active one, the agent settings become `openhands` with `mcp_config` kept and the pointer is ensured, else the settings stay. |
| `AgentProfiles.DeleteCanLosePointer` | openhands-agent-server/openhands/agent_server/agent_profiles_router.py:449-500 | Deleting the active profile beside a `default` with a non-canonical id leaves the pointer dangling although `default` loads. |
| `AgentProfiles.SaveKeepsPointer` | openhands-sdk/openhands/sdk/profiles/agent_profile_store.py:396-447 | A save keeps a valid pointer if and only if the file it writes is not the only one with the active id, or is given that same id. |
| `AgentProfiles.SaveLimit` | openhands-sdk/openhands/sdk/profiles/agent_profile_store.py:169-179 | With 50 profiles a new one is refused and an existing one can be overwritten. |
| `AgentProfiles.RemoveJsonMeans` | openhands-sdk/openhands/sdk/profiles/agent_profile_store.py:43-49 | One trailing `.json` is dropped, and nothing else. |
| `AgentProfiles.GoodSaveLoses` | openhands-sdk/openhands/sdk/profiles/agent_profile_store.py:417-447 | With canonical ids, a save loses the pointer if and only if its name has the suffix twice and the file it overwrites is the only one with the active id. |
| `AgentProfiles.GoodDeleteLoses` | openhands-agent-server/openhands/agent_server/agent_profiles_router.py:449-500 | With canonical ids, a delete loses the pointer if and only if it deletes the active profile and leaves nothing to activate. |
| `AgentProfiles.DoubleSuffixLosesPointer` | openhands-sdk/openhands/sdk/profiles/agent_profile_store.py:435-446 | Saving under `x.json.json` makes a valid pointer to `x` dangle. |
| `AgentProfiles.HistoryKeepsGood` | openhands-sdk/openhands/sdk/profiles/agent_profile_store.py:145-273 | Over any sequence of operations ids stay in canonical form and the store within its limit. |
| `AgentProfiles.AgentProfileService.EnsureActiveProfile` | openhands-agent-server/openhands/agent_server/agent_profiles_router.py:226-253 | Nothing changes for a valid pointer; else the pointer moves to the profile chosen, if there is one. |
| `AgentProfiles.AgentProfileService.ProfileToActivate` | openhands-agent-server/openhands/agent_server/agent_profiles_router.py:256-282 | The choice: `default` when it loads, a newly seeded one when it is absent and there is room, else the first other profile of the listing with an id, and none only when there is none. |
| `AgentProfiles.AgentProfileService.NameForId` | openhands-sdk/openhands/sdk/profiles/agent_profile_store.py:347-358 | Found if and only if some stored profile has that id text. |
| `AgentProfiles.AgentProfileService.Save` | openhands-sdk/openhands/sdk/profiles/agent_profile_store.py:417-447 | Refused exactly when it would create a file in a full store, with nothing changed; else one file is written and all others kept, it loads, and a namesake keeps its id. The limit is not passed, and a valid pointer survives exactly outside the losing case. |
| `AgentProfiles.AgentProfileService.Rename` | openhands-sdk/openhands/sdk/profiles/agent_profile_store.py:243-273 | The profile moves with its id when the source is there and the target is free; else nothing changes. |
| `AgentProfiles.AgentProfileService.Activate` | openhands-agent-server/openhands/agent_server/agent_profiles_router.py:541-586 | The pointer is set exactly when a stored profile has that id; nothing else changes. |
| `AgentProfiles.AgentProfileService.Delete` | openhands-agent-server/openhands/agent_server/agent_profiles_router.py:449-500 | The file is removed; if it was the active one the settings are reset and the pointer is ensured. |
| `SecretRedaction.RedactSecrets` | openhands-agent-server/openhands/agent_server/_secret_redaction.py:41-64 | In place: afterwards the same dicts and lists hold the redacted value, and the flag is true exactly when that differs from before. |
| `SecretRedaction.Allocate` | openhands-agent-server/openhands/agent_server/_secret_redaction.py:100 | Every JSON value can be held by new dicts and lists, so redaction applies to every parsed document. |
| `SecretRedaction.RedactDocument` | openhands-agent-server/openhands/agent_server/_secret_redaction.py:110-116 | Parsing into new containers, redacting them and printing gives the redaction of the document, and the flag tells whether it had a secret. |
| `SecretRedaction.RedactIsClean` | openhands-agent-server/openhands/agent_server/_secret_redaction.py:41-64 | No secret member or item is left at any depth. |
| `SecretRedaction.NoSecretRemains` | openhands-agent-server/openhands/agent_server/_secret_redaction.py:29-64 | Wherever the result has a string below the top, it does not start with the token prefix, and under one of the five credential keys it is empty or the marker. |
| `SecretRedaction.OthersAreKept` | openhands-agent-server/openhands/agent_server/_secret_redaction.py:29-64 | A token, or a non-empty string under a credential key, becomes the marker; every other string and scalar is found where it was, and containers keep their kind and length. |
| `SecretRedaction.RedactMember` | openhands-agent-server/openhands/agent_server/_secret_redaction.py:50-56 | What becomes of a member of an object, with the prefix, the keys and the marker written out. |
| `SecretRedaction.RedactItem` | openhands-agent-server/openhands/agent_server/_secret_redaction.py:57-63 | What becomes of an item of an array. |
| `SecretRedaction.ValueMeans` | openhands-agent-server/openhands/agent_server/_secret_redaction.py:50-63 | Which JSON value a dict or list stands for. |
| `SecretRedaction.RedactFixesExactlyClean` | openhands-agent-server/openhands/agent_server/_secret_redaction.py:41-64 | The value is unchanged if and only if there was no secret in it. |
| `SecretRedaction.RedactAtPath` | openhands-agent-server/openhands/agent_server/_secret_redaction.py:29-64 | The same paths and keys exist before and after, and each value is what it was unless it is a secret or lies above one. |
| `SecretRedaction.RedactIdempotent` | openhands-agent-server/openhands/agent_server/_secret_redaction.py:41-64 | A second pass changes nothing. |
| `SecretRedaction.BareTokenIsKept` | openhands-agent-server/openhands/agent_server/_secret_redaction.py:49-64 | A document that is nothing but an encrypted secret is left as it is. |
| `SecretRedaction.RedactKeepsUniqueKeys` | openhands-agent-server/openhands/agent_server/_secret_redaction.py:50-56 | No object gains a duplicate key. |
| `JsonLines.RedactedJsonLines` | openhands-agent-server/openhands/agent_server/_secret_redaction.py:91-108 | With lines as the code cuts them: nothing is returned exactly when no line holds a secret; else the lines redacted one by one, blank and unparsable ones verbatim. On a file whose breaks other than newlines are harmless, the same holds of its newline-delimited lines. |
| `JsonLines.RedactedLineReads` | openhands-agent-server/openhands/agent_server/_secret_redaction.py:94-107 | A blank or unparsable line is kept; any other becomes a line that reads as the redacted document, ended by a newline if it was. |
| `JsonLines.PlainFileIsRedacted` | openhands-agent-server/openhands/agent_server/_secret_redaction.py:91-108 | On such a file the code finds a secret if and only if a newline-delimited line has one, writes the line-by-line redaction of the file, and finds nothing in that; such a file stays such a file. |
| `JsonLines.NewlineRedactionIsLineByLine` | openhands-agent-server/openhands/agent_server/_secret_redaction.py:94-108 | For every text, the newline-delimited lines of the redaction meant are the redacted lines, and none has anything left to redact. |
| `TextLines.CutsAgree` | openhands-agent-server/openhands/agent_server/_secret_redaction.py:94 | The code's lines are the newline-delimited lines of a text if and only if every other break in it is the last character or the return of a return and newline. |
| `TextLines.BreaksAre` | openhands-agent-server/openhands/agent_server/_secret_redaction.py:94 | The ten characters at which `splitlines` cuts, and no others. |
| `TextLines.CutsEachLine` | openhands-agent-server/openhands/agent_server/_secret_redaction.py:94 | For every file, the code cuts each newline-delimited line by itself. |
| `TextLines.LineIsKeptWhole` | openhands-agent-server/openhands/agent_server/_secret_redaction.py:94 | It keeps such a line whole if and only if the breaks in that line are harmless. |
| `JsonLines.MissedOnlyByInnerBreak` | openhands-agent-server/openhands/agent_server/_secret_redaction.py:94-108 | If a file is left alone although one of its newline-delimited documents has a secret, the line of that document has a break inside it. |
| `JsonLines.PlainLineIsRedacted` | openhands-agent-server/openhands/agent_server/_secret_redaction.py:94-108 | In every file, a newline-delimited line with only harmless breaks is one of the lines the code sees, and its redaction one of those it writes. |
| `JsonLines.BreakHidesSecret` | openhands-agent-server/openhands/agent_server/_secret_redaction.py:94-108 | A newline-delimited document with a secret is missed whenever a break other than a newline or return cuts it into two parts that do not parse. |
| `JsonLines.SeparatorHidesKey` | openhands-agent-server/openhands/agent_server/_secret_redaction.py:94-108 | A file of one such document, with an API key and a line separator inside another string, at which nothing is found to redact. |
| `JsonLines.ResultIsLineByLine` | openhands-agent-server/openhands/agent_server/_secret_redaction.py:94-108 | With lines as the code cuts them, for every file: the lines of the result are the redacted lines of the input if and only if every document but one on the last line ends in a newline. |
| `JsonLines.CarriageReturnJoins` | openhands-agent-server/openhands/agent_server/_secret_redaction.py:94-108 | Any two documents with a carriage return between them are two lines and come out as one. |
| `JsonLines.ReturnTerminatedFile` | openhands-agent-server/openhands/agent_server/_secret_redaction.py:94-108 | A file with a secret in its first document, ended by a carriage return, is rewritten with its two documents on one line. |
| `JsonLines.SecondPassFindsNothing` | openhands-agent-server/openhands/agent_server/_secret_redaction.py:91-108 | With lines as the code cuts them: under that condition the code finds nothing to redact in what it wrote. |
| `TextLines.SplitLinesConserves` | openhands-agent-server/openhands/agent_server/_secret_redaction.py:94 | Cutting into lines and joining them gives back the text. |
| `TextLines.SplitRecovers` | openhands-agent-server/openhands/agent_server/_secret_redaction.py:94-108 | Joining lines and cutting gives back the same lines, if and only if each is one line and neighbours stay apart. |
| `SkillNames.NormalizedIsInLanguage` | scripts/convert_legacy_skills.py:38-49 | Every input normalises to the empty string or to a word of the validator's language. |
| `SkillNames.NormalizeIsOnePass` | scripts/convert_legacy_skills.py:38-49 | The result is the letters and digits of the lowered name in order, with one hyphen between two of them exactly if a hyphen or underscore stood between. |
| `SkillNames.NormalizeIdempotent` | scripts/convert_legacy_skills.py:38-49 | Normalising twice is normalising once. |
| `SkillNames.LanguageIsFixed` | scripts/convert_legacy_skills.py:38-49 | Names in the language are left unchanged. |
| `SkillNames.LanguageIsTidy` | scripts/convert_legacy_skills.py:35 | The regular language is the set of strings of allowed characters with single inner hyphens. |
| `SkillNames.ValidateSkillName` | scripts/convert_legacy_skills.py:52-65 | Accepted if and only if the length is 1 to 64 and the pattern matches; which errors are reported for which fault. |
| `SkillNames.AcceptedIsFixedUnlessNewline` | scripts/convert_legacy_skills.py:35-65 | A name matching the pattern is left unchanged if and only if it has no trailing newline. |
| `SkillNames.NewlineIsAccepted` | scripts/convert_legacy_skills.py:35 | The pattern matches a name that ends in a newline. |
| `SkillNames.NormalizedMatches` | scripts/convert_legacy_skills.py:35-49 | A normalised name matches the pattern if and only if it is not empty. |
| `CauseWalk.HasMissingCipherCause` | openhands-agent-server/openhands/agent_server/_secrets_exposure.py:74-82 | The walk ends on every finite graph, cyclic or not, and returns true if and only if a missing-cipher error lies on the chain that follows cause, else context. |
| `CauseWalk.LinkMeans` | openhands-agent-server/openhands/agent_server/_secrets_exposure.py:76-81 | The chain: the start, then after each exception its cause if it has one, else its context. |
| `CauseWalk.ChainGoesOn` | openhands-agent-server/openhands/agent_server/_secrets_exposure.py:81 | Behind a cause the context is never looked at. |
| `CauseWalk.ChainStaysIn` | openhands-agent-server/openhands/agent_server/_secrets_exposure.py:75-81 | A set of exceptions that holds the start and is closed under the next link holds the whole chain. |
| `ForbiddenAttributes.NewViolations` | scripts/check_forbidden_dynamic_attributes.py:182-191 | The decrementing loop reports per key exactly the excess of current over baseline, namely the first occurrences of that key, in order. |
| `ForbiddenAttributes.Check` | scripts/check_forbidden_dynamic_attributes.py:181-210 | Exit code 0 exactly when no key exceeds its baseline count and every key below it is in a file that exists and was not checked; else 1. |
| `ForbiddenAttributes.CheckIsEquality` | scripts/check_forbidden_dynamic_attributes.py:185-210 | When every baseline file is checked or missing, success is equality of the two multisets. |
| `ForbiddenAttributes.CheckAfterUpdate` | scripts/check_forbidden_dynamic_attributes.py:174-210 | The check succeeds right after a baseline update over the same files. |
| `ForbiddenAttributes.NoAdditionsMeansContained` | scripts/check_forbidden_dynamic_attributes.py:107-108 | Nothing was added exactly when the baseline is contained in the reference. |

## Assumptions

- Owner ids are distinct per live instance, the file lock is exclusive and freed by a crash, and replacing a
  file is atomic. `LiveOwnerKeepsLease` adds a shared, non-decreasing clock and a probe that never reports a
  live process as gone; the other lease results need neither.
- Event ids are 32 hexadecimal digits and distinct, file names are not empty, and times have four-digit years.
- The path of the events directory has no glob characters. Retention globs the whole path, so with a `[` in it
  the pattern may match no file and nothing would be deleted.
- Process groups of different commands are distinct. Newly minted profile ids are new.
- A document that `json.loads` has read, once redacted, is printed by `json.dumps` on one line that reads back
  as the same document. `str.lower` leaves ASCII text without capitals alone.

## Left out

- The operating system: real file access, signals, subprocess creation, host names and process ids are
  values or parameters. Lease times and cache times are real numbers, without floating-point rounding.
- The text format of JSON and the UTF-8 decoding of output read 8192 bytes at a time; streams are sequences
  of decoded pieces.
- Reader cancellation on timeout, and errors while reading, saving or publishing a chunk. A reader stopped
  between saving a chunk and trimming the shared buffer leaves that text in the buffer, so the conservation
  result speaks of runs without these.
- Deletion of the cursor's file between pages: the code then starts again from the first page.
- Time-zone conversion of search bounds, and years below 1000, which `strftime` may print with fewer digits.
- The fields of the collected output other than texts and exit code, which are copied from the final event.
- `close()` of the bash service, the signals sent on timeout and on cancellation, and the one-second waits
  before a stop escalates to a kill.
- `BashStop.NoStopLost`: a command whose spawn fails or whose task is cancelled never reads output, so nothing
  is claimed for it.
- `CauseWalk.HasMissingCipherCause`: takes every exception object as true in `cause or context`.
- `AgentProfiles.OpKeepsPointer`: a corollary of `OpKeepsPointerExactly`, which holds from every state; it needs
  canonical ids (`DeleteCanLosePointer` shows it false without) and no doubled suffix (`DoubleSuffixLosesPointer`).
- `AgentProfiles.PointerStaysValid`: in the same way a corollary; `PointerStaysValidExactly` is the statement for
  all sequences of operations.
- Documents on which `json.loads` fails with anything but a decoding error, such as one nested too deeply.
- Profile ids that are JSON numbers of 32 digits, which print like a UUID without being one. Profile name
  validation, revisions, materialisation, repointing of LLM profile references, the seeding of an
  LLM profile beside the agent profile, and two profile operations interleaved inside one another.
- Reading and writing the baseline file, finding the calls in Python source, and the printed messages.
- HTTP routing, status codes, authentication, telemetry and configuration loading.
