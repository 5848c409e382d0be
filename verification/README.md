# Verified model of the desktop agent

The desktop agent (`client_new/`) publishes files in chunks, keeps an index of them, repairs and checks the JSON that AI
workers return, runs those workers under a lease lock, records and replays clicks, forwards messages in frames and keeps
the ones it could not send, learns which page locators work, hands browser sessions over between commands, switches the
local POS between environments and merges remote configuration. This project models these parts in Dafny 4.11 and proves
what they guarantee over every input, every run and every interleaving. `dafny verify dfyconfig.toml` checks all of it.

Each module follows one component. Code that updates state in place is a class whose methods are proved to be exactly one
step of a specification function; what the component promises is then proved about runs of those steps. Values (JSON
documents, transfers, viewports, sessions) are datatypes. Functions the program only calls (digests, `int()`, `str()`,
date parsing, `json.loads`) are parameters, so the results hold for any such function.

| module | what it models |
|---|---|
| `Sorting`, `PyJson` | Python's stable `sorted` and insertion-ordered dictionaries |
| `ChunkRanges`, `FileService`, `FilePublishing`, `FileCommands`, `FileTraffic`, `FileAgent`, `ResourceManifest` | chunked publishing: ranges and part files, the protocol, its guarantees, each command case by case, those under mixed traffic, the service object, the index |
| `QuoteRepair`, `QuoteGrammar` | the quote-repair scan, and the JSON documents it restores |
| `ResultSchema`, `ResultSanitizer` | the schema check and the sanitiser |
| `TaskLease`, `LogDigest` | the lease lock and the log digest |
| `Viewport`, `ClickRecorder` | coordinate scaling and the click recogniser |
| `MessageFrames`, `PendingDelivery` | framing and store-and-forward |
| `LocatorLearning`, `RunSessions` | locator learning and run-session hand-over |
| `PosSwitch` | POS environment switching |
| `ConfigMerge` | the partial deep merge |

## Where the code and its promise differ

The model follows the code. Each of these is a proved statement.

- `file_read` never returns content: it assigns a field of a frozen dataclass (agent_file_service.py:351), which raises
  (`FilePublishing.ReadNeverReturnsContent`).
- A transfer of size 0 that has accepted an empty chunk can never be committed
  (`ChunkRanges.EmptyFileNeverCompletesAfterAChunk`).
- A refused begin leaves an empty part file behind when only its version does not convert, and nothing ever collects it
  (`FilePublishing.BeginEffect`, `FilePublishing.OrphanIsNeverCollected`).
- One published expiry whose parsing overflows ends the service: cleanup lets that exception escape, and it runs before
  every command (`FilePublishing.CommitBreaksCleanupExactlyWhen`, `FilePublishing.OverflowBlocksEveryCommand`).
- A delete frees an id for other content exactly when the index has an entry: a file without one stays and goes on
  refusing it (`FileCommands.DeleteFreesExactlyWhen`).
- Saving a manifest does not always read back as it was saved: its digest comes back in lower case, and one that would not
  load even so leaves nothing under its id (`ResourceManifest.SaveThenGet`).
- A raw quote before a structural character cannot be told from a closing one (`QuoteGrammar.ScanRepairsExactlyWhen`).
- A conforming payload can be rewritten by the sanitiser when the evidence property has no type
  (`ResultSanitizer.ConformingIsLeftAloneExactlyWhen`).
- The lease lets a second worker in exactly when the last heartbeat is more than 60 s old, and a worker releases the lock
  without checking that it is still its own (`TaskLease.SecondWorkerEntersExactlyWhen`,
  `TaskLease.ReleaseRemovesAnothersLock`).
- Letters typed while a flush is between joining and clearing the text are lost (`ClickRecorder.TextSurvivesExactlyWhen`).
- Logical pixels can land outside a viewport that is about half as wide or less, which a request larger than the screen
  produces (`Viewport.LogicalPointsLandInsideExactlyWhen`, `Viewport.OversizedRequestLeaks`).
- With two sessions of one run id, a stop that answers "released" can miss the one that is running
  (`RunSessions.StopTakesExactly`, `RunSessions.OverlapEscapesStop`).
- A cancel that finds a session waiting also forgets the running session of that run id, without closing it
  (`RunSessions.CancelTakesExactly`).
- Switching the POS there and back restores the files exactly when the other environment's backup has no parameters, or
  readable ones that do not give this environment's key, or the same files anyway; with unreadable parameters no later
  switch is possible at all. It changes the environment when the key's parameters name another one, and a file listed
  twice is lost
  (`PosSwitch.TripRestoresExactlyWhen`, `PosSwitch.UnreadableParamsStrand`, `PosSwitch.BackRestoresTheKeyExactlyWhen`,
  `PosSwitch.MoveAllCounts`).
- A response enqueued while a flush is sending is lost unless the flush had read an empty list
  (`PendingDelivery.OvertakingSurvivesExactlyWhen`).
- The null-skip of the merge holds exactly where dictionaries are merged into dictionaries
  (`ConfigMerge.NullIsSkippedExactlyWhen`).

## Model

| member | source | states |
|---|---|---|
| `ChunkRanges.IsComplete` | client_new/services/agent_file_service.py:584-594 | the cursor loop answers what the scan over the sorted ranges says |
| `ChunkRanges.CompleteIffLengthsAddUp` | client_new/services/agent_file_service.py:584-594 | for disjoint in-bounds ranges of a non-empty file, complete if and only if the lengths sum to the file size; empty ranges allowed |
| `ChunkRanges.CompleteIffEveryByteOnce` | client_new/services/agent_file_service.py:580-594 | ... and if and only if every byte position is covered exactly once |
| `ChunkRanges.EmptyFileNeverCompletesAfterAChunk` | client_new/services/agent_file_service.py:580-594 | a size-0 file is complete only without chunks, the overlap test admits empty ones, and after any of them it never completes |
| `ChunkRanges.WriteKeepsHolds` | client_new/services/agent_file_service.py:264-279 | writing an accepted piece keeps every earlier piece in the part file, with zero filling between them |
| `ChunkRanges.PartDeterminedByPieces` | client_new/services/agent_file_service.py:264-279 | the bytes of the part file depend on which pieces arrived, not on their order |
| `ChunkRanges.CompletePart` | client_new/services/agent_file_service.py:281-306 | once complete, the part file has the announced size and equals the payloads concatenated in offset order |
| `ResourceManifest.ValidateLocator` | client_new/services/agent_resource_storage.py:199-225 | a locator is valid only if it is the canonical one of the resource id |
| `ResourceManifest.OwnLocatorIsValid` | client_new/services/agent_resource_storage.py:199-225 | the locator the store builds for a valid resource id passes its own validation |
| `ResourceManifest.PartsOfJoined` | client_new/services/agent_resource_storage.py:199-225 | the parts of a path are its components between slashes without the empty ones and the dots |
| `ResourceManifest.LocatorAcceptedExactlyWhen` | client_new/services/agent_resource_storage.py:199-225 | a locator is accepted if and only if it is relative and its POSIX parts are `resources` and the valid id; no backslash, NUL or parent step gets through |
| `ResourceManifest.EntryRoundTrip` | client_new/services/agent_resource_storage.py:47-101 | reading back what was written gives the manifest with its digest in lower case if that one is loadable and fails otherwise; it is the identity if and only if the fields are loadable |
| `ResourceManifest.ReadsExactlyWhen` | client_new/services/agent_resource_storage.py:53-101 | a dictionary loads as a given manifest if and only if all ten keys are there and each field of the manifest is what its own key reads as |
| `ResourceManifest.LoadedAt` | client_new/services/agent_resource_storage.py:147-175 | what loading keeps under a key is exactly what validating the raw entry of that key gives |
| `ResourceManifest.FindIsAccept` | client_new/services/agent_resource_storage.py:147-175 | looking up a key in a document with distinct keys is validating its raw entry |
| `ResourceManifest.SaveThenGet` | client_new/services/agent_resource_storage.py:242-256 | after save, get of the id finds the manifest with its digest in lower case if that one is loadable and nothing otherwise, the very manifest if and only if it is loadable; every other id reads as before |
| `ResourceManifest.RemoveThenGet` | client_new/services/agent_resource_storage.py:266-274 | after remove the id is gone and every other id reads as before |
| `ResourceManifest.ResourceManifestStore.LoadDocument` | client_new/services/agent_resource_storage.py:147-175 | the loading loop keeps exactly the entries the specification keeps |
| `ResourceManifest.ResourceManifestStore.Save` | client_new/services/agent_resource_storage.py:177-197 | the whole document after save is the loaded one with that entry put, its ids written in order; an invalid locator changes nothing |
| `ResourceManifest.ResourceManifestStore.Remove` | client_new/services/agent_resource_storage.py:266-274 | the whole document after remove, and whether there was an entry |
| `ResourceManifest.WrittenInKeyOrder` | client_new/services/agent_resource_storage.py:177-180 | the resources are written in the order of their ids, the order in which cleanup takes them |
| `FileAgent.AgentFileService.PublishBegin` | client_new/services/agent_file_service.py:165-226 | one begin is exactly the begin step of the protocol, error codes and state included |
| `FileAgent.AgentFileService.FileChunk` | client_new/services/agent_file_service.py:228-279 | one chunk is exactly the chunk step; what that step answers and does is stated by UnusableChunk, ChunkAnswer and ChunkEffect |
| `FileAgent.AgentFileService.PublishCommit` | client_new/services/agent_file_service.py:281-328 | one commit is exactly the commit step |
| `FileAgent.AgentFileService.FileDelete` | client_new/services/agent_file_service.py:364-379 | one delete is exactly the delete step; what that does is stated by DeleteEffect and DeleteThenNothing |
| `FileAgent.AgentFileService.FileStat` | client_new/services/agent_file_service.py:438-466 | one query answers what the specification answers (StatAnswer, DamageIsNoticed) and changes nothing |
| `FileAgent.AgentFileService.FileRead` | client_new/services/agent_file_service.py:330-362 | one read answers what the specification answers, which is never content |
| `FileAgent.AgentFileService.CleanupExpired` | client_new/services/agent_file_service.py:523-556 | the two loops drop exactly what the specification drops, and say whether they ran to their end or an overflow while parsing an expiry escaped |
| `FileAgent.AgentFileService.HandleCommand` | client_new/services/agent_file_service.py:113-160 | cleanup, then the command: state and error code are exactly those of the specification |
| `FilePublishing.NextKeepsInv` | client_new/services/agent_file_service.py:165-556 | every step keeps the invariant: ranges are those of the chunks, in bounds, pairwise disjoint; the part file holds every accepted payload; transfers stay within the limit; each index entry has its file with the recorded size and digest |
| `FilePublishing.RunKeepsInv` | client_new/services/agent_file_service.py:165-556 | the invariant holds after every run from any state that has it |
| `FilePublishing.RunsFromEmptyKeepInv` | client_new/services/agent_file_service.py:165-556 | it holds after every run from a fresh installation |
| `FilePublishing.CleanupForgetsExactly` | client_new/services/agent_file_service.py:523-556 | cleanup forgets exactly the resources it reaches whose expiry parses to a time that has come, entry and file, and the transfers idle beyond their lifetime, with their part files; it reaches all if it completes; nothing else changes |
| `FilePublishing.CleanupCompletesExactlyWhen` | client_new/services/agent_file_service.py:541-546 | cleanup completes if and only if no indexed expiry overflows when parsed |
| `FilePublishing.OverflowBlocksEveryCommand` | client_new/services/agent_file_service.py:113-160 | after one indexed expiry overflows, every later command of any kind is answered with an internal error, for good; no transfer begins |
| `FilePublishing.HandleKeepsInv` | client_new/services/agent_file_service.py:113-160 | every command with the cleanup in front of it keeps the invariant |
| `FilePublishing.BeginEffect` | client_new/services/agent_file_service.py:165-226 | begin in every case: refused by its checks it changes nothing and by its cleanup no more than that cleanup; else it resumes a live transfer of the same identity with all it has received, refuses another identity as a conflict, refuses when the limit is reached, and otherwise starts empty; a refusal then changes something if and only if just the version is wrong and no empty part file was there, and leaves one; nobody else is touched |
| `FilePublishing.OrphanIsNeverCollected` | client_new/services/agent_file_service.py:200-226 | over every run, cleanups and restarts included, a part file without a transfer stays with its bytes until that transfer is begun |
| `FilePublishing.StepNeverRewrites` | client_new/services/agent_file_service.py:299-328 | no step rewrites a published file: it stays or disappears |
| `FilePublishing.LiveBytesNeverChange` | client_new/services/agent_file_service.py:299-328 | over every run, the bytes of a resource do not change while its entry stays live |
| `FilePublishing.CommitSucceedsExactlyWhen` | client_new/services/agent_file_service.py:281-309 | a commit succeeds if and only if the ranges are complete, the payloads in offset order have the announced digest and no different content is published; the size mismatch and missing part file branches are unreachable |
| `FilePublishing.CommitPublishes` | client_new/services/agent_file_service.py:299-328 | a successful commit stores exactly the payloads in offset order under an unused id, keeps existing bytes otherwise, indexes them, and leaves every other entry, file and transfer alone |
| `FilePublishing.FailedCommitChangesNothing` | client_new/services/agent_file_service.py:299-309 | a refused commit changes only the last activity; different content for a published id is refused as a conflict |
| `FilePublishing.CommitThenStat` | client_new/services/agent_file_service.py:438-466 | after a commit a query returns its manifest if and only if the expiry parses to a later time |
| `FilePublishing.CommitBreaksCleanupExactlyWhen` | client_new/services/agent_file_service.py:281-328 | a successful commit makes cleanup fail from then on if and only if the expiry it publishes, the one its begin named, overflows when parsed |
| `FilePublishing.ReadNeverReturnsContent` | client_new/services/agent_file_service.py:330-362 | no read ever returns content; it answers an internal error if and only if the query would succeed and the size is within the limit, and otherwise refuses like the query or as too large |
| `FilePublishing.PlannedChunkAccepted` | client_new/services/agent_file_service.py:228-279 | a chunk of a fitting set is accepted whatever arrived before, and flagged as a retry exactly when it had arrived |
| `FilePublishing.EveryArrivalAccepted` | client_new/services/agent_file_service.py:228-279 | every arrival order with any number of retries is accepted, what is received is what arrived, nobody else is touched |
| `FilePublishing.ArrivalOrderIrrelevant` | client_new/services/agent_file_service.py:228-279 | two arrival orders of the same chunks leave the same part files |
| `FilePublishing.EveryArrivalOrderPublishes` | client_new/services/agent_file_service.py:228-328 | whatever the order and retries, once a completing chunk set has arrived, a commit to an unused id stores exactly its payloads in offset order |
| `FileCommands.UnusableChunk` | client_new/services/agent_file_service.py:228-253 | a chunk with an unusable field, or for an unknown transfer, changes nothing; each of the six codes exactly when, the earlier complaint first |
| `FileCommands.ChunkAnswer` | client_new/services/agent_file_service.py:250-279 | for a live transfer, by what it has received: too long if and only if it ends beyond the size; a conflict if and only if its number is taken by a piece of other place, length or digest; an overlap if and only if its number is new and a received piece starts before its end and ends after its start; a retry if and only if a received piece has its number, place, length and digest; new in exactly the remaining case |
| `FileCommands.ChunkEffect` | client_new/services/agent_file_service.py:250-279 | a new chunk is recorded, its bytes are written at its place and nowhere else, and the answer counts all bytes received; a retry or refusal changes the last activity only; after any success a piece of that number, place, length and digest stands in the part file |
| `FileCommands.LostOrChangedPart` | client_new/services/agent_file_service.py:265-298 | with the part file gone a new chunk is a failed write and a complete commit a failed read; with one of another size or digest the commit is a mismatch of that; nothing but the last activity changes |
| `FileCommands.DeleteEffect` | client_new/services/agent_file_service.py:364-379 | with an index entry a delete answers true, the id is found no more and its file is gone, every other entry and file and all transfers stay; without one it answers false and changes nothing; an invalid id is refused |
| `FileCommands.DeleteThenNothing` | client_new/services/agent_file_service.py:364-379 | after a delete every query and read says not found, and a second delete answers false and changes nothing |
| `FileCommands.DeleteFreesExactlyWhen` | client_new/services/agent_file_service.py:299-379 | after a delete, a complete commit of other content to the id succeeds if and only if the id had an index entry; a file without entry goes on conflicting |
| `FileCommands.StatAnswer` | client_new/services/agent_file_service.py:438-515 | under the invariant, each answer of a query exactly when: expiry not a time, expired, expected size unreadable or different, expected digest malformed or different, and otherwise the manifest |
| `FileCommands.DamageIsNoticed` | client_new/services/agent_file_service.py:438-488 | a file lost or changed on disk is noticed by every query of an unexpired resource: missing, wrong size, wrong digest, in this order and before any expectation |
| `FileCommands.ReadAnswer` | client_new/services/agent_file_service.py:330-362 | a read is too large if and only if the resource is there, unexpired and its file beyond the limit; an internal error exactly where the query answers within the limit; otherwise it says what the query says |
| `FileCommands.UnusableBegin` | client_new/services/agent_file_service.py:165-187 | a begin with an unusable field changes nothing; each of the six codes exactly when, the earlier complaint first |
| `FileCommands.FreshBegin` | client_new/services/agent_file_service.py:188-226 | a new transfer starts empty and carries every announced field: the MIME type or its default, version at least 1, size, digest in lower case, expiry, creation time; the reply names id, size and chunk limit |
| `FileCommands.ResumedBegin` | client_new/services/agent_file_service.py:189-198 | repeating the begin of a live transfer answers what the first one answered |
| `FileCommands.UnusableCommit` | client_new/services/agent_file_service.py:281-287 | a commit under an invalid or unknown transfer id changes nothing |
| `FileCommands.CommitAnswer` | client_new/services/agent_file_service.py:289-308 | under the invariant, a commit is incomplete, a checksum mismatch or a conflict, each exactly when |
| `FileCommands.PublishedAsAnnounced` | client_new/services/agent_file_service.py:165-328 | end to end from the begin: any arrival order with retries and a commit store the payloads in offset order, and the index entry carries the announced id, name, type, size, digest, version, expiry (or the default one), the time of the begin and that of the commit |
| `FileCommands.HandleIsItsCommand` | client_new/services/agent_file_service.py:113-160 | while cleanup completes, a whole command is its own operation on what the cleanup leaves, and its code is what that operation answers |
| `FileCommands.DeletedForEveryCommand` | client_new/services/agent_file_service.py:113-160 | after a whole delete command, later whole query, read and delete commands find nothing |
| `FileTraffic.MixedTrafficAccepted` | client_new/services/agent_file_service.py:113-160 | as whole commands with a cleanup in front of each and any foreign commands in between: while cleanup completes and the transfer is never idle beyond its lifetime, every piece is accepted in any order with retries, and what is received is exactly what came |
| `FileTraffic.MixedTrafficPublishes` | client_new/services/agent_file_service.py:113-160 | end to end under that traffic, the commit command publishes exactly the payloads in offset order under an id unused then |
| `QuoteRepair.ScanText` | client_new/services/ticket_ai_analysis_service.py:1653-1685 | the scanning loop produces the scan of the whole text |
| `QuoteRepair.ClosesExactlyWhen` | client_new/services/ticket_ai_analysis_service.py:1668-1676 | a quote counts as closing if and only if, after some blanks, comes the end or one of `, } ] :` |
| `QuoteRepair.ScanIdempotent` | client_new/services/ticket_ai_analysis_service.py:1653-1685 | scanning twice is scanning once, for every input |
| `QuoteRepair.ScanOnlyInsertsBackslashes` | client_new/services/ticket_ai_analysis_service.py:1653-1685 | the output is the input with marked insertions, every one of them a backslash; erasing them gives back the input |
| `QuoteRepair.RepairUnescapedQuotes` | client_new/services/ticket_ai_analysis_service.py:1632-1692 | the whole function: first to last brace, scan, accept only what loads as an object |
| `QuoteRepair.RepairTakes` | client_new/services/ticket_ai_analysis_service.py:1632-1692 | no brace pair in order gives nothing; otherwise the scan of exactly the first opening to the last closing brace, if it loads |
| `QuoteRepair.RepairIdempotent` | client_new/services/ticket_ai_analysis_service.py:1632-1692 | repairing a repaired text gives it back |
| `QuoteGrammar.ScanRepairsExactlyWhen` | client_new/services/ticket_ai_analysis_service.py:1653-1685 | for every JSON tree whose strings may hold raw quotes, the scan escapes exactly those quotes if and only if none of them is followed, after blanks, by a structural character |
| `QuoteGrammar.BodyRecoverableMeans` | client_new/services/ticket_ai_analysis_service.py:1668-1676 | the condition on a string: behind no raw quote of it come blanks and then a structural character |
| `QuoteGrammar.WellFormedUnchanged` | client_new/services/ticket_ai_analysis_service.py:1653-1685 | every well-formed JSON text (sections 2 and 4 to 7 of RFC 8259, any whitespace) is left unchanged |
| `QuoteGrammar.RepairGivesMeantDocumentExactlyWhen` | client_new/services/ticket_ai_analysis_service.py:1632-1692 | with any text around the object and any json.loads, the repair returns the well-formed document that was meant if and only if its raw quotes are recoverable and json.loads accepts it |
| `QuoteGrammar.QuoteBeforeCommaIsNotRecovered` | client_new/services/ticket_ai_analysis_service.py:1668-1676 | a concrete document with a raw quote before a comma that the scan does not restore |
| `ResultSchema.NoViolationsIffConforms` | client_new/services/ticket_ai_analysis_service.py:1260-1344 | the schema check reports nothing if and only if the value conforms: union types, required, closed objects, nested arrays |
| `ResultSchema.ScalarSchemas` | client_new/services/ticket_ai_analysis_service.py:1260-1344 | what each type name accepts: integers are numbers, booleans are neither, an unknown name accepts everything |
| `ResultSchema.ViolationsAreReal` | client_new/services/ticket_ai_analysis_service.py:1260-1344 | every reported violation is of a value, or a field missing or present, that is so at its path, and breaks the schema reached there |
| `ResultSchema.ReportedExactlyWhen` | client_new/services/ticket_ai_analysis_service.py:1260-1344 | a violation is reported if and only if it breaks the schema at its path: wrong type, union not met, required field missing, undeclared field in a closed object |
| `ResultSanitizer.SanitizeResultPayload` | client_new/services/ticket_ai_result_schema_service.py:39-79 | the popping and normalising loops give the specified payload and the specified actions, in order |
| `ResultSanitizer.EvidenceBecomes` | client_new/services/ticket_ai_result_schema_service.py:66-96 | element by element: a string stays; a dictionary becomes "source: content", or whichever of the two gives text, blanks at the ends removed; anything else becomes its JSON text |
| `ResultSanitizer.ActionsAre` | client_new/services/ticket_ai_result_schema_service.py:54-79 | reported are exactly the undeclared fields of a closed schema and the evidence elements that were no strings, with place and type |
| `ResultSanitizer.SanitizeIdempotent` | client_new/services/ticket_ai_result_schema_service.py:54-79 | sanitising twice is sanitising once, the second time without actions |
| `ResultSanitizer.CleanedRootHasNoSuchViolations` | client_new/services/ticket_ai_result_schema_service.py:54-96 | afterwards the schema check reports no extra root field and no evidence element |
| `ResultSanitizer.ConformingIsLeftAlone` | client_new/services/ticket_ai_result_schema_service.py:54-79 | a conforming payload is left alone, without actions, whenever the evidence property has a type |
| `ResultSanitizer.ConformingIsLeftAloneExactlyWhen` | client_new/services/ticket_ai_result_schema_service.py:54-79 | a conforming payload is left alone if and only if its evidence list holds only strings where strings are wanted |
| `ResultSanitizer.UntypedEvidenceIsRewritten` | client_new/services/ticket_ai_result_schema_service.py:54-79 | a concrete conforming payload that is rewritten, because its evidence property has no type |
| `ResultSanitizer.SanitizedConformsExactlyWhen` | client_new/services/ticket_ai_result_schema_service.py:54-96 | the sanitised payload conforms if and only if the payload was repairable: everything but extra root fields and evidence elements was right |
| `TaskLease.TaskLock.Enter` | client_new/services/ticket_ai_analysis_service.py:3376-3405 | the stale check, release and exclusive creation as one step |
| `TaskLease.TakeableExactlyWhen` | client_new/services/ticket_ai_analysis_service.py:2310-2334 | with nobody alive a request gets in if and only if there is no file, no lock in it, a last heartbeat more than 60 s ago, or without one a start more than twice the timeout ago (at least 60 s, 3600 s by default) or none; the new lock starts and beats now |
| `TaskLease.FailedEntry` | client_new/services/ticket_ai_analysis_service.py:2228-2246 | a stale lock that cannot be unlinked or a file that is not created keeps the request out; a file created but not written lets the next one in |
| `TaskLease.HeartbeatEffect` | client_new/services/ticket_ai_analysis_service.py:2248-2264 | a heartbeat sets the lock's heartbeat to now and keeps its start; it creates no file and leaves garbled text |
| `TaskLease.NextKeepsInv` | client_new/services/ticket_ai_analysis_service.py:2228-2334 | a live worker is alone and its lock carries a heartbeat at least as recent as its own last one, after every event |
| `TaskLease.NeverTwoWorkers` | client_new/services/ticket_ai_analysis_service.py:3376-3421 | over every interleaving with heartbeat gaps of at most 60 s, never two workers for one workspace |
| `TaskLease.RequestNeverDisturbsHolder` | client_new/services/ticket_ai_analysis_service.py:3376-3405 | a request made while a worker lives changes nothing |
| `TaskLease.TakeableExactlyWhenQuiet` | client_new/services/ticket_ai_analysis_service.py:2310-2334 | after its holder died, whatever requests came and were refused while it was fresh, the lock can be taken if and only if more than 60 s have passed since its last heartbeat |
| `TaskLease.SecondWorkerEntersExactlyWhen` | client_new/services/ticket_ai_analysis_service.py:3376-3405 | a second worker gets in beside a live one if and only if the last heartbeat is more than 60 s old |
| `TaskLease.ReleaseRemovesAnothersLock` | client_new/services/ticket_ai_analysis_service.py:4001-4008 | of any two workers the first to finish removes the other's lock, and any third gets in |
| `TaskLease.MissedHeartbeatsBreakExclusion` | client_new/services/ticket_ai_analysis_service.py:4001-4008 | a concrete run with a 61 s gap |
| `LogDigest.WindowedMeaning` | client_new/services/ticket_ai_analysis_service.py:2753-2775 | the specified lines are strictly increasing and are exactly those at most three lines from a keyword line before the stop |
| `LogDigest.BlocksOfFile` | client_new/services/ticket_ai_analysis_service.py:2750-2779 | the blocks of a file concatenate to the union of the windows up to the line where it stopped; at most 80 blocks of 1 to 7 lines; below the cap it stops at the end of the file with every keyword line in |
| `LogDigest.FreshLines` | client_new/services/ticket_ai_analysis_service.py:2757-2769 | the inner loop emits exactly the window's lines that no earlier window has |
| `LogDigest.EveryKeywordLineIsIn` | client_new/services/ticket_ai_analysis_service.py:2753-2779 | below the cap the emitted blocks hold every keyword line with its neighbours, in order, each line once |
| `LogDigest.BuildLogDigest` | client_new/services/ticket_ai_analysis_service.py:2741-2798 | matched lines are the sum over the files, at most 560 per matched file; only a file with matches that fills the text ends the loop |
| `Viewport.RoundedIsNearest` | client_new/services/desktop_test_service.py:215-227 | rounding gives a nearest integer, the even one on a tie |
| `Viewport.RoundTripError` | client_new/services/desktop_test_service.py:215-227 | for all sizes the logical to actual to logical error e has 2 * width * |e| <= logical width + width |
| `Viewport.RoundTripIsIdentityExactlyWhen` | client_new/services/desktop_test_service.py:215-227 | the round trip is the identity on every logical pixel if and only if the width is at least the logical width |
| `Viewport.ActualMonotone` | client_new/services/desktop_test_service.py:222-227 | the mapping keeps the order of pixels |
| `Viewport.ActualIsNearest` | client_new/services/desktop_test_service.py:222-227 | a logical pixel goes to a nearest actual one, a coordinate outside the range where the nearest pixel of the range goes |
| `Viewport.LogicalIsNearest` | client_new/services/desktop_test_service.py:215-220 | an actual pixel goes to a nearest logical one of the range, what lies outside to the near edge |
| `Viewport.LogicalPointsLandInsideExactlyWhen` | client_new/services/desktop_test_service.py:212-227 | every logical point lands inside the viewport if and only if, on both sides, twice the actual size exceeds the logical one, or equals it with an odd actual size |
| `Viewport.PointsRoundTripExactlyWhen` | client_new/services/desktop_test_service.py:215-227 | every logical point is restored if and only if neither side is scaled down |
| `Viewport.ResolveViewport` | client_new/services/desktop_test_service.py:259-364 | the reassigned locals give the specified resolution; what that is, from the settings on, is stated by RegionResolves, RegionThatFits and WindowThatFits |
| `Viewport.RegionResolves` | client_new/services/desktop_test_service.py:259-364 | screen and manual mode from the settings map: left, top, width and height are the fit of the number under their own key, in camel case or else in snake case, 0 and the screen by default; in screen mode a logical size stands in for a missing size; the logical sizes and their defaults |
| `Viewport.RegionThatFits` | client_new/services/desktop_test_service.py:259-364 | a region that fits the screen is the viewport, each number from its own key, with the logical sizes asked for or its own |
| `Viewport.WindowThatFits` | client_new/services/desktop_test_service.py:315-364 | active-window mode: refused without a window; a window that fits is the viewport, and the settings decide only its logical sizes |
| `Viewport.ViewportLiesOnScreen` | client_new/services/desktop_test_service.py:346-355 | whatever was requested, the viewport has positive size, and lies on the screen if and only if the screen has positive size |
| `Viewport.FitAxisMeaning` | client_new/services/desktop_test_service.py:346-353 | what fitting does in every case: a request that fits is kept, one that starts on the screen is cut only at the far edge, one that starts before it is moved; fitting again changes nothing |
| `Viewport.LogicalOnlyCropsToIt` | client_new/services/desktop_test_service.py:259-281 | with only logical sizes set that fit the screen, screen mode uses the very same pixels on both axes and in both directions |
| `Viewport.OversizedRequestLeaks` | client_new/services/desktop_test_service.py:354-355 | a concrete request wider than the screen whose last logical pixel falls outside |
| `ClickRecorder.DesktopRecorderSession.HandleClickCandidate` | client_new/services/desktop_test_service.py:1601-1634 | one click candidate is exactly the recogniser's step |
| `ClickRecorder.DesktopRecorderSession.EmitPendingClickIfStillValid` | client_new/services/desktop_test_service.py:1581-1586 | a timer that fires is exactly the recogniser's timer step |
| `ClickRecorder.DesktopRecorderSession.HandleInput` | client_new/services/desktop_test_service.py:1636-1724 | drag, scroll and key flush text and click before their own step |
| `ClickRecorder.DesktopRecorderSession.OnTextKey` | client_new/services/desktop_test_service.py:1794-1818 | a letter or a backspace edits the buffer, whatever the handlers are doing |
| `ClickRecorder.KeysInTheBuffer` | client_new/services/desktop_test_service.py:1794-1818 | a letter goes to the end of the buffer and a backspace takes it back; a closed session takes no key |
| `ClickRecorder.NextKeepsInv` | client_new/services/desktop_test_service.py:1521-1724 | every step, keys inside flushes included, keeps: recorded clicks explain the accepted ones in order, the waiting click has its timer and is the last accepted |
| `ClickRecorder.RunKeepsInv` | client_new/services/desktop_test_service.py:1521-1724 | over every interleaving, click counts plus the waiting click equal the clicks accepted, each double click accounting for two consecutive left ones within both limits, at the place of the second |
| `ClickRecorder.FlushKeepsTextExactlyWhen` | client_new/services/desktop_test_service.py:1521-1531 | a flush keeps the typed text if and only if there was none or the keys between its join and its clear left the buffer as it was |
| `ClickRecorder.LettersSlippedInAreLost` | client_new/services/desktop_test_service.py:1521-1531 | letters typed between join and clear are lost, every one |
| `ClickRecorder.TextSurvivesExactlyWhen` | client_new/services/desktop_test_service.py:1521-1724 | over every interleaving, recorded text plus buffer is the text typed all along if and only if every flush was harmless |
| `ClickRecorder.OldTimerFlushesNothing` | client_new/services/desktop_test_service.py:1581-1586 | a timer whose click was consumed flushes neither it nor a newer one |
| `ClickRecorder.OwnTimerRecordsTheClick` | client_new/services/desktop_test_service.py:1570-1586 | a waiting click always has a timer, and that timer records it once, where it was made |
| `ClickRecorder.PairExactlyWhen` | client_new/services/desktop_test_service.py:1601-1634 | two left clicks in a row become a double click if and only if they are within the limits and the first did not complete one |
| `ClickRecorder.LimitsAre` | client_new/services/desktop_test_service.py:1170-1175 | the limits by the options: at least 2 pixels and 120 ms, 12 and 320 if none can be read |
| `ClickRecorder.OtherButtonIsRecordedAtOnce` | client_new/services/desktop_test_service.py:1601-1614 | a click with another button is recorded at once after the waiting text and click, a right click as such |
| `ClickRecorder.InputFollowsWhatWaited` | client_new/services/desktop_test_service.py:1636-1724 | a drag, scroll or key is recorded once, after the waiting text and the waiting click |
| `ClickRecorder.ClosedRecordsNothing` | client_new/services/desktop_test_service.py:1112-1122 | after close nothing is recorded |
| `ClickRecorder.CloseDropsWhatWaits` | client_new/services/desktop_test_service.py:1829-1834 | a close drops the waiting click and the text in the buffer unrecorded, whatever comes later |
| `ClickRecorder.DragExactlyWhen` | client_new/services/desktop_test_service.py:1726-1785 | a gesture is a drag if and only if some move went as far as the threshold; it ends at the last move, not at the release position |
| `MessageFrames.ClampMessageSize` | client_new/server/agent_server.py:100-105 | the size used is at least 1024 |
| `MessageFrames.Split` | client_new/server/agent_server.py:108-112 | the slicing loop gives the specified chunks |
| `MessageFrames.SendChunkedMessage` | client_new/server/agent_server.py:657-675 | the sending loop emits the specified frames |
| `MessageFrames.FramesOfPayload` | client_new/server/agent_server.py:657-675 | frames are at most max(1024, size) long, exactly the last is finished, together they carry the payload |
| `MessageFrames.FrameAt` | client_new/server/agent_server.py:657-675 | each frame by the payload: its number, how many there are, the characters from its number times the limit on, the last one the rest and alone finished; the limit is the size asked for, 5120 by default, at least 1024 |
| `MessageFrames.ChunkReceiver.HandleMessageChunk` | client_new/server/agent_server.py:478-484 | one frame is exactly the receiver's step |
| `MessageFrames.OthersDoNotMatter` | client_new/server/agent_server.py:478-484 | frames of other requests make no difference to a request |
| `MessageFrames.EveryInterleavingReassembles` | client_new/server/agent_server.py:478-484 | over every interleaving of any streams with distinct ids, each payload is dispatched exactly once, unchanged and in order, and the buffer ends empty |
| `PendingDelivery.PendingResponses.EnqueuePendingResponse` | client_new/server/agent_server.py:603-620 | enqueue is exactly the specified step |
| `PendingDelivery.PendingResponses.FlushPendingResponses` | client_new/server/agent_server.py:622-655 | flush is exactly the specified step, retries counted, delivered entries popped |
| `PendingDelivery.FlushFate` | client_new/server/agent_server.py:622-655 | what a flush makes of each entry: beyond the first ten nothing; of these, a failed one stays with one more retry, a sent one leaves as delivered, one without payload leaves unsent |
| `PendingDelivery.FlushKeepsOrder` | client_new/server/agent_server.py:622-655 | of two entries that a flush leaves, the one in front stays in front |
| `PendingDelivery.HistoryKeepsInv` | client_new/server/agent_server.py:587-655 | over every history, every accepted response is in exactly one of pending, delivered, skipped as empty, dropped; at most 200 pending; ids distinct |
| `PendingDelivery.EnqueueEffect` | client_new/server/agent_server.py:587-620 | the first payload of a pending id wins; only a full list drops, exactly one entry, none queued later than any that stays |
| `PendingDelivery.EnqueueKeepsOrder` | client_new/server/agent_server.py:587-620 | with queue times that never go back, insertion order is kept and overflow drops the head |
| `PendingDelivery.DrainsInOrder` | client_new/server/agent_server.py:622-655 | after k successful flushes the first 10k entries have been sent in insertion order and nothing else is gone |
| `PendingDelivery.DrainedExactlyAfter` | client_new/server/agent_server.py:622-655 | n entries are drained after k successful flushes if and only if k >= ceil(n / 10) |
| `PendingDelivery.UndisturbedFlush` | client_new/server/agent_server.py:622-655 | with nothing enqueued while it sends, a flush is the flush in one step |
| `PendingDelivery.OvertakingSurvivesExactlyWhen` | client_new/server/agent_server.py:603-655 | a response enqueued while a flush is sending is pending afterwards if and only if the flush had read an empty list |
| `LocatorLearning.LocatorHints.RecordLocatorLearningResult` | client_new/services/web_test_service.py:4491-4535 | the loop over the attempts gives the specified hint of that key and leaves other keys alone |
| `LocatorLearning.DisabledExactlyWhen` | client_new/services/web_test_service.py:4491-4535 | over every history a locator is disabled if and only if it never won and failed at least three times; the last winner is preferred and never disabled |
| `LocatorLearning.ResultEffect` | client_new/services/web_test_service.py:4508-4535 | one result: the winner gains a win and forgets one failure, every other locator gains its failures |
| `LocatorLearning.FailuresCounted` | client_new/services/web_test_service.py:4517-4525 | what counts as a failure: an attempt made with another locator than the winner that ended in an error or did not find exactly one element |
| `LocatorLearning.RankedAre` | client_new/services/web_test_service.py:4617-4662 | the candidates tried are exactly those not disabled, or all when none is left, in rank order |
| `LocatorLearning.TriedExactlyWhen` | client_new/services/web_test_service.py:4634-4651 | a candidate is tried if and only if it is not barred, by learning or by what was saved, or all are; the last winner is never barred |
| `LocatorLearning.RankOrderMeans` | client_new/services/web_test_service.py:4617-4662 | of two candidates in order: the learned preferred one before those saved as preferred, these before the rest; then the larger of learned and saved failure counts, the priority, the type in the order test_id, id, name, role, label, placeholder, text, css, xpath, any other, and the position |
| `LocatorLearning.LastWinnerIsRankedFirst` | client_new/services/web_test_service.py:4617-4662 | the last winner, if still present, is tried first |
| `LocatorLearning.FailedLocatorIsSkipped` | client_new/services/web_test_service.py:4634-4654 | a locator that only failed three times is not tried while another is left, even one saved as preferred |
| `RunSessions.WebTestService.PopPrepared` | client_new/services/web_test_service.py:3321-3331 | taking a prepared session is exactly the pick step |
| `RunSessions.WebTestService.FinishAndDecide` | client_new/services/web_test_service.py:3600-3610 | the finally block pops the active entry of the run and decides by the session's own flag |
| `RunSessions.WebTestService.StopRunCase` | client_new/services/web_test_service.py:3653-3655 | stop takes both entries in one step; it has something to release if and only if there was an entry |
| `RunSessions.WebTestService.ContinueStop` | client_new/services/web_test_service.py:3657-3682 | each await closes one session it took; the answer comes after the last and says released if and only if there was one |
| `RunSessions.NextKeepsInv` | client_new/services/web_test_service.py:3321-3669 | every step of prepare, continue, stop and cancel keeps the registries and every session consistent |
| `RunSessions.RunKeepsInv` | client_new/services/web_test_service.py:3321-3669 | the invariant, and what each stop has closed so far, hold over every interleaving |
| `RunSessions.ReleasedIsNeverRetained` | client_new/services/web_test_service.py:3600-3669 | once a stop has taken a session it is never retained, and once closed it stays closed |
| `RunSessions.AnsweredMeansClosedForGood` | client_new/services/web_test_service.py:3653-3682 | once a stop or cancel has answered, every session it took is of that run, closed and never retained, for good |
| `RunSessions.EndedIsClosedOrRetained` | client_new/services/web_test_service.py:3600-3626 | a continue that ended left its browser closed or retained, never both, and itself in no registry |
| `RunSessions.StopTakesExactly` | client_new/services/web_test_service.py:3653-3669 | a stop takes the waiting session, and a running one if and only if nothing done for another session took its place; afterwards neither registry holds the run |
| `RunSessions.CancelTakesExactly` | client_new/services/web_test_service.py:3701-3716 | a cancel takes the waiting session, and only if none waits the running one, if not displaced; both entries are gone, so a running session beside a waiting one goes on unseen |
| `RunSessions.TakenByStopAndCancel` | client_new/services/web_test_service.py:3653-3716 | the sessions a stop and a cancel undertake to close; no other run is touched |
| `RunSessions.PreparedIsPickedAndRuns` | client_new/services/web_test_service.py:3249-3381 | a prepared session waits under its run id, is picked by the next continue and takes the active entry |
| `RunSessions.FinishedExactly` | client_new/services/web_test_service.py:3600-3626 | a continue not disturbed at its end retains its browser if and only if no stop came and the case does not close it, and closes it otherwise |
| `RunSessions.OnlyOverlapDisplaces` | client_new/services/web_test_service.py:3600-3602 | a running session is displaced only by another session of the same run id |
| `RunSessions.OverlapHappens` | client_new/services/web_test_service.py:3380-3381 | two sessions of one run id can run at once |
| `RunSessions.OverlapEscapesStop` | client_new/services/web_test_service.py:3600-3669 | a concrete overlap: the stop answers released, the first session is retained all the same |
| `PosSwitch.PosConfig.ChangePosLocalEnv` | client_new/do/config.py:344-455 | the loops and the status field give the specified switch; a refusal, unreadable parameters included, changes nothing |
| `PosSwitch.EnvironAfterSwitch` | client_new/do/config.py:427-437 | pos.ini names the test environment if and only if the key mentions "test" in any case, the acceptance one if it mentions "uat" and not "test", production otherwise; the backup counts as finished; without a key nothing changes |
| `PosSwitch.BacksUpExactlyWhen` | client_new/do/config.py:404-411 | the files in place are saved if and only if the key has at least three parts and no restore is unfinished |
| `PosSwitch.MoveAllEffect` | client_new/do/config.py:369-400 | what every path holds after the loop over distinct names: contents and absences move, nothing else changes |
| `PosSwitch.SwitchEffect` | client_new/do/config.py:401-426 | where the content of every path comes from after a switch, with and without backup |
| `PosSwitch.ThereAndBackExactlyWhen` | client_new/do/config.py:359-426 | with any key computed in B, A's files, absences included, come back if and only if that key is not A's own or B's files equal A's |
| `PosSwitch.TripRestoresExactlyWhen` | client_new/do/config.py:344-455 | the whole trip from A to B and back restores A's files exactly if and only if, by the files there before the trip, B's parameters are absent, or readable and not giving A's key, or giving it while B's files equal A's; the environment of pos.ini with them if and only if A's whole key also stands for it |
| `PosSwitch.UnreadableParamsStrand` | client_new/do/config.py:362-367 | with unreadable parameters in B's backup every later switch, whatever its target, changes nothing, and A's files stay in A's backup |
| `PosSwitch.KeyInB` | client_new/do/config.py:359-367 | the key computed in B, from the files there before the trip |
| `PosSwitch.ThereAndBackTouchesNothingElse` | client_new/do/config.py:369-426 | backups of every other key and all other files are untouched |
| `PosSwitch.BackKeepsTheOtherFiles` | client_new/do/config.py:369-426 | B's files end in the backup of the key computed in B |
| `PosSwitch.BackRestoresTheKeyExactlyWhen` | client_new/do/config.py:428-437 | with A's files back, pos.ini names A's environment and the next key is A's if and only if A's whole key stands for that environment |
| `PosSwitch.VendorNamedTestChangesEnviron` | client_new/do/config.py:428-437 | a concrete production key that stands for the test environment |
| `PosSwitch.FirstVisitComesBack` | client_new/do/config.py:359-426 | a first visit to B always comes back: the key there is too short to overwrite anything |
| `PosSwitch.KnownParamsAreBackedUp` | client_new/do/config.py:362-404 | a key with known parameters always has more than two parts |
| `PosSwitch.UnsavedSwitchDiscards` | client_new/do/config.py:404-426 | a switch without backup leaves the files that were in place nowhere |
| `PosSwitch.SwitchToSelfKeepsLive` | client_new/do/config.py:401-426 | switching to the environment in place changes none of its files |
| `PosSwitch.StaleParamsLoseTheFiles` | client_new/do/config.py:362-426 | with A's parameters in B's backup, the way back loses what A had and B lacks |
| `PosSwitch.StaleParamsExample` | client_new/do/config.py:362-426 | a concrete such file system |
| `PosSwitch.MoveAllCounts` | client_new/do/config.py:369-400 | for any list: a name listed once is moved, one listed twice or more is lost, one not listed is untouched |
| `ConfigMerge.MergePartialDict` | client_new/server/remote_config_server.py:95-107 | the loop over the remote items gives the specified merge, which MergeAt and ValueArrives state by the two sides alone |
| `ConfigMerge.MergeAt` | client_new/server/remote_config_server.py:95-107 | the merged dictionary key by key, by the two values there: an absent or null remote value leaves the local one, two dictionaries give their merge, any other remote value arrives as it is |
| `ConfigMerge.ValueArrives` | client_new/server/remote_config_server.py:95-107 | at every path, whatever the local side has on the way: a remote value that is not null is what the merged configuration holds there, or is merged into a local dictionary if both are dictionaries |
| `ConfigMerge.MergeKeys` | client_new/server/remote_config_server.py:95-107 | no local key is lost and no key appears from nowhere |
| `ConfigMerge.MergeIsIdempotent` | client_new/server/remote_config_server.py:89-107 | merging with itself is the identity, and a second merge of the same payload changes nothing |
| `ConfigMerge.NullLeavesLocal` | client_new/server/remote_config_server.py:98-105 | at every path inside merged dictionaries a null or absent remote value leaves the local value, or its absence |
| `ConfigMerge.NullIsSkippedExactlyWhen` | client_new/server/remote_config_server.py:98-107 | a null of the remote side leaves the local value if and only if everything above it is merged dictionary into dictionary, or the local value was null; otherwise the null arrives |
| `ConfigMerge.NullSurvivesInNewDictionary` | client_new/server/remote_config_server.py:106-107 | a null inside a remote dictionary the local side lacks is copied |

## Left out

Hypotheses of the model:

- Every command of the file service is one step, because each holds the service's lock; a crash or a failing write in the middle of one is not modelled, a restart between commands is.
- Paths are case-sensitive and nothing else writes below the resource directory, so symbolic links and the checks against them are left out.
- The size, index and offset of a request, its Base64 data and its expiry arrive already converted, with the failing conversion as a separate case; the converting functions are parameters. An expiry parses to a time, fails to with one of the two exceptions cleanup expects, or with another one; where that other one is not an OverflowError, a query that gets past its cleanup would answer an internal error instead of an invalid expiry.
- FileAgent.AgentFileService: a transfer is a value in the service's dictionary rather than an object of its own; nothing but the service refers to it. The list of received pieces is a history that the program does not keep.
- The resource ids of the index are written sorted, as in the program; the order of the keys inside one entry, on which nothing read depends, is not modelled. `file_list` only lists what loading keeps, and a command of an unknown name is refused before anything else; neither is among the modelled commands.
- ResourceManifest.ValidateLocator: the test for a Windows drive in a locator is redundant with the comparison to the canonical locator and is not repeated.
- `repair_json_text` is not part of this model.
- TaskLease.NeverTwoWorkers: a heartbeat refresh is one step and no two clocks disagree; a torn write of the lock file is only modelled as its contents being unreadable.
- LogDigest.BuildLogDigest: choosing keywords, reading files, the truncation of a line at 1200 characters and the joining of the text are left out; whether the text has reached its limit is an input per file, and the files are those that are read.
- Viewport.RoundTripError: quotients are exact rationals; the program rounds the quotient of two integers to a float first, which makes no difference for sizes below 2^26.
- Viewport.ResolveViewport: the spelling of the mode, and moving or resizing the active window, are inputs; only the window found afterwards matters.
- ClickRecorder.RunKeepsInv: screenshots, annotations, the sender queue and the mapping of points to the viewport are left out. Text is recorded before a waiting click that came first, so only the order among clicks and the order among characters are stated, not the order between them. A key pressed while a handler waits anywhere but inside a text flush counts as pressed after it, since no handler looks at the text again. A backspace that finds the buffer emptied under it raises in the listener's thread and is not modelled.
- ClickRecorder.DesktopRecorderSession.HandleInput: one method stands for drag, scroll and key handlers, whose steps differ only in content; `handle_mouse_click`, which nothing calls, is left out.
- MessageFrames.EveryInterleavingReassembles: compression and the response to a dispatched payload are left out; payloads are opaque texts.
- PendingDelivery.HistoryKeepsInv: a flush is one step with respect to enqueue. The program awaits between reading and writing the list; what that does to a response enqueued in between is stated by itself, in OvertakingSurvivesExactlyWhen. Queue times are integers: the ISO texts of one clock sort the same way.
- PendingDelivery.PendingResponses.FlushPendingResponses: the loop over the batch is a method of its own, `AttemptBatch`; a list file that cannot be read or written is left out.
- LocatorLearning.RankedAre: resolving the locator in the page, the retry loop and the building of signatures and keys are left out; signatures are the stripped texts. The sorted list of disabled signatures is a set.
- RunSessions.NextKeepsInv: running the steps of a case, saving the context and the events sent are left out; closing is taken to succeed. A prepare may register at any time, because its check for an existing session and the registration are apart. `run_case` uses the same registries in the same way and is not modelled separately.
- PosSwitch.ThereAndBackExactlyWhen: names in the list are plain and distinct and no other program moves the files; an interrupted switch is represented only by the status it leaves. A folder is one content. Missing parent folders, which are created empty, are not represented.
- PosSwitch.PosConfig.ChangePosLocalEnv: pos.ini is only its `pos_env` value.
- ConfigMerge.MergePartialDict: validation by the configuration model after the merge is left out.
- Not modelled at all: the network, browser, screen and process layers, the in-page recorder, user interfaces, image comparison, and plain readers and writers of configuration.
