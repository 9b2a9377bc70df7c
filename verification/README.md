# What the Goblin companion promises, proved

The repository runs AI companions beside a Project Zomboid server: a Python service that thinks for
them, an SSH relay between two file queues, a Java helper inside the game server, and a few tools. This
project models the parts whose behaviour is decided by code rather than by the game, and proves what
they promise. Values are datatypes and functions; objects that the source updates in place are classes
whose methods are tied to those functions, so everything proved about the functions holds for the loops.

- **The file bridge** (`BridgeStore`, `BridgeConservation`, `BridgeIndex`, `RequestLedger`, `EventDelivery`,
  `EventConsumer`, `RelayPull`, `RelayPush`, `RelayPass`, `RelayContent`, `RelayModes`, `SshFileRelay`,
  `Protocol`). Messages are JSON files gated by markers. Every file effect and every remote call is one step
  that may be the last one before a crash; a remote call may fail, or take effect and still report failure; both
  processes may restart anywhere.
- **The companion's mind** (`Sentience`, `GoalHistory`, `GoalEffort`, `Companions`, `Episodes`, `Observe`,
  `ObservedEpisodes`, `Scheduler`, `ThinkService`). Goals, plans, one suspended goal, two strikes, cooldown
  skips; episode eviction; folding of overlapping telemetry windows; the thinking lanes.
- **The definition exchange** (`DefinitionTable`, `DefinitionExport`, `Json`, `DefinitionCheck`,
  `DefinitionAgreement`, `FishingDocument`, `DefinitionCodec`). Java snapshots a graph of script tables and
  prints JSON by hand; Python parses, checks and prints again, and the digests of the two texts must agree.
- **The mesh text** (`MeshNumbers`, `MeshTables`, `MeshBlocks`, `MeshFile`, `MeshGrammar`, `MeshRoundTrip`,
  `MeshReadBack`, `MeshRewrite`). Reading a written mesh gives the mesh back.
- **The map** (`MapPyramid`, `MapViewer`). What the exporter accepts, the tracker serves and the viewer
  asks for.
- **Smaller cores**: `Inventory`, `Squads`, `Chatter`, `Speech`. `Common` holds orders, listings and text
  notions shared by all.

`dafny verify dfyconfig.toml` checks the whole project.

## Where the code falls short, exactly

Each of these is stated with the condition under which the promise does hold.

- **A ledger file that cannot be read at a restart** counts as an empty ledger, and the message is handed out
  again (`EventConsumer.UnreadableLedgerRedelivers`). Any second delivery needs such a restart in between, or a
  ledger full of other ids at least as new (`EventDelivery.RedeliveryNeedsCrowding`); that bound is reached
  (`EventConsumer.FullLedgerRedelivers`).
- **A reason file overwrites a message** whose stem is that of an archived item with `.reason` behind it. A
  completed move touches no other file, and loses a message exactly if one has that name
  (`BridgeConservation.ReasonOverwrites`); a history keeps all its messages exactly if no move meets such a name
  (`BridgeConservation.ConservedIff`).
- **A message whose ledger entry cannot be written** is put aside as a dead letter after the ledger has taken
  its id in, so it is never handed out, however often it is pulled again
  (`EventConsumer.FailedLedgerWriteLoses`). A message that the ledger takes in is handed out exactly if that
  write succeeds, and otherwise not at all, unless a crowd or a restart makes the ledger forget it
  (`EventDelivery.HandedOutIff`).
- **The ready index** goes wrong where an operation is cut off: a publish of a command after its marker, and a
  move of one after its first rename, each before the index is written. One operation keeps it exact exactly if
  it is not cut off there (`BridgeIndex.OpIndexIff`); over a whole history the index is wrong about exactly the
  stems to which this happened an odd number of times since it was last written, which reopening does too
  (`BridgeIndex.WrongIsDrift`, `BridgeIndex.IndexExactIff`). Its order is that of the marker file names, which
  differs from that of the stems exactly where one stem continues the other by a dash, or by a dot and something
  below `ready` (`BridgeIndex.IndexOrderIff`).
- **A command under a stem that is remote already with other content** is archived without being sent
  (`RelayContent.ReusedStemIsLost` reaches such a loss from a fresh start). In a pass with working calls what is
  delivered is the command itself exactly if nothing else was remote under its stem before
  (`RelayPass.HealthyPass`); in any run the only other way is that a look at the remote file failed and it was
  sent all the same (`RelayContent.DeliveredIff`). The remote index is never pruned, so a relay delivers at most
  1024 different stems in its life (`RelayPush.AtMost1024Stems`); which commands a pass still archives can be
  told before it (`RelayPass.AdmittedIff`).
- **A remote file whose mode change failed** stays unreadable for the game: the next pass finds the file, skips
  the mode change, and indexes and archives the command (`RelayModes.ArrivesClosed`). A pass with working calls
  leaves a file readable exactly if it was absent or readable before (`RelayModes.PassOpens`); in any run a file
  is unreadable exactly if its mode change was skipped the last time it was put in place
  (`RelayModes.LeftReadableIff`).
- **A telemetry window that ends before what was already folded** is taken for a new log and recorded again;
  `record` is called exactly once for each event if and only if no window goes back (`Observe.ExactlyOnceIff`),
  and then one episode is stored for each event that has a text (`ObservedEpisodes.StoredOnce`). A restart of
  the service forgets the position and records the next window again (`Observe.RestartRecordsAgain`).
- **The 20 s between reflections** hold within a process; the claim of the slot is not saved, so a restart can
  forget it (`Scheduler.RestartForgetsGap`). They hold across a restart exactly if each submission is remembered by
  the self that was loaded, or is 20 s ago when the new process starts (`Scheduler.GapAcrossRestart`).
- **A table keyed by both `0.0` and `-0.0`** is exported by Java and refused by Python, whose floats are equal;
  every other snapshot passes (`DefinitionAgreement.ExportAgrees`; `DefinitionCodec.ZeroesRefused` has an
  exported snapshot that is refused).
- **A tile named with a leading zero** is counted by the exporter but never served, because the tracker asks for
  the plain decimal name (`MapPyramid.ServedIffCanonical`, `MapPyramid.LeadingZeroHidden`).
- **A squad of maximal size 1 chosen from a list of ids** gets a second member if anyone can join, because the
  size is looked at after a member has joined (`Squads.SizeOneOverflows`).
- **A save that answers "unchanged"** compares with the digest of what this body saved last, not with the file.
  It is true exactly if the last write to the file was that save, or if whatever wrote the file otherwise
  (another body of the identity, or a write that took effect and failed) left items with the same digest
  (`Inventory.UnchangedIff`). It is wrong for a second identity of a body (`Inventory.SecondIdentityUnsaved`),
  for a second body of an identity (`Inventory.SecondBodyUnsaved`), and after a write that took effect but
  failed (`Inventory.FailedReportUnsaved`).
- **A spoken line without a blank in its first 137 bytes** becomes three dots if it is too long and no sentence
  ends in time; `Speech.OnlyDots` says exactly when nothing else is left of a line.

Where a comment and the code differ, the code is modelled: the comment on episode eviction speaks of the 100 most
important older memories (goblin_zomboid/mind.py:90-91), the query takes the top 100 of all, so that a companion
may keep fewer than 500; `EventConsumer` is documented as reading events exactly once per id
(goblin_zomboid/ipc.py:425), which holds as at most once, and as not at all, under the conditions above.

## Model

| member | source | states |
|---|---|---|
| RequestLedger.TrimKeepsNewest | goblin_zomboid/ipc.py:314-320 | trimming keeps exactly the allowed number of distinct entries, and nothing dropped is newer than anything kept, whatever the tie order |
| RequestLedger.ReloadKeepsItems | goblin_zomboid/ipc.py:296-312 | a ledger within its bound comes back from its own file with exactly the same items, in key order |
| RequestLedger.DistinctPermutes | goblin_zomboid/ipc.py:325-337 | reordering by timestamp or key never makes an id occur twice |
| RequestLedger.RestoreFilters | goblin_zomboid/ipc.py:305-311 | of a dictionary exactly the items with a valid id are taken over, in their order |
| RequestLedger.LoadedIs | goblin_zomboid/ipc.py:296-320 | a new process knows nothing unless the file is a dictionary, and then the newest of its valid items, within the bound |
| RequestLedger.FileAfterIs | goblin_zomboid/ipc.py:330-336 | the file is what the ledger holds, in key order, exactly if the write took effect |
| RequestLedger.AssignKnown | goblin_zomboid/ipc.py:328-328 | assigning to a known key changes its value and nothing else |
| RequestLedger.KeyOrderSorted | goblin_zomboid/ipc.py:331-335 | the file is dumped with its keys in order |
| RequestLedger.NewestFirstStable | goblin_zomboid/ipc.py:317-319 | sorting by timestamp leaves items of the same time in dictionary order |
| RequestLedger.Ledger.Load | goblin_zomboid/ipc.py:296-312 | missing or unreadable files leave the ledger empty; otherwise the valid items, later ones winning, trimmed |
| RequestLedger.Ledger.TrimEntries | goblin_zomboid/ipc.py:314-320 | the entries become the newest ones within the bound |
| RequestLedger.Ledger.Remember | goblin_zomboid/ipc.py:325-337 | an invalid id changes nothing; otherwise memory takes the id in even if the write fails, and the file is the sorted dump exactly if the write took effect |
| EventDelivery.RememberedFacts | goblin_zomboid/ipc.py:325-337 | remembering a new id keeps the ledger sound, and whatever it pushes out is older than a full ledger of other ids |
| Protocol.ValidIdIs | goblin_zomboid/protocol.py:16-16 | letters and digits are ids, ids joined by a separator are ids up to 128 characters, and nothing else is in one |
| EventDelivery.Arrives | goblin_zomboid/relay.py:418-427 | whatever the game writes and then marks arrives complete, unless the file is there already, and nothing else changes |
| EventDelivery.AcceptableIs | goblin_zomboid/ipc.py:453-462 | a message is acceptable exactly if it is neither stale nor more than a minute ahead, with a valid id and a type this consumer takes |
| EventDelivery.ItemOutcome | goblin_zomboid/ipc.py:449-475 | for every item and every fault: an incomplete one is left alone; one that is welcome, new and can be remembered is handed out and stays; every other one leaves the queue as far as its files can be moved, as a duplicate or as a dead letter, with no other item touched, and the ledger too unless the write is what failed |
| EventDelivery.FinalizeOutcome | goblin_zomboid/ipc.py:478-479 | finalizing takes exactly this item out of the queue, as far as its files can be moved |
| EventDelivery.PollLedger | goblin_zomboid/ipc.py:440-476 | a poll of one item either leaves memory and file alone or remembers one new acceptable id |
| EventDelivery.RunKeepsGood | goblin_zomboid/ipc.py:280-337 | in every run of pulls, polls, finalizes and restarts at any step the ledger and its file stay bounded, distinct and honest |
| EventDelivery.RedeliveryNeedsCrowding | goblin_zomboid/ipc.py:440-476 | in every run an id is handed out again only after the ledger was full of max_entries other ids, each with a timestamp at least as large, or after a restart that could not read the ledger file |
| EventDelivery.AtMostOnce | goblin_zomboid/ipc.py:440-476 | with a clock that never goes back and at most max_entries ids in any window of max_age + 60 s, no message is handed out twice, however often it is pulled again, unless a restart in between cannot read the ledger file |
| EventDelivery.CrowdFillsWindow | goblin_zomboid/protocol.py:95-103 | a second fresh delivery after such a crowd puts more than max_entries ids into one window of max_age + 60 s |
| EventDelivery.CrowdCounts | goblin_zomboid/protocol.py:98-103 | the counting step behind it: the crowd's ids and the message's own id all lie in that window |
| EventDelivery.HandedOutIff | goblin_zomboid/ipc.py:463-475 | in every run, a message that the ledger takes in is handed out in that step exactly if the ledger can be written, and never later, as long as no crowd and no restart makes the ledger forget it |
| EventConsumer.PollRefinesRun | goblin_zomboid/ipc.py:440-476 | a whole poll is a run of single-item steps that hands out exactly what it returns, never more than the limit |
| EventConsumer.PollClears | goblin_zomboid/ipc.py:449-475 | with working moves a poll that stays below its limit leaves no listed item behind except those it hands out; items that are not listed are untouched |
| EventConsumer.PollTakesFirst | goblin_zomboid/ipc.py:449-476 | the first listed item that is welcome, new and can be remembered is handed out first |
| EventConsumer.PulledAgain | goblin_zomboid/relay.py:418-427 | once the local copy is archived, the next pull makes the same message ready again |
| EventConsumer.UnreadableLedgerRedelivers | goblin_zomboid/ipc.py:296-304 | a restart that cannot read the ledger file hands the same message out twice, whatever the capacity |
| EventConsumer.FailedLedgerWriteLoses | goblin_zomboid/ipc.py:466-474 | from an empty service: a failed ledger write, and then any number of pulls and polls with nothing failing, hand nothing out |
| EventConsumer.FillLedger | goblin_zomboid/ipc.py:325-337 | up to capacity the ledger lists exactly the delivered messages in order |
| EventConsumer.FullLedgerRedelivers | goblin_zomboid/ipc.py:314-320 | the bound is reached: max_entries newer fresh ids push the first one out, and it is handed out again |
| EventConsumer.OldestDropped | goblin_zomboid/ipc.py:314-320 | trimming one entry over capacity drops the strictly oldest one |
| EventConsumer.Consumer.MoveItem | goblin_zomboid/ipc.py:218-231 | JSON first, then the marker; either rename may be the last |
| EventConsumer.Consumer.ConsumeItem | goblin_zomboid/ipc.py:450-475 | one item is skipped, dead-lettered, archived as a duplicate or handed out, with ledger and file as the protocol says |
| EventConsumer.Consumer.PollEvents | goblin_zomboid/ipc.py:440-476 | polling the listing in order up to the limit gives the state and the messages of the single steps; with the empty prefix it is the polling of commands (lines 373-404) |
| EventConsumer.Consumer.FinalizeEvent | goblin_zomboid/ipc.py:478-479 | finalizing moves the item and leaves the ledger alone |
| RelayPull.PullIsRun | goblin_zomboid/relay.py:379-435 | whatever the game writes meanwhile and however copies end, pulling events is a run of the delivery protocol that hands nothing out and leaves the ledger alone |
| RelayPull.TakenIs | goblin_zomboid/relay.py:304-313 | the names taken are the first usable ones of the listing, up to the limit |
| RelayPull.NamesAre | goblin_zomboid/relay.py:290-314 | the result is exactly these, sorted by file name, each once; nothing if the call failed |
| RelayPull.PullMarkedIs | goblin_zomboid/relay.py:420-426 | one marked item: its JSON is there afterwards if it was or is copied, its marker if it was or is copied behind the JSON, and it is counted exactly if both are there |
| RelayPull.PullUnmarkedIs | goblin_zomboid/relay.py:389-415 | one file without a marker gets one exactly if it is new, there or copied, and an event; only a new marker is counted |
| RelayPull.AllMarkedAre | goblin_zomboid/relay.py:418-427 | in the loop every stem fares as if it were alone, and the count is that of the complete ones |
| RelayPull.AllUnmarkedAre | goblin_zomboid/relay.py:389-416 | likewise in the loop over files without markers; the count is that of the new markers |
| RelayPull.MarkedOnlyAdds | goblin_zomboid/relay.py:418-427 | pulling marked items never replaces or removes a local file, and every new marker stands beside its JSON |
| RelayPull.UnmarkedOnlyAdds | goblin_zomboid/relay.py:379-416 | the same for the JSON fallback; what it remembers as gated is a ready event |
| RelayPull.GatedAreEvents | goblin_zomboid/relay.py:399-416 | a marker is made locally only beside a file that decodes to an event |
| RelayPull.HealthyPull | goblin_zomboid/relay.py:418-427 | when every copy works all listed items are ready with their content, and all are counted |
| RelayPull.Puller.PullFile | goblin_zomboid/relay.py:316-342 | true exactly if the file is there afterwards; an existing one is left as it is |
| RelayPull.Puller.RemoteNames | goblin_zomboid/relay.py:290-314 | the first 256 safe names of the listing that are no temporary files, sorted, each once; none if the call fails |
| RelayPull.Puller.PullReadyChannel | goblin_zomboid/relay.py:418-427 | JSON before marker for each name, counting the complete ones |
| RelayPull.Puller.FallbackOne | goblin_zomboid/relay.py:393-416 | one JSON file without a marker: gated once, after it decodes, and counted only if the marker is new |
| RelayPull.Puller.PullJsonFallback | goblin_zomboid/relay.py:379-416 | the loop over such files, with its count |
| RelayPull.Puller.PullEvents | goblin_zomboid/relay.py:429-435 | both loops one after the other, with the sum of their counts |
| BridgeStore.EffectConserves | goblin_zomboid/ipc.py:129-154 | no safe file effect loses, duplicates or overwrites a message |
| BridgeStore.PublishDone | goblin_zomboid/ipc.py:129-154 | a publish writes its JSON and marker and no other file, apart from the index it makes exact; it is refused exactly for an unsafe stem or a name in use |
| BridgeStore.TargetIs | goblin_zomboid/ipc.py:221-227 | a moved item keeps its name if that is free in the destination, and gets the suffix otherwise |
| BridgeStore.MoveDone | goblin_zomboid/ipc.py:218-244 | a move takes both files out of their channel and puts the same contents under a name that was free, with a reason beside them; no other file changes, apart from the index it makes exact |
| BridgeStore.FinalizedIff | goblin_zomboid/ipc.py:406-421 | finalizing a command of the queue succeeds exactly if both answers have free names and nothing cuts it off, and then both answers are sent, the command itself has left the queue for a free name in the archive, and the index is exact |
| BridgeStore.OpIsSafe | goblin_zomboid/ipc.py:129-154 | the checks of publish and move make every effect they are about to do safe, for stems not ending in .reason |
| BridgeStore.DoConserves | goblin_zomboid/ipc.py:218-244 | one operation cut off after any number of effects keeps every message in one place |
| BridgeStore.Conservation | goblin_zomboid/ipc.py:129-154 | in every history of operations, each cut off anywhere, every published message is in exactly one file and nothing else counts as one |
| BridgeConservation.OpExact | goblin_zomboid/ipc.py:129-154 | for stems of every kind, one operation cut off anywhere adds what it published and loses at most the message under the name of its reason file |
| BridgeConservation.ConservedIff | goblin_zomboid/ipc.py:218-244 | in every history, each operation cut off anywhere and with any valid stems, all messages ever written are there, each in one file, exactly if no move got as far as a reason file whose name a message had |
| BridgeConservation.ReasonOverwrites | goblin_zomboid/ipc.py:222-242 | the renames and the reason file of a move leave every other file unchanged, and lose a message exactly if one has the name of the reason file |
| BridgeConservation.PlainLosesNothing | goblin_zomboid/ipc.py:218-244 | where no stem ends in .reason, the exact condition for losing nothing is met by every history |
| BridgeStore.ReindexExact | goblin_zomboid/ipc.py:107-121 | writing the index makes it the sorted listing of command stems that have both files |
| BridgeStore.CompletedOpIndex | goblin_zomboid/ipc.py:107-154 | after a completed publish or move of commands, on reopening, and after anything else if it was so before, the index is exact |
| BridgeStore.ElsewhereKeepsIndex | goblin_zomboid/ipc.py:218-244 | completed operations on other channels leave an exact index exact |
| BridgeStore.InterruptedMoveStale | goblin_zomboid/ipc.py:230-244 | a command move to either destination that is cut off anywhere before it writes the index leaves a stale index, which reopening repairs |
| BridgeStore.IndexOrderIsByFileName | goblin_zomboid/ipc.py:110-115 | the index order is that of file names: a-b comes before a |
| BridgeIndex.OpIndex | goblin_zomboid/ipc.py:107-154 | one operation on any channel, cut off anywhere: writing the index clears what it is wrong about, a cut between the change of a command and the index flips that stem, and nothing else matters |
| BridgeIndex.OpIndexIff | goblin_zomboid/ipc.py:142-154 | an exact index stays exact exactly if the operation is no publish of a command cut off after the marker and no move of a complete command cut off after the first rename, before the index |
| BridgeIndex.WrongIsDrift | goblin_zomboid/ipc.py:107-154 | in every history of operations, each cut off anywhere, the stems the index is wrong about are exactly those cut off in this way an odd number of times since it was last written |
| BridgeIndex.IndexExactIff | goblin_zomboid/ipc.py:107-154 | a history that starts with an exact index ends with one exactly if there is no such stem |
| BridgeIndex.IndexOrderIff | goblin_zomboid/ipc.py:110-115 | two stems are named in their own order, except exactly where the second continues the first and the rest, with .ready, sorts before .ready; without a dot next that is a dash |
| BridgeStore.ReadyListing | goblin_zomboid/ipc.py:189-197 | the listing yields exactly the stems with both files, in file name order, each a complete message |
| BridgeStore.AnsweredBeforeArchived | goblin_zomboid/ipc.py:406-421 | however finalizing a command is cut off, it is still in the queue or its response and acknowledgement have been sent; a reported success means they have |
| BridgeStore.PublishTouches | goblin_zomboid/ipc.py:142-154 | publishing elsewhere than to commands changes no existing file, and with both effects done the message is sent |
| BridgeStore.Store.constructor | goblin_zomboid/ipc.py:81-100 | opening a store rewrites the index and nothing else |
| BridgeStore.Store.RefreshReadyIndex | goblin_zomboid/ipc.py:107-121 | where it completes, the index is exact |
| BridgeStore.Store.PublishItem | goblin_zomboid/ipc.py:129-154 | refused without effect for unsafe or existing stems; otherwise JSON, marker, index in that order, up to the interruption |
| BridgeStore.Store.MoveItem | goblin_zomboid/ipc.py:218-250 | JSON, marker, reason, index in that order, under a name that was free, up to the interruption |
| BridgeStore.Store.FinalizeCommand | goblin_zomboid/ipc.py:406-421 | response, acknowledgement, archiving, each only after the one before succeeded |
| BridgeStore.Store.IterReady | goblin_zomboid/ipc.py:189-197 | the complete items of a channel in file name order |
| RelayPush.RunKeepsInv | goblin_zomboid/relay.py:437-531 | in every run with failed calls, calls that took effect and failed, and restarts: archived stems are in the cached index, that is within the remote index, both are distinct and at most 1024 long, index entries are complete remotely, a remote marker stands only over a remote JSON |
| RelayPush.FreshStart | goblin_zomboid/relay.py:110-129 | a fresh deployment satisfies that invariant |
| RelayPush.PassStemsAre | goblin_zomboid/relay.py:511-514 | a pass lists the markers of the queue, each once, sorted by file name: all of them, or 256 that no other marker precedes |
| RelayPush.SeenBeforePublished | goblin_zomboid/relay.py:447-490 | no step counts a file as remote before it was seen, or renamed and opened; both are seen once more before the stem counts as published |
| RelayPush.IndexedBeforeArchived | goblin_zomboid/relay.py:519-530 | a call starts archiving only behind the index, and the marker only behind the JSON |
| RelayPush.OnlyArchivingMoves | goblin_zomboid/relay.py:494-506 | only archiving takes files out of the queue, exactly the one file of the stem, exactly if the rename took effect |
| RelayPush.FailureEndsTurn | goblin_zomboid/relay.py:447-528 | a failed call ends the turn of its stem, except that a failed look counts as not seen and a failed index call takes the stem out again first |
| RelayPush.EncodedSizeIs | goblin_zomboid/relay.py:235-240 | the size compared with the limit is that of the JSON text of the index |
| RelayPush.LeavesOnlyDelivered | goblin_zomboid/relay.py:494-531 | no command's JSON leaves the local queue before its JSON, its marker and its index entry are remote |
| RelayPush.DeliveredContent | goblin_zomboid/relay.py:437-492 | where no stem is published twice, what is remote under an archived stem is that very command, at any later time |
| RelayPush.AtMost1024Stems | goblin_zomboid/relay.py:521-527 | in its whole life the relay archives at most 1024 different stems |
| RelayPush.IndexAlwaysFits | goblin_zomboid/relay.py:232-241 | the byte limit on the encoded index can never refuse an index the other limits allow |
| RelayPush.HealthyDelivers | goblin_zomboid/relay.py:437-531 | when every call works and the index has room, one stem's JSON, marker and index entry become remote and exactly that command is archived |
| RelayPush.HealthyStops | goblin_zomboid/relay.py:518-527 | where the index is full and lacks the stem, its JSON and marker become remote and the command stays in the queue |
| RelayPass.SettleIsRun | goblin_zomboid/relay.py:508-531 | a pass, with its calls ending in any given way, is a run of the protocol and comes back to idle |
| RelayPass.PassIsRun | goblin_zomboid/relay.py:508-531 | so the invariant holds after every pass and wherever it is cut off |
| RelayPass.HealthySettles | goblin_zomboid/relay.py:437-492 | going through one stem with working calls is a part of the pass |
| RelayPass.HealthyPass | goblin_zomboid/relay.py:508-531 | when every call works, a pass sends every listed command that is complete and archives and counts exactly those that are in the index or find room in it; these are in the remote index then; what is remote is the command itself exactly if no other content was remote under its stem before the pass |
| RelayPass.QueueDelivered | goblin_zomboid/relay.py:508-531 | said of the queue itself: with at most 256 markers every complete command is remote after a pass with working calls; with room in the index exactly the complete commands have left the queue, are archived and counted |
| RelayPass.AdmittedIff | goblin_zomboid/relay.py:521-531 | a complete command is archived exactly if it is in the index at the start, or the index has room for it and all new ones listed before it |
| RelayContent.DeliveredIff | goblin_zomboid/relay.py:437-506 | in every run, whatever fails, a command that leaves the queue is remote with its own content exactly if nothing else was remote under its stem before, or it was sent because a look at the remote file failed |
| RelayContent.ReusedStemIsLost | goblin_zomboid/relay.py:447-490 | from a fresh start a command is delivered, another one is published under the same stem, and that one is archived without being sent |
| RelayModes.ShutIff | goblin_zomboid/relay.py:457-490 | in every run a remote file is readable exactly if its mode change was not skipped the last time the file was put in place, and is not just due |
| RelayModes.LeftReadableIff | goblin_zomboid/relay.py:447-506 | so when a command leaves the queue its JSON, its marker and the index are readable exactly if that did not happen |
| RelayModes.PassOpens | goblin_zomboid/relay.py:447-490 | after a pass with working calls, JSON and marker of a complete listed command are readable exactly if they were absent or readable before |
| RelayModes.ArrivesClosed | goblin_zomboid/relay.py:447-467 | from a fresh start, one failed mode change and then a pass with working calls leave a command indexed and archived, and its JSON unreadable |
| SshFileRelay.Relay.LoadRemoteCommandIndex | goblin_zomboid/relay.py:201-230 | cached once per process; only a readable, valid, duplicate-free list of at most 1024 safe stems is accepted |
| SshFileRelay.Relay.PublishJson | goblin_zomboid/relay.py:447-467 | uploads, renames and opens the JSON unless it is there; on success the protocol is at the marker |
| SshFileRelay.Relay.PublishMarker | goblin_zomboid/relay.py:468-487 | the same for the marker |
| SshFileRelay.Relay.ConfirmRemote | goblin_zomboid/relay.py:488-490 | true only with both files remote |
| SshFileRelay.Relay.PublishRemote | goblin_zomboid/relay.py:437-492 | nothing but remote files changes; success means both are there, and the rest of the pass goes as the protocol says |
| SshFileRelay.Relay.RenameRemoteIndex | goblin_zomboid/relay.py:262-267 | the remote index becomes the cached one exactly if the rename took effect |
| SshFileRelay.Relay.WriteRemoteCommandIndex | goblin_zomboid/relay.py:232-279 | success means the remote index is the cached one; failure may have taken effect |
| SshFileRelay.Relay.IndexCommand | goblin_zomboid/relay.py:519-527 | success means the stem is in the cached index; failure leaves the cache as it was |
| SshFileRelay.Relay.RenameLocalJson | goblin_zomboid/relay.py:497-506 | the command leaves the queue exactly if the rename took effect, and is counted either way |
| SshFileRelay.Relay.ArchiveLocalCommand | goblin_zomboid/relay.py:494-506 | the marker goes only after the JSON went |
| SshFileRelay.Relay.PushOne | goblin_zomboid/relay.py:512-530 | a counted stem is remote and indexed; one that is not counted leaves the queue untouched |
| SshFileRelay.Relay.Push | goblin_zomboid/relay.py:508-531 | the state, the number of calls and the count are those of the protocol's pass, for every way the calls can end |
| SshFileRelay.Relay.PushListed | goblin_zomboid/relay.py:511-531 | the loop over the listed stems, likewise |
| Episodes.TopSize | goblin_zomboid/mind.py:86-95 | a limit selects exactly that many rows where there are that many |
| Episodes.RowIs | goblin_zomboid/mind.py:79-89 | a row holds what was recorded, with the numbers brought into their ranges and the texts cut |
| Episodes.KeptIs | goblin_zomboid/mind.py:90-96 | a row is kept exactly if fewer than 400 rows are newer or fewer than 100 weigh more |
| Episodes.RecordedIs | goblin_zomboid/mind.py:76-96 | one record adds its row, unless its text is blank, and evicts rows of this companion alone, down to those the rule keeps |
| Episodes.TopIncremental | goblin_zomboid/mind.py:86-95 | rows beyond a limit can be dropped before the next insert without changing what the limit selects |
| Episodes.KeptIncremental | goblin_zomboid/mind.py:86-95 | evicting after every insert keeps what evicting once at the end would keep |
| Episodes.KeptSize | goblin_zomboid/mind.py:86-95 | at most 500 rows are kept, and everything while there are at most 400 |
| Episodes.IncrementalIsBatch | goblin_zomboid/mind.py:76-96 | after any sequence of records a companion's rows are exactly the latest 400 ever recorded and the top 100 by importance, id |
| Episodes.GoblinMind.RecordEpisode | goblin_zomboid/mind.py:76-96 | inserts and evicts for this companion only; no other companion's rows change |
| Observe.ForwardWindow | goblin_zomboid/mind.py:246-281 | a window that reaches at least as far as the position passes exactly the events beyond it to record |
| Observe.NewerHas | goblin_zomboid/mind.py:255-266 | of any snapshot, in whatever order, exactly the events beyond the position are new, each as often as it is there |
| Observe.NewerCat | goblin_zomboid/mind.py:261-266 | their order is kept |
| Observe.MaxSeqIs | goblin_zomboid/mind.py:267-267 | the position rises to the greatest sequence number |
| Observe.TrustingIs | goblin_zomboid/mind.py:276-281 | trust falls by 0.03 for a horde and by 0.01 for a hurt owner, rises by 0.005 for a completed job, moves for nothing else, and stays between 0 and 1 |
| Observe.ContainsIs | goblin_zomboid/mind.py:280-280 | the test for a completed job holds exactly if the word occurs in the text |
| Observe.BackwardWindow | goblin_zomboid/mind.py:255-265 | a window that ends earlier is passed to record again in full |
| Observe.ExactlyOnce | goblin_zomboid/mind.py:246-281 | for gap-free windows that never go back, however they overlap, record is called once for each event, in order, and trust is the clamped fold over the log |
| Observe.ExactlyOnceIff | goblin_zomboid/mind.py:246-281 | these calls are made exactly once if and only if no window goes back |
| Observe.RestartRecordsAgain | goblin_zomboid/mind.py:255-265 | after a restart the next window is passed to record again in full |
| Observe.Observer.FoldEvent | goblin_zomboid/mind.py:266-281 | one event is passed to record, which stores it unless its text is blank, moves trust, and raises the position |
| Observe.Observer.ObserveSnapshot | goblin_zomboid/mind.py:246-281 | record is called for the snapshot's new events and nothing else, for this companion only, and the table is what these calls make of it |
| ObservedEpisodes.EverIsOneEach | goblin_zomboid/mind.py:76-86 | recording the events of a log stores one episode for each event with a text and none for the others, numbered in order |
| ObservedEpisodes.StoredOnce | goblin_zomboid/mind.py:76-96 | however the windows overlap, as long as none goes back, what is stored is the latest 400 and the 100 weightiest of one episode for each event with a text |
| Sentience.CleanPlan | goblin_zomboid/sentience.py:423-434 | at most the room's number of steps, each a known intent without failures |
| Sentience.TextIs | goblin_zomboid/sentience.py:101-105 | a text is kept unless it is blank: with single blanks, cut to its limit |
| Sentience.CleanStepIs | goblin_zomboid/sentience.py:426-430 | a step is usable exactly if its intent is known, and keeps its intent, its cut note and its cut job |
| Sentience.CleanPlanIs | goblin_zomboid/sentience.py:423-434 | the plan is the first usable steps, up to six, in their order |
| Sentience.NotCooling | goblin_zomboid/sentience.py:396-397 | only steps of the plan that are not cooling |
| Sentience.NotCoolingHas | goblin_zomboid/sentience.py:396-397 | exactly the steps that are not cooling stay, each as often as before |
| Sentience.NotCoolingCat | goblin_zomboid/sentience.py:396-397 | parts of a plan are filtered on their own |
| Sentience.NotCoolingOrder | goblin_zomboid/sentience.py:396-397 | of two steps that stay, the earlier one stays the earlier one |
| Sentience.ReflectIs | goblin_zomboid/sentience.py:361-413 | a reflection either adopts its goal with this plan, keeping an interrupted goal if none is kept yet, or ends the current goal, or changes no goal, exactly when its decision, goal and plan say so |
| Sentience.NewPlanHas | goblin_zomboid/sentience.py:396-406 | the plan of a new goal holds every usable step among the first six that is not cooling, and nothing else |
| Sentience.InterruptedReturns | goblin_zomboid/sentience.py:401-451 | what an interruption suspends comes back when the new goal ends, whichever way: goal, plan and step |
| Sentience.CoolingRun | goblin_zomboid/sentience.py:349-352 | skipping never goes past the end of the plan |
| Sentience.CoolingRunIs | goblin_zomboid/sentience.py:349-352 | the run consists of cooling steps and ends at the end of the plan or before a step that is not cooling |
| Sentience.SkipIs | goblin_zomboid/sentience.py:343-358 | skipping leaves the whole run behind and marks the goal; at the end of the plan the goal is given up |
| Sentience.ResultIs | goblin_zomboid/sentience.py:453-480 | a result for another intent changes nothing, a success leaves the step behind, a first failure is only counted, a second one gives the step up and marks the goal |
| Sentience.StepKeepsWellFormed | goblin_zomboid/sentience.py:361-480 | no goal exactly when there is no plan, then step 0 and nothing suspended; otherwise the current step is one of at most six, with at most one failure ahead, likewise for the suspended goal |
| GoalHistory.HistoryHonest | goblin_zomboid/sentience.py:361-480 | in every life, restarts without saving included, the marks of current and suspended goal tell the truth about how each step was passed |
| GoalHistory.ReachableWellFormed | goblin_zomboid/sentience.py:422-480 | every reachable self is well formed |
| GoalHistory.FinishedIffEarned | goblin_zomboid/sentience.py:436-480 | a goal is recorded as finished exactly when its plan ends with every step earned; as given up on exactly when it is abandoned or ends with a step that was not |
| GoalHistory.FinishedHasWitnesses | goblin_zomboid/sentience.py:436-480 | behind every finished goal there is one successful result per step, in order, each for that step's own intent, the last one now, also across suspension and restoration |
| GoalEffort.EffortBounds | goblin_zomboid/sentience.py:423-434 | the effort lies between 0 and 24, and is 0 exactly without a goal |
| GoalEffort.MatchingResultFalls | goblin_zomboid/sentience.py:453-480 | every matching result strictly lowers it, whether it succeeds, fails once or is given up |
| GoalEffort.SkipNeverRaises | goblin_zomboid/sentience.py:343-358 | skipping cooling steps never raises it |
| GoalEffort.ReflectionNeverRaises | goblin_zomboid/sentience.py:361-420 | a reflection raises it only by starting a goal |
| GoalEffort.EffortPays | goblin_zomboid/sentience.py:453-480 | effort left plus matching results so far never exceeds the effort at the start |
| GoalEffort.AtMost24Results | goblin_zomboid/sentience.py:453-480 | without a new goal at most 24 results match, and when the effort is used up no goal is left |
| GoalEffort.MatchingResultsIs | goblin_zomboid/sentience.py:453-480 | the results counted are the places of the run where one matches the step then current |
| GoalEffort.HistoryIsRun | goblin_zomboid/sentience.py:453-480 | every life, restarts without saving included, is for the self a run of the events that were saved |
| Companions.Wants | goblin_zomboid/sentience.py:297-313 | never within 20 s of the last reflection; an urgent answer is always a yes |
| Companions.WantsUrgency | goblin_zomboid/sentience.py:297-313 | how urgent each yes is, and when a companion without a goal or left alone for long is a yes |
| Companions.CoolingIs | goblin_zomboid/sentience.py:330-341 | an intent cools for ten minutes after a failure, and for a quarter of an hour after success if it is a chore that need not be repeated |
| Companions.Companions.Get | goblin_zomboid/sentience.py:121-133 | the cached, stored or new self, cached from then on |
| Companions.Companions.Cooling | goblin_zomboid/sentience.py:330-341 | exactly the intents tried too recently |
| Companions.Companions.SkipCoolingSteps | goblin_zomboid/sentience.py:343-358 | the loop passes exactly the gapless run of cooling steps, marks the goal, ends it at the end of the plan, and saves only then |
| Companions.Companions.FinishGoal | goblin_zomboid/sentience.py:436-451 | records the goal under the right word and restores the suspended one |
| Companions.Companions.Pass | goblin_zomboid/sentience.py:471-474 | the step is passed, and the last one ends the goal |
| Companions.Companions.StepResult | goblin_zomboid/sentience.py:453-480 | results for another intent change nothing; two strikes drop the step; failures, and successes after one, wake cognition |
| Companions.Companions.Top | goblin_zomboid/sentience.py:305-305 | the greatest importance waiting |
| Companions.Companions.CleanPlan | goblin_zomboid/sentience.py:423-434 | the loop keeps the first six usable steps |
| Companions.Companions.WithoutCooling | goblin_zomboid/sentience.py:396-397 | the plan without steps that are cooling |
| Companions.Companions.Decide | goblin_zomboid/sentience.py:400-413 | new, interrupting, abandoning and keeping a goal, with what is suspended and recorded |
| Companions.Companions.ApplyReflection | goblin_zomboid/sentience.py:361-420 | a reflection changes the self as specified, is saved, and empties the inbox |
| Companions.Companions.WantsReflection | goblin_zomboid/sentience.py:297-313 | the answer for the greatest importance in the inbox |
| Scheduler.RunKeepsInv | goblin_zomboid/service.py:743-767 | in every run the lanes are bounded and agree with their thoughts, and submissions are spaced and remembered |
| Scheduler.FreeIs | goblin_zomboid/service.py:766-767 | a lane is free exactly if a thought can be put there beside the others without exceeding the limit |
| Scheduler.SubmittedIs | goblin_zomboid/service.py:735-758 | a submitted thought is in its lane and no other lane changes; a reflection also claims the slot now |
| Scheduler.OneAtATime | goblin_zomboid/service.py:760-767 | until it ends no other thought about this companion can start |
| Scheduler.BoundedAndOnePerCompanion | goblin_zomboid/service.py:761-767 | at most think_parallel thoughts are in flight, at most one about each companion |
| Scheduler.OneDiaryOneMeeting | goblin_zomboid/service.py:743-767 | at most one diary page and one meeting are in flight, and every thought sits in the lane of its companion |
| Scheduler.ReflectionsSpaced | goblin_zomboid/service.py:709-737 | within a process two reflections of one companion are submitted at least 20 s apart |
| Scheduler.RestartForgetsGap | goblin_zomboid/service.py:735-737 | across a restart they can be one second apart |
| Scheduler.StoredSelvesKeepGap | goblin_zomboid/sentience.py:135-137 | where each submission is remembered by the self that was loaded or is 20 s ago, no continuation of the new process breaks the gap |
| Scheduler.ForgottenGap | goblin_zomboid/service.py:709-737 | a submission that is neither remembered nor 20 s ago leaves the new process a run that breaks the gap |
| Scheduler.GapAcrossRestart | goblin_zomboid/sentience.py:297-303 | the gap holds across a restart, whatever the new process does, exactly under that condition |
| ThinkService.SortGivesOrder | goblin_zomboid/service.py:841-843 | due companions come in the order of their turns |
| ThinkService.QualifiesIs | goblin_zomboid/service.py:709-721 | who qualifies: urgent with weighty news or without a purpose for a minute, otherwise after four minutes, never within 20 s |
| ThinkService.NewcomerQualifies | goblin_zomboid/sentience.py:308-310 | somebody nobody has thought about yet is urgent after the first minute |
| ThinkService.EarliestStarted | goblin_zomboid/service.py:841-849 | nobody is started ahead of somebody who waited longer and was left waiting |
| ThinkService.Service.SubmitThink | goblin_zomboid/service.py:743-758 | the lane is taken by this thought |
| ThinkService.Service.SubmitReflect | goblin_zomboid/service.py:723-737 | the slot is claimed at the present time before the lane is taken |
| ThinkService.Service.ReflectCandidate | goblin_zomboid/service.py:709-721 | the first of the most urgent companions that qualify, or none does |
| ThinkService.Service.Pool | goblin_zomboid/service.py:806-806 | exactly the companions with a free lane |
| ThinkService.Service.ReflectOnce | goblin_zomboid/service.py:805-810 | one round submits the most urgent qualifying companion, or nobody with a free lane qualifies and nothing changes |
| ThinkService.Service.StartReflections | goblin_zomboid/service.py:803-810 | the unbounded loop terminates, each round taking a free lane; afterwards nobody with one qualifies |
| ThinkService.Service.StartOthers | goblin_zomboid/service.py:811-836 | at most one diary page and one meeting, each unless its lane is taken or all lanes are |
| ThinkService.Service.SetDefaults | goblin_zomboid/service.py:839-840 | only companions without a turn get their first one |
| ThinkService.Service.Due | goblin_zomboid/service.py:841-843 | exactly the eligible companions whose turn has come and whose lane is free, earliest first |
| ThinkService.Service.StartThink | goblin_zomboid/service.py:847-866 | the lane is taken and the next turn is 40 s later |
| ThinkService.Service.StartDue | goblin_zomboid/service.py:841-866 | afterwards the lanes are full or everybody whose turn had come is being thought about, earliest first; turns move only for those started |
| ThinkService.Service.StartThoughts | goblin_zomboid/service.py:799-874 | a pass leaves no free lane unused that diary, meeting, a due turn or a quiet reflection could take; turns move as stated, and urgent reflections come first: nothing else is started while somebody with a free lane has urgent news |
| ThinkService.Service.FinishLane | goblin_zomboid/service.py:775-793 | exactly this lane is emptied; a failed thought leaves the self alone |
| ThinkService.Service.ThinkTick | goblin_zomboid/service.py:772-797 | a tick that finds finished lanes or a waiting chat only empties them; any other one is such a pass |
| DefinitionTable.Utf16Injective | server-java/src/com/horsetheunicorn/goblin/server/RuntimeDefinitionTable.java:66-71 | two texts with the same code units are the same text, so equal compare results mean equal keys |
| DefinitionTable.ScalarIs | server-java/src/com/horsetheunicorn/goblin/server/RuntimeDefinitionTable.java:29-50 | from which script values a scalar of each kind and text is read |
| DefinitionTable.KeyOfIs | server-java/src/com/horsetheunicorn/goblin/server/RuntimeDefinitionTable.java:53-66 | from which raw keys a key of each type and text is read |
| DefinitionTable.NeighboursSuffice | server-java/src/com/horsetheunicorn/goblin/server/RuntimeDefinitionTable.java:66-71 | in a sorted list comparing neighbours finds every duplicate key |
| DefinitionTable.SortedUnique | server-java/src/com/horsetheunicorn/goblin/server/RuntimeDefinitionTable.java:66-71 | entries without duplicate keys have one sorted arrangement |
| DefinitionTable.SnapUnfolds | server-java/src/com/horsetheunicorn/goblin/server/RuntimeDefinitionTable.java:26-76 | what is read is the unfolding of the table graph, strictly sorted at every level, within the depth |
| DefinitionTable.UnfoldsSnap | server-java/src/com/horsetheunicorn/goblin/server/RuntimeDefinitionTable.java:26-76 | conversely every unfolding within the depth is what is read |
| DefinitionTable.OrderFree | server-java/src/com/horsetheunicorn/goblin/server/RuntimeDefinitionTable.java:53-66 | the result does not depend on the order in which tables are iterated |
| DefinitionTable.SnapShallower | server-java/src/com/horsetheunicorn/goblin/server/RuntimeDefinitionTable.java:26-28 | what fits at some depth is the same value at every smaller one, so sharing is harmless |
| DefinitionTable.CycleDoesNotFit | server-java/src/com/horsetheunicorn/goblin/server/RuntimeDefinitionTable.java:51-75 | a table met again below itself has no unfolding at all, so the cycle check refuses nothing that would have fitted |
| DefinitionTable.Reader.HasDuplicate | server-java/src/com/horsetheunicorn/goblin/server/RuntimeDefinitionTable.java:67-71 | true exactly if two neighbours have the same key |
| DefinitionTable.Reader.Read | server-java/src/com/horsetheunicorn/goblin/server/RuntimeDefinitionTable.java:26-76 | terminates on every graph; the counter grows by the size of the result; refusal means no unfolding or too many nodes |
| DefinitionTable.Reader.ReadTable | server-java/src/com/horsetheunicorn/goblin/server/RuntimeDefinitionTable.java:51-76 | the same for the entries of a table, and the ancestors are restored |
| DefinitionTable.TakeSnapshot | server-java/src/com/horsetheunicorn/goblin/server/RuntimeDefinitionTable.java:17-24 | succeeds exactly when the unfolding exists within 12 levels and 10 000 nodes, and returns it |
| Json.ReadDumped | tools/check_pz_catalog.py:31-36 | reading a printed value gives it back and stops right behind it, as RFC 8259 sections 4, 5 and 7 have it |
| Json.ReadUndoesDump | tools/check_pz_catalog.py:22-36 | reading undoes printing for every value without repeated member names |
| Json.EscapeShortest | server-java/src/com/horsetheunicorn/goblin/server/RuntimeCatalogExporter.java:220-233 | the escape of a character is the shortest text that reads back as it |
| Json.ReadIntIs | tools/check_pz_catalog.py:31-36 | a number is read in the one way it is printed: no leading zero, no fraction, no exponent |
| Json.ReadSkips | tools/check_pz_catalog.py:35-36 | white space before a value does not matter |
| DefinitionExport.QuoteUnit | server-java/src/com/horsetheunicorn/goblin/server/RuntimeCatalogExporter.java:220-233 | each character is escaped as the compact JSON printer escapes it |
| DefinitionExport.FourHexReads | server-java/src/com/horsetheunicorn/goblin/server/RuntimeCatalogExporter.java:230-230 | the four digits of an escape are read back as the number of the character |
| DefinitionExport.JavaQuote | server-java/src/com/horsetheunicorn/goblin/server/RuntimeCatalogExporter.java:216-236 | the quoted text is the JSON of the string, or null |
| DefinitionExport.NodeText | server-java/src/com/horsetheunicorn/goblin/server/RuntimeCatalogExporter.java:675-687 | the text put together by hand is the compact JSON of a node |
| DefinitionExport.DefinitionJson | server-java/src/com/horsetheunicorn/goblin/server/RuntimeCatalogExporter.java:675-687 | the loop over the entries prints exactly that |
| DefinitionExport.EntryLine | server-java/src/com/horsetheunicorn/goblin/server/RuntimeCatalogExporter.java:679-685 | the same for one entry |
| DefinitionCheck.Validator.Validate | tools/check_pz_catalog.py:417-461 | accepts exactly what the depth, node, shape and key rules allow, returns the node unchanged, and counts its nodes |
| DefinitionCheck.Validator.ValidateEntries | tools/check_pz_catalog.py:440-461 | the loop over the entries, with the set of keys seen |
| DefinitionAgreement.CheckNode | tools/check_pz_catalog.py:417-461 | the check accepts exactly the fine trees within its depth and returns them unchanged |
| DefinitionAgreement.ScalarOkIs | tools/check_pz_catalog.py:426-439 | which scalars a node of each kind may have |
| DefinitionAgreement.KeyOkIs | tools/check_pz_catalog.py:444-452 | which keys an entry may have |
| DefinitionAgreement.SnapshotFine | tools/check_pz_catalog.py:447-453 | a snapshot is fine exactly when no table of it has both zeros as keys |
| DefinitionAgreement.ClashIsZeroPair | tools/check_pz_catalog.py:447-453 | two different keys clash for Python only if they are the two zeros |
| DefinitionAgreement.ExportAgrees | tools/check_pz_catalog.py:417-461 | for every faithful way to print and read binary64 numbers, every exported text parses back to its tree; the check under the same bounds returns it unchanged, exactly if no table has both zeros |
| DefinitionAgreement.Exchange | server-java/src/com/horsetheunicorn/goblin/server/RuntimeCatalogExporter.java:675-687 | export, parse, check and print again: the second text is the first one, byte for byte |
| DefinitionAgreement.BothZeroesRefused | tools/check_pz_catalog.py:447-453 | the exception occurs: some exported snapshot is refused |
| FishingDocument.NamesSortedBothWays | server-java/src/com/horsetheunicorn/goblin/server/RuntimeFishingCatalog.java:12-27 | the nine field names come in the same order for Java and for Python |
| FishingDocument.FishingJson | server-java/src/com/horsetheunicorn/goblin/server/RuntimeCatalogExporter.java:633-642 | the hand-written document is the compact JSON of schema, compatibility and fields |
| FishingDocument.DocumentShapeIs | tools/check_pz_catalog.py:615-622 | a document of the right shape holds the version, the compatibility and the nine fields, in any order, and nothing else |
| FishingDocument.CanonicalFishing | tools/check_pz_catalog.py:615-625 | the text that is hashed exists exactly if shape and all nine nodes pass, and is the print of the checked nodes |
| FishingDocument.FishingExchange | tools/check_pz_catalog.py:672-674 | the exported text is the compact JSON of the document over all nine values, and the canonical text equals it, so the digests agree, exactly if no table has both zeros |
| DefinitionCodec.CodecIsFaithful | tools/check_pz_catalog.py:435-453 | printing and reading all finite binary64 numbers faithfully within 24 units is possible, so the agreement is not about nothing |
| DefinitionCodec.FishingExample | tools/check_pz_catalog.py:672-674 | carried out with such a codec on nine tables keyed by numbers, the exchange exports the document of these tables and hashes just that text |
| DefinitionCodec.ZeroesRefused | tools/check_pz_catalog.py:447-457 | with it there is a snapshot that is exported, parses back, and is refused |
| MeshNumbers.NumberIsToken | tools/pz_x_mesh.py:71-73 | a printed number is matched whole by the number pattern, whatever non-number follows |
| MeshNumbers.NumberBack | tools/pz_x_mesh.py:71-73 | a number with at most nine decimals reads back as itself |
| MeshNumbers.PrintingIsClose | tools/pz_x_mesh.py:71-73 | every other number reads back within half a billionth |
| MeshNumbers.IntBack | tools/pz_x_mesh.py:29-30 | printed integers read back as themselves |
| MeshGrammar.NumberAtIsLongest | tools/pz_x_mesh.py:9-9 | the greedy match is the longest numeral a text starts with; there is none exactly if nothing matches |
| MeshGrammar.WorthIs | tools/pz_x_mesh.py:24-24 | a numeral is worth its digits, moved by its decimals and its exponent, with its sign |
| MeshGrammar.NumberTextIs | tools/pz_x_mesh.py:71-73 | every number is printed with exactly nine decimals and never with an exponent |
| MeshGrammar.IntTextIs | tools/pz_x_mesh.py:76-81 | an integer is printed with its digits, and a sign exactly if it is negative |
| MeshGrammar.TruncIs | tools/pz_x_mesh.py:29-30 | a count is read toward zero |
| MeshTables.VectorsClosed | tools/pz_x_mesh.py:76-77 | a printed vector table holds exactly its count and its numbers as tokens, whatever follows |
| MeshTables.FacesClosed | tools/pz_x_mesh.py:80-81 | the same for a face table |
| MeshTables.VectorsBack | tools/pz_x_mesh.py:32-33 | taking vectors from such tokens gives the rows back and stops behind them |
| MeshTables.FacesBack | tools/pz_x_mesh.py:35-36 | the same for faces of any length |
| MeshTables.Numbers.Scan | tools/pz_x_mesh.py:9-24 | the tokens in order, as finditer finds them |
| MeshTables.Numbers.TakeSome | tools/pz_x_mesh.py:26-27 | the next ones, or failure where the text runs out |
| MeshTables.Numbers.Integer | tools/pz_x_mesh.py:29-30 | the next one, truncated |
| MeshTables.Numbers.VectorRows | tools/pz_x_mesh.py:32-33 | count, then rows of the dimension |
| MeshTables.Numbers.FaceRows | tools/pz_x_mesh.py:35-36 | count, then rows of their own lengths |
| MeshBlocks.FindEnd | tools/pz_x_mesh.py:14-18 | the while loop finds the brace that closes the open one, if there is one |
| MeshBlocks.HeadingChars | tools/pz_x_mesh.py:12-19 | a matched heading is keyword, spaces, word characters and one brace at its end |
| MeshGrammar.HeadingAtIff | tools/pz_x_mesh.py:53-62 | what the search finds at a place is exactly a heading: keyword, spaces, perhaps a name, and a brace |
| MeshGrammar.NextMatchIs | tools/pz_x_mesh.py:13-13 | the search goes to the first place that matches |
| MeshGrammar.CloseLengthIs | tools/pz_x_mesh.py:14-19 | a block ends at the first place where its braces are closed again, and has no end exactly if they never are |
| MeshBlocks.BlockHere | tools/pz_x_mesh.py:12-19 | a heading with balanced content behind it is that block |
| MeshFile.NextBlock | tools/pz_x_mesh.py:12-19 | the next match of the heading and its block |
| MeshFile.BeforeIs | tools/pz_x_mesh.py:54-54 | the vertex tables are what stands before the first occurrence of the word, or everything |
| MeshFile.AfterSemicolonIs | tools/pz_x_mesh.py:64-64 | the weights are what stands behind the first semicolon, if there is one |
| MeshFile.PutIs | tools/pz_x_mesh.py:67-67 | a bone met again takes the place of the earlier one of that name; a new one comes last |
| MeshFile.ZippedHas | tools/pz_x_mesh.py:65-67 | of two weights for one vertex the later one counts |
| MeshFile.TakeTables | tools/pz_x_mesh.py:52-58 | vectors and faces of a block |
| MeshFile.TakeSkin | tools/pz_x_mesh.py:62-67 | bone name, weights by index and matrix of a skin block |
| MeshFile.ReadAllSkins | tools/pz_x_mesh.py:61-67 | the loop over the skin blocks; a repeated bone replaces the earlier one in place |
| MeshFile.Read | tools/pz_x_mesh.py:52-68 | the whole reader, with every place where it raises |
| MeshFile.Write | tools/pz_x_mesh.py:84-99 | the parts collected in order are the specified text |
| MeshRoundTrip.FindNormals | tools/pz_x_mesh.py:52-59 | in written content the first normals block is the written one |
| MeshRoundTrip.FindTexture | tools/pz_x_mesh.py:52-59 | likewise the texture coordinates |
| MeshRoundTrip.SkinBlocks | tools/pz_x_mesh.py:61-67 | the skin blocks are found one after the other, and no others |
| MeshReadBack.FindSkins | tools/pz_x_mesh.py:61-67 | in written content exactly the written bones are found, in order |
| MeshReadBack.TablesBack | tools/pz_x_mesh.py:76-81 | printed tables read back as vectors and faces |
| MeshReadBack.SkinBack | tools/pz_x_mesh.py:92-97 | a printed bone reads back with name, weights and matrix |
| MeshReadBack.SkinsBack | tools/pz_x_mesh.py:61-67 | distinct bones read back in order |
| MeshRewrite.FirstStays | tools/pz_x_mesh.py:84-99 | the new block is the first mesh of the new file |
| MeshRewrite.RoundTrip | tools/pz_x_mesh.py:52-99 | reading the written file gives the same vertices, faces, normals, normal faces, coordinates and skin, for all well-shaped meshes with nine-decimal numbers and bone names without quotes, semicolons and braces |
| MeshRewrite.StaysPrintable | tools/pz_x_mesh.py:52-99 | what was written can be read and written again, any number of times |
| MeshRewrite.IntoEmptyBlock | tools/pz_x_mesh.py:84-99 | every such mesh can be written into a file with an empty mesh block |
| MeshRewrite.OutsideUntouched | tools/pz_x_mesh.py:98-99 | before the block the text is as it was; behind it one line break and then the old text |
| MapPyramid.CeilBound | tools/export_native_map.py:41-44 | an index is below the rounded-up quotient exactly when its product is below the number |
| MapPyramid.CountFillsGrid | tools/export_native_map.py:41-44 | distinct tiles within the grid fill it exactly when they are as many as its places |
| MapPyramid.CountLevel | tools/export_native_map.py:41-44 | the number of tiles of a level |
| MapPyramid.HeaderIs | tools/export_native_map.py:20-26 | the header is taken exactly for version 1 and one extent of at most 65536 by 65536 that starts at the origin |
| MapPyramid.UsableIs | tools/export_native_map.py:31-37 | a tile is taken exactly if it has one of five levels, digits for its place, at most 1 MiB, and covers part of the world |
| MapPyramid.Collect | tools/export_native_map.py:28-40 | succeeds exactly when all members but the skipped ones are well-named, in bounds and distinct, and gives them by key |
| MapPyramid.SkippedIgnored | tools/export_native_map.py:28-30 | directories and the header decide nothing |
| MapPyramid.CollectedUnique | tools/export_native_map.py:28-40 | the members decide the tiles |
| MapPyramid.CountsComplete | tools/export_native_map.py:41-44 | all counts as expected exactly when no level has a hole |
| MapPyramid.CheckCounts | tools/export_native_map.py:41-44 | the count check accepts exactly the complete pyramids |
| MapPyramid.AllNative | tools/export_native_map.py:46-49 | true exactly if every tile has the right size |
| MapPyramid.Export | tools/export_native_map.py:16-54 | exports exactly the valid pyramids into a fresh directory: complete at every level |
| MapPyramid.InBoundsIsInGrid | goblin_zomboid/tracker.py:266-281 | the tracker's bounds check holds exactly for the places of the grid |
| MapPyramid.ServedIffCanonical | goblin_zomboid/tracker.py:266-291 | a tile of the pyramid is served exactly if its name is written without leading zeros |
| MapPyramid.LeadingZeroHidden | tools/export_native_map.py:28-44 | a pyramid with such a name is exported, and its tile never served |
| MapViewer.ClampedLogIsLevel | web/app.js:116-120 | the clamped rounded-down logarithm is the level of the comparison form |
| MapViewer.RealPowerDoubles | web/app.js:119-121 | from one level to the next the scale doubles, for negative levels too |
| MapViewer.LevelFits | web/app.js:119-120 | the level is the coarsest whose pixels are no larger than those of the display, within the levels there are |
| MapViewer.EdgesAre | web/app.js:67-75 | the camera is in the middle of the screen, distances are multiplied by the scale, and the viewport reaches from edge to edge |
| MapViewer.RequestedInBounds | web/app.js:116-148 | every tile the viewer asks for passes the tracker's bounds check |
| MapViewer.RequestedMeetsViewport | web/app.js:123-130 | no tile is asked for that lies outside of what the viewport shows |
| MapViewer.ViewportCovered | web/app.js:116-132 | every point of the world that the viewport shows lies on a requested tile |
| MapViewer.RequestedIsServed | web/app.js:116-148 | with a complete pyramid of plain names every requested tile is served |
| MapViewer.ScreenWorldInverse | web/app.js:67-75 | screen and world points are inverse to each other |
| MapViewer.ScreenIsDrawn | web/app.js:67-148 | wherever the screen shows a point of the world, a tile that shows it is asked for and served |
| MapViewer.Camera.Zoom | web/app.js:251-256 | the scale is multiplied and clamped, and the world point under the anchor stays there |
| Squads.GuardsStay | goblin_zomboid/entities.py:145-158 | a squad with a guard beyond its head leaves at least the floor of available guards behind |
| Squads.RefusedIff | goblin_zomboid/entities.py:97-125 | which requests are refused |
| Squads.CandidatesAre | goblin_zomboid/entities.py:118-123 | a count is asked of everybody in the registry, once, in the order of the ids; a list is gone through as it is |
| Squads.CanLeaveIs | goblin_zomboid/entities.py:145-158 | a guard can leave exactly if enough available guards are then still outside of the squad |
| Squads.EntityIdIs | goblin_zomboid/entities.py:10-18 | letters and digits are ids, ids joined by a separator are ids up to 96 characters, and nothing else is in one |
| Squads.SelectLast | goblin_zomboid/entities.py:129-142 | one candidate more joins exactly if it can join those chosen before and nobody who joined has met a cap |
| Squads.GreedyComplete | goblin_zomboid/entities.py:129-142 | below the caps everyone left out is ineligible or a guard who still could not leave |
| Squads.SelectKeepsGood | goblin_zomboid/entities.py:129-142 | the loop keeps members distinct and available and the floor respected |
| Squads.SelectFits | goblin_zomboid/entities.py:137-142 | the caps hold where there is room for one member at the start |
| Squads.SizeOneOverflows | goblin_zomboid/entities.py:137-142 | without a count the size cap holds exactly if it is at least 2 or nobody joins |
| Squads.ChosenSquad | goblin_zomboid/entities.py:89-143 | all of it for every accepted request: head, no duplicates, availability, floor, caps, completeness |
| Squads.SquadManager.CountAvailable | goblin_zomboid/entities.py:146-149 | the number of available guards |
| Squads.SquadManager.CountLeaving | goblin_zomboid/entities.py:150-154 | the number of guards among those selected |
| Squads.SquadManager.GuardCanLeave | goblin_zomboid/entities.py:145-158 | true for a guard exactly if the floor stays behind |
| Squads.SquadManager.Joins | goblin_zomboid/entities.py:130-136 | exactly the conditions to be taken |
| Squads.SquadManager.Extend | goblin_zomboid/entities.py:127-143 | the loop with its early exit is the greedy selection |
| Squads.SquadManager.ChooseMembers | goblin_zomboid/entities.py:89-143 | refuses exactly the invalid requests, otherwise the greedy selection |
| Inventory.PayloadOfEnvelope | server-java/src/com/horsetheunicorn/goblin/server/ServerSupport.java:131-150 | reading an envelope gives the payload back exactly for the allowed versions and sizes |
| Inventory.AcceptedIsEnvelope | server-java/src/com/horsetheunicorn/goblin/server/ServerSupport.java:136-150 | every byte string that is accepted is the envelope of what is returned |
| Inventory.RestoreIff | server-java/src/com/horsetheunicorn/goblin/server/ServerSupport.java:152-185 | a restore marks the body exactly if there is no snapshot or it was read and loaded completely, and the answer says which; a damaged snapshot is an error and marks nobody |
| Inventory.SaveIff | server-java/src/com/horsetheunicorn/goblin/server/ServerSupport.java:187-201 | a save writes this envelope over the file of this identity alone, exactly if it gets that far and the write takes effect; the digest is remembered exactly if the write also says so; and which answer it gives |
| Inventory.ForgetIs | server-java/src/com/horsetheunicorn/goblin/server/ServerSupport.java:37-38 | a body the game forgets has to be restored and saved anew; nothing else changes |
| Inventory.ReadPayload | server-java/src/com/horsetheunicorn/goblin/server/ServerSupport.java:136-150 | the cursor over the buffer reads exactly that |
| Inventory.OverwriteGuarded | server-java/src/com/horsetheunicorn/goblin/server/ServerSupport.java:152-201 | in every run a snapshot changes only by a save of a body that restored that identity before: at that step there was no file, or the file was read and loaded completely |
| Inventory.UnchangedIff | server-java/src/com/horsetheunicorn/goblin/server/ServerSupport.java:187-194 | "unchanged" is true exactly if the last write to the file of the identity was the last save of this body, or whatever wrote the file otherwise left items with the same digest |
| Inventory.FileIsLastWrite | server-java/src/com/horsetheunicorn/goblin/server/ServerSupport.java:187-201 | the file of an identity is what the last write that took effect left, or what was there at the start |
| Inventory.DigestIsLastSaved | server-java/src/com/horsetheunicorn/goblin/server/ServerSupport.java:192-195 | the digest remembered for a body is that of the payload it was last told was saved |
| Inventory.SecondBodyUnsaved | server-java/src/com/horsetheunicorn/goblin/server/ServerSupport.java:189-196 | of two bodies under one identity the first is answered "unchanged" although the second has saved since |
| Inventory.SecondIdentityUnsaved | server-java/src/com/horsetheunicorn/goblin/server/ServerSupport.java:192-193 | a second identity can be answered "unchanged" without a file |
| Inventory.FailedReportUnsaved | server-java/src/com/horsetheunicorn/goblin/server/ServerSupport.java:192-196 | after a failed write that took effect, going back to the earlier items is answered "unchanged" |
| Inventory.ServerSupport.RestoreInventory | server-java/src/com/horsetheunicorn/goblin/server/ServerSupport.java:152-185 | the body is marked only after the items were loaded completely or no file was found |
| Inventory.ServerSupport.SaveInventory | server-java/src/com/horsetheunicorn/goblin/server/ServerSupport.java:187-201 | refused unless restored under this identity; the digest is remembered only after the write returned |
| Chatter.SinceIs | goblin_zomboid/memory.py:208-219 | the query gives exactly the lines from that time on, in order, so its last row is the latest |
| Chatter.AllowedIff | goblin_zomboid/social.py:98-116 | a line is allowed exactly if its event was silent for the event interval and, unless it is urgent, the hour has room and no line came within the minimal interval |
| Chatter.RefusedFor | goblin_zomboid/social.py:105-115 | for which of the three reasons a line is refused |
| Chatter.CountSinceIs | goblin_zomboid/social.py:106-107 | exactly the lines of the last hour count towards the limit |
| Chatter.HourlyLimitHolds | goblin_zomboid/social.py:98-132 | every hour holds at most the limit of lines beside the urgent ones |
| Chatter.OrdinaryHourlyLimit | goblin_zomboid/social.py:98-132 | in a run of lines below priority 3 every window of 3600 s holds at most the limit |
| Chatter.LinesSpaced | goblin_zomboid/social.py:109-115 | such a line keeps the minimal interval to every earlier one, and lines of one event keep theirs at any priority |
| Chatter.Governor.SameEvent | goblin_zomboid/social.py:113-114 | exactly the lines of the event, in order |
| Chatter.Governor.Allow | goblin_zomboid/social.py:98-116 | refuses exactly for the hourly limit, the global cooldown or the event's cooldown, in that order |
| Chatter.Governor.Record | goblin_zomboid/social.py:118-132 | a line is stored exactly if it is allowed and storable, under the given time unless that is 0 |
| Speech.DecodeEncoded | goblin_zomboid/social.py:21-21 | decoding undoes the UTF-8 encoding of RFC 3629 section 3, character by character |
| Speech.DecodeFits | goblin_zomboid/social.py:21-25 | cutting the bytes anywhere and decoding gives the longest prefix that fits; no character is split |
| Speech.SqueezeKeepsWords | goblin_zomboid/social.py:17-17 | normalizing white space keeps the words and their order |
| Speech.SqueezedStays | goblin_zomboid/social.py:17-17 | and changes nothing where there are only single blanks between words |
| Speech.EndAtIff | goblin_zomboid/social.py:22-22 | a sentence ends exactly where a stop and perhaps one closing quote come before white space or the end |
| Speech.BeforeLastBlankIs | goblin_zomboid/social.py:26-26 | the text is cut at its last blank, and nothing is left where there is none |
| Speech.StripTailIs | goblin_zomboid/social.py:26-26 | exactly the punctuation at the end goes |
| Speech.ShortenedIs | goblin_zomboid/social.py:21-27 | a text that is too long is cut behind its last complete sentence, or else behind a word with dots added |
| Speech.OnlyDots | goblin_zomboid/social.py:25-27 | where no sentence ends in time, nothing but dots is left exactly if the text before the last blank of the first 137 bytes is punctuation |
| Speech.SpeechFits | goblin_zomboid/social.py:15-27 | at most 140 bytes for every text |
| Speech.SpeechIsPrefix | goblin_zomboid/social.py:15-27 | a prefix of the normalized text with at most three dots added, all of it exactly when it fits |
| Speech.SpeechIdempotent | goblin_zomboid/social.py:15-27 | applying it again changes nothing |

## Left out

- ResponseConsumer and its checks of status and detail: the polling, ledger and moving are those of `EventConsumer`.
- A consumer's own default set of event types, and message fields beyond id, timestamp and type: they are part of what counts as an acceptable envelope, with the protocol version and the size limit.
- Pulling the runtime, state, acks and archive channels: the same copy loop without a consumer behind it; runtime files are replaced every time.
- The first look at the remote bridge directory before any call: it fails like the call after it.
- A remote command that takes effect only after it timed out, and a relay and a service that write the local ready index at the same time.
- SSH, scp, fsync and SQLite themselves: their calls are atomic steps that may fail, take effect, or take effect and report failure; rows are sets ordered by id.
- SHA-256 and fresh UUIDs: a digest is a function of the bytes with 32 of them, and a fresh suffix is one that is not in use.
- RelayPush.DeliveredContent: needs stems that are published once; the exact condition for each command is `RelayContent.DeliveredIff`.
- BridgeStore.Conservation: leaves out stems ending in `.reason`; `BridgeConservation.ConservedIff` is about all stems and covers it by `BridgeConservation.PlainLosesNothing`.
- The importance and valence of an event: a function of its kind and text stands for the table of weights; day, place and entities of an episode are left out.
- EventConsumer.Consumer.MoveItem: shows the queue only; where the files go, under which names, is in `BridgeStore`.
- Observe.Observer.ObserveSnapshot: leaves out the rooms and days of a snapshot, from which visits and diary pages come.
- Companions.Companions.Get: a new self is without goal, plan and failures; its name, owner and mood are left out.
- Companions.Companions.ApplyReflection: leaves out mood, thought, expectation and opinions, which decide nothing about goals.
- FishingDocument.CanonicalFishing: leaves out the checks between shape and digest (item references, lure index, fish lists).
- Observe.ExactlyOnce: needs windows that never go back and counts calls of record; see `Observe.ExactlyOnceIff` and `ObservedEpisodes.StoredOnce`.
- Mood, opinions, places, diary, perception and thought texts of the mind, and the prompts and answers of the language model: what they decide about goals and turns is a parameter.
- ThinkService.Service.FinishLane: what a finished thought decides about the plan and the next turn comes in as a parameter, since it depends on the model's answer; which pair meets and who is eligible are parameters as well.
- The service's clock going backwards within a process.
- Floating point in meshes, the viewer, trust scores and clocks: real numbers, with the printing to nine decimals exact.
- JSON numbers other than natural numbers, and lone surrogates in strings: no printed snapshot contains them as JSON numbers or characters.
- Double.toString and float(): any codec that gives back every finite binary64 number within 24 units stands for them; how they choose digits is left out.
- The other catalogs: their text is printed and checked in the same way.
- Unicode digits in the number pattern and in tile names, and word characters outside ASCII, which are a parameter of the mesh reader.
- The biome map without pyramid, PNG headers beyond the size they give, and the manifest that is written beside the tiles.
- Ids in squad requests that are no strings stand as an invalid id; requests that never end; forming a squad from the chosen members.
- The serialization of items, and bodies the game forgets: a snapshot is a byte string, and forgetting is a step of the runs.
- Decoding bytes that are no prefix of valid UTF-8, and removal of control characters before a line is spoken.
- HTTP servers, event streams, the model client, Blender scripts, hunts, parties, modes, validators and reservations.
