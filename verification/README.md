# Verified model of the Chenyida ERP repository's protocols

Dafny models of the parts of the repository whose correctness is hardest to see by reading,
with proofs. `dafny verify dfyconfig.toml` checks all of it.

- **Monitoring host installer** (`HostRecords`, `HostInvariant`, `HostProtocol`, `HostInstaller`).
  A disk is ten fixed targets, backups, prepared journals, terminal markers, receipts and
  activation records. The installer is a class whose methods perform one atomic write at a
  time and record every state in a trace; a crash keeps any prefix of the trace, also inside
  recovery. The logical contents of a disk are its targets, or the old files while a
  transaction without receipt is open. `DeliveryLedger` is the check of grants, claims,
  attempts, results and acknowledgements that guards a change of notification target.
- **Dependency checks** (`Walks`, `ImportGraph`, `ActionCatalog`, `DependencyClosure`): cycle
  detection, the two worklist closures and the rebuilding of the action catalog.
- **ERP stock and orders** (`Rounding`, `ErpStock`, `ErpTables`, `ErpPurchasing`, `Erp`,
  `ErpPlanning`): the tables are fields of a class, one call of the API is one method that
  changes nothing when it fails. Quantities are exact reals and Python's rounding is written
  out. Transactions carry the document that moved the stock, so every table can be compared
  with the ledger. `RequestSlots` is the bounded request server.
- **Specification tokens** (`SpecificationTokens`, `Decimals`, `Quantities`,
  `SpecificationMatching`, `TextOrder`): span claiming, canonical quantities, matching.
- **Pin publication** (`PinPublication`): any number of installer runs over one directory.
- **Supporting checks** (`RootPaths`, `ImportRows`).

Where the code does less than one would expect, the model keeps the code's behaviour, shows
an input and proves the exact condition:

- An undo keeps a file that has the old bytes under the new owner and mode, although it is
  not the old file (`HostProtocol.DecideMeaning`). The installer itself never produces one.
- An exception between receipt and committed marker makes the installer undo a transaction
  that has a receipt. If it is killed meanwhile, every later recovery refuses, exactly when a
  target had moved and the rolled-back marker was not yet written
  (`HostInstaller.Host.FailAfterReceipt`, reached by `HostProtocol.LateUndoRefused`).
- A ready bill of materials can fail to issue: with one line per item exactly when some line
  lacks more than 1e-9 and at most half a grid step (`ErpPlanning.FreshOrderExactly`, input
  `ErpPlanning.OffGridFails`), and with two lines of one item when they are ready one by one
  but not together (`ErpPlanning.RepeatedItemFails`; `ErpPlanning.DrawExactly` has the exact
  condition for any lines and balances).
- Issuing again moves a finished work order away from its finished status
  (`ErpPlanning.IssueAfterDone`); `ErpPlanning.CallRepeatedly` says exactly when the status
  says done.
- The balance after a count need not equal the count (`Erp.CountCanMiss`);
  `Erp.CountExactly` has the exact condition.
- A document whose total is off whole cents can be overpaid or never settle
  (`ErpTables.OffCents`), exactly as `ErpTables.OverpaidExactly` and
  `ErpTables.SettlesExactly` say.
- A payment can be recorded without reducing the balance (`ErpTables.TinyPaymentVanishes`),
  exactly as `ErpTables.VanishesExactly` says.
- An exception out of the start's wait after the handler thread has started frees its slot
  twice (`RequestSlots.ConservedExactlyWhenQuiet`). If it is an ordinary one the accept loop
  goes on and admits a request too many; an interrupt ends the loop.
- The temporary file of a killed pin installer blocks every later run
  (`PinPublication.LeftoverBlocks`); `PinPublication.SharedDirectory.Install` says exactly
  when a run fails.
- A root written with two leading slashes escapes the overlap comparison
  (`RootPaths.AnchorsExactly`). The control plane's templates never contain one.
- Units are compared without case outside ohm, so a prefix loses its meaning where case
  carries it: megawatt reads as milliwatt (`Quantities.MegaReadsAsMilli`).
  `Quantities.MetricExactly` says exactly which units keep their meaning.
- Beyond 28 significant digits different quantities share a text (`Decimals.TextReadsBack`).

## Model

| member | source | states |
|---|---|---|
| `HostInstaller.Host.InstallUnderCrashes` | chenyida_erp_site/scripts/install-monitoring-host-delivery.py:1260-1405 | crash atomicity: an install killed after any write, any number of recoveries killed after any write, then one left alone: the ten targets are all as they were (no new receipt, every unfinished transaction rolled back only) or all as requested (one new receipt, committed only); an install that returned is always the latter; no recovery rejects, and the last one completes whenever its own service commands succeed, whatever failed in the runs before |
| `HostInstaller.Host.Lifetimes` | chenyida_erp_site/scripts/install-monitoring-host-delivery.py:1260-1405 | over any sequence of runs each killed anywhere, every disk state ever passed through satisfies the invariant (one open transaction at most, unbroken activation chain) and every write either leaves the logical contents alone or is a commit point |
| `HostInstaller.Host.Install` | chenyida_erp_site/scripts/install-monitoring-host-delivery.py:1276-1405 | one run changes the logical contents in a single state of its trace or not at all; a refusal or a repeated request changes nothing; success means the disk holds exactly the request, field by field of the active record and bytes, owner and mode of every target, with its receipt, and it continued from the installation before. Where nothing raises the outcome is exact, for installs and forward rollbacks alike: already committed exactly for valid inputs and a request that is there already, installed (or refused for a file that cannot be backed up) exactly for valid inputs and a request that continues from the installation; a rollback must name an activation that took effect, with its bundle and runtime; on any run failure is reported exactly when a command or other step failed |
| `HostInstaller.Host.InstallAgain` | chenyida_erp_site/scripts/install-monitoring-host-delivery.py:1276-1405 | an installation, then the same request once more: the second run answers that it is already committed and leaves the installation as it is |
| `HostProtocol.InstalledIsStable` | chenyida_erp_site/scripts/install-monitoring-host-delivery.py:1298-1319 | what a request installed is recognised when the request comes again |
| `HostProtocol.StableExactly` | chenyida_erp_site/scripts/install-monitoring-host-delivery.py:1298-1319 | the comparison accepts exactly the record the request itself would write at the record's time |
| `HostProtocol.TerminalExactly` | chenyida_erp_site/scripts/install-monitoring-host-delivery.py:1041-1064 | the checks on a finished transaction accept exactly an untouched rollback marker, or a receipt of the journal with its marker and the recorded or active activation; both markers at once are ambiguous, anything else invalid |
| `HostProtocol.FinalizeExactly` | chenyida_erp_site/scripts/install-monitoring-host-delivery.py:999-1018 | an interrupted commit can be finished exactly when every target holds its new file, the active record is the journal's and the receipt is the journal's own |
| `HostProtocol.ProofExactly` | chenyida_erp_site/scripts/install-monitoring-host-delivery.py:976-996 | a committed marker proves an activation exactly when it is the transaction's only one, names the receipt on disk and that is the journal's own and agrees with the activation |
| `HostRecords.MatchingReceipt` | chenyida_erp_site/scripts/install-monitoring-host-delivery.py:966-973 | a receipt matches a journal exactly when each of its fields is the one the journal and the activation give |
| `HostProtocol.TargetOkExactly` | chenyida_erp_site/scripts/install-monitoring-host-delivery.py:1283-1295 | the rollback check on the recovered records is exactly that |
| `HostProtocol.RecordedExactly` | chenyida_erp_site/scripts/install-monitoring-host-delivery.py:1037-1064 | at rest the recorded activations are exactly those of the transactions with a receipt |
| `HostInstaller.Host.Execute` | chenyida_erp_site/scripts/install-monitoring-host-delivery.py:1350-1402 | an opened transaction ends committed as a whole or undone as a whole; the run reports failure exactly when a step of it failed |
| `HostInstaller.Host.Prepare` | chenyida_erp_site/scripts/install-monitoring-host-delivery.py:1350-1373 | backups and the prepared journal do not change what the disk stands for; the journal is fresh, sound and proposes the head's successor; it fails exactly for a file with a foreign owner or mode or another file under the name of its backup |
| `HostInstaller.Host.SnapshotFile` | chenyida_erp_site/scripts/install-monitoring-host-delivery.py:884-889 | a snapshot is true of the file and its backup is in place, earlier backups untouched; it fails exactly for a foreign owner or mode or other bytes under the backup's name |
| `HostInstaller.Host.SnapshotTargets` | chenyida_erp_site/scripts/install-monitoring-host-delivery.py:1355-1361 | all ten snapshots are true at once when the loop ends |
| `HostInstaller.Host.ApplyChanges` | chenyida_erp_site/scripts/install-monitoring-host-delivery.py:1375-1388 | replacing targets one by one, stopped anywhere, keeps every state sound and leaves the logical contents as before the transaction |
| `HostInstaller.Host.ReplaceTarget` | chenyida_erp_site/scripts/install-monitoring-host-delivery.py:1381-1387 | one target gets its new file, or a step fails and nothing moves |
| `HostInstaller.Host.CommitTransaction` | chenyida_erp_site/scripts/install-monitoring-host-delivery.py:1390-1396 | the receipt is the commit point; marker and activation record follow and leave nothing to recover |
| `HostInstaller.Host.CheckRollbackTarget` | chenyida_erp_site/scripts/install-monitoring-host-delivery.py:1283-1295 | a forward rollback is let through exactly when it names a recorded activation with the requested bundle and runtime; that activation was always committed |
| `HostInstaller.Host.Reaffirm` | chenyida_erp_site/scripts/install-monitoring-host-delivery.py:1344-1350 | a repeated request leaves targets alone and the record present, and is answered so exactly when no command failed |
| `HostInstaller.Host.AssertActivationWasCommitted` | chenyida_erp_site/scripts/install-monitoring-host-delivery.py:976-996 | accepts an activation exactly when some committed transaction installed it |
| `HostInstaller.Host.Recover` | chenyida_erp_site/scripts/install-monitoring-host-delivery.py:1025-1067 | recovery, in any order of journals, keeps the logical contents, never rejects a disk the installer produced, and when it finishes, as it does where the service commands succeed, leaves no open transaction and no missing record |
| `HostInstaller.Host.RecoverOpen` | chenyida_erp_site/scripts/install-monitoring-host-delivery.py:1065-1067 | an open transaction with a receipt ends committed at its new files, one without ends rolled back at its old files |
| `HostInstaller.Host.RecoverTerminal` | chenyida_erp_site/scripts/install-monitoring-host-delivery.py:1041-1064 | checks on a finished transaction pass and the record it may owe is written |
| `HostInstaller.Host.FinalizeRecoveredCommit` | chenyida_erp_site/scripts/install-monitoring-host-delivery.py:999-1022 | finishes exactly the transactions with a receipt; its checks cannot fail |
| `HostInstaller.Host.RollbackTransaction` | chenyida_erp_site/scripts/install-monitoring-host-delivery.py:951-963 | from targets that each hold their old or new file, with a receipt or without: every state is one of the undo or the finished rollback; done means all targets are back and the marker is written |
| `HostInstaller.Host.RollbackOpen` | chenyida_erp_site/scripts/install-monitoring-host-delivery.py:951-963 | without a receipt every state of it is sound and stands for the old contents |
| `HostInstaller.Host.RestoreTransaction` | chenyida_erp_site/scripts/install-monitoring-host-delivery.py:907-948 | on any disk: refused exactly when some target may not be touched or its backup is missing or wrong; otherwise a mixture of old bytes and new mode stays and every other target is back, so all are back exactly when there was no mixture; nothing but targets moves, and those only back to their old files |
| `HostProtocol.SettledExactly` | chenyida_erp_site/scripts/install-monitoring-host-delivery.py:917-942 | a target the undo dealt with is at its old file exactly when it was no such mixture |
| `HostInstaller.Host.RestoreTarget` | chenyida_erp_site/scripts/install-monitoring-host-delivery.py:917-942 | one target is put back, left or refused, no other touched |
| `HostInstaller.Host.RestoreRepeatedly` | chenyida_erp_site/scripts/install-monitoring-host-delivery.py:907-948 | restartable undo on any disk: cut short after any write and run again any number of times it refuses exactly when the first attempt would, and otherwise settles every target as one undo would; from targets that each hold their old or new file it never refuses and ends with every target at its old file, with a receipt or without; on a sound disk without a receipt the logical contents stay |
| `HostProtocol.UndoDecides` | chenyida_erp_site/scripts/install-monitoring-host-delivery.py:907-942 | cutting an undo short changes no later decision between refusing and not |
| `HostProtocol.UndoneInParts` | chenyida_erp_site/scripts/install-monitoring-host-delivery.py:907-948 | the last of several undos, each cut short, has done what one undo does |
| `HostInstaller.Host.FailAfterReceipt` | chenyida_erp_site/scripts/install-monitoring-host-delivery.py:951-1067 | an exception between receipt and committed marker, the undo it starts killed after any write, then any number of recoveries: all refuse exactly when the kill came after a target had moved and before the rolled-back marker; otherwise the transaction ends committed, if nothing had moved, or rolled back |
| `HostProtocol.LateUndoExactly` | chenyida_erp_site/scripts/install-monitoring-host-delivery.py:999-1022 | the same of one disk and the checks recovery makes on it |
| `HostProtocol.LateUndoRefused` | chenyida_erp_site/scripts/install-monitoring-host-delivery.py:999-1008 | such a disk can be reached wherever the transaction changed a target |
| `HostProtocol.CameToRest` | chenyida_erp_site/scripts/install-monitoring-host-delivery.py:1260-1405 | from whatever a kill left, the state that comes to rest is all or nothing |
| `HostInstaller.Host.WriteNewFile` | chenyida_erp_site/scripts/install-monitoring-host-delivery.py:206-245 | a name taken by other contents is a collision and nothing is written; otherwise exactly one write happens |
| `HostProtocol.CollidesExactly` | chenyida_erp_site/scripts/install-monitoring-host-delivery.py:236-245 | a write is a collision exactly when it would change a file that is not a target |
| `HostProtocol.DecideMeaning` | chenyida_erp_site/scripts/install-monitoring-host-delivery.py:919-942 | a present file is refused exactly when it is neither the old file, the new file nor the old bytes under the new owner and mode; that mixture alone is kept although it is not the old file; what was there is put back from its backup, or refused exactly when that is missing or wrong, and what was not is deleted exactly when the new file is there |
| `HostProtocol.MixtureIsKept` | chenyida_erp_site/scripts/install-monitoring-host-delivery.py:919-933 | an input that shows it: a launcher with old bytes under the new mode is kept |
| `HostProtocol.CrashPoint` | chenyida_erp_site/scripts/install-monitoring-host-delivery.py:1373-1396 | the state a killed run leaves tells by its position which contents the disk stands for and whether a receipt was added |
| `HostProtocol.QuietWrite` | chenyida_erp_site/scripts/install-monitoring-host-delivery.py:1390-1390 | between sound states with the same logical contents no receipt can appear |
| `HostProtocol.SteadyReceipts` | chenyida_erp_site/scripts/install-monitoring-host-delivery.py:1373-1396 | along any stretch of such states the set of receipts is constant |
| `HostProtocol.RunLawful` | chenyida_erp_site/scripts/install-monitoring-host-delivery.py:1276-1405 | a whole run consists of lawful writes |
| `HostProtocol.NothingRefused` | chenyida_erp_site/scripts/install-monitoring-host-delivery.py:919-942 | an undo never meets a file it has to refuse, nor a mixture, where each target holds its old or new file |
| `HostProtocol.TerminalAccepted` | chenyida_erp_site/scripts/install-monitoring-host-delivery.py:1041-1064 | the terminal checks accept every finished transaction a sound disk can hold |
| `HostProtocol.CommitAccepted` | chenyida_erp_site/scripts/install-monitoring-host-delivery.py:1003-1018 | the checks before finishing an interrupted commit accept every such disk |
| `HostProtocol.CommitProof` | chenyida_erp_site/scripts/install-monitoring-host-delivery.py:976-996 | a sound disk holds a commit proof for exactly the committed activations, and only one each |
| `HostProtocol.JournalOpens` | chenyida_erp_site/scripts/install-monitoring-host-delivery.py:1354-1373 | the journal built from true snapshots opens a sound transaction |
| `HostProtocol.RestMarkers` | chenyida_erp_site/scripts/install-monitoring-host-delivery.py:1037-1064 | at rest a transaction is committed exactly when it has a receipt and rolled back exactly when it has none |
| `HostInvariant.PrepareKeeps` | chenyida_erp_site/scripts/install-monitoring-host-delivery.py:1373-1373 | opening a transaction keeps the invariant and the logical contents |
| `HostInvariant.ReplaceKeeps` | chenyida_erp_site/scripts/install-monitoring-host-delivery.py:1381-1387 | moving targets between old and new files keeps both |
| `HostInvariant.ReceiptKeeps` | chenyida_erp_site/scripts/install-monitoring-host-delivery.py:1390-1390 | the receipt keeps the invariant and switches the logical contents to all new files at once |
| `HostInvariant.CommitKeeps` | chenyida_erp_site/scripts/install-monitoring-host-delivery.py:1391-1392 | the committed marker keeps both and closes the transaction |
| `HostInvariant.RollbackKeeps` | chenyida_erp_site/scripts/install-monitoring-host-delivery.py:962-963 | the rolled-back marker keeps both once all targets are back |
| `HostInvariant.RecordKeeps` | chenyida_erp_site/scripts/install-monitoring-host-delivery.py:1394-1394 | the activation record keeps both and settles what the commit owed |
| `HostInvariant.BackupKeeps` | chenyida_erp_site/scripts/install-monitoring-host-delivery.py:888-888 | a backup of a transaction not yet opened keeps both |
| `HostInvariant.GenerationIsChainLength` | chenyida_erp_site/scripts/install-monitoring-host-delivery.py:1316-1323 | the active record's generation equals the number of predecessors on its chain back to the zero digest, itself included |
| `HostInvariant.AtMostOneOpen` | chenyida_erp_site/scripts/install-monitoring-host-delivery.py:1025-1067 | at most one prepared journal lacks a terminal marker |
| `HostInvariant.ChainLengthUnique` | chenyida_erp_site/scripts/install-monitoring-host-delivery.py:1316-1323 | a digest has one chain length |
| `HostInvariant.SettledHistory` | chenyida_erp_site/scripts/install-monitoring-host-delivery.py:1025-1067 | with nothing left to do, committed means receipt, each generation was installed by one transaction, and the targets are the newest one's files |
| `DeliveryLedger.PendingDeliveryEnvelopes` | chenyida_erp_site/scripts/install-monitoring-host-delivery.py:580-650 | accepts exactly the sound ledgers and returns exactly the events without an acknowledgement; sound: every record carries its own event and a number in range, grants are for the event's envelope, identifiers are unique, and behind every acknowledgement stands one delivery, granted, claimed, attempted and answered by a verified remote acknowledgement with a response, with one envelope, number, target and key throughout |
| `DeliveryLedger.SoundExactly` | chenyida_erp_site/scripts/install-monitoring-host-delivery.py:580-650 | the checks of the ledger accept exactly the sound ones |
| `DeliveryLedger.EvidenceExactly` | chenyida_erp_site/scripts/install-monitoring-host-delivery.py:560-577 | the comparisons behind an acknowledgement hold exactly for such a delivery |
| `DeliveryLedger.PendingExactly` | chenyida_erp_site/scripts/install-monitoring-host-delivery.py:650-650 | an envelope is returned exactly when no acknowledgement names its event |
| `DeliveryLedger.PendingSorted` | chenyida_erp_site/scripts/install-monitoring-host-delivery.py:650-650 | the returned events come in name order without repeats |
| `DeliveryLedger.AckIsOrdered` | chenyida_erp_site/scripts/install-monitoring-host-delivery.py:560-577 | behind every accepted acknowledgement: granted no later than claimed, claimed when prepared, prepared no later than recorded, one event throughout |
| `DeliveryLedger.AcksAreIndependent` | chenyida_erp_site/scripts/install-monitoring-host-delivery.py:560-577 | acknowledgements of different events rest on different claims, attempts and results |
| `DeliveryLedger.BackingIsUnique` | chenyida_erp_site/scripts/install-monitoring-host-delivery.py:560-577 | the records behind an acknowledgement are unique |
| `DeliveryLedger.ProvenExactly` | chenyida_erp_site/scripts/install-monitoring-host-delivery.py:560-577 | the dictionary lookups find a proof exactly when the directories hold one |
| `DeliveryLedger.AcksProven` | chenyida_erp_site/scripts/install-monitoring-host-delivery.py:638-649 | the acknowledgement loop accepts exactly when all are proven |
| `DeliveryLedger.RotationSafe` | chenyida_erp_site/scripts/install-monitoring-host-delivery.py:653-659 | a changed target passes exactly when the ledger is sound in that sense and every event in it is acknowledged |
| `ImportGraph.Acyclic` | chenyida_erp_site/scripts/isolated-uat-action-source-closure-contracts.py:723-743 | true exactly when no walk along the edges returns to its start |
| `ImportGraph.DepthFirst.Visit` | chenyida_erp_site/scripts/isolated-uat-action-source-closure-contracts.py:731-741 | a visit that fails has closed a cycle; one that succeeds finishes the node below all it leads to; recursion terminates |
| `ImportGraph.Closure` | chenyida_erp_site/scripts/isolated-uat-action-source-closure-contracts.py:754-762 | the worklist ends with exactly the reachable nodes, and meets a missing row exactly when a reachable node has none |
| `ImportGraph.ValidateReachability` | chenyida_erp_site/scripts/isolated-uat-action-source-closure-contracts.py:746-764 | accepts exactly when the roots reach the members and nothing else and the imports have no cycle; the missing-key outcome is characterised too |
| `ImportGraph.BuildGraph` | chenyida_erp_site/scripts/isolated-uat-action-source-closure-contracts.py:724-727 | the adjacency map holds the edges, no others, and a row for every endpoint |
| `Walks.ReachableLeast` | chenyida_erp_site/scripts/isolated-uat-action-source-closure-contracts.py:754-762 | the reachable nodes are the least set holding the roots and closed under the edges |
| `Walks.BackEdge` | chenyida_erp_site/scripts/isolated-uat-action-source-closure-contracts.py:732-733 | stepping back onto the current walk closes a cycle |
| `Walks.RankedIsAcyclic` | chenyida_erp_site/scripts/isolated-uat-action-source-closure-contracts.py:739-741 | a finish order in which every edge leads to an earlier node leaves no cycle |
| `ActionCatalog.ReconstructCatalog` | chenyida_erp_site/scripts/isolated-uat-action-source-closure-contracts.py:472-505 | of the parsed bindings accepts exactly the nine expected actions in order, with valid paths and no repeats, extensions that each name an action, valid paths and nothing already listed, and 54 references in all; then each action holds its base and all its additions in order |
| `ActionCatalog.BaseCatalog` | chenyida_erp_site/scripts/isolated-uat-action-source-closure-contracts.py:472-487 | the base list is accepted exactly when it is the nine expected actions with distinct valid paths |
| `ActionCatalog.ExtendCatalog` | chenyida_erp_site/scripts/isolated-uat-action-source-closure-contracts.py:488-502 | the extending loop accepts exactly the extensions that are each acceptable when their turn comes |
| `ActionCatalog.TotalExtended` | chenyida_erp_site/scripts/isolated-uat-action-source-closure-contracts.py:503-503 | every reference of a base list or an extension is one reference of the rebuilt lists |
| `ActionCatalog.DistinctByCount` | chenyida_erp_site/scripts/isolated-uat-action-source-closure-contracts.py:481-481 | as many members as entries means no repeats |
| `ActionCatalog.DistinctExactly` | chenyida_erp_site/scripts/isolated-uat-action-source-closure-contracts.py:495-502 | what the loop's own check leaves to its input, which the digests fix: the list it builds has no repeated path exactly when no single extension repeats one |
| `DependencyClosure.Closure` | chenyida_erp_site/scripts/application-authorization-matrix.ts:80-101 | a sorted list without repeats of exactly the files reachable over resolvable imports; fails exactly when a root cannot be read; terminates although files may wait several times |
| `DependencyClosure.PushImports` | chenyida_erp_site/scripts/application-authorization-matrix.ts:90-93 | pushes exactly the resolvable imports not yet visited |
| `DependencyClosure.FirstUsable` | chenyida_erp_site/scripts/application-authorization-matrix.ts:77-77 | the first option that lies under the library and can be read, none exactly when there is none |
| `DependencyClosure.ResolveExactly` | chenyida_erp_site/scripts/application-authorization-matrix.ts:73-78 | what an import resolves to: nothing unless relative; with an extension the path itself; otherwise the TypeScript file before the index of the directory; always only under the library and readable |
| `DependencyClosure.ExtensionExactly` | chenyida_erp_site/scripts/application-authorization-matrix.ts:76-76 | an extension is a dot inside the last segment, not at its start |
| `DependencyClosure.Insert` | chenyida_erp_site/scripts/application-authorization-matrix.ts:95-95 | sorting keeps the elements and the strict order |
| `ErpStock.ChangeKeeps` | chenyida_erp_app/server.py:1906-1931 | a booked change keeps the ledger chained and is refused exactly when the rounded balance would be negative |
| `ErpStock.ReceiveKeeps` | chenyida_erp_app/server.py:1846-1877 | an unrounded receipt keeps it too |
| `ErpStock.BalanceNotNegative` | chenyida_erp_app/server.py:1911-1911 | on-hand is never below zero despite the tolerance |
| `ErpStock.NotNegative` | chenyida_erp_app/server.py:1910-1912 | the tolerance never lets a negative rounded balance through; what is refused is exactly a shortfall of more than half a grid step |
| `ErpStock.NextRow` | chenyida_erp_app/server.py:1909-1930 | a transaction of an item starts where the item's previous one ended |
| `ErpStock.FirstRow` | chenyida_erp_app/server.py:1909-1930 | an item's first transaction starts at the opening balance |
| `ErpStock.LastRow` | chenyida_erp_app/server.py:1909-1930 | an item's last transaction ends at what is on hand |
| `ErpStock.DriftIsBounded` | chenyida_erp_app/server.py:1906-1931 | on-hand differs from opening plus movements by at most half a grid step for each rounded row |
| `ErpStock.NoDriftExactly` | chenyida_erp_app/server.py:1906-1931 | it is exact after every row exactly when rounding moved no row |
| `ErpStock.StraysExactly` | chenyida_erp_app/server.py:1910-1910 | rounding moves a row exactly when it books a rounded change onto an off-grid sum |
| `ErpStock.GridHasNoDrift` | chenyida_erp_app/server.py:1906-1931 | with all quantities on the 0.000001 grid there is no drift |
| `Erp.Server.constructor` | chenyida_erp_app/server.py:863-868 | an opening stock without negative balances satisfies the invariant |
| `Erp.Server.CreateInventoryAdjustment` | chenyida_erp_app/server.py:1753-1794 | fails only for an unknown item, a negative count or a code in use; otherwise the balance is within one grid step of the count, and equal to it exactly when the count is on the 0.000001 grid and the old balance is not halfway between two grid values or the count is an even one |
| `Erp.CountFacts` | chenyida_erp_app/server.py:1764-1764 | the two roundings of a count stray by at most one step, by half a step from a grid balance, and never below zero |
| `Erp.CountExactly` | chenyida_erp_app/server.py:1764-1764 | they give the count back exactly under that condition, for all balances and counts |
| `Rounding.HalfEvenArrives` | chenyida_erp_app/server.py:1764-1764 | the same on whole steps: rounding the way and then the arrival |
| `Erp.CountCanMiss` | chenyida_erp_app/server.py:1764-1764 | an input that misses: half a step on hand and a count of one step |
| `Erp.Server.CreatePurchaseOrdersFromShortage` | chenyida_erp_app/server.py:1681-1714 | succeeds exactly when the codes of the orders are new and distinct: then one order for each supplier with exactly the short lines, each for the rounded quantity per unit times order times one plus loss rate, less what is on hand and not reserved; all invariants kept; otherwise nothing |
| `ErpPurchasing.OrdersWhatIsLacking` | chenyida_erp_app/server.py:1603-1714 | every new order line is for what some BOM line lacks, and all that is lacked is ordered |
| `ErpPurchasing.ShortageExactly` | chenyida_erp_app/server.py:1610-1614 | a line is short of an amount exactly when the rounded demand less the available balance rounds to it |
| `ErpPurchasing.RequiredExactly` | chenyida_erp_app/server.py:1610-1610 | what a line requires is its demand, losses included, rounded to the grid |
| `Rounding.RoundedExactly` | chenyida_erp_app/server.py:1610-1610 | rounding gives exactly the grid value within half a step, the even one on a tie |
| `ErpPurchasing.OrderedIsSuggested` | chenyida_erp_app/server.py:1681-1714 | over all new orders each item is ordered for exactly its shortage: grouping loses, doubles and changes nothing |
| `ErpPurchasing.SuggestionsExactly` | chenyida_erp_app/server.py:1650-1672 | a suggestion exists exactly for the short lines and carries their shortage |
| `ErpPurchasing.OrderLinesSound` | chenyida_erp_app/server.py:1697-1709 | every order line is a suggestion of its own order's supplier |
| `ErpPurchasing.SuppliersDistinct` | chenyida_erp_app/server.py:1683-1685 | every supplier of a suggestion gets exactly one order |
| `Erp.GroupBySupplier` | chenyida_erp_app/server.py:1683-1685 | the dictionary of suppliers holds each supplier's suggestions in order |
| `Erp.Server.ReceivePurchaseLine` | chenyida_erp_app/server.py:1833-1882 | refused exactly for an unknown line, a quantity not above zero or above what is open; otherwise line, order header, stock and ledger change together; the header says received exactly when every line of the order does |
| `ErpTables.PurchaseReceives` | chenyida_erp_app/server.py:1860-1865 | received quantity stays exactly what the ledger booked from the line |
| `ErpTables.HeaderReceives` | chenyida_erp_app/server.py:1866-1872 | an order is marked received exactly when all its lines are |
| `Erp.Server.CreateWorkOrderFromBom` | chenyida_erp_app/server.py:1940-1980 | fails exactly for a missing or empty BOM or a quantity not above zero; otherwise each BOM line becomes one material line for its quantity per unit times the order times one plus the loss rate, rounded |
| `Erp.Server.IssueWorkOrderMaterials` | chenyida_erp_app/server.py:2045-2078 | issues everything still needed or, if any line is short or any booking fails, nothing at all |
| `Erp.Server.DrawMaterials` | chenyida_erp_app/server.py:2062-2073 | the issuing loop takes exactly the needs out of stock and marks exactly their lines, the invariant holding after every line |
| `Erp.NeedsExactly` | chenyida_erp_app/server.py:2052-2061 | what a work order needs are exactly the required quantities of its lines not yet issued |
| `Erp.MarkedExactly` | chenyida_erp_app/server.py:2066-2070 | issuing marks each line of the order that requires anything, and no other |
| `Erp.DrawBooks` | chenyida_erp_app/server.py:2062-2066 | one issue row of the order for each need, in order, for exactly its item and quantity |
| `Erp.Server.CompleteWorkOrder` | chenyida_erp_app/server.py:2081-2116 | accepted exactly for a fully supplied order within its open quantity; report, stock, ledger and order change together |
| `Erp.Server.ShipSalesOrder` | chenyida_erp_app/server.py:2256-2286 | accepted exactly within the open quantity and the stock; shipment, stock, ledger and order change together |
| `Erp.Server.CreateSalesOrder` | chenyida_erp_app/server.py:2214-2253 | accepted exactly for a known product, a named customer, a positive quantity, links to a BOM and a work order of that product and a new code; starts with nothing shipped |
| `Erp.Server.CreateFinancialDocument` | chenyida_erp_app/server.py:2888-2926 | accepted exactly for the two document types, a positive amount, a named source that has no document of the type yet and a new code; nothing paid yet |
| `Erp.Server.CreateFinancialPayment` | chenyida_erp_app/server.py:2976-3019 | accepted exactly for the document's own kind within the open balance and a new code; the paid amount grows by exactly the payment exactly when that is in whole cents, and not at all exactly when it is below half a cent or half a cent onto an even one |
| `ErpTables.WorkOrderTotals` | chenyida_erp_app/server.py:2045-2116 | over all runs: never over-completed, completed equals the sum of reports and of what entered stock, done only when complete, nothing completed before every line is issued, each line issued in full and once or not at all, issues equal what left the stock |
| `ErpTables.SalesOrderTotals` | chenyida_erp_app/server.py:2256-2286 | over all runs: never over-shipped, shipped equals the sum of shipments and of what left the stock |
| `ErpTables.DocumentTotals` | chenyida_erp_app/server.py:2976-3019 | over all runs: never paid beyond the total rounded to cents; with a total in whole cents never overpaid and settled exactly when paid in full; with payments in whole cents paid equals their sum; no two documents of a type have one source |
| `ErpTables.OverpaidExactly` | chenyida_erp_app/server.py:2988-3011 | some payment the balance check lets through overpays a document exactly when its total, rounded to cents, lies above it |
| `ErpTables.SettlesExactly` | chenyida_erp_app/server.py:2988-3011 | some such payment settles it exactly when its total, rounded to cents, reaches it up to the tolerance and is not zero |
| `ErpTables.OffCents` | chenyida_erp_app/server.py:2988-3010 | inputs off whole cents: a total of 1.006 can be overpaid, one of 1.004 never settled |
| `ErpTables.ProgressAdvances` | chenyida_erp_app/server.py:2098-2109 | booking a report within the open quantity keeps total, bound and drift |
| `ErpTables.PaidAdvances` | chenyida_erp_app/server.py:3010-3015 | the same for a payment; exact exactly in whole cents |
| `ErpTables.VanishesExactly` | chenyida_erp_app/server.py:3010-3010 | for all paid amounts in cents: a payment leaves the paid amount unchanged exactly when it is below half a cent, or half a cent onto an even number of cents |
| `ErpTables.VanishingAccepted` | chenyida_erp_app/server.py:2988-2992 | every such payment passes the balance check exactly while at least half a cent, up to the tolerance, is still to pay; with a total in whole cents, while anything is |
| `ErpTables.TinyPaymentVanishes` | chenyida_erp_app/server.py:2988-3010 | an input: 0.004 on an unpaid total of 1.00 |
| `ErpTables.MaterialIssued` | chenyida_erp_app/server.py:2066-2070 | issuing a line keeps the issued sums equal to the ledger |
| `ErpPlanning.OrderAndReceive` | chenyida_erp_app/server.py:1603-1714 | where the order codes are free, after the shortage orders are received in full, in any pieces and any order, the BOM is ready, on the grid or off it; on the grid being marked as received is enough |
| `ErpPlanning.BuildFromStock` | chenyida_erp_app/server.py:1940-2078 | from any stock with one line per item: the order is created, and issued in full exactly when no line lacks more than the 1e-9 tolerance; a ready BOM is refused exactly when some line lacks more than that and at most half a grid step |
| `ErpPlanning.FreshOrderExactly` | chenyida_erp_app/server.py:2052-2073 | the two checks compared for all balances |
| `ErpPlanning.LineReadyExactly` | chenyida_erp_app/server.py:1612-1616 | a line is ready exactly when it lacks at most half a grid step |
| `ErpPlanning.GridHasNoGap` | chenyida_erp_app/server.py:1612-1616 | with the balance on the grid the two checks agree |
| `ErpPlanning.FreshNeedsExactly` | chenyida_erp_app/server.py:1955-1975 | a fresh order needs exactly what those BOM lines require that require anything |
| `ErpPlanning.OneLineExactly` | chenyida_erp_app/server.py:2052-2073 | with one need per item the drawing loop never stops where the first check passed |
| `ErpPlanning.OrderReceiveBuild` | chenyida_erp_app/server.py:1603-2078 | end to end: order the shortage, receive it, create the work order and issue it; it is built exactly when the order codes are free and the new lines are all received |
| `ErpPlanning.ReceivedMeansReady` | chenyida_erp_app/server.py:1603-1623 | received shortages make every line ready |
| `ErpPlanning.ShortageCovered` | chenyida_erp_app/server.py:1611-1614 | a shortage covered by its rounded amount is gone even off the grid |
| `ErpPlanning.IssueExactly` | chenyida_erp_app/server.py:2052-2073 | issuing succeeds exactly when every line passes the first check and every item can be drawn; on the grid exactly when for every item the lines together need no more than is on hand |
| `ErpPlanning.DrawExactly` | chenyida_erp_app/server.py:2063-2073 | for all balances and any repeated items: the loop succeeds exactly when for every item the total need is at most the rounded balance after its first need plus that need |
| `ErpPlanning.CallRepeatedly` | chenyida_erp_app/server.py:2045-2116 | any calls on a work order, with every state between them: each is accepted exactly when its own condition holds in the state it meets, and in the end the order says done exactly when the last accepted one was a completion that reached the ordered quantity; if none was accepted nothing changed |
| `ErpPlanning.CallWorkOrder` | chenyida_erp_app/server.py:2045-2116 | one call: its acceptance, what an accepted one does to the order and its status, and that a refused one does nothing |
| `ErpPlanning.IssueAfterDone` | chenyida_erp_app/server.py:2045-2116 | an order completed in full and issued again: nothing moves, the quantity stays reached, the status no longer says done |
| `ErpPlanning.RepeatedItemFails` | chenyida_erp_app/server.py:2052-2073 | two lines of one item can be ready one by one and yet fail to issue |
| `ErpPlanning.OffGridFails` | chenyida_erp_app/server.py:1612-1616 | an input in that gap: 0.9999996 on hand for a need of 1 |
| `RequestSlots.SlotsAreConserved` | chenyida_erp_app/server.py:3841-3857 | free plus held slots is the maximum, no slot is given back twice or untaken, a request turned away held none, in every interleaving without an exception after the thread has started |
| `RequestSlots.ConservedExactlyWhenQuiet` | chenyida_erp_app/server.py:3841-3857 | the slots add up at every moment exactly when no exception reaches the server thread between the start of a handler and the return from starting it |
| `RequestSlots.AdmittedExactly` | chenyida_erp_app/server.py:3841-3845 | a waiting request gets in exactly while fewer requests than slots are held |
| `RequestSlots.SlotReturns` | chenyida_erp_app/server.py:3853-3857 | every held slot comes back when its request's handler ends |
| `RequestSlots.SlotsStay` | chenyida_erp_app/server.py:3832-3857 | the free slots stay within the maximum in every interleaving, late exceptions included |
| `RequestSlots.LateRaiseAdmitsTwo` | chenyida_erp_app/server.py:3847-3851 | such an exception, if an ordinary one that leaves the accept loop running, lets a second request in beside the first where there is one slot |
| `SpecificationTokens.ExtractTokens` | chenyida_erp_app/specification_tokens.py:299-556 | the result is everything found without repeats, the given or inferred category in front; no token twice, at most one category. A category nobody gave is CAP, RES or IND exactly when the result has that passive value alone, else CON exactly when it has an interface and pins or a pitch, else none |
| `SpecificationTokens.InferredByTokens` | chenyida_erp_app/specification_tokens.py:529-545 | that condition, on the tokens of the result |
| `SpecificationTokens.OverlapExactly` | chenyida_erp_app/specification_tokens.py:295-296 | two matches overlap exactly when they share a character |
| `SpecificationTokens.ClaimExactly` | chenyida_erp_app/specification_tokens.py:330-518 | a match of a later pass is claimed exactly when it holds a token and misses every span claimed by earlier passes; the first pass claims all its tokens |
| `SpecificationTokens.ClaimsDisjoint` | chenyida_erp_app/specification_tokens.py:295-518 | claimed spans are pairwise disjoint over all passes |
| `SpecificationTokens.RunPass` | chenyida_erp_app/specification_tokens.py:330-518 | checking against the growing list claims the same as checking against the earlier passes alone |
| `SpecificationTokens.LaterMisses` | chenyida_erp_app/specification_tokens.py:295-296 | a pass's own claims never stop its later matches |
| `SpecificationTokens.ExtractionIsPrioritised` | chenyida_erp_app/specification_tokens.py:299-556 | a match that misses the earlier claims reaches the result, one that does not is overlapped by an earlier claim, and a token of a kind that only claiming passes yield is in the result exactly when one of its matches was claimed |
| `SpecificationTokens.ClaimedExactly` | chenyida_erp_app/specification_tokens.py:299-556 | the last of these for one token |
| `SpecificationTokens.DedupeFacts` | chenyida_erp_app/specification_tokens.py:547-556 | removal of repeats keeps exactly the tokens, each once |
| `SpecificationTokens.FoundCategory` | chenyida_erp_app/specification_tokens.py:299-529 | no pass yields a category |
| `Quantities.QuantityExactly` | chenyida_erp_app/specification_tokens.py:240-283 | two number and unit pairs of one base unit get the same text exactly when the code reads the same amount from them, and the text reads back as it, for up to 28 significant digits; where no case is lost, exactly when they are the same amount in the metric system |
| `Quantities.NormalForm` | chenyida_erp_app/specification_tokens.py:278-283 | of any number and unit: understood exactly with its unit, of the unit's kind and base, and as text the shortest decimal of the amount at 28 digits, a blank and the base unit |
| `Quantities.MeaningExactly` | chenyida_erp_app/specification_tokens.py:240-283 | the text reads back as the metric amount exactly when the prefix's case is not lost or the number is zero |
| `Quantities.MetricExactly` | chenyida_erp_app/specification_tokens.py:240-275 | for every unit text that is understood: its exponent is the metric one exactly unless it has a capital P, a capital M outside ohm and hertz, or a small m before hertz |
| `Quantities.KindByBase` | chenyida_erp_app/specification_tokens.py:240-275 | kind and base unit determine each other |
| `Quantities.KindBySymbol` | chenyida_erp_app/specification_tokens.py:240-275 | the kind of a unit that is understood, by its last letter |
| `Quantities.BareLetters` | chenyida_erp_app/specification_tokens.py:240-275 | the units of one letter: kind, base and that each is understood, capitals only except for the ohm letters |
| `Quantities.BareWords` | chenyida_erp_app/specification_tokens.py:240-275 | ohm and hertz written out in any case |
| `Quantities.QuantityRounded` | chenyida_erp_app/specification_tokens.py:278-283 | the product is exact for such numbers and the second rounding changes nothing |
| `Quantities.PassiveUnits` | chenyida_erp_app/specification_tokens.py:240-249 | the exponents of farad and henry units are those of their metric prefixes |
| `Quantities.CurrentUnits` | chenyida_erp_app/specification_tokens.py:258-261 | the same for ampere |
| `Quantities.VoltageUnits` | chenyida_erp_app/specification_tokens.py:262-267 | the same for volt |
| `Quantities.PowerUnits` | chenyida_erp_app/specification_tokens.py:268-273 | the same for watt |
| `Quantities.ResistanceUnits` | chenyida_erp_app/specification_tokens.py:250-257 | the same for ohm, where the prefix keeps its case |
| `Quantities.FrequencyUnits` | chenyida_erp_app/specification_tokens.py:274-275 | the same for hertz |
| `Quantities.MegaReadsAsMilli` | chenyida_erp_app/specification_tokens.py:268-271 | an input: one megawatt and one milliwatt get the same text |
| `Decimals.ZeroText` | chenyida_erp_app/specification_tokens.py:231-237 | zero of either sign reads 0 |
| `Decimals.TextReadsBack` | chenyida_erp_app/specification_tokens.py:231-237 | the text reads back as the number rounded to 28 digits, as the number itself exactly when it has no more significant digits |
| `Decimals.TextExactly` | chenyida_erp_app/specification_tokens.py:231-237 | two numbers share a text exactly when they agree after rounding; negative zero is zero |
| `Decimals.TextIsShortest` | chenyida_erp_app/specification_tokens.py:231-237 | the text has no sign on zero, no needless zero before or after and no bare point; a sign exactly below zero |
| `Decimals.FixIsNearest` | chenyida_erp_app/specification_tokens.py:231-237 | a number of more than 28 digits is rounded to the nearest with 28, half to even |
| `Decimals.FixKeepsExactly` | chenyida_erp_app/specification_tokens.py:231-237 | rounding keeps the number exactly when it has at most 28 significant digits |
| `Decimals.CanonicalUnique` | chenyida_erp_app/specification_tokens.py:231-237 | equal numbers have one normal form |
| `Decimals.ReadFormat` | chenyida_erp_app/specification_tokens.py:231-237 | plain text reads back exactly |
| `Decimals.LongNumbersCollide` | chenyida_erp_app/specification_tokens.py:231-237 | beyond 28 digits different numbers share a text |
| `SpecificationMatching.CompareTokens` | chenyida_erp_app/specification_tokens.py:588-657 | full signature exactly when the source is eligible and both sides have equal values in every specification kind; by the token values, the lists hold exactly the kinds that agree, that one side lacks and that disagree, the identifier evidence exactly the mentioned ones of model and brand |
| `SpecificationMatching.ListsByValues` | chenyida_erp_app/specification_tokens.py:588-657 | which kinds are in which list |
| `SpecificationMatching.SimilarityExactly` | chenyida_erp_app/specification_tokens.py:599-634 | the raw similarity: zero where anything is disputed or nothing mentioned, otherwise the weight of what agrees in the weight of what is mentioned |
| `SpecificationMatching.ScoreExactly` | chenyida_erp_app/specification_tokens.py:588-634 | the score: that similarity by the strength of the evidence, at most one, to four decimals |
| `Rounding.FourExactly` | chenyida_erp_app/specification_tokens.py:646-647 | rounding to four decimals is to the nearest, half to even |
| `SpecificationMatching.WeightsExactly` | chenyida_erp_app/specification_tokens.py:183-216 | the kinds of each weight |
| `SpecificationMatching.SpecificationExactly` | chenyida_erp_app/specification_tokens.py:588-634 | equal specifications are equal token sets, part number and brand aside |
| `SpecificationMatching.TellingExactly` | chenyida_erp_app/specification_tokens.py:572-578 | which kinds tell parts apart |
| `SpecificationMatching.EligibleExactly` | chenyida_erp_app/specification_tokens.py:572-585 | eligible exactly with three telling kinds and one of the anchors |
| `SpecificationMatching.StrengthExactly` | chenyida_erp_app/specification_tokens.py:572-585 | the strength by the number of telling kinds |
| `SpecificationMatching.TokenMap` | chenyida_erp_app/specification_tokens.py:559-563 | a kind is present exactly when some token has it, with exactly its values |
| `SpecificationMatching.SameEvidence` | chenyida_erp_app/specification_tokens.py:572-585 | equal specifications carry equal evidence |
| `SpecificationMatching.FullScore` | chenyida_erp_app/specification_tokens.py:588-634 | a full signature scores exactly one |
| `SpecificationMatching.AutomaticExactly` | chenyida_erp_app/server.py:2455-2547 | an item is matched automatically exactly when the source is eligible and it is the only item with the source's specification |
| `SpecificationMatching.AnswerExactly` | chenyida_erp_app/server.py:2455-2547 | each answer in both directions, over all items: insufficient for fewer than two telling kinds; ambiguous for exactly so many items, above one, as complete as the best and within 1e-9 of its score of at least 0.55; suspected for an item that alone is best, not complete, with at least 0.55; new material where there is no item or the best is not complete and below 0.55; automatic as above |
| `SpecificationMatching.OrderIndependent` | chenyida_erp_app/server.py:2496-2515 | the answer does not depend on the order of the items |
| `SpecificationMatching.BestIsFirst` | chenyida_erp_app/server.py:2496-2505 | the head of the ranking is ahead of every other item |
| `SpecificationMatching.TiesExactly` | chenyida_erp_app/server.py:2508-2512 | the equally ranked are exactly the items tied with the head, each counted once |
| `PinPublication.PublicationIsSafe` | chenyida_erp_site/scripts/install-isolated-uat-pre-import-host-pin.py:362-508 | over every interleaving with crashes and failing calls: a pin once present never changes, one that appears holds the complete bytes, at most one run reports that it created it and only if it was missing, every successful report is true, a mismatch is reported only of a pin that was there from the start, and a run that returned left its temporary file behind only where it reports that removing it failed |
| `PinPublication.ReportsExactly` | chenyida_erp_site/scripts/install-isolated-uat-pre-import-host-pin.py:451-508 | in every interleaving a run put the pin in place exactly when it reports that it created it or that the directory could not be synced; only a kill or a failed cleanup leave it open |
| `PinPublication.PinNeverChanges` | chenyida_erp_site/scripts/install-isolated-uat-pre-import-host-pin.py:362-382 | no step of any run changes or removes a pin that is there |
| `PinPublication.RunKeeps` | chenyida_erp_site/scripts/install-isolated-uat-pre-import-host-pin.py:451-508 | every reachable state satisfies the publication invariant |
| `PinPublication.NextOwn` | chenyida_erp_site/scripts/install-isolated-uat-pre-import-host-pin.py:451-508 | a pin appears only by renaming a complete file |
| `PinPublication.SharedDirectory.Install` | chenyida_erp_site/scripts/install-isolated-uat-pre-import-host-pin.py:408-508 | a whole run from its arrival: when none of its own calls fails, it fails exactly when the directory it lists holds anything but the pin or a pin with other bytes, and says which, whatever the others do meanwhile |
| `PinPublication.LeftoverBlocks` | chenyida_erp_site/scripts/install-isolated-uat-pre-import-host-pin.py:411-413 | the temporary file of a killed run is never removed, so the directory is never exact again and every later run fails |
| `PinPublication.CrashCanBlock` | chenyida_erp_site/scripts/install-isolated-uat-pre-import-host-pin.py:411-413 | such a state is one crash away from an empty directory |
| `PinPublication.SharedDirectory.WriteAll` | chenyida_erp_site/scripts/install-isolated-uat-pre-import-host-pin.py:427-436 | in any number of pieces and with others in between, success leaves exactly the whole bytes |
| `PinPublication.SharedDirectory.Publish` | chenyida_erp_site/scripts/install-isolated-uat-pre-import-host-pin.py:451-508 | whatever the others do and whichever calls fail, the reported outcome is true and a wrong existing pin is never accepted or touched; if none of its own calls fails, it fails only for a pin that had other bytes from the start |
| `ImportRows.CollectRows` | chenyida_erp_app/spreadsheet_import.py:656-717 | every physical row becomes one raw row, with the disposition its cells decide; the import rows are exactly those of the rows that end as data, all from the selected sheet, after the header and with a mapped value; fails exactly when there are none |
| `ImportRows.EveryRowKept` | chenyida_erp_app/spreadsheet_import.py:656-705 | the raw row of each physical row: place, values and disposition |
| `ImportRows.EveryRowOnce` | chenyida_erp_app/spreadsheet_import.py:658-665 | row j of sheet i is raw row number offset plus j, with its own number and values |
| `ImportRows.EveryRawIsARow` | chenyida_erp_app/spreadsheet_import.py:658-665 | and every raw row is one of them |
| `ImportRows.ImportsCorrespond` | chenyida_erp_app/spreadsheet_import.py:666-705 | import rows and data rows correspond one to one and in order |
| `ImportRows.PlacesExactly` | chenyida_erp_app/spreadsheet_import.py:666-672 | the places of the import rows are exactly the data rows, increasing |
| `ImportRows.ClassifyRow` | chenyida_erp_app/spreadsheet_import.py:508-529 | a data row lies after the header; blank exactly when every cell is empty |
| `ImportRows.DispositionExactly` | chenyida_erp_app/spreadsheet_import.py:508-529 | the exact condition of each disposition on the row's cells: blank, total, subtotal, footer, title or note, repeated header, data |
| `ImportRows.CellsExactly` | chenyida_erp_app/spreadsheet_import.py:508-529 | the list of filled cells counts and reads as the row does |
| `ImportRows.ResolveExactly` | chenyida_erp_app/spreadsheet_import.py:532-537 | a mapped field is empty exactly when its mapping is not usable or its columns give nothing, else their first value or all of them |
| `ImportRows.MentionedExactly` | chenyida_erp_app/spreadsheet_import.py:532-537 | the values of a mapping are exactly those at its columns that are neither empty nor a formula |
| `ImportRows.FormulaExactly` | chenyida_erp_app/spreadsheet_import.py:532-537 | a formula starts, after blanks, with an equals sign |
| `RootPaths.OverlapMeansShared` | chenyida_erp_site/scripts/isolated-uat-compose-policy.py:95-96 | two roots overlap exactly when some path lies at or under both |
| `RootPaths.ParentsAreAbove` | chenyida_erp_site/scripts/isolated-uat-compose-policy.py:95-96 | the parents of a path are exactly what it lies strictly under |
| `RootPaths.NormalizedExactly` | chenyida_erp_site/scripts/isolated-uat-compose-policy.py:84-92 | accepted texts and canonical paths correspond one to one |
| `RootPaths.ParseRender` | chenyida_erp_site/scripts/isolated-uat-compose-policy.py:84-92 | a written path reads back |
| `RootPaths.RootsAcceptedExactly` | chenyida_erp_site/scripts/isolated-uat-compose-policy.py:115-123 | accepted exactly when every text is canonical and no path lies under two roots or under a root and a protected root |
| `RootPaths.ProtectedTexts` | chenyida_erp_site/scripts/isolated-uat-compose-policy.py:37-41 | the texts of the protected roots |
| `RootPaths.Utf8Character` | chenyida_erp_site/scripts/isolated-uat-compose-policy.py:84-92 | a character counts as many bytes as its code point needs |
| `RootPaths.Utf8Joins` | chenyida_erp_site/scripts/isolated-uat-compose-policy.py:84-92 | the bytes of texts add up |
| `RootPaths.AnchorsExactly` | chenyida_erp_site/scripts/isolated-uat-compose-policy.py:95-96 | where both anchors are one directory the comparison misses exactly the nested roots spelt with different anchors |
| `RootPaths.DoubleSlashEscapes` | chenyida_erp_site/scripts/isolated-uat-compose-policy.py:84-123 | a protected directory spelt with two leading slashes is accepted |
| `RootPaths.TemplatesAccepted` | chenyida_erp_site/scripts/isolated-uat-control-plane-policy.py:221-232 | for every project name of the pattern the control plane accepts exactly its own seven template roots |
| `RootPaths.TemplateTexts` | chenyida_erp_site/scripts/isolated-uat-control-plane-policy.py:29-37 | the seven texts it expects |
| `RootPaths.TemplatesPass` | chenyida_erp_site/scripts/isolated-uat-control-plane-policy.py:228-231 | the templates are apart from each other and from the protected roots |

## Left out

- SHA-256 and canonical JSON: digests are constructors around what they were computed from, so they never collide; in the ledger one flag says that a record is well formed and carries its own digest.
- File ownership beyond one metadata value, inode and link checks, fsync, temporary names and leftovers of the monitoring installer's own atomic writes: a write happens as a whole or not at all.
- HostInstaller.Host.InstallUnderCrashes: does not model an exception raised after the receipt is on disk while the process lives on, because the source then undoes a transaction that has a receipt; `HostInstaller.Host.FailAfterReceipt` says what follows.
- A clock that shows one instant to two transactions with the same activation and authorization.
- Bundle, runtime and view files, service manager state, locks and accounts: commands succeed or fail arbitrarily; configuration and policy checks of an install are one arbitrary verdict.
- `disable` and the preserved evidence of the monitoring installer.
- Error codes of a refused ledger, install request or root list, of a failing call of the pin installer, and the messages of refused ERP calls: the model says exactly when a call is refused, not always in which words.
- Parsing of Python, TypeScript and JSON imports, path joining and the member tables of the action source closure: edges, members and import scanning are parameters.
- ActionCatalog.ReconstructCatalog: does not model the digests of the binding files and the shape of their JSON, because it starts from their parsed contents.
- Permission domains and role decisions of the authorization matrix: short table lookups.
- IEEE floating point: quantities, prices and scores are exact reals.
- Concurrent database requests: each call is atomic. `convert_quotation_to_sales_order`, which commits twice.
- How codes are generated: the code of a new row is an input, and only whether it is in use matters.
- Manual purchase orders with several lines or with a received quantity entered by hand; prices, units, dates and activity log rows; editing of bills of materials.
- Creation and editing of products: the known products are a fixed set.
- Confirmed supplier mappings in matching: the model starts where no mapping applies. Labels, display values and evidence lists of the answer.
- Regular expressions: a pass is any list of matches in text order that are not empty and do not overlap; length units and copper weights, which have their own factors.
- Sheet readers, header recognition, column mapping and specification choice of the spreadsheet import: header, mappings and the selected sheet are inputs.
- ImportRows.CollectRows: does not model the fields computed from a data row beyond its mapped values, because they do not decide whether the row is imported.
- Creation of the pin directory and its ownership checks; two runs sharing a temporary name.
- HTTP handlers, logins, backups, dashboards, the older copy of the server and the web front end.
