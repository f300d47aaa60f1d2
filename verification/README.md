# Governed AI: transactions, queues and text formats, proved

This project models the parts of the governed AI framework that have to hold up
when something fails half way, and proves what they promise.

| files | what they model |
|---|---|
| Trees, Layout, Installer, InstallerResults, Updater, FreshInstall | the installer: snapshot, steps that may raise, rollback, and the move to the new directory layout |
| InstanceMigration | moving an in-tree framework into an instance of its own, with backup and restore |
| Transactions | the journalled commit of governed documents, a crash at any write, and its recovery |
| Gateway | commands under an exclusive lock, each idempotency key committed once, for any interleaving of clients |
| Notifications, NotificationRuns | the mail queue: deduplication, retries with backoff, digests, and runs of competing dispatchers |
| BundleHash, Sorting, Publish, PublishRuns | the immutable store of contract bundles, its content hash and its active pointer |
| Semver | version precedence and ranges |
| ManagedBlock, Frontmatter, Acceptance, Handoff, Text, Lines | the text formats that are merged, rendered, rewritten and scanned |
| Paths, Records | path relocation, ownership of files, and the migration of installation records |
| Aggregate, AggregateLast | the learning index over feedback exports |
| Watchdog | the polling loop over a running agent |

Code that works in place is a class whose fields are the file system, the store
or the queue; its methods may fail wherever an operation of the host may, and a
ghost field tells whether one did, so that a method that meets no failure must do
all of its work. Code that computes is functions, and loops are proved against
them. Protocols of several processes are state machines over interleaved steps.

A file system is a map from paths to contents. The host's parsers, SHA-256, the
clock, subprocesses and the network enter as parameters. Where the code does not
keep what its documentation says, the code is modelled as it is, an input shows
the failure, and the exact condition under which the promise holds is proved:
see the rows that say "if and only if".

What a reader may not expect to find:

- The order of layout moves loses an adapter's legacy directory when the core tree
  has a directory of that name: the move is skipped, the source removed.
- A failure of the instance migration while it removes its backup may lose managed
  files, and one behind that loses the profile.
- A plan that writes one path twice cannot be recovered from every crash.
- A bundle reference may climb out of its directory and back in by the
  directory's name. It is accepted, and resolved against the staging directory it
  leads into another version, a file of which stays overwritten though the
  publication is refused.
- A handoff in a fenced block is ambiguous when a string in it holds a fence behind
  a nested handoff.
- An identified observation may carry an id of the form anonymous ones are given,
  and then anonymous rows merge.
- A rolled-back first installation keeps seed files that are not on its list.
- The publication module's comment calls the cross-reference re-check a clarity
  assertion; it is proved unreachable.

## Model

| member | source | states |
|---|---|---|
| `ManagedBlock.RoundTrip` | distribution/installer/agents_md.py:11-31 | extracting after merging gives the newline-trimmed body if and only if the old text has no marker or its markers in order, and the body does not hold the end marker |
| `ManagedBlock.MergeKeepsSurroundings` | distribution/installer/agents_md.py:24-29 | text in front of an existing block is kept to the byte; behind it only line feeds directly after the block are dropped |
| `ManagedBlock.LastMergeWins` | distribution/installer/agents_md.py:24-29 | merging twice is merging the second body alone, hence merging is idempotent, on text that has a block |
| `ManagedBlock.AppendThenSettle` | distribution/installer/agents_md.py:24-31 | on text without a block the first merge appends, the second drops one final line feed, and every later merge changes nothing |
| `ManagedBlock.FreshFile` | distribution/installer/agents_md.py:34-43 | a file written where none was has a block, and gives the body back |
| `ManagedBlock.WrittenGivesBackIff` | distribution/installer/agents_md.py:24-43 | whether or not the file was there, writing it gives the body back if and only if its old text has no marker or its markers in order, and the body has no end marker |
| `ManagedBlock.GovernedMarkersSound` | distribution/installer/agents_md.py:7-9 | the two markers of the framework cannot overlap each other, themselves, or trimmed characters, which the other results ask of a marker pair |
| `Layout.PlanMoves` | distribution/installer/migrate_layout.py:95-113 | a legacy tree is moved exactly when it is there and its destination is not |
| `Layout.ThreeMoves` | distribution/installer/migrate_layout.py:116-147 | what the three relocations leave one after the other, the destinations of the later ones lying inside that of the first |
| `Layout.CoreArrives` | distribution/installer/migrate_layout.py:116-147 | every file of the core tree arrives at its place |
| `Layout.CursorArrivesIff` | distribution/installer/migrate_layout.py:83-147 | a file of the cursor adapter arrives if and only if the core tree is not moved, or has no cursor directory of its own, or holds the same file there: otherwise the move is skipped and the only copy goes with the old tree |
| `Layout.ClaudeArrivesIff` | distribution/installer/migrate_layout.py:83-147 | the same for the other adapter's directory |
| `Layout.AdaptersLost` | distribution/installer/migrate_layout.py:83-163 | an installation whose core tree carries adapters beside the legacy ones: after the update nothing is left of the latter's files |
| `Layout.MovesStayInside` | distribution/installer/migrate_layout.py:116-147 | relocating changes nothing outside the destinations |
| `Installer.EarlyFailureUndone` | distribution/installer/operations.py:530-604 | a failed update that has not begun to replace the compiled directory is undone: every path holds what it held, apart from the review event and fresh acceptance backups |
| `Installer.LateFailureUndoneIff` | distribution/installer/operations.py:530-604 | a failure behind the replacement is undone if and only if each file that the directory held, or is given, is listed or is held and given alike |
| `Installer.TornFailureUndoneIff` | distribution/installer/apply.py:17-41 | however a replacement breaks off, while it clears, copies staged files or writes the rest, half-written files included, it is undone if and only if every file that the directory held or is given is listed |
| `Updater.Disk.CreateSnapshot` | distribution/installer/snapshot.py:70-106 | the backup holds exactly the listed files that exist, for a list with repetitions |
| `Updater.Disk.RollbackPaths` | distribution/installer/snapshot.py:109-122 | every listed path ends as it was at the snapshot, existing or absent, and no other path changes |
| `Updater.Disk.ApplyLayoutMigration` | distribution/installer/migrate_layout.py:116-163 | the relocations in order and then the event; a failure changes nothing outside the destinations and the event file |
| `Updater.Disk.Materialize` | distribution/installer/apply.py:17-41 | the compiled directory is replaced as a whole, or left cleared, copied or written in part; which of the two is recorded |
| `InstallerResults.LastEntry` | distribution/installer/apply.py:27-37 | whatever the entries, the last one for a file decides: copied data stands there, and a merge is of what the entries before it left |
| `Updater.Disk.ApplyCopyEntries` | distribution/installer/apply.py:17-41 | the entries in order, each as the last result says, the compiled directory rebuilt last; what a failure before, inside and behind the rebuilding may have changed |
| `Updater.Disk.ApplyAcceptanceChanges` | scripts/ai-team/migrate.py:115-126 | each acceptance file is backed up unless a backup exists, then rewritten; a missing file stops it |
| `Updater.Disk.Attempt` | distribution/installer/operations.py:530-590 | the six steps leave the tree they should, or stop before, inside or behind the replacement of the compiled directory, with what each of these may have changed |
| `InstallerResults.UpdateLeaves` | distribution/installer/operations.py:494-607 | what a committed update leaves, path by path over old tree and plan: copies with their data, AGENTS.md giving its body back, just the compiler's files in its directory, migrated texts and backups of the old ones, the edited state, both manifests, the moved trees, no legacy file, and the rest as it was |
| `InstallerResults.UpdatesIff` | distribution/installer/operations.py:530-596 | no step refuses if and only if the validation passes, each file to change is there by its turn, and the state can be edited, all told from old tree and plan |
| `Updater.Disk.RunUpdate` | distribution/installer/operations.py:494-607 | the update commits, leaving every path as planned, or rolls back; without a failing operation it commits exactly when no step has to refuse; a failure before the replacement of the compiled directory is undone, one behind it if and only if the directory held and is given planned files only, and any failure is when all these files are planned |
| `FreshInstall.InstallLeaves` | distribution/installer/operations.py:853-893 | what a completed installation leaves, path by path: manifests, the compiler's files, copies, merged AGENTS.md, last seeds, and the rest as it was |
| `FreshInstall.InstallFresh` | distribution/installer/operations.py:853-893 | the installation leaves every path as planned, or rolls back to the snapshot of its list; it restores the very tree when all seeds and all files of the compiled directory are listed, and with listed seeds before the replacement of that directory always, behind it if and only if its unlisted files come out as they were |
| `FreshInstall.StoppedSeedsUndoneIff` | distribution/installer/operations.py:638-893 | wherever the seeding stops between two writes the rollback restores the tree, if and only if every seed is listed or leaves its file as it was |
| `FreshInstall.HalfSeedsUndoneIff` | distribution/installer/operations.py:638-893 | with writes that may also break off half way, if and only if every seed is listed |
| `FreshInstall.TornInstallUndoneIff` | distribution/installer/operations.py:853-893 | however the replacement of the compiled directory breaks off it is undone, if and only if every file it held or is given is listed |
| `FreshInstall.IgnoreFilesStay` | distribution/installer/operations.py:731-802 | the framework's own seeds, of which the ignore files of secrets and logs are not listed: into an empty project both survive the rollback |
| `InstanceMigration.RelocateAt` | distribution/installer/migrate_to_instance.py:220-248 | project-owned directories end below the ensemble, path by path, in place of what stood there; nothing else moves |
| `InstanceMigration.EnsemblesStay` | distribution/installer/migrate_to_instance.py:220-248 | the ensembles directory is not among those moved below it, as the relocation needs |
| `InstanceMigration.Migration.BackupTrees` | distribution/installer/migrate_to_instance.py:105-119 | the five managed trees are copied below the backup directory, and nothing else changes |
| `InstanceMigration.Migration.RestoreTrees` | distribution/installer/migrate_to_instance.py:122-136 | the managed trees are replaced by what the backup holds, and the backup goes |
| `InstanceMigration.RestoreIsExact` | distribution/installer/migrate_to_instance.py:105-136 | restoring from a complete backup gives back the very source, whatever happened to the managed trees |
| `InstanceMigration.Migration.MoveTrees` | distribution/installer/migrate_to_instance.py:208-217 | the trees leave the source and stand in the instance file by file; a failure stays inside them |
| `InstanceMigration.Migration.RelocateProjectOwned` | distribution/installer/migrate_to_instance.py:220-248 | the relocation, directory by directory, up to a failure |
| `InstanceMigration.FilledArrived` | distribution/installer/migrate_to_instance.py:220-320 | what the instance holds at every path: the last document that names it, else what the project gave it, a project-owned file below the ensemble, else the state template at its own place |
| `InstanceMigration.ArrivedMeans` | distribution/installer/migrate_to_instance.py:220-320 | so project-owned files stand below the ensemble with their old content, all other moved files where they were, each document as last written, and the state template if and only if nothing was there or the same |
| `InstanceMigration.SourceOverlaid` | distribution/installer/migrate_to_instance.py:323-395 | of the moved trees only the link is left in the source, AGENTS.md is the overlay of its old text, and the rest is as it was |
| `InstanceMigration.Migration.Work` | distribution/installer/migrate_to_instance.py:440-500 | instance started and configured, source overlaid, workspace written: every path of the instance as above, or a change confined to managed trees and the instance |
| `InstanceMigration.Migration.RemoveBackup` | distribution/installer/migrate_to_instance.py:502-502 | the backup goes, or a failure leaves any part of it, and which of the two is recorded |
| `InstanceMigration.RestoredIff` | distribution/installer/migrate_to_instance.py:502-532 | restoring from what is left of the backup yields original files only, and the very source if and only if no managed file has lost its copy |
| `InstanceMigration.RemovalUndoneIff` | distribution/installer/migrate_to_instance.py:502-532 | a failure while the backup is removed restores the source whatever is gone by then, if and only if the source has no managed file at all |
| `InstanceMigration.ArchivedLoses` | distribution/installer/migrate_to_instance.py:502-532 | behind the removal nothing is restored: of the moved trees only the member link is in the source, not the profile, and a source that was no member is not what it was |
| `InstanceMigration.Migration.Migrate` | distribution/installer/migrate_to_instance.py:402-532 | on success both trees are as said path by path, archive and note included; for each failure point, told by what makes and what removes the backup: before it is whole only the backup directory differs, up to the archive the source is restored exactly and a new instance is gone, during the removal it is restored from what is left, behind it it stays as migrated; unmanaged source files never change |
| `Transactions.Workspace.Commit` | src/governed_ai/core/persistence/transaction.py:140-185 | a commit that dies after any number of atomic writes leaves exactly the disk those writes leave |
| `Transactions.CrashPoint` | src/governed_ai/core/persistence/transaction.py:140-185 | the disk at every crash point: staged so far, or half done by so many targets and events, or complete |
| `Transactions.CrashIsMixed` | src/governed_ai/core/persistence/transaction.py:140-185 | a crash between the two journal writes leaves each target old or new |
| `Transactions.RecoverMixed` | src/governed_ai/core/persistence/transaction.py:236-325 | recovery of a half-done disk never refuses: interrupted it is half done again, finished it is complete |
| `Transactions.AllOrNothing` | src/governed_ai/core/persistence/transaction.py:140-325 | a crash anywhere in the commit, any number of interrupted recoveries, and one recovery that gets through leave all of the plan or none of it, none exactly before the journal is written |
| `Transactions.RecoverableIffConsistent` | src/governed_ai/core/persistence/transaction.py:140-325 | every crash can be recovered from if and only if the plan does not write one path twice with different contents |
| `Transactions.InconsistentStuck` | src/governed_ai/core/persistence/transaction.py:236-325 | otherwise a crash after the last target leaves a transaction that no recovery finishes |
| `Transactions.TwicePlanned` | src/governed_ai/core/persistence/transaction.py:96-138 | one existing file planned with two contents is such a plan |
| `Transactions.WritesFinishIff` | src/governed_ai/core/persistence/transaction.py:228-262 | for distinct paths and whatever others wrote meanwhile: recovery finishes the writes if and only if each target is done, absent, as recorded or planned as new, with its staged file there; in any case a target is as it was or has its staged content |
| `Transactions.ForeignReplacedIff` | src/governed_ai/core/persistence/transaction.py:228-262 | content of somebody else at a path that existed when planned is never replaced; finished recovery respects it everywhere if and only if there is none at the paths planned as new |
| `Transactions.RecoveryWritesJournalled` | src/governed_ai/core/persistence/transaction.py:203-325 | whatever has happened to files and staging, and wherever it stops, recovery changes a file only to content with a digest journalled for its path |
| `Transactions.CreatedMeanwhileIsLost` | src/governed_ai/core/persistence/transaction.py:228-262 | a file somebody else created where the plan expected none is replaced without complaint |
| `Transactions.Workspace.RecoverPending` | src/governed_ai/core/persistence/transaction.py:236-325 | one pass of the recovery loops, dying anywhere, does what the recovery of the results does |
| `Gateway.CommandGateway.ExecuteCommand` | src/governed_ai/core/commands/gateway.py:32-89 | under the lock one command is processed as specified and the lock released; without it nothing happens |
| `Gateway.CommandGateway.LookUp` | src/governed_ai/core/persistence/idempotency.py:45-56 | a stored key answers with its receipt if the payload is the same and is rejected otherwise |
| `Gateway.CommitsAccounted` | src/governed_ai/core/commands/gateway.py:40-89 | over any history each commit under a key has its receipt stored or lost it between commit and store |
| `Gateway.AtMostOnce` | src/governed_ai/core/commands/gateway.py:40-89 | a key commits at most once if and only if none of its receipts was lost, or one was and nothing is stored under it since |
| `Gateway.LostReceiptCommitsTwice` | src/governed_ai/core/commands/gateway.py:69-82 | a crash between commit and store followed by a retry commits twice |
| `Gateway.ReplayIsIdentical` | src/governed_ai/core/commands/gateway.py:50-52 | every later replay with the same payload gets the identical receipt, any other payload is rejected, and neither changes anything |
| `Gateway.ReceiptIs` | src/governed_ai/core/commands/gateway.py:69-82 | a receipt names a commit of its key and payload, now and later; a first one its own command by id and its place in the log |
| `Gateway.NewCommandAccepted` | src/governed_ai/core/commands/gateway.py:54-82 | under a new key and without an exception a command is accepted and commits if and only if it is authorized, supported and handled, else the first of these that fails is the reason |
| `Gateway.ReceiptInRun` | src/governed_ai/core/commands/gateway.py:40-89 | in every interleaving, whoever has a receipt has that of a commit of its key and payload |
| `Gateway.RejectedChangesNothing` | src/governed_ai/core/commands/gateway.py:40-89 | a rejected command changes neither the committed state nor the store |
| `Gateway.CommitsWereAuthorized` | src/governed_ai/core/commands/gateway.py:54-69 | each commit was authorized, supported and handled on the very state it was applied to |
| `Gateway.RunKeepsInv` | src/governed_ai/core/commands/gateway.py:40-89 | every interleaving of any number of clients keeps the lock exclusive and the state that of the completed sections |
| `Gateway.Linearizable` | src/governed_ai/core/commands/gateway.py:40-89 | whenever the lock is free the state is that of running the commands one after the other, and every client past the lock holds the answer of that run |
| `Gateway.CommitsAccountedInRun` | src/governed_ai/core/commands/gateway.py:40-89 | in the middle of any interleaving commits under a key are its stored receipt, those lost, and the one on its way, which excludes a stored one |
| `Gateway.AtMostOnceInRun` | src/governed_ai/core/commands/gateway.py:40-89 | in every state of every interleaving a key has committed at most once if and only if no receipt was lost, or one was and nothing was committed since; so always when no client with the key leaves between commit and store |
| `Gateway.ReplayInRun` | src/governed_ai/core/commands/gateway.py:50-52 | once a client has a receipt, every later client with its key gets that very receipt for the same payload and a mismatch for another, or fails before the lookup or outside the lock |
| `Gateway.RejectedInRun` | src/governed_ai/core/commands/gateway.py:40-89 | from taking the lock to leaving it with a rejection a client changes nothing, whatever the others do meanwhile |
| `Gateway.DeadHolderFreezes` | src/governed_ai/core/persistence/lock.py:44-75 | once a client has died holding the lock, nothing is committed, stored or served for the rest of the run |
| `Notifications.RecipientsAre` | src/governed_ai/notifications/config.py:49-58 | mail goes to the first nonempty list along critical, action_required, digest from the group on, for any other group to its own; to nobody if and only if all these are empty or absent |
| `Notifications.NotificationQueue.Enqueue` | src/governed_ai/notifications/service.py:349-380 | each new key is recorded once, pending and as first asked for, known ones are left, and the count is that of the new |
| `Notifications.NotificationQueue.PendingRecords` | src/governed_ai/notifications/service.py:383-403 | exactly the unsent records that are due, under the limit of attempts, each once |
| `Notifications.DispatchMeans` | src/governed_ai/notifications/service.py:383-522 | for each record: untouched unless unsent, under six attempts, due, reached by somebody, and no digest item kept for later; else sent, or failed with one attempt more and the next after 60 * 2^attempts seconds; sent and failed count just these records |
| `Notifications.NotificationQueue.Dispatch` | src/governed_ai/notifications/service.py:476-522 | one dispatch: queue, then send and mark each mailing, with that outcome for every record |
| `Notifications.MarkAllOutcome` | src/governed_ai/notifications/service.py:413-438 | each record of a mailing is marked sent or failed once, every other record stays |
| `Notifications.CapNeverReached` | src/governed_ai/notifications/service.py:422-438 | within the allowed attempts the delay is 60 * 2^(n-1) seconds and at most 1920: the cap of 3600 never applies |
| `Notifications.DigestPartition` | src/governed_ai/notifications/service.py:490-515 | each addressed digest item is in exactly one group, whose members all have the recipients it is sent to; unaddressed ones are in none |
| `Notifications.MailingsDistinct` | src/governed_ai/notifications/service.py:490-515 | no record is in two mailings of one dispatch, or twice in one |
| `NotificationRuns.QueueSafety` | src/governed_ai/notifications/service.py:25-47 | over every run of competing dispatchers: one in the lock, one record per key, attempts equal to the failed tries and at most six |
| `NotificationRuns.DeliveryAccount` | src/governed_ai/notifications/service.py:441-522 | deliveries of a record are its sent mark, the sends cut short before marking, and the one on its way; without the cut-short ones at most one |
| `NotificationRuns.FlightOnce` | src/governed_ai/notifications/service.py:441-473 | a record is on its way once, and then not yet marked sent |
| `NotificationRuns.SentIsTerminal` | src/governed_ai/notifications/service.py:413-419 | once sent, a record never changes again in the rest of the run |
| `NotificationRuns.Backoff` | src/governed_ai/notifications/service.py:422-438 | failed try k comes at least 60 * (2^(k-1) - 1) seconds after the first |
| `NotificationRuns.RunKeepsInv` | src/governed_ai/notifications/service.py:25-522 | what every step of every dispatcher keeps |
| `BundleHash.DecodeFrames` | src/governed_ai/contracts/bundle_hash.py:42-43 | decoding the concatenated frames returns the very list of labels and payloads |
| `BundleHash.InputDetermines` | src/governed_ai/contracts/bundle_hash.py:46-63 | the digest input determines the manifest's JSON and every frame |
| `BundleHash.Utf8Injective` | src/governed_ai/contracts/bundle_hash.py:61-61 | equal encoded labels are equal paths |
| `BundleHash.Utf8IsShortest` | src/governed_ai/contracts/bundle_hash.py:61-61 | characters are encoded in the shortest form, as section 3 of RFC 3629 has it |
| `Sorting.SortedSetCanonical` | src/governed_ai/contracts/bundle_hash.py:36-39 | the sorted references depend on which there are, not on their order or repetition, and determine them |
| `Sorting.BelowIsPrecedes` | src/governed_ai/contracts/bundle_hash.py:36-39 | the order strings are sorted in is that of where they part |
| `Publish.ComputeContentHash` | src/governed_ai/contracts/bundle_hash.py:46-63 | the loop over frames computes the hash of JSON and frames, stopping at the first path that escapes, cannot be read, or does not fit its prefix |
| `Publish.StaysIffInsideSiblings` | src/governed_ai/contracts/publish.py:80-92 | a reference stays inside two sibling directories if and only if it is relative and never climbs above its start |
| `Publish.AcceptedIsAdmitted` | src/governed_ai/contracts/publish.py:158-192 | none of the checks behind acceptance, the repeated cross-reference check among them, can fire; and what acceptance says of version and hash |
| `Publish.AcceptsIff` | src/governed_ai/contracts/validate_bundle.py:141-325 | a bundle is accepted if and only if its manifest meets the schema, every role and procedure path parses clean, ids are distinct, every reference of a role with an id names a procedure of the bundle at the revision asked for, and the declared hash is the computed one |
| `Publish.AcceptedStaysInside` | src/governed_ai/contracts/bundle_hash.py:57-60 | no reference of an accepted bundle leads outside its directory |
| `Publish.ValidateMoved` | src/governed_ai/contracts/validate_bundle.py:141-325 | moving a tree, or changing files elsewhere, keeps its verdict as long as no reference climbs out of it |
| `Publish.Store.CopyPublishedFiles` | src/governed_ai/contracts/publish.py:80-92 | manifest and references are copied in order, or the first that escapes, is missing or is its own copy stops it with all before it copied; only the places reached by then change |
| `Publish.Store.StageBundle` | src/governed_ai/contracts/publish.py:223-240 | staging emptied, filled, validated again and renamed, or removed again; the exact store when that is refused, and what may have changed at each failure point |
| `Publish.Store.WriteActivePointer` | src/governed_ai/contracts/publish.py:95-112 | the active-bundle file holds version and hash, or whatever a failed write left, and no other file changes |
| `Publish.Store.PublishBundle` | src/governed_ai/contracts/publish.py:136-253 | only a bundle that meets these conditions is published; without a failing operation publication completes exactly when the bundle is accepted and is there with the same hash or can be staged; the store then is exactly the renamed tree and the active-bundle file; when refused it is exactly what copying reached, less staging; a rejected bundle changes nothing |
| `PublishRuns.AcceptedCanBeStaged` | src/governed_ai/contracts/publish.py:223-240 | an accepted bundle without climbing references can always be staged, and staging then holds just the listed files with their contents |
| `PublishRuns.NewBundleValidatesIff` | src/governed_ai/contracts/publish.py:223-240 | a published bundle validates in its own directory if and only if none of its references climbs |
| `PublishRuns.StayingIsHarmless` | src/governed_ai/contracts/publish.py:80-92 | a publication of a bundle without climbing references is harmless: it copies into staging only |
| `PublishRuns.RunKeepsInv` | src/governed_ai/contracts/publish.py:136-253 | from an empty store over all harmless publications and all failure points: every version directory validates under its own version, and an intact active-bundle file names a present bundle with the hash it has now |
| `PublishRuns.BundlesAreImmutable` | src/governed_ai/contracts/publish.py:136-253 | a version directory once present never changes, whatever is published, as long as no publication copies a file into it |
| `PublishRuns.SparesIff` | src/governed_ai/contracts/publish.py:80-92 | publishing an accepted bundle leaves another version's directory alone, wherever it stops, if and only if no reference, before the first that would be copied onto itself, leads into it from staging |
| `PublishRuns.ChangesIff` | src/governed_ai/contracts/publish.py:80-92 | what copying may change at any stopping point, half-written files included: exactly the places that references lead to before the first self-copy |
| `PublishRuns.AllStayIff` | src/governed_ai/contracts/publish.py:80-92 | no reference climbs if and only if every file has its place inside the staging directory and inside the version directory |
| `PublishRuns.PlacedValidatesIff` | src/governed_ai/contracts/publish.py:223-240 | unless SHA-256 collides, a bundle put in place validates there if and only if no reference of the accepted bundle climbs |
| `PublishRuns.RepublishIff` | src/governed_ai/contracts/publish.py:115-221 | publishing over a present version succeeds if and only if the hashes agree, and then writes the active-bundle file only |
| `PublishRuns.EqualHashesMeanEqualBundles` | src/governed_ai/contracts/bundle_hash.py:46-63 | unless SHA-256 collides on these two inputs, equal hashes mean equal manifest JSON, references and contents |
| `PublishRuns.ClimbingOverwrites` | src/governed_ai/contracts/publish.py:80-92 | beside a sound version 1.0.0, an accepted 2.0.0 whose reference leaves its directory and comes back: publication is refused and leaves that file of 1.0.0 overwritten |
| `PublishRuns.ClimbingExample` | src/governed_ai/contracts/publish.py:80-92 | for every digest of 64 hex characters there is such a sound store and accepted bundle |
| `Semver.CompareIdentifiers` | src/governed_ai/contracts/semver.py:31-52 | the loop over identifiers decides as the recursive comparison does |
| `Semver.TotalPreorder` | src/governed_ai/contracts/semver.py:72-88 | comparing flips its sign with its arguments and is transitive |
| `Semver.MatchesStandard` | src/governed_ai/contracts/semver.py:72-88 | without leading zeros it is precedence as section 11 of Semantic Versioning 2.0.0 defines it, and only versions equal but for build metadata compare equal |
| `Semver.EqualIff` | src/governed_ai/contracts/semver.py:31-52 | what compares equal in general: identifiers that are equal, or numbers of equal value |
| `Semver.LeadingZerosCompareEqual` | src/governed_ai/contracts/semver.py:12-52 | 1.0.0-01 and 1.0.0-1 compare equal |
| `Semver.RangesAreConvex` | src/governed_ai/contracts/semver.py:91-102 | a range accepts everything between two versions it accepts |
| `Semver.RangeIs` | src/governed_ai/contracts/semver.py:91-102 | a range accepts just the versions that do not precede its lower end and precede its upper end, if it has one, in the standard's sense |
| `Frontmatter.ParseFrontmatter` | adapters/claude_code/compiler/agents.py:37-50 | the loop yields the pairs and body the pattern with its backtracking defines |
| `Frontmatter.MatchedIff` | adapters/claude_code/compiler/agents.py:28-40 | a file has frontmatter if and only if it is dashes, white space to a line's end, a block, dashes on a line, white space to a line's end, and a body; what is taken for block and body has that shape |
| `Frontmatter.BodyStartsWithText` | adapters/claude_code/compiler/agents.py:28-50 | a matched body has no blank line in front, so the branch for a body starting with a line feed is dead |
| `Frontmatter.RenderAgentFromRole` | adapters/claude_code/compiler/agents.py:62-99 | the loops yield the specified text, and never reach that branch |
| `Frontmatter.MergedMeans` | adapters/claude_code/compiler/agents.py:72-91 | dropped keys are gone, the role's keys occur as often as before or once if they did not, with the role's values, and the other pairs are the template's in order |
| `Frontmatter.MergedFields` | adapters/claude_code/compiler/agents.py:53-91 | a rendered agent has the role's name and model and no other, for a role that may not write just the reading tools and else the template's, and all other pairs of the template but the dropped |
| `Frontmatter.ParseOfRendered` | adapters/claude_code/compiler/agents.py:37-99 | parsing a rendered agent gives the merged pairs and the template's body |
| `Frontmatter.RenderTwice` | adapters/claude_code/compiler/agents.py:62-99 | rendering twice is rendering once |
| `Acceptance.MigrateAcceptanceText` | scripts/ai-team/migrate.py:49-88 | the loop with its open-block state yields the rewritten text and the number of replacements |
| `Acceptance.SecondPassChangesNothing` | scripts/ai-team/migrate.py:57-88 | a second pass replaces nothing and returns the same text |
| `Acceptance.CountIsZeroIffUnchanged` | scripts/ai-team/migrate.py:57-88 | the count is zero if and only if the text is unchanged, and each replacement shortens it by two characters |
| `Acceptance.OnlyStatusLinesChange` | scripts/ai-team/migrate.py:20-88 | the result has the same lines with the same endings; a line changes if and only if it lies in a human_result block, told by lines alone, and gives the status accepted |
| `Acceptance.StatusFound` | scripts/ai-team/migrate.py:20-23 | a line of white space, status, a colon with white space around it, accepted in either quote or none, and no more than a comment, has its status found where the word stands |
| `Acceptance.StatusLineIs` | scripts/ai-team/migrate.py:20-23 | and no other line has |
| `Acceptance.BlockOpens` | scripts/ai-team/migrate.py:19-19 | blanks, human_result, a colon and no more than a comment open a block with that indentation |
| `Acceptance.BlockLineIs` | scripts/ai-team/migrate.py:19-19 | and no other line does |
| `Acceptance.EndingIs` | scripts/ai-team/migrate.py:49-54 | the ending taken off a line is a line feed, a carriage return, or both, and nothing if the line ends in neither |
| `Lines.JoinSplit` | scripts/ai-team/migrate.py:58-58 | the lines with their endings make up the text |
| `Lines.LinesAre` | scripts/ai-team/migrate.py:58-58 | each line is broken at its end only, all but the last end in a break, and no carriage return is parted from its line feed |
| `Handoff.IterJsonValues` | src/governed_ai/adapters/common/results.py:90-108 | the scanner ends and collects the values of the specified hits |
| `Handoff.HitsAreApart` | src/governed_ai/adapters/common/results.py:90-108 | hits lie in order and apart, each what the decoder finds at its start |
| `Handoff.HitsAreAll` | src/governed_ai/adapters/common/results.py:90-108 | every value at a bracket is a hit or lies inside one |
| `Handoff.WholeIff` | src/governed_ai/adapters/common/results.py:135-138 | the whole text is taken for a value if and only if that stands alone in white space |
| `Handoff.BlockFound` | src/governed_ai/adapters/common/results.py:111-117 | a fenced block opens with a fence, json in any case or nothing, and white space to a line's end, and goes to the next fence |
| `Handoff.CoerceIsIdempotent` | src/governed_ai/adapters/common/results.py:46-83 | a coerced handoff conforms, and coercing it again changes nothing |
| `Handoff.FoundHolds` | src/governed_ai/adapters/common/results.py:46-171 | a returned handoff holds, field by field, the summary cut to 4000 characters, checks, artifacts, commands and usage of some value in the text, each of the shape the contract asks for |
| `Handoff.ExtractGovernedHandoff` | src/governed_ai/adapters/common/results.py:120-171 | the nested loops with their set of seen texts yield the specified outcome |
| `Handoff.SignaturesAlwaysDiffer` | src/governed_ai/adapters/common/results.py:164-167 | as many signatures as candidates are kept, so the inner test is always true where it is reached |
| `Handoff.FoundIffCandidatesAgree` | src/governed_ai/adapters/common/results.py:120-171 | unless the whole text is a handoff, one is returned if and only if there is a candidate and all agree, and it is the first |
| `Handoff.FoundIffCandidatesEqual` | src/governed_ai/adapters/common/results.py:120-171 | when the written form tells values apart, agreeing is being equal after coercion |
| `Handoff.EmbeddedHandoff` | src/governed_ai/adapters/common/results.py:90-171 | a handoff written into text without brackets of its own, in fenced blocks or not, is extracted in its coerced form, as long as no fence stands within it |
| `Handoff.EmbeddedIff` | src/governed_ai/adapters/common/results.py:90-171 | whatever it holds, it is extracted if and only if it is the whole text or every handoff in a fenced block has its written form |
| `Handoff.FencesAround` | src/governed_ai/adapters/common/results.py:111-117 | every fenced block holds the whole of an object without fences, or nothing of it |
| `Handoff.FenceInStringFails` | src/governed_ai/adapters/common/results.py:111-171 | a fenced object that carries another handoff and, behind it, a string with a fence: the block is cut off in the string and the outcome is ambiguous |
| `Paths.NormalizeNotIdempotent` | distribution/installer/record.py:14-18 | normalizing strips one leading ./ only, so a second time may strip another |
| `Paths.NormalizeTwiceIff` | distribution/installer/record.py:14-18 | normalizing twice is normalizing once if and only if the path, with forward slashes, does not begin with ././ |
| `Paths.ToTargetCases` | distribution/installer/paths.py:60-72 | paths below the core and the two adapter directories go to their places below the runtime, with the rest of the path kept |
| `Paths.ElsewhereStays` | distribution/installer/paths.py:60-87 | every other path is only normalized; a target has a source if and only if it is below the runtime or the installed requirements file |
| `Paths.RequirementsThere` | distribution/installer/paths.py:60-87 | the requirements file goes to its installed place and back |
| `Paths.TargetRoundTrip` | distribution/installer/paths.py:60-87 | on canonical paths, mapping the reverse of a relocated target gives that target back |
| `Paths.SourceRoundTripIff` | distribution/installer/paths.py:60-87 | reversing a mapped relocated source gives the source back if and only if it is not under the cursor or claude_code directory of src/governed_ai/adapters |
| `Records.PartitionManagedFiles` | distribution/installer/ownership.py:80-95 | the loop fills and sorts the buckets, or stops at the first path without an owner |
| `Records.BucketsHold` | distribution/installer/ownership.py:80-95 | a path lands in the bucket of its owner and in no other |
| `Records.ManagedFilesUnion` | distribution/installer/record.py:82-95 | the loops collect the paths of core, distribution and all adapters |
| `Records.MigratesIff` | distribution/installer/migrate_v1_v2.py:62-157 | for all lists of paths: the migration succeeds if and only if the active adapter is cursor and every managed path but the old manifest is normalized for good, has an owner other than claude-code, and is not the record file; the managed set then is the old one with the record for the manifest |
| `Records.ClassifyIs` | distribution/installer/ownership.py:38-77 | the owner of a managed file is that of the first rule that speaks of its normalized path, the rules for managed files before those for all; it has none if no rule does or if that makes it the project's |
| `Records.EntriesFromSection` | distribution/installer/migrate_v2_v3.py:37-49 | the loop yields the section's entries with digests, by path |
| `Records.EntriesAreSorted` | distribution/installer/migrate_v2_v3.py:37-49 | the section's entries come out by path, each hashed as often as it went in |
| `Records.BuildV3Record` | distribution/installer/migrate_v2_v3.py:52-80 | all sections are replaced by hashed ones |
| `Records.ManagedFileHashes` | distribution/installer/record.py:98-117 | the loops collect the digests, later entries winning |
| `Records.ThirdFormKeeps` | distribution/installer/migrate_v2_v3.py:37-80 | the third form manages the same paths and has for each of them the digest of its file |
| `Records.MigrationConserves` | distribution/installer/migrate_v2_v3.py:52-80 | from the first form to the third the managed set is kept up to adding the record and dropping the manifest, and the hash map's keys equal it |
| `Aggregate.BumpAdds` | src/governed_ai/learning/aggregate.py:23-25 | bumping adds the amount to one label and to the total |
| `Aggregate.IdentityIs` | src/governed_ai/learning/aggregate.py:42-47 | a row's identity, told from its fields: project and first id, or export and number of identities so far |
| `Aggregate.KeptIsNewest` | src/governed_ai/learning/aggregate.py:56-83 | for every identity that occurs the row kept has the greatest revision, of these the latest stamp in code point order, the first of last recorded, recorded, ended and generated, and of these the last scanned |
| `Aggregate.SummaryIsNewest` | src/governed_ai/learning/aggregate.py:138-147 | the summary that counts for a project is that of its export without rows generated last, of several such the last scanned |
| `Aggregate.AnonymousAloneIff` | src/governed_ai/learning/aggregate.py:124-137 | every anonymous row has an identity of its own if and only if no identified row, earlier or later, has the id that is due to it: project, export, and the count of distinct ids and anonymous rows before it |
| `Aggregate.PlainNamesAreUnclaimed` | src/governed_ai/learning/aggregate.py:124-137 | so it is when no project has a colon and no id starts with anon: |
| `Aggregate.AnonymousShareIff` | src/governed_ai/learning/aggregate.py:128-130 | two anonymous rows share an identity if and only if they are of the same project and export and nothing new was kept from the first on |
| `Aggregate.AnonymousApart` | src/governed_ai/learning/aggregate.py:128-130 | two anonymous rows never share an identity once the first had its own: the number in it has grown |
| `Aggregate.AnonymousMayMerge` | src/governed_ai/learning/aggregate.py:128-137 | an identified row can take an anonymous identity, and then two anonymous rows share it |
| `Aggregate.BuildAggregate` | src/governed_ai/learning/aggregate.py:86-212 | framework and project labels count exports, the unique count counts identities, and category, origin and severity labels count the identities whose newest row has that field, plus the summaries |
| `Aggregate.BucketConserves` | src/governed_ai/learning/aggregate.py:167-212 | each label of a bucket counts the kept rows that have it plus the numbers in the summaries that count |
| `Aggregate.IndexConserves` | src/governed_ai/learning/aggregate.py:109-239 | framework and project totals equal the number of exports; category, origin and severity totals each equal the unique observations plus the numbers in summaries of projects without rows |
| `AggregateLast.BestOfLast` | src/governed_ai/learning/aggregate.py:56-83 | for cumulative exports the best row of an identity is the best among each project's last export |
| `AggregateLast.SameObservations` | src/governed_ai/learning/aggregate.py:109-147 | the same rows are kept, under the same identities, with the same origin |
| `AggregateLast.AgreesWithLast` | src/governed_ai/learning/aggregate.py:86-212 | for cumulative exports whose rows have ids the counts and every label of every bucket equal those built from each project's last export only |
| `Watchdog.RunAgentProcess` | src/governed_ai/adapters/common/agent_invocation.py:408-431 | the polling loop ends and yields the specified polls and outcome |
| `Watchdog.FoundIff` | src/governed_ai/adapters/common/agent_invocation.py:285-317 | a poll finds no reason if and only if the grant is readable, not revoked and before a valid expiry, and the run is active; else the reason these fields give |
| `Watchdog.PollsAreBounded` | src/governed_ai/adapters/common/agent_invocation.py:408-431 | at most ceil(2 * timeout) + 1 polls, the first at the start, never more than half a second apart, none behind the deadline |
| `Watchdog.EndsAfterLastPoll` | src/governed_ai/adapters/common/agent_invocation.py:285-431 | the run stops if and only if at its last poll grant or run was out of order, for the reason the fields give, and at no earlier poll was |
| `Watchdog.CompletedWasRecentlyGood` | src/governed_ai/adapters/common/agent_invocation.py:408-431 | a result is returned only if at a poll at most half a second earlier grant and run were in order |
| `Watchdog.PersistingReasonIsActedOn` | src/governed_ai/adapters/common/agent_invocation.py:285-431 | a grant or run that stays out of order ends the run within half a second, by stopping it if process and deadline leave that long |
| `Watchdog.EndsInTime` | src/governed_ai/adapters/common/agent_invocation.py:422-431 | only the process completes a run, never behind the deadline, and only the deadline times it out |

## Left out

- Updater.Disk.RunUpdate: the operations of the rollback itself are taken to succeed, as is reading the snapshot; a single write may leave anything in its own file. The record migration in front of the snapshot is in Records.
- FreshInstall.InstallFresh: the seed step is the list of its writes; product-code and collision checks in front of the transaction are not modelled.
- InstanceMigration.Migration.Migrate: restoring is taken to succeed; the documents written to the instance are parameters; the plan's checks, which refuse an instance with files of its own, are preconditions.
- Transactions.AllOrNothing: digests are taken not to collide on the contents planned and found at their targets; a single rename or write is atomic, one transaction is pending at a time, and the integrity hash of the journal is not modelled; the helpers that plan writes are represented by what they establish.
- Gateway.Linearizable: the envelope's parsing, the handlers and the authorization rules are parameters.
- Notifications.NotificationQueue.Dispatch: the order in which pending records are found is arbitrary; scanning for candidates, building mails, and the settings that switch mailing off are not modelled.
- Publish.Store.PublishBundle: JSON parsing, the schemas' other rules and SHA-256 are parameters; references that are not strings are not modelled.
- BundleHash.InputDetermines: that canonical JSON holds no zero byte is a precondition; its printing is not modelled.
- Semver.MatchesStandard: parsing of version and range strings is not modelled; versions are given by their parts.
- Handoff.EmbeddedHandoff: the JSON decoder is a parameter with a progress and a locality law; numbers are kept as text.
- Watchdog.PollsAreBounded: waiting is the only thing that takes time; reading the files, stopping the process tree and its remaining output are not modelled, nor a grant file that holds something other than an object.
- Aggregate.BuildAggregate: executions, transmission statuses, the recurrence bucket and the sorted list of actionable rows are not modelled; origin is one field, and a summary's total a number.
- Empty directories, links, permissions, time stamps and case-insensitive names: a tree is its files.
- Assessment, preflight, compatibility, reconciliation and enrolment: case lists or host calls.
- The cursor adapter's renderer and the member overlay's merge, which repeat the two modelled here.
- The copy plan of the installer and its skip rules: plans are parameters of the update.
