# SpoolCache: verified storage and coordination protocol

SpoolCache keeps the key/value pages of an inference engine on local disks, one
store per worker rank, and lets a scheduler reuse a prefix once every rank holds
all of it. This project models the parts on which that promise rests and proves
them with Dafny 4.11. `dafny verify dfyconfig.toml` checks everything.

The model has four parts.

- **Inventory replication.** `Inventory`, `Reporter`, `ReporterHistory`,
  `ReporterProgress`, `Catalog`, `CatalogIndex`, `CatalogSteps`, `QuorumCatalog`,
  `Snapshots` and `Following` hold the reporter of a worker and the catalog of the
  scheduler: two classes whose methods are proved equal to functions of their
  state, and what these functions do. `Network`, `NetworkRuns`, `FollowingRuns`,
  `InOrder`, `RemovalRuns`, `Convergence`, `ConvergenceRuns`, `QuietRuns` and
  `Generations` connect them by a network that loses, repeats and reorders packets
  while workers restart, and prove what every run keeps. A ghost record of every image that every process
  ever observed says what a catalog image must agree with.
- **Crash-safe files.** `CrashDisk` gives each directory entry a current value
  and the set of values that a crash may leave; a directory fsync narrows that
  set to the current value. Every system call may fail and stored bytes may decay.
  `Condemned` follows the files that were found bad, `DiskMoments` records every
  disk state that was ever reached, `RankFiles` holds the operations, and
  `DiskRuns` what they keep in every run. `Withdrawals`, `VectorWrite`, `Capacity`
  and `Scrub` put acknowledgement, capacity batches and the resumable scrub on
  top.
- **Byte placement and chain coverage.** `Hma`, `PageBytes`, `PageMover`,
  `PageTransfer`, `RoundTrip`, `TokenFiles`, `TokenChain`, `TokenStream`,
  `TokenCommit`, `TokenSave` and `RestoreEntry` follow the bytes from the pages of
  a device through bounded staging ranges into a chain of files and back.
- **Keys and admission.** `PrefixKeys`, `Boundaries` and `Admission` cover the
  identity of a prefix, the arithmetic of its boundaries, and the scheduler's
  bounded admission of restores.

## How the parts fit together

The reporter promises that each packet fits one observed image
(`ReportKeepsInv`), the catalog's methods compute `AfterReport` on its whole
content (`ApplyReport`), and `StepKeepsInv` shows that no step of the network
breaks the link between them. `ConsistentSnapshots` and `NoGhosts` are read off
that invariant for every run. That the catalog also follows its workers is
`NeverWithdrawn`, `RemovedIsGone` and `ConvergesOnceQuiet`. On the data side `ChainCovers` shows that the
files of a chain own every required page once, `Chain` that the walk over parent
links returns exactly such a chain, and `Restore` that a restore leaves the
published payloads of a chain in its pages. `AloneIsWhole` gives the files that a
save leaves behind, and `SavedThenRestored` joins both: bytes captured through one
block table arrive, through another, where they belong.

## Findings

- **A scrub can bring a condemned file back.** Clearing a tombstone after a full
  authentication does not sync the shard directory. If the renaming away of a bad
  file and the linking of its replacement are both not yet durable, a crash after
  the tombstone's durable removal can leave the old name, and nothing marks it:
  `ScrubCanResurrect` gives the state. `ReleaseExact` states exactly when a release
  is safe: the name has had no other file since its directory was last synced.
  `NoResurrection` shows that in every run nothing else can bring the file back,
  and `SettledNeverResurrects` that a directory sync before the release would close
  the gap (src/spoolcache/token_scrub.py:167-171,
  src/spoolcache/rank_store.py:650-654).
- **Eviction can leave a child file behind.** Candidates whose lock offset is busy
  are skipped. Two keys can share a lock offset, so a child can be busy while its
  parent is not. `PeelsTails` states on the files and pins before a batch exactly
  when it leaves a child behind, `PinnedChainsStay` that it never happens without
  such a collision, and `CollisionLeavesChild` gives an instance
  (src/spoolcache/token_files.py:754-770, src/spoolcache/leases.py:33-36).
- **A gap is never bridged.** When the removals do not fit a report, the delta
  skips a number on purpose. `GapNeverBridged` shows that in no run a catalog
  applies it afterwards, however packets are reordered.

## Modelling decisions

- A key is a natural number: 64 hexadecimal digits in lexical order are numbers
  in numeric order. The first two digits are the shard, the first sixteen give
  the lock offset.
- Prefix keys are proved for an arbitrary digest function with 32-byte results. A
  32-byte hash cannot be injective, so the lemmas require only that the strings
  hashed for the two keys do not collide.
- File keys and checksums are exact: a header determines its payload.
- The soundness of a stored file is a fact of the disk that decays without notice;
  authentication computes it, and every recorded release after an authentication
  must be of a sound file.
- Every read and system call may fail. A ghost counter of failures tells when an
  operation must succeed.
- The namespace lock is dropped between the batches of a save; other processes may
  then change the files in any way.
- A Python dictionary is a sequence of keys and a map, because the order in
  which entries were inserted decides what is evicted.
- The per-rank dictionaries of the catalog are one map of records.
- Objects that change are classes with `modifies` clauses. Methods take ghost
  arguments where the proof needs the state in which a caller started.
- A system has one report size, and a worker calls `startup` before its first report,
  as the connector does (src/spoolcache/vllm/connector.py:602-623, 1130-1149).
- The bytes charged for one inventory entry are a parameter of `Bounds`.

## Model

| member | source | states |
|---|---|---|
| Inventory.FitsIsCapacity | src/spoolcache/config.py:41-45 | entries exceed the memory bound exactly when there are more than the capacity computed from it |
| Reporter.InventoryReporter.Replace | src/spoolcache/quorum.py:109-121 | the held inventory becomes the newest entries that fit the memory bound, oldest first, or an invalid entry leaves everything as it was; `ReporterHistory.ReplaceHolds` says it entry by entry |
| Reporter.InventoryReporter.Add | src/spoolcache/quorum.py:124-130 | an entry becomes the newest one, and the oldest is dropped only when the bound requires it; an invalid span changes nothing |
| Reporter.InventoryReporter.Remove | src/spoolcache/quorum.py:133-134 | exactly the key leaves, and the reporter is dirty if it was held; `ReporterHistory.RemoveHeldOk` says what stays |
| Reporter.InventoryReporter.Startup | src/spoolcache/quorum.py:143-151 | the handshake lists what is held in key order, and that is what has been observed |
| Reporter.InventoryReporter.Difference | src/spoolcache/quorum.py:161-199 | the delta names every obsolete key and as many new entries as fit, or skips a number and observes everything held |
| Reporter.InventoryReporter.Next | src/spoolcache/quorum.py:154-250 | the batch bound is enforced, and the whole new state and the report are those of the specification functions |
| ReporterHistory.AddHeldOk | src/spoolcache/quorum.py:124-130 | an addition keeps the bound, evicts the oldest key only to make room for a new one, and re-adding an equal entry changes nothing |
| ReporterHistory.ReplaceHolds | src/spoolcache/quorum.py:109-121 | exactly the newest entries that fit are held, each with its span, the oldest of them first |
| ReporterHistory.AddOrder | src/spoolcache/quorum.py:124-130 | the added key becomes the newest one, the others keep their order, and only the oldest may go |
| ReporterHistory.RemoveHeldOk | src/spoolcache/quorum.py:133-134 | exactly the removed key is gone, the others keep their values and order, and the reporter is dirty if the key was held |
| ReporterHistory.SeenIsHeld | src/spoolcache/quorum.py:214-219 | after a report the observed image is part of the held one, so comparing lengths decides whether they are equal |
| ReporterHistory.MutationsKeepInv | src/spoolcache/quorum.py:109-134 | every mutation of the held inventory keeps the reporter invariant: a clean reporter has observed exactly what is held |
| ReporterHistory.ReportKeepsInv | src/spoolcache/quorum.py:154-250 | every report describes one observed image: its page is cut from the image at its sequence number, its delta joins two observed images, and that image is held |
| ReporterHistory.FirstReportWithdraws | src/spoolcache/quorum.py:201-208 | the first report after a mutation withdraws every obsolete key by name, or starts a gap that withdraws the rank |
| ReporterProgress.NextObserves | src/spoolcache/quorum.py:161-189 | when the obsolete keys fit, the first report of a mutation carries the delta after the last one: it withdraws exactly the obsolete keys and advertises as many new keys as there is room for, and by so many the queue gets shorter |
| ReporterProgress.NextGivesUp | src/spoolcache/quorum.py:186-199 | otherwise the report skips a number, names nothing, and observes all that is held |
| ReporterProgress.ReportDrains | src/spoolcache/quorum.py:161-214 | a report leaves nothing obsolete advertised, and with nothing obsolete before it drains a whole batch of queued keys |
| ReporterProgress.DeltasKept | src/spoolcache/quorum.py:200-208 | the newest delta is the last of at most 64 retained ones, and only the oldest makes room for it |
| ReporterProgress.DeltasRotate | src/spoolcache/quorum.py:237-243 | without a mutation the reports repeat the retained deltas in turn |
| ReporterHistory.ReportsAreValid | src/spoolcache/quorum.py:662-750 | every emitted report passes validation under the same bounds while the counters are in range |
| CatalogIndex.IndexWithoutKey | src/spoolcache/quorum.py:322-331 | taking a key from one rank changes exactly that key's holder set in the inverse index |
| CatalogIndex.IndexWithKey | src/spoolcache/quorum.py:333-341 | giving a key to one rank changes exactly that key's holder set |
| CatalogSteps.EnforcedFacts | src/spoolcache/quorum.py:347-353 | eviction only shrinks images, ends within the bound, and touches nothing when the bound holds |
| CatalogSteps.ReplacedFacts | src/spoolcache/quorum.py:333-353 | a replaced rank shows part of the new image, other ranks only shrink, and nothing is evicted when the union fits |
| CatalogSteps.OwnImageKept | src/spoolcache/quorum.py:333-353 | the keys of a replaced rank become the newest, so that its own report never evicts any of them |
| CatalogSteps.EvictsByAge | src/spoolcache/quorum.py:347-353 | the oldest keys beyond the bound go from every rank, and no other key of any rank changes |
| CatalogSteps.ReportStep | src/spoolcache/quorum.py:468-594 | any report, honest or malformed, keeps the catalog well formed (bound, recency, withdrawn ranks empty) and changes no other rank except by eviction |
| CatalogSteps.StartupStep | src/spoolcache/quorum.py:422-466 | the same for any startup handshake |
| QuorumCatalogs.QuorumCatalog.UnlistAll | src/spoolcache/quorum.py:322-331 | the loop over a rank's entries leaves the exact inverse index of the images without that rank |
| QuorumCatalogs.QuorumCatalog.Announce | src/spoolcache/quorum.py:333-341 | the loop over the new entries leaves the exact inverse index, and moves the keys to the end of the recency order |
| QuorumCatalogs.QuorumCatalog.EnforceBound | src/spoolcache/quorum.py:347-353 | the eviction loop ends exactly at the view in which the oldest keys beyond the bound are gone from every rank |
| QuorumCatalogs.EvictionStages | src/spoolcache/quorum.py:347-353 | every turn of that loop is one stage between the view before and the view within the bound |
| QuorumCatalogs.QuorumCatalog.Identify | src/spoolcache/quorum.py:368-420 | an identity is initial, newer, current, stale or conflicting, and is adopted or withdraws the rank accordingly |
| QuorumCatalogs.QuorumCatalog.ApplyReport | src/spoolcache/quorum.py:468-594 | a packet moves the whole content as the view function does; the inverse index stays exact and a memoised count true; it raises exactly for an unknown rank or a malformed identity; what the view function does is said by `Following.DeltaIsApplied`, `Convergence.PageConverges` and the rows of `Generations` |
| QuorumCatalogs.QuorumCatalog.ApplyStartup | src/spoolcache/quorum.py:422-466 | the same for a handshake, which raises exactly for an unknown rank, a malformed identity, or a new process with an unacceptable inventory; what the view function does is said by `Following.GreetingSynchronizes` and the rows of `Generations` |
| QuorumCatalogs.QuorumCatalog.HasQuorum | src/spoolcache/quorum.py:596-604 | true exactly when every expected rank advertises the key with one common span, or with the given span |
| QuorumCatalogs.QuorumCatalog.QuorumCount | src/spoolcache/quorum.py:614-619 | the value is the number of keys with quorum; it is memoised afterwards, and a memoised value is returned as it stands |
| Snapshots.PageAccepted | src/spoolcache/quorum.py:545-571 | a page that an honest reporter cut is never refused by the collecting checkpoint |
| Snapshots.AllPages | src/spoolcache/quorum.py:571-594 | all pages together are exactly the observed image, in order and without repetition |
| Snapshots.BodySnapshot | src/spoolcache/quorum.py:515-594 | after delta, gap and page the rank is withdrawn, or shows part of one observed image at least as new as the checkpoint |
| Following.DeltaIsApplied | src/spoolcache/quorum.py:515-529 | a consecutive delta is applied: the rank stays synchronized and shows the added keys with their spans, the old ones that were neither removed nor added, and nothing else |
| Following.ReportFollowed | src/spoolcache/quorum.py:515-594 | an honest report that repeats the sequence number or follows it by one delta never withdraws a synchronized rank |
| Following.GreetingSynchronizes | src/spoolcache/quorum.py:422-466 | the handshake of a first or newer process synchronizes the rank on exactly its entries |
| Network.EmittedFits | src/spoolcache/quorum.py:154-250 | sending a report keeps every packet ever sent and every catalog image consistent with the observed images |
| Network.RestartedFits | src/spoolcache/vllm/connector.py:602-623 | a new process that loads its store, withdraws marked keys and calls startup keeps the same consistency |
| Network.StepKeepsInv | src/spoolcache/quorum.py:422-594 | every step (mutation, report, restart, or delivery of any packet ever sent) keeps the invariant of the whole system |
| NetworkRuns.ConsistentSnapshots | src/spoolcache/quorum.py:187-230 | in every run, under any loss, repetition and reordering, a synchronized rank shows part of one observed image of one process, never a mix of two, and pending pages come from one image |
| NetworkRuns.SequenceNeverDecreases | src/spoolcache/quorum.py:515-594 | within one generation no step moves a rank's sequence backwards |
| NetworkRuns.GapSkips | src/spoolcache/quorum.py:186-201 | a report that cannot name its removals starts at a number at which nothing was or will be observed |
| NetworkRuns.SkippedStays | src/spoolcache/quorum.py:186-201 | no step of the worker ever observes an image at a skipped number |
| NetworkRuns.SkippedNeverApplied | src/spoolcache/quorum.py:515-543 | in any reachable state a delta whose base was skipped does not continue the rank's record |
| NetworkRuns.SkippedForever | src/spoolcache/quorum.py:186-201 | in every run a skipped number stays skipped, across any later steps and restarts |
| NetworkRuns.GapNeverBridged | src/spoolcache/quorum.py:186-201 | in every run, once a report that cannot name its removals was sent, its delta continues no synchronized record at any later moment |
| FollowingRuns.NeverWithdrawn | src/spoolcache/quorum.py:468-594 | in every run a synchronized rank whose packets arrive once each, in order and without a gap is never withdrawn and stands at its last packet, whatever happens to other ranks |
| FollowingRuns.ShowsEverything | src/spoolcache/quorum.py:468-594 | while nothing of it is evicted for other ranks, it shows all that its worker had advertised with that packet |
| FollowingRuns.GreetingStarts | src/spoolcache/quorum.py:422-466 | a delivered handshake of a superseding process is such a beginning |
| InOrder.SynchronizedIsHeld | src/spoolcache/quorum.py:468-594 | in every run in which a rank's packets do not overtake one another, a synchronized rank stands exactly at its last delivered packet, and shows only what was held when that was sent |
| InOrder.NoGhosts | src/spoolcache/quorum.py:596-604 | a key with quorum was held with that span by every rank when it sent its latest delivered packet |
| RemovalRuns.BootedHolds | src/spoolcache/vllm/connector.py:602-623 | a starting worker holds what its store offers except every marked key |
| RemovalRuns.RemovedIsGone | src/spoolcache/quorum.py:133-134 | in every run without overtaking packets, a key that was removed and not offered again is not shown from the first packet after the removal on, and has no quorum |
| Convergence.QuietRests | src/spoolcache/quorum.py:160-219 | with no additions queued, one report observes all that is held, however many removals are pending |
| Convergence.PageConverges | src/spoolcache/quorum.py:545-594 | an honest page of the newest image completes the image exactly or is kept |
| Convergence.FirstConverges | src/spoolcache/quorum.py:468-594 | the first report that is listened to leaves the catalog following the worker |
| Convergence.StepConverges | src/spoolcache/quorum.py:515-594 | each further report keeps what was gathered, and an exact image stays exact |
| Convergence.Converges | src/spoolcache/quorum.py:216-250 | any `2 * count` consecutive delivered reports of a worker at rest leave the rank synchronized on exactly what is held, however full the catalog is |
| Convergence.ReachableIsReady | src/spoolcache/quorum.py:368-420 | in every reachable state the catalog is ready for any worker it listens to, so that convergence applies |
| ConvergenceRuns.ConvergesInRun | src/spoolcache/quorum.py:154-250 | in every run, from any moment at which a worker is at rest, `2 * count` of its reports, each delivered before the next is sent, leave its rank synchronized on exactly what it holds, while anything happens to the other ranks |
| QuietRuns.ComesToRest | src/spoolcache/quorum.py:160-219 | in every run, once its inventory is not touched, a worker has advertised all that it holds after one report and one more for each batch of queued entries |
| QuietRuns.ConvergesOnceQuiet | src/spoolcache/quorum.py:154-250 | and two more cycles of pages leave its rank synchronized on exactly what it held when its inventory was last touched |
| Generations.GenerationState.Reserve | src/spoolcache/rank_store.py:477-587 | a reserved epoch lies in [2^62, 2^63), is larger than every epoch ever returned, and is the least that the record and the clock allow; a record or clock out of range is refused unchanged, and otherwise only a failing system call prevents it |
| Generations.GenerationState.Crash | src/spoolcache/rank_store.py:447-475 | a crash that loses any unsynced name keeps that promise |
| Generations.LaterEpochIsAdopted | src/spoolcache/quorum.py:368-392 | a process with a later reservation is newer to a catalog that knows an earlier one |
| Generations.ConflictStays | src/spoolcache/quorum.py:368-420 | a packet that does not carry a strictly larger epoch leaves a conflicting rank empty and desynchronized |
| Generations.ConflictEnds | src/spoolcache/quorum.py:394-412 | the first packet that supersedes ends the conflict, even when the rest of it is malformed |
| Generations.ConflictSticky | src/spoolcache/quorum.py:368-420 | through any packets of any ranks a rank in conflict stays withheld until an identity supersedes its own |
| Generations.SupersededIsRemembered | src/spoolcache/quorum.py:394-412 | a superseded identity is remembered, and only the oldest one of a full history is forgotten for it |
| Generations.PreviousIsIgnored | src/spoolcache/quorum.py:376-387 | after a restart whatever still arrives from the previous process changes nothing |
| Generations.AmbiguousIsWithheld | src/spoolcache/quorum.py:368-392 | a malformed identity, an older one that is not remembered, or another one of the same epoch empties the rank and puts it in conflict |
| Generations.MalformedIsCleared | src/spoolcache/quorum.py:502-514 | a malformed report of a process that the rank follows or must follow leaves the rank empty, with nothing collected |
| Generations.RefusedIsCleared | src/spoolcache/quorum.py:455-466 | a handshake that cannot be taken leaves the rank of the new process empty |
| Generations.RepeatedIsIgnored | src/spoolcache/quorum.py:450-454 | a repeated handshake changes nothing |
| CrashDisk.CrashIsSafe | src/spoolcache/rank_store.py:635-672 | in every crash state a fenced key has its marker and every live name points at completely written, synced content of its own key |
| RankFiles.RankFiles.Mark | src/spoolcache/rank_store.py:636-647 | a completed mark is durable, even if the marker existed before; only this key's marker changes |
| RankFiles.RankFiles.Clear | src/spoolcache/rank_store.py:650-654 | a cleared marker is gone, durably if it was there |
| RankFiles.RankFiles.EnsureShard | src/spoolcache/rank_store.py:772-783 | a shard that is reported ready has a durable link |
| RankFiles.RankFiles.Publish | src/spoolcache/token_files.py:410-452 | a file is written and synced before it is linked under an absent name; the tombstone goes only when the new name is durable; under an absent name only a failing system call prevents it |
| RankFiles.RankFiles.Quarantine | src/spoolcache/rank_store.py:785-836 | the key is marked, then its name is renamed away; only the owner of the inventory clears the tombstone, and only after a complete receipt; only a failing system call prevents it |
| RankFiles.RankFiles.QuarantineBad | src/spoolcache/token_files.py:346-351 | a pinned bad file keeps its name and is durably marked instead |
| RankFiles.RankFiles.Evict | src/spoolcache/token_files.py:725-736 | a busy or absent key is refused; otherwise the name goes only below a completed mark, and removal means durable absence; otherwise only a failing system call prevents it |
| RankFiles.RankFiles.SyncAbsence | src/spoolcache/rank_store.py:759-770 | absence is durable afterwards, even when the whole shard is missing |
| RankFiles.RankFiles.Acknowledge | src/spoolcache/rank_store.py:724-757 | a signal is retired only after the name is durably absent; a live name keeps its tombstone; only a failing system call prevents it |
| RankFiles.RankFiles.Scrub | src/spoolcache/token_scrub.py:149-178 | a pinned or absent key is left untouched; unless a read or system call fails, a file that is sound on the disk keeps its name and loses its tombstone, and an unsound one is quarantined; a condemned file other than the live one can be given up only when the name is not settled |
| RankFiles.RankFiles.Release | src/spoolcache/token_scrub.py:167-171 | the release after an authentication ends the fence of the key and un-condemns at most the files that can come back under it; on a settled name only the live file itself |
| RankFiles.RankFiles.Decay | src/spoolcache/token_files.py:305-321 | a stored file may lose its soundness at any moment, without any name changing |
| RankFiles.RankFiles.OpenView | src/spoolcache/token_files.py:541-566 | a restore view pins every file of its chain |
| DiskRuns.CrashFence | src/spoolcache/rank_store.py:635-672 | once a mark is complete, a crash at any later moment leaves the marker, unless absence became durable, a fresh file was durably published, or the live file was sound when it was authenticated in full |
| DiskRuns.CrashNames | src/spoolcache/token_files.py:410-452 | a live name in any crash state of any moment points at whole content of its own key, which is never changed afterwards |
| DiskMoments.NamesAfter | src/spoolcache/token_files.py:541-566 | no change of a name touches a file of an open view, also when lock offsets collide |
| Condemned.CanCondemn | src/spoolcache/rank_store.py:785-801 | a file whose key has a completed mark can be condemned: no crash shows it without its marker |
| Condemned.SyncShardKeepsHidden | src/spoolcache/rank_store.py:759-783 | a directory sync keeps condemned files hidden |
| Condemned.NamesKeepHidden | src/spoolcache/token_files.py:410-452 | unlinking, renaming away and linking a new file keep condemned files hidden |
| Condemned.ReleaseKeepsHidden | src/spoolcache/rank_store.py:650-654 | removing a tombstone keeps given condemned files hidden if and only if none of them can come back under the key |
| Condemned.ReleaseExact | src/spoolcache/rank_store.py:650-654 | releasing a complete tombstone keeps every condemned file but the live one hidden if and only if the name is settled: since the last sync of its directory it has had no file but the one it has now |
| Condemned.SyncSettles | src/spoolcache/rank_store.py:759-770 | a sync of the shard directory settles the name |
| DiskRuns.ScrubCanResurrect | src/spoolcache/token_scrub.py:167-171 | without that the release of a scrub can expose a file: on the disk that two failed directory syncs leave it is justified and the bad file hidden, and a crash after it brings the file back with no marker |
| DiskRuns.NoResurrection | src/spoolcache/token_scrub.py:149-178 | in every run, whatever operations, failures and crashes follow, a file found bad under a complete mark is live in no crash state without its marker, unless a release after an authentication exposed it |
| DiskRuns.SettledNeverResurrects | src/spoolcache/token_scrub.py:149-178 | with a directory sync before every such release it never comes back at all |
| Withdrawals.MarkerScan.Batch | src/spoolcache/rank_store.py:674-722 | every marked key is withdrawn; the page holds the least keys above the cursor, wrapping to the start, and only a full page leaves a cursor |
| Withdrawals.EveryMarkIsOffered | src/spoolcache/rank_store.py:712-722 | while marks come and go between pages, a mark that stays is offered for acknowledgement by the end of the sweep under way and one more, wherever the cursor stands |
| VectorWrite.Unwritten | src/spoolcache/token_files.py:78-84 | dropping what a short write took leaves exactly the rest of the bytes |
| VectorWrite.OpenFile.WriteVector | src/spoolcache/token_files.py:71-87 | short writes append all parts exactly once and in order; a failure leaves a prefix of them and follows a failing call, unless there is nothing to write |
| Capacity.TouchOrders | src/spoolcache/token_files.py:529-538 | touching a chain from its end makes every present parent newer than its present children, also where prefixes are shared |
| Capacity.CapacityStore.Touch | src/spoolcache/token_files.py:529-538 | the loop computes exactly that order and keeps the store ordered |
| Capacity.CapacityStore.Save | src/spoolcache/token_mover.py:82-157 | a completed save adds the missing files of the chain and leaves the store ordered |
| Capacity.SelectOldest | src/spoolcache/token_files.py:765-765 | the selection is the first `n` candidates by modification time and key |
| Capacity.AmongFirst | src/spoolcache/token_files.py:754-765 | a file is among the removed ones if and only if it is idle and fewer idle files than are removed come before it |
| Capacity.CapacityStore.MaintainBatch | src/spoolcache/token_files.py:738-783 | a batch removes the oldest idle files in order, at most four and within a fifth of all files or the quota left before, nothing below the trigger, and reports what is left; only a failing eviction ends it early |
| Capacity.PeelsTails | src/spoolcache/token_files.py:754-770 | a batch leaves a child behind if and only if some idle file with fewer than the batch's number of idle files before it has a busy present child |
| Capacity.PinnedChainsStay | src/spoolcache/token_files.py:754-770 | when restores pin whole chains and lock offsets do not collide, no batch leaves a child behind |
| Capacity.CollisionLeavesChild | src/spoolcache/leases.py:26-36 | with a collision of lock offsets it can happen |
| Scrub.Scrubber.StartCycle | src/spoolcache/token_scrub.py:91-97 | a cycle starts at the beginning, and a running one is continued |
| Scrub.Scrubber.BeginStep | src/spoolcache/token_scrub.py:128-143 | a step takes the target, or the least keys above the cursor, without skipping any |
| Scrub.Scrubber.HandleNext | src/spoolcache/token_scrub.py:150-184 | under the lock a key is authenticated or quarantined and only then does the cursor pass it; a changed record or a pin defers it, a failing quarantine leaves the cursor where it was; an authentic file is quarantined only after a failure |
| Scrub.Scrubber.FinishCycle | src/spoolcache/token_scrub.py:189-198 | when a cycle completes, every key present from its start to its completion was authenticated or quarantined in it |
| Hma.SlidingCoverage | src/spoolcache/hma.py:126-131 | a sliding group keeps just enough pages for `min(span, window - 1)` tokens, and not one more |
| Hma.SelectionIsExact | src/spoolcache/hma.py:137-174 | a selection has the required number of distinct usable pages, and page-indexed groups end exactly at the boundary |
| Hma.SelectionDecided | src/spoolcache/hma.py:115-174 | the selection succeeds exactly when there is a list of usable pages at the places that the kind of group prescribes, and then is that list |
| Hma.ValidateCoverage | src/spoolcache/hma.py:318-345 | the loop accepts exactly the sequences of files that give every layer each required page once and in order |
| Hma.GapNeverCovers | src/spoolcache/hma.py:329-338 | a slice that does not start at its layer's cursor can never be part of an acceptable sequence |
| PageBytes.DenseRun | src/spoolcache/gpu.py:271-283 | dense pages with consecutive identifiers are one run of bytes |
| PageMover.WholePages | src/spoolcache/gpu.py:432-446 | from a page boundary a range is whole pages and a proper part of one more |
| PageMover.Device.CopyPageBytes | src/spoolcache/gpu.py:402-457 | a bounded range moves exactly that slice of the concatenated pages, in either direction and on either path, and nothing else changes; out of range is refused |
| PageTransfer.SegmentByteRanges | src/spoolcache/gpu.py:286-299 | the pieces of a file range are, in order, exactly the requested bytes |
| PageTransfer.Mover.CopyRange | src/spoolcache/gpu.py:459-492 | a range that starts and ends anywhere in a file moves exactly its bytes |
| PageTransfer.Mover.Capture | src/spoolcache/gpu.py:459-492 | a capture fits one staging credit and yields exactly the bytes of the selected pages |
| TokenStream.Receiver.Receive | src/spoolcache/gpu.py:588-608 | ranges are placed one after another; an oversized or empty one is refused and places nothing |
| TokenStream.Receiver.Close | src/spoolcache/gpu.py:609-615 | a file is accepted only when all of it was received |
| RoundTrip.CoverageIsExact | src/spoolcache/hma.py:318-345 | accepted coverage holds every required byte exactly once and no other |
| RoundTrip.RestoreAfterCapture | src/spoolcache/gpu.py:402-615 | capturing through one block table and restoring through another copies every byte of every required page of every layer to its place |
| RoundTrip.RestoreFrame | src/spoolcache/gpu.py:577-615 | every other byte of the device keeps its value |
| TokenFiles.DataTiles | src/spoolcache/manifest.py:65-76 | data files tile the pages of full groups, and other groups get nothing from them |
| TokenFiles.ChainCovers | src/spoolcache/manifest.py:65-76 | the files of spans `chunk`, `2 * chunk`, ... with their boundary state cover every required page of every layer exactly once |
| TokenChain.BrokenWalk | src/spoolcache/token_files.py:457-474 | where the next file is missing, malformed or out of step no restorable chain exists |
| TokenChain.TokenStore.Walk | src/spoolcache/token_files.py:454-480 | the walk ends on any content, cyclic links included, and returns the only chain of the key, or refuses when there is none and quarantines at most the file at fault |
| TokenChain.TokenStore.Chain | src/spoolcache/token_files.py:454-505 | the same with the exact boundary state; coverage accepts whatever the walk returns |
| TokenChain.ChainAccepted | src/spoolcache/hma.py:318-345 | a chain covers every required page exactly once |
| TokenStream.RangesAreAuthentic | src/spoolcache/token_files.py:647-682 | every range of a file is its published bytes at that place, fits one credit, and together they are the payload |
| TokenStream.VerifyBuffer | src/spoolcache/token_files.py:638-645 | a buffer passes exactly when it is the published payload |
| TokenStream.NextBatch | src/spoolcache/token_files.py:592-599 | a batch has at most sixteen files, fits one credit, and no further file would fit |
| TokenStream.StreamLarge | src/spoolcache/token_files.py:647-682 | a large file is placed range by range, each compared with what was published before it is placed |
| TokenStream.StreamObjects | src/spoolcache/token_files.py:568-636 | normal return places every range of every file of the chain once and in order; a failure leaves an authentic proper prefix, and blames a file of the chain or the receiver; the device memory is always what was placed; a blamed file is damaged, and a failure without blame means that the device failed |
| RestoreEntry.ProgramPuts | src/spoolcache/gpu.py:516-615 | placing every streamed range is placing the published payloads file after file |
| RestoreEntry.Restore | src/spoolcache/gpu.py:494-615 | one restore over streaming and placement: on success the device memory is the old one with every published payload in its pages; after a failure, with an authentic proper prefix; with every file intact only a failing device prevents success |
| TokenCommit.CaptureFiles | src/spoolcache/token_mover.py:103-127 | cutting one packed capture of several files yields each file's own pages |
| TokenCommit.CaptureStreamed | src/spoolcache/token_mover.py:160-175 | captured in ranges, a large file yields the same bytes as in one |
| TokenCommit.PayloadsTogether | src/spoolcache/token_mover.py:103-127 | the payloads of a chain, put together, are one capture of all of it |
| TokenCommit.RestoreInOrder | src/spoolcache/gpu.py:516-615 | placing file after file is one restore of the whole chain |
| TokenCommit.SavedPrefixRestores | src/spoolcache/token_mover.py:59-177 | end to end: files captured through one block table and placed through another put every byte of every required page where it belongs |
| RestoreEntry.SavedThenRestored | src/spoolcache/token_mover.py:59-177 | the payloads of the files that a save leaves in the store, restored through another block table, put every byte of every required page where it belongs |
| RestoreEntry.SavedIsIntact | src/spoolcache/token_files.py:272-321 | what a save has left in the store can be read back in full |
| TokenSave.AfterHolds | src/spoolcache/token_mover.py:86-103 | afterwards every chunk has the sound file that was stored, or its own |
| TokenSave.BatchIsChunks | src/spoolcache/token_mover.py:82-129 | removing the unsound files of a batch and then writing the missing chunks is the same as going chunk by chunk |
| TokenSave.FileSize | src/spoolcache/token_mover.py:80-81 | all data files have one size, from which the batch size is computed |
| TokenSave.BatchCount | src/spoolcache/token_mover.py:81-81 | a batch has between one and sixteen chunks, fits the credit whenever one chunk does, and has as many as fit |
| TokenSave.PrefixSaver.FindMissing | src/spoolcache/token_mover.py:86-98 | exactly the chunks without a sound file are captured; unsound files are gone unless they are pinned |
| TokenSave.PrefixSaver.SaveBatch | src/spoolcache/token_mover.py:83-128 | one batch leaves the files as saving its chunks one by one would; a failure touches no file but those of missing chunks, each of which is as it was, gone, or its own; a pinned bad file always leads to one, and otherwise only a failing system call does |
| TokenSave.PrefixSaver.SavePrefix | src/spoolcache/token_mover.py:59-129 | each batch is one turn under the namespace lock, other processes act in between, and every completed turn is a batch of the plan; the last turn of a failed save spares all sound files |
| TokenSave.PrefixSaver.SaveKeys | src/spoolcache/token_mover.py:59-148 | the same with the boundary state of the prefix's end as a turn of its own |
| TokenSave.TurnStores | src/spoolcache/token_mover.py:83-128 | whatever happens between turns, every chunk has the sound file that was stored, or its own, when its turn ends |
| TokenSave.AloneIsWhole | src/spoolcache/token_mover.py:59-129 | when no other process changes the files, all turns together leave them as saving the whole plan chunk by chunk would |
| PrefixKeys.CountIsNoDomain | src/spoolcache/prefix.py:81-96 | the token count of a chunk can never read as the start of the media domain |
| PrefixKeys.ChainIdentifies | src/spoolcache/prefix.py:147-199 | for any 32-byte digest function without a collision among the hashed strings, chained digests are equal if and only if span, deployment, salt and tokens are |
| PrefixKeys.TextIsNotMedia | src/spoolcache/prefix.py:184-199 | what is hashed for a text-only digest is never what is hashed for one with media mixed in |
| PrefixKeys.ActiveAre | src/spoolcache/prefix.py:81-96 | a feature enters a key, as often as it occurs, if and only if its offset is below the span |
| PrefixKeys.ActivePrefix | src/spoolcache/prefix.py:81-96 | of ordered features these are the first ones, in order |
| PrefixKeys.KeyIdentifies | src/spoolcache/prefix.py:147-199 | for any such function two keys are equal if and only if span, deployment, salt, the tokens up to the span and the features with offsets below the span are equal; keys of one span need nothing more than that their strings do not collide |
| PrefixKeys.ValidateFeatures | src/spoolcache/prefix.py:36-78 | accepts exactly named, ordered, disjoint features inside the prompt |
| PrefixKeys.MultimodalPayload | src/spoolcache/prefix.py:81-96 | the loop encodes exactly the features that start before the boundary, in order |
| PrefixKeys.PrefixDigests | src/spoolcache/prefix.py:147-199 | refuses exactly the malformed inputs and otherwise yields the key of every requested boundary, in order |
| PrefixKeys.KeyListed | src/spoolcache/prefix.py:184-199 | every requested whole boundary has its key |
| PrefixKeys.KeyIsRequested | src/spoolcache/prefix.py:184-199 | there is no other key, and the keys come in the order of their spans |
| Boundaries.Gcd | src/spoolcache/prefix.py:123-126 | the loop yields the greatest common divisor, and a combination of both numbers that equals it |
| Boundaries.LeastCommonMultiple | src/spoolcache/prefix.py:114-114 | `a * b / gcd` divides exactly the common multiples of both |
| Boundaries.AlignedPrefixSpan | src/spoolcache/prefix.py:99-120 | the span is zero, or the greatest common multiple of alignment and chunk below the prompt and the cap |
| Boundaries.AlignedChunkTokens | src/spoolcache/config.py:48-54 | the chunk is the least multiple of the alignment that is at least 256 |
| Boundaries.AlignmentTokens | src/spoolcache/hma.py:295-301 | the alignment divides exactly the lengths that are whole pages of every page-indexed group |
| Boundaries.ChunkMultiplesAreLegal | src/spoolcache/hma.py:112-135 | every positive multiple of the chunk is a legal span of every group, with sliding pages covering `min(span, window - 1)` tokens |
| Admission.Scheduler.SelectPrefix | src/spoolcache/vllm/connector.py:279-292 | the selected boundary is the longest eligible one below the first key without quorum |
| Admission.Scheduler.Lookup | src/spoolcache/vllm/connector.py:274-298 | the longest prefix that leaves a token to compute, goes beyond what is computed, and whose every chunk and boundary state have quorum; none only when none exists |
| Admission.Scheduler.GetNumNewMatchedTokens | src/spoolcache/vllm/connector.py:807-890 | zero exactly when the request is skipped, refused or over the budget of two, or no usable boundary lies beyond what is computed; otherwise the longest usable one; its quorums and prompt are recorded with the load |
| Admission.Scheduler.UpdateStateAfterAlloc | src/spoolcache/vllm/connector.py:900-927 | raises exactly for a negative count, and for a positive one that does not match the admitted load or whose pages cannot be selected; otherwise the load becomes pending with the grounds of its admission |
| Admission.Scheduler.BuildConnectorMeta | src/spoolcache/vllm/connector.py:929-976 | hands out every pending load once and forgets finished requests; each load handed out had quorum at every boundary and a span below its prompt when it was admitted |
| Admission.JustifiedLoad | src/spoolcache/vllm/connector.py:274-298 | what the grounds of a load mean: computed < span < prompt, and every boundary up to the span, with its state, had quorum |

## Left out

- GPU execution: streams, events, pinned registration, the cached index tensor
  and asynchronous copies; a copy is an immediate update of a byte array, and a
  copy that fails places nothing.
- The layout of page tensors: each (group, layer) has its own memory, which
  `OwnMemory` states as an assumption of the round trip because the code checks
  that pages are distinct only within a group. Block identifiers are below the
  number of blocks.
- SHA-256, JSON and UTF-8: headers are records, and the checksums of a header
  determine the payload.
- Type guards (bool against int), symbolic-link and regular-file checks.
- The construction and digests of a layout from the runtime's objects
  (`build_hma_layout`), and deployment identity.
- OS locks and threads: one namespace lock makes each operation an atomic step, and
  byte-range locks are a set of pins. The model does not capture operations that
  run without that lock.
- Counter overflow at 2^63 of report sequences and cycles; for epochs the bound is
  part of what is proved.
- ReportsAreValid: holds while the counters are below the protocol's limit, which
  the code checks on receipt and not on sending.
- Capacity.TouchOrders: relies on modification times from a strictly increasing
  clock and on completed touches; equal timestamps are not modelled.
- Byte and item budgets, cancellation and pacing of the scrub: a step may stop after
  any key.
- The corrupt-state repair of the scrub record, and the recovery sweep that removes
  temporary files.
- Quarantine and temporary files are modelled only as system calls that may fail;
  their names are not. During a save a quarantine does not fail.
- Read errors other than damaged or truncated bytes while streaming.
- `scan_offers` and `lookup`: a starting worker may find any offers and any marks.
- The size limits that a store places on a layout before it is used
  (`validate_layout`), and header length limits.
- `longest` of the catalog, which only tests use, and its readiness counters. The
  counter of generation changes is kept, but nothing more is proved of it.
- The scheduler's store tracking (`_safe_store_span` and store progress) and its
  request bookkeeping beyond the pending restores.
- Telemetry, the event journal, command line, benchmarks and release scripts.
