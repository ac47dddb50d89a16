# Verified model of the OpenDSN node's hard core

OpenDSN is a Filecoin-style storage node. This project models the parts of it where a wrong step is hard to see, and
proves what they are there for.

* **Chain sync** (`Chain`, `Exchange`, `ForkChoice`, `BadBlocks`, `Headers`, `Messages`, `Syncer`). A candidate head is
  walked back to our own chain, joined to it by fast forward, as a sibling or through a fork, filled with messages and
  replayed oldest first; blocks are validated one by one, and the store may expand what it is given by other validated
  blocks. In every reachable state, with any number of concurrent workers and whatever the store makes of their targets,
  the head's whole ancestry has been validated, every block after all blocks of its parent tipset.
* **Sync scheduling** (`SyncBuckets`, `Ring`, `SyncManager`). Peer heads become sync workers through buckets of related
  candidates. Every event sequence keeps the worker limits, the bookkeeping of worker ids and a ledger in which each
  spawn beats the last successful syncs of its time.
* **Autobatching blockstore** (`Autobatch`, `AutobatchStore`). Puts, flushes and gets under two locks, as a state
  machine over the atomic sections of the code. No interleaving loses, reorders or repeats a put.
* **Versioned files** (`MetaText`, `Versions`, `VersionCommands`, `Reconstruct`). Versions are recorded in two-line text
  files that are rewritten in place; listing walks them forwards, retrieving walks them backwards and patches the root up
  to the target. The two agree, and a retrieved version has the recorded content.
* **CBOR codecs** (`Cbor`, `Codec`, `CodecMethods`, `ApiTypes`). The generated record codecs, for every value and type:
  what is written is read back, whatever follows it and in whatever order the keys come; and exactly which accepted
  input can be written again.
* **Dispute scheduling** (`Disputer`). Which miner is looked at in which epoch: over whole runs of the command every
  known miner stays in exactly one bucket.
* **Timed cache** (`TimedCache`). What is visible after any history of puts, deletes and rotations.
* **Deal dialogue** (`DealPricing`, `DealWizard`). Picking asks within a budget, and what is proposed to whom.

## How the outside is modelled

Peers, the chain store, the consensus rules, the patch tool and the user are function-valued parameters that may answer
anything within what their interfaces promise. Where a call asks the same question again, such as for the parent of our
head when a fork is resolved after a failed join, it gets the same answer; between calls answers may change. `Dag` is
everything that exists under content addressing; a `View` is the part of it that a node and its peers happen to know.
Concurrency is a state machine over atomic sections, with theorems about all runs. Go's random map iteration is a
nondeterministic choice. Histories that the theorems speak about (validated blocks, puts, marks, applied epochs) are
ghost state.

Some properties hold only under a condition, and the condition is proved to be exact:

* Every recorded version is listed from its root if and only if only versions without a next one were ever updated
  (`Versions.AllListedIffHeads`). Updating an older version again leaves the one that it had pointed to retrievable but
  unlisted (`Versions.OverwrittenIsUnlisted`).
* A fork is resolved if and only if the fetched segment meets our chain within the threshold, above height 0 and without
  dropping the checkpoint, and each error is returned if and only if its own cause comes first (`ForkChoice.SyncFork`).
* Accepted CBOR can be written again if and only if every field is given a value that can, or has a zero value that can
  (`CodecMethods.Normalised`). An undefined CID has no encoding, so a sector piece without its `Piece` key, such as the
  empty map, is accepted and cannot be written back (`ApiTypes.EmptySectorPiece`, `ApiTypes.SectorPieceRewritable`);
  deal information always can (`ApiTypes.PieceDealInfoRewritable`).
* The disputer declares the flag `start-epoch` but looks for `height`, so its start epoch is always 0 and
  `Disputer.Dispute` holds of the command as it is written. With a start epoch, as the flag promises, a known miner would
  stay followed if and only if its first bucket lies after the start epoch or has not come up yet
  (`Disputer.FollowedIff`); `Disputer.EarlyMinerIsLost` is such a run, which the command cannot make today.

Reading a byte-string key twice, the second time with an empty string, takes as many bytes of the input as the first one
had, as the reader fills the slice that is there (`CodecMethods.RepeatedKeys`).

The comment on the deferred-target selection speaks of the active syncs; the code asks only the first one that the map
iteration yields, and the model follows the code (`SyncManager.Scheduler.Consider`).

## Model

| member | source | states |
|---|---|---|
| Chain.ParentIsLower | chain/types/tipset.go:239-245 | an existing parent is strictly lower and is the parent in the sense of IsChildOf |
| Chain.LineageShape | chain/types/tipset.go:239-245 | the ancestors of a tipset form a linked chain that ends where there is no parent |
| Chain.LinkedIsLineage | chain/exchange/client.go:214-221 | a connected list of existing tipsets can only be a stretch of the ancestry of its first one |
| ForkChoice.SyncFork | chain/sync.go:879-940 | succeeds iff the fetched segment meets our chain within 900 drops, above height 0, with every dropped tipset loadable and the checkpoint kept; the fragment is then the parent-to-fork-point stretch of the incoming chain; every error is returned iff its cause ends the comparison; when checkpoints are ignored all this holds without one, and none is ever the cause |
| ForkChoice.NoCheckpointKept | chain/sync.go:881-887 | without a checkpoint that counts no fork fails for one |
| ForkChoice.CompareFork | chain/sync.go:896-940 | once a segment is there: resolved iff it meets our chain as above, and each error iff the comparison ends with it |
| ForkChoice.WalkFork | chain/sync.go:896-940 | the comparison of the two chains stops at the first meeting point, or at the first obstacle, whichever comes first |
| ForkChoice.EndIsUnique | chain/sync.go:896-940 | a comparison has one outcome: no two ends, of whatever kind and at whatever depth, are possible for the same chains |
| ForkChoice.ForkPointIsHighestCommon | chain/sync.go:879-940 | every tipset that both chains share strictly below their heads is at or below the end of the fragment |
| ForkChoice.AdvanceFork | chain/sync.go:917-918 | passing a fork tipset that is higher than ours passes no meeting point |
| ForkChoice.DropOurs | chain/sync.go:919-936 | dropping ours when it is at least as high and different drops no meeting point |
| BadBlocks.MarksAreJustified | chain/badtscache.go:29-35 | in every run of marks, an inherited reason names a first cause marked earlier on a block that the marked block descends from |
| BadBlocks.ReasonsAreShallow | chain/badtscache.go:29-43 | a reason is at most one step from its first cause, so rendering it ends |
| BadBlocks.LinkedDescends | chain/sync.go:744-753 | every block of a linked list descends from each parent of its last tipset |
| BadBlocks.BadBlockCache.AddLinked | chain/sync.go:744-753 | exactly the listed blocks get the reason linked to the bad one, and the marks stay a justified run |
| BadBlocks.BadBlockCache.AddFirstCause | chain/sync.go:1231-1234 | one entry is replaced by a first cause, and the marks stay a justified run |
| BadBlocks.BadBlockCache.Remove | chain/sync.go:1236-1238 | one entry goes, the history stays |
| BadBlocks.BadBlockCache.Purge | chain/sync.go:1240-1242 | all entries go, the history stays |
| Headers.BeaconSorted | chain/sync.go:708-715 | accepted iff no round is below an earlier one |
| Headers.BeaconAgrees | chain/sync.go:717-729 | accepted iff all blocks carry the first block's entries |
| Headers.FindBad | chain/sync.go:744-753 | finds a bad block of a key iff there is one |
| Headers.CheckCandidate | chain/sync.go:694-730 | passes iff no parent is bad and the beacon entries are sorted and agree; a bad parent marks every block of the candidate as linked to it, a wrong order the first block alone, a disagreement none |
| Headers.TakeSegment | chain/sync.go:808-823 | takes a fetched segment as far as it stays above our head, linked and free of bad blocks |
| Headers.MarkContained | chain/sync.go:744-753 | exactly the accepted blocks get the bad block's reason, linked, and all of them descend from it |
| Headers.AcceptsMore | chain/sync.go:760-826 | the accepted blocks are the parents of each tipset at which the walk was extended, by a stored tipset or a whole segment |
| Headers.WindowIs | chain/sync.go:774-777 | the request asks down to the height above our head, and for at most 500 |
| Headers.FetchSegment | chain/sync.go:772-829 | the next segment extends the clean walk, or the walk is over, or it is stuck with the request that nobody answered or the bad block below |
| Headers.WalkBack | chain/sync.go:732-829 | ends with a clean linked list from the candidate down to our height; otherwise such a list leads to a tipset above our height whose parents are bad, or neither stored nor supplied by any peer for the window asked; on a bad block exactly the blocks accepted by then are linked to it |
| Headers.JoinChain | chain/sync.go:831-867 | the list then joins our head, our head's parent, or a resolved fork fragment; otherwise it does none of the first two and our parent is missing, or the fork from its end fails with that very error, never for an ignored checkpoint |
| Headers.JoinFork | chain/sync.go:852-867 | the resolved fragment is appended, and every failure is the fork's own, with the checkpoint or, when it is ignored, without |
| Headers.CollectHeaders | chain/sync.go:684-868 | success is a linked list from the candidate to the join, with the cache untouched; every failure has its exact reason and leaves exactly its marks, with their reasons: the candidate's blocks for a bad parent or a fork past finality or over a checkpoint that counts, its first block for the beacon order, the accepted blocks for a bad one further down, and none otherwise |
| Messages.CheckMsgMeta | chain/sync.go:1029-1056 | accepted iff every block is within the message limit and its picked messages hash to its header's root |
| Messages.Zip | chain/sync.go:383-415 | succeeds iff the lists have one entry per block and the messages match the headers' roots, and then fills every block with exactly its indexed messages |
| Messages.CommittedIsUnique | chain/sync.go:419-462 | with a collision-free root, the headers determine the messages whoever supplied them |
| Messages.Request | chain/sync.go:1085-1110 | gives the first good answer among the retries, if there is one |
| Messages.StretchesAreDisjoint | chain/sync.go:1068-1076 | each slot of a batch belongs to exactly one worker |
| Messages.StretchIs | chain/sync.go:1068-1076 | a worker asks for eight headers, or the rest at the end |
| Messages.FetchWorker | chain/sync.go:1070-1123 | a worker fills exactly its stretch with its answer, and fails iff no answer was good |
| Messages.FetchMessages | chain/sync.go:1058-1134 | for every order in which the workers write: the batch fails as a whole iff some stretch failed, and otherwise holds each header's answer in its slot |
| Messages.FetchedIsGood | chain/sync.go:1099-1106 | what was fetched for a header has its shape and matches its root |
| Messages.ReplayOne | chain/sync.go:994-1020 | one fetched tipset is filled, accepted and then stored; a rejection and a failed store are told apart, and only what was accepted is stored |
| Messages.BatchSizeIs | chain/sync.go:981-984 | a batch takes 128 headers or all that are left |
| Messages.ReplayBatch | chain/sync.go:994-1022 | a fetched batch reaches the callback from its last header to its first; done means that all of it was accepted and stored, and a stop that everything before it was |
| Messages.FetchAndReplay | chain/sync.go:981-1025 | a batch that could not be fetched delivers nothing; a fetched one is stored and replayed, or stops at what could not be stored or was rejected |
| Messages.IterFullTipsets | chain/sync.go:961-1027 | every header reaches the callback once, oldest first, for any mix of local and fetched messages; done means that all were accepted and all fetched messages are in the store; stopping early has its reason (the batch, block or tipset that failed), with everything before it accepted and stored, and zipping never is one |
| Syncer.AncestryValidated | chain/sync.go:942-958 | in a log where each block enters after all blocks of its parent tipset, a validated tipset has its ancestry validated in that order back to the genesis |
| Syncer.AncestorIsValidated | chain/checkpoint.go:42-45 | so every ancestor of a validated tipset is validated |
| Syncer.DueIsFounded | chain/sync.go:1180-1224 | replaying a collected list oldest first, the next tipset's parent is validated already, however the list joined our chain |
| Syncer.DueIsReady | chain/sync.go:564-599 | and then each of its blocks may enter the log |
| Syncer.StepKeepsInv | chain/sync.go:508-599 | every step of every worker, block by block, keeps each block after its parents and the head validated, whatever validated siblings the store adds to a target |
| Syncer.HeadAlwaysValidated | chain/store/store.go:378-395 | in every state of every run from the genesis, the head, expanded or not, has its whole ancestry validated, every block after all blocks of its parent tipset |
| Syncer.CommittedTargetValidated | chain/sync.go:536-555 | the same of whatever is handed to the store, taken or not |
| Syncer.ChainSyncer.MarkInvalid | chain/sync.go:564-599 | exactly the blocks that failed for good are marked, each as its own cause; all other entries stay |
| Syncer.ChainSyncer.TrackBlocks | chain/sync.go:575-598 | exactly the blocks that pass enter the log and, unless it is the genesis, the store's tracker, whether or not the others do; if all pass, the tipset is validated |
| Syncer.PassingExactly | chain/sync.go:575-598 | a block is among those iff its own verdict is valid, or the tipset is the genesis |
| Syncer.PassesIffAll | chain/sync.go:569-598 | a tipset passes iff it is the genesis or none of its blocks fails |
| Syncer.ChainSyncer.BeginChain | chain/sync.go:1182-1196 | the collected headers are against the head that the worker started from; a blocked walk leaves the protocol where it was |
| Syncer.ChainSyncer.ReplayHeaders | chain/sync.go:1206-1221 | success has validated all headers and marks nothing; otherwise the replay stopped with that outcome, for its reason, and exactly the blocks of a rejected tipset that failed for good are marked |
| Syncer.ChainSyncer.CollectChain | chain/sync.go:1180-1224 | the code takes the protocol's steps; on success the worker has validated everything down from the target; a failure is a blocked header walk or a stopped replay of headers collected behind it |
| Syncer.ChainSyncer.Install | chain/store/store.go:378-395 | the head becomes what the store makes of the target, or stays; either way it is validated |
| Syncer.ChainSyncer.Sync | chain/sync.go:508-558 | lighter, genesis and current heads change nothing; otherwise success validates the target, marks nothing, and the head is what the store took, an expansion of the target by tracked blocks, or stays; a failure is explained together with the marks it left |
| Syncer.ChainSyncer.SwitchChain | chain/checkpoint.go:38-57 | the head and its ancestors are accepted as they are; otherwise the tipset is synced without regard to the checkpoint and becomes the head, with the checkpoint removed, or the sync's failure is explained |
| Syncer.ChainSyncer.SyncCheckpoint | chain/checkpoint.go:11-36 | a checkpoint is only ever set on a validated tipset of the chain that is then ours, neither above the head nor further back than the fork threshold; if none is set, the tipset could not be had, its chain not synced, it is too far back or the store does not find it below the head |
| SyncBuckets.ConnectedByPath | chain/sync_manager.go:627-640 | in a bucket every tipset is linked to the first one through related ones |
| SyncBuckets.InsertedRepresents | chain/sync_manager.go:561-569 | an insertion adds exactly its tipset to what the set represents |
| SyncBuckets.InsertedIsValid | chain/sync_manager.go:561-569 | buckets stay connected and without duplicates; a new bucket is only made when none is related |
| SyncBuckets.WithoutAt | chain/sync_manager.go:587-595 | removing a bucket removes exactly the one at its position |
| SyncBuckets.PopSplits | chain/sync_manager.go:597-609 | popped and kept together are what was there |
| SyncBuckets.KeepIsValid | chain/sync_manager.go:597-609 | nothing that stays is related to the popped tipset |
| SyncBuckets.RelatedIffRepresented | chain/sync_manager.go:552-559 | related to some bucket iff related to some tipset in the set |
| SyncBuckets.HeaviestTipSet | chain/sync_manager.go:680-692 | the first tipset of the bucket that no other outweighs |
| SyncBuckets.SameChainAs | chain/sync_manager.go:627-640 | true iff the tipset is equal to, a parent of or a child of one in the bucket |
| SyncBuckets.SyncBucketSet.Insert | chain/sync_manager.go:561-569 | the first related bucket takes the tipset, or it starts its own |
| SyncBuckets.SyncBucketSet.Pop | chain/sync_manager.go:571-585 | removes the first bucket that holds a tipset of the greatest weight of all |
| SyncBuckets.SyncBucketSet.PopRelated | chain/sync_manager.go:597-609 | removes all related buckets, joined in order, although the list shrinks under the loop |
| SyncBuckets.SyncBucketSet.Heaviest | chain/sync_manager.go:611-621 | none iff empty, else the first represented tipset that none outweighs |
| Ring.Ring.Push | chain/sync_manager.go:506-510 | the buffer holds the pushes in order, from the oldest kept one, wherever the cursor stands |
| Ring.Ring.HoldsLast | chain/sync_manager.go:496-520 | the buffer holds exactly the last pushes |
| SyncManager.SpawnAccounted | chain/sync_manager.go:297-312 | with a new worker every id handed out still belongs to exactly one active or finished worker |
| SyncManager.FinishAccounted | chain/sync_manager.go:238-249 | the same when a worker finishes |
| SyncManager.SpawnBeatsRecent | chain/sync_manager.go:512-520 | whatever was synced before a spawn, and is among the last ten syncs then, is neither its target nor heavier |
| SyncManager.SpawnKeepsAccounts | chain/sync_manager.go:297-312 | a fair spawn keeps the books: ids, limits, and the ledger of spawns against the record of syncs |
| SyncManager.RetireKeepsAccounts | chain/sync_manager.go:238-262 | and so does a worker that finishes, whether or not its sync succeeded |
| SyncManager.InsertById | chain/sync_manager.go:150-173 | keeps a list sorted by id, with exactly one element added |
| SyncManager.BucketsOf | chain/sync_manager.go:332-360 | grouping peer heads represents exactly those heads |
| SyncManager.Scheduler.State | chain/sync_manager.go:150-173 | active workers and the last finished ones, each once, in spawn order |
| SyncManager.Scheduler.HistoryIsFinished | chain/sync_manager.go:245-248 | the history holds only finished workers, each once |
| SyncManager.Scheduler.Synced | chain/sync_manager.go:512-520 | true iff a recent sync equals or outweighs the tipset |
| SyncManager.Scheduler.SelectInitialSyncTarget | chain/sync_manager.go:332-360 | the heaviest tracked head, whatever buckets they fall into |
| SyncManager.Scheduler.AddSyncTarget | chain/sync_manager.go:362-424 | dropped, pending, deferred or worked on, exactly by the routing rules |
| SyncManager.Scheduler.Consider | chain/sync_manager.go:454-490 | exactly what becomes of a deferred candidate: dropped as settled, pending with its relatives, or as one of the active workers judges |
| SyncManager.TakenWhenItMust | chain/sync_manager.go:460-486 | a candidate that beats the recent syncs, has no pending relative and that every active worker leaves alone is taken, whichever is asked; one that is taken is not beaten by the recent syncs and the one asked |
| SyncManager.Scheduler.SelectDeferredSyncTarget | chain/sync_manager.go:454-490 | from the heaviest bucket down: what is gone was passed over, for a reason, but for the target, which outweighs all that is left; there is no target only when nothing is left |
| SyncManager.Scheduler.SelectSyncTarget | chain/sync_manager.go:426-452 | the heaviest pending tipset related to the finished one follows iff nothing outweighs it; otherwise the choice among the deferred ones decides, also whether there is any target |
| SyncManager.Scheduler.SpawnWorker | chain/sync_manager.go:297-312 | the next id, within the limits, for a target that beats what was synced, and nothing else changes |
| SyncManager.Scheduler.TrackHead | chain/sync_manager.go:197-215 | before the first sync: the head is tracked, and nothing else below the threshold of heads; then the heaviest of them is synced and they are forgotten |
| SyncManager.Scheduler.RouteHead | chain/sync_manager.go:217-236 | afterwards: exactly the routing rules, and a worker iff they say so |
| SyncManager.Scheduler.HandlePeerHead | chain/sync_manager.go:197-236 | before the first sync, tracking up to the threshold; afterwards exactly the routing rules |
| SyncManager.Scheduler.HandleWorkerStatus | chain/sync_manager.go:238-276 | bookkeeping of the finished worker, and what follows it is spawned; no spawn leaves nothing deferred |
| SyncManager.Scheduler.HandleInitialSyncDone | chain/sync_manager.go:278-295 | choices among the deferred are spawned one after another until five workers run or none is left |
| SyncManager.Scheduler.Handle | chain/sync_manager.go:176-195 | what each event does to everything the scheduler knows; a tick counts once, after the initial sync |
| SyncManager.Scheduler.Run | chain/sync_manager.go:176-195 | every event sequence is a run of such steps; at most five workers, one before the initial sync is done, every id accounted for, every spawn fair against the record of syncs |
| SyncManager.RecordsGrow | chain/sync_manager.go:176-195 | in every run no record of spawns, finished workers or syncs is rewritten |
| Autobatch.FirstsAreFirst | blockstore/autobatch.go:67-88 | what is kept of the puts is exactly the first block per CID |
| Autobatch.FirstsAreDistinct | blockstore/autobatch.go:67-88 | every CID put is kept, once |
| Autobatch.StepKeeps | blockstore/autobatch.go:67-196 | every atomic section, in any interleaving, keeps the invariant |
| Autobatch.NothingLost | blockstore/autobatch.go:67-155 | in every reachable state, flushed, flushing and buffered blocks are the first puts in order, and each batch's list and map agree |
| Autobatch.GetFindsFirstPut | blockstore/autobatch.go:172-196 | a get of a CID that was put finds the first block put under it (or the store's original), and its second look never misses |
| Autobatch.FlushedMeansStored | blockstore/autobatch.go:117-155 | a flush without an error has stored everything put before it took the buffer, concurrent puts notwithstanding |
| AutobatchStore.AutobatchBlockstore.Put | blockstore/autobatch.go:67-88 | the code takes the protocol's put step; a repeated CID changes nothing |
| AutobatchStore.AutobatchBlockstore.PutMany | blockstore/autobatch.go:123-140 | stores the blocks of the batch in order, as many as the store takes before it fails |
| AutobatchStore.AutobatchBlockstore.RetryFlush | blockstore/autobatch.go:121-130 | only a failed batch is written again, and the error stays iff that write fails |
| AutobatchStore.AutobatchBlockstore.FlushBuffer | blockstore/autobatch.go:132-150 | the buffer is taken and written; success stores everything put and empties both batches, failure keeps the batch for a retry |
| AutobatchStore.AutobatchBlockstore.DoFlush | blockstore/autobatch.go:117-155 | never changes the order of the puts; an error iff the retry or, unless only retrying, the write failed; without one every first put is in the backing store |
| AutobatchStore.AutobatchBlockstore.Get | blockstore/autobatch.go:172-196 | finds the first block put under the CID, or the store's original |
| MetaText.RenderParses | cli/client.go:280-290 | the two lines of a written metadata file are read back as they were |
| MetaText.ConvertedParses | cli/client.go:280-282 | a file whose line ends were converted is read the same |
| MetaText.PaddingGoes | cli/client.go:287-287 | blanks around a line's text do not matter |
| MetaText.RewriteSecondLine | cli/client.go:703-719 | replacing the second line of such a file and joining gives the file with that second line |
| Versions.AlwaysSound | cli/client.go:683-725 | after any operations, a next version points back, and a previous one was recorded earlier |
| Versions.BackwardUnique | cli/client_retr.go:422-461 | there is one chain of versions behind a target |
| Versions.ForwardUnique | cli/client.go:260-303 | there is one list from a root |
| Versions.ListedIsRetrieved | cli/client_retr.go:422-461 | if listing a root gives v1 to vn, then v1 to vk is the chain behind vk |
| Versions.AllListedIffHeads | cli/client.go:260-303 | every recorded version is in the list from some root iff every update was of a version without a next one |
| Versions.OverwrittenIsUnlisted | cli/client.go:702-725 | updating the same version twice leaves a recorded version that no list shows |
| VersionCommands.Walk | cli/client.go:260-303 | on any files: a complete walk over CIDs without repeats, or the first reason why it stopped, cycles included |
| VersionCommands.NeverStuck | cli/client.go:268-300 | on recorded versions no walk finds a cycle, a missing file or a malformed one |
| VersionCommands.CreateRecords | cli/client.go:683-700 | the files hold exactly the recorded links after a create |
| VersionCommands.UpdateRecords | cli/client.go:702-725 | and after an update, which rewrites the previous version's file and adds a new one |
| VersionCommands.MetaDirectory.Create | cli/client.go:683-700 | writes the root's file and log line; recorded files stay recorded |
| VersionCommands.MetaDirectory.Update | cli/client.go:702-725 | succeeds iff the previous file has two lines; recorded files stay recorded |
| VersionCommands.MetaDirectory.ListVersion | cli/client.go:245-303 | unknown iff the root has no file; otherwise the complete forward walk or why there is none |
| VersionCommands.MetaDirectory.ResolveChain | cli/client_retr.go:422-461 | the backward walk, oldest first, or why there is none |
| VersionCommands.MetaDirectory.ListRecorded | cli/client.go:260-303 | a recorded root is always listed, down to the version without a next one; that is its only list |
| VersionCommands.MetaDirectory.ResolveRecorded | cli/client_retr.go:422-461 | a recorded version is always resolved, from a root to itself |
| VersionCommands.MetaDirectory.ListThenResolve | cli/client_retr.go:422-461 | resolving the k-th listed version gives the first k listed versions |
| Reconstruct.DecimalInjective | cli/client_retr.go:494-494 | different numbers have different file suffixes |
| Reconstruct.DecimalDenotes | cli/client_retr.go:494-494 | a suffix is the decimal notation of its number |
| Reconstruct.PathsDiffer | cli/client_retr.go:637-639 | output, temporary and work files never coincide |
| Reconstruct.PathNames | cli/client_retr.go:637-639 | the names of temporary and work files |
| Reconstruct.ChainRebuilds | cli/client_retr.go:631-663 | with roots published whole and other versions as differences, patching along a chain of any length gives the last version's content |
| Reconstruct.FileSystem.ExportParts | cli/client_retr.go:488-629 | each part ends up in its temporary file, stale ones replaced; nothing else changes; fails iff a part cannot be fetched |
| Reconstruct.FileSystem.ApplyPatch | cli/client_retr.go:637-660 | the output becomes the patched content and both working files go, or nothing but the work file changes |
| Reconstruct.FileSystem.PatchUp | cli/client_retr.go:631-663 | the output is the left fold of the patches over the root, and no working file remains; on failure it is an earlier version |
| Reconstruct.FileSystem.Retrieve | cli/client_retr.go:389-666 | succeeds iff the output is new, the tool is there when needed, all parts come and all patches apply; then exactly the output is new and the chain's working files are gone; on failure nothing else changed |
| Reconstruct.RetrieveVersion | cli/client_retr.go:422-666 | from recorded metadata to the file: the output is the target version's content; the patch tool is only needed for a version that has a previous one |
| Cbor.HeaderReads | api/cbor_gen.go:212-225 | every header, for all 64-bit arguments, is read back with what follows it |
| Cbor.HeaderBytes | api/cbor_gen.go:219-219 | the bytes of a header: major type, shortest form of the argument, most significant byte first |
| Cbor.ReadShortBytes | api/cbor_gen.go:263-266 | what a header with its argument in up to two bytes means, from the bytes |
| Cbor.ReadFourBytes | api/cbor_gen.go:263-266 | the same for four bytes |
| Cbor.ReadEightBytes | api/cbor_gen.go:263-266 | the same for eight bytes |
| Cbor.ExampleHeaders | api/cbor_gen.go:219-219 | examples of Appendix A of RFC 8949 |
| Cbor.HeaderIsUnique | api/cbor_gen.go:263-266 | what is read as a header is its only encoding |
| Cbor.NegativeArgumentExact | api/cbor_gen.go:513-521 | the written argument is exact for every negative int64, the least one included, where the negation wraps |
| Cbor.IntRoundTrip | api/cbor_gen.go:513-610 | every int64 comes back |
| Cbor.TextReads | api/cbor_gen.go:286-293 | every key comes back with what follows it |
| Cbor.ShortText | api/cbor_gen.go:212-217 | a key is its length plus 96 in one byte, and its text |
| Codec.RoundTrip | api/cbor_gen.go:195-1287 | for every record type and every value within the limits, the written bytes followed by any others are read as the value and exactly the others are left |
| Codec.ListReadsBack | api/cbor_gen.go:366-455 | lists of up to 8192 elements come back |
| Codec.BlobReadsBack | api/cbor_gen.go:489-577 | byte strings up to the limit come back |
| Codec.NotNull | api/cbor_gen.go:1102-1118 | nothing written for a present pointer looks like null |
| Codec.SomeFieldsReadBack | api/cbor_gen.go:283-345 | any subset of the fields in any order: those get their values, the rest are zero |
| Codec.OrderDoesNotMatter | api/cbor_gen.go:283-345 | every arrangement of a record's entries is read as the same record |
| CodecMethods.ZeroFits | api/cbor_gen.go:258-259 | the zero value that a reader starts from can be written iff no foreign zero outside a pointer is refused |
| CodecMethods.DecodedFits | api/cbor_gen.go:258-345 | whatever the input, with keys repeated or unknown, what is accepted has its type; it can be written iff the input is complete, or gives nothing and what was held could be written |
| CodecMethods.DecodedEntriesFit | api/cbor_gen.go:283-345 | after any entries a field can be written iff the last value given for it can, or none was given and it could before |
| CodecMethods.Normalised | api/cbor_gen.go:258-345 | accepted input can be written again iff it is complete, and then re-encodes to bytes that are read as the same value |
| CodecMethods.AlwaysComplete | api/cbor_gen.go:258-345 | for types in which every left-out field has a writable zero, all input is complete |
| CodecMethods.RewritableIffGiven | api/cbor_gen.go:283-345 | a record with foreign fields can be written again iff each of them whose zero is refused has its key among the entries |
| CodecMethods.RepeatedKeys | api/cbor_gen.go:560-577 | for a repeated key, null and an empty list leave the value that was there, and an empty byte string takes as many bytes of the input as were there |
| CodecMethods.Marshal | api/cbor_gen.go:195-256 | succeeds iff every length is within its limit, and then writes the encoding |
| CodecMethods.MarshalItems | api/cbor_gen.go:374-385 | the elements one after another, or an error iff one cannot be written |
| CodecMethods.MarshalFields | api/cbor_gen.go:207-253 | the entries in declaration order, or an error iff one cannot be written |
| CodecMethods.Unmarshal | api/cbor_gen.go:875-1005 | reads a value into a field for every input, as the decoding says |
| CodecMethods.UnmarshalItems | api/cbor_gen.go:434-449 | reads exactly the announced number of elements |
| CodecMethods.UnmarshalFields | api/cbor_gen.go:283-345 | the loop over the entries fills one field each, skipping unknown keys |
| ApiTypes.PieceDealInfoWellFormed | api/cbor_gen.go:775-870 | the record's keys differ and its pointers can be told from null |
| ApiTypes.SectorPieceRoundTrip | api/cbor_gen.go:1008-1130 | a sector piece comes back, with or without deal, proposal and publish message, for all epochs |
| ApiTypes.PieceDealInfoRewritable | api/cbor_gen.go:875-1005 | all accepted deal information can be written again and is then read as the same |
| ApiTypes.SectorPieceRewritable | api/cbor_gen.go:1054-1129 | an accepted sector piece can be written again iff it has the Piece key or the zero piece can be written |
| ApiTypes.EmptySectorPiece | api/cbor_gen.go:1054-1129 | the empty map is accepted as the zero sector piece, which cannot be written if the zero piece cannot |
| ApiTypes.SealedRefBytes | api/cbor_gen.go:195-256 | the bytes of a sealed reference, key by key |
| ApiTypes.SealTicketBytes | api/cbor_gen.go:465-523 | the bytes of a seal ticket |
| ApiTypes.DealScheduleBytes | api/cbor_gen.go:1131-1187 | the bytes of a deal schedule |
| ApiTypes.SectorPieceBytes | api/cbor_gen.go:1008-1052 | the bytes of a sector piece, with and without a deal |
| ApiTypes.FiveFields | api/cbor_gen.go:775-873 | the bytes of a record with five fields, from those of its keys and values |
| ApiTypes.PieceDealInfoKeys | api/cbor_gen.go:775-873 | the keys of deal information, in order, as they are written |
| ApiTypes.IntBytes | api/cbor_gen.go:513-521 | a number that is not negative has major type 0, a negative one major type 1 and its distance from -1 |
| ApiTypes.OneByteValues | api/cbor_gen.go:195-199 | null, booleans and empty strings and lists are single known bytes |
| ApiTypes.WriteSealedRefs | api/cbor_gen.go:350-464 | a list of sealed references is written iff it has at most 8192 entries, and then comes back |
| Disputer.DisputableExactly | cli/disputer.go:364-394 | exactly the posts whose dry run succeeds are disputed |
| Disputer.MakeDisputes | cli/disputer.go:364-394 | those, in order |
| Disputer.MovedIs | cli/disputer.go:316-322 | a miner's bucket is that of the tenth epoch after its deadline closes; all others stay |
| Disputer.FollowedIff | cli/disputer.go:226-236 | for any start epoch, a known miner is in exactly one bucket, once, iff its first bucket is after the start epoch or still ahead; otherwise it is in none |
| Disputer.MidwayStep | cli/disputer.go:241-267 | a deadline put back keeps every other miner in its one bucket |
| Disputer.DroppedSound | cli/disputer.go:228-233 | a bucket dropped before the start cutoff loses its miners and no others |
| Disputer.AppliedSound | cli/disputer.go:226-284 | an epoch whose fetched deadlines are timely keeps every miner that was followed in exactly one bucket, ahead of it |
| Disputer.NobodyLost | cli/disputer.go:226-236 | with a start epoch that is not beyond the first head, every known miner is in exactly one bucket |
| Disputer.Dispute | cli/disputer.go:144-360 | the command as written, start epoch 0: it ends iff the node leaves a question open or sends an unexpected change, and otherwise stands where the events lead; every known miner is in exactly one bucket, if the node listed each miner once and gave only deadlines that were still ahead |
| Disputer.PostDisputer.Discover | cli/disputer.go:316-326 | a listed miner gets a bucket and becomes known, or nothing changes; the run stays regular iff the miner is new and its deadline ahead |
| Disputer.PostDisputer.Start | cli/disputer.go:207-218 | succeeds iff every listed miner's deadline is known, and then all are known; regular if none is listed twice and all deadlines are ahead |
| Disputer.PostDisputer.WorkThrough | cli/disputer.go:241-267 | succeeds iff every question is answered; then the disputes of every deadline in order, each miner put back with its newly fetched deadline |
| Disputer.PostDisputer.ApplyEpoch | cli/disputer.go:226-284 | nothing before the cutoff but the bucket dropped; otherwise fails iff the node leaves a question about the bucket unanswered, and else disputes and refiles exactly that bucket |
| Disputer.PostDisputer.ApplyNext | cli/disputer.go:226-300 | the next epoch with its disputes sent and its deadlines put back, or the end; the run stays regular iff the deadlines it fetched are ahead |
| Disputer.PostDisputer.ApplyTipSet | cli/disputer.go:293-300 | every epoch up to the height is applied once and consecutively, null rounds included; it fails iff one of them does |
| Disputer.PostDisputer.Notify | cli/disputer.go:286-305 | exactly the applied tipsets count, in order; reverts change nothing and never lead to an epoch being applied again; it fails iff one of them does or a change is unexpected |
| Disputer.PostDisputer.StatusCheck | cli/disputer.go:307-338 | every listed miner becomes known, known ones keep their first bucket, and nothing passed is left; it fails iff a new miner's deadline cannot be had |
| Disputer.PostDisputer.Occur | cli/disputer.go:286-346 | one event of the loop |
| Disputer.PostDisputer.Purge | cli/disputer.go:329-337 | deletes the passed epochs only, and with timely deadlines nothing at all |
| Disputer.EarlyMinerIsLost | cli/disputer.go:138-143 | what the declared flag would do if it were read: a run with a start epoch beyond the head, after which a known miner is in no bucket |
| TimedCache.VisibleIffRecent | blockstore/timed.go:88-108 | after every history, a key is visible iff it was put at most one rotation ago and not deleted since |
| TimedCache.FoundIsRecent | blockstore/mem.go:63-78 | what is found was put within that window, was not replaced by a basic block since, and if it is a copy, the key was not in the active store when it was put |
| TimedCache.TimedCacheBlockstore.PutBlock | blockstore/mem.go:63-78 | only the active store changes; a block that has to be copied does not replace one that is there |
| TimedCache.TimedCacheBlockstore.RotateStores | blockstore/timed.go:88-94 | the active store becomes the inactive one and an empty one takes its place |
| TimedCache.TimedCacheBlockstore.DeleteBlock | blockstore/timed.go:162-166 | the key goes from both stores |
| TimedCache.TimedCacheBlockstore.Get | blockstore/timed.go:127-135 | finds a block iff it is visible, and an undeleted, unreplaced recent one |
| TimedCache.TimedCacheBlockstore.AllKeysChan | blockstore/timed.go:174-191 | every visible multihash once, named as Get would, never more than the channel holds |
| DealPricing.DisplayedTotal | cli/client.go:1117-1141 | the displayed total is at least the committed one and above it by at most (n - 1) times the epochs |
| DealPricing.EpochPriceIs | cli/client.go:1014-1020 | the price per epoch is the ask's price for this kind of deal times the size in GiB, rounded down, and nothing else is |
| DealPricing.CostIs | cli/client.go:1014-1021 | the cost of a deal is that amount for every epoch |
| DealPricing.CommittedIsSum | cli/client.go:1053-1070 | the committed total is the sum of those costs |
| DealPricing.DisplayedIs | cli/client.go:1117-1141 | the displayed total from the asks' own prices |
| DealPricing.FillFits | cli/client.go:1053-1075 | an attempt stays within the budget and the wanted number |
| DealPricing.FillIsMaximal | cli/client.go:1053-1075 | an attempt that finds fewer than wanted left out only asks that no longer fit |
| DealPricing.FillOnce | cli/client.go:1053-1075 | the inner loop is such an attempt |
| DealPricing.Pick | cli/client.go:1046-1076 | the first full one of up to 64 attempts, or the last when none is or no number is wanted; never above a budget that is not negative |
| DealWizard.Keep | cli/client.go:945-953 | exactly the asks that meet the condition, in their order |
| DealWizard.Wizard.Show | cli/client.go:804-1200 | every screen does exactly what it does with what comes in; deals go to the miners that made the offers, each at its ask's own price for the size in GiB, rounded down, up to the first that the node does not start or whose name cannot be encoded, and after a search within the budget; it ends early iff the node or the input fails on a screen that gives up, a power is missing or the user refuses |
| DealWizard.Wizard.Prepare | cli/client.go:804-1106 | what each screen before the confirmation does with what comes in, and that anything else changes nothing |
| DealWizard.Wizard.Conclude | cli/client.go:1107-1200 | the last screens: leaves iff a power is missing or the user refuses, and deals are proposed only after a yes |
| DealWizard.Wizard.EnterMiners | cli/client.go:901-926 | the lists start over; none entered leads to the search |
| DealWizard.Wizard.Search | cli/client.go:927-957 | candidates are the asks whose piece sizes fit |
| DealWizard.Wizard.FilterPing | cli/client.go:979-994 | keeps the candidates below the latency, or asks again when none is |
| DealWizard.Wizard.FilterBudget | cli/client.go:1012-1028 | keeps the candidates that cost less than the budget, by their own prices |
| DealWizard.Wizard.PickAsks | cli/client.go:1047-1083 | picked asks are those of the deciding attempt, aligned with their own miners and within the budget |
| DealWizard.Wizard.QueryAsks | cli/client.go:1084-1106 | confirmed iff every miner answered, each ask at its miner's position |
| DealWizard.Wizard.ShowPrices | cli/client.go:1107-1145 | one price per ask, from its own fields, and the displayed total with its bounds |
| DealWizard.Wizard.Propose | cli/client.go:1165-1197 | the i-th deal is the i-th offer's miner at that ask's own price for the size in GiB, rounded down; all of them, or those before the first that is not started, or the first alone when the encoder fails |

## Left out

- Messages.FetchWorker: a peer's answer is taken to have one entry per requested header, because the code indexes it that way; shorter answers are not modelled.
- Chain.ParentIsLower: that parents are strictly lower is part of what a valid collection of headers is, as the connection check of the exchange client and consensus validation demand.
- Syncer.ChainSyncer.Sync: which of the allowed tipsets the store takes, if any, is a parameter; chain weight, the one-block-per-miner rule and failures of the store itself are not modelled.
- Syncer.ChainSyncer.CollectChain: persisting the collected headers is taken to succeed.
- Headers.CollectHeaders: other workers do not mark or unmark blocks in the middle of one call; between calls they may, and marks by any number of workers are covered by BadBlocks.MarksAreJustified.
- BadBlocks.BadBlockCache.Remove: the replacement policy of the cache is not modelled, an eviction is a removal at any time.
- AutobatchStore.AutobatchBlockstore.Get: a CID that was never put is excluded, because the code then calls itself while holding its lock; Autobatch models that case as a get that keeps the lock.
- VersionCommands.MetaDirectory.Update: recording a CID that is already recorded is written as the code does, but the links are then no longer those of a version chain.
- VersionCommands.Walk: any text in one piece and without a slash counts as a CID, so a line that is such text but no CID leads on to a missing file instead of being refused at once.
- CodecMethods.UnmarshalFields: what skipping an unknown field's value leaves of the input is an arbitrary function.
- Codec.RoundTrip: absent and empty lists or byte strings are one value, as they have one encoding; the reader refuses longer header forms than needed, as section 4.2.1 of RFC 8949 asks of deterministic encoding.
- Reconstruct.FileSystem.Retrieve: file-system errors are not modelled, and a failing patch tool leaves no work file.
- DealWizard.Wizard.Show: input parsing, balances and the minimum duration check are not modelled; input that does not fit shows the screen again, and a node or input that breaks ends the dialogue where the code returns.
- Disputer.Dispute: whether a fetched deadline is ahead, and whether the node lists a miner once, is the node's doing; the claim is about the runs where it is so.
- Answers of the node, the store and peers that change in the middle of one call.
- Consensus rules, signatures, message tries and CID hashing: a verdict per block and a root function.
- Merging of tipsets in a bucket (coalesceTipsets): off by default.
- Autobatch shutdown, timers and the buffer size that triggers a flush: a flush may start at any time in the model.
- The codecs of CIDs, addresses, vouchers, pieces and deal proposals, and PaymentInfo, which consists of them: other packages' codecs, assumed to read back what they write and not to begin with null, and in the results on writing again also to write what they read.
- RPC forwarding, the other blockstore wrappers, the other commands and the web demo: they would only add easy members.
