# Verified models of Mina's helper services

This project models, in Dafny, the parts of the Mina repository whose
correctness is least visible from their code, and proves what they promise.

- **Bitswap block trees** (`Schema`, `DepthIndices`, `LittleEndian`,
  `BlockCodec`, `TreeDepth`, `BreadthFirst`, `BlockTree`, `BlockSplit`). A blob
  is split, leaves first, into a k-ary tree of size-limited blocks, with as few
  blocks and as shallow as any, and joined breadth-first; the tree's shape is
  predicted from the length alone.
- **The downloader** (`Weights`, `RootMachine`, `TreeGrowth`,
  `DownloadSafety`, `DownloadCompleteness`, `DownloadEpisodes`,
  `DownloadTermination`, `DownloaderState`, `BlockStep`, `DownloadPanic`,
  `Downloader`, `DownloadLoop`, `RestartLaw`, `DownloadGuarantees`,
  `DownloadLimits`, `DownloadRestart`). What the downloader does to one root is a state machine
  (`RootMachine`); the imperative downloader, with its shared maps, counters
  and recursion, is proved to be, on every root, a run of that root's machine.
  Safety, completeness and termination are proved for all such runs.
- **The signature reference** (`ModArith`, `Fermat`, `NonResidue`,
  `SquareRoot`, `PointAddition`, `Curve`, `Schnorr`). Tonelli-Shanks for every prime, with
  Fermat's and Lagrange's theorems proved on the way, so that the existence of
  a non-residue is not a premise; the chord-and-tangent law; double-and-add;
  point compression; Schnorr signing and verification, which accepts exactly
  what can be signed.
- **Slot allocation** (`Permutations`, `SlotLists`, `SlotTuples`, `SlotTies`,
  `SlotPartition`, `SlotBalance`, `SlotGroups`). Knuth's next-permutation step (section
  7.2.1.2 of The Art of Computer Programming, volume 4A) inside a
  Karmarkar-Karp style partition, with a bound on how uneven it can be.
- **Three stateful guarantees**: the sliding-window rate limiter on a binary
  heap (`TimeHeap`, `RateLimiter`), the scheduler that conserves the total
  rate over failing nodes (`Scheduler`), and the per-peer topic-level filter
  under every interleaving of its locked sections (`TopicLevels`,
  `SubscriptionFilter`).

`dafny verify dfyconfig.toml` checks the whole project.

## Premises and findings

- The block hash (BLAKE2b-256, section 2 of RFC 7693) is an opaque function.
  Where it matters it is required not to collide on the blocks in play, and
  the store holds one byte string per link.
- The guard of a kick-start asks only whether some root awaits the root block,
  so a second kick-start of a root whose root block was already consumed
  replaces a live state. That breaks the bookkeeping exactly when it happens
  (`KickKeepsExactly`, `RestartBreaksBookkeeping`), and it is worse than
  bookkeeping: a root so restarted can be recorded and reported Full with
  blocks of its tree missing (`RestartedDownload`). Every soundness theorem
  excludes it for the root in question; the one about the loop excludes
  nothing else. That exclusion is sufficient and not necessary. Exact is the
  law of the counter: a kick-start over n listed indices falls short by n, and
  the root is then set Full if and only if some block leaves exactly n indices
  listed (`FullExactlyWhenLeft`). With n = 0 that is when nothing is left; with
  n > 0 some block is still awaited (`LeftAtFinish`), but it may also never
  happen: a restarted blob of two blocks falls short by one and goes on to
  leave none.
- A block that fits a root at one index, with links, and not at a later one
  leaves the children recorded at the earlier index for a root that is then
  dropped (`ConsumeKeepsExactly`). When one of these children has to be
  requested and no other root recorded it, the session of a nil root state is
  dereferenced at line 330 of the downloader and the process ends
  (`ConsumeBlock`, `LateMismatchLeavesEntries`). Operations have that outcome
  here. Soundness of the loop does not need its absence: after a late mismatch
  the root can never be set Full again (`EpisodesAreSound`). Termination needs
  neither premise.
- Other panics are preconditions that the callers are proved to meet, or an
  explicit outcome (the empty heap of the partition, the division by the number
  of selected nodes).
- The comment at src/app/itn_orchestrator/src/slots_allocation.go:69 says that
  all permutations are tried to find the best. The step compares entries by
  size, so entries of equal size are never exchanged: the result is the best
  over all permutations, whatever ordered tuple it is merged with, exactly when
  entries of equal size hold equal slots (`UntiedSearchIsOptimal`,
  `TiedSearchMissesOptimum`), and the partition meets pairs where it is not
  (`PartitionMissesOptimum`, `PartitionRunMissesOptimum`).
- The comment at src/app/libp2p_helper/src/libp2p_helper/bitswap_block.go:205
  gives the number of links of a full block without taking the two bytes of the
  link count off; the model follows the code, which does.
- A point with y = 0 does not survive compression, because decompression asks
  for Legendre symbol 1 (`CompressionRoundTrip`).
- The curve's addition is proved to be the chord-and-tangent law, and closed,
  for points that have a line. It is wrong for one: the double of a point with
  y = 0 should be infinity and is not (`DoublingOwnOpposite`,
  `SumIsExplainedExactly`). That x^3 + a x + b has no root modulo p, so that
  there is no such point, that the addition is associative, and that the
  generator has order n are premises (`Curve.Legal`).
  Nonce and challenge are opaque functions bounded by 256^32. The curve's
  prime is any odd prime of the encodings' size.
- Random choices, the order of map iteration, the clock, the answers of remote
  nodes and the interleaving of calls are parameters over which the theorems
  quantify.

## Model

| member | source | states |
|---|---|---|
| `Schema.SchemaWellFormed` | src/app/libp2p_helper/src/libp2p_helper/bitswap_block.go:123-159 | for every length and every block size above 34, the predicted shape is consistent: full blocks hold the largest number of links that fits the block and its two-byte count, link counts add up to one less than the number of blocks, and with more than one block the last leaf carries more than 32 and at most max-2 bytes |
| `Schema.BlockCountIsMinimal` | src/app/libp2p_helper/src/libp2p_helper/bitswap_block.go:109-131 | no tree of blocks within the size limit, of any shape, carries that many bytes in fewer blocks |
| `Schema.BlockCountIsAttained` | src/app/libp2p_helper/src/libp2p_helper/bitswap_block.go:109-131 | some tree within the limit carries the bytes in exactly that many blocks |
| `Schema.ChildrenInTree` | src/app/libp2p_helper/src/libp2p_helper/bitswap_block.go:137-190 | every child index is larger than its parent and inside the tree; the last block has no child |
| `Schema.ChildIsMultiple` | src/app/libp2p_helper/src/libp2p_helper/bitswap_block.go:163-190 | laying children out one after the other puts those of block i at k*i+1, k*i+2, ... |
| `Schema.ParentChild` | src/app/libp2p_helper/src/libp2p_helper/bitswap_block.go:163-190 | every index but 0 is a child of exactly the block (i-1)/k |
| `Schema.ChildUnique` | src/app/libp2p_helper/src/libp2p_helper/bitswap_block.go:163-190 | no index is the child of two positions |
| `Schema.OffsetTotal` | src/app/libp2p_helper/src/libp2p_helper/bitswap_block.go:137-159 | the predicted data sizes add up to the length of the blob |
| `Schema.OffsetBounds` | src/app/libp2p_helper/src/libp2p_helper/bitswap_block.go:246-277 | every block's slice of the data is in range |
| `TreeDepth.LinksPerBlockIsLargest` | src/app/libp2p_helper/src/libp2p_helper/bitswap_block.go:82-88 | a block within the size limit and the two-byte count may hold a number of links if and only if it is at most that of a full block |
| `TreeDepth.SchemaIsShallowest` | src/app/libp2p_helper/src/libp2p_helper/bitswap_block.go:82-190 | no tree of at least as many blocks within the limit, of any shape, is shallower than the predicted one at any block |
| `TreeDepth.RootRoomExactly` | src/app/libp2p_helper/src/libp2p_helper/bitswap_downloader.go:21-27 | every root block of several blocks has room for n bytes if and only if n is at most what a full block leaves beside its links |
| `DepthIndices.MkDepthIndices` | src/app/libp2p_helper/src/libp2p_helper/bitswap_block.go:101-107 | the growing loop lists the left-most index of every depth, up to the limit |
| `DepthIndices.FirstChildIdCorrect` | src/app/libp2p_helper/src/libp2p_helper/bitswap_block.go:163-172 | looking an index up in that table gives k*id+1 for every node that can have a child in a tree within the limit, and -1 exactly from the last tabulated node on |
| `LittleEndian.FromToBytes` | src/app/libp2p_helper/src/libp2p_helper/bitswap_block.go:226-234 | writing a number little-endian and reading it back |
| `LittleEndian.ByteAt` | src/app/libp2p_helper/src/libp2p_helper/bitswap_block.go:226-234 | byte i of an encoded number is its digit i in base 256, the lowest first |
| `BlockCodec.BlockFormat` | src/app/libp2p_helper/src/libp2p_helper/bitswap_block.go:226-244 | where every byte of a block is: low and high byte of the link count, the links in order at 32 bytes each, then the data |
| `BlockCodec.ReadEncode` | src/app/libp2p_helper/src/libp2p_helper/bitswap_block.go:226-299 | reading an encoded block gives back its links and data, and its length is as predicted |
| `BlockCodec.EncodeRead` | src/app/libp2p_helper/src/libp2p_helper/bitswap_block.go:283-299 | every readable byte string is the encoding of what was read from it |
| `BreadthFirst.ListingUnique` | src/app/libp2p_helper/src/libp2p_helper/bitswap_block.go:301-322 | a root has at most one breadth-first listing |
| `BlockTree.JoinBitswapBlocks` | src/app/libp2p_helper/src/libp2p_helper/bitswap_block.go:301-322 | whenever the walk ends, and only then does the source return, the queue loop succeeds exactly when the whole tree under the root is present and readable, and then returns the data of its breadth-first listing |
| `BlockTree.RankedWalkEnds` | src/app/libp2p_helper/src/libp2p_helper/bitswap_block.go:301-322 | every walk along links that lead to lower ranks, as hashes force them to, ends, missing blocks or not |
| `BlockTree.TreeIsComplete` | src/app/libp2p_helper/src/libp2p_helper/bitswap_block.go:301-322 | blocks of the predicted sizes with children in the predicted places form a complete tree, listed by index |
| `BlockTree.TreeDataLength` | src/app/libp2p_helper/src/libp2p_helper/bitswap_block.go:137-190 | and their data, joined, has the predicted length at every index |
| `BlockSplit.BlockLayout` | src/app/libp2p_helper/src/libp2p_helper/bitswap_block.go:137-190 | the block at index i has length BlockSize(i), LinkCount(i) links, to blocks k*i+1 onwards in order, and its slice of the data |
| `BlockSplit.EncodeStep` | src/app/libp2p_helper/src/libp2p_helper/bitswap_block.go:246-277 | one step of the bottom-up encoder: queue and data end are in range, and the block made is the one the layout prescribes |
| `BlockSplit.AddBlock` | src/app/libp2p_helper/src/libp2p_helper/bitswap_block.go:213-280 | the encoder's inner operation on queue, result map and data end keeps that state |
| `BlockSplit.SplitDataToBitswapBlocks` | src/app/libp2p_helper/src/libp2p_helper/bitswap_block.go:213-280 | the loops make exactly the blocks of the layout, consume all data, and leave one link, that of block 0 |
| `BlockSplit.SplitThenJoin` | src/app/libp2p_helper/src/libp2p_helper/bitswap_block.go:213-322 | for every byte string and every block size above 34, joining what splitting produced gives the input back; equal blocks may repeat, different blocks of the split must not collide |
| `RootMachine.GoodPrefix` | src/app/libp2p_helper/src/libp2p_helper/bitswap_downloader.go:226-244 | the indices checked before the first at which size or link count differ from the prediction |
| `RootMachine.ValidSizesExactly` | src/app/libp2p_helper/src/libp2p_helper/bitswap_downloader.go:21-27 | up to the size at which the link count overflows its two bytes, IsValidMaxBlockSize accepts exactly the sizes whose every root block has room for length and tag; above it the room is always there |
| `RootMachine.RootMalformedExactly` | src/app/libp2p_helper/src/libp2p_helper/bitswap_downloader.go:166-247 | a block awaited as root block is malformed exactly when it is unreadable, carries fewer than five bytes, has another tag than the requested one, a tag without a configured limit, a length over the limit of that tag, or a size or link count that does not fit at some index |
| `RootMachine.StatusIsHighest` | src/app/libp2p_helper/src/bitswap_storage.go:103-125 | over every series of attempted changes: a record, once there, is the highest status tried since, in the order Partial, Full, Deleting; and there is none as long as only Deleting was tried |
| `RootMachine.FirstStatus` | src/app/libp2p_helper/src/bitswap_storage.go:103-125 | the first attempt other than Deleting makes the record |
| `RootMachine.KidsExactly` | src/app/libp2p_helper/src/libp2p_helper/bitswap_downloader.go:178-245 | which blocks leave children recorded: those with links and a schema that fit at the first index; and which of these are malformed all the same: those that do not fit at a later index |
| `RootMachine.RecordAllLists` | src/app/libp2p_helper/src/libp2p_helper/bitswap_downloader.go:226-244 | exactly the children of a block at each of its indices are recorded |
| `RootMachine.RecordAllWeight` | src/app/libp2p_helper/src/libp2p_helper/bitswap_downloader.go:226-244 | with multiplicities, for every weighting of indices |
| `RootMachine.TableGivesChildren` | src/app/libp2p_helper/src/libp2p_helper/bitswap_downloader.go:237-243 | inside every announced tree the depth table is never asked beyond its range |
| `TreeGrowth.GrowStep` | src/app/libp2p_helper/src/libp2p_helper/bitswap_downloader.go:251-347 | consuming a block that fits wherever it is awaited grows a partial tree: visited nodes stay, their children are visited or awaited under their own link |
| `TreeGrowth.FullyGrown` | src/app/libp2p_helper/src/libp2p_helper/bitswap_downloader.go:332-343 | with nothing awaited, the whole tree of the predicted shape is in the store |
| `DownloadSafety.AcceptedStep` | src/app/libp2p_helper/src/libp2p_helper/bitswap_downloader.go:258-346 | an accepted block keeps counter, entries and descendants in agreement, and makes a root Full only with its whole tree stored |
| `DownloadSafety.MalformedStep` | src/app/libp2p_helper/src/libp2p_helper/bitswap_downloader.go:226-244 | a malformed root is dropped, and what stays listed for it are exactly the children recorded at earlier indices |
| `DownloadSafety.ConsumeKeepsExactly` | src/app/libp2p_helper/src/libp2p_helper/bitswap_downloader.go:166-347 | the bookkeeping invariant survives a block if and only if the block is no late mismatch: readable, with links, judged by a schema, fitting at the first index of the root and not at a later one |
| `DownloadSafety.KickKeepsExactly` | src/app/libp2p_helper/src/libp2p_helper/bitswap_downloader.go:94-160 | the bookkeeping invariant survives a kick-start if and only if the kick-start finds no live state of that root to replace |
| `DownloadSafety.ExpireKeeps` | src/app/libp2p_helper/src/libp2p_helper/bitswap.go:240-242 | a deadline keeps the invariant and the status, leaves its own root idle with nothing awaited, and changes no other root |
| `DownloadSafety.FailedKickLeavesNothing` | src/app/libp2p_helper/src/libp2p_helper/bitswap_downloader.go:94-160 | a kick-start whose first request failed leaves the root idle, unreported and free to be asked for again |
| `DownloadSafety.FullRootIsReported` | src/app/libp2p_helper/src/libp2p_helper/bitswap_downloader.go:94-160 | a kick-start of a root that is Full already reports it once more and does nothing else |
| `DownloadSafety.KickAwaitsRoot` | src/app/libp2p_helper/src/libp2p_helper/bitswap_downloader.go:94-160 | a started download is Partial, has the requested tag and no shape yet, and awaits exactly its root block at index 0 |
| `DownloadSafety.RunIsSafe` | src/app/libp2p_helper/src/libp2p_helper/bitswap_downloader.go:94-347 | over every run of kick-starts, blocks and deadlines that respects these two conditions: the invariant holds, and Full implies requested and wholly stored |
| `DownloadSafety.DownloadedJoins` | src/app/libp2p_helper/src/libp2p_helper/bitswap_block.go:301-322 | a stored tree joins to dataLen+4 bytes that start with that length and the requested tag, which is configured and whose own limit the data keep |
| `DownloadSafety.Soundness` | src/app/libp2p_helper/src/libp2p_helper/bitswap_downloader.go:166-347 | both together, for one root: set Full by such a run, it joins to a blob of the announced length and requested tag, configured and within the limit of that tag |
| `DownloadEpisodes.LateMismatchDooms` | src/app/libp2p_helper/src/libp2p_helper/bitswap_downloader.go:226-244 | after a late mismatch the store holds, at an index reached from the root through stored blocks, a block that does not fit there |
| `DownloadEpisodes.DoomedCannotRest` | src/app/libp2p_helper/src/libp2p_helper/bitswap_downloader.go:251-347 | after that no download of the root comes to rest, whichever blocks are stored |
| `DownloadEpisodes.EpisodesAreSound` | src/app/libp2p_helper/src/libp2p_helper/bitswap_downloader.go:94-347 | over every sequence of commands and arrivals, each processed to rest, in which no kick-start replaces a live state of the root, and with late mismatches allowed: Full implies requested and wholly stored |
| `DownloadCompleteness.RootAnnounces` | src/app/libp2p_helper/src/libp2p_helper/bitswap_downloader.go:21-27 | the root block of every tagged blob within the limits, for every block size that passes IsValidMaxBlockSize, is long enough to announce length and tag, and announces its own shape |
| `DownloadCompleteness.GenuineIsAccepted` | src/app/libp2p_helper/src/libp2p_helper/bitswap_downloader.go:166-247 | a genuine block is accepted at every index where it is awaited |
| `DownloadCompleteness.RunStaysOnTrack` | src/app/libp2p_helper/src/libp2p_helper/bitswap_downloader.go:251-347 | no genuine block, in whatever order, repeated or unsolicited, takes the download off track or reports it malformed |
| `DownloadCompleteness.Completeness` | src/app/libp2p_helper/src/libp2p_helper/bitswap_downloader.go:94-160 | after one kick-start and any such run in which all blocks came, the root is Full |
| `DownloadTermination.BlockOutweighsChildren` | src/app/libp2p_helper/src/libp2p_helper/bitswap_downloader.go:226-244 | the weight given to an index exceeds that of all its children |
| `DownloadTermination.ConsumeShrinks` | src/app/libp2p_helper/src/libp2p_helper/bitswap_downloader.go:251-347 | consuming an awaited block lowers a root's measure, whatever the block holds |
| `DownloadTermination.IndexedStep` | src/app/libp2p_helper/src/libp2p_helper/bitswap_downloader.go:94-347 | every action, also after a malformed block or a restart, keeps the sanity of indices that termination rests on |
| `DownloaderState.MeasureDrops` | src/app/libp2p_helper/src/libp2p_helper/bitswap_downloader.go:251-347 | over all roots together, roots without schema and total weight drop lexicographically, on any store contents |
| `BlockStep.RecordChildren` | src/app/libp2p_helper/src/libp2p_helper/bitswap_downloader.go:226-244 | the map of children gains exactly the links of the block from the first child on, for this root only |
| `BlockStep.CheckIndices` | src/app/libp2p_helper/src/libp2p_helper/bitswap_downloader.go:226-244 | the loop over indices records children up to the first misfit and reports whether there was one |
| `BlockStep.ProcessDownloadedBlockStep` | src/app/libp2p_helper/src/libp2p_helper/bitswap_downloader.go:166-247 | for every root at once the loop yields what that root's own machine decides, and nothing for roots that do not await the block |
| `Downloader.NewBitswapCtx` | src/app/libp2p_helper/src/libp2p_helper/bitswap.go:49-70 | the shipped sizes make a valid configuration, with the depth table built as shipped; a new downloader awaits nothing |
| `DownloadPanic.NoMismatchNoPanic` | src/app/libp2p_helper/src/libp2p_helper/bitswap_downloader.go:289-331 | a run without late mismatches never requests children through a missing session |
| `Downloader.PanicExactly` | src/app/libp2p_helper/src/libp2p_helper/bitswap_downloader.go:289-331 | no root has set someRootState and a child is to be requested if and only if some recorded child is not stored and every root that recorded children meets a late mismatch |
| `Downloader.BitswapCtx.ClearRootDownloadState` | src/app/libp2p_helper/src/libp2p_helper/bitswap.go:122-141 | clearing removes the root's state and, through its descendants, its entries, and changes no other root |
| `Downloader.BitswapCtx.SetStatus` | src/app/libp2p_helper/src/bitswap_storage.go:103-125 | the status changes exactly when the transition is allowed |
| `Downloader.BitswapCtx.FinishRoot` | src/app/libp2p_helper/src/libp2p_helper/bitswap_downloader.go:332-343 | a root whose counter is zero is set Full, cleared and reported; others are unchanged |
| `Downloader.BitswapCtx.AdoptChildren` | src/app/libp2p_helper/src/libp2p_helper/bitswap_downloader.go:287-326 | all recorded children become awaited by their roots; those stored are returned for processing, the others for downloading, with a root that has a state if there is one |
| `Downloader.BitswapCtx.ConsumeBlock` | src/app/libp2p_helper/src/libp2p_helper/bitswap_downloader.go:251-343 | the nil dereference at line 330 happens exactly under that condition on the state before the block; otherwise everything the block causes is, on every root, the step of that root's machine |
| `Downloader.BitswapCtx.ProcessDownloadedBlock` | src/app/libp2p_helper/src/libp2p_helper/bitswap_downloader.go:251-347 | the recursion terminates on any store; it acts on every root as a run of its machine over stored blocks, none of which ends the process, and either returns with no stored block awaited that was not before, or ends the process at the first block that must |
| `Downloader.BitswapCtx.KickStartRootDownload` | src/app/libp2p_helper/src/libp2p_helper/bitswap_downloader.go:94-160 | likewise for a kick-start, including a root block already stored, a root another one awaits, a refused status and a failed request |
| `Downloader.BitswapCtx.ExpireRoot` | src/app/libp2p_helper/src/libp2p_helper/bitswap.go:240-242 | a deadline clears its root and nothing else |
| `Downloader.PhasesAreConsume` | src/app/libp2p_helper/src/libp2p_helper/bitswap_downloader.go:258-346 | the phases of the procedure, in their order in the code, amount to the step of one root's machine |
| `DownloadLoop.StartAll` | src/app/libp2p_helper/src/libp2p_helper/bitswap.go:264-274 | a download command kick-starts each of its roots exactly once, in any order, with its tag, and a kick-start fails exactly when the root is not stored and the network cannot be asked |
| `DownloadLoop.Serve` | src/app/libp2p_helper/src/libp2p_helper/bitswap.go:236-279 | each event is one or several episodes that lead from rest to rest, set off by exactly what the event asks for, or ends the process |
| `DownloadLoop.Loop` | src/app/libp2p_helper/src/libp2p_helper/bitswap.go:230-280 | for every sequence of events the loop is a run of every root's machine in such episodes: every event is answered, in order, and nothing happens that the events and the initial store do not account for; it serves all events unless a block ends the process, and says which; the store is the initial one with what arrived |
| `DownloadGuarantees.DownloadBlob` | src/app/libp2p_helper/src/libp2p_helper/bitswap_downloader.go:94-347 | end to end on the mutable maps: one kick-start, then any events that deliver genuine blocks and do not concern this root. The root is never reported broken, and reported added once if it becomes Full and not otherwise; the process ends only by a late mismatch of another root, so never if none is downloaded; otherwise, all blocks stored or come, the root is Full with the encoder's blocks stored if and only if its kick-start was not dropped because another root awaited the root block |
| `DownloadGuarantees.LoopIsSound` | src/app/libp2p_helper/src/libp2p_helper/bitswap_downloader.go:94-347 | end to end soundness from rest, late mismatches allowed and also for what a process leaves that one of them ended: a root Full afterwards, of which no kick-start replaced a live state, was asked for with a tag, and its stored tree joins to dataLen+4 bytes with that length and tag, a configured tag whose own limit they keep |
| `DownloadLimits.RestartBreaksBookkeeping` | src/app/libp2p_helper/src/libp2p_helper/bitswap_downloader.go:99 | for every blob of at least two blocks whose root block is met only at the root: the guard lets a second kick-start replace the live state, and the bookkeeping is then broken |
| `RestartLaw.KickFallsShort` | src/app/libp2p_helper/src/libp2p_helper/bitswap_downloader.go:94-132 | a kick-start leaves the counter short of the listed indices by as many as were listed before it |
| `RestartLaw.RestartFallsShort` | src/app/libp2p_helper/src/libp2p_helper/bitswap_downloader.go:94-132 | over a live root whose bookkeeping is sound, a kick-start that goes through falls short by at least one |
| `RestartLaw.LeftAtFinish` | src/app/libp2p_helper/src/libp2p_helper/bitswap_downloader.go:332-343 | with a shortfall, some block is still awaited for the root when it is set Full |
| `RestartLaw.ShortStep` | src/app/libp2p_helper/src/libp2p_helper/bitswap_downloader.go:251-343 | a block keeps that shortfall n, or drops the root as broken, or finishes it, the last exactly when it leaves n indices listed; for all configurations, blocks and n |
| `RestartLaw.FullExactlyWhenLeft` | src/app/libp2p_helper/src/libp2p_helper/bitswap_downloader.go:251-343 | over every run of blocks, a root short by n is set Full if and only if some block, while it is live, leaves exactly n of its indices listed, and is reported added then and only then |
| `DownloadRestart.RestartReportsFull` | src/app/libp2p_helper/src/libp2p_helper/bitswap_downloader.go:99 | a run with a second kick-start that falls short by two and sets a root of three leaves Full, by that law, with the third leaf missing |
| `DownloadRestart.RestartedDownload` | src/app/libp2p_helper/src/libp2p_helper/bitswap_downloader.go:94-347 | the same through the downloader's own operations: download, root block, first leaf, download, second leaf; status Full, reported, and the tree not stored |
| `DownloadLimits.LateMismatchLeavesEntries` | src/app/libp2p_helper/src/libp2p_helper/bitswap_downloader.go:226-331 | a concrete late mismatch: if no other root awaits the block, the process ends if and only if its child is not stored; where the process goes on, the child stays awaited for a root that is no longer live |
| `Fermat.FermatLittle` | docs/specs/signatures/reference.py:18-22 | a^(p-1) = 1 modulo every prime p not dividing a |
| `NonResidue.Lagrange` | docs/specs/signatures/reference.py:24-80 | a polynomial modulo a prime has at most as many roots as its degree |
| `NonResidue.NonResidueExists` | docs/specs/signatures/reference.py:55-58 | every odd prime has a non-residue, so the search for one ends |
| `SquareRoot.FindNonResidue` | docs/specs/signatures/reference.py:55-58 | the search returns the least non-residue |
| `SquareRoot.SearchStep` | docs/specs/signatures/reference.py:65-78 | one round keeps x^2 = a t, t^(2^(m-1)) = 1 and c^(2^(m-1)) = -1, with a smaller m |
| `SquareRoot.FindExponent` | docs/specs/signatures/reference.py:66-71 | the inner loop finds the least i with t^(2^i) = 1, below m |
| `SquareRoot.PrimeModSqrt` | docs/specs/signatures/reference.py:24-80 | for every prime and every a the loops terminate and return exactly all square roots of a: one for 0, two for residues, none otherwise |
| `PointAddition.ChordAndTangent` | docs/specs/signatures/reference.py:109-121 | for every prime p above 2 and every two points of the curve that are not opposite: the line through them, the tangent if they are one point, passes through the mirror image of the sum, and x^3+ax+b less its square is (x-x1)(x-x2)(x-x3) modulo p for every x |
| `PointAddition.SumOnCurve` | docs/specs/signatures/reference.py:109-121 | the sum of such points is on the curve |
| `PointAddition.OppositeExactly` | docs/specs/signatures/reference.py:109-121 | the sum of two points is infinity if and only if they are opposite and y is not 0 |
| `PointAddition.DoublingOwnOpposite` | docs/specs/signatures/reference.py:109-121 | doubling a point with y = 0 gives the point at -2x with y = 0 in place of infinity |
| `PointAddition.SumIsExplainedExactly` | docs/specs/signatures/reference.py:109-121 | wherever the sum is a point, some line explains it if and only if it is not the double of a point with y = 0 at which the curve is not singular |
| `Curve.AddClosed` | docs/specs/signatures/reference.py:109-121 | the curve is closed under addition when no point has y = 0 |
| `Curve.TimesAdd` | docs/specs/signatures/reference.py:150-156 | multiples add |
| `Curve.BitSumIsTimes` | docs/specs/signatures/reference.py:150-156 | the sum of the doublings selected by a scalar's bits is the multiple by these bits, on the curve |
| `Curve.PointMul` | docs/specs/signatures/reference.py:150-156 | double-and-add is that sum for every point, and on the curve the n-fold sum for every scalar below 2^N |
| `Curve.OppositeMultiple` | docs/specs/signatures/reference.py:109-121 | the multiples by k and n-k have the same x, and y and p-y |
| `Curve.MultipleByParity` | docs/specs/signatures/reference.py:109-121 | among the multiples below the order, x and the parity of y determine the scalar |
| `Curve.PointFromBytes` | docs/specs/signatures/reference.py:185-196 | decompression returns the point with the encoded x and parity, or none when there is none |
| `Curve.DecompressesOnce` | docs/specs/signatures/reference.py:185-196 | at most one result qualifies |
| `Curve.CompressionRoundTrip` | docs/specs/signatures/reference.py:182-196 | for every point of the curve, decompressing its compression gives it back if and only if y is not zero |
| `Schnorr.SchnorrSign` | docs/specs/signatures/reference.py:243-256 | which keys and nonces are refused, and the two halves of the signature otherwise |
| `Schnorr.SchnorrVerify` | docs/specs/signatures/reference.py:258-275 | which lengths are refused; acceptance exactly when the verification equation, computed by bits, holds for the decoded key, canonical or not; and for the key of a secret d, exactly when some nonce with an even nonce point gives these two halves |
| `Schnorr.EquationHolds` | docs/specs/signatures/reference.py:258-275 | s G - e P is the signing nonce times G |
| `Schnorr.AcceptsExactly` | docs/specs/signatures/reference.py:258-275 | verification accepts (r, s) for the key d G if and only if there is k in 1..n-1 with k G at x = r, y even, and s = k + e d modulo n |
| `Schnorr.AcceptedOnce` | docs/specs/signatures/reference.py:258-275 | for one message, key and r at most one s is accepted |
| `Schnorr.SignatureVerifies` | docs/specs/signatures/reference.py:243-275 | for every message and key in 1..n-1 with a nonzero nonce, what signing computes meets what verification checks |
| `Schnorr.SignThenVerify` | docs/specs/signatures/reference.py:243-275 | and running one after the other, through the byte encodings, accepts |
| `Permutations.NextPermutation` | src/app/itn_orchestrator/src/misc.go:52-80 | in place: a permutation of the input whose keys are the immediate lexicographic successor; false, with nothing changed, exactly on non-increasing keys |
| `Permutations.StepIsSuccessor` | src/app/itn_orchestrator/src/misc.go:63-79 | pivot, partner, swap and reversal give the least arrangement above the present one |
| `Permutations.EveryArrangementOnce` | src/app/itn_orchestrator/src/misc.go:52-80 | iterated from ascending order until it refuses, the step visits exactly the arrangements of the keys, each once |
| `SlotLists.JoinSlots` | src/app/itn_orchestrator/src/slots_allocation.go:163-193 | the merge of two ascending lists is the strictly ascending list of the members of both |
| `SlotLists.FilterLte` | src/app/itn_orchestrator/src/misc.go:82-87 | exactly the slots up to the bound |
| `SlotLists.FilterGt` | src/app/itn_orchestrator/src/misc.go:89-94 | exactly the slots above the bound |
| `SlotLists.SortedSetOfParts` | src/app/itn_orchestrator/src/slots_allocation.go:163-193 | joining joined lists is joining the originals |
| `SlotTuples.MergeSlotTuplesDo` | src/app/itn_orchestrator/src/slots_allocation.go:48-63 | entries are united position by position, ordered by size; diff is the largest size minus the smallest, in whatever order the entries stood |
| `SlotTuples.MergeWith` | src/app/itn_orchestrator/src/slots_allocation.go:65-89 | up to five groups, the arrangements visited form a chain of successors and the result is the best merge among them, ended only by a perfect one or the last arrangement; above five, the one reversed arrangement |
| `SlotTuples.SearchIsExhaustive` | src/app/itn_orchestrator/src/slots_allocation.go:65-83 | started in order of size, a search without a perfect merge tried every arrangement of the sizes exactly once, and no visited one is better |
| `SlotTies.UntiedSearchIsOptimal` | src/app/itn_orchestrator/src/slots_allocation.go:68-82 | when entries of equal size hold equal slots, no arrangement of the entries at all is better than the result |
| `SlotTies.TiedSearchMissesOptimum` | src/app/itn_orchestrator/src/slots_allocation.go:68-82 | and only then: for every y, ordered by size, with two entries of equal size and different slots there is an x, ordered by size as well, for which a perfect merge exists and the search returns none |
| `SlotTies.PartitionMissesOptimum` | src/app/itn_orchestrator/src/slots_allocation.go:65-82 | two tuples of the partition of three ips into two groups whose merge has spread 2 where 0 is possible |
| `SlotTies.PartitionRunMissesOptimum` | src/app/itn_orchestrator/src/slots_allocation.go:132-161 | a run of the partition that comes to them and ends with diff 2, although a split of the three ips with diff 0 exists |
| `SlotPartition.PopTuple` | src/app/itn_orchestrator/src/slots_allocation.go:91-119 | a tuple of largest diff leaves the heap, and no other |
| `SlotPartition.MergeConserves` | src/app/itn_orchestrator/src/slots_allocation.go:48-89 | a merge keeps every ip with its multiplicity, and every entry's slots the union of its ips' slots |
| `SlotPartition.InitialTuples` | src/app/itn_orchestrator/src/slots_allocation.go:132-148 | one tuple for each ip with a slot within the bound |
| `SlotPartition.PartitionNumSets` | src/app/itn_orchestrator/src/slots_allocation.go:132-161 | every ip with a slot within the bound is in exactly one entry, no other ip is in any; slots are the strictly ascending union of the entry's ips' slots; entries are ordered by size; diff is last minus first; the result is reached from the single ips by merging two tuples of largest diff at a time; none of this exactly when no ip has such a slot |
| `SlotBalance.MergeNeverWidens` | src/app/itn_orchestrator/src/slots_allocation.go:65-89 | for any number of groups, merging two tuples ordered by size gives a diff of at most the larger of the two spreads, plus the number of slots they share |
| `SlotBalance.PartitionIsBalanced` | src/app/itn_orchestrator/src/slots_allocation.go:121-161 | for every input and every run of merges, the groups differ by at most the slots of the largest ip, plus the number of times a slot is won again by another ip |
| `SlotBalance.DisjointPartition` | src/app/itn_orchestrator/src/slots_allocation.go:121-161 | when no slot is won by two ips, the groups differ by at most the slots of the largest ip |
| `SlotGroups.ArrangeGroups` | src/app/itn_orchestrator/src/slots_allocation.go:195-212 | group j holds the addresses and the union of the slots of its own run of entries; with sizes that add up, the groups together hold the addresses of all entries |
| `SlotGroups.EachAddressOnce` | src/app/itn_orchestrator/src/slots_allocation.go:195-212 | then every address of an ip with a slot within the bound is output exactly once, and no other |
| `SlotGroups.AllocateSlotsDo` | src/app/itn_orchestrator/src/slots_allocation.go:214-231 | the earliest last slot of smallest diff, with all last slots up to the maximum tried unless a perfect split is met |
| `TimeHeap.Push` | src/app/delegation_backend/src/delegation_backend/time_heap.go:31-35 | sifting up restores heap order and adds exactly the new instant |
| `TimeHeap.Pop` | src/app/delegation_backend/src/delegation_backend/time_heap.go:37-43 | sifting down restores heap order and removes exactly the least instant |
| `RateLimiter.AttemptCounter.RecordAttempt` | src/app/delegation_backend/src/delegation_backend/time_heap.go:53-76 | under a clock that never goes back, accepted exactly when fewer than maxAttempt attempts of the key were accepted in the last hour |
| `RateLimiter.EveryWindowIsBounded` | src/app/delegation_backend/src/delegation_backend/time_heap.go:53-76 | over every run and for every key, every window of one hour holds at most maxAttempt accepted attempts |
| `RateLimiter.RefusedOnlyWhenFull` | src/app/delegation_backend/src/delegation_backend/time_heap.go:53-76 | and an attempt is refused only when its own window holds exactly that many |
| `RateLimiter.TrackedCount` | src/app/delegation_backend/src/delegation_backend/time_heap.go:65-73 | after the pops, the length of the heap is the number of accepted attempts in the last hour |
| `Scheduler.SelectNodes` | src/app/itn_orchestrator/src/misc.go:206-216 | nodes are selected exactly when there are any and the rate is not below the least; as many as the least rate allows, or all, with equal shares that add up to the rate; a negative rate is out of range |
| `Scheduler.Schedule` | src/app/itn_orchestrator/src/payments.go:64-108 | for every pattern of refusals: every node that accepts gets the number of fee payers, rounded down, and the rate that were left at the last refusal before it, divided by the nodes from there on; batches are consecutive segments of the fee payers, none below the least rate; no error exactly when the last node or then some earlier one accepts, and then the rates add up to the requested one |
| `Scheduler.Refused` | src/app/itn_orchestrator/src/payments.go:75-83 | the share of a refusing node is spread over those after it, and shares still add up |
| `Scheduler.OfferAfterRefusal` | src/app/itn_orchestrator/src/payments.go:75-83 | after a refusal the next offer is what is left divided by the nodes still to be asked, in rate and in fee payers |
| `Scheduler.AllAccept` | src/app/itn_orchestrator/src/payments.go:64-92 | without refusals every node in turn gets tps/n and |feePayers|/n |
| `Scheduler.SecondBatch` | src/app/itn_orchestrator/src/payments.go:92-106 | what the last node refused goes, with all remaining fee payers, to the first accepting node that takes a second batch |
| `Scheduler.SchedulePayments` | src/app/itn_orchestrator/src/payments.go:64-108 | selection and schedule together; the division by zero exactly when nothing is selected |
| `Scheduler.SendZkappCommands` | src/app/itn_orchestrator/src/zkapp.go:119-166 | the same for zkapp commands, with the refusal when neither parameter is given |
| `TopicLevels.ReadTopicLevels` | src/app/libp2p_helper/src/libp2p_helper/config_msg.go:176-205 | succeeds exactly when no level repeats a topic and no topic's levels have a gap, and then gives each topic its exact range |
| `SubscriptionFilter.LeveledSubscriptionFilter.FilterFirst` | src/app/libp2p_helper/src/libp2p_helper/config_msg.go:233-252 | the read-locked section and the loop over the batch: finished, or a level to raise to |
| `SubscriptionFilter.LeveledSubscriptionFilter.FilterSecond` | src/app/libp2p_helper/src/libp2p_helper/config_msg.go:252-260 | the write-locked section leaves the higher of the stored and the wanted level |
| `SubscriptionFilter.LeveledSubscriptionFilter.FilterIncomingSubscriptions` | src/app/libp2p_helper/src/libp2p_helper/config_msg.go:232-276 | undisturbed, the two sections are one atomic operation |
| `SubscriptionFilter.LeveledSubscriptionFilter.OnDisconnect` | src/app/libp2p_helper/src/libp2p_helper/config_msg.go:278-287 | undisturbed, the peer's level and no other is removed |
| `SubscriptionFilter.Kept` | src/app/libp2p_helper/src/libp2p_helper/config_msg.go:261-264 | exactly the topics of the batch whose range contains the level |
| `SubscriptionFilter.SectionIsAtomic` | src/app/libp2p_helper/src/libp2p_helper/config_msg.go:232-287 | a locked section, whatever came before it, either changes nothing and finishes nothing, or is the whole atomic operation |
| `SubscriptionFilter.Linearizable` | src/app/libp2p_helper/src/libp2p_helper/config_msg.go:232-287 | every interleaving of locked sections of any number of calls has the effects and results of the atomic operations in the order of their finishing sections |
| `SubscriptionFilter.LevelIsHighestObserved` | src/app/libp2p_helper/src/libp2p_helper/config_msg.go:214-220 | a stored level is the highest least level among the topics the peer asked for since it last disconnected |
| `SubscriptionFilter.StepOnlyRaises` | src/app/libp2p_helper/src/libp2p_helper/config_msg.go:232-287 | on any run, a peer's stored level goes down only at a step that disconnects it |
| `SubscriptionFilter.FinishedCall` | src/app/libp2p_helper/src/libp2p_helper/config_msg.go:232-276 | on any run, a finished call filtered at a level at or above the minLevel of every known topic of its batch, and exactly the highest observed for the peer since its last disconnect |

## Left out

- Deletion of roots: the loop at src/app/libp2p_helper/src/libp2p_helper/bitswap.go:111 ranges over the initial one-element slice, so only the root and its children are removed, and blocks shared with other roots go too; runs here contain no deletes.
- Publication of local resources by the add command of the loop; it stores blocks and a status, which here may be in the store from the start.
- Sessions, requests to the network, LMDB and its errors, metrics and logging: the store is a map, arrivals and deadlines are events, and whether a first request failed is a parameter. That a requested block ever arrives is not claimed.
- The Go heap: the downloader's operations update the downloader's maps in place, but the inner maps are values, so aliasing between them is not modelled.
- DownloadSafety.RunIsSafe: the bookkeeping invariant holds for runs that meet both conditions above for the root; without them it is proved to fail.
- Hashing in the signature reference (trytes, Pedersen commitments, parameter generation): the challenge is opaque, and no claim is made that trytes tile the bits.
- Associativity of elliptic-curve addition: a premise.
- Curve.PointMul: points are compared by coordinates; that the reference never finds a decoded key, a list, equal to a sum, a tuple, is not modelled.
- `container/heap` for slot tuples: only that a tuple of largest diff is taken is used, so the theorems hold for every way of breaking ties. `sort.Sort` is any ordering by size.
- The search for the first empty slot in `AllocateSlots`, and reading addresses and ips from its input.
- SlotPartition.PartitionNumSets: at least one group, and strictly ascending slot lists, as the merge in `AllocateSlots` produces them; with one group and one ip, diff is the number of its slots and not last minus first.
- Scheduler.SelectNodes: rates are exact reals, not floats, and the least rate is positive.
- RateLimiter.AttemptCounter.RecordAttempt: calls are serialised by the mutex, so each is one step; instants are unbounded integers of nanoseconds, and the clock does not go back.
- SubscriptionFilter.Kept: the pubsub library also merges repeated subscriptions to one topic, which is not part of this model.
- Errors from reading Cap'n Proto lists in `readTopicLevels`.
- Connection gating, GraphQL clients, key and balance arithmetic for experiments: case analysis or plumbing that would add easy members only.
