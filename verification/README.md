# Verified model of the hashtree storage stack

A Dafny project about a content-addressed storage stack: what its data structures and
protocols keep, and where their guarantees end.

| module | what it models |
|---|---|
| Keys, BTree, BTreeProofs, BTreeRuns | the persistent B-tree of links: escaping, insertion with splits, lookup, deletion, and runs of them |
| BTreeFill | how full nodes stay: the height is logarithmic, and deletions collapse single children |
| BTreeRange, BTreeReinsert, BTreeInterleaved, BTreeMerge, BTreeExample | range and prefix walks, and exactly when they, insertions after deletions, and merges lose nothing |
| Push, Walk, PushTree | the concurrent push of blocks as a state machine over its waits, the walks that push, pull and verify a link graph, and the push of a walked tree |
| Merkle, Bep52 | binary Merkle trees with implicit padding, proofs, piece layers, and the two BEP 52 builders |
| Files, Writer, Upload | chunking, what a file's root is, public files read back by hash, the incremental writer, and batched uploads |
| Reader, ReaderRange, RoundTrip | whole, streamed and range reads of encrypted files, and the way back from an upload |
| RegistrySpec, Registry | the tree-root registry: local writes, remote updates, timers and publishes in flight |
| EventKeys, Events, EventWinners, EventLists, EventExample | the event store on top of the B-tree: keys, winners, listings |
| Nhash | type-length-value lists and the two shareable identifiers |
| Bytes, Wrappers | byte strings and result types |

Each stateful part is a class whose methods are proved against a value-level description
(`Push.Apply`, `RegistrySpec.Apply`, `Files.FileCid`, `BTree.Items`), and the theorems are
about that description: over every run, every split of the data, every tree or graph.

## Hypotheses

- SHA-256, encryption, node encoding, bech32, UTF-8 and hexadecimal are functions given as
  values, with their inverse laws as predicates (`Files.Lawful`, `Nhash.Lawful`,
  `Nhash.Canonical`); bech32 is asked for its law under the prefixes nhash and npath only.
  Nothing assumes a hash without collisions: reading back what was written, and Merkle
  proofs, end in the content or a collision. `RoundTrip.UploadThenRead` asks that none lies
  among the finitely many byte strings at hand (`Files.NoClash`).
- B-tree keys are compared by code units everywhere; the order is at least 3. A node's
  directory listing drops an entry with an empty name, so an empty key is never stored.
- A walk sees a store that does not change, and one key for each hash.
- Ids of events are any function of an event's body; the shape of ids and authors is not
  assumed but follows from what an addition accepts.
- Registry steps are atomic between waits; times and outcomes of publishes are inputs.

## Where the code does less than it seems to

- After deletions, an insertion that splits a child can file it where lookup does not go, or
  take keys away from the child before it (`BTreeExample.ReinsertedKeyLost`).
  `BTreeReinsert.InsertExact` says on the tree before exactly which insertions do, and
  `BTreeInterleaved.InterleavedRun` exactly which runs lose nothing.
- A range or prefix search passes over an internal node whose first name is at or above the
  end of the range, though smaller keys may lie below it. So it can lose part of its answer
  on a tree in which every lookup is right (`BTreeExample.StoredKeyMissed`), and all of it at
  the root; `BTreeRange.RangeLinkTraverse` says exactly on which trees. After insertions
  followed by deletions only the root matters (`BTreeRange.RangeAfterRun`).
- Hence a listing by author, kind or both can be empty although events match
  (`EventExample.AuthorIsLost`); `EventLists.List` says exactly when. Prefixes that end in the
  unit 0xFFFF, and the empty prefix, find nothing.
- An event later than 2^53 - 1 is accepted, but its keys cannot be read and come first, so
  every listing that asks for it fails (`EventLists.ListRecent`, `EventLists.List`).
- The verification of a Merkle proof does not look at its length, so an inner node is accepted
  as a leaf (`Merkle.InnerNodeAccepted`); `Merkle.LeafProofSound` and `Merkle.LongProofSound`
  say what an accepted proof of any length shows.
- A push that is aborted while its producer waits for room never returns, and no other
  abort hangs (`Push.AbortHangsExactly`). Exactly with concurrency 0 the consumer spins
  (`Push.NoConcurrencySpins`).
- The number of leaves is doubled in 32 bits, which ends if and only if there are at most
  2^30 blocks (`Merkle.NumLeafsEndsExactly`).
- A flush drops the timer of a key with an empty part without publishing it, and publishes a
  key whose first name has a slash under other names (`RegistrySpec.SplitExactly`).
- Negative range bounds count from the end for a file of one blob, and nowhere else;
  `RoundTrip.NegativeBounds` says exactly for which bounds that makes a difference.
- A prefetch of 0 ends a stream with an error.
- A listing with limit 0 returns one event. Of events with one time the larger id wins, where
  NIP-01 keeps the lowest.
- The root of no leaves is the zero hash, whatever number of leaves is asked for.

## Model

| member | source | states |
|---|---|---|
| Keys.EscapeRoundTrip | packages/hashtree-index/src/btree.ts:581-593 | unescaping undoes escaping for every string of 16-bit units, through three replacement passes each way |
| Keys.EscapedNameIsSafe | packages/hashtree-index/src/btree.ts:581-586 | an escaped name holds no slash and no NUL, and is empty only for the empty key |
| Keys.PrefixInterval | packages/hashtree-index/src/btree.ts:595-599 | for a non-empty prefix whose last unit is below 0xFFFF, [p, increment(p)) is exactly the strings that begin with p |
| Keys.PrefixIntervalEmpty | packages/hashtree-index/src/btree.ts:595-599 | for the empty prefix, and for one whose last unit wraps around, the interval is empty |
| Keys.LessIsLexicographic | packages/hashtree-index/src/btree.ts:413-424 | one key comes before another exactly if it is a proper beginning of it or smaller at the first place where the two differ |
| BTree.FindChild | packages/hashtree-index/src/btree.ts:413-424 | the chosen child is the last whose own name is not above the key and whose successor's name is |
| BTreeProofs.GetIsFind | packages/hashtree-index/src/btree.ts:97-112 | lookup by descent finds exactly the entry the leaves hold |
| BTreeRuns.InsertStep | packages/hashtree-index/src/btree.ts:71-92 | one insertion sets one key of the map and keeps order, balance and node size |
| BTreeRuns.InsertRun | packages/hashtree-index/src/btree.ts:71-112 | after any run of insertions from null, lookup is the map of last values; names bound their subtrees, all leaves are at one depth, no node holds more than order - 1 entries |
| BTreeFill.InsertRunFills | packages/hashtree-index/src/btree.ts:207-254 | after any run of insertions every node below the root holds at least half of the order, and a root that is no leaf has at least two children |
| BTreeFill.HeightIsLogarithmic | packages/hashtree-index/src/btree.ts:71-92 | a tree of insertions whose leaves all lie h levels below the root holds at least 2 * (order / 2)^h entries |
| BTreeRuns.DeletePrunes | packages/hashtree-index/src/btree.ts:448-481 | deletion removes the one key from the contents, leaves no empty node, keeps order and bounds, and gives null exactly when nothing is left |
| BTreeRuns.DeleteRun | packages/hashtree-index/src/btree.ts:448-481 | after any insertions followed by any deletions, lookup is the map without the deleted keys and the root is null exactly when the last entry has been deleted |
| BTreeFill.DeleteBranches | packages/hashtree-index/src/btree.ts:465-477 | a deletion leaves no node with a single child where there was none: an internal node that is down to one child gives way to it |
| BTreeFill.DeleteRunBranches | packages/hashtree-index/src/btree.ts:448-481 | after any insertions followed by any deletions, from order 4 on, no node has a single child |
| BTreeReinsert.HiddenKey | packages/hashtree-index/src/btree.ts:207-230 | an unsafe insertion, one that splits a child which will not be filed in its place, leaves a key of the new contents that lookup does not reach, in any tree with bounded names |
| BTreeReinsert.Misplaced | packages/hashtree-index/src/btree.ts:219-230 | the three ways a misfiled split hides a key: the child's least key is below the new name, the name is not above that of the sibling before, or the sibling holds a key at or above it |
| BTreeReinsert.InsertSound | packages/hashtree-index/src/btree.ts:207-254 | a safe insertion gives the right contents within the same bounds, and the tree before it tells which nodes split and under which names |
| BTreeReinsert.InsertExact | packages/hashtree-index/src/btree.ts:71-92 | on every tree with bounded names one insertion keeps all lookups right if and only if it changes nothing or every full child on its way that is not the first of its node has a first name above the sibling's name and keys and not above its own keys or the inserted one |
| BTreeInterleaved.InterleavedRun | packages/hashtree-index/src/btree.ts:71-92 | in a run of insertions and deletions in any order, every lookup is right at every moment if and only if every insertion is safe in the tree it meets; the tree then holds exactly the map |
| BTreeInterleaved.StepIsExact | packages/hashtree-index/src/btree.ts:71-92 | from a right tree, an operation keeps the tree right if it is safe and otherwise makes some lookup wrong |
| BTreeInterleaved.RangeOfRun | packages/hashtree-index/src/btree.ts:274-303 | after any run in which every lookup is right, a range of the tree is complete if and only if the tree is exact for it |
| BTreeInterleaved.TightIsSafe | packages/hashtree-index/src/btree.ts:207-230 | in an insert-built tree every insertion is safe, of any key |
| BTreeInterleaved.InsertionsAreSafe | packages/hashtree-index/src/btree.ts:71-92 | in a run of insertions alone every one is safe |
| BTreeExample.ReinsertedKeyLost | packages/hashtree-index/src/btree.ts:207-230 | a run of operations on the keys 1 to 9 at order 3 that is not safe, and the stored key that is then not found |
| BTreeExample.StoredKeyMissed | packages/hashtree-index/src/btree.ts:292-302 | after seven operations with every lookup right all along, the walk of the keys below 4 misses the stored key 3 although the range ends above the root's first name |
| BTreeRange.LeafRange | packages/hashtree-index/src/btree.ts:283-290 | the loop over a leaf yields exactly the keys with start <= key < end, in order |
| BTreeRange.RangeLinkTraverse | packages/hashtree-index/src/btree.ts:274-303 | on every tree with bounded names a range walk yields only keys in range, strictly ascending, and all of them if and only if the tree is exact for the range: no internal node whose first name is at or above the end has anything in range; otherwise it yields fewer |
| BTreeRange.CoveredIsExact | packages/hashtree-index/src/btree.ts:292-302 | a covered tree is exact for every start |
| BTreeRange.TightIsCovered | packages/hashtree-index/src/btree.ts:292-302 | an insert-built tree is covered for every end above the root's first name |
| BTreeRange.DeleteKeepsCovered | packages/hashtree-index/src/btree.ts:448-481 | deletion keeps a tree covered |
| BTreeRange.RunIsCoveredAbove | packages/hashtree-index/src/btree.ts:274-303 | after any insertions followed by any deletions, every internal node of the tree at hand is covered for each end above its own first name |
| BTreeRange.DeleteKeepsCoveredAbove | packages/hashtree-index/src/btree.ts:448-481 | a deletion keeps that, also where it moves a node's first name up or down |
| BTreeRange.RangeAfterRun | packages/hashtree-index/src/btree.ts:274-303 | after any insertions followed by any deletions, a range is complete if and only if the root is a leaf, there is no end, the end is above the root's first name, or nothing is in range |
| BTreeRange.TraverseLinksInOrder | packages/hashtree-index/src/btree.ts:256-272 | in-order traversal yields the contents |
| BTreeRange.PrefixLinks | packages/hashtree-index/src/btree.ts:125-128 | prefix search yields only entries that begin with the prefix, all of them if and only if the tree is exact for the prefix's interval, and nothing for the empty prefix or one whose last unit wraps around |
| BTreeMerge.MergeLinks | packages/hashtree-index/src/btree.ts:133-152 | merging any readable tree into any other: lookups are right after every entry if and only if every insertion made is safe, and then the result is the union of the two maps, the preferred side winning; into an insert-built tree all are safe; a missing side gives the other as it is |
| BTreeMerge.MergeExact | packages/hashtree-index/src/btree.ts:133-152 | over any list of entries with ascending names, a merge is right all along if and only if each entry that goes in is safe to insert |
| BTreeMerge.TightMerge | packages/hashtree-index/src/btree.ts:133-152 | merging into an insert-built tree is always safe and leaves such a tree |
| BTreeRange.SplitLeafWithLinks | packages/hashtree-index/src/btree.ts:232-254 | copying entry by entry splits a leaf into two halves that together hold all entries, differing by at most one in size |
| BTreeRange.NamesFollowKeys | packages/hashtree-index/src/btree.ts:196-200 | lookup and removal by escaped name agree with lookup and removal by key |
| BTreeRange.SetEntryStored | packages/hashtree-index/src/btree.ts:196-199 | setting an entry stores the multiset of the other names and the new one |
| Push.StepKeeps | packages/hashtree/src/hashtree.ts:478-578 | every step of the producer, the consumer and the uploads keeps: the blocks taken, queued, in the producer's hand and still to walk are the walk in order; at most 2 * concurrency blocks queued, at most concurrency uploads active; a waiting unsignalled producer means a full queue, a waiting unsignalled consumer an empty queue and an unfinished walk |
| Push.StepAccounts | packages/hashtree/src/hashtree.ts:484-508 | no step loses a block taken from the queue or counts one twice: each is uploading or counted, never both |
| Push.StepShrinks | packages/hashtree/src/hashtree.ts:510-578 | every step shrinks a measure, so no run goes on for ever |
| Push.StuckExactly | packages/hashtree/src/hashtree.ts:510-578 | a state has no enabled step if and only if both sides have returned, or an abort let the consumer leave while the producer waits |
| Push.FinalAccount | packages/hashtree/src/hashtree.ts:466-508 | at the end of a run that was not aborted every block was counted exactly once |
| Push.TalliesAddUp | packages/hashtree/src/hashtree.ts:466-508 | pushed + skipped + failed is the number of counted blocks |
| Push.OutcomesAreCounted | packages/hashtree/src/hashtree.ts:485-508 | over every run, each outcome is counted as often as a step that ends an upload carries it, the errors are the blocks whose uploads failed, in that order, and the bytes are those of the blocks whose uploads succeeded |
| Push.ConsumerFills | packages/hashtree/src/hashtree.ts:517-529 | each time the consumer goes round, the queue runs empty or all slots are taken, and blocks leave the queue from its front |
| Push.EveryRun | packages/hashtree/src/hashtree.ts:478-578 | the invariant holds after every run and the run's length is bounded |
| Push.CompleteRun | packages/hashtree/src/hashtree.ts:510-580 | a run that can go no further and was never aborted has walked, uploaded and counted every block |
| Push.AbortHangsExactly | packages/hashtree/src/hashtree.ts:510-578 | which aborts hang: a run with an abort that can go no further has not returned if and only if the producer was waiting for room, not yet woken, when the abort came |
| Push.AbortStops | packages/hashtree/src/hashtree.ts:514-558 | after an abort, over every run: no upload starts, the walk takes at most one block more and then ends, and at most the block in the producer's hand is queued |
| Push.AbortCanWedge | packages/hashtree/src/hashtree.ts:515-558 | for any four blocks and one upload at a time, an aborted run after which the push never returns |
| Push.NoConcurrencySpins | packages/hashtree/src/hashtree.ts:514-543 | within the bounds the consumer's loop comes round without an await if and only if concurrency is 0 and the push is neither over nor aborted, and then to the same state |
| Push.Session.WalkYield | packages/hashtree/src/hashtree.ts:549-568 | the producer's step on a walked block, as the state machine has it |
| Push.Session.WalkEnd | packages/hashtree/src/hashtree.ts:569-574 | the end of the walk, waking the consumer |
| Push.Session.ProducerResume | packages/hashtree/src/hashtree.ts:554-567 | the producer's wake-up looks at the queue again |
| Push.Session.StartUpload | packages/hashtree/src/hashtree.ts:519-528 | one block leaves the queue for an upload, waking the producer when there is room |
| Push.Session.StartUploads | packages/hashtree/src/hashtree.ts:517-529 | uploads start while there are blocks and free slots |
| Push.Session.ConsumerResume | packages/hashtree/src/hashtree.ts:514-545 | the consumer's loop up to its next wait |
| Push.Session.UploadEnd | packages/hashtree/src/hashtree.ts:485-508 | an ended upload adds one to the counter of its outcome and to no other, its bytes only on success, and its block to the errors only on failure |
| Push.Session.TaskRetire | packages/hashtree/src/hashtree.ts:525-527 | a counted upload leaves the active list |
| Push.Session.Abort | packages/hashtree/src/hashtree.ts:486-515 | an abort only sets the signal |
| Walk.WalkBlocks | packages/hashtree/src/hashtree.ts:343-379 | on any finite link graph, cyclic or shared, in which a hash carries one key, the walk yields each reachable held block exactly once |
| Walk.Pull | packages/hashtree/src/hashtree.ts:387-428 | under any order of its fetches, pull counts exactly the reachable held blocks |
| Walk.PullCountsTheWalk | packages/hashtree/src/hashtree.ts:458-472 | the total that push reports at its start is the number of blocks it goes on to walk |
| PushTree.PushCountsThePull | packages/hashtree/src/hashtree.ts:458-580 | every complete push of what the walk yields counts exactly as many blocks as pull reported at its start, each reachable held block once and nothing else, and pushed + skipped + failed is that total |
| PushTree.CompleteCounts | packages/hashtree/src/hashtree.ts:466-580 | a run that was never aborted and can go no further has counted every reachable held block exactly once |
| Walk.VerifyTree | packages/hashtree/src/verify.ts:11-40 | verification reports exactly the reachable absent hashes, each once, and calls the tree valid when there are none |
| Walk.KeylessLinks | packages/hashtree/src/verify.ts:11-40 | a step of verification leads from a held block, read without a key, to the hash of one of its links, whatever keys they carry |
| Walk.Traversal.Traverse | packages/hashtree/src/hashtree.ts:346-376 | one visit reaches everything below it that was not visited before |
| Merkle.NumLeafs | packages/hashtree/src/bep52.ts:63-68 | doubling gives the least power of two with room for the blocks, up to 2^30 of them |
| Merkle.NumLeafsEndsExactly | packages/hashtree/src/bep52.ts:63-68 | doubling by 32-bit shifts reaches the block count if and only if it is at most 2^30 |
| Merkle.MerklePadHash | packages/hashtree/src/bep52.ts:122-128 | the pad hash is the node over zero hashes of its height |
| Merkle.NodeOfPads | packages/hashtree/src/bep52.ts:122-128 | a node over padding only is the pad hash of its height |
| Merkle.NextLevel | packages/hashtree/src/bep52.ts:155-168 | one round of the root loop gives the next level of the padded tree |
| Merkle.MerkleRoot | packages/hashtree/src/bep52.ts:137-175 | keeping real hashes and one pad a level gives the root of the zero-padded tree, for every list of leaves |
| Merkle.MerkleBuildTree | packages/hashtree/src/bep52.ts:183-213 | the flat array holds the leaves, zero padding and every parent, and its first entry is that root |
| Merkle.BuildLevel | packages/hashtree/src/bep52.ts:203-208 | one level's parents are the pair hashes of their children and everything from the level on stays |
| Merkle.FlatTreeNodes | packages/hashtree/src/bep52.ts:183-213 | every place of the flat array holds the node of the padded tree that belongs there |
| Merkle.FlatRoot | packages/hashtree/src/bep52.ts:137-213 | the stored root and the computed root agree |
| Merkle.MerkleGetProof | packages/hashtree/src/bep52.ts:223-235 | the proof is the siblings from the leaf up |
| Merkle.MerkleVerifyProof | packages/hashtree/src/bep52.ts:246-270 | verification accepts exactly when the climb ends in the root |
| Merkle.LeafProofAccepted | packages/hashtree/src/bep52.ts:223-270 | the proof of every leaf has one hash a level and is accepted |
| Merkle.LeafProofSound | packages/hashtree/src/bep52.ts:246-270 | a proof of at most d hashes accepted for x as leaf i shows that x is the node that many levels below the root at the place given by the low digits of i, which with d hashes is leaf i, or yields an explicit collision of the pair hash |
| Merkle.LongProofSound | packages/hashtree/src/bep52.ts:246-270 | an accepted proof of more than d hashes shows that x lies below a leaf of the tree, or yields a collision |
| Merkle.InnerNodeAccepted | packages/hashtree/src/bep52.ts:246-270 | every inner node, and the root with the empty proof, is accepted as a leaf for each index with the right low digits |
| Merkle.ComputePieceLayers | packages/hashtree/src/bep52.ts:353-368 | the hash of piece i is the node of the whole tree above its blocks |
| Merkle.SliceNode | packages/hashtree/src/bep52.ts:357-365 | the padded tree over one piece's leaves is the subtree of the whole padded tree |
| Merkle.PieceLayersRoot | packages/hashtree/src/bep52.ts:302-368 | the piece hashes, padded with the pad hash of a piece, reduce to the root over all leaves |
| Merkle.ManyBlocksDeep | packages/hashtree/src/bep52.ts:334-338 | a file with more blocks than one piece holds has a tree deeper than a piece |
| Bep52.TreeBuilder.BuildFromData | packages/hashtree/src/bep52.ts:302-347 | root, size, block count and leaf hashes are those of the 16 KiB blocks; piece layers come with a piece size above one block and a file that is not empty, and reduce to the root |
| Bep52.TreeBuilder.BuildFromHashes | packages/hashtree/src/bep52.ts:373-390 | the same from leaf hashes |
| Bep52.StreamBuilder.Append | packages/hashtree/src/bep52.ts:412-429 | appending adds the bytes to those held; every flushed block is full |
| Bep52.StreamBuilder.Finalize | packages/hashtree/src/bep52.ts:448-472 | finalizing describes exactly the bytes appended |
| Bep52.StreamFile | packages/hashtree/src/bep52.ts:397-472 | a file streamed in any split gives the root, leaf hashes and size of building it whole |
| Bep52.PiecesCount | packages/hashtree/src/bep52.ts:304-304 | the number of blocks is the size divided by the block size, rounded up |
| Bep52.BlockIsStretch | packages/hashtree/src/bep52.ts:302-320 | block i is the bytes from 16384 * i up to 16384 * (i + 1) or the end |
| Files.PiecesUnique | packages/hashtree/src/streaming.ts:70-99 | full chunks followed by at most one more are the pieces of their concatenation: data is cut in one way only |
| Files.PiecesCover | packages/hashtree/src/builder.ts:106-118 | cutting loses nothing; every chunk is non-empty and every one but the last has its full size |
| Files.Store.Put | packages/hashtree/src/store/memory.ts:11-19 | a hash that is present keeps its data, and the call says so |
| Files.PutBlob | packages/hashtree/src/streaming.ts:111-123 | public data lies under its own hash and has no key; otherwise its encrypted form lies under the hash of that form and the key is the hash of the data; nothing else in the store changes, nor what lay there before |
| Files.BuildTree | packages/hashtree/src/streaming.ts:190-214 | one chunk is its own root; several get a node that links to all in order |
| Files.PutFile | packages/hashtree/src/encrypted.ts:88-159 | storing a file at hand gives the root that its content and the chunker determine, leaves all it links to in the store, and adds nothing but the file's own blobs; in public form, which is also the tree builder's putFile, it is read back without a key or a held byte string collides with one of its blobs |
| Files.SmallPublicFile | packages/hashtree/src/builder.ts:85-104 | the root of a public file of at most one chunk is the hash of its content, without a key |
| Files.PublicFile | packages/hashtree/src/builder.ts:85-140 | under the root of a stored public file lies the content, or a file node whose links have kind blob, no key and true sizes and lead to byte strings that make up the content; or a held byte string has the hash of one of the file's blobs without being it |
| Files.HasFinds | packages/hashtree/src/store/memory.ts:11-24 | in a store whose entries have their hashes a blob put is found as it was stored, or a held byte string has its hash without being it |
| Files.NoClashNoCollision | packages/hashtree/src/store/memory.ts:11-24 | if no two of the byte strings held before or belonging to the file share a hash, none does in the store afterwards |
| Writer.StreamWriter.Append | packages/hashtree/src/streaming.ts:70-99 | appending adds exactly the given bytes, for every chunker with positive sizes and however they are split |
| Writer.StreamWriter.FlushChunk | packages/hashtree/src/streaming.ts:104-126 | what the buffer holds becomes the next chunk and no byte is lost |
| Writer.StreamWriter.WholeIsCut | packages/hashtree/src/streaming.ts:70-126 | the flushed chunks and the buffer are the pieces of all bytes written |
| Writer.StreamWriter.CurrentRoot | packages/hashtree/src/streaming.ts:132-157 | the checkpoint is the root of all bytes so far and changes nothing in the writer |
| Writer.StreamWriter.Finalize | packages/hashtree/src/streaming.ts:164-185 | the root is that of all bytes written, whatever the split; written unencrypted, they are read back without a key or a held byte string collides with one of the file's blobs |
| Writer.StreamWriter.Clear | packages/hashtree/src/streaming.ts:231-236 | clearing leaves an open, empty writer |
| Upload.Uploader.TakeBuffered | packages/hashtree/src/upload.ts:72-104 | a batch is the front of what is buffered, of the asked size if there is more, and the rest stays |
| Upload.Uploader.FlushOneBatch | packages/hashtree/src/upload.ts:106-113 | a batch reaches the writer whole and leaves the buffer |
| Upload.Uploader.FlushWhole | packages/hashtree/src/upload.ts:115-121 | all whole batches are written and less than one stays |
| Upload.Uploader.FlushRest | packages/hashtree/src/upload.ts:122-147 | flushing until nothing is left writes at most one batch |
| Upload.Uploader.Run | packages/hashtree/src/upload.ts:127-147 | the writer is handed every byte read, in order; with batching the batches are the pieces of the batch size, and without it the read chunks that hold anything |
| Upload.StreamUpload | packages/hashtree/src/upload.ts:49-151 | uploading gives the root, key and size of the whole content, for every file, split and batch size, and stores nothing but the file's own blobs; unencrypted, the content is read back without a key or a held byte string collides with one of those blobs |
| Upload.StreamParts | packages/hashtree/src/builder.ts:221-348 | appending parts and checkpointing after each gives the root of every prefix and, at the end, that of storing the file whole |
| Reader.Assemble | packages/hashtree/src/encrypted.ts:230-273 | the bytes returned are the content below the node; with a limit, success on faithful links is exactly fitting, and without one any failure is the first defect |
| Reader.ReadNode | packages/hashtree/src/encrypted.ts:183-187 | a whole read succeeds on faithful links exactly when the content fits the limit |
| Reader.FaithfulContent | packages/hashtree/src/encrypted.ts:184-184 | true link sizes add up to the content's length |
| Reader.FirstNeeded | packages/hashtree/src/encrypted.ts:321-331 | the loop finds the first link that does not end at or before the offset by the declared sizes, and its position |
| Reader.NextEntry | packages/hashtree/src/encrypted.ts:365-386 | the queue holds the next links in order, as many as the prefetch asks for or are left |
| Reader.StreamFrom | packages/hashtree/src/encrypted.ts:313-414 | whatever the links are, the stream with any positive prefetch hands on what reading one part after the other hands on and ends with the same error; with prefetch 0 nothing is handed on, and it fails unless no link is needed |
| Reader.FaithfulStream | packages/hashtree/src/encrypted.ts:313-414 | with true sizes the stream is exactly the content from the offset on, at any nesting |
| Reader.WholeStream | packages/hashtree/src/encrypted.ts:313-414 | whatever the sizes, a stream below which nothing is defective does not fail |
| Reader.StreamToDefect | packages/hashtree/src/encrypted.ts:313-414 | with true sizes so far, the content up to the first part that fails is handed on in full, then what that part hands on, then its error |
| ReaderRange.ReadRange | packages/hashtree/src/encrypted.ts:440-519 | what a range read returns or fails with, for all links and sizes: never more than was asked for; with true sizes exactly the content from start to end or the end of the file, at any nesting; from the start without an end the whole content or its first defect; and no failure where everything can be read |
| ReaderRange.FaithfulRange | packages/hashtree/src/encrypted.ts:440-519 | with true sizes the range of what lies below a node is that range of the content, at any nesting and for any bounds |
| ReaderRange.WholeRange | packages/hashtree/src/encrypted.ts:440-519 | from the start without an end, whatever the sizes, the range is the whole content or its first defect |
| ReaderRange.MetDefect | packages/hashtree/src/encrypted.ts:454-470 | with true sizes before a defective link, the read fails with its defect if the range goes on past its position and the link is not passed over; a missing key fails even then |
| ReaderRange.MetBelow | packages/hashtree/src/encrypted.ts:479-497 | and what the range of a nested node fails with, the whole read fails with, under the same conditions |
| ReaderRange.RestIsBounded | packages/hashtree/src/encrypted.ts:447-452 | whatever the sizes, no more is collected than was asked for |
| ReaderRange.WrittenFile | packages/hashtree/src/encrypted.ts:88-159 | a written root decrypts to the content, or to a node below which lies exactly the content with true sizes; or a held byte string has the hash of one of the file's blobs without being it |
| RoundTrip.WrittenRoot | packages/hashtree/src/encrypted.ts:32-50 | the bytes behind a written root are the content or the node, provided that a single blob does not itself look like a node; or a held byte string has the hash of one of the file's blobs without being it |
| RoundTrip.RootCases | packages/hashtree/src/encrypted.ts:32-50 | reading a root gives nothing exactly if it is not held, an error exactly if it is held, cannot be decrypted and is no node itself, and the decrypted bytes unless only the stored form is a node |
| RoundTrip.ReadFileRange | packages/hashtree/src/encrypted.ts:419-438 | a range by root is the slice of the blob with negative bounds counted from its end, or the range of what lies below the node: the content in that range with true sizes, and from the start without an end the content or its first defect; for a blob it is the range of its bytes exactly when the bounds agree |
| RoundTrip.ReadFile | packages/hashtree/src/encrypted.ts:175-194 | a whole read by root is the blob or the content below the node, refused exactly above the limit when sizes are true, and without a limit the content or its first defect |
| RoundTrip.ReadFileStream | packages/hashtree/src/encrypted.ts:286-308 | a stream by root hands on the blob or the content below the node from the offset on |
| RoundTrip.NegativeBounds | packages/hashtree/src/encrypted.ts:430-435 | for all data and bounds, the slice of a single blob is the range of its bytes if and only if no bound is negative, or a negative start falls before the data, or nothing is left either way |
| RoundTrip.ReadWritten | packages/hashtree/src/encrypted.ts:419-519 | any range of a written file reads back as that range of its content, or a held byte string has the hash of one of the file's blobs without being it |
| RoundTrip.ReadWrittenWhole | packages/hashtree/src/encrypted.ts:175-194 | a written file reads back as its content, or is refused above the limit; or a held byte string has the hash of one of its blobs without being it |
| RoundTrip.StreamWritten | packages/hashtree/src/encrypted.ts:286-414 | a written file streams as its content from the offset on, without an error and for any positive prefetch; or a held byte string has the hash of one of its blobs without being it |
| RoundTrip.UploadThenRead | packages/hashtree/src/encrypted.ts:419-519 | if no two byte strings at hand share a hash, a range of an uploaded stream is that range of the original bytes, exactly for several chunks or bounds that agree |
| RoundTrip.UploadThenReadAll | packages/hashtree/src/encrypted.ts:175-414 | if no two byte strings at hand share a hash, an uploaded stream reads back whole, within the limit, and streams from any offset as the original bytes |
| RegistrySpec.SplitExactly | packages/hashtree-tree-root/src/index.ts:755-756 | splitting a key gives back its names if and only if the first has no slash |
| RegistrySpec.LabelsOnce | packages/hashtree-tree-root/src/index.ts:827-838 | deduplication keeps exactly the labels that are not empty, each once |
| RegistrySpec.LabelsInOrder | packages/hashtree-tree-root/src/index.ts:827-838 | the labels that stay keep the order in which they first occur |
| RegistrySpec.EnrichOnlyAdds | packages/hashtree-tree-root/src/index.ts:284-340 | what a refused update adds takes nothing away: hash, time, source, known fields, hidden visibility and labels stay |
| RegistrySpec.EnrichTakes | packages/hashtree-tree-root/src/index.ts:284-340 | what a refused update offers arrives where a clean record of the same hash lacks it: a key, a visibility for a public record, the labels in front of those there, and every field that is missing or empty |
| RegistrySpec.LocalWrites | packages/hashtree-tree-root/src/index.ts:440-478 | a local write leaves the given hash and key and the present time whatever was there before, the fields that are given or else were known, and changes no other record or timer |
| RegistrySpec.LocalIsPublished | packages/hashtree-tree-root/src/index.ts:688-763 | with a publish function, the timer that a local write starts begins a publish of the hash just written, and so does a flush for a key with two parts |
| RegistrySpec.RemoteDecides | packages/hashtree-tree-root/src/index.ts:483-666 | a clean record takes the hash, time and source of a later update, the hash of one of the same time, and keeps its own against an earlier one; at the same time and under the same hash another key replaces key and source; nothing else changes |
| RegistrySpec.AcceptedFields | packages/hashtree-tree-root/src/index.ts:512-525 | an accepted update leaves the visibility, labels and further fields that it gives, and else the known labels and, under the same hash, the known fields |
| RegistrySpec.KeyFollowsHash | packages/hashtree-tree-root/src/index.ts:512-525 | what an accepted update keeps: the known key and the other known fields that it omits only under the same hash, the labels always unless it brings some, the visibility only for an external update that brings none |
| RegistrySpec.OtherHashForgets | packages/hashtree-tree-root/src/index.ts:512-525 | under another hash nothing else gets through: two replaced records leave the same record if and only if they agree on the labels and visibility that are kept |
| RegistrySpec.StepKeepsPending | packages/hashtree-tree-root/src/index.ts:440-775 | a step keeps every dirty record with a timer or a publish of its current hash in flight if and only if it is not one of three: cancelling the timer, a timer without a publish function, a flush of a key with an empty part, each while no such publish is in flight |
| RegistrySpec.RunKeepsPending | packages/hashtree-tree-root/src/index.ts:440-775 | over whole runs, every dirty record is pending before, between and after all steps if and only if no step is one of those three |
| RegistrySpec.HydrateForgets | packages/hashtree-tree-root/src/index.ts:211-225 | loading leaves every dirty record pending if and only if no dirty key has an empty part |
| RegistrySpec.CleanedExactly | packages/hashtree-tree-root/src/index.ts:710-738 | a dirty record stops being dirty exactly by deletion or by a successful publish of the hash it has now |
| RegistrySpec.CleanedByPublish | packages/hashtree-tree-root/src/index.ts:710-738 | over a run, a dirty record that ends clean was published under the hash it had at that moment |
| RegistrySpec.FlightsExactly | packages/hashtree-tree-root/src/index.ts:706-763 | a step starts a publish exactly when its timer fires or is flushed while its record is dirty and has that hash, and only the end of a publish takes it out of flight |
| RegistrySpec.DirtyIsKept | packages/hashtree-tree-root/src/index.ts:266-340 | remote updates leave a dirty record as it is, and a decrypted key adds only a missing key |
| RegistrySpec.TimeAdvances | packages/hashtree-tree-root/src/index.ts:266-282 | only a local write or a deletion takes a record back in time |
| RegistrySpec.TimeAdvancesOverRuns | packages/hashtree-tree-root/src/index.ts:266-282 | the same over whole runs |
| RegistrySpec.LatestWins | packages/hashtree-tree-root/src/index.ts:483-666 | of remote updates in any order through any of the three ways in, the latest decides hash and time |
| Registry.Deduplicate | packages/hashtree-tree-root/src/index.ts:827-838 | the loop with its set of seen labels computes the deduplicated labels |
| Registry.EnrichSameHash | packages/hashtree-tree-root/src/index.ts:284-340 | a refused update adds only what a clean record of the same hash lacks, and reports whether anything changed |
| Registry.Registry.SetLocal | packages/hashtree-tree-root/src/index.ts:440-478 | a local write puts a dirty record with the given hash, key and time in place and starts its timer, with the effect of the state machine's step |
| Registry.Registry.SetPublishFn | packages/hashtree-tree-root/src/index.ts:230-232 | installing the publish function changes nothing else |
| Registry.Registry.ShouldAcceptUpdate | packages/hashtree-tree-root/src/index.ts:266-282 | the in-place test agrees with the rule on values |
| Registry.Registry.Update | packages/hashtree-tree-root/src/index.ts:497-531 | a remote update has the state machine's effect and reports exactly whether anything changed |
| Registry.Registry.SetFromResolver | packages/hashtree-tree-root/src/index.ts:483-531 | an update from the resolver |
| Registry.Registry.SetFromWorker | packages/hashtree-tree-root/src/index.ts:560-608 | an update from the worker |
| Registry.Registry.SetFromExternal | packages/hashtree-tree-root/src/index.ts:613-666 | an update from elsewhere, which keeps a known visibility |
| Registry.Registry.MergeKey | packages/hashtree-tree-root/src/index.ts:537-554 | a decrypted key is added exactly where a record of that hash has none, and the call says so |
| Registry.Registry.DeleteRecord | packages/hashtree-tree-root/src/index.ts:671-684 | deletion removes the record and its timer and nothing else |
| Registry.Registry.OnTimer | packages/hashtree-tree-root/src/index.ts:699-702 | a firing timer is removed and a publish of the current hash starts if the record is dirty |
| Registry.Registry.FinishPublish | packages/hashtree-tree-root/src/index.ts:718-737 | success cleans the record only if it still has the published hash; failure leaves a timer |
| Registry.Registry.FlushPendingPublishes | packages/hashtree-tree-root/src/index.ts:743-763 | a flush stops every timer and starts the publishes of the dirty keys that have both parts |
| Registry.Registry.CancelPendingPublish | packages/hashtree-tree-root/src/index.ts:768-775 | cancelling removes the timer only |
| EventKeys.ReversedOrder | packages/hashtree-nostr/src/events.ts:58-60 | reversed timestamps have sixteen digits and are strictly antitone in the time |
| EventKeys.TimeKeyOrder | packages/hashtree-nostr/src/events.ts:503-505 | time keys are ordered newest first and by id where times agree |
| EventKeys.CreatedAtRoundTrip | packages/hashtree-nostr/src/events.ts:507-521 | a time up to 2^53 - 1 is read back from a key, whatever stands in front of it, and with any later time the key cannot be read |
| EventKeys.LateSortsFirst | packages/hashtree-nostr/src/events.ts:58-60 | keys of times that cannot be read back sort before all others, also past 64 bits, where the number gets a sign |
| EventKeys.PadKindInjective | packages/hashtree-nostr/src/events.ts:54-56 | padded kinds differ when the kinds do |
| EventKeys.KindOrder | packages/hashtree-nostr/src/events.ts:54-56 | kinds of 32 bits are padded to eight digits and ordered as the numbers |
| Events.PrefixMatches | packages/hashtree-nostr/src/events.ts:264-392 | the keys that begin with a listing's prefix are exactly those of the events asked for |
| Events.MatchingOrder | packages/hashtree-nostr/src/events.ts:491-505 | in each index, matching keys of times that can be read back are ordered newest first, ids ascending |
| Events.LateIsFirst | packages/hashtree-nostr/src/events.ts:491-505 | in each index, a matching event whose time cannot be read back comes before those whose time can |
| Events.IndexIsRun | packages/hashtree-nostr/src/events.ts:166-189 | each time index is the result of an insertion run |
| Events.AddedIsFound | packages/hashtree-nostr/src/events.ts:165-226 | after any attempts, an addition whose event is well formed and whose id is its hash makes that event the one found by its id and changes no other lookup by id; any other addition leaves the store as it was |
| Events.AttemptedIsAccepted | packages/hashtree-nostr/src/events.ts:165-226 | the store after any attempts is the store of the accepted events alone |
| Events.AcceptedAreWellKeyed | packages/hashtree-nostr/src/events.ts:561-584 | what is accepted has ids and authors that no key confuses |
| Events.AcceptedExactly | packages/hashtree-nostr/src/events.ts:561-584 | an event is accepted exactly if it was tried, its id is the hash of its body, and id, author and signature are of 64, 64 and 128 lower-case hexadecimal digits |
| Events.GetByIdFindsLast | packages/hashtree-nostr/src/events.ts:240-256 | a lookup by id finds the last event added with it |
| Events.FoundIsHashed | packages/hashtree-nostr/src/events.ts:240-256 | after any attempts a lookup by id is refused exactly for anything but 64 lower-case hexadecimal digits; what it finds was tried, has that id and hashes to it, and it finds nothing only if no accepted event has the id |
| EventWinners.BestIsGreatest | packages/hashtree-nostr/src/events.ts:80-86 | the winner competes for the key, and every added event that does is older or has the same time and no larger id |
| EventWinners.GetReplaceableIsGreatest | packages/hashtree-nostr/src/events.ts:285-297 | after any attempts, the lookup by author and kind (0, 3 or 10000 to 19999) returns an accepted event with both such that every other is older or has the same time and no larger id; none if there is none; it is refused exactly for a name that is no author in a store with such an index |
| EventWinners.GetParameterizedIsGreatest | packages/hashtree-nostr/src/events.ts:322-347 | the same for author, kind (30000 to 39999) and the value of the first non-empty d tag, refused exactly for an empty value or a name that is no author in a store with such an index |
| EventWinners.DTagIsFirst | packages/hashtree-nostr/src/events.ts:70-78 | the tag value of an event is that of the first tag named d whose value is not empty |
| EventWinners.WinnersAreRun | packages/hashtree-nostr/src/events.ts:431-448 | the index of winners is an insertion run of those that won on arrival |
| EventWinners.WinnerIsOrderFree | packages/hashtree-nostr/src/events.ts:431-448 | the winner does not depend on the order of arrival |
| EventWinners.SortEventsSorts | packages/hashtree-nostr/src/events.ts:228-230 | sorting a batch keeps its events and puts them oldest first, ids ascending where times agree |
| EventWinners.Build | packages/hashtree-nostr/src/events.ts:228-238 | building onto any store refuses the batch exactly if one of its events would be refused; else it adds its events oldest first, with the winners of adding them as they come |
| EventLists.Scan | packages/hashtree-nostr/src/events.ts:405-419 | the loop takes the events of the window in order, up to the limit, where a limit of 0 counts as 1, and fails exactly if one of the entries has a time that cannot be read back |
| EventLists.OlderRest | packages/hashtree-nostr/src/events.ts:410-412 | behind an event older than the window all are, so the early end loses nothing |
| EventLists.TakenAnswers | packages/hashtree-nostr/src/events.ts:395-420 | what the loop takes is the answer: newest first, in the window, matching, and nothing missing but behind a full limit |
| EventLists.IndexIsFull | packages/hashtree-nostr/src/events.ts:166-189 | an index holds, for every key added, the event added last |
| EventLists.ListRecent | packages/hashtree-nostr/src/events.ts:299-306 | on every store that additions leave, the list of recent events is the answer over the accepted events, and fails if and only if one of them has a time beyond 2^53 - 1 |
| EventLists.List | packages/hashtree-nostr/src/events.ts:258-393 | on every store that additions leave, a listing is empty unless its range ends above the index's first name; if it does, the listing fails exactly when an accepted event asked for has a time beyond 2^53 - 1, and otherwise is the answer; one that does not fail is the answer if and only if its range ends above the first name or nothing is asked for |
| EventExample.NameStays | packages/hashtree-index/src/btree.ts:207-216 | a key below all others goes into the left leaf and the first name stays |
| EventExample.AuthorIsLost | packages/hashtree-nostr/src/events.ts:258-265 | for any hash function, a store of 33 accepted events in which the listing of an author who has an event is empty |
| Nhash.ParseTLV | packages/hashtree/src/nhash.ts:66-89 | the loop parses by offset as the recursive reading does, with the same two errors |
| Nhash.EncodeTLV | packages/hashtree/src/nhash.ts:94-115 | encoding succeeds exactly when every value has at most 255 bytes, in ascending order of types |
| Nhash.TableRoundTrip | packages/hashtree/src/nhash.ts:66-115 | parsing inverts encoding on every table of non-empty lists of short values |
| Nhash.ParsedIsWellFormed | packages/hashtree/src/nhash.ts:66-89 | whatever parses is such a table |
| Nhash.HashTableSize | packages/hashtree/src/nhash.ts:141-158 | an encoded hash has 34 bytes, or 68 with a key, never 32 |
| Nhash.NhashEncode | packages/hashtree/src/nhash.ts:179-195 | a hash is encoded exactly when it and its key have 32 bytes, as type 0, length 32 and the hash, then type 5, length 32 and the key if there is one |
| Nhash.NhashDecode | packages/hashtree/src/nhash.ts:202-239 | 32 bytes are a bare hash; anything else is read as items, the first value of type 0 being the hash and the first of type 5 the key, each of 32 bytes; every other code fails with the error of its kind; an encoded hash decodes to itself |
| Nhash.NhashRoundTrip | packages/hashtree/src/nhash.ts:141-239 | a hash and key written and read, also as a link, come back |
| Nhash.NpathEncode | packages/hashtree/src/nhash.ts:255-279 | a path is encoded exactly when its keys have 32 bytes, its names at most 255, and the code fits |
| Nhash.PathLayout | packages/hashtree/src/nhash.ts:255-279 | an encoded path is the author as type 2, the tree name as 3, each segment as 4 in order and the key, if there is one, as 5, each with its length in front |
| Nhash.NpathDecode | packages/hashtree/src/nhash.ts:284-319 | the first values of types 2, 3 and 5 are author, tree name and key and all of type 4 the segments; every other code fails with the error of its kind; an encoded path decodes to itself |
| Nhash.NpathRoundTrip | packages/hashtree/src/nhash.ts:255-319 | a path written and read, also as a link, comes back, an empty key counting as none |

## Left out

- String values of the B-tree (`insert`, `get`, `range`, `merge` on blobs): the link methods' twins.
- Collation by locale in `sortEntries` and `compareEvents`: taken as the order of code units.
- The string collation of names inside directories, and directory chunking.
- Telling a root blob from a root node: `RoundTrip` follows the code and assumes, for a file of one blob, that neither the content nor its stored form decodes as a node.
- `maxBytes` values that are negative or not finite, which are refused before a read.
- Readers of unencrypted trees: what they would read is stated of the store (`Files.PublicFile`).
- Edits in place (`writeAt`) and the directory editing helpers.
- Progress callbacks of uploads and pushes, and the early return of a push that is already aborted before it starts.
- Parallel hashing of chunks: the stored result does not depend on it.
- `StreamBuilder` as a class of its own: its loops are those of the unencrypted `StreamWriter`, which `Upload.StreamParts` drives.
- Storing blocks while building a BEP 52 tree, and the check that a piece size is a power of two: the builder takes the power.
- `listByTag` and the tag index: a tag value that extends another one after a colon shares its prefix.
- Encoding of events as MessagePack: an index links to the event itself.
- Registry listeners, local persistence and its failures, waiting for a first resolution, and the delays of timers.
- Search by keyword, caches, workers, relays, adapters and user interfaces.
- Merkle.NumLeafs: asks for at most 2^30 blocks, because beyond that the loop does not end, as `Merkle.NumLeafsEndsExactly` states.
- RoundTrip.UploadThenRead: asks for no collision beforehand instead of concluding one, because in a store with collisions the links below a root could lead back to it and reading need not end; `RoundTrip.ReadWritten` concludes one where reading ends.
- RoundTrip.UploadThenReadAll: asks the same, for the same reason; `RoundTrip.ReadWrittenWhole` and `RoundTrip.StreamWritten` conclude a collision.
- BTreeRange.RangeAfterRun: is about deletions after insertions, where the root's first name decides; for runs in any order `BTreeInterleaved.RangeOfRun` gives the condition on the whole tree.
