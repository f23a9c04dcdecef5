# Quantaureum node: verified models

Dafny models of six parts of the Quantaureum node, each with the theorems the code relies on. `dafny verify dfyconfig.toml` checks the whole project.

- **ABI codec** (`Abi*.dfy`): the Ethereum contract ABI encoder and the budgeted, offset-following decoder, following "Formal Specification of the Encoding" in the Solidity Contract ABI Specification. What decoding yields for an encoding placed anywhere in a buffer, exactly when that is the value encoded, what a successful decode of arbitrary bytes was charged, which bytes an encoding consists of, and what decoding arbitrary bytes yields.
- **Bridge Merkle tree and signed bytes** (`Merkle.dfy`, `MerkleTrees.dfy`, `Preimage.dfy`, `PreimageReader.dfy`): duplicate-last padding, proofs, batch constructors, and the byte strings that get hashed or signed. SHA3-256 is a parameter; a theorem that needs it not to collide says so about the finite set of byte strings hashed in that situation, so no theorem rests on a hash function that cannot exist.
- **Replay table and bounded caches** (`Nonces.dfy`, `NonceCheckpoint.dfy`, `NonceRuns.dfy`, `NonceTable.dfy`, `NonceOutcomes.dfy`, `FinalizedIds.dfy`, `MessageSweep.dfy`): high-water mark plus sparse set as a growing set of blocked nonces, the checkpoint file, the finalized-id log and the oldest-first message sweep.
- **Asset locks** (`AssetLocks.dfy`, `AssetAnswers.dfy`, `AssetOwners.dfy`, `AssetLockManager.dfy`): the seven-status lifecycle with failures, timeouts, eviction and refunds, over a ledger of what was actually submitted or confirmed.
- **Lock-order checker** (`LockOrder.dfy`, `LockSteps.dfy`): goroutines interleaved step by step; exactly which lock configurations the checker keeps free of deadlock.
- **Event scanner, signature quorum, message store** (`EventScanner.dfy`, `SignatureQuorum.dfy`, `MessageStore.dfy`, `StoredMessages.dfy`, `HighWaterMarks.dfy`): redundant state against a simple specification over every run.

`ByteStrings.dfy`, `ByteOrder.dfy`, `Hex.dfy`, `Sequences.dfy` and `Results.dfy` hold what several of them share.

Each component that the source keeps in objects and changes in loops is here twice: as functions on values (the specification the theorems are about) and as a class or loop method proved to compute those functions. What other code answers (adapters, signature checks, validation, clocks, RPC failures) is a parameter of the operation and may be anything.

Results where the code does not do what one would expect, each with the exact condition:

- `packNum` checks no range, so the numbers that survive a round trip are not the declared range: `AbiNumbers.RereadIsIdentityIff`.
- A slice of empty tuples encodes but does not decode; so does a lone empty tuple: `AbiGuarantee.EmptyTupleSliceIsRefused`, `AbiGuarantee.EmptyTupleArgumentIsRefused`, with `AbiRoundTrip.RoundTripIff` giving the whole condition.
- The signed bytes tell messages, and locks, apart exactly while their text fields stay below 2^32 bytes, where the length prefix wraps: `Preimage.MessagesToldApartIff`, `Preimage.LocksToldApartIff`.
- `SubmitMessage` writes to a nil map when one of its own sweeps has just dropped the key's map: `Nonces.PanicIff`. Without checkpoint loads this cannot happen (`NonceRuns.RunsStayTight`); with one it can (`NonceRuns.LoadCanLeadToPanic`).
- The refund of a failed lock goes out while its minted asset is outstanding exactly when the refund checks pass, no burn proof was accepted, and the lock either timed out as Minted or failed in its burn submission: `AssetLocks.RefundIsUnbackedIff`. The second case needs an unaccepted proof on record, which a lock request can bring along. Each case has a run: `AssetLocks.UnbackedRefundOccurs`, `AssetLocks.RequestProofRefundOccurs`. A refund without any deposit goes out exactly when the lock had failed inside LockAsset: `AssetLocks.RefundIsDepositlessIff`.
- The aggregate digest joins addresses and signatures without lengths, so it tells signature sets apart exactly when the verifier passes signatures of one length only: `SignatureQuorum.DigestsToldApartIff`, over runs `SignatureQuorum.RunsToldApartIff`. `crypto.Verify` refuses every length but 3293 bytes (`crypto/verify.go:164`), so a bridge with that verifier meets the condition.
- A load of the persisted high-water marks gives every key its last mark exactly when no saved chain name contains the separator and the saved keys are within the iteration limit: `HighWaterMarks.RunLoadsBackIff`. Which keys overwrite each other is `HighWaterMarks.KeysMeetIff`.
- A scan by status misses messages exactly when more than 100000 have the status: `MessageStore.ScanIsComplete`.
- Equal ranks, a zero rank, a shared lock id, or an empty id below the top rank let violation-free runs deadlock: `LockOrder.DeadlockFreeIffOrdered`. That is about goroutines that never lock a mutex they hold; doing so passes the check and deadlocks: `LockSteps.RelockDeadlocks`.

Where code and comments disagree the model follows the code: `common/lock_order.go` says at the top that the higher rank is locked first, but the check demands increasing ranks; the refund comment in `bridge/asset_lock.go` says a Minted lock is only warned about, but a failed burn submission does block the refund; `computeMessageHash` is described as SHA-256 and without expiration and block number, but uses SHA3-256 and covers both; the comment on the callback in `bridge/ethereum_adapter.go` says a refused message is retried on the next tick, but the watcher returns, and `bridge/bridge.go` only logs that and starts no new one.

## Model

| member | source | states |
|---|---|---|
| `AbiType.RepeatFacts` | abi/type.go:206-248 | the head size and dynamism of n equal components are those of one, so slices, arrays and tuples share one head/tail layout |
| `AbiNumbers.NumberReadsBack` | abi/type.go:335-381 | the word packNum writes reads back, through unpackNum, as the closed form Reread |
| `AbiNumbers.RereadIsIdentityIff` | abi/type.go:605-623 | a packed number decodes to itself exactly when it Survives, in range or not |
| `AbiNumbers.DeclaredRangeSurvives` | abi/type.go:335-381 | every number in the declared range packs and survives |
| `AbiNumbers.WordReadsBack` | abi/type.go:438-441 | exactly the numbers below 2^256 fit a length or offset word, and each reads back as written |
| `AbiRoundTrip.PackSize` | abi/type.go:226-248 | an encoding has the predicted size, which for static types is GetSize |
| `AbiRoundTrip.CanonIsIdentityIff` | abi/type.go:278-333 | the decoder's rendering of an accepted value is the value itself exactly when it is canonical |
| `AbiRoundTrip.DecodeAt` | abi/type.go:699-888 | an encoding at any offset of any buffer decodes, exactly when its price fits the remaining budget and every list passes the 32-bytes-per-element check, to the canonical value with exactly that price charged; otherwise decoding fails |
| `AbiRoundTrip.SeqAt` | abi/type.go:842-888 | the same for a head/tail list of components, both passes |
| `AbiRoundTrip.UnpackAfterPack` | abi/argument.go:81-179 | what Unpack does with every result of Pack, success and failure, decided by a condition on the arguments alone |
| `AbiRoundTrip.RoundTripIff` | abi/argument.go:81-179 | Unpack returns exactly the packed arguments if and only if they are canonical, affordable, have room, and do not encode to nothing, all told from the arguments alone |
| `AbiGuarantee.RoomForEncoding` | abi/type.go:712-720 | without empty tuples every list passes the length check |
| `AbiGuarantee.PackSucceedsIff` | abi/type.go:278-303 | a value packs exactly when it is one the encoder takes for the type, conversions included, every offset stays within 2^32 and every length within an int64 |
| `AbiGuarantee.PackArgumentsSucceedsIff` | abi/argument.go:81-128 | the same for argument lists, a wrong number of values included |
| `AbiGuarantee.InRangeIsAccepted` | abi/type.go:335-470 | in-range values are values the encoder takes |
| `AbiGuarantee.HexAddressPacks` | abi/type.go:405-415 | the hex text of an address, with or without 0x, packs to the same word as the address |
| `AbiGuarantee.RoundTrip` | abi/argument.go:81-179 | for types without empty tuples, in-range values whose offsets and price fit are packed, and Unpack returns exactly them |
| `AbiGuarantee.EmptyTupleSliceIsRefused` | abi/type.go:712-720 | a one-element slice of empty tuples packs, and its bytes do not unpack |
| `AbiGuarantee.EmptyTupleArgumentIsRefused` | abi/argument.go:131-137 | a lone empty tuple packs to no bytes, which Unpack refuses |
| `AbiSafety.UnpackSound` | abi/type.go:605-888 | for every byte string, a decode that succeeds yields a value of the type's shape, charged exactly that value's price, within budget; static types consume GetSize bytes |
| `AbiSafety.UnpackSeqSound` | abi/type.go:842-888 | the same for component lists, whatever the offsets point at |
| `AbiSafety.UnpackArgumentsSound` | abi/argument.go:131-179 | a whole Unpack charges at most 32 MiB and 2^20 elements, exactly the price of what it returns |
| `AbiLayout.DynamicIff` | abi/type.go:206-222 | a type is dynamic exactly when a bytes, string or slice type is laid out inside it |
| `AbiLayout.PackIsLaid` | abi/type.go:278-600 | every successful encoding has the layout of the specification: lengths, contents, zero padding, heads, offsets and gapless tails stand where it says |
| `AbiLayout.LayoutIsUnique` | abi/type.go:278-600 | an in-range value has one layout |
| `AbiLayout.EncodingIsTheLayout` | abi/type.go:278-600 | for in-range values whose offsets fit, some bytes are the encoding if and only if they have the layout |
| `AbiLayout.ArgumentsAreTheLayout` | abi/argument.go:81-128 | the same for argument lists |
| `AbiLayout.PackIsAligned` | abi/type.go:278-600 | every encoding is a whole number of 32-byte words |
| `AbiReading.ReadsIff` | abi/type.go:306-333 | on any bytes, at any offset, decoding yields a value if and only if that value stands there, offsets followed and padding ignored, and its price is within the budget |
| `AbiReading.ArgumentsReadIff` | abi/argument.go:130-179 | the same for a whole call, empty data included |
| `AbiLoops.PackNumber` | abi/type.go:335-381 | the filled and overwritten word is PackNum, the too-long case included |
| `AbiLoops.PackValue` | abi/type.go:278-304 | the dispatch computes Pack for every type and value, errors included |
| `AbiLoops.PackAddress` | abi/type.go:395-420 | addresses as 20 bytes or hex text, with each length and digit error |
| `AbiLoops.DecodeHex` | abi/type.go:962-975 | the two-characters-at-a-time loop computes the decoded bytes, or fails for odd lengths and bad digits |
| `AbiLoops.PackElements` | abi/type.go:509-547 | the element loop's head and tail buffers are the list encoding |
| `AbiLoops.PackTuple` | abi/type.go:549-601 | the component loop's head and tail buffers are the list encoding |
| `AbiLoops.HeadBytes` | abi/argument.go:86-94 | the head-size loop computes HeadSize |
| `AbiLoops.PackAll` | abi/argument.go:81-128 | Arguments.Pack computes PackArguments, mismatched counts included |
| `AbiLoops.DecodeState.Allocate` | abi/argument.go:57-66 | charges memory, or refuses and leaves the state alone |
| `AbiLoops.DecodeState.CountOne` | abi/argument.go:69-75 | counts an element and refuses past the limit, the refused element staying counted |
| `AbiLoops.UnpackValue` | abi/type.go:306-333 | the dispatch computes Unpack and leaves the decode state at its charge |
| `AbiLoops.UnpackBlob` | abi/type.go:644-674 | the length-checked byte read computes UnpackBytes |
| `AbiLoops.UnpackItems` | abi/type.go:733-773 | the element loops compute the list decoding |
| `AbiLoops.UnpackStaticItems` | abi/type.go:758-771 | the static-element loop computes the list decoding |
| `AbiLoops.UnpackDynamicItems` | abi/type.go:737-757 | the two-pass dynamic-element loop computes the list decoding |
| `AbiLoops.UnpackComponents` | abi/type.go:842-888 | the two passes over result and offset arrays compute the list decoding |
| `AbiLoops.ReadHeads` | abi/argument.go:146-167 | the first pass fills exactly the static results and the dynamic offsets |
| `AbiLoops.ReadTails` | abi/argument.go:169-178 | the second pass fills the dynamic results |
| `AbiLoops.UnpackAll` | abi/argument.go:131-179 | Arguments.Unpack computes UnpackArguments, the empty input included |
| `Merkle.LeafInputInjective` | bridge/merkle.go:36-47 | equal leaf inputs come from equal data, of any length |
| `Merkle.LeafIsNotNode` | bridge/merkle.go:13-16 | no leaf input is a node input |
| `Merkle.NextInjective` | bridge/merkle.go:200-211 | equal parent layers come from equal duplicate-free layers, odd ones included |
| `Merkle.NextDistinct` | bridge/merkle.go:200-211 | duplicate-free layers have duplicate-free parents |
| `Merkle.HeightsAgree` | bridge/merkle.go:189-214 | trees with one root have equal heights |
| `Merkle.RootBindsBatch` | bridge/merkle.go:189-214 | two non-empty duplicate-free leaf batches with one root are the same sequence |
| `Merkle.FoldStartsInTree` | bridge/merkle.go:286-296 | a proof that folds into a tree starts at one of its nodes, never below the leaves |
| `Merkle.AcceptedLeafIsMember` | bridge/merkle.go:265-297 | an accepted proof for a leaf hash against a tree's root names one of its leaves and has the tree's depth, though depth and index are the prover's |
| `Merkle.AcceptedIndexNamesLeaf` | bridge/merkle.go:265-297 | an accepted index within the batch is the index of the accepted leaf |
| `Merkle.FoldIgnoresHighBits` | bridge/merkle.go:280-296 | the fold sees only as many bits of the index as there are neighbours |
| `Merkle.IndexIsInRange` | bridge/merkle.go:265-280 | so the range check is what refuses a second index for an accepted proof |
| `Merkle.ProofCompleteness` | bridge/merkle.go:220-263 | every leaf of a tree of at most 2^20 leaves has an accepted proof of at most 20 neighbours |
| `MerkleTrees.NextLayer` | bridge/merkle.go:201-209 | the pairing loop computes the parent layer |
| `MerkleTrees.BuildTree` | bridge/merkle.go:189-214 | root and layers of every leaf list, empty and single ones included |
| `MerkleTrees.NewMerkleTree` | bridge/merkle.go:60-97 | accepts exactly batches within the cap with short, distinct ids, and builds their tree |
| `MerkleTrees.GenerateProof` | bridge/merkle.go:220-263 | a proof exactly for the leaves of the tree, for the first occurrence, and accepted for trees up to the cap |
| `MerkleTrees.VerifyMerkleProof` | bridge/merkle.go:265-297 | the loop accepts exactly the proofs that Verifies describes, nil refused |
| `MerkleTrees.NewMerkleTreeFromMessages` | bridge/merkle.go:139-177 | accepts exactly batches within the cap without nil messages, long ids or equal leaves, and builds their tree |
| `MerkleTrees.RootBindsMessages` | bridge/merkle.go:119-177 | two accepted message batches with one root are equal message for message, field for field |
| `MerkleTrees.AcceptedMessageIsInBatch` | bridge/merkle.go:265-297 | an accepted proof for a message's leaf against a batch's root means the message is in the batch |
| `Preimage.FieldIsPrefixFree` | bridge/ethereum_adapter.go:1827-1832 | a field can be read off the front of a byte string in one way only |
| `Preimage.EncodeIsInjective` | bridge/ethereum_adapter.go:1827-1878 | the bytes of a field list determine every field |
| `Preimage.ComputeMessageHash` | bridge/ethereum_adapter.go:1820-1880 | the writes in sequence hash exactly the message preimage |
| `Preimage.MessagePreimageIsInjective` | bridge/ethereum_adapter.go:1820-1880 | the hashed bytes determine all nineteen covered fields, signed times included |
| `Preimage.LongFieldsCollide` | bridge/ethereum_adapter.go:1827-1832 | at 2^32 bytes the length prefix wraps and two different messages share their bytes |
| `Preimage.MessagesToldApartIff` | bridge/ethereum_adapter.go:1820-1880 | for any bound on the text fields, the bytes tell all messages within it apart if and only if the bound is below 2^32 |
| `Preimage.CanonicalLockMessage` | bridge/asset_lock.go:615-653 | fails exactly for missing, non-positive or over-wide amounts, else returns the lock bytes |
| `Preimage.LockMessageIsInjective` | bridge/asset_lock.go:615-653 | the lock bytes determine all seven lock fields |
| `Preimage.LongChainsCollide` | bridge/asset_lock.go:620-627 | at 2^32 bytes a chain name moves to the next field and two different locks share their bytes |
| `Preimage.LocksToldApartIff` | bridge/asset_lock.go:615-653 | for any bound on the text fields, the bytes tell all signable locks within it apart if and only if the bound is below 2^32 |
| `Preimage.DomainsAreSeparate` | bridge/asset_lock.go:615-618 | no lock's bytes are any message's bytes |
| `PreimageReader.MessageIsRead` | bridge/ethereum_adapter.go:1820-1880 | a reader that knows only tag, order and kinds of the fields recovers the message from its signed bytes |
| `PreimageReader.LockIsRead` | bridge/asset_lock.go:615-652 | the same for locks: chains, asset type, token, owner, recipient, amount |
| `PreimageReader.LeafBytes` | bridge/merkle.go:36-47 | where prefix, tag, length and data of a leaf stand |
| `PreimageReader.NodeBytes` | bridge/merkle.go:49-57 | where prefix, tag, left child and right child of a node stand |
| `LockOrder.NoInversion` | common/lock_order.go:244-259 | the check is silent exactly when no held entry ranks above the mutex |
| `LockOrder.Tracker.AssertOrder` | common/lock_order.go:240-267 | the loop reports exactly the ranked held locks above the mutex |
| `LockOrder.Tracker.Record` | common/lock_order.go:180-183 | one entry is pushed on the goroutine's own stack, no other changes |
| `LockOrder.Tracker.Forget` | common/lock_order.go:193-210 | the last entry with the id is removed, an emptied stack is deleted, and without a match nothing changes |
| `LockOrder.OthersStay` | common/lock_order.go:198-209 | forgetting one id keeps every entry with another id |
| `LockOrder.StepKeeps` | common/lock_order.go:169-235 | every step of every goroutine keeps the stacks complete and waits ascending |
| `LockOrder.RunKeepsOrder` | common/lock_order.go:169-267 | over every violation-free interleaving a waiting goroutine holds only lower-ranked mutexes, TryLock included |
| `LockOrder.RanksGrow` | common/lock_order.go:233-267 | along any path of waits the rank of the awaited mutex strictly grows |
| `LockOrder.OrderedIsDeadlockFree` | common/lock_order.go:169-267 | no reachable state of an ordered configuration has a cycle of waits |
| `LockOrder.RunsProgress` | common/lock_order.go:169-267 | from every waiting goroutine a path of waits leads to one that can take, finish or release |
| `LockOrder.SilentPairDeadlocks` | common/lock_order.go:240-258 | two mutexes with equal, zero or unchecked ranks deadlock in some violation-free run |
| `LockOrder.SharedIdDeadlocks` | common/lock_order.go:198-209 | two mutexes with one id deadlock in some violation-free run, because the pop removes the wrong entry |
| `LockOrder.DeadlockFreeIffOrdered` | common/lock_order.go:169-267 | violation-free runs are deadlock-free exactly for pairwise distinct ids and non-zero distinct ranks, an empty id allowed only at the top |
| `LockSteps.TryLockTakes` | common/lock_order.go:215-231 | from any state, TryLock of a free mutex makes the caller its only holder, puts its entry on top of the caller's stack and changes nothing for anyone else |
| `LockSteps.TryLockOfHeld` | common/lock_order.go:215-218 | TryLock of a held mutex changes nothing |
| `LockSteps.LockFiresIff` | common/lock_order.go:240-260 | the check fires exactly when a lock ranked above the mutex is on the caller's stack and the mutex has a rank and an id |
| `LockSteps.LockWaits` | common/lock_order.go:169-178 | a Lock past its check waits exactly while the mutex is held |
| `LockSteps.LockTakes` | common/lock_order.go:169-183 | and then ends as a successful TryLock does |
| `LockSteps.UnlockGives` | common/lock_order.go:188-211 | exactly the holder can unlock, after which nobody holds the mutex and its last entry is off the stack |
| `LockSteps.TakeAndReleaseRestores` | common/lock_order.go:188-231 | taking and releasing leaves every holder and every stack as it was |
| `LockSteps.TryLockAgainstTheOrder` | common/lock_order.go:215-231 | a run in which TryLock takes a lower-ranked mutex unchecked and the next Lock between the two ranks fires |
| `LockSteps.RelockDeadlocks` | common/lock_order.go:169-183 | locking a mutex one holds passes the check and waits for oneself |
| `Nonces.SweepAllBlocks` | bridge/bridge.go:1825-1845 | a global sweep blocks exactly what was blocked and leaves nothing covered |
| `Nonces.SweepKeyBlocks` | bridge/bridge.go:1854-1875 | a per-key sweep blocks exactly what was blocked |
| `Nonces.SweepAllCounts` | bridge/bridge.go:1840-1844 | the counter stays the number of tracked entries, so the clamp never fires |
| `Nonces.SweepKeyCounts` | bridge/bridge.go:1870-1874 | the same for the per-key sweep |
| `Nonces.SubmitBlocks` | bridge/bridge.go:1904-2191 | an accepted submit blocks exactly one nonce that was not blocked; every other outcome, rollback included, changes nothing blocked |
| `Nonces.SubmitCounts` | bridge/bridge.go:2060-2180 | insert and rollback keep the counter exact |
| `Nonces.SubmitKeepsCaps` | bridge/bridge.go:1947-1969 | both caps hold after every submit |
| `Nonces.ExecuteBlocks` | bridge/bridge.go:2450-2469 | execution blocks exactly the nonces up to the executed one more |
| `Nonces.PanicIff` | bridge/bridge.go:1947-2060 | the write meets a nil map exactly when a cap-relief sweep found all of the key's nonces covered |
| `NonceOutcomes.SubmitAnswers` | bridge/bridge.go:1904-2191 | every outcome with its exact condition on the table before the call: caps after discarding covered nonces, mark, tracked nonces, remaining checks, adapter |
| `NonceOutcomes.AcceptedIff` | bridge/bridge.go:1904-2191 | a submit is accepted exactly for a valid, submitted, unblocked nonce with room below both caps and no nil map |
| `Nonces.LeanNeverPanics` | bridge/bridge.go:1947-2060 | not when no tracked nonce is covered |
| `NonceCheckpoint.FormatParses` | bridge/nonce_checkpoint.go:177-181 | decimal nonce text parses back to the nonce |
| `NonceCheckpoint.ParseIff` | bridge/nonce_checkpoint.go:176 | exactly the decimal forms of numbers below 2^64, with any leading zeros, parse to them |
| `NonceCheckpoint.LoadBlocks` | bridge/nonce_checkpoint.go:163-190 | loading any file blocks exactly what was blocked and what its entries name or cover, corrupt text naming nothing |
| `NonceCheckpoint.LoadCounts` | bridge/nonce_checkpoint.go:175-189 | loading keeps the counter exact |
| `NonceCheckpoint.LoadTwice` | bridge/nonce_checkpoint.go:163-190 | loading any file a second time changes nothing |
| `NonceCheckpoint.SnapshotMerges` | bridge/nonce_checkpoint.go:136-245 | a snapshot of one table loaded into another blocks exactly the union |
| `NonceRuns.NoNonceTwice` | bridge/bridge.go:1904-2191 | no (chain, address, nonce) is accepted twice in any run, from any table |
| `NonceRuns.NoNonceTwiceAcrossRestart` | bridge/nonce_checkpoint.go:136-245 | nor after a snapshot is loaded into any table and a second run follows |
| `NonceRuns.RunsCount` | bridge/bridge.go:1825-1875 | the counter is exact after every run, loads included |
| `NonceRuns.RunsStayTight` | bridge/bridge.go:1947-1969 | without loads a run from empty keeps both caps and never panics |
| `NonceRuns.LoadCanLeadToPanic` | bridge/bridge.go:1961-2060 | ten thousand accepted nonces, a load and one submit reach the nil map |
| `NonceTable.ReplayTable.PruneInner` | bridge/bridge.go:1830-1835 | the deletion loop keeps exactly the uncovered nonces and counts the rest |
| `NonceTable.ReplayTable.SweepUsedNoncesFor` | bridge/bridge.go:1854-1875 | the new table is the per-key sweep of the old one |
| `NonceTable.ReplayTable.SweepUsedNonces` | bridge/bridge.go:1825-1845 | the new table is the global sweep of the old one, and the result counts what went |
| `NonceTable.ReplayTable.EnforceCaps` | bridge/bridge.go:1904-1969 | the table after inner-map creation and cap relief, and which cap refused |
| `NonceTable.ReplayTable.SubmitMessage` | bridge/bridge.go:1904-2191 | table and outcome of a submit, for every answer of validation and adapter |
| `NonceTable.ReplayTable.ExecuteMessage` | bridge/bridge.go:2450-2469 | the table after an execution |
| `NonceTable.ReplayTable.MergeNonces` | bridge/nonce_checkpoint.go:175-189 | exactly the parsed, uncovered, untracked nonces join the set, and each is counted once |
| `NonceTable.ReplayTable.LoadOne` | bridge/nonce_checkpoint.go:163-190 | the table after one file entry |
| `NonceTable.ReplayTable.LoadCheckpoint` | bridge/nonce_checkpoint.go:136-205 | the table after a whole file |
| `NonceTable.ReplayTable.Snapshot` | bridge/nonce_checkpoint.go:216-245 | one entry per key of either map, in some order |
| `FinalizedIds.FinalizedLog.MarkFinalized` | bridge/bridge.go:1260-1267 | set, order and index keep describing one duplicate-free sequence, extended only by a new id |
| `FinalizedIds.FinalizedLog.TrimFinalized` | bridge/bridge.go:2795-2809 | exactly the most recent 200000 entries stay, in order, and the three views agree again |
| `FinalizedIds.FinalizedLog.ForgetFront` | bridge/bridge.go:2796-2802 | the evicted front leaves set and index |
| `FinalizedIds.FinalizedLog.Renumber` | bridge/bridge.go:2805-2808 | positions are rebuilt for the remaining entries |
| `FinalizedIds.RecentIdsSurvive` | bridge/bridge.go:2788-2809 | in every run of marks and trims an id stays known until 200000 marks after it |
| `FinalizedIds.TrimKeepsTheLast` | bridge/bridge.go:2795-2809 | a trim keeps exactly the last 200000 entries, or all of fewer |
| `FinalizedIds.LogIsBounded` | bridge/bridge.go:2788-2809 | over every run the log stays within 200000 plus the marks since, and within 200000 after a trim |
| `FinalizedIds.MarkIsKnown` | bridge/bridge.go:1260-1267 | a marked id is known at once and nothing is forgotten by marking |
| `MessageSweep.SortByAge` | bridge/bridge.go:2614-2618 | sorted by timestamp, and a permutation of the input |
| `MessageSweep.SiftDown` | bridge/bridge.go:2615-2617 | the inner loop extends the sorted prefix by one, permuting only |
| `MessageSweep.PrefixIsOldest` | bridge/bridge.go:2614-2623 | a prefix of the sorted list with the right number of messages is an oldest-first choice |
| `MessageSweep.SweepBounds` | bridge/bridge.go:2585-2653 | whatever the indexes list, a sweep ends within the cap or with nothing sweepable left, never takes the cache below the cap, and does nothing when the cache is within it |
| `MessageSweep.SweepableIsTerminal` | bridge/bridge.go:2597-2603 | with agreeing indexes the listed messages are exactly the terminal ones |
| `MessageSweep.AgreeingSweep` | bridge/bridge.go:2585-2653 | with agreeing indexes no message in progress goes, no evicted message is newer than a terminal one that stays, and the indexes still agree |
| `MessageSweep.SweepIsDetermined` | bridge/bridge.go:2614-2623 | with distinct timestamps the evicted set is determined |
| `MessageSweep.WithoutAgrees` | bridge/bridge.go:2633-2646 | removing messages keeps agreeing indexes agreeing |
| `MessageSweep.EvictedIsGone` | bridge/bridge.go:2632-2646 | an evicted message is gone from every map and its status list, and nothing about any other message changes |
| `MessageSweep.MessageCache.CollectTerminal` | bridge/bridge.go:2596-2603 | exactly the cached messages listed under a terminal status, with their timestamps, dangling entries skipped |
| `MessageSweep.MessageCache.EvictOne` | bridge/bridge.go:2629-2646 | finalized, then gone from the messages, its own status list and every other map, and nothing else touched |
| `MessageSweep.MessageCache.SweepMessages` | bridge/bridge.go:2585-2653 | from any cache, evicts exactly an oldest-first set of the needed size, marks all of it finalized, and keeps earlier marks |
| `MessageSweep.MessageCache.EvictSorted` | bridge/bridge.go:2619-2648 | the eviction loop over the sorted list does that, skipping ids already gone |
| `AssetLocks.DerivedIdsNeverCollide` | bridge/asset_lock.go:434-449 | derived message ids of accepted locks never coincide with each other or with a lock id |
| `AssetLocks.ApplyKeeps` | bridge/asset_lock.go:411-1063 | every operation, with any submission outcome, keeps ledger, statuses and index in step |
| `AssetLocks.RunKeeps` | bridge/asset_lock.go:411-1450 | in every run, for every request record, the ledger of each lock is exactly what its status and failure reason say, and the index what the statuses say |
| `AssetLocks.LifecycleIsSafe` | bridge/asset_lock.go:663-1063 | per lock nothing is submitted twice, at most one release goes out, and mint, burn and unlock come only after confirmation, mint and burn |
| `AssetAnswers.LedgerStep` | bridge/asset_lock.go:411-1450 | an operation adds an event exactly when it came with the right answers and met the lock in the right state, written out for all six kinds |
| `AssetAnswers.LedgerIsCaused` | bridge/asset_lock.go:411-1450 | over every run an event is in the ledger if and only if some call caused it |
| `AssetAnswers.RecordStep` | bridge/asset_lock.go:411-1742 | what every operation does to every field of every record: what was agreed never changes, each time is that of its cause |
| `AssetAnswers.RecordIsTheRequests` | bridge/asset_lock.go:411-549 | over every run each record goes back to the one call that opened it and still holds that request's parties, amount, chain and hash |
| `AssetAnswers.HintIff` | bridge/asset_lock.go:1844-1851 | the hint is found exactly when the word occurs in the text |
| `AssetAnswers.EntryTimeIsEntry` | bridge/asset_lock.go:1246-1259 | the time a timeout counts from is that of the call that brought the lock into its status |
| `AssetAnswers.TimesOutIff` | bridge/asset_lock.go:1231-1309 | a scan fails a lock exactly when it has been in a live status for the limit, and leaves every other record alone |
| `AssetLocks.StatusIndexIsExact` | bridge/asset_lock.go:506-536 | the status index is exact, missing only the locks that failed in LockAsset |
| `AssetLocks.RefundIsUnbackedIff` | bridge/asset_lock.go:1375-1436 | a refund goes out against an outstanding minted asset exactly when the refund checks pass, the lock failed as Minted, by timeout or by its burn submission, and no burn proof was accepted |
| `AssetLocks.ProoflessRefundIsUnbackedIff` | bridge/asset_lock.go:1406-1416 | without a proof on record that is, in every run, exactly a lock that passes the refund checks and timed out as Minted |
| `AssetLocks.RefundIsDepositlessIff` | bridge/asset_lock.go:506-517 | a refund goes out without a deposit exactly when the refund checks pass and the lock failed in LockAsset |
| `AssetLocks.UnbackedRefundOccurs` | bridge/asset_lock.go:1267-1296 | a run through a timeout as Minted to a refund without an accepted proof |
| `AssetLocks.RequestProofRefundOccurs` | bridge/asset_lock.go:1406-1416 | a run in which the request's own burn proof lets a lock be refunded after its burn submission failed |
| `AssetLocks.ProvenHaveProofs` | bridge/asset_lock.go:1716-1735 | in every run an accepted burn proof stays on the lock's record |
| `AssetLocks.DepositlessRefundOccurs` | bridge/asset_lock.go:506-517 | a run from a rejected deposit to a refund |
| `AssetOwners.RunKeepsOwners` | bridge/asset_lock.go:530-536 | in every run each owner's list is the ledger's deposits of locks with that owner |
| `AssetOwners.OwnerIndexIsExact` | bridge/asset_lock.go:530-536 | each owner's list holds exactly the owner's deposited locks, once each, in deposit order |
| `AssetLockManager.Manager.LockAsset` | bridge/asset_lock.go:411-549 | the state after a lock request, and success exactly with a recorded deposit |
| `AssetLockManager.Manager.ConfirmLock` | bridge/asset_lock.go:663-702 | the state after a confirmation attempt, and success exactly with a recorded confirmation |
| `AssetLockManager.Manager.MintAsset` | bridge/asset_lock.go:704-846 | the state after a mint attempt, and success exactly with a recorded mint |
| `AssetLockManager.Manager.BurnAsset` | bridge/asset_lock.go:848-927 | the state after a burn attempt, and success exactly with a recorded burn |
| `AssetLockManager.Manager.UnlockAsset` | bridge/asset_lock.go:929-1063 | the state after an unlock attempt, and success exactly with a recorded unlock |
| `AssetLockManager.Manager.ScanStaleLocks` | bridge/asset_lock.go:1231-1309 | exactly the locks whose time in a live status has run out fail, found through the index |
| `AssetLockManager.Manager.ScanStatus` | bridge/asset_lock.go:1268-1307 | the loop over one status fails exactly its stale locks |
| `AssetLockManager.Manager.MarkLockFailed` | bridge/asset_lock.go:1314-1336 | the lock fails with the reason and moves in the index |
| `AssetLockManager.Manager.RefundFailedLock` | bridge/asset_lock.go:1375-1450 | the state after a refund attempt, and success exactly with a recorded refund |
| `AssetLockManager.Manager.RefundFailedLockWithBurnProof` | bridge/asset_lock.go:1598-1742 | the first accepted proof is attached and kept, a different one is refused, and the refund goes out exactly when the proof is accepted, the refund checks then pass and the submission succeeds |
| `AssetLockManager.Manager.HandlePendingMessageEviction` | bridge/asset_lock.go:1758-1779 | fails a pending lock and leaves every other lock alone |
| `AssetLockManager.Manager.ReservedSuffix` | bridge/asset_lock.go:444-448 | finds exactly the ids that end in a reserved suffix |
| `EventScanner.DeliveryIsExact` | bridge/ethereum_adapter.go:1315-1415 | for any failures, what was delivered is every height after the start up to the last checked one, in order and once, and after a failed callback a longer prefix of that stream |
| `EventScanner.StopsAtRefusal` | bridge/ethereum_adapter.go:1360-1382 | a stopped watcher delivered everything before one tick and of that tick's batch exactly up to the refused message |
| `EventScanner.ReachIsMaximal` | bridge/ethereum_adapter.go:1347-1358 | a scan stops only at the current height or before a height it cannot read |
| `EventScanner.CleanTickCatchesUp` | bridge/ethereum_adapter.go:1347-1387 | a tick without failures reaches the current height |
| `EventScanner.TickIsDecided` | bridge/ethereum_adapter.go:1345-1387 | every tick moves to the farthest height readable from the last one and delivers exactly that batch, or stops in it at the refusal |
| `EventScanner.OtherTicks` | bridge/ethereum_adapter.go:1335-1343 | an unanswered query changes nothing, and the first answer only sets the start |
| `EventScanner.IntervalIsBounded` | bridge/ethereum_adapter.go:1389-1410 | the interval stays between 1 and 15 seconds and the idle count below 3 |
| `EventScanner.IntervalFollowsProgress` | bridge/ethereum_adapter.go:1389-1410 | progress sets the interval to a second, and every third idle tick lengthens it by half up to 15 seconds |
| `EventScanner.IntervalOnlyThen` | bridge/ethereum_adapter.go:1335-1382 | no other tick touches it |
| `EventScanner.IdleTicksAreQuiet` | bridge/ethereum_adapter.go:1389-1410 | a run that goes on with idle ticks only backs off |
| `EventScanner.QuietReachesSlowest` | bridge/ethereum_adapter.go:1389-1410 | 21 idle ticks after progress, and not 18, it polls every 15 seconds |
| `EventScanner.DeliverHeight` | bridge/ethereum_adapter.go:1360-1382 | hands over the messages of one height up to the first refusal |
| `EventScanner.ScanHeights` | bridge/ethereum_adapter.go:1345-1385 | the height loop delivers exactly the batch up to its reach |
| `EventScanner.WatchEvents` | bridge/ethereum_adapter.go:1315-1415 | the polling loop computes Run over its ticks |
| `Hex.HexDecodesBack` | abi/type.go:962-975 | hexDecode undoes hexEncodeHash |
| `Hex.DecodeIsExact` | abi/type.go:962-975 | exactly the hex forms of some bytes, in either case, decode to them |
| `Hex.HexIsInjective` | bridge/validator_network.go:511-522 | different hashes have different keys |
| `SignatureQuorum.HexEncodeHash` | bridge/validator_network.go:511-522 | the buffer loop computes the hex form |
| `SignatureQuorum.RunKeeps` | bridge/validator_network.go:434-503 | in every run each stored signature was verified over the hash of its key, inner maps are non-empty, and the message cap holds |
| `SignatureQuorum.QuorumIsBacked` | bridge/validator_network.go:572-581 | a quorum for a hash means at least threshold distinct validators, each verified over exactly that hash |
| `SignatureQuorum.QuorumIffEnough` | bridge/validator_network.go:572-581 | a hash has a quorum exactly when enough validators have votes for it |
| `SignatureQuorum.CollectedAreVotes` | bridge/validator_network.go:434-503 | over every run the collected signatures are the first of each known validator over the hash that verified while its message was open or had room, since the last clear |
| `SignatureQuorum.RunIsOpen` | bridge/validator_network.go:434-503 | the messages counted against the cap are exactly those with a taken signature since their last clear, each with its first hash |
| `SignatureQuorum.QuorumIffSomeHash` | bridge/validator_network.go:546-555 | HasQuorum holds exactly when some hash has a quorum |
| `SignatureQuorum.AggregateIsDetermined` | bridge/validator_network.go:646-660 | the digest depends on the collected signatures alone, not on any order |
| `SignatureQuorum.DigestBindsSignatures` | bridge/validator_network.go:646-660 | with 20-byte addresses and signatures of one length, equal digest inputs come from equal signature sets |
| `SignatureQuorum.DigestNeedsOneWidth` | bridge/validator_network.go:646-660 | for any two different signature lengths there are two different signature sets of these lengths with one digest input |
| `SignatureQuorum.DigestsToldApartIff` | bridge/validator_network.go:646-660 | for any set of signature lengths and 20-byte addresses, digest inputs tell signature sets apart if and only if it holds at most one length |
| `SignatureQuorum.OneSignerReadsAsTwo` | bridge/validator_network.go:646-660 | for any two addresses in order and any two signatures, one signer's bytes read as those two signers' |
| `SignatureQuorum.SwappedVotesCollect` | bridge/validator_network.go:434-503 | four accepted votes collect, for two hashes of one message, the two sets that share their digest input |
| `SignatureQuorum.RunsToldApartIff` | bridge/validator_network.go:434-660 | over every run, digests tell all collected signature sets apart if and only if the verifier passes at most one length |
| `SignatureQuorum.BestIsUnique` | bridge/validator_network.go:608-634 | the hash chosen for aggregation is unique |
| `SignatureQuorum.SelectBest` | bridge/validator_network.go:611-634 | picks the most-signed hash with a quorum, the first in byte order among equals, or none exactly when there is none |
| `SignatureQuorum.Aggregate` | bridge/validator_network.go:646-660 | hashes the contributions in address order |
| `SignatureQuorum.SignatureAggregator.AddSignature` | bridge/validator_network.go:434-503 | the state after an offer, and acceptance exactly for a known, verified, uncapped, new signature |
| `SignatureQuorum.SignatureAggregator.ClearMessage` | bridge/validator_network.go:662-671 | forgets one message in both maps |
| `SignatureQuorum.SignatureAggregator.HasQuorum` | bridge/validator_network.go:546-555 | true exactly when some inner map reaches the threshold |
| `SignatureQuorum.SignatureAggregator.HasQuorumForHash` | bridge/validator_network.go:572-581 | true exactly when that hash reaches the threshold |
| `SignatureQuorum.SignatureAggregator.GetSignatureCount` | bridge/validator_network.go:529-539 | the largest count over the hashes of the message |
| `SignatureQuorum.SignatureAggregator.GetAggregatedSignature` | bridge/validator_network.go:608-634 | succeeds exactly with a quorum, and aggregates the best hash |
| `SignatureQuorum.SignatureAggregator.GetAggregatedSignatureForHash` | bridge/validator_network.go:589-598 | succeeds exactly with a quorum for that hash, and aggregates only its signatures |
| `MessageStore.PrefixTellsStatus` | bridge/message_store.go:477-479 | a status prefix matches exactly that status's keys, whatever bytes the id holds |
| `MessageStore.ExtractUndoesKey` | bridge/message_store.go:484-490 | the id is recovered from its key |
| `MessageStore.RunIsConsistent` | bridge/message_store.go:147-380 | after any saves and updates, status\|id is in the index exactly when the stored message has that status |
| `MessageStore.PrefixBlock` | bridge/message_store.go:266-270 | in the ordered bucket the keys of one status are one block from the seek position on |
| `MessageStore.ScanIsComplete` | bridge/message_store.go:246-310 | a scan returns only stored messages with the status, each once, and all of them if and only if at most 100000 have the status |
| `StoredMessages.RunStoresLatest` | bridge/message_store.go:147-380 | after any calls the store holds under each id exactly the message last saved there, its status moved on by the updates that matched |
| `StoredMessages.LatestIsLastSaved` | bridge/message_store.go:147-198 | its content is that of the last save, whatever was updated since |
| `StoredMessages.LoadReturnsCurrent` | bridge/message_store.go:246-310 | a load by status returns only messages current with it, contents included, each once, and all of them exactly up to 100000 |
| `StoredMessages.StatusesSpelled` | bridge/bridge.go:155-163 | the texts the index keys are made of |
| `MessageStore.BoltMessageStore.SaveMessage` | bridge/message_store.go:147-198 | the store after a save, and the error for nil messages and empty ids |
| `MessageStore.BoltMessageStore.UpdateMessageStatus` | bridge/message_store.go:325-380 | the store after a compare-and-set of the status, and its three errors |
| `MessageStore.BoltMessageStore.RemoveStatusIndex` | bridge/message_store.go:499-515 | all five index keys of the id are gone, no other |
| `MessageStore.BoltMessageStore.LoadMessagesByStatus` | bridge/message_store.go:246-310 | the cursor scan returns the messages of the status in id order, up to 100000 |
| `HighWaterMarks.SplitIsExact` | bridge/message_store.go:438-445 | splitting finds exactly the reading of a key with a separator-free chain, or none |
| `HighWaterMarks.SplitUndoesJoinIff` | bridge/message_store.go:397-445 | a joined key splits into itself if and only if its chain has no separator |
| `HighWaterMarks.SaveStores` | bridge/message_store.go:393-407 | a save stores the mark under its key and nothing else, and nothing at all for an empty chain or address |
| `HighWaterMarks.KeysMeetIff` | bridge/message_store.go:397 | two different keys share their bytes if and only if one is the other with part of the address moved into the chain |
| `HighWaterMarks.MarksToldApartIff` | bridge/message_store.go:393-407 | a set of chain names, with any addresses, has no such pair if and only if no name is another continued by a separator |
| `HighWaterMarks.ReadIsExact` | bridge/message_store.go:425-447 | what a load gives under each key, for any bucket, malformed entries included |
| `HighWaterMarks.SavedMarkReturnsIff` | bridge/message_store.go:393-454 | a saved mark comes back under its key if and only if the chain has no separator and the load gets that far |
| `HighWaterMarks.MarkIsOverwritten` | bridge/message_store.go:393-454 | of two keys that meet, the separator-free one comes back with the other's mark |
| `HighWaterMarks.RunLoadsBackIff` | bridge/message_store.go:393-454 | after any saves a load gives exactly the last mark of each key if and only if no saved chain has a separator and the limit holds |
| `HighWaterMarks.HighWaterBucket.SaveHighestUsedNonce` | bridge/message_store.go:393-407 | the bucket after a save, and the error for empty chains or addresses |
| `HighWaterMarks.HighWaterBucket.LoadAllHighestUsedNonces` | bridge/message_store.go:414-454 | the cursor loop reads the first 100000 entries in key order |
| `ByteOrder.PrefixIsContiguous` | bridge/message_store.go:266-270 | byte strings with a common prefix lie together in byte order |
| `ByteOrder.LessIff` | bridge/validator_network.go:652-654 | smaller at the first difference, or a proper prefix |
| `ByteOrder.ListingIsUnique` | bridge/validator_network.go:652-654 | a set has one ascending listing, whatever order it was collected in |

## Left out

- HTTP, JSON-RPC, file writes, bbolt internals and JSON coding: I/O and library code; a bucket is a set or map with ordered keys, a transaction is all or nothing.
- Dilithium3, SHA3, SHA-256 and signature checks: parameters or answers that come in with an operation.
- ABI type strings, JSON descriptions and reflection: one datatype of types and one of values instead; the Go-type variants `toSlice` and `packNum` accept are not told apart; fixed bytes given as `[32]byte` and addresses given as hex text are.
- Insertion times of nonces: read only when nonceTTL is positive, and it is the constant 0; the checkpoint's unix times go with them.
- Persistent-store mode of the replay table and the store-failure branch of SubmitMessage: the bootstrap counts without a membership check, and the failed write is rolled back only in part, as its comment says.
- Verification, quorum and retry scheduling of ProcessMessage and processPendingBatch: only the step that marks a message EXECUTED touches the modelled state.
- The second half of evictOldMessages, after the finalized-id trim: another cap over the same maps.
- AssetLocks.LockAsset: lock records are values replaced in the map, so a caller that keeps a pointer to a lock and changes it is not modelled; nor are random id generation, Stop and the watcher goroutines.
- AssetLocks.MintedHint: a failure reason is its origin with the quoted error, not its text; durations and dates are taken not to contain the word Minted.
- Operator lists and their administration: single-branch checks, an answer that comes in with the operation.
- LockOrder.Step: tracing is on from the start and never switched, goroutine ids come with each step, and a fired check ends the run.
- EventScanner.Step: what a height holds does not change between reads, and heights stay below the largest uint64, at which the height loop would not end.
- SignatureQuorum.Add: without a validator set the source stores signatures unverified; that mode is not modelled, and the message cap does not change during a run.
- HighWaterMarks.Read: the absent bucket of a file opened without NewBoltMessageStore is not modelled; the constructor creates it.
- MessageStore.Save: statuses are the five constants; the source would also store any other text.
- Validator stake totals, relayer backoff, rate limits, metrics, logging, keystore and compliance code: easy members or plumbing.
- The consensus packages: they rest on types outside the modelled files.
