# Verification of the capsule pipeline

A capsule is a byte stream that its owner leaves with guardians. The owner cuts the stream
into 1 MiB blocks, seals each block under a key of its own, erasure-codes it into 54 shards
of which any 32 suffice, and sends every shard to the guardian a rendezvous hash picks. A
manifest and shares of the master key follow. After the owner is gone, some of the
guardians put the stream together again.

This project models that pipeline in Dafny and proves, among others:

- **Recovery.** After any successful run, any distinct participants with threshold key
  shares recover exactly the owner's stream if and only if they hold 32 shards of every
  listed block, the owner's last Close did not fail and no write was left behind a failed
  one (`Recoverability.EndToEndRecovery`). The same holds from what the receivers stored:
  records and bytes, read back in any order (`StoreRecovery.StoresRecover`).
- **Receiving.** Whatever comes in and whatever fails, a receiver's run succeeds if and only
  if its messages start with at most 1000 proper shards that fit, the last of them and no
  other final, the capsule's manifest and a key share of the announced size, and no step
  before the last update fails. Succeeding or not, it leaves the entries of all other
  capsules as they were (`Receiver.DoneExactly`, `Receiver.RunFrame`; both in the contract
  of `Receiver.ReceiveCapsuleStream`).
- **Agreement.** With no receiving fault, a guardian's receiver completes if and only if it
  got exactly one final-marked shard, at most 1000 shards, and all of them fit the announced
  size. Then its stores hold the record of every shard under its id, the shard's bytes under
  their hash, the manifest, the key share and the capsule's record with its owner and the
  guardians announced, and all entries under other ids are as before (`Agreement.AgreementExactly`; of the method itself, `Agreement.ReceiveAsGuardian`). All
  guardians complete if and only if there are 54 of them, each with one shard, and the
  stream has 1 to 621320 bytes (`Consequences.EveryoneDoneExactly`).
- **Store safety.** A key share implies a manifest, a manifest implies a shard record, and
  every record names a hash bound to bytes with that hash. Over every interleaving of every
  number of receive runs, with a fault at any step, this holds throughout if and only if no
  record write takes the last record away from another capsule's manifest and no manifest
  is written for a capsule without a record (`StoreSafety.SafeExactly`). It does hold
  throughout when every shard id belongs to one capsule (`StoreSafety.AlwaysSafe`), and the
  owner's runs give out such ids (`StoreSafety.SafeWithOneSource`).
- **Key recovery.** After a successful run the shares of some active guardians combine to
  the master key if and only if as many guardians as the threshold are active; so it is
  after every run of a setup if and only if the threshold is at most the minimal number of
  guardians (`Consequences.KeyRecoverableExactly`,
  `Consequences.KeyAlwaysRecoverableExactly`).
- **Never wrong data.** Whatever shards of one block are offered, repeats included,
  reconstruction writes the block or nothing (`Erasure.NeverWrongData`).

## How it is built

One module a file. `Basics` holds byte strings and counting. `Erasure` and `ChecksumCode`
are the erasure layer and a concrete code that meets its assumption. `Chunking` says what
the blocks of a stream are and what one call of either buffering writer does to "blocks
out, bytes pending"; `BlockWriter` is the fixed-buffer writer. `Placement` is the choice of
guardian. `Capsule` holds messages, the network and the abstract cipher, hash and key
sharing; `Witness` shows that all that is assumed of them can hold at once. `BlockSink` is
the block encoder with its manifest invariant, `Distribution` the owner's run, `Receiver`
the guardian's run, `StoreSafety` the guardian's stores over many runs, `Stored` what they
hold after one, `Runs` which successful runs there are, `Agreement` owner and guardian
together, `Recovery` the recovery procedure, `Recoverability` what it gives back and
`StoreRecovery` the same from the stores. `Consequences` draws conclusions for
whole capsules. `Framing`, `ContentStore` and `Threshold` are the wire format, the object
store and the request rules.

Every method that changes state is proved against a specification: a function of the old
state (`Shards`, `Reconstructed`, `Kept`, `Drive`, `Recovered`, `ParseFrame`, `Lookup`) or
a step relation (`WriterStep`, `EncoderStep`). The lemmas are about those.

What may fail does so at any time: `Network.Send`, the source of nonces, the flush
callback, every store call. A failed `Send` may or may not have reached the peer. Ghost
records of the failures make success exact: a call succeeds if and only if nothing failed
inside it, so a method that gives up early does not meet its contract.

The functions that methods are proved against are themselves pinned by what the source
promises of them, said without naming them: the layout of shards, frames, keys and paths,
the key preimage, the announcement, the default threshold, the errors and when each of them
comes.

### What is assumed

`Erasure.ValidCode`: the parity rows have the size of the data rows, and any k rows of a
codeword, the others empty, are filled up to that codeword. `Capsule.ValidEnv`: SHA-256
sums have 32 bytes; AES-GCM decryption inverts encryption and the sealed text is 16 bytes
longer (NIST SP 800-38D, section 5.2.1.2). `Capsule.ValidSharing`: shares are one byte
longer than the secret, and distinct ones combine to it if they are a threshold of them and
only then. The last part idealises Shamir's scheme, in which fewer shares give the secret
with a negligible chance. `Framing.Inverts`: decoding
inverts and uses up encoding. `Framing.Streams`: bytes behind what is decoded do not change
the result. The placement hash and SHA-256 are arbitrary functions;
no hash is assumed injective, except in `StoreRecovery`, on the shards of the one run.

### Where the intent is modelled instead of the line

- `internal/features/capsule/blocksinker.go:53` keeps the processed block and drops the
  rest. `BlockSinkEncoder.FirstBlock` drops the processed block. As the line is written and
  nothing fails, a Write leaves its loop if and only if buffer and data together are shorter
  than a block, and then it has done what is intended (`Chunking.WriteAsWrittenExactly`); a
  whole stream ends if and only if it is shorter than a block, and then its blocks are the
  intended ones (`Chunking.StreamAsWrittenExactly`). Otherwise the loop repeats the first
  block forever (`Chunking.AsWrittenNeverDrains`). All streams that every guardian can
  complete are short enough (`Consequences.EveryoneCompletesAsWritten`).
- `internal/features/capsule/store_object.go:116` writes to the bare filename.
  `ObjectStore.SaveCAS` writes where `GetCAS` reads. What the line does is
  `ContentStore.SaveAsWrittenSeenExactly` and `ContentStore.SaveAsWrittenCollides`: a save
  is read back only by a process that works in the very directory of the object, and two
  hashes share a file exactly when their last two bytes agree.
- `internal/features/capsule/blocksinker.go:106` reuses one message object for all sends;
  here each `Send` takes its fields as they are at the call.

### What the code turned out to do

- The archiver defers `Close` and drops its error, and with it that of its last writes
  (`internal/archive/archive.go:66-115`). A run can report success with bytes unsent, even
  all of them (`Runs.CreatedThoughUnsent`). Nothing stays unsent if and only if the dropped
  Close did not fail and nothing was left to write behind a failed Write
  (`Distribution.UnsentExactly`). Once enough guardians were reached, a run is created with
  nothing failed in it if and only if no call failed after the announcement, in which Sends
  may fail (`Distribution.CreateAndSendCapsule`).
- A failed `blockSinkEncoder.Write` reports 0 bytes but has kept them all. A caller that
  retries, as `io.Writer` suggests, repeats its data once for every attempt
  (`Chunking.EncoderRetryRepeats`): they are in the stream once if and only if the first
  attempt worked or there are none (`Chunking.EncoderRetryExactly`; a retried block goes out
  twice, `Chunking.RetriedTwice`). `blockWriter` has no such effect
  (`Chunking.RetryIsExact`).
- Every shard of the last block is marked final, and the receiver stops at the first. A
  guardian with two of them, or none, cannot complete (`Agreement.AgreementExactly`).
- The announced shard size, 19418, is smaller than the shards of a full block, 32770
  (`Erasure.ExactShardSize`).
- A shard id used by two capsules takes the first one's record away. In
  `StoreSafety.ReusedShardIDBreaksSafety` the stores are unsafe after a manifest write, with
  no record write that orphaned anything before it; in `StoreSafety.ReusedShardIDOrphans`
  after a record write. Both are executions from empty stores without a fault.
- The key is split among all guardians but only active ones get shares. For every setup
  with a threshold above the minimal number of guardians there is a run, without any
  failure after the announcement, in which no guardians' shares combine to the key
  (`Consequences.KeyOutOfReach`).
- A frame whose payload does not use up its declared size is read, but what is left of the
  stream then depends on the pieces the decoder got: `Witness.LooseFrame` is a frame of
  which either 2 bytes are left or none.

## Model

| member | source | states |
|---|---|---|
| Erasure.Erasure | internal/dataredundancy/data_redundancy.go:56-78 | the in-place tagging loop turns the codeword of header and data into exactly the shards of the specification |
| Erasure.ShardShape | internal/dataredundancy/data_redundancy.go:56-78 | k+m shards of one common length, the i-th with index byte i |
| Erasure.FramedLayout | internal/dataredundancy/data_redundancy.go:57-59 | 8 bytes that tell the length, then the data |
| Erasure.DataShards | internal/dataredundancy/data_redundancy.go:56-78 | behind their index bytes the first k shards are header and data in order, padded with zeros |
| Erasure.ShardLenBound | internal/dataredundancy/data_redundancy.go:61-64 | k rows always have room for the 8 header bytes and the data |
| Erasure.Reconstruct | internal/dataredundancy/data_redundancy.go:81-169 | for every array of any entries the outcome, error or data, of the specification; no assumption on the shards |
| Erasure.FirstErrors | internal/dataredundancy/data_redundancy.go:87-127 | exactly when the number of entries, an index byte or the number of entries present is refused, in this order |
| Erasure.SlotsHoldLast | internal/dataredundancy/data_redundancy.go:97-119 | each slot holds what the last entry with its index has behind it, and nothing if there is none |
| Erasure.UnframeInverts | internal/dataredundancy/data_redundancy.go:148-163 | the slices at the length header are in bounds and cut out exactly the data, padding dropped |
| Erasure.UnframeExactly | internal/dataredundancy/data_redundancy.go:159-161 | for any header: the announced length is cut out if it is there, otherwise the slice is out of range |
| Erasure.AvailableCountsRepeats | internal/dataredundancy/data_redundancy.go:118-127 | the count before the check is at least, not exactly, the number of distinct indices |
| Erasure.NeverWrongData | internal/dataredundancy/data_redundancy.go:97-135 | from shards of one call, repeats allowed: the data if and only if k distinct indices are there, otherwise an error, which one is told, and nothing written |
| Erasure.ErasureRoundTrip | internal/dataredundancy/data_redundancy.go:56-169 | the shards in any order with at most m slots emptied give back exactly the data, for all k, m and data |
| Erasure.CorruptionDetected | internal/dataredundancy/data_redundancy.go:129-161 | with k genuine rows among arbitrary others, the data or an error; never other data and never a slice out of range |
| Erasure.CodewordUnique | internal/dataredundancy/data_redundancy.go:137-146 | two codewords that agree on k positions have the same data rows |
| Erasure.ExactShardSize | internal/features/capsule/service.go:52-56 | 1 + ceil((L+24)/32) bytes a shard, at most 32770, within the announced 19418 if and only if L is at most 621320 |
| ChecksumCode.ChecksumIsValid | internal/dataredundancy/data_redundancy.go:39-53 | a concrete code with one parity row meets the contract assumed of the coder, for every k up to 255 |
| Witness.AssumptionsHold | internal/customcrypto/cipher.go:46-75 | cipher, hash, coder and key sharing with all assumed properties exist together |
| Witness.SerializerHolds | internal/protocol/protocol.go:216-229 | a serializer with the properties assumed of the frames' one exists |
| Witness.LooseFrame | internal/protocol/protocol.go:216-219 | a frame that declares 3 bytes and decodes from 1, behind which the decoder may stop after 1 byte or after 3 |
| Chunking.CutPartition | internal/features/capsule/blocksinker.go:45-69 | the blocks put together are the stream; all but the last are full; the last is short if and only if the size does not divide the length |
| Chunking.BlocksUnique | internal/features/capsule/blocksinker.go:45-69 | full blocks and a shorter rest come from one stream in only one way |
| Chunking.LossFree | internal/features/capsule/blocksinker.go:238-269 | over any calls with any failures, blocks out followed by bytes pending are exactly the accepted prefixes, in order |
| Chunking.RetryIsExact | internal/features/capsule/blocksinker.go:238-258 | retrying with p[n:] until it succeeds adds the data once, losing and repeating nothing |
| Chunking.EncoderRetryRepeats | internal/features/capsule/blocksinker.go:45-57 | the encoder reports 0 on failure yet keeps the data, so retrying adds it once per attempt |
| Chunking.EncoderRetryExactly | internal/features/capsule/blocksinker.go:45-57 | retried data are in the stream exactly once if and only if there was one attempt or there are no data |
| Chunking.RetriedTwice | internal/features/capsule/blocksinker.go:45-57 | a Write of one block that fails once and is retried puts the block out twice |
| Chunking.ChunkingInvariant | internal/features/capsule/blocksinker.go:45-69 | without failures the blocks depend on the concatenated input only, for either writer |
| Chunking.WritersAgree | internal/features/capsule/blocksinker.go:231-269 | the append-and-slice encoder and the fixed-buffer writer emit the same blocks for the same input, however it is split into calls |
| Chunking.AsWrittenNeverDrains | internal/features/capsule/blocksinker.go:48-54 | as line 53 is written, t turns emit the first block t times and the loop guard still holds |
| Chunking.IntendedIsStep | internal/features/capsule/blocksinker.go:45-57 | putting out the full blocks of buffer and data and keeping the rest is a successful Write as intended |
| Chunking.StepIsIntended | internal/features/capsule/blocksinker.go:45-57 | a successful Write as intended has exactly one result: the full blocks of buffer and data out, the rest pending |
| Chunking.WriteAsWrittenExactly | internal/features/capsule/blocksinker.go:45-57 | with nothing failing, Write as written leaves its loop if and only if buffer and data are shorter than a block, and then with the intended result |
| Chunking.StreamAsWrittenExactly | internal/features/capsule/blocksinker.go:45-69 | with nothing failing, the encoder as written gets through a stream, however split into calls, if and only if it is shorter than a block, and then emits its blocks |
| BlockWriter.BlockWriter.constructor | internal/features/capsule/blocksinker.go:231-236 | an empty buffer of the given size |
| BlockWriter.BlockWriter.Write | internal/features/capsule/blocksinker.go:238-258 | terminates for every positive size; takes in exactly p[..n], emits only full blocks, fails only if a flush failed and then with a full buffer |
| BlockWriter.BlockWriter.Close | internal/features/capsule/blocksinker.go:260-269 | flushes the pending bytes as one block and empties the buffer, or keeps them if the flush fails |
| Placement.PickRemotePeer | internal/features/capsule/blocksinker.go:271-286 | the loop returns the specified choice, nil exactly for no peers |
| Placement.PickIsFirstMax | internal/features/capsule/blocksinker.go:275-283 | that choice is the first peer of maximal score |
| Placement.RemovalMovesOnlyItsShards | internal/features/capsule/blocksinker.go:271-286 | removing a peer leaves every shard that was not on it where it is, for every score function |
| Placement.AppendMovesOnlyOntoNewcomer | internal/features/capsule/blocksinker.go:271-286 | a shard that moves when a peer is appended moves onto that peer |
| Placement.OrderIrrelevant | internal/features/capsule/blocksinker.go:271-286 | with distinct scores two lists of the same peers give the same choice |
| Placement.LoadsSumToShards | internal/features/capsule/blocksinker.go:116-157 | over distinct guardians a block's loads sum to its number of shards |
| Placement.SurvivesExactly | internal/features/capsule/blocksinker.go:116-157 | a block reconstructs without a set of guardians if and only if they hold at most m of its shards |
| Placement.BurdensSum | internal/features/capsule/blocksinker.go:116-157 | over all guardians the burdens sum to all shards of all blocks |
| Placement.CapacityExceeded | internal/features/capsule/service.go:458-477 | if the shards of all blocks are more than 1000 per guardian, some guardian is past the receive limit, for every hash |
| Capsule.KeyPreimageIs | internal/features/capsule/blocksinker.go:209-220 | the preimage is the master key followed by 8 bytes that tell the block id modulo 2^64 |
| Capsule.PreimageUnique | internal/features/capsule/blocksinker.go:209-220 | there is only one such preimage |
| Capsule.KeyPreimagesDistinct | internal/features/capsule/blocksinker.go:203-223 | for all master keys and block ids: the preimages are the same if and only if the master keys are and the ids agree modulo 2^64 |
| Capsule.Network.Send | internal/transport/remote_peer_conn.go:107-137 | refuses data over 256 KiB; on success message and data are appended to what went out; on failure at most that |
| Capsule.IdSource.New | internal/features/capsule/blocksinker.go:104-119 | an id never drawn before |
| BlockSink.DeriveBlockKey | internal/features/capsule/blocksinker.go:203-223 | the caller's array holds the hash of some bytes that are the master key followed by 8 bytes that tell the block id |
| BlockSink.BlockSinkEncoder.constructor | internal/features/capsule/blocksinker.go:33-43 | block id 1 and an empty manifest, which meets the manifest invariant |
| BlockSink.BlockSinkEncoder.ProcessBlock | internal/features/capsule/blocksinker.go:75-169 | keeps the manifest invariant, whatever fails; lists the block if and only if nothing failed |
| BlockSink.BlockSinkEncoder.SealAndCode | internal/features/capsule/blocksinker.go:76-102 | the shards are the erasure code of the block sealed under its own key |
| BlockSink.BlockSinkEncoder.SendShard | internal/features/capsule/blocksinker.go:116-157 | one shard under an id of its own goes to the peer picked for it |
| BlockSink.BlockSinkEncoder.SendShards | internal/features/capsule/blocksinker.go:104-157 | the shards went, in order, each to its picked peer and under a new id: all of them if and only if no Send failed, otherwise the first ones |
| BlockSink.BlockSinkEncoder.Enlist | internal/features/capsule/blocksinker.go:159-168 | adding the entry and moving on restores totalBlocks = number of entries = blockID - 1 |
| BlockSink.BlockSinkEncoder.Drain | internal/features/capsule/blocksinker.go:48-54 | full blocks leave the buffer and the stream is unchanged; less than one block is left if and only if nothing failed |
| BlockSink.BlockSinkEncoder.Write | internal/features/capsule/blocksinker.go:45-57 | takes in all of the data also when it fails; emits only full blocks, none marked final |
| BlockSink.BlockSinkEncoder.Close | internal/features/capsule/blocksinker.go:59-69 | emits the pending bytes as one final-marked block, or keeps them |
| BlockSink.FreshTraffic | internal/features/capsule/blocksinker.go:104-157 | shards under a new group leave all listed groups as they were, so a block that failed half-way does not harm the manifest |
| BlockSink.FreshIdsKnown | internal/features/capsule/blocksinker.go:104-119 | shards under newly drawn ids keep all shard ids on the wire distinct |
| BlockSink.DescribesAt | internal/features/capsule/blocksinker.go:159-168 | entry j of the manifest is for block j + 1, which became valid shards under its own key |
| BlockSink.CountsNamed | internal/features/capsule/blocksinker.go:106-113 | each listed entry and each shard sent for it name k data and m parity shards, in that order |
| Distribution.Announce | internal/features/capsule/service.go:243-288 | for every pattern of failing Sends the in-place loop leaves exactly the order-preserving filter of the guardians that were reached without error |
| Distribution.KeptDistinct | internal/features/capsule/service.go:243-288 | the filter keeps distinct guardians distinct and adds none |
| Distribution.KeptExactly | internal/features/capsule/service.go:243-288 | as many are kept as Sends succeeded, and each at the place it has among those |
| Distribution.AnnouncementTells | internal/features/capsule/service.go:192-239 | the announcement lists the ids of all guardians of the request in their order, and tells capsule id, grace period, a shard size of 19418 and the key shares' size |
| Distribution.ClosingTells | internal/features/capsule/service.go:324-355 | the manifest message tells the number of blocks and lists them; the key share message tells number of shares and threshold, in that order |
| Distribution.SendManifest | internal/features/capsule/service.go:324-344 | the manifest went to the active guardians in order, to all of them if and only if no Send failed, otherwise to the first ones |
| Distribution.SendShares | internal/features/capsule/service.go:346-379 | the active guardians got their shares in order, guardian i share i; all of them if and only if no Send failed, otherwise the first ones |
| Distribution.WriteChunk | internal/archive/archive.go:66-115 | one more write of a clean stream: its bytes are in, and the stream stays clean if and only if nothing failed |
| Distribution.WriteChunks | internal/archive/archive.go:66-115 | blocks out, bytes pending and the chunks behind the failed one together are the stream; the failure is reported unless it comes among the last, deferred writes |
| Distribution.ArchiveStream | internal/archive/archive.go:66-115 | listed blocks, bytes left by the last Close and chunks behind a failed write are the stream; success is reported exactly without an error of the archiver's own and of its earlier writes; with no failure the blocks are the stream's cut and only a shorter last one is final |
| Distribution.UnsentExactly | internal/archive/archive.go:66-115 | bytes stay unsent if and only if the dropped Close failed or there was something left to write behind a failed Write |
| Distribution.SendCapsule | internal/features/capsule/service.go:291-379 | what went out is announcement, blocks, manifest and shares, in that order, or a prefix of it that fits the error; clean and complete if and only if nothing failed |
| Distribution.CreateAndSendCapsule | internal/features/capsule/service.go:192-393 | each outcome exactly: split refused and nothing sent, too few guardians reached and only announced, or else a run whose whole traffic is described up to where an error broke it off, created and clean if and only if nothing failed after the announcement; shard ids on the wire stay distinct |
| Runs.RunExists | internal/features/capsule/service.go:192-393 | every list of guardians, pattern of answers, plain texts and end of the writes that fit together belong to a successful run |
| Runs.CleanRunExists | internal/features/capsule/service.go:192-393 | for every stream and every number of active guardians from the minimum on there is a run in which nothing fails |
| Runs.CreatedThoughUnsent | internal/features/capsule/service.go:312-393 | a stream shorter than a block is written without failure, the dropped Close fails, and the successful run has sent none of it |
| Recovery.CollectShards | internal/features/capsule/service_test.go:350-376 | the map holds, for each repair group, the shards of the participants in the order collected, and the group's nonce |
| Recovery.ReconstructBlock | internal/features/capsule/service_test.go:412-452 | the sealed block if the group has at least k shards and they reconstruct, otherwise failure |
| Recovery.Recover | internal/features/capsule/service_test.go:346-512 | the four loops together compute the recovered stream of the specification, or its failure, for any stores |
| Recovery.RecoveredExactly | internal/features/capsule/service_test.go:346-512 | for any stores: bytes are recovered if and only if they are the blocks of the first manifest, each reconstructed from its group, opened with the hash of the combined key and its number, and put together |
| Recoverability.CollectedGroup | internal/features/capsule/service_test.go:357-376 | the shards collected for a group are what the participants got of that group |
| Recoverability.GatheredCarries | internal/features/capsule/service_test.go:431-438 | distinct participants together hold each of their shards once |
| Recoverability.BlockRecovered | internal/features/capsule/service_test.go:412-452 | what the participants got of one block gives its sealed bytes if and only if they hold k of its shards |
| Recoverability.OpenedExactly | internal/features/capsule/service_test.go:485-502 | opening block i with key i + 1 and its group's nonce gives all plaintext blocks in manifest order |
| Recoverability.SharesCombine | internal/features/capsule/service_test.go:461-475 | participants combine their shares to the master key if and only if they are a threshold of them |
| Recoverability.RecoveryGivesWhatWasSent | internal/features/capsule/service_test.go:346-512 | after any successful run, with threshold participants, recovery gives exactly the blocks sent if every block is covered, and fails otherwise |
| Recoverability.EndToEndRecovery | internal/features/capsule/service_test.go:346-512 | the owner's stream is recovered if and only if every listed block is covered, the last Close did not fail and nothing was left behind a failed write; without failures the covering alone decides |
| StoreRecovery.StoredShards | internal/features/capsule/service.go:534-572 | the shards read back from a store, in any order, are the ones received, but for their final marks, which are not recorded |
| StoreRecovery.GuardianBringsAlong | internal/features/capsule/service.go:534-698 | a receiver that is done gives back its shards, the manifest and its own key share |
| StoreRecovery.StoresRecover | internal/features/capsule/service_test.go:346-512 | after a run in which nothing failed, threshold participants whose receivers are done recover exactly the stream from their stores if they cover every block, and nothing otherwise |
| Receiver.DoneExactly | internal/features/capsule/service.go:461-711 | for every sequence of messages and every fault script: a run succeeds if and only if the messages start with 1 to 1000 acceptable shards, manifest and share, and nothing fails before the last update |
| Receiver.StepFrame | internal/features/capsule/service.go:426-711 | any step, failing or not, leaves the records, manifests and key shares of all other capsules as they were |
| Receiver.RunFrame | internal/features/capsule/service.go:426-711 | so does every whole run |
| Receiver.StartedNames | internal/features/capsule/service.go:426-438 | from the first update on the capsule's record names the sender as owner and the guardians announced |
| Receiver.ReceiveCapsuleStream | internal/features/capsule/service.go:396-712 | stores, connection and result are those of the phase automaton under the same faults; it succeeds exactly for acceptable messages and no fault, leaves other capsules alone and names owner and guardians |
| Receiver.ReceiveShards | internal/features/capsule/service.go:453-603 | the shard loop runs the automaton up to the completion mark or a failure |
| Receiver.TakeShard | internal/features/capsule/service.go:462-529 | takes the next message off the connection exactly when the automaton accepts it, within the limit of 1000 |
| Receiver.StoreShard | internal/features/capsule/service.go:534-572 | bytes first, then the record; a failure leaves what was stored before it |
| Receiver.MarkComplete | internal/features/capsule/service.go:574-600 | the completion mark after the final shard |
| Receiver.ReceiveManifestAndShare | internal/features/capsule/service.go:605-646 | the manifest phase of the automaton, then the share phase |
| Receiver.ReceiveShare | internal/features/capsule/service.go:648-711 | the share phase; an error of the last update is dropped |
| StoreSafety.RecordWriteExactly | internal/features/capsule/service.go:546-572 | from safe stores, writing a shard record keeps them safe if and only if it does not take away the only record of another capsule that has a manifest |
| StoreSafety.ManifestWriteExactly | internal/features/capsule/service.go:633-646 | from safe stores, writing a manifest keeps them safe if and only if the capsule has a shard record |
| StoreSafety.StepSafeExactly | internal/features/capsule/service.go:426-711 | from safe stores, any step of any run keeps them safe if and only if it is neither a record write that orphans a manifest nor a manifest write without a record |
| StoreSafety.NextKeeps | internal/features/capsule/service.go:426-711 | one step of any run, failing or not, or a new run, keeps what the runs rely on, whatever ids they use |
| StoreSafety.SafeExactly | internal/features/capsule/service.go:426-711 | the stores are safe throughout an execution, of any runs with any ids, if and only if none of its steps is of those two kinds |
| StoreSafety.ReusedShardIDBreaksSafety | internal/features/capsule/service.go:557-561 | an execution from empty stores without faults or orphaning writes whose last step, a manifest write, leaves unsafe stores |
| StoreSafety.ReusedShardIDOrphans | internal/features/capsule/service.go:557-561 | an execution from empty stores without faults whose last step, a record write, orphans a manifest |
| StoreSafety.AlwaysSafe | internal/features/capsule/service.go:426-711 | if every shard id belongs to one capsule: at every moment of every execution share implies manifest, manifest implies a shard record, every record's hash is bound to bytes with that hash |
| StoreSafety.SafeWithOneSource | internal/features/capsule/service.go:426-711 | runs on traffic with distinct shard ids, as the owner's runs leave it, keep the stores safe |
| Agreement.DriveWithoutFaults | internal/features/capsule/service.go:396-712 | the fault-free run used for agreement is the automaton under any script without faults |
| Agreement.ShardLoop | internal/features/capsule/service.go:461-711 | given shards, manifest and share, a run is done with everything stored if and only if the last shard alone is final, the limit holds and all shards fit |
| Agreement.FlagsOfCut | internal/features/capsule/blocksinker.go:45-69 | a final-marked block exists if and only if the stream length is not a multiple of 2^20, and it is the last |
| Agreement.GuardianInbox | internal/features/capsule/service.go:243-379 | an active guardian gets the announcement, its shards, the manifest and its share, in that order and nothing else |
| Agreement.CountSeen | internal/features/capsule/blocksinker.go:116-157 | a guardian gets exactly as many shards as the placement gives it over all blocks |
| Agreement.Projection | internal/features/capsule/service.go:493-529 | all of them pass the receiver's checks, and fit its buffer if and only if the shards of their blocks do |
| Stored.SavedShards | internal/features/capsule/service.go:534-572 | shards with ids of their own are all stored, record and bytes, none overwritten by another |
| Stored.SaveShardsFrame | internal/features/capsule/service.go:534-572 | storing shards changes no record under another id, unbinds no hash, and leaves capsules, manifests and shares alone |
| Stored.SavedBytes | internal/features/capsule/service.go:534-544 | if different data have different hashes, the bytes of every shard can be read back under its hash |
| Stored.SavedAll | internal/features/capsule/service.go:534-709 | after a whole transfer the stores hold every shard, the manifest, the key share and the capsule's record with owner and guardians, and all under other ids is as before |
| Agreement.AgreementExactly | internal/features/capsule/service.go:461-698 | the receiver completes, with all messages taken in, if and only if it got one final-marked shard, at most 1000 shards, all within the announced size; then shards, manifest, key share and the record with owner and the request's guardians are in its stores and nothing under other ids has changed |
| Agreement.ReceiveAsGuardian | internal/features/capsule/service.go:396-712 | the same of the receiving method, called with what the sender put on the guardian's connection |
| Consequences.EveryoneCompletesExactly | internal/features/capsule/service.go:458-600 | the completion condition holds for all guardians if and only if there are 54, each with one shard, and 1 to 621320 bytes |
| Consequences.EveryoneDoneExactly | internal/features/capsule/service.go:396-712 | so it is for the receivers' runs themselves, on every run in which nothing failed: all of them end in success exactly then, whatever their stores held |
| Consequences.TooManyBlocks | internal/features/capsule/service.go:458-477 | beyond 1000 shards per guardian on average some guardian's part is not completable |
| Consequences.SomeoneFails | internal/features/capsule/service.go:458-477 | then, on a run in which nothing failed, the receiver of some guardian ends in failure |
| Consequences.EveryoneCompletesAsWritten | internal/features/capsule/blocksinker.go:45-69 | a stream that all guardians can complete gets through the encoder as written, with the same blocks |
| Consequences.ListedSentInFull | internal/features/capsule/blocksinker.go:104-168 | under every listed group, in every reachable state, exactly the deliveries of the valid block of that number went out |
| Consequences.BlockSentInFull | internal/features/capsule/blocksinker.go:97-157 | those are all k + m shards, the i-th with index byte i before its codeword row, each to its picked peer |
| Consequences.ListedKey | internal/features/capsule/blocksinker.go:75-102 | a listed block is sealed under the hash of the master key followed by its number, counted from 1 |
| Consequences.ListedKeysDiffer | internal/features/capsule/blocksinker.go:203-223 | two listed blocks, of one capsule or of two with different master keys, are sealed under the hash of the same bytes only if they are the same block of the same key |
| Consequences.SurvivesLossExactly | internal/features/capsule/blocksinker.go:116-157 | a capsule outlives the loss of guardians if and only if for no block they hold more than m shards |
| Consequences.KeyRecoverableExactly | internal/features/capsule/service.go:346-379 | after a successful run the shares of distinct active guardians combine to the master key if and only if they are a threshold of them, so those of some do if and only if that many are active |
| Consequences.KeyOutOfReach | internal/features/capsule/service.go:271-288 | for every setup with a threshold above the minimum, and every stream: a run without failures after the announcement in which no active guardians' shares combine to the key |
| Consequences.KeyAlwaysRecoverableExactly | internal/features/capsule/service.go:271-288 | the key is recoverable after every successful run of a setup if and only if the threshold is at most the minimal number of guardians |
| Consequences.ShareOfGuardian | internal/features/capsule/service.go:346-379 | the i-th active guardian ends up with share i, and nobody else gets any of this traffic |
| Framing.SessionRoundTrip | internal/protocol/protocol.go:123-248 | a key and any frames behind it are read back whole and exactly the bytes after them are left |
| Framing.UniquelyDecodable | internal/protocol/protocol.go:123-248 | two sessions with equally many frames and the same bytes are the same session |
| Framing.SizeFieldExactly | internal/protocol/protocol.go:237 | the size field tells the payload size if and only if it is below 2^32 |
| Framing.FrameLayout | internal/protocol/protocol.go:233-238 | version byte, 4 size bytes, payload |
| Framing.KeyLayout | internal/protocol/protocol.go:126-130 | 4 size bytes, key |
| Framing.ParseFrameExactly | internal/protocol/protocol.go:207-222 | which bytes are read as which frame and which are refused |
| Framing.ParseKeyExactly | internal/protocol/protocol.go:146-174 | which bytes are read as which key |
| Basics.FirstByteCounts | internal/protocol/protocol.go:237 | the first byte of a number is the most significant one |
| Framing.WriteFrame | internal/protocol/protocol.go:227-248 | what goes out, in one Write, is version byte, 4 bytes that tell the size, and payload; it succeeds if and only if the payload encodes and the Write does not fail |
| Framing.ReadFull | internal/protocol/protocol.go:207-211 | fills the buffer from the front of the stream however reads are cut, if and only if the stream is long enough |
| Framing.DecodeLimited | internal/protocol/protocol.go:216-219 | the decoder gets the payload in pieces of any size and decodes what it would from the whole; it stops where it can first decode after a piece, at the declared size or at the end |
| Framing.ReadFrame | internal/protocol/protocol.go:187-225 | the parser's frame, header and payload read in pieces of any size; exactly the bytes behind a frame are left if its payload uses its declared size, otherwise some of the declared ones may be gone too |
| Framing.SendPublicKey | internal/protocol/protocol.go:123-141 | the key goes out behind its 4-byte length |
| Framing.ReceivePublicKey | internal/protocol/protocol.go:143-175 | key and rest of the stream are those of the parser, under any fragmentation of reads |
| Framing.ReadSession | internal/protocol/protocol.go:143-225 | under any fragmentation a session of frames that use their declared sizes is read whole and the bytes behind it are left; a frame that does not decode ends it in an error |
| ContentStore.HexRoundTrip | internal/features/capsule/store_object.go:185 | the hexadecimal form can be read back and has no path separator |
| ContentStore.DigitIs | internal/features/capsule/store_object.go:185 | the digits are 0 to 9 and lower-case a to f, by their codes |
| ContentStore.HexDigits | internal/features/capsule/store_object.go:185 | digits 2i and 2i + 1 are high and low half of byte i |
| ContentStore.PathLayout | internal/features/capsule/store_object.go:184-200 | 71 characters with a separator at every sixth place and nowhere else, which without them are the first 60 digits of the hash, and the last four digits as filename |
| ContentStore.FileLayout | internal/features/capsule/store_object.go:127-132 | a file lies under root, the directory objects, and the path of its hash |
| ContentStore.CASPathTransform | internal/features/capsule/store_object.go:184-200 | the loop fills in twelve directories of five characters and leaves four characters for the filename |
| ContentStore.PathInvertible | internal/features/capsule/store_object.go:184-200 | the hash can be read back off its path |
| ContentStore.FilePathInjective | internal/features/capsule/store_object.go:127-132 | different hashes have different files |
| ContentStore.ObjectStore.SaveCAS | internal/features/capsule/store_object.go:102-117 | binds the hash to the data and leaves what every other hash gives; nothing changes on failure |
| ContentStore.ObjectStore.GetCAS | internal/features/capsule/store_object.go:120-134 | the data bound to the hash, if any |
| ContentStore.ObjectStore.ExistsCAS | internal/features/capsule/store_object.go:137-157 | there if and only if GetCAS finds it |
| ContentStore.ObjectStore.VerifyCAS | internal/features/capsule/store_object.go:160-176 | not found if no data are bound to the hash, verified if and only if data are and have that hash |
| ContentStore.VerifiesExactly | internal/features/capsule/store_object.go:160-176 | after any history of saves a hash verifies, is corrupted or not found exactly as the last data saved under it say |
| ContentStore.StoreRefinesMap | internal/features/capsule/store_object.go:102-134 | after any history of saves a lookup gives the last data saved under the hash |
| ContentStore.OwnHashesVerify | internal/features/capsule/store_object.go:160-176 | if all data were saved under their own hashes, exactly those hashes verify and no lookup finds corruption |
| ContentStore.SaveAsWrittenSeenExactly | internal/features/capsule/store_object.go:111-134 | as line 116 is written, a save changes a lookup if and only if filenames agree and the working directory is the directory of the object looked up |
| ContentStore.SaveAsWrittenCollides | internal/features/capsule/store_object.go:116 | as line 116 is written, hashes share a file if and only if their last two bytes agree |
| Threshold.DefaultIsQuorum | internal/features/capsule/dtos.go:216-228 | for 3 guardians or more: at least 2, fewer than all, more than half |
| Threshold.DefaultIsMonotone | internal/features/capsule/dtos.go:216-228 | more guardians never lower the default |
| Threshold.QuorumsMeet | internal/features/capsule/dtos.go:216-228 | any two groups of default size share a guardian |
| Threshold.DefaultIs | internal/features/capsule/dtos.go:216-228 | 2 up to 3 guardians, one more than half rounded up for 4 and 5, two thirds rounded up for 6 and 7, the integer nearest to 60 percent from 8 on |
| Threshold.ContentErrors | internal/features/capsule/dtos.go:36-121 | when there is an error before the threshold is looked at, and when it is which |
| Threshold.CreateCapsuleDTO.Validate | internal/features/capsule/dtos.go:36-152 | accepts exactly acceptable requests with a threshold from 2 to the number of guardians; fills an open threshold with the default and an open grace period with 7 days, also when it then refuses; which error comes first |
| Threshold.DefaultPassesExactly | internal/features/capsule/dtos.go:123-149 | the default threshold passes the bounds if and only if there are at least 2 guardians |

## Left out

- Library internals (Reed-Solomon, Shamir sharing, AES-GCM, SHA-256, xxhash, gob, tar, zstd, bbolt, JSON): only the contracts named above. That a code with 32 data and 22 parity rows exists is assumed; the concrete code has one parity row.
- Capsule.Network.Send: stands for `remotePeerConn.Send` without its mutexes, which the methods it calls lock again (`internal/transport/remote_peer_conn.go:94-137`); empty non-nil data does not occur in the modelled calls, and message and data of a failed Send arrive whole or not at all.
- `remotePeerConn.Receive` (`internal/transport/remote_peer_conn.go:139-185`): the receiver takes messages from a FIFO instead, as the service's code expects; the decoded message never reaches the caller in the code.
- TCP, dialling, bootstrap, peer wiring and routing, handshakes beyond the exchange of keys.
- Archive internals: only the sequence of Write and Close calls on the encoder, which of their errors are reported, and that reading may fail; the splitting of files into writes is arbitrary.
- Request handling around the pipeline: opening files, GetNumOfFiles, GetTotalSize, error texts, timeouts, contexts beyond one cancellation point per turn of the shard loop.
- Receiver.StoreShard: a failed store call has no effect here; a partly written file is not modelled.
- Receiver.ReceiveCapsuleStream: the record's time stamps are dropped; no claim is made on the completion flag, which the last update rewrites to false. The JSON form of the shard record is not modelled either: its fields are unexported.
- StoreSafety.AlwaysSafe: takes shard ids to belong to one capsule each, as random UUIDs do; StoreSafety.SafeExactly says what decides without that.
- Distribution.CreateAndSendCapsule: starts behind the validation of the request, the opening of the files and the drawing of the master key; the erasure coder exists.
- Chunking.WritersAgree: compares blockWriter with the encoder's loop as intended.
- Chunking.ChunkingInvariant: for the encoder it follows the loop as intended at line 53; the line as written is Chunking.StreamAsWrittenExactly.
- BlockSink.BlockSinkEncoder.Drain: follows the loop as intended; Chunking.WriteAsWrittenExactly says when that is what the line does.
- BlockSink.BlockSinkEncoder.Write: follows the loop as intended; block ids are unbounded here, and Capsule.KeyPreimagesDistinct tells when the 64-bit form repeats.
- Erasure.Reconstruct: a failing destination writer is not modelled, and slices at the length header are bounded by length, not by capacity.
- Agreement.AgreementExactly: is about runs in which no call failed; after a failed and dropped last write the guardians may hold shards of an unlisted block, which recovery ignores.
- ContentStore.ObjectStore.GetCAS: the only read error is absence.
- ContentStore.ObjectStore.ExistsCAS: the only Stat error is absence.
- ContentStore.ObjectStore.SaveCAS: writes where GetCAS reads; a failed save changes nothing.
- Framing.ReadFrame: of a payload that decodes from fewer bytes than declared, how many more the decoder takes is left open, between those and the declared size.
- Framing.ReadSession: claims nothing of a session behind such a frame.
- Receiving after an interruption (`ReceiveContinueCapsuleStream`, `ReceiveReCapsuleStream`), user identity, stream ciphers and configuration: stubs or glue.
