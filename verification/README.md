# Decent Registry: a verified model of its accepted-state machinery

The Registry stores signed records: an *Identity* (an owner name bound to an owner key) and a
*Provider* record (who serves an object).  A record is a canonical CBOR `SignedUpdate` inside an
envelope that carries either one signature (legacy) or detached proofs from a Signer Set
(multisignature).  Multisignature updates are chained by the SHA-256 hash of the update before
them and authorised by a 2-of-3 quorum of the set in force.  Every node validates what it is
given, keeps the newest accepted state in a local LMDB store, and rebuilds a missing history by
walking the hashes backwards through its peers.

This project models that machinery in Dafny and proves what it is for.

| file | what it covers |
|---|---|
| `Basics.dfy`, `Utf8.dfy` | bytes, options, the stable key sort, text as UTF-8 |
| `Cbor.dfy`, `KeyOrder.dfy` | the CBOR subset of the schema with the booleans and floats Python confuses with its keys, a canonical encoder (section 3.9 of RFC 7049) and a decoder as lenient as `cbor2.loads` |
| `Schema.dfy` | the decoded records; `Wire`, the codecs and primitives the validators call; `Sound`, what they rely on |
| `Codec.dfy` | the concrete codecs of SignedUpdates, envelopes and stored histories, and the proof that they are `Sound` |
| `Verification.dfy` | the five operations, one-step validation and replay |
| `Lineage.dfy` | quorums, invariants of accepted histories, replay against extension, fork freedom |
| `SmallRecords.dfy`, `AnchorGap.dfy`, `ReadBackGap.dfy` | concrete encoded chains, for every wire on which their signatures verify: an upgrade that replay refuses, a replacement that is not read back, an update that takes over a record |
| `RecordValidator.dfy`, `ProviderRuns.dfy` | overwrites and reads, and every run of accepted Provider writes |
| `Acceptance.dfy`, `ProviderAcceptance.dfy` | what is accepted, said without the validators: histories, reads and writes, exactly |
| `Bundle.dfy` | collecting detached proofs and finalising |
| `DurableStore.dfy`, `DhtValues.dfy` | the accepted-state store, choosing between values |
| `RemoteWalk.dfy` | the backward hash walk |
| `NodeProtocol.dfy`, `RegistryNode.dfy` | one node under every interleaving of writes, reads, incoming PUTs and confirmations |
| `StoredHistories.dfy`, `NodeService.dfy`, `ReadYourWrites.dfy` | what stored histories are, exactly what each operation of a node comes to, and the order in which results return |
| `WireFormat.dfy` | the layout of the maps, exactly what can be encoded, examples of appendix A of RFC 7049 |
| `Frames.dfy`, `MessageFields.dfy`, `Eligibility.dfy` | DHT frames in pieces, the message type walk, the serving-proof cache |

How to read it:

* A validator is a function into `Option`; `None` is a raised error.  Which error is raised is
  not distinguished.
* SHA-256, Ed25519 verification (section 5.1.7 of RFC 8032) and the Provider payload schema are
  arbitrary functions, fields of `Wire`.  Nothing assumes they are collision-free or unforgeable:
  where a property needs that, it is a hypothesis of the lemma (`NonEquivocating`,
  `DistinctStates`) or the conclusion names the collision (`Collide`).
* Text is held as its UTF-8 bytes, a dict as the list of its entries in insertion order.
* A *well-shaped anchor* (`WellShapedAnchor`) is a valid genesis, or a legacy Identity with
  fields exactly {1,2} and an empty payload.
* The objects of the source that update fields in place (the LMDB store, the node, the two
  streams, the eligibility cache) are classes; each method's contract gives the whole new state
  as a function of the old one, or relates it to a ghost log or ghost model.  Loops of the source
  are methods proved equal to a recursive function.

Where code and documentation disagree the code is followed: `docs/multisignature-records.md:158`
speaks of reactivating a withdrawn Provider record with a later active state, but
`verification.py:666-667` refuses every ordinary update from a multisignature tombstone;
`ProviderRuns.RunPayloads` proves that only a signer replacement leaves one.

## Model

| member | source | states |
|---|---|---|
| Lineage.ForkFreedom | src/decent_registry/verification.py:984-1071 | two accepted histories of one key with the same anchor update agree wherever both are defined, unless some key signed two updates naming one predecessor |
| Lineage.HistoriesArePrefixComparable | src/decent_registry/verification.py:984-1071 | so, as sequences of SignedUpdate bytes, one of them is a prefix of the other |
| Lineage.NextUpdateIsUnique | src/decent_registry/verification.py:694-721 | two steps off one update, with no equivocating key, are one update: quorums of a 2-of-3 set intersect, and a legacy anchor has a single owner |
| Lineage.QuorumsIntersect | src/decent_registry/verification.py:479-511 | two signing sets larger together than the Signer Set share a member key |
| Lineage.ThresholdProofsAreAQuorum | src/decent_registry/verification.py:479-511 | accepted threshold proofs come from at least `threshold` distinct public keys of the set |
| Lineage.ThresholdExactly | src/decent_registry/verification.py:479-511 | threshold proofs hold if and only if there are enough, no two under one identifier, each the signature of the member it names |
| Verification.ValidateThresholdProofs | src/decent_registry/verification.py:479-511 | the loop with its seen set accepts exactly when there are enough proofs, from distinct members, all valid |
| Lineage.IncrementalEqualsReplay | src/decent_registry/verification.py:1074-1136 | from a replayed state, one incremental step accepts and returns exactly what replaying the longer chain would; the re-replay inside a rotation never makes a difference |
| Lineage.ExtendingEqualsReplaying | src/decent_registry/verification.py:984-1136 | from a well-shaped anchor, accepting a chain one update at a time and replaying it whole agree, on every chain |
| Lineage.FinalCheckNeverFires | src/decent_registry/verification.py:1064-1071 | the closing comparison of a replay's history with its input never refuses anything |
| Lineage.LegacyStepVersusReplay | src/decent_registry/verification.py:798-803 | over a legacy anchor with fields exactly {1,2} and an empty payload the replay returns what the step does; over any other it refuses whatever the step accepts |
| AnchorGap.UpgradeAcceptedReplayRefused | src/decent_registry/verification.py:1011-1016 | for every wire on which an owner's signatures of a legacy record with a third field and of its upgrade verify, the upgrade step accepts the encoded chain and the replay refuses it |
| AnchorGap.UnreadableHeadReached | src/decent_registry/dht/libp2p_dht.py:576-623 | one incoming PUT of that upgrade makes it the accepted head of a fresh node, with a history that does not replay, and no chain makes the head readable again short of a SHA-256 collision |
| RecordValidator.UpgradeStaysUnreadable | src/decent_registry/record_validator.py:719-759 | an upgrade of any legacy record that replay refuses can be read through no chain, short of a SHA-256 collision with that record |
| Verification.ValidateMultisignatureHistory | src/decent_registry/verification.py:984-1071 | the forward loop rebinding the current state computes the recursive replay |
| Acceptance.HistoryExactly | src/decent_registry/verification.py:984-1071 | a chain replays if and only if it starts at a signed Identity with fields {1,2} and an empty payload, or at a genesis with a quorum of its own set, and every step is linked, bound to the lookup key and proved by the anchor's owner or a threshold of the set before it, rotations only after a single-key anchor; and the state it replays to |
| Acceptance.AnchorIsSigned | src/decent_registry/verification.py:724-765 | the single-key record an accepted history starts from carries a valid signature of the owner key it names |
| Acceptance.UpgradedIsSigned | src/decent_registry/verification.py:724-827 | so does the single-key record, Identity or Provider, from which any accepted upgrade starts |
| Acceptance.UpgradeExactly | src/decent_registry/verification.py:768-827 | an upgrade of either kind is accepted if and only if its predecessor is signed and it names, follows and keeps the owner of it, under a 2-of-3 set with the one proof of that owner |
| Acceptance.GenesisExactly | src/decent_registry/verification.py:557-581 | a genesis of either kind is accepted if and only if it is bound to the key, in epoch 1 with the zero predecessor, and has a threshold of its own 2-of-3 set |
| Lineage.ReplayInvariant | src/decent_registry/verification.py:984-1071 | a replay starts at a well-shaped anchor, links every envelope to the one before it, and ends in exactly the state of the last one, with the whole chain as its history |
| Lineage.StateStepExactly | src/decent_registry/verification.py:648-721 | an envelope extends an Identity state if and only if it is bound to the lookup key, linked to the state's envelope as the operation table demands, its proofs are valid, distinct and enough for the set in force, and a rotation descends from a legacy anchor |
| Lineage.AnchorStepExactly | src/decent_registry/verification.py:768-918 | an envelope extends a plain legacy anchor if and only if it is bound, linked, and carries exactly the one owner proof |
| Lineage.StateStep | src/decent_registry/verification.py:648-721 | an accepted step off a state: bound to its hash, later seq, signed by its quorum, 2-of-3, owner and set changed only by their operations |
| Lineage.AnchorStep | src/decent_registry/verification.py:768-918 | an accepted upgrade or rotation off a legacy anchor: signed by its owner, epoch 1, 2-of-3, the new owner a member |
| Lineage.QuorumLineage | src/decent_registry/verification.py:648-721 | in every accepted history each state is 2-of-3, and each step off a multisignature state is signed by two distinct keys of the set before it, so no set authorises its own installation |
| Lineage.LegacyStepIsAuthorized | src/decent_registry/verification.py:805-918 | the step off a legacy anchor is signed by its owner key and puts the new owner key in the new set |
| Lineage.GenesisEpoch | src/decent_registry/verification.py:557-581 | a genesis anchor has epoch 1, the zero predecessor, and a quorum of its own set |
| Lineage.KeyIsBound | src/decent_registry/verification.py:134-149 | every update of an accepted history names an owner whose SHA-256 is the lookup key |
| Lineage.SeqIncreases | src/decent_registry/verification.py:541-542 | along an accepted history seq strictly increases and the epoch never falls |
| Lineage.StepArithmetic | src/decent_registry/verification.py:830-855 | the owner key changes at a step if and only if it is a rotation, which keeps the name and adds 1 to seq; the epoch starts at 1 and rises if and only if signers are replaced |
| Lineage.GenesisOwnerIsFixed | src/decent_registry/verification.py:934-938 | a genesis-anchored history never changes its owner key |
| RecordValidator.IdentityWriteReadAgree | src/decent_registry/record_validator.py:535-564 | an accepted Identity write is read back with its own history and the same result, unless it upgraded a legacy record that replay refuses, when it never is |
| Acceptance.IdentityReadExactly | src/decent_registry/record_validator.py:719-759 | an Identity read succeeds if and only if the envelope is a signed single-key Identity or ends the good history given, and what it then returns, field by field |
| Acceptance.IdentityWriteExactly | src/decent_registry/record_validator.py:535-607 | an Identity write is accepted if and only if it makes a good history of the chain before it, upgrades a signed Identity, or is a signed single-key record that follows the one before; and what it installs |
| RecordValidator.LegacyIdentityWrite | src/decent_registry/record_validator.py:566-607 | a single-key Identity write against a readable single-key record keeps its owner and raises seq, and never replaces a multisignature one |
| RecordValidator.OverwriteHistoryReplays | src/decent_registry/record_validator.py:253-343 | the history a write installs replays to the accepted state, with that same exception |
| ProviderRuns.ProviderWriteReadAgree | src/decent_registry/record_validator.py:401-533 | an accepted Provider write is read back with the same result, except exactly a signer replacement whose proofs miss the quorum of its own new set |
| ProviderAcceptance.ProviderWriteExactly | src/decent_registry/record_validator.py:401-533 | which Provider writes are accepted, single-key and multisignature, active and withdrawn, and the result of each, said without the validators |
| ProviderAcceptance.ProviderReadExactly | src/decent_registry/record_validator.py:609-717 | which Provider reads succeed, and what each returns |
| ProviderAcceptance.RunSignatures | src/decent_registry/verification.py:284-318 | in every run each single-key state carries a valid signature of field 1, or of field 2 where it reads as an Identity |
| ProviderAcceptance.StandaloneExactly | src/decent_registry/verification.py:584-645 | an envelope is accepted on its own if and only if it is a genesis, an upgrade with the one proof of its own owner, or a Provider state with a threshold of its own set |
| ReadBackGap.ReplacementNotReadBack | src/decent_registry/verification.py:637-644 | for every wire on which a and b sign a genesis under {a,b,c} and a replacement installing {d,e,f}, both encoded writes are accepted and the second is not read back |
| Bundle.FinalizedProviderReadsBack | src/decent_registry/record_validator.py:609-648 | a finalised Provider envelope that was accepted is read back, with no exception |
| ProviderRuns.StandaloneAuthorization | src/decent_registry/verification.py:584-645 | an envelope accepted on its own is signed by a quorum of its own set or, for an upgrade, by an owner who is a member; an Identity is then a genesis |
| ProviderRuns.RunOrder | src/decent_registry/record_validator.py:253-343 | over every run of accepted Provider writes seq strictly increases, no legacy state follows a multisignature one, and the owner stays while no single-key update reads as an Identity |
| ProviderRuns.RunPayloads | src/decent_registry/record_validator.py:401-533 | in every run each state names the run's object unless it reads as an Identity, the first is active, no two consecutive ones are withdrawn, and a multisignature tombstone is left only by a replacement with an active payload |
| ProviderRuns.RunAuthorization | src/decent_registry/verification.py:648-721 | in every run, each step off a multisignature Provider state names its hash and carries a quorum of its Signer Set, and changes the set only by a replacement in a later epoch |
| ProviderRuns.LegacyWriteKeepsExactly | src/decent_registry/record_validator.py:452-533 | a single-key write over a readable single-key record keeps its owner if and only if it does not read as an Identity under another name, and names the object of the lookup key unless it reads as an Identity with an active payload |
| ReadBackGap.IdentityShapedTakesOver | src/decent_registry/verification.py:358-401 | for every wire on which the owner's two signatures verify, an encoded update that reads as an Identity is accepted over a Provider record, and leaves another owner field and another object |
| ProviderRuns.IdentityShapedIsNotUpgraded | src/decent_registry/verification.py:781-789 | such an update can never be followed by a multisignature one |
| NodeProtocol.StoreInvariant | src/decent_registry/dht/libp2p_dht.py:576-623 | after any interleaving of writes, conditional writes, incoming PUTs, reads and confirmations with arbitrary answers, the stored seq and hash are the head's own, a single-key head can be read, and a multisignature head has a history that ends at it and replays, or none and is a genesis (or upgraded an ill-shaped legacy record) |
| NodeProtocol.SeqNeverFalls | src/decent_registry/durable_store.py:224-254 | in every run, a step either leaves a slot untouched or raises its accepted seq |
| NodeProtocol.SlotsAdvance | src/decent_registry/durable_store.py:224-254 | between any two points of a run, the later slot is the earlier one untouched or has a larger seq |
| NodeProtocol.HistoriesOnlyGrow | src/decent_registry/dht/libp2p_dht.py:1052-1079 | between any earlier and any later point of a run, where one well-anchored multisignature head has taken the place of another with the same anchor update and no equivocating key, the sequence of updates behind it properly extends the earlier one |
| NodeProtocol.CompareAndSwap | src/decent_registry/dht/libp2p_dht.py:939-976 | in every run, two conditional multisignature writes of one key that both returned against one expected hash were validated against different updates with the same digest |
| NodeService.WriteExactly | src/decent_registry/dht/libp2p_dht.py:928-1079 | what a write comes to, for every answer of the DHT and of the walk: which writes return, which change the store and to exactly what, which leave everything as it was |
| NodeService.UndisturbedWrite | src/decent_registry/dht/libp2p_dht.py:1052-1079 | a write that nothing newer disturbs, conditional or not, returns if and only if its envelope may follow the head, and then the slot is that envelope with its own seq and hash and the history ending at it |
| NodeService.RefusedWrite | src/decent_registry/dht/libp2p_dht.py:938-976 | conflicting values, a failed conditional read or another state than expected leave node and store as they were |
| NodeService.PublishedFirst | src/decent_registry/dht/libp2p_dht.py:1035-1066 | nothing is recorded as written before its publication returned; a conditional write changes no slot before that, and is not published past its deadline |
| NodeService.PutExactly | src/decent_registry/dht/libp2p_dht.py:454-506 | what an incoming PUT comes to, whatever the DHT value store holds |
| NodeService.UndisturbedPut | src/decent_registry/dht/libp2p_dht.py:576-623 | an incoming PUT that nothing newer disturbs is installed, with its history, if and only if it may follow the head |
| NodeService.OwnHeadIsRead | src/decent_registry/dht/libp2p_dht.py:1293-1353 | a node reads back its own head at once, without peers, whenever the DHT fails or knows nothing newer: the head's own name, owner, seq and hash, and no slot changes |
| NodeService.NewerIsRead | src/decent_registry/dht/libp2p_dht.py:659-675 | a newer DHT value is returned and cached with the stored chain and itself if and only if that is a good history or it is a signed single-key record; otherwise the read walks |
| NodeService.WalkedRead | src/decent_registry/dht/libp2p_dht.py:1313-1353 | after the walk a read returns and caches the value with the chain found if and only if that makes it readable, and fails otherwise |
| NodeService.ConfirmedExactly | src/decent_registry/dht/libp2p_dht.py:1234-1283 | a rotation is confirmed if and only if the peer returned the expected bytes, they are a rotation under that name, and they end a good history with the stored chain |
| StoredHistories.StoredHistoriesEnd | src/decent_registry/dht/libp2p_dht.py:711-768 | in every run, a history stored for a key ends at the head of that key, for single-key heads too |
| ReadYourWrites.SessionOrder | src/decent_registry/dht/libp2p_dht.py:928-1353 | at any point of any run the next result returned for a key is no older than all that was returned for it before, and a multisignature write is strictly newer |
| ReadYourWrites.MonotonicReads | src/decent_registry/dht/libp2p_dht.py:1293-1353 | in every run, reads of one key never go back |
| ReadYourWrites.ReadsSeeWrites | src/decent_registry/dht/libp2p_dht.py:928-1353 | in every run, a read that returns after a multisignature write returned, conditional or not, has at least its seq |
| ReadYourWrites.WritesAreKept | src/decent_registry/dht/libp2p_dht.py:1067-1079 | in every run, every multisignature write that returned, conditional or not, is in the store or behind something newer |
| NodeProtocol.StepAdvances | src/decent_registry/dht/libp2p_dht.py:711-768 | each single step keeps the store invariant and never lowers a seq |
| RegistryNode.Libp2pKadDht.AcceptIncomingPut | src/decent_registry/dht/libp2p_dht.py:454-506 | an incoming PUT changes the store exactly as the protocol step says; one reported accepted is the head, any other changes nothing |
| RegistryNode.Libp2pKadDht.Install | src/decent_registry/dht/libp2p_dht.py:711-742 | raises exactly when the store holds something as new; otherwise the slot becomes this value, its seq and hash, and the result's history |
| RegistryNode.Libp2pKadDht.Cache | src/decent_registry/dht/libp2p_dht.py:744-768 | installs a value that was read, with the chain that validated it, unless something as new is there |
| RegistryNode.Libp2pKadDht.ResumeWriteAfterRead | src/decent_registry/dht/libp2p_dht.py:939-1024 | a write's code between the DHT read and its next await, as a protocol step |
| RegistryNode.Libp2pKadDht.ResumeWriteAfterWalk | src/decent_registry/dht/libp2p_dht.py:1021-1079 | the same from the remote walk on |
| RegistryNode.Libp2pKadDht.ResumeWriteAfterPublish | src/decent_registry/dht/libp2p_dht.py:1052-1079 | the same after publication; the write returns normally exactly when a receipt is recorded |
| RegistryNode.Libp2pKadDht.ResumeGetAfterRead | src/decent_registry/dht/libp2p_dht.py:1293-1353 | a read's code between the DHT read and its next await, as a protocol step; what it returns is what the step records as returned |
| RegistryNode.Libp2pKadDht.ResumeGetAfterWalk | src/decent_registry/dht/libp2p_dht.py:1319-1353 | the same from the remote walk on |
| RegistryNode.Libp2pKadDht.ConfirmOwnerKeyRotation | src/decent_registry/dht/libp2p_dht.py:1251-1283 | a confirmation returns what the protocol says it confirms, and caches it |
| RemoteWalk.WalkRebuildsHistory | src/decent_registry/dht/libp2p_dht.py:1195-1232 | asking peers of which one durably holds an accepted history with no hash collision, after none that answers otherwise with the hash asked for, the walk from its head returns exactly it if it has at most 256 envelopes and 4 MiB, and fails otherwise |
| RemoteWalk.WalkIsSound | src/decent_registry/dht/libp2p_dht.py:1195-1232 | against any peers, a returned chain ends at the head, starts at an anchor, is hash-linked, repeats no state and respects both bounds |
| RemoteWalk.ReadPredecessorChain | src/decent_registry/dht/libp2p_dht.py:1195-1232 | the loop with its lists, set and counters computes that walk in at most 256 rounds |
| RemoteWalk.ReadByHash | src/decent_registry/dht/libp2p_dht.py:1157-1193 | the first peer answer that hashes to what was asked for |
| RemoteWalk.StoredHistoryIsServed | src/decent_registry/dht/libp2p_dht.py:1364-1391 | a node that holds an accepted history, or a genesis cached without one, serves every state of it by hash |
| RemoteWalk.ServedIsAccepted | src/decent_registry/dht/libp2p_dht.py:1364-1391 | what a node serves hashes to what was asked for and is in the chain of a head that still validates |
| RemoteWalk.UpdatesAreDistinct | src/decent_registry/verification.py:984-1071 | the updates of an accepted history are pairwise different, so distinct hashes are only collision-freeness |
| DhtValues.SelectsTheNewest | src/decent_registry/dht/libp2p_dht.py:124-154 | of two values the one selected is no older than either: the larger seq on either side, a parseable one over garbage, the second of two forms of one state; a conflict is two states of one seq, in either order |
| DhtValues.Select | src/decent_registry/dht/libp2p_dht.py:247-260 | picks the first value of maximal seq, all values of that seq being one state; on well-formed values it fails if and only if some value ties the highest seq before it with a different state |
| DhtValues.MetadataExactly | src/decent_registry/dht/libp2p_dht.py:200-241 | a value counts with its own seq and state hash if and only if it decodes and names the key under its record kind |
| DurableStore.LmdbDatastore.PutIfNewer | src/decent_registry/durable_store.py:179-254 | one transaction installs head, metadata and history together or changes nothing; it accepts exactly a strictly newer seq, and touches no other record |
| DurableStore.LmdbDatastore.Get | src/decent_registry/durable_store.py:140-153 | the stored head of the record |
| DurableStore.LmdbDatastore.GetHistory | src/decent_registry/durable_store.py:155-177 | the stored history, if it is a non-empty list |
| DurableStore.KeysAreDisjoint | src/decent_registry/durable_store.py:112-118 | metadata and history keys of the shared database never collide, across kinds and record keys |
| DurableStore.NewestWins | src/decent_registry/durable_store.py:179-254 | after any sequence of installs into an empty slot it holds the first call of maximal seq |
| DurableStore.NewestWinsOver | src/decent_registry/durable_store.py:224-254 | over an existing head, with or without metadata, the first call of maximal seq wins exactly if it is newer than the head |
| DurableStore.ReorderingConverges | src/decent_registry/durable_store.py:179-254 | installs with distinct seqs converge under any reordering |
| Codec.HistoryRoundTrip | src/decent_registry/durable_store.py:155-177 | a non-empty history is stored as bytes b if and only if b reads back as it, and no bytes read as an empty one |
| Bundle.MergeAllIsOneSort | src/decent_registry/multisig_bundle.py:319-342 | merging a list of proofs succeeds exactly when they are valid, from distinct members new to the bundle, and then sorts them all together |
| Bundle.MergingIsConfluent | src/decent_registry/multisig_bundle.py:336-342 | proofs arriving in any order are accepted or refused alike and give the same bundle |
| Bundle.CollectingIsConfluent | src/decent_registry/multisig_bundle.py:299-342 | collecting valid proofs of distinct members never fails; in any order the bundle is the same, survives serialisation, and with a quorum finalises to those bytes |
| Bundle.BundleRoundTrip | src/decent_registry/multisig_bundle.py:102-123 | from_cbor(to_cbor(b)) is b, for a constructed bundle whose proofs are bound to its own update (a restored proof always is) |
| Bundle.FinalizedIsSound | src/decent_registry/multisig_bundle.py:345-373 | a finalised envelope passes the threshold check for its own Signer Set or, for an upgrade, the upgrade proof check for the owner it names |
| Bundle.FinalizesExactly | src/decent_registry/multisig_bundle.py:345-373 | finalising succeeds if and only if the proofs are signatures of distinct members over this update and there are enough: the threshold or, for an upgrade, the one by the member holding the owner key |
| Bundle.ValidProofExactly | src/decent_registry/multisig_bundle.py:299-318 | a detached proof is valid if and only if it is for this very update, has 64 bytes and is the signature of the member it names |
| Bundle.FinalizeBundle | src/decent_registry/multisig_bundle.py:345-373 | the loop with its seen set computes that |
| Bundle.MergeProofs | src/decent_registry/multisig_bundle.py:336-342 | the loop rebinding the merged bundle computes the fold of single merges |
| Codec.UpdateEncodeDecode | src/decent_registry/encoding.py:183-254 | decode(encode(u)) is u with dict keys in canonical order and Signers sorted by UTF-8 identifier, for any payload schema that reads its dict by key |
| Codec.UpdateDecodeEncode | src/decent_registry/encoding.py:228-254 | for an accepted SignedUpdate b, encode(decode(b)) is b if and only if every map of its schema writes its keys as unsigned integers, and not as booleans or floats equal to them |
| Codec.TrueForOne | src/decent_registry/encoding.py:228-243 | concrete bytes whose key 1 is written `true`: accepted, and decoded to the same record as other accepted bytes |
| Codec.UpdateEncodingUnordered | src/decent_registry/encoding.py:183-209 | encoding ignores the input order of dict keys, at any depth, and of Signers, in what it accepts and what it emits |
| Codec.ValidateSignerEntries | src/decent_registry/encoding.py:32-66 | the pass over the Signer entries accepts exactly non-empty sets of good, distinct members, sorted on request and otherwise already sorted |
| Codec.EnvelopeEncodeDecode | src/decent_registry/signed_envelope.py:110-169 | decode(encode(x)) is x with its proofs sorted by identifier, null first |
| Codec.EnvelopeDecodeEncode | src/decent_registry/signed_envelope.py:141-169 | for an accepted multisignature envelope b, encode(decode(b)) is b if and only if the maps of the envelope and its proofs write their keys as unsigned integers |
| Codec.EnvelopeEncodingUnordered | src/decent_registry/signed_envelope.py:110-138 | encoding ignores the input order of proofs |
| Codec.ValidateProofs | src/decent_registry/signed_envelope.py:23-53 | the pass over the proofs accepts exactly distinct, well-formed ones, sorted on request and otherwise already sorted |
| Codec.LegacyEncodeDecode | src/decent_registry/signed_envelope.py:63-107 | a single-key envelope reads back as written, except that one around an update with key 4 never does |
| Codec.LegacyDecodeEncode | src/decent_registry/signed_envelope.py:78-107 | for an accepted single-key envelope b, encode(decode(b)) is b if and only if its keys are written as unsigned integers |
| Codec.ConcreteWireSound | src/decent_registry/encoding.py:246-262 | the codecs keep every promise the validators rely on: envelope kinds exclude each other, loose and strict reads agree, authorisation maps are well-formed and bound to their record |
| WireFormat.UpdateEncodesExactly | src/decent_registry/encoding.py:183-209 | encode_signed_update accepts a record if and only if its maps are encodable with integer keys, its numbers fit, every Signer has a distinct identifier of 1 to 256 bytes of text and a distinct 32-byte key, the threshold is between 1 and their number, and the record has the shape of its kind |
| WireFormat.EnvelopeEncodesExactly | src/decent_registry/signed_envelope.py:110-138 | encode_multisignature_envelope accepts exactly a SignedUpdate with an authorization map and well-formed proofs under distinct identifiers |
| WireFormat.DecodedUpdateLayout | src/decent_registry/encoding.py:69-121 | in every accepted SignedUpdate each part sits at its own key, and there are no other keys, down to the Signers |
| WireFormat.DecodedEnvelopeLayout | src/decent_registry/signed_envelope.py:141-169 | the same of every accepted multisignature envelope and its proofs |
| WireFormat.LooseLayout | src/decent_registry/dht/libp2p_dht.py:61-92 | what is read of bytes that were not validated: the kind of envelope they look like and the update inside |
| Cbor.CanonicalIffEncoded | src/decent_registry/encoding.py:130-137 | over the module's CBOR subset, `is_canonical_cbor` accepts exactly the encoder's image |
| Cbor.LoadsDumps | src/decent_registry/encoding.py:124-127 | decoding an encoding gives the item with every map in canonical order |
| Cbor.CanonicalBytesDecodeInOrder | src/decent_registry/encoding.py:130-137 | accepted bytes re-encode to themselves and decode in canonical order |
| Cbor.DumpsInjective | src/decent_registry/encoding.py:124-127 | two values encode alike if and only if they differ in key order only |
| Cbor.CanonicalDictUnordered | src/decent_registry/encoding.py:124-127 | canonical order forgets the insertion order of a dict |
| Utf8.ValidIffEncoded | src/decent_registry/encoding.py:28-29 | the byte strings accepted as text are exactly the UTF-8 encodings of scalar values |
| Schema.HexRoundTrip | src/decent_registry/verification.py:174-179 | reading a hexadecimal object hash gives back the bytes it was written from |
| Schema.FromHexExactly | src/decent_registry/verification.py:174-179 | exactly the hexadecimal forms of some bytes, in either case, read as them |
| KeyOrder.KeyOrderIsNumeric | src/decent_registry/encoding.py:124-127 | the canonical order of keys written as unsigned integers is numeric order |
| Frames.BoundedInboundStream.Read | src/decent_registry/dht/serving_eligibility.py:373-400 | a read raises if and only if its size argument is bad or all that has arrived is unacceptable |
| Frames.ReadAll | src/decent_registry/dht/serving_eligibility.py:373-400 | however the bytes are cut into chunks, some read raises if and only if their concatenation is unacceptable |
| Frames.BoundedInboundStream.CompleteFrame | src/decent_registry/dht/serving_eligibility.py:54-71 | when everything declared has arrived the one-shot decoder returns the payload |
| Frames.BoundedDhtStream.Write | src/decent_registry/dht/serving_eligibility.py:224-265 | a write raises if and only if all that was written is unacceptable, and a reply is awaited exactly while it is one complete typed request |
| Frames.BoundedDhtStream.Observe | src/decent_registry/dht/serving_eligibility.py:280-320 | a chunk raises if and only if the reply so far is unacceptable, and the proof is recorded exactly when it is a complete valid frame |
| Frames.Exchange | src/decent_registry/dht/serving_eligibility.py:224-320 | for every cutting of request and reply, the exchange raises if and only if the request bytes are unacceptable, or a chunk read is longer than max+1, or a complete request is answered by unacceptable bytes; a proof is recorded at most once, exactly for a complete request with a complete valid reply |
| Frames.BoundedDhtStream.Read | src/decent_registry/dht/serving_eligibility.py:267-278 | a read raises if and only if its size argument is bad, its chunk is longer than max+1, or the reply observed so far is unacceptable; chunks are observed exactly while a complete request stands alone |
| Frames.OverlongReplyRaises | src/decent_registry/dht/serving_eligibility.py:273-278 | the one way cutting matters: a complete valid reply raises as a single chunk if and only if it is longer than max+1, and never when its prefix is read apart |
| Frames.FrameRoundTrip | src/decent_registry/dht/serving_eligibility.py:54-71 | a frame reads back whole if and only if its payload is within the limit |
| Frames.ReadFrameIsEncoding | src/decent_registry/dht/serving_eligibility.py:54-71 | only canonically framed payloads within the limit are read |
| Frames.DecodeVarintPrefix | src/decent_registry/dht/serving_eligibility.py:40-51 | the loop over bytes and shifts computes the recursive varint decoder |
| Frames.RefusedStaysRefused | src/decent_registry/dht/serving_eligibility.py:373-400 | what is unacceptable stays so whatever arrives later |
| Frames.RefusedIsHopeless | src/decent_registry/dht/serving_eligibility.py:373-400 | once the declared length is known, bytes are refused if and only if nothing that follows can complete a frame |
| Frames.PrefixExactly | src/decent_registry/dht/serving_eligibility.py:40-51 | more of a prefix is awaited while fewer than ten bytes all announce another, and ten of those are refused |
| Frames.StaysRefused | src/decent_registry/dht/serving_eligibility.py:280-400 | for any condition whose refusals are final, a refused run of chunks stays refused whatever chunks follow |
| MessageFields.ContainsTypeField | src/decent_registry/dht/serving_eligibility.py:112-151 | the loop over offsets computes the recursive field walk |
| MessageFields.TypeFieldFound | src/decent_registry/dht/serving_eligibility.py:112-151 | on a message of any fields the walk is true if and only if the first field that could be the type is a known type |
| MessageFields.BrokenMessage | src/decent_registry/dht/serving_eligibility.py:112-151 | fields without a type followed by an unknown wire type or a value cut short are untyped, followed by an overlong varint an error |
| Eligibility.RoutingEligibility.IsEligible | src/decent_registry/dht/serving_eligibility.py:425-433 | true if and only if the peer proved itself since the last clear, under 300 seconds ago, with fewer than 1024 other peers proving later; otherwise it leaves the routing table |
| Eligibility.RoutingEligibility.RecordValidResponse | src/decent_registry/dht/serving_eligibility.py:435-441 | appends the proof to the log and keeps the cache in agreement with it, evicting the oldest entry when full, from the routing table too |
| Eligibility.RoutingEligibility.Clear | src/decent_registry/dht/serving_eligibility.py:443-446 | forgets every proof and empties the table of proved peers |
| Eligibility.RoutingEligibility.GuardedAdd | src/decent_registry/dht/serving_eligibility.py:448-456 | a peer is added if and only if it is eligible and the table admits it |
| Eligibility.RoutingEligibility.GuardedFind | src/decent_registry/dht/serving_eligibility.py:458-464 | the first `count` eligible peers in order of closeness; the ineligible ones leave the table |
| Eligibility.CachedIffEligible | src/decent_registry/dht/serving_eligibility.py:425-433 | an unexpired cache entry is exactly an eligible peer of the log |
| Eligibility.RecordWithEviction | src/decent_registry/dht/serving_eligibility.py:435-441 | min-expiry eviction keeps the cache in agreement with the log |

## Left out

- Errors: every raised error is `None`; which exception is raised, and its message, is not modelled.
- SHA-256, Ed25519 and key parsing: uninterpreted functions of the `Wire`; a raising verification is a failed one.
- Provider payload schema (`provider_schema.py`): a payload decodes to Active or Withdrawn with its object hash by an uninterpreted function; URI, endpoint and version rules are not modelled.
- CBOR outside the modelled subset: negative integers, tags, bignums, other simple values and floats, indefinite lengths and text or byte keys are refused by the model's decoder, where `cbor2.loads` would decode them.  Python also holds decimals, fractions and wider floats equal to integers, so a schema map whose key is spelled as one of those passes the key checks like the booleans and half floats of the model, and encode(decode(b)) == b fails there too.
- Cbor.CanonicalIffEncoded: over the modelled subset; the source's check accepts the canonical encodings of other CBOR values as well.
- Cbor.LoadsDumps: over the modelled subset, as are Cbor.CanonicalBytesDecodeInOrder and Cbor.DumpsInjective.
- Cbor.CanonicalBytesDecodeInOrder: see Cbor.LoadsDumps.
- Cbor.DumpsInjective: see Cbor.LoadsDumps.
- `bytes(x)` of an integer: the source turns an integer owner field of an unvalidated predecessor into that many zero bytes; the model treats it as no owner.
- Deadlines of streams and of the 15-second walk: an expired deadline is an unavailable answer in the walk and is not modelled in the streams.
- The write side of the inbound stream: not modelled.
- Protobuf contents: parsing a request and validating a reply are arbitrary predicates on payload bytes.
- The in-memory DHT value store and its get hook: what they answer is arbitrary; the hook's refresh of cached values is not modelled.
- Nodes without a durable store, and the checks that refuse writes there: the node model always has one.
- Provider writes on a node, and the raw unguarded `put` of legacy Provider records: only the Identity kind is in the node protocol.
- `sign_bundle`, the draft helpers beyond an empty bundle, `registry_service.py`, `envelope_builder.py`, `cli.py`, `config.py`, key files, bootstrap, host and routing setup: not modelled.
- LMDB itself: a transaction is one atomic update of finite maps, and a stored metadata value is held decoded.
- The routing table: held as the set of peers admitted with a proof; bucket limits may drop peers from it in ways the model does not track.
- Bundle.CollectingIsConfluent: asks for a SignedUpdate shorter than 2^64 bytes, the largest byte string CBOR can hold; likewise Bundle.FinalizesExactly.
- Eligibility.RoutingEligibility.RecordValidResponse: the await on the routing table's own `add_peer` is part of one atomic step.
- WireFormat.UpdateEncodesExactly: numbers of 2^64 and more, which `cbor2` writes as bignums, count as refused here.
- Frames.Exchange: writes the whole request before it reads the reply; single reads and writes in any order are covered by the contracts of the stream's methods.
- NodeProtocol.StoreInvariant: names one exception, a head that upgraded a legacy record which replay refuses; `AnchorGap.UnreadableHeadReached` shows it is reached, `Lineage.LegacyStepVersusReplay` gives the exact condition.
- ProviderRuns.RunOrder: the owner is kept only while no single-key update reads as an Identity, because the code lets one change the owner field; `ProviderRuns.LegacyWriteKeepsExactly` gives the exact condition of one step.
