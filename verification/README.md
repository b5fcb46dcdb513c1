# A trust-minimized bridge, in Dafny

This project models the path of trust of a bridge between two proof-of-stake chains and proves what the bridge relies
on. An off-chain prover makes Merkle proofs of beacon states; a light client contract follows the sync committees of the
other chain; a message bridge executes messages that the other chain's storage or receipts prove; two mediators lock,
burn, mint and release tokens by such messages. `dafny verify dfyconfig.toml` checks everything.

**Merkle proofs.** `Merkleization` has sparse zero-padded trees and their definition as full heaps; `Packing` turns
bytes into leaves. `Branches` has single proofs: the prover's window loop, both walks that restore a root, round trip,
binding and the composition of paths. `MultiProofs` has the walk over many leaves: as a function over a queue, as the
contract's ring buffer in the arrays of its own arguments, as the prover's growing queue; and its soundness.
`MultiProver` has the prover's sweep and the round trip. SHA-256 of a pair is a parameter `h`. Soundness lemmas assume
that the pairs at hand do not collide, never that `h` is injective.

**Light client.** `SyncCommittee` covers the committee bitmap on both sides, `LightClient` the contract as a class over
the transition functions `StepSpec` and `ApplySpec` and all its runs, `Updates` the prover's whole update, from the
choice of the signing block on, which updates the contract accepts, and that a finality branch proves what it claims.
`Trust` puts these together: as long as committees sign headers of one chain only, no run ever stores another. Keys, key addition, key hashes and signature
verification are parameters; the laws of addition are hypotheses where they matter. The clock is an argument of each
call.

**Beacon proofs.** `BeaconProofs` states how state roots and historical batches get into later states, slot by slot, and
proves that the prover's path and the contract's index fit in all three ranges. The vector length and the list limit are
parameters, any powers of two. `SlotSearch` is the search for the slot of an execution block.

**Messages and tokens.** `Chain` holds the storage of one chain's contracts; `Bridge` gives their functions, with `None`
for a revert. Calls into code outside the model are `Hook` values: any tree of calls back into the contracts, to any
depth, followed by success or failure. So native tokens, receivers, fee managers and callbacks are arbitrary and
reentrant. `Contracts` has the same as a class that updates its storage in place and undoes what reverts. `Custody`,
`CustodySteps` and `CustodyRuns` prove that each call keeps an invariant over both chains and, for every token, the
difference between what one side holds and what the other issued or is still under way. `TwoChains` lets both chains and
both light clients act in any order, and draws the conclusions for every run; `Deployment` carries them over to the
fields of two `Contracts` objects. `Locked` shows what can happen while relayTokens pulls tokens in, `Solvency` that the
mediator really has what its books say, `Recovery` that failed transfers can be refunded. `Deposits`, `Arrivals` and
`FeeManager` say who pays and gets how much, `Outcomes` exactly when a call goes through. `Records` shows that caches,
acknowledged deployments and the registry stay true of the other chain, and `Passage` that therefore every deposit
arrives: when, and with what, for all reachable states and both directions. Keccak hashes of messages are numbers of unbounded size, so that the
hypothesis of different hashes for different messages can be met.

**Reading proofs.** `Bytes` has memory and numbers, `Rlp` the encoding of the Yellow Paper, appendix B, and the reader
over raw memory, `Mpt` Merkle-Patricia tries and the node reader. `StorageProofs` and `ReceiptProofs` put branches,
tries and items together to the checks of executeMessage and executeMessageFromLog and show that they give the lookups
that `Bridge` builds on.

Where the code does not do what one would expect, the model follows the code:

- The slot search does not end if a positive even number of slots is empty right below its answer
  (`SlotSearch.FindSlot` states the exact condition, `SlotSearch.SearchOverTwoEmptySlots` an instance).
- `MakeMultiProof` ignores the length of a list tree (`MultiProver.MultiRoundTrip` says when that shows,
  `MultiProver.ListProofMissesLength` is an instance).
- The trie reader skips the paths of leaf and extension nodes by their length (`Mpt.AcceptedProofIsSound` says exactly
  when the value read is that of the queried key, `Mpt.UnheldKeyIsAnswered` is an instance where it is not).
- rlpIndex maps the transaction indices 1 to 127 to the key of transaction 0 (`ReceiptProofs.IndexExactly` says for which
  indices the key is right, `ReceiptProofs.LowIndexShowsFirst` what is read for the others; messages of those
  transactions need the storage route).
- The candidate's timeout is cut to 64 bits (`LightClient.TimeoutWaits` says when that matters,
  `LightClient.WrappedTimeoutPasses` is an instance).
- The prover compares the current period with itself and so only proves the current committee, also for signatures of
  the next period (`Updates.MadeIsVerified` says exactly which updates are accepted, `Updates.RejectedUpdate` is a run
  whose update is not).
- fixMediatorBalance, called by the owner while relayTokens pulls tokens in, counts them twice
  (`Deposits.FixMeanwhileCountsTwice` is an instance; `Deposits.RelayOnce` says that it is these calls, as far as they go
  through, and nothing else, `Solvency.RelayCosts` what they cost).
- A reward account that is the fee manager itself keeps its share there
  (`FeeManager.OmnibridgeFeeManager.DistributeFee` says exactly when, `FeeManager.ListedManagerKeepsShare` is an instance).

## Model

| member | source | states |
|---|---|---|
| Merkleization.ZeroHash | oracle/crypto/utils.go:9-15 | the halving loop returns the root of the all-zero tree with n leaves, defined top-down |
| Merkleization.CeilPow2 | oracle/crypto/utils.go:17-23 | the least power of two that is at least n |
| Merkleization.NewVectorMerkleTree | oracle/crypto/merkleization.go:27-33 | a vector tree over exactly these leaves whose limit is the least power of two that holds them |
| Merkleization.NewListMerkleTree | oracle/crypto/merkleization.go:35-48 | panics exactly on too many leaves or a limit with two bits set; otherwise keeps leaves, length and limit |
| Packing.BytesToChunks | oracle/crypto/utils.go:31-39 | one chunk per started 32 bytes, each the zero-padded big-endian word of its bytes |
| Packing.PackingIsInjective | oracle/crypto/utils.go:31-39 | equally long byte strings with the same chunks are equal |
| Packing.NewPackedVectorMerkleTree | oracle/crypto/merkleization.go:50-57 | a well-formed vector tree over the chunks of the data |
| Packing.NewPackedListMerkleTree | oracle/crypto/merkleization.go:59-67 | a list tree over the chunks; well-formed exactly if the unchecked limit is a large enough power of two |
| Merkleization.SparseIsFull | oracle/crypto/merkleization.go:226-238 | the sparse recursion gives the root of the full zero-padded tree, for every power-of-two limit |
| Merkleization.SubtreeIsNode | oracle/crypto/merkleization.go:226-238 | sparse merkleization of any aligned range is the heap node above that range, wherever the leaves end |
| Branches.RestoreMerkleRoot | contracts/light_client/libraries/Merkle.sol:5-19 | the bit-tested walk fails exactly if the path does not fit the index, and otherwise climbs the path |
| Branches.ReconstructRoot | oracle/crypto/merkleization.go:201-216 | the halving walk agrees with the bit-tested one on every index, leaf and path |
| Branches.MakeProof | oracle/crypto/merkleization.go:77-118 | panics exactly out of bounds; otherwise emits the true siblings from the leaf up, and the length for a list |
| Branches.SiblingRoot | oracle/crypto/merkleization.go:86-107 | one round emits the true sibling node and widens the window to the parent, also where leaves are missing |
| Branches.ProofRoundTrip | oracle/crypto/merkleization.go:77-118 | for every tree, list or vector, and every leaf, the proof passes the length guard and restores the root |
| Branches.BranchBinds | contracts/light_client/libraries/Merkle.sol:5-19 | two branches under one index with the same root prove the same leaf and are equal, unless they exhibit a collision |
| Branches.Compose | contracts/amb/TrustlessAMB.sol:147-189 | a path to a subtree root followed by a path from it is a path under the concatenated generalized index |
| MultiProofs.RestoreMerkleMultiRoot | contracts/light_client/libraries/Merkle.sol:21-64 | the ring buffer that overwrites its two input arrays returns or fails as the walk over an unbounded queue does, on every input |
| MultiProofs.RingStep | contracts/light_client/libraries/Merkle.sol:41-64 | one round on the two arrays ends the walk with its outcome, or leaves a walk with the same outcome still to be done |
| MultiProofs.TakeSibling | contracts/light_client/libraries/Merkle.sol:46-57 | the sibling comes from the queue exactly if it is the next entry and the queue is not empty |
| MultiProofs.Push | contracts/light_client/libraries/Merkle.sol:59-63 | writing the parent overwrites no entry that is still queued |
| MultiProofs.ReconstructMultiRoot | oracle/crypto/merkleization.go:168-199 | the growing queue computes the same function of indices, hashes and decommitments as the ring buffer |
| MultiProofs.LevelOrderStep | contracts/light_client/libraries/Merkle.sol:38-64 | popping one or two nodes and pushing the parent keeps the indices strictly descending within two levels |
| MultiProofs.RootIsAlone | contracts/light_client/libraries/Merkle.sol:44-45 | when index 1 is popped nothing else is queued |
| MultiProofs.WalkSound | contracts/light_client/libraries/Merkle.sol:38-64 | if a walk over level-ordered indices ends in the root of a tree, every supplied hash is the true node at its index, whatever the decommitments |
| MultiProver.MakeMultiProof | oracle/crypto/merkleization.go:120-166 | panics exactly on an index out of range; otherwise emits the descending indices, their leaves and the honest decommitments |
| MultiProver.SelectLeaves | oracle/crypto/merkleization.go:139-146 | marks exactly the selected leaves and lists their indices and hashes in descending order |
| MultiProver.VisitPair | oracle/crypto/merkleization.go:148-159 | one round emits the sibling that the verifier lacks, if any, and hashes the pair into its parent |
| MultiProver.WalkFollowsSweep | oracle/crypto/merkleization.go:120-199 | the verifier walks the known nodes in the order of the prover's sweep and consumes exactly its decommitments |
| MultiProver.MultiRoundTrip | oracle/crypto/merkleization.go:120-199 | for strictly ascending indices the proof restores the root of the leaves with no decommitment left over; it restores the hash of a list tree exactly if mixing in the length changes nothing |
| MultiProver.ListProofMissesLength | oracle/crypto/merkleization.go:120-166 | a concrete list tree and pair hash whose multi-proof restores a root that is not the hash of the tree |
| SyncCommittee.SwapGroup | oracle/lightclient/light_client.go:210-215 | turns one 32-byte group end for end in place and touches nothing else |
| SyncCommittee.PackBits | oracle/lightclient/light_client.go:210-218 | the emitted words hold bit k of the bit vector as bit k of the contract's bit list, for all 512 bits |
| SyncCommittee.BigEndianBit | oracle/lightclient/light_client.go:216-218 | bit m of a big-endian word is a bit of the byte m / 8 places before the last |
| SyncCommittee.CountMember | oracle/lightclient/light_client.go:148-155 | one member joins either the aggregate key or the list of the missing |
| SyncCommittee.CollectMissing | oracle/lightclient/light_client.go:156-158 | the missing keys are emitted last position first |
| SyncCommittee.MakeCommitteeUpdate | oracle/lightclient/light_client.go:144-218 | panics exactly if nobody signed; otherwise aggregate, missing keys, bit words and decommitments are those of the participation flags |
| SyncCommittee.AggregateMissingPubkeys | contracts/light_client/utils/BeaconLightClientCryptoUtils.sol:8-32 | reverts exactly if the number of keys differs from the number of clear bits; otherwise descending indices of the missing, key hashes in that order and the aggregate plus all keys |
| SyncCommittee.VisitMember | contracts/light_client/utils/BeaconLightClientCryptoUtils.sol:18-29 | one round of the descending loop keeps what is still to come plus what is done equal to the whole |
| SyncCommittee.MissingInLevelOrder | contracts/light_client/utils/BeaconLightClientCryptoUtils.sol:18-29 | the indices derived from any bit list satisfy the order that the multi-proof walk depends on |
| SyncCommittee.SignersPlusMissing | contracts/light_client/utils/BeaconLightClientCryptoUtils.sol:20-29 | adding the missing keys to the signers' sum gives the committee's sum, for any commutative and associative addition |
| SyncCommittee.ProverAgreesWithContract | oracle/lightclient/light_client.go:144-218 | for every committee and bitmap with a signer the contract obtains the missing indices, the full key sum and the root of all keys, with no decommitment left over |
| SyncCommittee.SuppliedKeysAreMissing | contracts/light_client/utils/BeaconLightClientCryptoUtils.sol:8-32 | keys whose hashes restore the committee's root are exactly the keys of the members with clear bits |
| SyncCommittee.AggregateIsSignersSum | contracts/light_client/BeaconLightClient.sol:115-128 | if moreover the sum matches the committee's, the aggregate is the key sum of exactly the flagged members |
| LightClient.HeaderRootIsTreeRoot | contracts/light_client/BeaconLightClient.sol:194-214 | the unrolled header root is the SSZ root of the five-field container |
| LightClient.HeaderRootBinds | contracts/light_client/BeaconLightClient.sol:194-214 | headers with the same root are the same in every field, short of a collision among their own pairs |
| LightClient.SignRootIsTreeRoot | contracts/light_client/BeaconLightClient.sol:131-132 | what is signed is the SSZ root of the container of header root and domain |
| LightClient.ContainerIsTreeRoot | contracts/light_client/BeaconLightClient.sol:125-126 | what is looked for in the head's state is the SSZ root of the container of the keys' root and the aggregate key |
| LightClient.EncodeLittleEndian | contracts/light_client/libraries/LittleEndian.sol:5-12 | the 32 bytes of a word from the last to the first; on 64-bit numbers it equals the prover's encoding |
| LightClient.VerifyCommittee | contracts/light_client/BeaconLightClient.sol:114-128 | accepts exactly the updates whose restored committee container lies in the head's state |
| LightClient.VerifyUpdate | contracts/light_client/BeaconLightClient.sol:80-133 | accepts exactly the updates that pass every check but the clock's; Updates.FinalityBinds, VerifiedUpdateIsSigned and Updates.MadeIsVerified say what that means |
| LightClient.BeaconLightClient.constructor | contracts/light_client/BeaconLightClient.sol:61-74 | starts with the start header as the only header and no candidate |
| LightClient.BeaconLightClient.Step | contracts/light_client/BeaconLightClient.sol:80-148 | reverts or changes head, headers and candidate exactly as StepSpec, whose cases StepCases spells out |
| LightClient.StepCases | contracts/light_client/BeaconLightClient.sol:80-148 | goes through exactly for verified updates in time that move the head, meet no pending candidate, or have more signers than it; with two thirds and finality the finalized header becomes the head and the candidate stays, otherwise the header becomes the candidate and head and headers stay |
| LightClient.BeaconLightClient.ApplyCandidate | contracts/light_client/BeaconLightClient.sol:150-162 | reverts or makes the candidate the head, exactly as its transition function |
| LightClient.CallKeepsTrust | contracts/light_client/BeaconLightClient.sol:80-168 | each call keeps every stored header and candidate justified by an update verified against a stored header |
| LightClient.ChainOfTrust | contracts/light_client/BeaconLightClient.sol:80-168 | in every run the head only grows, no header is rewritten, all slots lie between start and head, and each header is reached from the start by verified updates |
| LightClient.BestCandidate | contracts/light_client/BeaconLightClient.sol:139-147 | in every run the signature count of a pending candidate is the maximum of all verified updates in time that were offered since it was last stale without moving the head, accepted or not; each accepted one improved strictly, at most 503 in all |
| LightClient.TimeoutWaits | contracts/light_client/BeaconLightClient.sol:157-174 | the 64-bit timeout enforces the full wait if and only if time plus UPDATE_TIMEOUT does not wrap |
| LightClient.WrappedTimeoutPasses | contracts/light_client/BeaconLightClient.sol:150-174 | a concrete waiting time with which a candidate can be applied in the very second it is set in |
| LightClient.CandidateApplies | contracts/light_client/BeaconLightClient.sol:150-162 | in every run a pending candidate can be applied if and only if it has stood unreplaced for more than UPDATE_TIMEOUT and its slot is more than a period old; it then is the head |
| LightClient.VerifiedUpdateIsSigned | contracts/light_client/BeaconLightClient.sol:80-133 | against a state that commits to a committee, a verified update carries a signature under the key sum of exactly the flagged members, ten or more |
| Updates.MakeUpdate | oracle/lightclient/light_client.go:136-220 | fails exactly if nobody signed, the signature is bad or the header is not newer; otherwise emits the committee part of the signers, the branch of the current committee and the finality branch |
| Updates.ChooseSigningSlot | oracle/lightclient/light_client.go:77-119 | an error for targets behind or beyond the next period; otherwise finds the highest slot at or below the start whose block has enough signers, unless a request fails before |
| Updates.MadeIsVerified | oracle/lightclient/light_client.go:136-220 | the contract accepts an update so made if and only if ten members signed and it was signed in the head's period, or in the next one while both have the same committee |
| Updates.FoundUpdateIsVerified | oracle/lightclient/light_client.go:77-220 | with the signing block that the search finds, the period and the committees alone decide |
| Updates.WrongIndex | oracle/lightclient/light_client.go:371-389 | the branch of leaf 22 restores the state root under index 55 if and only if leaves 22 and 23 are equal, short of a collision |
| Updates.RejectedUpdate | oracle/lightclient/light_client.go:137-137 | a run of the prover with true states and a full, well signed committee whose update of the next period the contract rejects, for any keys |
| Updates.CommitteeInState | oracle/lightclient/light_client.go:371-389 | leaf 22 of the state tree is where the contract expects the current committee |
| Updates.FinalityInState | oracle/lightclient/light_client.go:191-199 | epoch plus proof of leaf 20 restore the attested state root from the finalized header under index 105 |
| Updates.FinalityBinds | contracts/light_client/BeaconLightClient.sol:109-113 | whatever finality branch a verified update has, its finalized header's root is the one that the attested header's state names, short of a collision; without a branch the finalized header is blank |
| Updates.FinalizedHeaderIsStored | contracts/light_client/BeaconLightClient.sol:133-168 | so the head, or the candidate, that step stores is exactly that finalized header: slot, root and state root |
| Updates.StartsExactly | oracle/lightclient/light_client.go:77-119 | where the search for a signing block starts, and for which targets it does not |
| Trust.AttestedIsReal | contracts/light_client/BeaconLightClient.sol:114-133 | what was verified against a header of the followed chain attests another one, if ten members of a committee never sign anything else together |
| Trust.ActiveIsReal | contracts/light_client/BeaconLightClient.sol:80-133 | and so is the header that the update is about, also a finalized one |
| Trust.OnlyRealHeaders | contracts/light_client/BeaconLightClient.sol:80-168 | safety of the light client: started from a header of the followed chain, in every run every stored header and every pending candidate is a header of that chain, with its slot, root and state root |
| BeaconProofs.RecentRoot | oracle/lightclient/light_client.go:287-294 | state roots entered slot by slot are found at their slot modulo the vector length, for the last vector length of slots |
| BeaconProofs.AncientBatch | oracle/lightclient/light_client.go:295-320 | the list of historical roots has one entry per full batch, and entry i is the batch root of the state at slot (i + 1) times the vector length |
| BeaconProofs.IndexSteps | contracts/amb/TrustlessAMB.sol:147-189 | the index built in place is that of the target's state root extended by the payload header and the field; later targets are refused |
| BeaconProofs.UpperProved | oracle/lightclient/light_client.go:284-320 | in all three ranges the target's state root is proved by the source's |
| BeaconProofs.PayloadProofVerifies | oracle/lightclient/light_client.go:271-326 | for every target up to the source the composed path restores the source's state root under the contract's index |
| BeaconProofs.PayloadProofBinds | contracts/amb/TrustlessAMB.sol:190-192 | any accepted path proves the true payload field of the target, short of a hash collision |
| BeaconProofs.MakeExecutionPayloadReceiptsRootProof | oracle/lightclient/light_client.go:271-326 | fails exactly if the source precedes the target or is unknown; otherwise the composed path, lowest sibling first |
| BeaconProofs.MakeUpperProof | oracle/lightclient/light_client.go:284-320 | takes the same range as the contract and looks up the states of that range |
| BeaconProofs.MakeExecutionPayloadStateRootProof | oracle/lightclient/light_client.go:258-269 | the composed path of the payload's state root within its own slot |
| SlotSearch.Probe | oracle/lightclient/light_client.go:344-357 | zig-zag probing ends at a block, or outside exactly if an odd number of slots below r is empty; it ends at r itself only if that number is even |
| SlotSearch.Round | oracle/lightclient/light_client.go:343-367 | one round keeps the answer between the bounds and narrows them unless the search is stuck |
| SlotSearch.FindSlot | oracle/lightclient/light_client.go:328-369 | what is returned is the lowest slot with at least the target number; it is returned if and only if no or an odd number of slots is empty right below it |
| SlotSearch.SettlesWithoutAdjacentGaps | oracle/lightclient/light_client.go:343-367 | with no two adjacent empty slots the search ends |
| SlotSearch.StuckOnTwoEmptySlots | oracle/lightclient/light_client.go:345-365 | a concrete chain with two empty slots right below the answer, which therefore is not settled |
| SlotSearch.SearchOverTwoEmptySlots | oracle/lightclient/light_client.go:343-367 | on that chain the search is not over after any number of rounds |
| Contracts.Contracts.Move | contracts/omnibridge/tokens/PermittableToken_flat.sol:104-112 | reverts or moves the value, as the ledger function |
| Contracts.Contracts.Mint | contracts/omnibridge/tokens/PermittableToken_flat.sol:412-425 | reverts on overflow or raises supply and balance alike |
| Contracts.Contracts.BurnFrom | contracts/omnibridge/tokens/PermittableToken_flat.sol:147-156 | reverts or lowers balance and supply alike |
| Contracts.Contracts.RequireToPassMessage | contracts/amb/TrustlessAMB.sol:27-46 | reverts above the gas limit; otherwise appends the message and stores its hash under its nonce |
| Contracts.Contracts.PrepareMessage | contracts/omnibridge/upgradeable_contracts/BasicOmnibridge.sol:321-391 | locks the value and names the native token, asking for a bridged one unless its deployment was acknowledged, or burns the value; Passage.DepositArrives says that such messages arrive |
| Contracts.Contracts.SendTokens | contracts/omnibridge/upgradeable_contracts/BasicOmnibridge.sol:300-391 | the message is passed and the operation recorded under its hash, in one step |
| Contracts.Contracts.FixMediatorBalance | contracts/omnibridge/upgradeable_contracts/BasicOmnibridge.sol:244-265 | sends the unaccounted balance, as far as limits allow, or reverts |
| Contracts.Contracts.RequestFailedMessageFix | contracts/omnibridge/upgradeable_contracts/components/common/FailedMessagesProcessor.sol:18-29 | passes a request exactly for failed messages between the two mediators |
| Contracts.Contracts.FixFailedMessage | contracts/omnibridge/upgradeable_contracts/components/common/FailedMessagesProcessor.sol:36-45 | reverts if fixed before or not recorded; otherwise flags and releases |
| Contracts.Contracts.LookUp | contracts/amb/TrustlessAMB.sol:70-110 | accepts a message exactly if the cached or known sentMessages show its hash under its nonce, or contain it for a log, and caches a newly proved array; Passage.LookUpExactly says that the cache makes no difference |
| Contracts.Contracts.GetBridgedTokenOrDeploy | contracts/omnibridge/upgradeable_contracts/BasicOmnibridge.sol:430-458 | returns the registered pair or registers a new one |
| Contracts.Contracts.OnTokenTransfer | contracts/omnibridge/upgradeable_contracts/components/common/TokensRelayer.sol:24-45 | does nothing while locked, and a deposit otherwise |
| Contracts.Contracts.Pull | contracts/omnibridge/upgradeable_contracts/components/common/TokensRelayer.sol:98-116 | sets the lock, pulls the tokens in with whatever their code does besides, and clears the lock |
| Contracts.Contracts.RelayTokens | contracts/omnibridge/upgradeable_contracts/components/common/TokensRelayer.sol:98-116 | locks around the pull and deposits the difference of balances |
| Contracts.Contracts.Deposit | contracts/omnibridge/upgradeable_contracts/HomeOmnibridge.sol:142-172 | checks, registers, takes the fee and sends the rest |
| Contracts.Contracts.DepositFee | contracts/omnibridge/upgradeable_contracts/modules/fee_manager/OmnibridgeFeeManagerConnector.sol:58-99 | outgoing fee: transferred and distributed, or the deposit fails |
| Contracts.Contracts.HandleFee | contracts/omnibridge/upgradeable_contracts/modules/fee_manager/OmnibridgeFeeManagerConnector.sol:58-99 | incoming fee: a failing payment is undone and counts as no fee |
| Contracts.Contracts.Release | contracts/omnibridge/upgradeable_contracts/ForeignOmnibridge.sol:132-180 | unlocks or mints; the foreign side reduces its balance first, the home side last |
| Contracts.Contracts.HandleTokens | contracts/omnibridge/upgradeable_contracts/HomeOmnibridge.sol:108-132 | refuses while locked; takes the fee and releases the rest |
| Contracts.Contracts.HandleMessage | contracts/omnibridge/upgradeable_contracts/BasicOmnibridge.sol:67-188 | the handle entry points, with a callback whose failure is undone and ignored |
| Contracts.Contracts.CallReceiver | contracts/amb/TrustlessAMB.sol:112-120 | calls the receiver; a failing call leaves the storage as it was |
| Contracts.Contracts.ExecuteMessage | contracts/amb/TrustlessAMB.sol:59-124 | reverts or executes the message once, records its outcome and clears the open delivery |
| Contracts.Contracts.Transact | contracts/amb/TrustlessAMB.sol:59-236 | a call that reverts leaves no trace |
| CustodySteps.RecordStep | contracts/omnibridge/upgradeable_contracts/BasicOmnibridge.sol:300-314 | sending a recorded transfer puts exactly its value under way |
| CustodySteps.MarkFixedStep | contracts/omnibridge/upgradeable_contracts/components/common/FailedMessagesProcessor.sol:36-45 | flagging a failed transfer takes exactly its value off the way |
| CustodySteps.DeployStep | contracts/omnibridge/upgradeable_contracts/BasicOmnibridge.sol:430-458 | a new bridged token stands for a token of which nothing was issued |
| CustodySteps.CloseStep | contracts/amb/TrustlessAMB.sol:118-124 | recording success settles exactly the executed message; recording failure leaves it under way |
| CustodySteps.LookUpStep | contracts/amb/TrustlessAMB.sol:70-110 | an accepted message is one that the other chain has sent, also through a cached older root |
| CustodySteps.NewMessage | contracts/amb/TrustlessAMB.sol:27-46 | a new message was neither executed nor refunded before |
| CustodyRuns.HandleTokensKeeps | contracts/omnibridge/upgradeable_contracts/HomeOmnibridge.sol:108-132 | an arrival takes its whole value off the receiving side, whichever way the fee goes and whatever reenters |
| CustodyRuns.FixFailedMessageKeeps | contracts/omnibridge/upgradeable_contracts/components/common/FailedMessagesProcessor.sol:36-45 | a refund balances, whatever reenters while it is paid |
| CustodyRuns.DepositKeeps | contracts/omnibridge/upgradeable_contracts/HomeOmnibridge.sol:142-172 | a deposit balances: what is locked or burned is what is under way |
| CustodyRuns.ExecuteKeeps | contracts/amb/TrustlessAMB.sol:59-124 | an execution balances, succeeding or failing |
| CustodyRuns.RunKeeps | contracts/amb/TrustlessAMB.sol:59-236 | every call keeps the invariant of both chains and the balance of every token, to any depth of reentrancy |
| CustodyRuns.RunAllKeeps | contracts/amb/TrustlessAMB.sol:112-120 | so does everything that unmodelled code does within a call |
| TwoChains.EveryRunIsSafe | contracts/amb/TrustlessAMB.sol:27-236 | every run of both chains keeps the invariant and leaves every token in balance |
| TwoChains.Conservation | contracts/omnibridge/upgradeable_contracts/BasicOmnibridge.sol:321-421 | in every reachable state the mediator's book balance is the bridged supply plus what holders burned plus all transfers in either direction neither executed nor refunded |
| TwoChains.TransfersAreCovered | contracts/omnibridge/upgradeable_contracts/BasicOmnibridge.sol:408-421 | the balance subtraction cannot fail for a transfer that is still open |
| TwoChains.AtMostOnceDelivery | contracts/amb/TrustlessAMB.sol:59-124 | in every run each message reached its receiver at most once, and exactly the executed ones did |
| TwoChains.ExecutedImpliesSent | contracts/amb/TrustlessAMB.sol:66-110 | in every run every executed message is in the other chain's log |
| TwoChains.RefundExcludesExecution | contracts/omnibridge/upgradeable_contracts/components/common/FailedMessagesProcessor.sol:18-45 | a refunded message failed, is never executed later and never refunded again |
| TwoChains.OutcomesAreTerminal | contracts/amb/TrustlessAMB.sol:66-68 | a recorded outcome never changes and its message cannot be executed again |
| TwoChains.DeliveriesDoNotNest | contracts/amb/TrustlessAMB.sol:112-120 | reentrant code can neither open another delivery nor change the open one, whose sender is the true one |
| TwoChains.PlaySwap | contracts/omnibridge/upgradeable_contracts/BasicOmnibridge.sol:158-171 | what holds of one side in every run holds of the other |
| Records.LookUpKeeps | contracts/amb/TrustlessAMB.sol:70-110 | a lookup caches what the light client shows, and the message it finds was sent |
| Records.SendTokensKeeps | contracts/omnibridge/upgradeable_contracts/BasicOmnibridge.sol:335-374 | a transfer that does not ask for a deployment is of a token that has a bridged one on the other side |
| Records.AcknowledgeKeeps | contracts/omnibridge/upgradeable_contracts/BasicOmnibridge.sol:158-188 | a transfer back acknowledges a deployment that did take place |
| Records.RunKeeps | contracts/amb/TrustlessAMB.sol:59-236 | every call, to any depth of reentrancy, keeps caches, acknowledgements and the registry true of the other chain, the books within a word, and the lock as it was |
| Records.EveryRunIsReady | contracts/amb/TrustlessAMB.sol:27-236 | in every reachable state this holds of both sides and no lock is set |
| Records.BridgedIsNative | contracts/omnibridge/upgradeable_contracts/BasicOmnibridge.sol:430-458 | in every reachable state a token with a bridged one on the other side is a registered native token on its own side |
| Passage.LookUpExactly | contracts/amb/TrustlessAMB.sol:70-110 | in every state with sound records a lookup succeeds if and only if the light client shows the message, cached or not |
| Passage.SlotServesAll | contracts/amb/TrustlessAMB.sol:69-93 | a slot that shows a message serves its execution after any further events, so one slot serves any number of messages |
| Passage.HandlesExactly | contracts/omnibridge/upgradeable_contracts/BasicOmnibridge.sol:67-188 | exactly when the handle entry points go through, and what they hand out before the callback runs |
| Passage.TransferArrives | contracts/omnibridge/upgradeable_contracts/BasicOmnibridge.sol:67-188 | in every reachable state a transfer without outcome, once shown, is executed with success if and only if it passes: gas, limits, a name and a fresh contract if a bridged token must be created, a fee within the value, the tokens to unlock, no overflow; then value less fee is paid and the callback runs |
| Passage.TransferCrosses | contracts/amb/TrustlessAMB.sol:59-124 | two events, a sync and the execution, are enough for that |
| Passage.ForeignTransferCrosses | contracts/amb/TrustlessAMB.sol:59-124 | the same for transfers of the other side |
| Passage.MessageIsExecuted | contracts/amb/TrustlessAMB.sol:59-124 | every message without outcome, once shown, gets one; a receiver other than the mediator is called with the message's sender as messageSender, and its success is the outcome |
| Passage.TransferSettles | contracts/amb/TrustlessAMB.sol:112-124 | whatever the environment does meanwhile, an executed transfer either succeeded or is one that Recovery refunds |
| Passage.DepositIsUnderWay | contracts/omnibridge/upgradeable_contracts/HomeOmnibridge.sol:142-172 | in every reachable state the last message after a deposit is its own, is not executed yet and carries what came in less the fee |
| Passage.DepositArrives | contracts/omnibridge/upgradeable_contracts/BasicOmnibridge.sol:321-391 | from end to end: a deposit that goes through, a sync and an execution end with the value less both fees paid on the other side, if and only if the transfer passes there |
| Passage.ForeignDepositArrives | contracts/omnibridge/upgradeable_contracts/BasicOmnibridge.sol:321-391 | the same for deposits of the other side |
| Passage.UnlockIsCovered | contracts/omnibridge/upgradeable_contracts/BasicOmnibridge.sol:408-421 | the native tokens that a transfer back is to unlock are there in every reachable state, for tokens that do not tamper with the mediator |
| Outcomes.DepositExactly | contracts/omnibridge/upgradeable_contracts/HomeOmnibridge.sol:142-172 | a deposit goes through if and only if receiver, token, limits, gas, fee, name and overflow allow it, all in terms of the state before |
| Outcomes.RelayExactly | contracts/omnibridge/upgradeable_contracts/components/common/TokensRelayer.sol:98-116 | so does relayTokens as a whole, if moreover it is not locked and the tokens can be pulled in |
| Outcomes.TransferExactly | contracts/omnibridge/upgradeable_contracts/components/common/TokensRelayer.sol:24-45 | and a transfer with callback |
| Outcomes.PlainTransferExactly | contracts/omnibridge/tokens/PermittableToken_flat.sol:104-112 | any other transfer moves the value and does nothing else |
| Outcomes.BurnExactly | contracts/omnibridge/tokens/PermittableToken_flat.sol:147-156 | when a holder can burn, and exactly what that changes |
| Outcomes.FixExactly | contracts/omnibridge/upgradeable_contracts/BasicOmnibridge.sol:244-265 | fixMediatorBalance goes through exactly for a registered native token with something unaccounted, and sends it, up to the limit, in one message without a call; the books then say what was there or the limit added |
| Outcomes.PassExactly | contracts/amb/TrustlessAMB.sol:27-46 | requireToPassMessage appends the caller's message under the next nonce, exactly within the gas limit |
| Outcomes.RequestExactly | contracts/omnibridge/upgradeable_contracts/components/common/FailedMessagesProcessor.sol:18-29 | a refund can be requested exactly for messages between the mediators that were executed without success |
| Outcomes.ExecuteExactly | contracts/amb/TrustlessAMB.sol:59-124 | an execution goes through exactly once, for messages that can be looked up while nothing else is executed, and records success or failure of the call |
| Outcomes.ReceiverIsCalled | contracts/amb/TrustlessAMB.sol:112-120 | any other receiver's code runs, and its success is that of the call |
| Outcomes.FeeExactly | contracts/omnibridge/upgradeable_contracts/modules/fee_manager/OmnibridgeFeeManagerConnector.sol:58-99 | the fee on the way in is due exactly if it can be paid, and only its distribution can fail the transfer |
| Outcomes.ReleaseExactly | contracts/omnibridge/upgradeable_contracts/ForeignOmnibridge.sol:132-180 | exactly when an unlock or a mint goes through, in either order of payment and books |
| Outcomes.HandlingExactly | contracts/omnibridge/upgradeable_contracts/HomeOmnibridge.sol:108-132 | exactly when an arriving value is handed out, and that it is: the fee due, then the rest |
| Outcomes.RefundExactly | contracts/omnibridge/upgradeable_contracts/components/common/FailedMessagesProcessor.sol:36-45 | exactly when a refund goes through |
| Recovery.StuckTransferIsRefunded | contracts/omnibridge/upgradeable_contracts/components/common/FailedMessagesProcessor.sol:18-45 | in every reachable state a failed, unrefunded transfer whose refund can be paid is refunded by three events: request, sync and execution; the recorded account gets the recorded value |
| Recovery.ForeignTransferIsRefunded | contracts/omnibridge/upgradeable_contracts/components/common/FailedMessagesProcessor.sol:18-45 | the same for transfers of the other side |
| Recovery.FairRefundIsPayable | contracts/omnibridge/upgradeable_contracts/components/common/FailedMessagesProcessor.sol:36-45 | the refund of a native token can be paid unless the account is zero or its balance overflows |
| Deployment.SyncContracts | contracts/amb/TrustlessAMB.sol:40-42 | a light client learns the first entries of the array that the other chain's contract really stores |
| Deployment.PlayEvents | contracts/amb/TrustlessAMB.sol:27-236 | any events on the two contract objects lead to the storage that the run of the bridge has |
| Deployment.RunBridge | contracts/omnibridge/upgradeable_contracts/BasicOmnibridge.sol:321-421 | after any events the fields of the two contract objects satisfy the conservation equation, each message was delivered at most once, and the books are covered by balances |
| StorageProofs.CheckMessage | contracts/amb/TrustlessAMB.sol:70-110 | accepts exactly if the branch, the account proof and the storage proof, read byte by byte, show the message hash; a cached storage root replaces the first two |
| StorageProofs.SlotKeyOfMapping | contracts/amb/TrustlessAMB.sol:105-106 | the key computed for a nonce is that of the entry of the mapping in storage slot 0, by Solidity's layout and the hashed keys of a storage trie |
| StorageProofs.UnknownSlotIsRefused | contracts/amb/TrustlessAMB.sol:73-75 | with the state root of a slot that the light client does not have no account proof is accepted |
| StorageProofs.StorageRootIsTrue | contracts/amb/TrustlessAMB.sol:72-95 | whatever branch and nodes are supplied, an accepted account proof shows the storage root of the other contract in that state |
| StorageProofs.StoredWordAtNonce | contracts/amb/TrustlessAMB.sol:97-110 | under the true storage root, for a nonce in use, only the hash that the array holds there is accepted |
| StorageProofs.StoredWordIsSent | contracts/amb/TrustlessAMB.sol:97-110 | for any nonce, an accepted hash is in the array unless another word of the storage happens to equal it |
| StorageProofs.CheckedMessageWasSent | contracts/amb/TrustlessAMB.sol:70-110 | a message that passes stands at its nonce in sentMessages as of that state, and then the bridge's lookup succeeds, whether that array is cached or not; only for a nonce not yet in use something is supposed of other words and messages |
| StorageProofs.SentMessagePasses | contracts/amb/TrustlessAMB.sol:70-110 | with the prover's branch and the nodes of both tries, every sent message passes |
| ReceiptProofs.FindLog | contracts/amb/TrustlessAMB.sol:195-213 | reads the receipt, typed or not, the log of the given number, its emitter and two topics, or reverts |
| ReceiptProofs.ReceiptRead | contracts/amb/TrustlessAMB.sol:195-213 | of every receipt the reader finds exactly its logs, each with its own emitter and topics |
| ReceiptProofs.ShownLogWasEmitted | contracts/amb/TrustlessAMB.sol:195-213 | under the true receipts root, whatever transaction index, log number and nodes are supplied, an accepted log was emitted |
| ReceiptProofs.LoggedMessageWasSent | contracts/amb/TrustlessAMB.sol:135-213 | a message accepted from a log is in sentMessages as of the target slot, which is what the bridge's lookup asks |
| ReceiptProofs.IndexExactly | contracts/amb/TrustlessAMB.sol:238-248 | the query starts with the key of transaction v if and only if v is 0 or from 128 to 65535; for 1 to 127 it is the query for transaction 0 |
| ReceiptProofs.LogIsShown | contracts/amb/TrustlessAMB.sol:195-213 | for those indices, with the honest nodes, exactly the logs of the transaction's receipt are shown |
| ReceiptProofs.LoggedMessagePasses | contracts/amb/TrustlessAMB.sol:135-213 | so with the prover's path and nodes all checks pass, for every target up to the source |
| ReceiptProofs.LowIndexShowsFirst | contracts/amb/TrustlessAMB.sol:238-248 | for the indices 1 to 127, whatever nodes are accepted, the log shown is one of transaction 0 |
| Locked.RunAllLocked | contracts/omnibridge/upgradeable_contracts/components/common/TokensRelayer.sol:107-115 | while the lock is set, a tree of calls keeps it; it sends a transfer of a token if a fixMediatorBalance call for it goes through on the way, and otherwise neither sends, records nor books one |
| Locked.DeliverLocked | contracts/amb/TrustlessAMB.sol:112-120 | the same for deliveries: arriving transfers are refused, refunds and other messages go through |
| Locked.PullLocked | contracts/omnibridge/upgradeable_contracts/components/common/TokensRelayer.sol:107-113 | whatever a token does while it is pulled in, nothing is deposited of a token, or of any, if and only if no fixMediatorBalance call for it goes through |
| Locked.NothingFixes | contracts/omnibridge/upgradeable_contracts/BasicOmnibridge.sol:244-265 | none goes through if none is called at any depth |
| Deposits.RelayOnce | contracts/omnibridge/upgradeable_contracts/components/common/TokensRelayer.sol:98-116 | for any token and any code of it: exactly what the mediator's balance grew by, at most the value asked for, is deposited in one message; before that nothing is, if and only if no fixMediatorBalance call goes through meanwhile |
| Deposits.PlainRelay | contracts/omnibridge/upgradeable_contracts/components/common/TokensRelayer.sol:98-116 | a token that just moves its value is deposited whole: one message with value less fee, the fee with the fee manager |
| Deposits.FixMeanwhileCountsTwice | contracts/omnibridge/upgradeable_contracts/BasicOmnibridge.sol:244-265 | a concrete pull during which the owner fixes the balance: the same tokens are bridged twice and the books exceed the holdings |
| Deposits.TransferOnce | contracts/omnibridge/upgradeable_contracts/components/common/TokensRelayer.sol:24-45 | a transfer with callback deposits its whole value, with whatever reenters from the fee; if nothing does, with the same effect as relayTokens |
| Deposits.DepositOnce | contracts/omnibridge/upgradeable_contracts/HomeOmnibridge.sol:142-172 | the fee is moved once, its hooks run, and then one message locks or burns exactly the rest; if nothing reenters, this is all that happens |
| Deposits.DepositSendsLast | contracts/omnibridge/upgradeable_contracts/HomeOmnibridge.sol:142-172 | whatever reenters from the fee payment, the deposit's own message is the last one; it goes to the other mediator for the native token, with the receiver, value, call flag and gas limit asked for, and asks for a deployment exactly if none was acknowledged |
| Deposits.ForcedTokensCanBeSent | contracts/omnibridge/upgradeable_contracts/BasicOmnibridge.sol:244-265 | tokens transferred without callback send nothing and can be bridged afterwards, exactly |
| Arrivals.HandleTokensPays | contracts/omnibridge/upgradeable_contracts/HomeOmnibridge.sol:108-132 | whatever reenters: one payment of the fee, if it does not fail, and one of the rest to the recipient, and the native side's books go down by the value; otherwise nothing else changes |
| Arrivals.RefundPays | contracts/omnibridge/upgradeable_contracts/BasicOmnibridge.sol:205-211 | whatever reenters, a refund is one payment of the recorded value to the recorded account, without a fee |
| Solvency.DepositDrops | contracts/omnibridge/upgradeable_contracts/HomeOmnibridge.sol:142-172 | a deposit lowers what the mediator has beyond its books by the deposited value at most, whatever reenters |
| Solvency.RelayCosts | contracts/omnibridge/upgradeable_contracts/components/common/TokensRelayer.sol:98-116 | relayTokens lowers it by no more than what was booked during the pull, whatever the pulled token's code did, taking a cut included |
| Solvency.RelayDrops | contracts/omnibridge/upgradeable_contracts/components/common/TokensRelayer.sol:98-116 | so relayTokens does not lower it unless a fixMediatorBalance call for that token goes through during the pull |
| Solvency.RunDrops | contracts/amb/TrustlessAMB.sol:59-236 | no call lowers it, to any depth of reentrancy |
| Solvency.BooksAreCovered | contracts/omnibridge/upgradeable_contracts/BasicOmnibridge.sol:244-421 | in every reachable state the mediator holds at least what its books say of a native token, if the token's code tampers with the mediator at most while it is pulled in and the owner fixes balances of it from outside only |
| Solvency.ForeignBooksAreCovered | contracts/omnibridge/upgradeable_contracts/BasicOmnibridge.sol:244-421 | the same on the other side |
| Solvency.BridgedSupplyIsBacked | contracts/omnibridge/upgradeable_contracts/BasicOmnibridge.sol:321-421 | so bridged supply, burned tokens and transfers under way never exceed the native tokens that the mediator holds |
| Arrivals.FailedExecutionPaysNothing | contracts/amb/TrustlessAMB.sol:117-124 | a failed execution changes nothing but the recorded outcome |
| Arrivals.CoveredUnlockSucceeds | contracts/omnibridge/upgradeable_contracts/ForeignOmnibridge.sol:75-92 | an unlock within the limits that the holdings cover succeeds |
| FeeManager.CheckRewardList | contracts/omnibridge/upgradeable_contracts/modules/fee_manager/OmnibridgeFeeManager.sol:44-56 | accepts exactly lists of at most 50 valid accounts without duplicates |
| FeeManager.OmnibridgeFeeManager.constructor | contracts/omnibridge/upgradeable_contracts/modules/fee_manager/OmnibridgeFeeManager.sol:39-58 | the list is stored, and every token has the rate given for each direction |
| FeeManager.OmnibridgeFeeManager.SetFee | contracts/omnibridge/upgradeable_contracts/modules/fee_manager/OmnibridgeFeeManager.sol:101-108 | exactly for the owner and rates below 100%; the rate is then in force in that direction for the token, or, for token 0, for all tokens without a rate of their own, and nothing else changes |
| FeeManager.OmnibridgeFeeManager.GetFee | contracts/omnibridge/upgradeable_contracts/modules/fee_manager/OmnibridgeFeeManager.sol:115-123 | the rate stored for the token, or else the one stored for token 0, in the same direction |
| FeeManager.OmnibridgeFeeManager.DefaultCounts | contracts/omnibridge/upgradeable_contracts/modules/fee_manager/OmnibridgeFeeManager.sol:115-123 | a token without a rate of its own has the default rate of the direction |
| FeeManager.OmnibridgeFeeManager.LastRateCounts | contracts/omnibridge/upgradeable_contracts/modules/fee_manager/OmnibridgeFeeManager.sol:115-123 | a rate set for a token, 0 included, overrides the default |
| FeeManager.OmnibridgeFeeManager.CalculateFee | contracts/omnibridge/upgradeable_contracts/modules/fee_manager/OmnibridgeFeeManager.sol:132-142 | nothing without reward accounts, else the largest amount within the rate of the token, or of its direction if it has none; less than any positive value |
| FeeManager.EachWayItsRate | contracts/omnibridge/upgradeable_contracts/modules/fee_manager/OmnibridgeFeeManager.sol:101-142 | a concrete manager with 1% out and 2% back: of 100 it takes 1 and 2, and 3 out after the token got a rate of its own |
| FeeManager.FeeIsRoundedDown | contracts/omnibridge/upgradeable_contracts/modules/fee_manager/OmnibridgeFeeManager.sol:132-142 | the fee is the largest amount within the rate |
| FeeManager.OmnibridgeFeeManager.IsRewardAddress | contracts/omnibridge/upgradeable_contracts/modules/fee_manager/OmnibridgeFeeManager.sol:198-205 | tells exactly the listed accounts |
| FeeManager.OmnibridgeFeeManager.AddRewardAddress | contracts/omnibridge/upgradeable_contracts/modules/fee_manager/OmnibridgeFeeManager.sol:149-154 | appends exactly valid, unlisted accounts while there is room |
| FeeManager.OmnibridgeFeeManager.RemoveRewardAddress | contracts/omnibridge/upgradeable_contracts/modules/fee_manager/OmnibridgeFeeManager.sol:163-175 | removes exactly the account, keeps all others and no duplicates |
| FeeManager.OmnibridgeFeeManager.DistributeFee | contracts/omnibridge/upgradeable_contracts/modules/fee_manager/OmnibridgeFeeManager.sol:211-228 | reverts if the token refuses an account; else each account gets what its places in the list give, and the whole balance leaves if and only if the manager is not listed or has nothing to get |
| FeeManager.ReceivedNothing | contracts/omnibridge/upgradeable_contracts/modules/fee_manager/OmnibridgeFeeManager.sol:211-228 | an account gets nothing exactly if it is not listed, there is no fee, or the fee is too small to be divided and goes to another one |
| FeeManager.ListedManagerKeepsShare | contracts/omnibridge/upgradeable_contracts/modules/fee_manager/OmnibridgeFeeManager.sol:211-228 | a concrete list with the manager in it: of 10, 5 stay with the manager |
| FeeManager.SharesAreEqual | contracts/omnibridge/upgradeable_contracts/modules/fee_manager/OmnibridgeFeeManager.sol:211-228 | all accounts get the same whole part of the fee, and one of them what is left over, less than one unit per account |
| FeeManager.SharesAddUp | contracts/omnibridge/upgradeable_contracts/modules/fee_manager/OmnibridgeFeeManager.sol:211-228 | the shares of all accounts are the whole fee |
| FeeManager.ReceivedShare | contracts/omnibridge/upgradeable_contracts/modules/fee_manager/OmnibridgeFeeManager.sol:211-228 | each listed account gets its share and nobody else gets anything |
| Rlp.NumItems | contracts/amb/libraries/RLPReader.sol:258-270 | the number of items in the payload, or a revert |
| Rlp.ToList | contracts/amb/libraries/RLPReader.sol:104-119 | both passes agree: the spans of all items of the payload, or a revert |
| Rlp.ItemRead | contracts/amb/libraries/RLPReader.sol:273-330 | item length and payload offset of every encoded item are those of its encoding, and lists are told from strings |
| Rlp.ListRoundTrip | contracts/amb/libraries/RLPReader.sol:104-119 | toList on the encoding of a list yields exactly the spans of its elements |
| Rlp.NestedRoundTrip | contracts/amb/libraries/RLPReader.sol:104-134 | every nested item is read back from its canonical encoding, wherever that stands |
| Rlp.BytesRoundTrip | contracts/amb/libraries/RLPReader.sol:238-251 | toBytes on the encoding of a string returns the string |
| Rlp.UintRoundTrip | contracts/amb/libraries/RLPReader.sol:206-222 | toUint on up to 32 bytes returns the number they stand for, 0 for none through the division by 0 |
| Rlp.NumberRoundTrip | contracts/amb/libraries/RLPReader.sol:206-222 | every number below 2^256 survives its canonical encoding |
| Rlp.StrictUintRoundTrip | contracts/amb/libraries/RLPReader.sol:225-236 | a 32-byte string is read alike by toUintStrict and toUint |
| Rlp.NumbersExactly | contracts/amb/libraries/RLPReader.sol:206-236 | toUint reads strings of up to 32 bytes and no longer ones, toUintStrict those of 32 bytes, toList none |
| Rlp.SpansTile | contracts/amb/libraries/RLPReader.sol:104-119 | of arbitrary memory toList takes exactly the spans that lie one behind the other, each as long as its prefix says, until the end is reached or passed |
| Rlp.Memory.Copy | contracts/amb/libraries/RLPReader.sol:336-358 | word-wise copying with a masked tail changes exactly len bytes, to those of the source |
| Rlp.Memory.ToBytes | contracts/amb/libraries/RLPReader.sol:238-251 | the copy in fresh memory holds the payload, and memory in use stays as it was |
| Rlp.MergedBytes | contracts/amb/libraries/RLPReader.sol:349-356 | the masks keep the leading source bytes and the trailing destination bytes |
| Mpt.ReadProof | contracts/amb/libraries/MPT.sol:21-46 | the loop computes the recursive reading of the node list |
| Mpt.PathDecoded | contracts/amb/libraries/MPT.sol:16-19 | length and kind are read back from every hex-prefixed path |
| Mpt.NodeVisited | contracts/amb/libraries/MPT.sol:27-42 | of every stored node the reader takes the value, or the hash of the child that the key selects |
| Mpt.HonestProofReads | contracts/amb/libraries/MPT.sol:21-46 | from the honest node list every key that the trie holds is read with its value |
| Mpt.AcceptedProofIsSound | contracts/amb/libraries/MPT.sol:21-46 | a value read from any accepted list is held by a leaf that agrees with the query at every branch; it is the queried key's value if and only if the trie holds that key |
| Mpt.OneLeafAnswersAll | contracts/amb/libraries/MPT.sol:30-36 | a trie of one leaf, stored honestly, answers every query with the leaf's value, also for keys it does not hold |
| Mpt.UnheldKeyIsAnswered | contracts/amb/libraries/MPT.sol:30-36 | a concrete trie that holds 7 for key 0 only answers the query for key 1 with 7 |
| Mpt.LookupFollowsLeafKey | contracts/amb/libraries/MPT.sol:27-42 | for a key that the trie holds and the query starts with, the leaf reached has that key |

## Left out

- BLS arithmetic, hash-to-curve, key compression flags, SHA-256 and keccak: parameters of the model.
- HTTP, JSON and SSZ decoding, configuration and sending of transactions: the prover's inputs are given values, and the beacon node's answers while it looks for a signing block are a function of the slot.
- Updates.MakeUpdate: swaps the bytes of the bit vector before its last checks, not after them, which only shows in the discarded vector of an update that is not made.
- SyncCommittee: the committee size is fixed to 512, as in the contract.
- Merkleization.NewListMerkleTree: the bit test for a power of two is stated as a property of the limit.
- Packing.NewPackedListMerkleTree: proofs of trees whose unchecked limit is no power of two are not considered.
- MultiProver.MultiRoundTrip: is claimed for strictly ascending indices only, which is how the prover calls it; for others MakeMultiProof is shown to emit what its sweep yields, no more.
- Contracts.Contracts.LookUp: takes the other chain's sentMessages at a slot as known; that the byte-level checks imply this is proved apart, in StorageProofs and ReceiptProofs, under the hypotheses named there.
- StorageProofs.StoredWordIsSent: supposes that no other word of the contract's storage equals the message hash.
- ReceiptProofs.LoggedMessageWasSent: supposes that all values of the receipts trie are receipts and that the contract emits its event for sent messages only.
- Trust.OnlyRealHeaders: supposes that ten members of a committee of the followed chain never sign another header together, and that the hashes of the submitted updates do not collide with those of the chain.
- Passage.TransferArrives: the token, the fee manager and the receiver's token code do not call back, but may refuse; a transfer for which they do otherwise settles all the same, which Passage.TransferSettles shows without that supposition.
- Outcomes.DepositExactly: no code calls back on the way; with other code Deposits.DepositOnce and Locked say what happens.
- Updates.FoundUpdateIsVerified: supposes slots far below 2^64, and that finalized, attested and signing block follow each other as on a chain.
- Solvency.BooksAreCovered: does not extend to tokens whose own code, outside of a pull, changes the mediator's balance or reports transfers that did not take place, nor to fixMediatorBalance called for the token from within another call.
- Recovery.StuckTransferIsRefunded: the refunded token and the delivery do not call back and the call has enough gas; with other code a refund may fail and be tried again.
- Bridge: daily limits, gas and token decimals are flags of the environment, which may reject a call; allowances, permits and expirations are not modelled.
- Bridge: a new bridged token gets any address that was never registered; the factory is not modelled.
- Interest modules, the minting branch for one hard-coded token, setCustomTokenAddressPair, claimTokens, ownership and proxies.
- rlpIndex: ReceiptProofs.RlpIndex gives the bytes that its shifts compose.
- Rlp: toBoolean and the iterator.
- Mpt: tries whose nodes embed short children instead of their hashes, and values at branches; the code reads neither.
- LightClientChain.sol and the mocks.
- FeeManager.OmnibridgeFeeManager.DistributeFee: the token moves balances or refuses; callbacks are covered by the hooks of Bridge.
- LightClient.BeaconLightClient.constructor: initialization of proxies is assumed to happen once.
