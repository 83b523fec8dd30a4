# Distributed validator cluster: verified model

This project models four parts of a distributed validator client and proves what they promise.

- **The key generation ceremony** (`dkg/`). Peers exchange FROST messages, partial signatures and node signatures in any
  order, and every node iterates over its maps in any order. `Mailbox`, `Frost` and `FrostRounds` model the transport and
  the sorting of its messages, `Shares` the key shares, `Exchanger` the exchange of partial signatures over one untyped
  channel, `Aggregation` and `DistValidators` the signing, aggregation and assembly of validators, `NodeSigs` the exchange
  of node signatures, `DefinitionVerify` and `LockVerify` the verification of a definition and of a lock. `Ceremony` and
  `Agreement` draw the conclusions: all nodes that finish hold the same lock, and that lock passes its own verification.
  `LockIntegrity` adds that no other lock does with its multi-signature, and that storing a lock changes nothing about
  its acceptance. `Witness` exhibits a ceremony of two nodes that finishes on both.
- **The deadliner** (`core/deadline.go`), a scheduler with a pending set, a cached earliest duty and a timer: `Deadliner`.
- **The versioned SSZ codec with format sniffing** (`core/ssz.go`, `core/proto.go`): `Bytes`, `Containers`,
  `VersionedSsz`, `ProtoCodec`.
- **Hashing and persistence of the cluster definition and lock** (`cluster/`) in all schema versions v1.0 to v1.10:
  `Merkle`, `Hex`, `Definition`, `DefinitionBinding`, `DefinitionStore`, `Lock`, `LockBinding`, `LegacyBinding`,
  `LockStore`.

`Prelude` and `Sorting` hold shared definitions.

## How it is modelled

Protocols are state machines: a `State`, an `Event`, a `Next` relation and a `Run` over all interleavings. The code of a
step is a method, usually of a class with the fields of the source, whose contract equates the new state with the step.
Loops over Go maps take keys from a set with `:|`, so that what is proved holds for every iteration order.

Libraries are datatypes of function values with stated laws:

- `Aggregation.Bls`: keys have 48 bytes and signatures 96, a key has one valid signature for each message, and aggregates
  and their verification depend on what is aggregated but not on its order. Where tampering is concerned,
  `LockIntegrity.SignsOnly` adds that the given multi-signature verifies for no second hash.
- `NodeSigs.K1`: a signature verifies under its own key, and an empty string never verifies.
- `DistValidators.Eth2`: execution addresses have 20 bytes, and only a fork version of 4 bytes names a network.
- `Agreement.Library`: the broadcasts of round 1 determine the group key of a validator.
- `DefinitionVerify.Eip712`: digests and checks are arbitrary functions that may fail.
- JSON decoders in `ProtoCodec.JsonLib` are arbitrary functions.

A hash is a symbolic, collision-free tree: `Merkle.Chunk` is a 32-byte leaf or a pair.

What the surroundings guarantee is assumed. Peers are authenticated, every peer has its own share index from 1 to n, a
broadcast reaches all nodes with the same body and is not delivered to its own sender, the clock is monotone and reads
times before the year 9999, and timers are never early. A Go runtime panic counts as a failure.

Where the code differs from what is said about it, the code is followed:

- The comment on `getCurrDuty` (core/deadline.go:217) speaks of the latest deadline; the code selects the earliest.
- A validator index that is absent from a versioned attestation is promised to survive encoding. It does unless the low
  half of the slot reads as 20; `VersionedSsz.ShortFormRoundTrip` gives the exact condition and
  `VersionedSsz.ShortFormOfSlot20IsLost` a family of lost values.
- A definition hash is meant to identify a definition. Before v1.5 an empty byte field adds no chunk, so that a lone fee
  recipient and a lone withdrawal address hash alike (`LegacyBinding.LoneAddressesCollide`);
  `LegacyBinding.EveryDefinitionHashBinds` proves the binding for definitions that agree on which fields are empty.
- A definition before v1.5 with addresses but without validators is written and read back with other hashes;
  `DefinitionStore.DefinitionPersists` gives the exact condition.
- `from0xHex` (cluster/helpers.go:251) wraps a nil error for a wrong length; the wrapper returns an error nevertheless.

## Model

| member | source | states |
|---|---|---|
| Agreement.CeremonyAgrees | dkg/dkg.go:235-298 | Any two nodes that go through all steps, given as runs of both broadcast rounds over the same bodies and of the exchanges, hold the same lock, for all orders of messages, partial signatures, concurrent calls and maps |
| Agreement.CeremonyVerifies | dkg/dkg.go:306-326 | The lock of such a node, completed with the node signatures that a run of their exchange returned, passes VerifySignatures exactly if the signatures of the definition do |
| Agreement.ParticipantFinishes | dkg/dkg.go:235-298 | Such a node generated its keys from accepted messages and aggregated complete data of the right types |
| Agreement.SameBodiesOfRuns | dkg/frostp2p.go:256-345 | Two complete runs of a round over the same broadcasts received the same messages |
| Agreement.SharesAgree | dkg/frost.go:50-84 | Such nodes have one share for each validator in the same order, with equal group keys and public shares, and all public shares belong to nodes of the cluster |
| Agreement.RoundIsAccepted | dkg/frostp2p.go:296-317 | In every run of the transport, a complete broadcast round holds exactly one message of every peer, each with keys of its sender |
| Agreement.AcceptedIsSourced | dkg/frostp2p.go:122-192 | Accepted messages that decode carry only keys of their own sender |
| Agreement.AcceptedKey | dkg/frostp2p.go:122-192 | Every key of a round's response is a broadcast of a cluster node about an existing validator |
| Agreement.OneSharePerValidator | dkg/frost.go:216-245 | A node's shares are those of validators 0, 1, 2 and so on, one for each validator of the cluster |
| Agreement.SameRound | dkg/frostp2p.go:350-394 | Two nodes that heard the same bodies compute the same response |
| Ceremony.LocksAgree | dkg/dkg.go:558-614 | Two nodes that finish with the same public keys finish with equal locks, the aggregate signature included |
| Ceremony.ValidatorsAgree | dkg/dkg.go:558-579 | They assemble equal validator lists and equal lock hashes |
| Ceremony.FinishedMeaning | dkg/dkg.go:1002-1067 | Validator i of a finished lock has its public shares in share index order and, although aggregation goes by map order, the deposits and the registration of its own position, each signed under its group key |
| Ceremony.FinishedDepositPays | dkg/dkg.go:741-782 | Deposit a of validator i of a finished lock is for the validator's own key, pays amount a, between 1 and 32 ETH or 2048 ETH when compounding, to the credentials of withdrawal address i of the definition, and its signature verifies under that key |
| Ceremony.FinishedRegistrationPays | dkg/dkg.go:785-833 | From v1.7 on, registration i of a finished lock is for the validator's own key and fee recipient address i of the definition, at the network's genesis time, with the definition's target gas limit or 30,000,000 for zero, and its signature verifies under that key |
| Ceremony.FinishedLockVerifies | cluster/lock.go:152-197 | The finished lock, completed with the node signatures an exchange run returned, passes VerifySignatures exactly if the signatures of the definition do |
| Ceremony.FinishedAggregateVerifies | dkg/dkg.go:675-718 | The multi-signature made in map and arrival order verifies against the public shares in the order of the lock |
| Ceremony.SamePubShareBag | dkg/dkg.go:681-709 | The public shares a validator's signatures were verified under are, as a multiset, its ordered public shares in the lock, and all are well-formed |
| Ceremony.FinishedRegistrationVerifies | cluster/lock.go:236-282 | Fee recipients stay with their validators: verifyBuilderRegistrations accepts every validator of a finished lock, before and after v1.7 |
| Ceremony.FinishedKeys | dkg/dkg.go:917-998 | A node that finishes has pairwise distinct group keys, and they are the validators of the exchange |
| Ceremony.PublicSharesComplete | dkg/dkg.go:862-887 | With a verified signature of every node, a share has exactly the public shares 1 to n |
| Ceremony.LockShareOrder | dkg/share.go:28-51 | Public share j of a validator in a finished lock is the public share of the node with share index j + 1 |
| Witness.CeremonyCanHappen | dkg/dkg.go:235-298 | The laws of the libraries and the conditions of the ceremony's theorems can be met together: two operators go through a ceremony in v1.7, receive its messages in different orders, and make a multi-signature that is for their lock only |
| Witness.NodeCanParticipate | dkg/dkg.go:235-298 | Each of the two goes through all steps: both rounds, three exchanges, and the conclusion |
| Witness.NodeSignaturesCanBeExchanged | dkg/nodesigs.go:161-202 | So can those on an exchange of node signatures over any lock hash, with a callback of the other operator |
| Ceremony.StepKeys | dkg/dkg.go:836-914 | Aggregating as many validators as there are shares forces distinct keys, equal to the exchanged ones |
| Ceremony.AggregateMeaning | dkg/dkg.go:851-911 | What is aggregated for a key is the message of that key's own position, signed by the group, after all partial signatures verified |
| Ceremony.MeansUnique | dkg/dkg.go:1002-1067 | A validator is determined by its share and position, since valid signatures are unique |
| Ceremony.SameSigs | dkg/dkg.go:681-709 | Two full sets of valid signatures of a validator over one hash hold the same signatures |
| Ceremony.FullDataIsExchanged | dkg/exchanger.go:107-127 | The data an exchange returns is what the aggregations expect: all validators, one signature of every node |
| Ceremony.SignAndAggDepositData | dkg/dkg.go:617-643 | Fails exactly if for some amount a share cannot sign or an exchanged validator cannot be aggregated; otherwise there is, for each amount in order, what aggregation yields for every exchanged validator. Whom these deposits pay is stated by FinishedDepositPays |
| Ceremony.SignAndAggValidatorRegistrations | dkg/dkg.go:646-671 | The same for registrations, with the default gas limit in place of zero |
| Ceremony.SignAndAggregate | dkg/dkg.go:623-641 | One such step: fails exactly if a share cannot sign its message or an exchanged validator cannot be aggregated |
| Ceremony.SignAndAggLockHash | dkg/dkg.go:558-614 | On success the lock holds the assembled validators, without registrations before v1.7, the hash of the lock, and an aggregate of all exchanged signatures that verifies; it fails exactly if a validator lacks a registration or deposits, the lock does not hash, a share cannot sign, an exchanged signature does not verify, or, under the laws of BLS, the aggregate cannot be made or does not verify |
| Ceremony.Conclude | dkg/dkg.go:252-298 | The three steps in sequence yield what the agreement and verification theorems start from |
| Aggregation.SignMessages | dkg/dkg.go:741-833 | Fails exactly if some share fails; otherwise each key maps to the message and signature of its last share |
| Aggregation.LastSignedOf | dkg/dkg.go:786-833 | With distinct keys the message kept for a key is the one made from its own position |
| Aggregation.Aggregate | dkg/dkg.go:836-998 | Fails exactly if some validator fails; otherwise yields each validator once, in any order, with its verified group signature |
| Aggregation.AggregateSig | dkg/dkg.go:861-903 | Yields the group signature exactly if all partial signatures and the result verify |
| Aggregation.AggLockHashSig | dkg/dkg.go:675-718 | Success means every signature verified under its public share; the aggregate and the public shares list all of them in visiting order |
| Aggregation.CheckSigs | dkg/dkg.go:682-708 | Succeeds exactly if every signature of the validator verifies, and returns signatures and public shares pairwise |
| Aggregation.PubkeyToShares | dkg/dkg.go:591-599 | Maps each key to the last share with it |
| Aggregation.CollectPermutes | dkg/dkg.go:681-709 | Collecting over a permutation of the keys yields the same multiset |
| DistValidators.CreateDistValidators | dkg/dkg.go:1002-1067 | Succeeds exactly if every share has a registration and a deposit; validator i is that of share i |
| DistValidators.OrderIsInvisible | dkg/dkg.go:1002-1067 | Permuting the registrations, and the deposits within each amount, does not change a validator |
| DistValidators.GroupDeposits | dkg/dkg.go:1003-1010 | Groups deposits by key, keeping the order of the amounts |
| DistValidators.FindRegistration | dkg/dkg.go:1018-1034 | Finds the first registration of a key |
| DistValidators.DedupAmounts | eth2util/deposit/deposit.go:277-292 | The amounts sorted and without repetitions |
| DistValidators.NewDeposit | eth2util/deposit/deposit.go:55-75 | Succeeds exactly for a good address and an amount from one ether to the limit that the compounding flag sets; the message carries key, amount and credentials |
| DistValidators.NewRegistration | eth2util/registration/registration.go:27-39 | Succeeds exactly for a good address; the message carries its fee recipient and the given key, gas limit and time |
| LockVerify.VerifySignatures | cluster/lock.go:152-197 | Accepts exactly if the signatures of the definition verify, the aggregate verifies over all public shares and the recomputed hash, and registrations and node signatures verify; an empty aggregate only before v1.2. What it rejects is stated separately by the lemmas below |
| LockIntegrity.CeremonyIsTamperProof | cluster/lock.go:152-197 | Whatever lock is presented with the multi-signature of a node that went through a ceremony, VerifySignatures accepts it only if it agrees with the ceremony's lock in every field that the version hashes, provided the multi-signature verifies for no second hash |
| LockIntegrity.TamperedLockIsRejected | cluster/lock.go:181-189 | The same for every finished node |
| LockIntegrity.AcceptedLockPays | cluster/lock.go:181-189 | Such an accepted lock has the ceremony's keys, fee recipients and withdrawal addresses, position by position |
| LockIntegrity.AcceptedLockHasHash | cluster/lock.go:181-189 | An accepted lock whose multi-signature is for one hash only has that hash, recomputed |
| LockVerify.ForgedAggregateIsRejected | cluster/lock.go:165-189 | For every lock and every non-empty signature: if it does not verify under all public shares in lock order for the recomputed hash, or there is no hash, the lock with it is rejected |
| LockVerify.MissingAggregateIsRejected | cluster/lock.go:157-168 | So is any signature of a length other than 96, an empty one from v1.2 on |
| LockVerify.ForgedRegistrationIsRejected | cluster/lock.go:255-278 | From v1.7 on, a lock is rejected if the signature of one registration does not verify under the validator's key for the message of that key, the definition's fee recipient of that position, and the stated gas limit and time |
| LockVerify.MisplacedRegistrationIsRejected | cluster/lock.go:239-253 | A lock is rejected if a validator has a registration before v1.7 or lacks one later |
| LockVerify.ForgedNodeSignatureIsRejected | cluster/lock.go:216-229 | From v1.7 on, a lock is rejected if one node signature does not verify for the lock hash under the key in its operator's ENR |
| LockVerify.MisplacedNodeSignaturesAreRejected | cluster/lock.go:202-213 | A lock is rejected if it has node signatures before v1.7, or not one for each operator later |
| LockVerify.ForgedDefinitionIsRejected | cluster/lock.go:153-155 | A lock is rejected if its definition is |
| DefinitionVerify.VerifyDefinition | cluster/definition.go:220-316 | Accepts exactly if there are no signatures before v1.3, and later either no operator or every operator signed config and ENR, by address or by contract, and the creator signed exactly if the operators did |
| DefinitionVerify.OperatorForgeryIsRejected | cluster/definition.go:237-283 | From v1.3 on, a definition is rejected if an operator with an address or a signature lacks one of the two signatures, or neither its address nor a contract vouches for the config signature, or for the ENR signature |
| DefinitionVerify.HalfSignedIsRejected | cluster/definition.go:283-285 | From v1.3 on, a definition is rejected that some operators signed and others did not |
| DefinitionVerify.CreatorForgeryIsRejected | cluster/definition.go:292-313 | From v1.4 on, a definition with any trace of signing is rejected if the creator's signature is missing or does not verify for their address |
| DefinitionVerify.EarlySignatureIsRejected | cluster/definition.go:222-291 | Signatures of operators before v1.3, and of the creator in v1.3, are rejected |
| DefinitionVerify.CheckOperators | cluster/definition.go:237-283 | Counts the operators that did not sign, and fails exactly if one signed badly |
| LockVerify.VerifyBuilderRegistrations | cluster/lock.go:236-282 | Accepts exactly if each validator is unregistered before v1.7, and later signed the registration its key and its fee recipient make |
| LockVerify.GatherPubShares | cluster/lock.go:170-179 | Collects the public shares of all validators in order, failing exactly on a malformed one |
| NodeSigs.ExchangedSignaturesVerify | dkg/nodesigs.go:161-202 | In every run the signatures a poll returns pass verifyNodeSignatures; before v1.7 they are left out, which passes as well |
| NodeSigs.SlotsVerify | dkg/nodesigs.go:69-148 | Under every interleaving each non-empty slot holds a signature that verifies under its own peer's key for the one lock hash |
| NodeSigs.NodeSigBcast.BroadcastCallback | dkg/nodesigs.go:114-148 | Is the callback step: sets exactly the sender's slot if the index is another peer's and the signature verifies; caches the lock hash for every valid index |
| NodeSigs.NodeSigBcast.LockHash | dkg/nodesigs.go:69-84 | Returns the cached hash, or caches the received one |
| NodeSigs.NodeSigBcast.AllSigs | dkg/nodesigs.go:87-103 | Is the poll step: returns the slots exactly if none is empty |
| NodeSigs.NodeSigBcast.constructor | dkg/nodesigs.go:47-66 | Starts with an empty slot for each peer and no cached hash |
| NodeSigs.Peers | cluster/definition.go:319-342 | Yields the keys of the operators in order, and fails exactly on a duplicate or malformed ENR |
| NodeSigs.VerifyNodeSignatures | cluster/lock.go:201-233 | Accepts exactly if there are none before v1.7, and later one valid signature of each operator |
| Mailbox.SendNeverBlocks | dkg/frostp2p.go:41-46 | In every run no send finds a receive channel full |
| Mailbox.NeverTooMany | dkg/frostp2p.go:296-315 | In every run no round receives more messages than it waits for: the errors for too many messages are unreachable |
| Mailbox.RoundIsComplete | dkg/frostp2p.go:296-345 | A round that stops waiting consumed exactly one accepted message of every peer, and nothing is left over |
| Mailbox.AllDeliveredIsComplete | dkg/frostp2p.go:296-345 | If all delivered messages pass the checks and every other peer delivered one, the round has what it waits for once it has read the channel |
| Mailbox.ReceivedWasSent | dkg/frostp2p.go:122-234 | What a round received from a peer was delivered from that peer, and the node's own message is the one it sent |
| Mailbox.RunInv | dkg/frostp2p.go:122-234 | In every run each peer has at most one message in the channel or received, and it was accepted |
| Frost.FrostP2P.Round1CastCallback | dkg/frostp2p.go:122-192 | Records the peer before checking; forwards the message exactly if it is the first and valid |
| Frost.FrostP2P.Round2CastCallback | dkg/frostp2p.go:122-192 | The same for round 2, without the commitment count |
| Frost.FrostP2P.P2PCallback | dkg/frostp2p.go:199-234 | Records the peer only with a valid message; forwards the first valid one |
| Frost.FrostP2P.SendRound1Casts | dkg/frostp2p.go:261 | Is the step of a node's own send, and in every reachable state the channel has room for it |
| Frost.FrostP2P.SendRound2Casts | dkg/frostp2p.go:333 | The same for round 2 |
| Frost.FrostP2P.ReceiveRound1Cast | dkg/frostp2p.go:300-304 | Is the receive step, keeps the state reachable, and from a reachable state never finds too many broadcasts |
| Frost.FrostP2P.ReceiveRound1P2P | dkg/frostp2p.go:305-309 | Is the receive step, keeps the state reachable, and from a reachable state never finds too many direct messages |
| Frost.FrostP2P.ReceiveRound2Cast | dkg/frostp2p.go:337-344 | Is the receive step, keeps the state reachable, and never receives more broadcasts than there are peers |
| Frost.FrostP2P.constructor | dkg/frostp2p.go:41-80 | Starts with empty channels, in a reachable state |
| Frost.MakeResponse | dkg/frostp2p.go:350-394 | The decoded value of the last element of each key, failing only on an element that does not decode |
| Frost.CommitmentsMatchThreshold | dkg/frostp2p.go:122-192 | In every run of round 1, each broadcast received from a peer carries that peer's share index, no target and an existing validator, and exactly as many commitments as the threshold |
| Frost.ResponseIsOrderFree | dkg/frostp2p.go:350-394 | The response depends on what the peers said, not on the order of arrival |
| Frost.LastByPeer | dkg/frostp2p.go:350-394 | The value of a key comes from the message of its own source |
| FrostRounds.Round1 | dkg/frost.go:117-144 | The broadcasts and shares of all validators under the keys of validator, source and target, and nothing else |
| FrostRounds.BuildCasts | dkg/frostp2p.go:250-255 | Lists every broadcast exactly once, in any order |
| FrostRounds.BuildP2P | dkg/frostp2p.go:263-289 | Each peer is sent exactly the shares addressed to it; fails exactly on an unknown target or on this node itself |
| FrostRounds.Demux | dkg/frost.go:171-193 | For each source of a validator the value of one of its keys, and for no other source |
| FrostRounds.Round1IsHonest | dkg/frost.go:88-144 | A node with one participant per validator broadcasts once and has one share for every other node for each of them |
| FrostRounds.HonestCastsAccepted | dkg/frostp2p.go:122-192 | Honest broadcasts pass the receiver's checks |
| FrostRounds.HonestSharesAccepted | dkg/frostp2p.go:199-234 | Honest direct messages pass the receiver's checks |
| FrostRounds.Round2Inputs | dkg/frost.go:88-193 | From the participants of all honest nodes through grouping, checks, channels in any order and demultiplexing: a validator's round 2 input is exactly the broadcast of every node's participant and every other participant's share for this node |
| FrostRounds.Round2CastsExact | dkg/frost.go:171-183 | In every run in which honest peers delivered their broadcasts, the round completes and the round 2 broadcasts of a validator are exactly one from each of 1 to n, namely that peer's |
| FrostRounds.Round2SharesExact | dkg/frost.go:184-192 | In every run in which honest peers delivered their direct messages, the round completes and the round 2 shares of a validator are exactly the shares each other node addressed to this one |
| FrostRounds.HonestRound | dkg/frostp2p.go:296-345 | A complete round of a run received exactly what each honest sender had for this node |
| FrostRounds.HonestDecodes | dkg/frostp2p.go:350-394 | No element of an honest message fails to decode |
| FrostRounds.ShareIdxsAreOneToN | cluster/definition.go:199-217 | The share indexes of a cluster are exactly 1 to n |
| Shares.MakeShares | dkg/frost.go:196-246 | One share for each validator in index order, with its keys and everybody's public share; fails only on a malformed key |
| Shares.GatherPubShares | dkg/frost.go:200-214 | The public shares of each validator by source; fails exactly on a malformed key |
| Shares.SortedKeys | dkg/share.go:28-51 | The keys of a map, sorted and each once |
| Shares.MsgFromShare | dkg/share.go:28-51 | The public shares in ascending order of the share index |
| Shares.InKeyOrderUnique | dkg/share.go:28-51 | The ordered public shares are determined by the map |
| Exchanger.ExchangeReturnsItsType | dkg/exchanger.go:107-127 | In every run, whatever the peers send under their share indexes, an exchange returns exactly the complete data of its own type: every validator, one signature of every node, this node's own as it signed it |
| Exchanger.ReturnedIsFull | dkg/exchanger.go:107-127 | In every run all returned data is the complete data of its type |
| Exchanger.HonestExchange | dkg/exchanger.go:107-127 | With honest peers every returned signature is what its node signed |
| Exchanger.HonestRun | core/parsigdb/memory.go:141-173 | With honest peers no run has mismatching signatures |
| Exchanger.PushNeverBlocks | dkg/exchanger.go:159-166 | In every run a call that released the lock to send finds the channel empty, and sends the complete data of the type that is being exchanged |
| Exchanger.PushedOnce | dkg/exchanger.go:130-167 | In every run a type has been sent once if all its validators were merged and the merging call has sent, and not at all otherwise |
| Exchanger.PushedExactlyOnce | dkg/exchanger.go:130-167 | In every run, when all validators have the signatures of all nodes and no call is running, the type was sent exactly once if the keys are distinct and no mismatch ended a call with completed validators, and otherwise never |
| Exchanger.NothingIsLost | core/parsigdb/memory.go:80-119 | In every run in which no mismatch ended a call with completed validators, each complete validator is collected or held by a call |
| Exchanger.RunInv | dkg/exchanger.go:59-167 | In every run signatures are kept once per node, what is collected or held is complete and in one place only, and at most one call or the channel has the data of the current type |
| Exchanger.DataByPubkey.PushPsigs | dkg/exchanger.go:130-159 | For the output of a call it is the merge step: merges the signatures of a known type and hands out its data exactly if all validators are there |
| Exchanger.DataByPubkey.SendData | dkg/exchanger.go:160-164 | Is the send step, into a channel with room |
| Exchanger.DataByPubkey.Merge | dkg/exchanger.go:139-146 | The stored data of the type updated by the given signatures |
| Exchanger.DataByPubkey.constructor | dkg/exchanger.go:59-104 | Starts with nothing stored and an empty channel |
| Exchanger.CopyData | dkg/exchanger.go:154-157 | A copy of the data |
| Exchanger.Store | core/parsigdb/memory.go:141-173 | Appends a new share index, ignores an equal repetition, rejects a different one |
| Exchanger.AtMostN | core/parsigdb/memory.go:194-221 | A validator never has more signatures than nodes, and with n of them has one of every node |
| Deadliner.FiresInDeadlineOrder | core/deadline.go:132-192 | In every run duties fire no earlier than their deadline and in non-decreasing deadline order, with additions in between |
| Deadliner.CachedDutyIsEarliest | core/deadline.go:142-175 | In every run the cached duty is an earliest pending one |
| Deadliner.EntriesEqualFiresPlusPending | core/deadline.go:150-191 | Per duty, fresh acceptances equal fires plus one if it is pending |
| Deadliner.EnteredBetween | core/deadline.go:154-174 | A duty that became pending was accepted in between |
| Deadliner.FiresAgainOnlyAtDeadline | core/deadline.go:150-191 | A duty fires twice only if it was added again while the clock read exactly its deadline |
| Deadliner.DrainsWithoutAdds | core/deadline.go:175-190 | Without accepted additions each fire removes another duty that was pending, whatever is read in between, so the set is empty exactly after as many fires as there were pending duties |
| Deadliner.OutputIsFifo | core/deadline.go:175-187 | What was read followed by what is buffered is the sequence of sent duties, within the buffer's capacity |
| Deadliner.DeadlinesTwoSlotsApart | core/deadline.go:83-110 | Duties at least two slots apart have their deadlines in slot order, whatever their types; the deadlines themselves are stated by DeadlinesBySlot |
| Deadliner.DeadlinesBySlot | core/deadline.go:81-110 | For every genesis, slot length S and slot n, S/12 after: the start of slot n + 2 for attester, aggregator and prepare aggregator duties, two thirds into slot n for sync messages, one third for proposer and randao duties, the start of slot n + 1 for all others; none exactly for exits and builder registrations |
| Deadliner.FiresByUrgency | core/deadline.go:73-111 | In every run under these deadlines, duties of one slot fire in the order proposals, sync messages, others, attestations; in particular no proposer duty fires after an attester duty |
| Deadliner.FiresWithinTwoSlots | core/deadline.go:73-111 | In every run under the beacon chain's deadlines, a duty fires after another only if that one's slot is less than two slots later |
| Deadliner.GetCurrDuty | core/deadline.go:218-236 | A pending duty with the earliest deadline, or the sentinel |
| Deadliner.Deadliner.HandleInput | core/deadline.go:154-174 | Answers and updates the scheduler as the addition step says |
| Deadliner.Deadliner.HandleTimer | core/deadline.go:175-190 | Sends the cached duty unless the channel is full, removes it and caches the next |
| Deadliner.Deadliner.constructor | core/deadline.go:132-135 | Starts with nothing pending and the sentinel deadline |
| Deadliner.RunInv | core/deadline.go:132-192 | The cached duty and deadline stay current in every run |
| VersionedSsz.ShortFormRoundTrip | core/ssz.go:293-343 | Without a validator index decoding inverts encoding if and only if the slot's low half does not read as 20, or its high half then reads as an offset beyond the value |
| VersionedSsz.ShortFormOfSlot20IsLost | core/ssz.go:309-326 | Every such attestation of slot 20 is lost |
| VersionedSsz.LongFormRoundTrip | core/ssz.go:293-326 | With a validator index decoding inverts encoding for every version |
| VersionedSsz.HeadersRoundTrip | core/ssz.go:589-763 | All three header layouts are undone by their decoders, for every version and payload |
| VersionedSsz.VersionedAttestationSize | core/ssz.go:329-343 | SizeSSZ is exact with a validator index and eight too large without |
| VersionedSsz.MarshalVersionedAttestationTo | core/ssz.go:293-306 | Appends the encoding to the given buffer |
| VersionedSsz.VersionedAttestationPtr.UnmarshalSSZ | core/ssz.go:309-326 | The receiver ends up with the decoded value; on an error of the long form's offset the short form decides |
| VersionedSsz.VersionedAttestationPtr.UnmarshalValue | core/ssz.go:699-763 | Decodes the payload into the field of its version |
| VersionedSsz.VersionedAttestationPtr.SszValFromVersion | core/ssz.go:346-389 | Fills the field of the version if it is nil and touches no other |
| VersionedSsz.DataVersionFromUint64 | eth2util/types.go:112-120 | Finds the version with the value, and none exactly if no version has it |
| VersionedSsz.AttestationDataRoundTrip | core/ssz.go:813-870 | Decoding inverts encoding for every attestation data |
| VersionedSsz.DecodeAttestationData | core/ssz.go:842-870 | For every byte string: success implies ordered offsets within the buffer and at least 96 bytes for the duty |
| VersionedSsz.DutyRoundTrip | core/ssz.go:877-948 | Decoding inverts encoding for every attester duty |
| VersionedSsz.UnmarshalDuty | core/ssz.go:906-948 | The moving offsets read the fields in order and fail exactly on a short buffer |
| ProtoCodec.SignedRoundTrip | core/proto.go:48-154 | For attester and aggregator duties decoding an encoded value gives the same variant and value, whatever the JSON decoders do, if and only if it is no unreadable short form |
| ProtoCodec.UnsignedRoundTrip | core/unsigneddata.go:574-612 | The same for unsigned data, without exception |
| ProtoCodec.VersionedIsNotPlain | core/proto.go:64-76 | A versioned encoding never decodes as a plain container and never looks like JSON |
| ProtoCodec.PlainIsNotVersioned | core/unsigneddata.go:590-601 | A plain attestation never decodes as a versioned one: its first word is no version |
| ProtoCodec.SszIsNotJson | core/proto.go:263-280 | No encoding of this codec takes the JSON branch |
| ProtoCodec.JsonIsReadAsJson | core/proto.go:263-280 | What looks like JSON is never taken for SSZ and reads as what the JSON decoders return, tried in the order of the layouts, or fails if none of them accepts; attestation data likewise unless it is valid SSZ |
| ProtoCodec.ParSignedDataSetToProto | core/proto.go:171-184 | Converts every entry, in any order |
| ProtoCodec.ParSignedDataSetFromProto | core/proto.go:187-204 | Converts every entry or reports the error of one that fails; an empty set is an error |
| ProtoCodec.SetRoundTrip | core/proto.go:171-204 | A set survives the wire if and only if it is not empty and each value and share index survives |
| ProtoCodec.ParSignedRoundTrip | core/proto.go:48-168 | A value survives if and only if its share index fits 32 bits and its form is readable |
| Containers.AttestationRoundTrip | core/ssz.go:346-389 | Decoding inverts encoding for attestations of up to 2048 aggregation bits, 131072 in Electra |
| Containers.AttestationBits | core/ssz.go:346-389 | For every sequence of aggregation bits, encoded with its closing bit: up to 2048 bits, or 131072 in Electra, are read back, and more are refused |
| Containers.BitListAccepted | core/ssz.go:346-389 | The check of a bit list accepts the encoding of a sequence of bits exactly if it is within the limit, for every sequence and limit |
| Containers.BitListInjective | core/ssz.go:346-389 | Different sequences of bits, also of different lengths, have different encodings |
| Containers.BitListOf | core/ssz.go:346-389 | Every non-empty byte string that does not end in zero is the encoding of a sequence of bits |
| Containers.AttestationLayout | core/ssz.go:346-389 | Every field of an encoded attestation stands at the offset of the consensus specification |
| Containers.SignedAggregateRoundTrip | core/ssz.go:441-484 | The same for signed aggregates |
| Merkle.TreeInjective | cluster/ssz.go:52-71 | Equal roots of equal depth mean equal leaves, whatever the numbers of chunks |
| Merkle.TreePath | cluster/ssz.go:52-71 | From the root, the bits of i, the highest first, lead left for zero and right for one to leaf i |
| Merkle.PairRoot | cluster/ssz.go:482-505 | The root of two chunks is their hash in this order |
| Merkle.PackedBinds | cluster/ssz.go:827-847 | Non-empty byte strings of no fixed size hash alike if and only if they agree up to zeros on the right and need trees of the same depth |
| Merkle.RootInjective | cluster/ssz.go:52-71 | With as many chunks on both sides, equal roots mean equal chunks |
| Merkle.InsertionChangesRoot | cluster/ssz.go:97-101 | Inserting chunks before a hash changes the root |
| Merkle.AppendChangesRoot | cluster/ssz.go:269-275 | Appending a chunk other than zero changes the root |
| Merkle.ByteListInjective | cluster/helpers.go:197-207 | A byte list chunk determines the bytes |
| Merkle.BytesNInjective | cluster/helpers.go:210-218 | A fixed-size chunk determines the bytes up to left padding |
| Merkle.WordArrayInjective | cluster/ssz.go:422-445 | The chunk of the amounts determines them |
| Merkle.LeftPadLoop | cluster/helpers.go:233-239 | The bytes behind as many zeros as are missing |
| Merkle.Hasher.PutByteList | cluster/helpers.go:197-207 | Appends one chunk, or fails above the limit |
| Merkle.Hasher.PutBytesN | cluster/helpers.go:210-218 | Appends the padded bytes, or fails above the size |
| Definition.HashDefinition | cluster/ssz.go:52-71 | The digest of the one chunk that the walk leaves, for every version |
| Definition.HashDefinitionWith | cluster/ssz.go:31-50 | Every version's walk leaves the earlier buffer untouched and appends exactly the definition's chunk |
| Definition.HashDefinitionLegacy | cluster/ssz.go:74-158 | The same for v1.0 to v1.2; what the chunk determines is stated by LegacyBinding.LegacyBinds |
| Definition.HashDefinitionV1x3or4 | cluster/ssz.go:161-278 | The same for v1.3 and v1.4; what the chunk determines is stated by LegacyBinding.V3Binds |
| Definition.HashDefinitionV1x5to10 | cluster/ssz.go:284-479 | The same for v1.5 to v1.10 |
| Definition.HashOperatorsLegacy | cluster/ssz.go:109-142 | Appends one chunk for the operators |
| Definition.HashOperatorsV3 | cluster/ssz.go:219-249 | Appends one chunk for the operators, or fails on one that does not hash |
| Definition.HashOperatorsV5 | cluster/ssz.go:323-355 | The same from v1.5 on |
| Definition.HashCreatorV4 | cluster/ssz.go:251-268 | Appends one chunk for the creator |
| Definition.HashCreatorV5 | cluster/ssz.go:357-373 | The same from v1.5 on |
| Definition.HashAddressPairs | cluster/ssz.go:375-395 | Appends one chunk for the address pairs |
| Definition.HashExtra | cluster/ssz.go:422-479 | Appends the chunks of the amounts, the consensus protocol, the gas limit and the compounding flag that the version has |
| Definition.PutHexBytes20 | cluster/helpers.go:221-230 | Appends the padded address, or fails on bad hex |
| Definition.LegacyValidatorAddresses | cluster/definition.go:360-371 | The common address pair, none exactly if two pairs differ |
| DefinitionBinding.DefinitionHashBinds | cluster/ssz.go:284-479 | Definitions of v1.5 to v1.10 have equal definition hashes, or config hashes, if and only if they agree on the version and every field that the hash covers, up to hex decoding and padding |
| DefinitionBinding.VersionIsBound | cluster/ssz.go:297-300 | Definitions of different versions from v1.5 on never share a hash |
| DefinitionBinding.HashesExactlyIfFits | cluster/ssz.go:284-479 | From v1.5 on, hashing succeeds exactly if every field is within its limit, given in numbers, and every address decodes |
| LegacyBinding.EveryDefinitionHashBinds | cluster/ssz.go:52-71 | Definitions of any versions v1.0 to v1.10 that agree on which byte fields of no fixed size are empty have equal definition hashes, or config hashes, if and only if they agree on the version and every field that it hashes, the creator from v1.4 on |
| LegacyBinding.V3Binds | cluster/ssz.go:161-279 | The case of v1.3 and v1.4 |
| LegacyBinding.LegacyBinds | cluster/ssz.go:74-158 | The case of v1.0 to v1.2 |
| LegacyBinding.VersionsDiffer | cluster/ssz.go:31-49 | Definitions of different versions never share a hash; two of v1.0 to v1.2 if both or neither have a UUID and both or neither a name |
| LegacyBinding.LoneAddressesCollide | cluster/ssz.go:97-101 | The agreement on empty fields is needed: before v1.5, for every definition and address, the address as the only fee recipient and as the only withdrawal address give the same hash |
| DefinitionStore.DefinitionPersists | cluster/definition.go:414-526 | For all eleven versions a definition is read back if and only if it is readable, as what was stored, and then verifies if and only if its addresses were kept |
| DefinitionStore.RecordRoundTrip | cluster/definition.go:528-962 | A record reads back as what it stores, exactly if it is readable |
| DefinitionStore.StoredHashesTheSame | cluster/definition.go:528-962 | No version hashes a field that its record drops |
| DefinitionStore.LostAddressesShow | cluster/definition.go:727-820 | When an old record drops the addresses, the config hash changes |
| DefinitionStore.SetHashesIdempotent | cluster/definition.go:394-411 | Setting the hashes twice changes nothing, and what is set verifies |
| DefinitionStore.ConfigHashIgnoresSignatures | cluster/ssz.go:52-71 | The config hash ignores ENRs and all signatures, in every version |
| DefinitionStore.OperatorsFromV1x1 | cluster/operator.go:47-62 | Converts every operator, failing exactly on a nonce other than zero |
| DefinitionStore.RepeatVAddrs | cluster/definition.go:1179-1186 | The pair repeated as often as there are validators |
| Lock.HashLock | cluster/ssz.go:482-541 | The digest of the lock's chunk, for every version |
| Lock.HashValidators | cluster/ssz.go:508-541 | Leaves the earlier buffer untouched and appends one chunk for all validators |
| Lock.HashValidator | cluster/ssz.go:544-681 | The same for one validator |
| Lock.HashValidatorV1x5to7 | cluster/ssz.go:592-633 | The same for v1.5 to v1.7, where the four chunks of a v1.6 deposit are collapsed |
| Lock.HashValidatorV1x8OrLater | cluster/ssz.go:636-681 | The same from v1.8 on |
| Lock.HashValidatorV1x3Or4 | cluster/ssz.go:572-589 | The same for v1.3 and v1.4 |
| Lock.HashValidatorLegacy | cluster/ssz.go:710-732 | The same before v1.3 |
| Lock.HashDepositDataV1x6 | cluster/ssz.go:762-778 | Appends the four chunks of the deposit, or fails on a field that is too long |
| Lock.HashDepositDataV1x7 | cluster/ssz.go:781-805 | Appends the one chunk of the deposit |
| Lock.HashRegistration | cluster/ssz.go:827-847 | Appends the one chunk of the registration message |
| Lock.HashBuilderRegistration | cluster/ssz.go:808-824 | Appends the one chunk of the signed registration |
| Lock.HashPubsharesField | cluster/ssz.go:556-569 | Appends one chunk for the public shares |
| LockStore.LockPersists | cluster/lock.go:42-148 | For every version a lock is read back if and only if its definition is readable, under the same lock hash, and then verifies if and only if its config hash was current and its addresses were kept |
| LockIntegrity.StoredLockVerifies | cluster/lock.go:65-148 | A readable lock with valid hashes, whose definition has nothing its record drops and whose registrations are in whole seconds, is read back as a lock that VerifySignatures accepts exactly if it accepts the original, except that before v1.7 the record forgives registrations and node signatures |
| LockIntegrity.StaleConfigHashIsRejected | cluster/lock.go:65-148 | A lock whose config hash is not current is rejected once it is read back, if its multi-signature is for its own hash only |
| LockIntegrity.FittingIsKept | cluster/definition.go:414-524 | A definition with valid hashes and none of the fields that its version's record drops is stored as it is |
| LockBinding.LockHashBinds | cluster/ssz.go:482-681 | Locks of v1.5 to v1.10 have equal hashes if and only if their definitions agree on version and hashed fields and their validators on all that the version hashes of them |
| LockBinding.ValidatorBinds | cluster/ssz.go:592-681 | Equal validator chunks if and only if equal keys, public shares, and the deposits and registration of the version, up to padding |
| LockBinding.RegistrationBinds | cluster/ssz.go:827-847 | Equal registration chunks if and only if equal fields; an empty fee recipient, which adds no chunk, is never confused with another |
| LegacyBinding.EveryLockHashBinds | cluster/ssz.go:482-731 | Locks of any versions v1.0 to v1.10 that agree on which byte fields are empty have equal hashes if and only if their definitions and their validators agree on all that the version hashes |
| LegacyBinding.ValidatorV3Binds | cluster/ssz.go:572-589 | Validators of v1.3 and v1.4 hash alike if and only if keys, up to zeros on the right, and public shares agree, an empty key included |
| LegacyBinding.ValidatorLegacyBinds | cluster/ssz.go:710-732 | Validators of v1.0 to v1.2 with the same empty public shares hash alike if and only if keys and public shares agree |
| LockStore.StoredValidatorHashesTheSame | cluster/distvalidator.go:122-301 | No version hashes more of a validator than its record keeps: the first deposit, whole seconds |
| LockStore.DefinitionPartCurrent | cluster/lock.go:65-148 | The definition part of the lock hash is that of the record if and only if the config hash is current |
| LockStore.DistValidatorsTo | cluster/distvalidator.go:134-252 | Converts every validator to the version's record |
| LockStore.DistValidatorsFrom | cluster/distvalidator.go:122-301 | Converts every record back, failing exactly if one fails |
| Hex.HexRoundTrip | cluster/helpers.go:242-264 | Decoding hex gives back the bytes if and only if they have the expected length or are empty |

## Left out

- BLS, secp256k1, EIP-712 and FROST arithmetic, ENR parsing and ERC-1271 contracts are functions with the laws above.
- The reliable broadcast (`dkg/bcast`), the step synchronisation (`dkg/sync`) and the transport of partial signatures
  (`core/parsigex`) enter as assumptions.
- Exchanger.ExchangeReturnsItsType: assumes that signatures of peers carry a share index from 1 to n other than this node's own, which the transport does not check.
- Exchanger.RunInv: does not model the deadline of a stored duty, since the ceremony's deadliner never fires.
- Agreement.CeremonyAgrees: says nothing about the node signatures, since secp256k1 signatures are not unique.
- Merkle.RootInjective: the hash is symbolic and collision-free, so nothing is said about SHA-256 collisions.
- Containers.AttestationRoundTrip: the generated decoders of the containers follow the published SSZ layout, since their code is not part of the repository.
- LegacyBinding.EveryDefinitionHashBinds: says nothing about definitions before v1.5 that disagree on which byte fields are empty, since such definitions may share a hash (`LegacyBinding.LoneAddressesCollide`).
- LegacyBinding.EveryLockHashBinds: says nothing about locks before v1.5 that disagree on which byte fields are empty, since such locks may share a hash.
- `round2` of dkg/frost.go builds its broadcasts like `round1`; only what is done with them is modelled.
- JSON text, base64, UTF-8 replacement and the protobuf wire format: values are modelled as records.
- JSON records of another shape than those the writers produce.
- Proposals and the other signed data types: their headers are covered by `VersionedSsz.HeadersRoundTrip`, their payloads
  would only repeat it.
- Cancellation, time-outs, logging and metrics.
- The choice of the deposit amounts before `DedupAmounts`, command line handling, keystores, files and HTTP.
