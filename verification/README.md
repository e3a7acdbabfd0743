# QRTB in Dafny

A model of the parts of the QRTB blockchain prototype whose correctness is decided by its code, with proofs about
every input, every run or every interleaving. `dafny verify dfyconfig.toml` verifies everything.

SHA3 is an arbitrary function parameter from byte strings to 32 or 64 bytes, so every theorem holds for every such
function. Where binding is needed, freedom from collisions is a hypothesis about the byte strings that actually occur.
Objects whose methods change fields are classes here too, and in-place array algorithms stay on arrays. Each method is
proved against a function of the old state, and the theorems are about those functions.

**Consensus** (`Order`, `Votes`, `Proposer`, `Consensus`, `Agreement`, `Proposals`, `Disagreement`, `Network`). `Votes` holds a node's tables as a value and
the effect of every operation; `Consensus` has the classes that carry them out. `Agreement` takes a network of honest
nodes that may call any operation in any order with any message, so a Byzantine voter can say anything to anyone. The
invariant connects tables, choice maps and emitted pre-commits; agreement follows by intersecting stake sums. A node's own votes
skip the choice map, which is why each honest node must hold less than 34%. `Disagreement` has two runs that end with two
honest nodes finalizing different proposals for one epoch: one honest node holds exactly 34%, or the Byzantine one does.
`Proposals` carries agreement from hashes to the proposals themselves. `Network` has the driver that runs one round per epoch, and shows that it always finalizes.

**Ledger** (`Transactions`, `RotationKey`, `Ledger`, `LedgerValue`, `LedgerRuns`, `UtxoSet`, `Validator`, `Acceptance`, `Effects`). `Ledger`
gives each validation as a verdict with its reason and each application as one of three outcomes: done, stopped after
spending some inputs, or an exception. A run mixes transactions validated against the current state with transactions
of a block validated against the state before it. Conservation counts inputs lost in applications that stop part way as burned.
`Acceptance` says for each type what a valid transaction guarantees and who can have signed it, `Effects` what applying one
does to records, stakes, registry and balances. The run theorems ask nothing of submissions that are refused, raise or stop part way.

**Mempool and blocks** (`Mempool`, `BlockProducer`, `Pitfalls`). The pool invariant determines every field from the set of
transactions. A template is filled against the state before the block only, yet all of it applies; the one exception,
a transaction that lists the same input twice, is shown to be exactly the failing case, and `Pitfalls` shows that such a
transaction is validated, pooled and filled into a template.

**Concurrency** (`ShardedSteps`, `Sharded`). Threads take one lock-protected step at a time: the table step of an add
or a spend, its index step, and the steps of a balance read. A spent key can linger in the index: exactly
those do whose discard ran before the index step of their add. The balance is right all the same whenever no thread is
between two steps.

**Storage** (`Storage`, `Recovery`, `StorageManager`). Recovery adds outputs before it spends inputs while the live set
does the opposite, and a third copy lives in the spent flags of the SQL rows. All three follow one line-by-line effect,
also when a transaction occurs twice in the chain.

**Keys, trees and wallet** (`Wots`, `WotsNative`, `Merkle`, `MerkleBuild`, `MerkleBinding`, `AuthTree`, `KeyManager`, `LegacyKeys`, `KeyMaterial`,
`CoinSelection`, `WalletTxs`, `Wallet`, `WalletPayments`, `WalletFees`, `WalletChain`). WOTS+ chains and checksum, the recursive Merkle tree with its Python, in-place C and
double-buffered C builds, the 1022+2 key tree with computed and with cached proofs, the key pairs of a wallet not yet
registered, and the wallet from coin selection to the validator's verdict and the chain's application. `WalletChain` runs wallet and registry together, rotations being built, lost, applied and
confirmed in any order, and others registering or rotating the address.

**Fast forms and encodings** (`Keccak`, `Sponge`, `Sha3`, `Fips202`, `ParallelMerkle`, `Codecs`, and the kernels in `WotsNative`).
The permutation and the sponge are over an arbitrary word type with its operations as parameters; `Sha3` puts in 64-bit
words, the rotation tables and the round constants, and `Fips202` ties them to the standard bit by bit.

Where code and documentation or naming differ, the code is followed:

- A template may hold a transaction that lists one input twice: validation passes it and `apply_transaction` then fails
  after spending it. `Producers.FilledBlockApplies` gives the exact condition, `Pitfalls.TwiceFailsInBlock` the input.
- A registration or rotation uses a single input whatever was selected, and takes its change from all that was selected,
  so it validates exactly when the first coin covers the fee (`WalletObjects.RegistrationValidates`,
  `WalletObjects.RotationValidates`).
- A proposal with an empty transaction or state root is sent with 32 zero bytes and so has another hash at the receiver
  (`Codecs.EmptyRootChangesHash`).
- `verify` is documented for buffers of 2144 bytes but does not examine lengths: longer ones are cut, and a public key cut
  short may still match (`Wots.RestIsIgnored`, `Wots.ShortCellValidIff`).
- A registration is documented to prove seed ownership; its signature verifies under whatever key pair the input carries,
  so the registry follows the wallet only where no registration of another root precedes its own (`src/transaction.py:578-638`,
  `WalletTxs.RegistrationValidatesIff`, `WalletChain.RegistryFollowsWallet`).
- The tree hashes every leaf, `verify_proof` only those that are not 32 bytes long, so the proof of a transaction hash is
  accepted for the hash of that hash and not for itself (`src/crypto.py:254-316`, `MerkleBuild.RawLeafAcceptedIff`).
- The root does not bind lists with a leaf that is 64 bytes long or a tag string (`MerkleBinding.OtherListsSameRoot`), and the
  parallel computation repeats the last entry where the tree pads (`src/performance.py`, `MerkleBinding.RepeatedLastLeaf`).
- A rotation must use a reserved key; the index is read from the field and not compared with the leaf that the proof leads
  to (`src/transaction.py:720-722`, `Acceptance.OnlyBatchKeysRotate`).
- The fee a wallet chooses itself is meant to cover the transaction; it covers one input for each unit of the fee rate or
  a little more, and at rate 1 no rotation (`WalletFees.DefaultFeeIff`, `WalletFees.RotationStructureIff`).
- A proposal whose only root is the transaction root has the hash of one with the same bytes as state root
  (`Proposals.HashCommits`).
- A rebuilt set has no payloads (`Storage.RebuildForgetsPayloads`).
- A coinbase applied twice overwrites its own outputs (`LedgerRuns.RepeatedRewardReplaces`).
- The size of an authentication proof counts two per entry, whatever its bytes are (`src/transaction.py:59-61`).
- The tree over no leaves has a one-byte root: `root` indexes a byte string (`src/crypto.py:263-287`).
- After an epoch the driver's block is in the records of the first validator only: the loop over `try_finalize` stops at the
  first success (`Networks.SimNetwork.RunEpoch`).
- A comment calls the address index of the sharded set briefly stale; a key whose discard came first stays in it for good
  (`src/performance.py:243-247`, `ShardedSteps.SpentKeyLingersIff`).
- A withdrawal that is refused still creates the stake entry (`UtxoSets.UTXOSet.RemoveStake`).

## Model

| member | source | states |
|---|---|---|
| Agreement.FinalizationsAgree | src/consensus.py:290-430 | Agreement over every run: with Byzantine stake under 34% and each honest node under 34%, all finalizations of an epoch, by whichever honest nodes, are of one proposal hash. |
| Agreement.RecordedBlocksAgree | src/consensus.py:395-430 | The blocks two honest nodes record for an epoch carry the same proposal hash, whatever the messages and their order were. |
| Proposals.RecordedProposalsAgree | src/consensus.py:69-78 | Agreement on contents: the proposals two honest nodes record for an epoch agree in every field but the timestamp, unless their hashed strings collide; if both lack a root they may hold the other one as different roots. |
| Proposals.HashCommits | src/consensus.py:69-78 | Two proposals of fixed widths have one hash exactly when they agree in all fields but the timestamp, or differ only in which of the two roots a single root is, or their hashed strings collide. |
| Proposals.RecordedComesFromOwner | src/consensus.py:240-290 | In every run, whatever the stakes, a recorded proposal is for the epoch and round of its block and is the node's own or by the validator that owns their target; pre-committers among the listed votes hold 67%. |
| Proposals.HeldComesFromOwner | src/consensus.py:272-288 | The same of every proposal a node holds during a round. |
| Proposals.SelectionTellsApart | src/consensus.py:254-270 | The string the selection is drawn from differs for different epochs or rounds. |
| Agreement.ConflictNeedsOverlap | src/consensus.py:381-393 | No honesty assumed: if two nodes finalize, the voters who pre-committed on both sides hold at least 34% of the stake. |
| Agreement.HonestNodesPreCommitOnce | src/consensus.py:340-358 | In no run does an honest node emit pre-commits for two hashes in an epoch, although its own votes bypass the choice map. |
| Agreement.NoTwoPreVoteQuorums | src/consensus.py:326-338 | A node holding less than 34% never sees two pre-vote quorums in a round, once every foreign entry is bound by the choice map. |
| Agreement.OwnStakeOf34SeesTwoQuorums | src/consensus.py:290-303 | The bound of `NoTwoPreVoteQuorums` is sharp: with exactly 34% own stake, four calls make one node see pre-vote quorums for two hashes. |
| Disagreement.AgreementFailsAt34 | src/consensus.py:290-430 | The bound on an honest node's own stake is sharp: with stakes 34, 33, 33, the first two honest and the third Byzantine and selected, a run ends with two honest nodes having finalized different hashes for one epoch. |
| Disagreement.AgreementFailsAtByzantine34 | src/consensus.py:290-430 | The bound on Byzantine stake is sharp: with two honest nodes at 33 and a selected Byzantine validator at 34, a run ends the same way. |
| Agreement.QuorumIntersection | src/consensus.py:334-338 | Two sets of voters with 67% of the stake each share at least 34% of it. |
| Agreement.RunKeepsInv | src/consensus.py:290-430 | Every step of every run keeps the invariant on vote tables, choice maps, emitted pre-commits and finalizations. |
| Agreement.ProposalHandlerIsCalls | src/validator.py:260-268 | The proposal handler of a validator is a sequence of the consensus calls that runs are made of. |
| Agreement.VoteHandlerIsCalls | src/validator.py:279-301 | So is the vote handler: receive, pre-commit on quorum, try to finalize. |
| Proposer.ExactlyOneProposer | src/consensus.py:186-211 | For every target below the total stake exactly one registered validator owns it. |
| Proposer.SelectionProportionalToStake | src/consensus.py:254-270 | Of the targets in [0, total) exactly stake(v) select validator v. |
| Consensus.SortIds | src/consensus.py:206-206 | The sorted registry walk visits every validator once, in ascending order of id. |
| Consensus.BFTConsensus.RegisterValidator | src/consensus.py:169-172 | Replaces or adds a registry entry and recomputes the cached total. |
| Consensus.BFTConsensus.StartRound | src/consensus.py:174-184 | Clears proposals, both vote tables and both choice maps; keeps finalized blocks and the registry. |
| Consensus.BFTConsensus.ExpectedProposer | src/consensus.py:254-270 | The loop over cumulative stakes returns the one owner of the target; an empty registry gives none, a registry without stake raises. |
| Consensus.BFTConsensus.AmIProposer | src/consensus.py:186-211 | The second loop answers yes for exactly that owner, and always for an empty registry. |
| Consensus.BFTConsensus.CreateProposal | src/consensus.py:213-252 | The own proposal, recorded under its hash; `Proposals.HashCommits` says what the hash commits to. |
| Consensus.BFTConsensus.ReceiveProposal | src/consensus.py:272-288 | Which answer every proposal gets, and that only an accepted one changes the state. |
| Consensus.BFTConsensus.CreatePreVote | src/consensus.py:290-303 | The own pre-vote is appended without touching the choice map. |
| Consensus.BFTConsensus.ReceivePreVote | src/consensus.py:305-324 | Unregistered, repeated and conflicting voters are turned away; an accepted vote enters with its registered stake. |
| Consensus.BFTConsensus.SupportingStake | src/consensus.py:326-338 | Summing a dictionary keyed by voter counts the registered stake of the distinct voters. |
| Consensus.BFTConsensus.CheckPreVoteThreshold | src/consensus.py:326-338 | True exactly when distinct pre-voters hold 67% of the stake. |
| Consensus.BFTConsensus.CreatePreCommit | src/consensus.py:340-358 | A pre-commit is made exactly on a pre-vote quorum. |
| Consensus.BFTConsensus.ReceivePreCommit | src/consensus.py:360-379 | The answers and table update for pre-commits. |
| Consensus.BFTConsensus.CheckPreCommitThreshold | src/consensus.py:381-393 | True exactly when distinct pre-committers hold 67% of the stake. |
| Consensus.BFTConsensus.TryFinalize | src/consensus.py:395-430 | A block is recorded exactly when the quorum stands and the proposal is known; nothing else changes. |
| Consensus.ValidatorNode.ReceiveProposal | src/validator.py:260-268 | An accepted proposal is answered with one broadcast pre-vote; a refused one with nothing. |
| Consensus.ValidatorNode.ReceiveVote | src/validator.py:279-301 | A pre-commit leaves the node only together with the table entry that records it; which vote finalizes which block. |
| Networks.SimNetwork.constructor | src/network.py:76-118 | Making everyone a peer of everyone leaves all nodes with one and the same registry, the hypothesis of the agreement theorem. |
| Networks.SimNetwork.RunEpoch | src/network.py:184-303 | The driver ends every epoch in a block that the whole stake supports, proposed by the one validator selected; it raises exactly without validators or stake; only the first validator records the block. |
| Networks.SimNetwork.Run | src/network.py:364-374 | Every epoch of a run is finalized that way. |
| Networks.SimNetwork.FindProposer | src/network.py:231-250 | With stake in the network some validator finds itself selected, so the fallback to the first one is never taken. |
| Networks.SimNetwork.BroadcastProposal | src/network.py:255-258 | Everyone accepts the proposal of the selected validator. |
| Networks.SimNetwork.DistributePreVotes | src/network.py:266-270 | After the delivery loops every node has counted the pre-vote of every validator. |
| Networks.SimNetwork.DistributePreCommits | src/network.py:279-283 | The same for pre-commits. |
| Networks.SimNetwork.FinalizeFirst | src/network.py:285-293 | The loop stops at its first round: the first validator finalizes. |
| Networks.PreVoteCounts | src/consensus.py:305-324 | A vote for the hash that everyone votes for is never taken for equivocation and adds its voter. |
| Networks.AllFinalize | src/consensus.py:395-430 | A node that has counted all votes finalizes, and its block carries the votes of all and the whole stake. |
| Transactions.PreimageInjective | src/transaction.py:171-185 | The hashed byte string is uniquely decodable: equal exactly when version, type, references, outputs, epoch, timestamp, fee and nonce are equal. |
| Transactions.SameHashSameBody | src/transaction.py:133-150 | Without a collision between the two preimages, equal hashes mean equal bodies. |
| Transactions.OutputRoundTrip | src/transaction.py:98-115 | from_bytes inverts to_bytes at any offset inside any surrounding bytes. |
| Transactions.DecodedOutputReencodes | src/transaction.py:108-115 | Whatever decodes without running off the end re-encodes to the bytes it was read from. |
| Transactions.IsValidStructure | src/transaction.py:203-233 | The loops over inputs and outputs answer as the structure rules do, first reason first. |
| UtxoSets.UTXOSet.AddUtxo | src/transaction.py:267-273 | The key is overwritten with an unspent entry and enters the index of its address. |
| UtxoSets.UTXOSet.SpendUtxo | src/transaction.py:275-288 | Succeeds exactly on an unspent output, marks it with its spender and takes it out of the index; otherwise nothing changes. |
| UtxoSets.UTXOSet.GetBalance | src/transaction.py:294-302 | With a correct index the loop over it yields the balance of the full scan. |
| UtxoSets.UTXOSet.GetUtxosForAddress | src/transaction.py:304-313 | Exactly the matured unspent outputs of the address, each once. |
| UtxoSets.UTXOSet.AddStake | src/transaction.py:315-317 | Adds to the staked amount of one address. |
| UtxoSets.UTXOSet.RemoveStake | src/transaction.py:319-324 | Withdraws exactly when enough is staked; reading creates the entry either way. |
| UtxoSets.AddKeepsIndexIff | src/transaction.py:267-273 | Adding keeps index and table in agreement exactly when it does not replace an unspent output of another address. |
| UtxoSets.SpendKeepsIndex | src/transaction.py:275-288 | Spending always keeps them in agreement. |
| UtxoSets.IndexedBalance | src/transaction.py:294-302 | Summing over the index of an address equals scanning the whole table. |
| UtxoSets.AuthRegistry.RegisterViaTx | src/transaction.py:358-370 | One time only: a registered address keeps its root. |
| UtxoSets.AuthRegistry.RotateViaTx | src/transaction.py:372-383 | Only a registered address gets a new root; its rotation count grows. |
| Validators.TransactionValidator.ValidateTransfer | src/transaction.py:442-485 | The early-exit loop with its running total gives the verdict defined over the list of inputs and total value. |
| Validators.TransactionValidator.ValidateStake | src/transaction.py:487-500 | A transfer verdict, after the check that some output carries the stake marker. |
| Validators.TransactionValidator.ValidateData | src/transaction.py:564-576 | A transfer verdict, after the check for a payload. |
| Validators.TransactionValidator.ValidateCoinbase | src/transaction.py:512-524 | The coinbase rules, first reason first. |
| Validators.TransactionValidator.ValidateSlash | src/transaction.py:526-562 | The slash verdict over all inputs. |
| Validators.TransactionValidator.ValidateRegister | src/transaction.py:578-638 | The registration verdict: address binding, signature, unspent and unlocked input, balance. |
| Validators.TransactionValidator.ValidateRotateAuth | src/transaction.py:640-730 | The rotation verdict, with the public_key field parsed as the code does it. |
| Validators.TransactionValidator.ValidateTransaction | src/transaction.py:401-440 | Structure, fee and type checks in order give the verdict the ledger lemmas are about. |
| Validators.TransactionValidator.ApplyTransaction | src/transaction.py:732-788 | The in-place application equals the specification, part-way failure and exceptions included, and keeps index and table in agreement when the output keys are fresh. |
| Acceptance.StructureIff | src/transaction.py:203-233 | The structure checks pass exactly for version 1, 1 to 16 outputs, at most 16 inputs and 65536 bytes, no output between 1 and 545, and outside COINBASE an input and a fee of one per byte. |
| Acceptance.TransferValidIff | src/transaction.py:442-506 | TRANSFER and UNSTAKE are valid exactly when well built, timely, encodable, paid for, and every input is known, unspent, unlocked, signed over the transaction, and for a registered owner proved to be under the registered root. |
| Acceptance.StakeOrDataValidIff | src/transaction.py:487-578 | STAKE and DATA are valid exactly when the same holds and an output stays locked, or carries a payload. |
| Acceptance.RegisterValidIff | src/transaction.py:578-638 | REGISTER is valid exactly when its one usable input is signed, pays, and belongs to the unregistered address that the named inner hash derives to. |
| Acceptance.RotateValidIff | src/transaction.py:640-730 | ROTATE_AUTH is valid exactly when its one usable input pays and its field names a key that signed the transaction and is accepted under the registered root, and claims an index of at least 1022. |
| Acceptance.SlashValidIff | src/transaction.py:526-562 | SLASH is valid exactly when the first output holds 32 bytes of evidence and every input is signed and names an unspent output locked at some epoch. |
| Acceptance.CoinbaseValidIff | src/transaction.py:512-524 | A submitted COINBASE is valid exactly when timely, without inputs, and worth at most 100 tokens. |
| Acceptance.OnlyBatchKeysSpend | src/transaction.py:461-477 | Whoever gets a registered owner's output spent has signed that transaction with one of the 1024 keys of the batch under the registered root, for a ten-entry proof and short of a collision. |
| Acceptance.OnlyBatchKeysRotate | src/transaction.py:712-718 | The same of a rotation; which key it was is claimed and not checked. |
| Acceptance.RootAcceptsOwnKeys | src/crypto.py:471-483 | A ten-entry proof against the root of a batch accepts only the hash of the key at the leaf its direction bits lead to, short of a collision. |
| Effects.RecordsAfter | src/transaction.py:732-788 | Every record after a complete application, field by field: an output of the transaction, an input marked spent by it, or unchanged. |
| Effects.StakesAfter | src/transaction.py:753-757 | A complete STAKE raises each address's stake by its outputs locked beyond the epoch; no other type changes a stake. |
| Effects.RegistrationTakesEffect | src/transaction.py:759-765 | A valid registration is applied and adds exactly one registry entry: the owner of the output it spends with the announced root and no rotations. |
| Effects.RotationTakesEffect | src/transaction.py:767-788 | A valid rotation is applied, replaces exactly the owner's root and counts one more rotation, unless it spends an output of its own hash. |
| Effects.BalanceAfter | src/transaction.py:294-302 | A complete application with fresh keys moves every address's balance by the matured value it creates for it less what it spends of it. |
| Effects.MaturedIsUsable | src/transaction.py:449-459 | What counts towards a balance is exactly what validation lets an input refer to. |
| LedgerValue.SpendsMarkLongestPrefix | src/transaction.py:740-747 | The spending loop marks exactly the longest prefix of distinct spendable inputs. |
| LedgerRuns.StepChanges | src/transaction.py:732-788 | Validate-then-apply has one of three effects on the table: nothing, everything, or that prefix only. |
| LedgerRuns.ValidMeansSpendable | src/transaction.py:401-440 | A transaction of any type validates only if all its inputs can be spent. |
| LedgerRuns.SuccessIsClean | src/transaction.py:732-788 | In every run without a SHA3-256 collision or a repeated coinbase among the completed transactions, whatever else is submitted, a complete application had distinct, unspent inputs and fresh output keys. |
| LedgerRuns.SpentStaysSpent | src/transaction.py:267-288 | In every such run a spent output never changes again and an unspent one can only become spent. |
| LedgerRuns.NoKeySpentTwice | src/transaction.py:275-288 | In every such run no output is spent by two events, counting those that stop part way. |
| LedgerRuns.NeverAppliedTwice | src/transaction.py:740-747 | In every such run two complete applications have different transaction hashes: nothing is applied twice. |
| LedgerRuns.SameInputsAgain | src/transaction.py:171-185 | Two completed transactions of one hash have the same type and first input: their references are known outputs, so 32 bytes wide, and the hashed bytes parse in one way. |
| LedgerRuns.AccountIsExact | src/transaction.py:732-788 | In every run whatever, unspent value, burned value and value overwritten at reused output keys together equal the minted coinbase value. |
| LedgerValue.AddingRaises | src/transaction.py:267-273 | Adding outputs raises the unspent value by theirs less what was unspent at their keys. |
| LedgerRuns.RepeatedRewardReplaces | src/transaction.py:749-751 | A coinbase applied twice is minted twice and leaves one output: the second application overwrites the first. |
| LedgerRuns.ValueIsConserved | src/transaction.py:732-788 | With no collision and no repeated coinbase among the completed transactions nothing is overwritten: after every prefix of the run unspent value plus burned value equals minted coinbase value, also when an application fails part way. |
| LedgerRuns.RunBurns | src/transaction.py:472-485 | In every such run, outside SLASH no step destroys a negative amount, and a completed one destroys at least its fee. |
| LedgerRuns.NoInflation | src/transaction.py:401-485 | In every such run without SLASH only coinbases raise the unspent value. |
| Pools.PoolIsDetermined | src/transaction.py:800-811 | The set of transactions determines spent outputs, size and priority order, so the invariant leaves no freedom. |
| Pools.AddKeepsGood | src/transaction.py:813-842 | An accepted transaction keeps inputs pairwise disjoint, spent_outputs their union, current_size the sum, and priority strictly descending with each hash once. |
| Pools.RemoveKeepsGood | src/transaction.py:844-859 | So does a removal. |
| Pools.SortSorts | src/transaction.py:837-840 | Sorting puts distinct ranks in descending order and loses none. |
| Pools.DescendingUnique | src/transaction.py:837-840 | A descending list is determined by its elements, so the order is the same whatever came first. |
| Pools.PicksFit | src/transaction.py:861-877 | The picks come in priority order and respect the size limit together. |
| Pools.PickedIffFits | src/transaction.py:861-877 | A transaction is picked exactly when it fits after the picks before it. |
| Mempools.HigherFeeFirst | src/transaction.py:861-877 | Of two transactions selected for a block the one with the strictly higher fee per byte stands first. |
| Pools.EqualRateOrder | src/transaction.py:861-877 | At equal fee rates the later timestamp stands first, and at equal timestamps the larger hash. |
| Pools.AcceptedIff | src/transaction.py:813-840 | A transaction is accepted exactly when it can be hashed, is new, fits beside the pooled ones and shares no input with any of them. |
| Pools.RemoveUndoesAdd | src/transaction.py:813-870 | Removing what was just added restores every field of the pool. |
| Pools.SelectionIsDisjoint | src/transaction.py:861-877 | No two of the selected transactions share an input, and all are in the pool under their hash. |
| Pools.PickForBlock | src/transaction.py:861-877 | The loop computes that selection. |
| Mempools.Mempool.AddTransaction | src/transaction.py:813-842 | Which answer every transaction gets; the pool changes only on acceptance, and its invariant holds. |
| Mempools.Mempool.RemoveTransaction | src/transaction.py:844-859 | The transaction leaves all four fields; an unknown hash changes nothing. |
| Mempools.Mempool.GetTransactionsForBlock | src/transaction.py:861-877 | Returns the selection of the current pool. |
| Mempools.Mempool.ClearConfirmed | src/transaction.py:879-885 | Whatever order the set is walked in, all confirmed hashes are gone and the ones found are counted. |
| Producers.BlockTemplate.AddTransaction | src/block_producer.py:57-67 | Adds exactly what fits; fees and size totals stay those of the list. |
| Producers.BlockProducer.FillTemplate | src/block_producer.py:118-150 | The walk over the selection equals the specification: what enters the template, what is dropped from the pool, and all counters. |
| Producers.BlockProducer.BuildBlock | src/block_producer.py:176-211 | Coinbase first, then the template, under the Merkle root of their hashes; it raises exactly when the reward cannot be encoded. |
| Producers.BlockProducer.ApplyTransactions | src/block_producer.py:223-228 | The loop stops at the first transaction that is not applied completely. |
| Producers.BlockProducer.ApplyBlock | src/block_producer.py:213-240 | On success the transactions leave the pool; on failure the ones before stay applied and the pool is kept. |
| Blocks.BlockAppliesIff | src/block_producer.py:213-240 | Transactions with pairwise disjoint inputs, each checked only against the state before the block, all apply exactly when none repeats an input. |
| Producers.FilledBlockApplies | src/block_producer.py:118-211 | A template filled from a valid pool, with a coinbase in front, applies completely exactly when no transaction in it repeats an input. |
| Pitfalls.TwiceIsValid | src/transaction.py:442-485 | The failing input can be received: a batch-signed payment that lists one output twice validates, because its value is counted twice. |
| Pitfalls.TwiceFailsInBlock | src/block_producer.py:118-240 | That payment is accepted into a pool, selected and filled into a template, and the block then fails to apply. |
| Producers.BuiltBlockRaisesAtMostReward | src/block_producer.py:118-211 | Inside such a run the block built from a pool, with the coinbase for its fees in front, raises the unspent value by at most COINBASE_REWARD, leaving out slashings, coinbases and repeated inputs. |
| Producers.FillKeepsDisjoint | src/block_producer.py:118-150 | The filled template holds valid transactions with pairwise disjoint inputs. |
| Producers.FillTakesValid | src/block_producer.py:118-150 | The template holds, in order, the valid ones among the first n candidates and the others are rejected; the walk ends early only at a valid one that would make the block too long or too large. |
| Producers.FillFits | src/block_producer.py:57-67 | A filled template has at most 1000 transactions and 4 MiB. |
| Producers.RewardPaysProducer | src/block_producer.py:152-174 | The coinbase pays the given address 50 tokens and the fees of the block, locked for 100 epochs, and no one else. |
| Blocks.BlockCompletes | src/block_producer.py:213-240 | Inside such a run, every event of a block, its coinbase encodable and no input repeated, completes. |
| Blocks.BlockRaisesAtMostReward | src/block_producer.py:152-174 | Inside such a run a block whose coinbase pays the base reward plus its fees raises the unspent value by at most COINBASE_REWARD. |
| ShardedSteps.RunKeepsInv | src/performance.py:199-248 | Every interleaving of the lock-protected steps keeps spends, local thread states and index in agreement with the table. |
| ShardedSteps.AtMostOneSpender | src/performance.py:223-248 | In every interleaving each key has at most one successful spender, the one the table names. |
| ShardedSteps.QuiescentBalance | src/performance.py:199-298 | When no thread is between its two steps the balance equals the full scan, whatever races happened before. |
| ShardedSteps.ReadIsBetween | src/performance.py:285-298 | With only spends running beside it, a balance read lies between the end and start balances. |
| ShardedSteps.SpentKeyLingersIff | src/performance.py:227-246 | For every run with all threads idle: a spent key is still in the index exactly when its discard ran before the index step of its add. |
| ShardedSteps.IndexIsExactIff | src/performance.py:199-248 | With all threads idle the index lists exactly the unspent keys of each address if and only if no key left the index before it entered. |
| ShardedSteps.HistoryHolds | src/performance.py:199-248 | After every step of every run, a key is in the index exactly when some step entered it and none has discarded it since; a key is discarded at most once. |
| ShardedSteps.SpentKeyMayLinger | src/performance.py:207-212 | The overtaking does occur: a concrete run of four steps ends with all threads idle and a spent key in the index. |
| Sharded.ShardedUTXOSet.AddUtxo | src/performance.py:199-212 | Table and index after an undisturbed add. |
| Sharded.ShardedUTXOSet.SpendUtxo | src/performance.py:223-248 | Succeeds exactly on an unspent output; table and index afterwards. |
| Sharded.ShardedUTXOSet.BatchLookup | src/performance.py:250-283 | Grouping by shard and visiting the shards in any order answers every reference in its own place. |
| Sharded.ShardedUTXOSet.GetBalance | src/performance.py:285-298 | The loop over the index, skipping spent and locked outputs. |
| Sharded.CallBoth | src/performance.py:174-298 | Run sequentially, the sharded set and the plain set give equal answers and keep equal tables, call by call. |
| Storage.LiveStep | src/transaction.py:732-788 | The live set (inputs before outputs) has one line-by-line effect per transaction. |
| Storage.RebuildStep | src/storage.py:686-704 | The rebuilt set (outputs before inputs) has the same effect. |
| Storage.SqlStep | src/storage.py:276-340 | The spent flags of the SQL rows have the same effect. |
| Recovery.StaysInStep | src/storage.py:637-667 | After every block of such a chain (storable transactions, increasing epochs, different block hashes, no hash collision; repetitions allowed), tables and live set agree and everything stored is found again. |
| Recovery.RebuildReaches | src/storage.py:678-704 | Replaying epochs 0..e reaches the live set as it was after the last block of those epochs, also when a transaction occurs twice. |
| Storage.RebuildForgetsPayloads | src/storage.py:678-704 | No output of a rebuilt set has a payload: the tables do not hold it. |
| Recovery.RecoveryAgrees | src/storage.py:678-704 | For every chain of increasing epochs and different block hashes, of storable transactions without a hash collision, repeated ones included, applied from an empty set: the rebuilt set and the SQL flags agree with the live set in keys, value, address, lock, spent flag and spender, and every stored prev_hash is the hash of the block before. |
| Storage.TxKeepsStep | src/storage.py:637-655 | One transaction applied and recorded keeps live set and tables in step, whether its hash is new or replaces the rows of an equal one. |
| Storage.NextNamesOthers | src/transaction.py:732-788 | A transaction that applies never spends an output of its own hash. |
| Recovery.LinkIsPrevious | src/storage.py:169-177 | The latest stored block is the preceding one of the chain. |
| StorageManagers.StorageManager.StoreTransaction | src/storage.py:276-316 | All rows of a transaction, or none when a value does not fit. |
| StorageManagers.StorageManager.MarkOutputSpent | src/storage.py:329-340 | Exactly one row gets its flag and spender, if it exists. |
| StorageManagers.StorageManager.StoreBlockWithTransactions | src/storage.py:637-667 | The tables afterwards, the link to the latest block, and when it raises. |
| StorageManagers.StorageManager.RebuildUtxoSet | src/storage.py:678-704 | The nested loops compute the specified rebuild up to the highest epoch into a new set. |
| Wots.ChunksAreAnAntichain | src/crypto.py:126-144 | WOTS checksum: for two different digests some chunk is smaller in each direction (section 3.1.5 of RFC 8391). |
| Wots.SomeChunkDecreases | src/crypto.py:126-144 | The position of a smaller chunk, found in the digest or in the checksum. |
| Wots.ChunksAreBase16 | src/crypto.py:126-144 | The chunks are the digest in base 16, high half first, and the checksum 15 * 64 minus their sum in base 16. |
| Wots.AcceptedSignaturesCross | src/crypto.py:155-194 | If signatures for two different digests are accepted under one public key, each enters some chain strictly earlier than the other, whose value there follows by hashing on, unless two chain values collide. |
| Wots.AcceptedCellsAgree | src/crypto.py:155-194 | Two signatures accepted for one digest under one public key agree in every cell, unless two chain values collide. |
| Wots.ChainComposes | src/crypto.py:86-91 | H^a after H^b is H^(a+b). |
| Wots.SignaturesVerify | src/crypto.py:93-194 | Whatever is signed with a generated key verifies under the matching public key. |
| Wots.Keygen | src/crypto.py:93-113 | The loop produces the two keys as concatenations of 67 cells. |
| Wots.ComputeChunks | src/crypto.py:126-144 | The accumulating loops produce the 64 nibbles and the three checksum nibbles. |
| Wots.Sign | src/crypto.py:115-153 | The loop produces the signature cell by cell. |
| Wots.Verify | src/crypto.py:155-194 | The early-exit loop accepts exactly when all 67 chains reach the public key; buffer lengths are not examined. |
| Wots.RestIsIgnored | src/crypto.py:155-194 | Acceptance depends on the first 2144 bytes of signature and public key only. |
| Wots.ShortCellValidIff | src/crypto.py:184-192 | A public key cell that is cut short matches exactly when its chunk is 15 and the signature cell equals it. |
| Wots.ShortKeyVerifiesNothing | src/crypto.py:184-192 | A public key of fewer than 2080 bytes verifies nothing. |
| WotsNative.KeygenC | native/csrc/wots.c:36-45 | The flat buffers of the C code hold the same keys. |
| WotsNative.ComputeChunksC | native/csrc/wots.c:48-68 | The chunk buffer of the C code holds the same chunks. |
| WotsNative.SignC | native/csrc/wots.c:70-80 | The flat signature buffer holds the same signature. |
| WotsNative.VerifyC | native/csrc/wots.c:82-96 | The C verification accepts exactly what the Python one accepts. |
| WotsNative.LaunchVerify | native/cuda/wots_verify.cu:140-193 | Threads in any order, and more of them than chains: each flag says whether its chain is valid. |
| WotsNative.FlagsMeanVerified | native/cuda/wots_verify.cu:199-216 | All 67 flags of a transaction are set exactly when sequential verification accepts it. |
| WotsNative.VerifyBatch | native/cuda/wots_verify.cu:140-216 | Both kernels together: tx_results[t] is 1 exactly when wots_verify accepts transaction t. |
| Merkle.RootOfUp | src/crypto.py:261-283 | Building by halves and building level by level give the same root. |
| Merkle.NextPow2 | native/csrc/merkle.c:21-25 | The doubling loop of the C code finds the size Python reads off bit_length. |
| Merkle.DepthIsLeast | src/crypto.py:266-268 | That size is the least power of two that holds the leaves. |
| Merkle.PathFoldsToRoot | src/crypto.py:289-316 | Every leaf's path folds to the root. |
| Merkle.PathBindsLeaf | src/crypto.py:306-316 | Without collisions among the hashed nodes, an index's full-depth path accepts only that leaf hash and those siblings. |
| MerkleBuild.BuildLevels | src/crypto.py:261-282 | The level-by-level build collects exactly the levels of the padded tree. |
| MerkleBuild.MerkleTree.GetProof | src/crypto.py:289-303 | The loop over the levels yields the path of the index; an index past the leaves raises. |
| MerkleBuild.MerkleTree.RootValue | src/crypto.py:285-287 | The root of the padded tree, or one byte for an empty list as the code has it. |
| MerkleBuild.VerifyProof | src/crypto.py:306-316 | The fold accepts exactly the proofs that reach the root. |
| MerkleBuild.BuildRoot | native/csrc/merkle.c:33-67 | The in-place build, every level overwriting the front of one buffer, yields the recursive root for every number of leaves. |
| MerkleBuild.BuildWithProof | native/csrc/merkle.c:69-124 | The build with two swapped buffers yields the same root and the path of the leaf, within the depth cap. |
| MerkleBuild.VerifyEntries | native/csrc/merkle.c:126-143 | The C fold accepts exactly what the Python fold accepts. |
| MerkleBuild.ProofsAreAccepted | src/crypto.py:289-316 | Every leaf's proof is accepted against the root, given the hash of the leaf. |
| MerkleBuild.RawLeafAcceptedIff | src/crypto.py:254-316 | Given the leaf itself, its proof is accepted exactly when the leaf is not 32 bytes long or is its own hash, unless a collision occurs among the hashed nodes: the tree hashes every leaf, verification does not. |
| MerkleBinding.TreeRootBinds | src/crypto.py:254-287 | Lists of whatever lengths have one root exactly when they are equal, if no leaf is 64 bytes long or one of the two tag strings, and no collision occurs among the strings hashed. |
| MerkleBinding.OtherListsSameRoot | src/crypto.py:260-283 | Each exception is needed: the empty list, a padded list and a pair have the roots of other lists. |
| MerkleBinding.LevelRootIsRoot | src/performance.py:322-339 | For 2^k leaf hashes the parallel computation yields the root of the tree. |
| MerkleBinding.RepeatedLastLeaf | src/performance.py:341-356 | For other counts it repeats the last entry, so a repeated last leaf leaves its root unchanged. |
| AuthTree.BatchSignaturesVerify | src/crypto.py:395-483 | Every signature made with any of the 1024 keys verifies against the root of its batch. |
| KeyManager.TemporalAuthTree.constructor | src/crypto.py:357-371 | The 1024 keys of the batch under one tree, with unused counters. |
| KeyManager.TemporalAuthTree.Sign | src/crypto.py:395-423 | Regular keys are used in order 0..1021, then it raises. |
| KeyManager.TemporalAuthTree.SignRotation | src/crypto.py:425-451 | Rotation keys are 1022 and 1023, then it raises. |
| KeyManager.VerifyAgainstRoot | src/crypto.py:471-483 | Signature first, then path. |
| KeyManager.CacheProofs | native/csrc/temporal_auth.c:62-71 | Building the tree once per key caches the path of every key and keeps the right root. |
| KeyManager.CachedAuthTree.constructor | native/csrc/temporal_auth.c:46-75 | The C tree holds the same keys, root and all 1024 proofs. |
| KeyManager.CachedAuthTree.Sign | native/csrc/temporal_auth.c:77-101 | Makes the same signature as the Python tree; -1 when exhausted. |
| KeyManager.CachedAuthTree.SignRotation | native/csrc/temporal_auth.c:103-125 | The same for the two rotation keys. |
| KeyManager.KeyManager.TemporalSign | src/wallet.py:128-135 | Uses the next regular key of the current batch, or raises unless registered. |
| KeyManager.KeyManager.TemporalSignRotation | src/wallet.py:137-144 | Uses the next rotation key of the current batch. |
| KeyManager.KeyManager.PrepareRotation | src/wallet.py:146-156 | However often it is called, the next root is the one of the batch grown from the current one. |
| KeyManager.KeyManager.ExecuteRotation | src/wallet.py:158-178 | The old tree is destroyed and the prepared batch takes over unused; it raises exactly when nothing was prepared. |
| KeyManager.NoKeySignsTwice | src/wallet.py:128-178 | Over every sequence of sign, rotation sign, prepare and execute no (batch, index) pair signs twice. |
| KeyMaterial.NoPublicKeySignsTwice | src/crypto.py:373-378 | Over the whole life of a wallet no public key signs twice: two uses with one public key exhibit a collision among named strings of chains, key seeds or batch seeds. |
| KeyMaterial.KeySeedsDiffer | src/crypto.py:373-378 | Two key seeds are equal exactly for the same index of the same batch seed or a collision of the two hashed strings. |
| KeyMaterial.BatchSeedsDiffer | src/crypto.py:329-345 | Seeds of different batches are equal only with a collision on the way to them. |
| KeyMaterial.ChainSeedsDiffer | src/crypto.py:93-113 | The 67 secret chain starts differ inside a key and between keys, short of a collision. |
| KeyMaterial.RegistrationKeyIsSeparate | src/wallet.py:180-187 | The registration key is no key of any batch, short of a collision. |
| KeyMaterial.LegacySeedsDiffer | src/wallet.py:194-202 | Key pairs of a wallet not yet registered differ in batch seed, epoch or count and are no batch keys, short of a collision. |
| KeyMaterial.AddressBindsSeed | src/wallet.py:73-75 | Two master seeds have one address exactly when equal or with a collision in one of the two hashes. |
| KeyManager.UsesAreUnused | src/crypto.py:395-451 | Indices stay in range, and every signature uses a key that no earlier one used. |
| KeyManager.EverySignatureVerifies | src/wallet.py:128-178 | Every signature of such a sequence verifies against the root of its batch, regular ones with keys 0..1021, rotation ones with 1022 and 1023. |
| RotationKey.FieldRoundTrip | src/transaction.py:686-711 | The rotation public_key field written by the wallet parses in the validator to the same key, proof and index. |
| RotationKey.WriteEntries | src/wallet.py:626-635 | The wallet's loop writes the entries the parser reads. |
| RotationKey.ParseEntries | src/transaction.py:700-711 | The validator's offset loop reads whole entries only. |
| CoinSelection.SelectsLargest | src/wallet.py:337-359 | Selected coins are spendable, come largest first, and none left out is larger. |
| CoinSelection.SelectsNoMoreThanNeeded | src/wallet.py:337-359 | No shorter prefix covers the amount, and when all selected do not cover it no coin was left out. |
| CoinSelection.Take | src/wallet.py:349-359 | The accumulating loop stops at the first prefix that covers the amount. |
| WalletTxs.HashIgnoresSignatures | src/transaction.py:171-185 | Filling in signatures, keys and proofs does not change what was signed. |
| WalletTxs.SignedTransferValidates | src/transaction.py:442-485 | A batch-signed transfer of owned outputs validates exactly when it balances. |
| WalletTxs.RegistrationValidatesIff | src/transaction.py:578-638 | A registration naming the inner hash of the address validates exactly when the first selected coin covers the fee, whichever key pair signed it. |
| WalletTxs.RotationValidatesIff | src/transaction.py:640-730 | A well-signed rotation validates exactly when the first selected coin covers the fee. |
| WalletObjects.Wallet.SelectUtxos | src/wallet.py:337-359 | Filter, sort and accumulate compute that selection. |
| WalletObjects.Wallet.SignInputs | src/wallet.py:409-423 | Registered: one fresh batch key per input, raising exactly when the batch runs out. Not registered: an unused key pair per input, with the batch untouched. |
| WalletObjects.Wallet.SignTemporal | src/wallet.py:412-418 | The loop over the inputs uses the next key of the batch for each. |
| WalletObjects.Wallet.SignLegacy | src/wallet.py:419-423 | The loop over the inputs uses up one unused key pair for each; pairs used before stay used. |
| LegacyKeys.LegacyKeyring.GetUnusedKeypair | src/wallet.py:220-226 | The first unused pair of the epoch, or a new one. |
| LegacyKeys.LegacyKeyring.Sign | src/wallet.py:228-234 | A pair signs once; a second use is refused. |
| LegacyKeys.LegacyKeyring.SignOnce | src/wallet.py:419-423 | Taking a pair and signing with it raises the number of used pairs by one. |
| WalletTxs.LegacyTransferIsValid | src/transaction.py:442-485 | A transfer of an unregistered owner validates exactly when it balances, whatever key pairs signed it. |
| WalletObjects.LegacyTransferValidates | src/wallet.py:365-423 | A transfer built before registration validates whenever it passes the structure checks. |
| WalletPayments.BuiltTransferApplies | src/wallet.py:365-423 | A built transfer lists no output twice and is applied completely, if the wallet lists none twice. |
| WalletPayments.SelectedAreDistinct | src/wallet.py:337-359 | Selection does not pick a coin twice. |
| WalletPayments.WithCoinKeepsDistinct | src/wallet.py:311-315 | Learning of an output keeps the coin list free of repetitions. |
| Pitfalls.RegistrationRefused | src/wallet.py:511-571 | Whenever no single coin covers the fee but all together do, the wallet builds a registration that passes the structure checks and the validator refuses. |
| WalletObjects.Wallet.CreateTransfer | src/wallet.py:365-407 | When it declines, and what the transaction it builds contains, carries and pays to whom. |
| WalletObjects.TransferPaysRecipient | src/wallet.py:389-398 | The outputs pay the recipient exactly the amount and the wallet what its selected coins leave over amount and fee, nothing when that is dust, and no one else. |
| WalletObjects.SinglePaysOwner | src/wallet.py:548-556 | A registration or rotation pays the wallet what is left over the fee and no one else, and carries its data in the first output only. |
| Effects.PaymentMovesAmount | src/wallet.py:365-408 | A built payment, once applied with fresh keys, raises the recipient's balance by exactly the amount, leaves the wallet the change in place of the selected coins, and moves no other balance. |
| WalletFees.BuiltTransferValidIff | src/wallet.py:365-408 | A transfer built by a registered wallet whose coins mirror the chain validates exactly when it has 1 to 15 inputs and its fee reaches 36 + 4348 per input + 82 per output. |
| WalletFees.DefaultFeeIff | src/wallet.py:377-383 | The fee the wallet chooses itself always suffices for one input; at rate 1 for exactly one, at the default rate 10 for up to 11. |
| WalletFees.RegistrationStructureIff | src/wallet.py:521-524 | A built registration passes the structure checks exactly when its fee reaches 4460 + 82 per output; the wallet's own fee does at every rate. |
| WalletFees.RotationStructureIff | src/wallet.py:586-588 | A built rotation passes exactly when its fee reaches 4732 + 82 per output; the wallet's own fee does at every rate but 1. |
| Effects.BuiltRegistrationBinds | src/transaction.py:759-765 | A built registration that is valid leaves the chain with the root of the wallet's batch for its address. |
| Effects.BuiltRotationBinds | src/transaction.py:767-788 | A built rotation that is valid leaves the chain with the root it announced. |
| WalletObjects.Wallet.CreateRegistrationTx | src/wallet.py:511-571 | When it declines; one input whatever was selected, change from everything that was. |
| WalletObjects.Wallet.CreateRotationTx | src/wallet.py:573-643 | Announces the next batch root, signed with a reserved key of the current batch. |
| WalletObjects.Wallet.ConfirmRotation | src/wallet.py:645-650 | Moves to the next batch exactly when one was prepared. |
| WalletObjects.TransferValidates | src/wallet.py:365-423 | Wallet to validator: a transfer built by a registered wallet whose coins and root mirror the chain validates whenever it passes the structure checks. |
| WalletObjects.RegistrationValidates | src/wallet.py:511-571 | A registration the wallet builds validates exactly when its first coin covers the fee. |
| WalletObjects.RotationValidates | src/wallet.py:573-643 | A rotation the wallet builds validates exactly when its first coin covers the fee. |
| WalletChain.VerifiesOnlyOwnRoot | src/crypto.py:471-483 | A rotation built in a batch verifies against that batch's root and no other. |
| WalletChain.RegistryFollowsWallet | src/wallet.py:573-650 | In every reachable state the root on chain is the wallet's, or its next one while an applied rotation is unconfirmed, if and only if others published no root for the address or in the end the wallet's first one; otherwise no rotation of the wallet took effect. |
| WalletChain.RunKeepsFit | src/wallet.py:146-178 | That dichotomy holds under any order of registering, marking, building, applying, losing and confirming, with others registering and rotating in between. |
| WalletChain.OthersMayRegisterFirst | src/transaction.py:358-370 | One registration of another root ahead of the wallet's own gives a state in which the registry does not follow the wallet. |
| KeccakTables.PiInverts | native/csrc/sha3.c:53-56 | pi permutes the 25 lanes and has the stated inverse. |
| KeccakTables.FirstTwoRowsAgree | native/cuda/wots_verify.cu:45-54 | C offsets by [x][y], CUDA offsets by lane and CUDA positions agree, lanes 0 to 9. |
| KeccakTables.LastRowsAgree | native/cuda/wots_verify.cu:45-54 | The same for lanes 10 to 24. |
| KeccakTables.FirstOffsetsFollow | native/csrc/sha3.c:26-32 | The offsets follow the walk of section 3.2.2 of FIPS 202, first half. |
| KeccakTables.LastOffsetsFollow | native/csrc/sha3.c:26-32 | The second half. |
| Keccak.KeccakByGrid | native/csrc/sha3.c:39-66 | The C form, with its intermediate grid, computes the permutation of section 3.2 of FIPS 202. |
| Keccak.KeccakByTable | native/cuda/wots_verify.cu:56-81 | The CUDA form, with its table of positions, computes the same permutation. |
| Keccak.FormsAgree | native/cuda/wots_verify.cu:56-81 | On every state both forms end in equal states. |
| Fips202.ThetaBits | native/csrc/sha3.c:45-53 | Bit by bit (section 3.2.1 of FIPS 202): theta adds the parities of the two neighbouring columns, the second one place down. |
| Fips202.RhoPiLanes | native/csrc/sha3.c:55-58 | The lane the walk reaches after t steps is rotated by the t-th triangular number and moves from (x, y) to (y, 2x + 3y) (sections 3.2.2 and 3.2.3 of FIPS 202). |
| Fips202.WalkCovers | native/csrc/sha3.c:25-32 | The walk reaches every lane but the origin, which stays. |
| Fips202.ChiBits | native/csrc/sha3.c:60-63 | Bit by bit (section 3.2.4 of FIPS 202): chi adds the next bit of the row, inverted, times the one after it. |
| Fips202.IotaBits | native/csrc/sha3.c:65-66 | Bit by bit (section 3.2.5 of FIPS 202): iota adds the round constant to the lane at the origin and leaves the others. |
| Fips202.RoundConstantBits | native/csrc/sha3.c:9-23 | The bits of the 24 constants are those of the shift register of section 3.2.5 of FIPS 202. |
| Fips202.AbsorbedBits | native/csrc/sha3.c:76-86 | Going in, bit k of byte 8i + b of a block is added to bit 8b + k of lane i. |
| Fips202.EmittedBits | native/csrc/sha3.c:112-118 | Coming out, bit k of byte 8i + b is bit 8b + k of lane i. |
| Fips202.PaddedBits | native/csrc/sha3.c:88-99 | Behind the message stand the bits 0 1 of SHA3, a 1, zeros, and a 1 that ends a block (sections 5.1 and 6.1 of FIPS 202). |
| Sha3.BothForms | native/csrc/sha3.c:39-66 | For 64-bit lanes and the tables of the code, both forms end in the permutation of the state they started from. |
| Sponge.KeccakC | native/csrc/sha3.c:69-122 | For every input and output length, offset-driven absorb and squeeze equal folding the permutation over the blocks of the padded input (sections 4 and 5.1 of FIPS 202). |
| Sha3.Sha3_256 | native/csrc/sha3.c:124-127 | The sponge with capacity 2 * 256 and 256 bits of output (section 6.1 of FIPS 202), over the permutation and bytes that `Fips202` describes bit by bit. |
| Sha3.Sha3_512 | native/csrc/sha3.c:129-132 | The same with capacity 2 * 512 and 512 bits of output. |
| Sha3.PadInjective | native/csrc/sha3.c:90-98 | Padding with any domain byte loses nothing, one byte or many. |
| Sha3.Sha3PadInjective | native/csrc/sha3.c:90-98 | The same for 0x06, zeros, 0x80 and the single byte 0x86. |
| ParallelMerkle.PairUpSplits | src/performance.py:388-397 | Pairing splits at every even position. |
| ParallelMerkle.ChunksPairUp | src/performance.py:358-386 | Hashing even-width chunks separately and joining the results is hashing the level. |
| ParallelMerkle.HashChunk | src/performance.py:388-397 | The loop pairs up its chunk; a last odd entry is paired with itself. |
| ParallelMerkle.RootSequential | src/performance.py:341-356 | The sequential loop computes the level-by-level root. |
| ParallelMerkle.RootParallel | src/performance.py:358-386 | So does the chunked loop, for every number of workers and any order in which they finish. |
| ParallelMerkle.ComputeRoot | src/performance.py:322-339 | Whichever way is taken, the root is the level-by-level root; zero bytes for an empty list. |
| Codecs.StreamRoundTrip | src/p2p.py:72-99 | Any concatenation of framed messages reads back as the same sequence. |
| Codecs.ReadIsPrefix | src/p2p.py:82-99 | What was read is what the stream starts with. |
| Codecs.PeersRoundTrip | src/p2p.py:169-209 | Peer lists of any length decode to the list that was encoded. |
| Codecs.WritePeers | src/p2p.py:169-182 | The appending loop writes that encoding. |
| Codecs.ReadPeers | src/p2p.py:184-209 | The offset loop reads it, raising on a cut entry. |
| Codecs.SelfInfoRoundTrip | src/p2p.py:211-230 | A self-info record decodes to itself, with anything behind it. |
| Codecs.CommitmentRoundTrip | src/node.py:418-450 | Commitments to any number of targets decode to what was encoded. |
| Codecs.ProposalRoundTripIff | src/node.py:507-537 | A proposal survives the wire exactly when both optional roots are present. |
| Codecs.EmptyRootChangesHash | src/consensus.py:69-78 | A proposal with an empty root hashes a different string at the receiver, and only such a proposal does. |
| Codecs.DecodedHashCommits | src/consensus.py:69-78 | Proposals read off the wire have one hash exactly when they agree in all fields but the timestamp, unless their hashed strings collide. |
| Codecs.VoteRoundTrip | src/node.py:539-567 | Votes decode to what was encoded. |
| Codecs.DecodedVoteReencodes | src/node.py:549-567 | What decodes re-encodes to the bytes it was read from. |

## Left out

- Agreement.FinalizationsAgree: covers one `start_round` per epoch at each node, a registry that does not change, and votes that come from the voter they name, because votes are not tied to a round in the tables and their signatures are not examined.
- Agreement.HonestNodesPreCommitOnce: has the same scope.
- Proposals.RecordedProposalsAgree: takes proposer ids and measurement roots of 32 bytes, epochs and rounds that fit 64 bits, and roots of 32 bytes or none; `CreateProposal` itself checks no lengths.
- Consensus.BFTConsensus.CheckPreVoteThreshold: the floating-point ratio test is taken as `100 * s >= 67 * T`; rounding of the quotient is not modelled.
- Consensus.BFTConsensus.CheckPreCommitThreshold: the same reading of the ratio.
- Consensus.BFTConsensus.ReceivePreVote: a vote is a value, so the write of the registered stake into a vote object shared with another node is not seen there.
- LedgerRuns.SuccessIsClean: like every theorem on such runs and blocks in them, assumes no SHA3-256 collision among the hashed bytes of the completed transactions and no two completed coinbases of one hash; of other submissions nothing is assumed.
- LedgerRuns.ValueIsConserved: needs that a coinbase is not repeated; `LedgerRuns.AccountIsExact` is the account without any assumption.
- LedgerRuns.NoInflation: leaves SLASH out, because its validation does not compare inputs with outputs.
- Blocks.BlockRaisesAtMostReward: leaves out SLASH and coinbases taken from the mempool, which the code would accept into a block.
- Mempools.Mempool.AddTransaction: the fee rate is an arbitrary function from transactions to a totally ordered number, which stands for the floating-point quotient.
- ShardedSteps.AtMostOneSpender: every key is added once; adding a spent key again would revive it.
- ShardedSteps.ReadIsBetween: holds while no add is under way; with adds no such bracket exists.
- Recovery.RecoveryAgrees: takes block epochs as natural numbers, transactions with values that SQLite can hold, 32-byte references, 64-byte addresses and different block hashes; a block whose hash is stored under another epoch is not inserted by the code.
- WalletChain.RegistryFollowsWallet: nobody but the wallet signs rotations for one of its roots that is on chain; a rotation is confirmed only after it was applied, and the roots of the batches reached so far and of the next one are distinct; confirming earlier would leave the wallet ahead of the chain.
- Acceptance.OnlyBatchKeysSpend: speaks of proofs with ten 32-byte siblings, the shape of a batch's own; the code accepts proofs of any shape that fold to the root.
- Effects.BalanceAfter: takes output keys that are fresh, which `LedgerRuns.SuccessIsClean` gives in runs.
- LegacyKeys.LegacyKeyring.GenerateKeypair: a pair keeps the seed its keys come from; its unused address field is left out.
- MerkleBuild.BuildRoot: the flat byte buffer is an array of 32-byte cells, so byte offsets inside a cell are not modelled.
- MerkleBuild.BuildWithProof: the same, and the number of leaves must fit the depth cap of eleven entries.
- Keccak.KeccakByGrid: the 5-by-5 array of the C code is one array of 25 lanes.
- Sha3.BothForms: a rotation by zero shifts right by 64 in C, which C does not define; it is taken to clear the word, as intended.
- Codecs.PeersRoundTrip: host names are byte strings; UTF-8 is not modelled.
- WotsNative.VerifyBatch: kernel launches and memory transfers are calls of a thread function in an arbitrary order.
- The Rust versions of the tree, the signature scheme and the key tree repeat algorithms proved here for C and Python.
- The CUDA copy of the sponge around its permutation, and the CPU copies in the same file, repeat `Sponge.KeccakC`.
- `TxInput.to_bytes` and `from_bytes` disagree on the width of the index, and `_deserialize_reveal` has no inverse; no round trip is claimed.
- `TransactionPipeline` and `BatchWOTSVerifier`: a caller of the batch verifier drops valid signed transactions, so no equality with the validator is claimed.
- Networks.SimNetwork.RunEpoch: the measurement, commitment and reveal phases are left out; what they yield enters as the roots of the proposal.
- Timestamps, nonces and measured data are parameters; clocks, sockets, threads as objects, SQL text, snapshots, printing and the erasing of secrets are not modelled.
- Epoch clock, entropy well, detection and measurement: wall-clock reads and floating-point statistics.
- The Byzantine slashing manager, block finalizer, coordinator, parallel block builder, peer manager and statistics would only add easy members.
- Stake, unstake and data builders of the wallet and its pending-transaction bookkeeping: variants of the transfer and plain list updates.
