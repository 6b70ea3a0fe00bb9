# A verified model of AWENET's core

AWENET is a peer-to-peer network with its own currency (ONECOIN), sharded and replicated storage, a two-level topology of data centres, and guards against replayed or excessive traffic. This project models the logic of `core/` in Dafny and proves what it is meant to guarantee, for all inputs, all runs and all reachable states. `dafny verify dfyconfig.toml` checks everything.

The model is in five parts.

1. **ONECOIN.** `Onecoin` holds the entities and the cryptography they rest on; `Ledger` says on values what every ledger operation does; `OnecoinLedgers` is the ledger object that does it in place. `Conservation` accounts for every atom over all runs, and `Idempotence` shows that receipts and replicated transfers count once. `Consensus` and `FinalizedStates` model blocks, quorum certificates and finalization; `ChainSafety`, `OrderIndependence`, `Quorum` and `Agreement` prove what holds along and between chains. `Runtime` and `ConsensusRuntimes` model the message-driven node, and prove what holds of any two nodes under any schedules. `Payments`, `Certified`, `Forks`, `Repeats` and `Progress` build transfers, blocks and schedules that succeed, and with them show that the bounds are exact. `Effects` says what each ledger operation does to each account and exactly when it goes through, and `Authorization` that nothing is spent, issued or finalized without the right signatures. `Ballots`, `Polls` and `Handlers` say exactly what each message does to a node, and which ballots finalize a block. `Price` is the price floor.
2. **Replicas.** `Replication`, `Capacity`, `Rendezvous`, `Placements` and `Repair`: the greedy capacity-limited allocator, the rendezvous selector, which nodes hold which shard, and the repair planner.
3. **Topology.** `Topology` and `Links`: the mutating operations and their two-sided link records; `Bfs` and `Routing`: breadth-first routing and what a relay failover restores; `Peers`: who learns whom, exactly, and the routes a connect opens; `Network`: the network object whose loops carry the operations out. Hash-map iteration order is an explicit choice of each operation, so every theorem holds for every order.
4. **Replay window.** `Bits` and `Replay`: the shifting bitmap stands for a set of accepted numbers, and the bounded table evicts by age.
5. **Limits and codecs.** `Limits` (token bucket, per-peer admission), `Storage` (shard layout and recovery) with `ParityCode`, `Canonical` (envelope encoding).

`Prelude`, `Sorting` and `MapSum` are shared: machine integers with explicit saturation and wrap-around, stable sorting, sums over map values.

Conventions. Keys, AWE-IDs and digests are the natural numbers their 32 bytes spell. Hashing and signature checking are functions in a `Crypto` record; where a theorem needs it, `CollisionFree` says that hashing is injective and `SignsFor` that a signer's own signatures verify; `Assumptions` shows that both can be met together. Integers carry their width: `u64` and `u128` operations saturate or wrap exactly where the code does. A class method is proved equal to a function on values, and the theorems are about that function.

Findings, each proved below with the exact condition:

- Conservation holds throughout a run below 2^128 atoms if and only if no fee transfer overcharges: `apply_transfer_with_fee` saturates amount plus fee, so a wallet holding 2^128 - 1 atoms can pay less than is collected (`Conservation.RunConserves`, `Conservation.CeilingIsSharp`).
- The order of transfers is irrelevant on a ledger if and only if its balances add up to less than 2^128 atoms (`OrderIndependence.OrderMattersExactlyAboveCeiling`).
- Two quorums share a third of the validators on exactly the sizes `Quorum.OverlapThird` names; 5000 is the first size where they do not. They stop sharing any validator at 3,689,348,814,741,912, where the saturating product bites.
- A transfer can run twice exactly in runs of more than 2^64 transfers, where the nonce comes round again (`Payments.RepeatsExactlyBeyondNonces`), and honest validators can finalize one twice with 2^64 + 1 transfers and no fewer (`Repeats.ChainRepeatsExactlyThere`). The duplicate check inside `finalize` decides nothing that nonces do not.
- Two nodes are safe from k validators that approve two blocks at one height if and only if k is below 2q - n (`Forks.ThresholdIsExact`).
- Ballots finalize a ready block if and only if a quorum approves and its ballots fit the table of 4096 votes per block, which is so for up to 6144 validators and no more; larger sets can finalize only through certificates from elsewhere (`Polls.BallotsFinalizeExactly`, `Polls.QuorumFitsTable`).
- Pending blocks that no longer extend the tip are never dropped. A node can finalize another block, in some future, if and only if a pending block extends its tip and executes, or the table of 256 has room below the last height (`Progress.ProgressExactly`); the standstill is reached from genesis (`Progress.StandstillReached`).
- The empty file under a policy that the erasure code rejects is encoded but never recovered (`Storage.RoundTripExactly`, `Storage.EmptyFileIsLost`); and with a code over bytes, which has room for 256 shards, the policy the node picks for a file works exactly up to 84 MiB (`Storage.OwnPolicyWorksUpTo84MiB`).

## Model

| member | source | states |
|---|---|---|
| Ledger.JoinDealsOneCoin | core/src/onecoin.rs:190-205 | A join deals out exactly one coin, for every member count, none counting as one: equal shares plus a remainder of less than one atom per share; the distribution is active exactly while there are at most as many shares as atoms in a coin. |
| Ledger.GenesisContents | core/src/onecoin.rs:294-314 | Every founder, named once or repeatedly, starts with ten coins and nonce zero; no other account or field is touched; the issued total is ten coins per distinct founder, saturating. |
| OnecoinLedgers.OnecoinLedger.constructor | core/src/onecoin.rs:260-277 | A new ledger object is the default ledger, price policy included. |
| Price.FloorFollowsHighest | core/src/onecoin.rs:222-239 | After any observations the floor is a dollar plus twenty per hundred-dollar band of the highest price seen, whatever the order; it never falls and never saturates. |
| Price.OnecoinPricePolicy.ObserveReferencePrice | core/src/onecoin.rs:225-239 | The object carries out `Price.Observe`. |
| OnecoinLedgers.OnecoinLedger.InitializeGenesis | core/src/onecoin.rs:294-314 | The loops that deduplicate and store the founders carry out `Ledger.Genesis`, refusals included. |
| OnecoinLedgers.OnecoinLedger.InitializeGenesisWithVerifiers | core/src/onecoin.rs:316-331 | Verifiers are stored one by one; a bad one is refused after the members and earlier verifiers are in place, as in the code. |
| OnecoinLedgers.OnecoinLedger.AuthorizeRewardVerifier | core/src/onecoin.rs:333-353 | Only a verifier can authorize, and only a member can become one. |
| OnecoinLedgers.OnecoinLedger.EnsureMember | core/src/onecoin.rs:359-364 | Membership, balance and nonce entries appear where missing and are otherwise kept. |
| OnecoinLedgers.OnecoinLedger.RegisterMember | core/src/onecoin.rs:366-392 | The join with its dividend loop carries out `Ledger.Register`. |
| OnecoinLedgers.OnecoinLedger.MintVerifiedContributionReward | core/src/onecoin.rs:394-424 | Minting carries out `Ledger.Mint`: each refusal in its order, each receipt at most once. |
| OnecoinLedgers.OnecoinLedger.ApplyTransferWithFee | core/src/onecoin.rs:426-466 | The in-place transfer with fee carries out `Ledger.TransferWithFee`, self-transfers and saturation included. |
| OnecoinLedgers.OnecoinLedger.ReceiveTransfer | core/src/onecoin.rs:471-496 | A replicated transfer is credited once per transaction id, after both members are ensured. |
| OnecoinLedgers.OnecoinLedger.ApplyTransfer | core/src/onecoin.rs:498-531 | The in-place transfer carries out `Ledger.Transfer`, each refusal in its order. |
| Effects.GenesisExactly | core/src/onecoin.rs:294-314 | Genesis goes through exactly once, for a nonempty list, and then founds exactly the listed members; refused, it changes nothing. |
| Effects.AddVerifiersExactly | core/src/onecoin.rs:316-331 | The first verifiers are accepted if and only if all are members; each is then registered under its own id, and no other entry changes. |
| Effects.GenesisWithVerifiersExactly | core/src/onecoin.rs:316-331 | Genesis with verifiers succeeds if and only if genesis does and every verifier is a founder; with a bad one the members and earlier verifiers stay. |
| Effects.AuthorizeExactly | core/src/onecoin.rs:333-353 | Authorizing succeeds if and only if the authorizer is a verifier and the new key is a member's; only the new key's entry changes. |
| Effects.EnsureExactly | core/src/onecoin.rs:359-364 | Ensuring a member adds that one and changes no balance and no nonce. |
| Effects.RegisterExactly | core/src/onecoin.rs:366-392 | Exactly newcomers can join; a join pays exactly while every earlier one did and a share is at least an atom, and then every member, old or new, gets the same whole share of one coin and the rest is set aside. |
| Effects.RewardExactly | core/src/onecoin.rs:100-139 | The reward is the weighted contribution at the policy's rate up to its cap; saturation in between never shows. There is one if and only if the period and the contribution are not empty. |
| Effects.MintExactly | core/src/onecoin.rs:394-424 | A receipt is paid if and only if a registered verifier signed it, it is new, names a member and earns a reward; the named node alone is credited, with exactly the reward. |
| Effects.FeeExactly | core/src/onecoin.rs:436-441 | The fee is the saturated product of amount and basis points, in ten-thousandths rounded down. |
| Effects.FeeTransferExactly | core/src/onecoin.rs:426-466 | A fee transfer goes through if and only if the fee is at most five percent, the sender signed, both ends are members, the nonce is next and the balance covers amount and fee; the sender pays both, the recipient gets the amount, the fee is collected, and no other account moves. |
| Effects.ReceiveExactly | core/src/onecoin.rs:471-496 | A replicated transfer is accepted if and only if it is for this wallet and signed; the first time it credits this wallet alone with the amount. |
| Effects.TransferExactly | core/src/onecoin.rs:498-531 | A transfer goes through if and only if its sender signed it, both ends are members, the nonce is next and the balance covers it; the amount then moves, the nonce advances, and no other account changes. |
| Authorization.OnlyOwnersSpend | core/src/onecoin.rs:294-531 | After any run of ledger operations, if an operation lowers an account's balance or moves its nonce, it is a transfer, with or without fee, signed by the key whose id is that account, of version 1, with a nonzero amount and a memo within its limit. |
| Authorization.LogsAreSigned | core/src/onecoin.rs:294-531 | A reward is logged only for a receipt signed by a registered verifier, a receipt of coins only for a signed transfer to the recipient, and verifiers change only through a verifier or at genesis. |
| Conservation.RegisterEffect | core/src/onecoin.rs:366-392 | A join keeps the books and creates one coin if it pays and none otherwise. |
| Conservation.MintEffect | core/src/onecoin.rs:394-424 | A reward is issued and credited in full. |
| Conservation.MoveEffect | core/src/onecoin.rs:446-464 | A transfer, to oneself or to another, removes exactly the fee from the balances. |
| Conservation.ReceiveEffect | core/src/onecoin.rs:471-496 | A replicated transfer adds to balances exactly what it logs as received, the first time, and nothing the second. |
| Conservation.OverchargeEffect | core/src/onecoin.rs:453-464 | A fee transfer whose amount plus fee exceeds 128 bits collects more than was paid. |
| Conservation.StepSound | core/src/onecoin.rs:294-531 | Every operation of the ledger that does not overcharge keeps the conservation law, as long as the volume stays below 2^128 atoms. |
| Conservation.RunConserves | core/src/onecoin.rs:294-531 | Over every run below 2^128 atoms: balances plus fees equal issued plus received, and issued plus join remainder equal ten coins per founder, one per paying join and the rewarded receipts. This holds after every operation if and only if no fee transfer overcharges. |
| Conservation.BelowCeilingConserves | core/src/onecoin.rs:294-531 | One atom lower, no transfer of any run can overcharge and the law holds outright. |
| Conservation.CeilingIsSharp | core/src/onecoin.rs:436-462 | A concrete run with 2^128 - 1 atoms overcharges and breaks the law. |
| Conservation.ReloadsExactlyWhenFeesCover | core/src/onecoin_store.rs:165-195 | A ledger reached by any conserving run passes the reload check if and only if collected fees cover what came in by replication. |
| Idempotence.RewardedOnce | core/src/onecoin.rs:408-423 | A contribution receipt that was rewarded is refused for ever after, over every run of ledger operations. |
| Idempotence.ReceivedOnce | core/src/onecoin.rs:468-496 | A replicated transfer that was credited is never credited again: repeating it, after any run, reports so and changes no balance. |
| Consensus.CanonicalOrderTotal | core/src/onecoin_consensus.rs:46-49 | Sender, nonce and transaction id order transactions totally. |
| Consensus.NewBlockCanonical | core/src/onecoin_consensus.rs:36-64 | Every permutation of the same transactions makes the same block, holding exactly those transactions under the given height, parent, time and proposer; it passes the shape check and verifies under its proposer's key. |
| Consensus.ShapeIsSorted | core/src/onecoin_consensus.rs:82-100 | The adjacent-pair check accepts only lists that sorting would leave unchanged. |
| Quorum.QuorumsIntersect | core/src/onecoin_consensus.rs:168-174 | Two quorums among n validators share at least 2q - n of them. |
| Quorum.OverlapPositive | core/src/onecoin_consensus.rs:168-174 | The shared part is nonempty on exactly the sizes 1 to 3,689,348,814,741,911. |
| Quorum.OverlapThird | core/src/onecoin_consensus.rs:15 | The exact sizes on which 2q - n reaches floor((n-1)/3)+1. |
| Quorum.FirstSizeBelowThird | core/src/onecoin_consensus.rs:15 | It does so below 5000 and fails at 5000. |
| FinalizedStates.VerifyCertificate | core/src/onecoin_consensus.rs:146-175 | The loop over votes accepts exactly the certificates in which a quorum of distinct validators have a verified approval of this block at this height. |
| FinalizedStates.FailureStays | core/src/onecoin_consensus.rs:218-227 | A failing transaction decides the block's error, whatever follows it. |
| FinalizedStates.OnecoinFinalizedState.ExecuteOnClone | core/src/onecoin_consensus.rs:216-227 | The loop runs the transactions on a clone: the result is the execution on values, and the live ledger keeps its contents. |
| FinalizedStates.OnecoinFinalizedState.Finalize | core/src/onecoin_consensus.rs:196-234 | Either the block fails and state, ledger object and contents are all as before, or the state is exactly the executed one. |
| FinalizedStates.OnecoinFinalizedState.ValidateState | core/src/onecoin_store.rs:165-195 | The check made before saving and after loading decides `Validates`. |
| FinalizedStates.SaturatingTotal | core/src/onecoin_store.rs:175-179 | The saturating fold over balances, in any order, is the true sum or the ceiling. |
| ChainSafety.ChainLinked | core/src/onecoin_consensus.rs:196-234 | Along every chain from genesis, block i stands at height i + 1, names its predecessor's hash, is canonical and is certified by a quorum. |
| ChainSafety.ChainApplies | core/src/onecoin_consensus.rs:216-229 | The ledger of a chain is what its transactions, one after another, make of the genesis ledger. |
| Authorization.ChainIsSigned | core/src/onecoin_consensus.rs:76-175 | Every block of every chain has version 1, at most 4096 transfers under their digest, its proposer's signature and approvals signed by two thirds of the validators for that very block; each of its transfers is signed by its sender, from one member to another. |
| Authorization.TransfersAreSigned | core/src/onecoin_consensus.rs:196-234 | Every transfer on a chain verifies under its own sender's key. |
| ChainSafety.NoncesContiguous | core/src/onecoin.rs:498-531 | The k-th transfer of an account carries its k-th nonce, modulo the 64-bit counter. |
| ChainSafety.NoReplay | core/src/onecoin.rs:509-512 | A transaction runs again only after its account sent a positive multiple of 2^64 transfers in between. |
| Payments.RepeatsExactlyBeyondNonces | core/src/onecoin.rs:498-531 | On every ledger with a member that can sign and holds an atom, some run of n transfers executes one of them twice if and only if n exceeds 2^64. |
| ChainSafety.ChainNeverRepeats | core/src/onecoin_consensus.rs:196-234 | No transaction is finalized twice on any chain of up to 2^64 transfers. |
| Repeats.ChainRepeatsExactlyThere | core/src/onecoin_consensus.rs:196-234 | That bound is sharp: among chains of up to 2^64 + 1 transfers, one without any double approval that finalizes a transaction twice exists for exactly 2^64 + 1. |
| ChainSafety.DuplicateCheckRedundant | core/src/onecoin_consensus.rs:219-223 | Execution with the duplicate check succeeds exactly when execution without it does. |
| ChainSafety.ChainReloads | core/src/onecoin_store.rs:165-195 | Every state a chain reaches from a loadable ledger passes the reload check. |
| ChainSafety.GenesisReloads | core/src/onecoin_store.rs:165-195 | Every genesis ledger passes the reload check. |
| OrderIndependence.OrderDoesNotMatter | core/src/onecoin.rs:498-531 | Below the ceiling, any two orders of the same transfers that both succeed end in the same ledger. |
| OrderIndependence.FindDisagreement | core/src/onecoin.rs:522-529 | On every ledger above the ceiling whose members can sign there are two orders of the same transfers that both succeed and disagree. |
| OrderIndependence.OrderMattersExactlyAboveCeiling | core/src/onecoin.rs:498-531 | Execution is order-independent on a ledger if and only if its balances sum to less than 2^128. |
| Agreement.SharedApproversEquivocate | core/src/onecoin_consensus.rs:155-167 | Whoever counts in two certificates for different blocks at one height has two conflicting verified approvals among the votes of the two certificates. |
| Agreement.ConflictIsAccountable | core/src/onecoin_consensus.rs:146-175 | Two verified certificates for different blocks at one height convict at least 2q - n validators, by the votes they hold. |
| Agreement.HonestIsTrusted | core/src/onecoin_consensus.rs:155-174 | No double approval among the votes seen is enough for agreement, for every set of 1 to 3.6e15 validators. |
| Agreement.ChainFitsHeight | core/src/onecoin_consensus.rs:207-212 | A chain whose certificates convict fewer than 2q - n validators cannot outgrow its saturating 64-bit height: a second block at the last height would be its own parent. |
| Agreement.ChainsAgree | core/src/onecoin_consensus.rs:196-234 | Of two chains over one genesis and one validator set whose certificates convict fewer than 2q - n validators, one is a prefix of the other. |
| Agreement.EqualHeightsEqualStates | core/src/onecoin_consensus.rs:196-234 | For such chains equal heights mean equal blocks, tips and ledgers. |
| Runtime.HandleKeepsTables | core/src/onecoin_consensus_runtime.rs:82-202 | Every message keeps the table invariant: voted blocks are pending, each pending block is well formed, by a validator and under its own hash, each vote is verified, under its voter and matches its block, at most 256 blocks and 4096 votes per block. |
| Runtime.HandleCommits | core/src/onecoin_consensus_runtime.rs:137-202 | A message finalizes nothing and leaves the state, or finalizes exactly one certified block. |
| Runtime.HandleSees | core/src/onecoin_consensus_runtime.rs:137-202 | A node keeps, and certifies with, votes that were delivered to it and no others. |
| Runtime.RunInvariant | core/src/onecoin_consensus_runtime.rs:82-202 | In every reachable node the table invariant holds, the state is the replay of the chain finalized so far, and all ballots and certificate votes were delivered to it. |
| Runtime.OnlyTheDiskRefuses | core/src/onecoin_store.rs:249-259 | From a loadable genesis, the check before saving never refuses a finalized state; only the disk can. |
| Handlers.StrangersAreIgnored | core/src/onecoin_consensus_runtime.rs:82-99 | A message from any key but a validator's own changes nothing. |
| Handlers.ShapeExactly | core/src/onecoin_consensus.rs:82-110 | The shape check accepts exactly version 1, at most 4096 transfers, their digest, and their order by sender, nonce and id. |
| Handlers.ProposalExactly | core/src/onecoin_consensus_runtime.rs:101-135 | A proposal is stored, under its hash, if and only if it is well formed, its proposer is the validator that sent and signed it, it extends the tip and there is room; the answer is one own signed approval to the proposer, or nothing from a non-validator; nothing is finalized. |
| Ballots.BroadcastAnnounces | core/src/onecoin_consensus_runtime.rs:177-184 | A finalized block's certificate goes once to the key of every validator, and nothing else goes to anybody. |
| Ballots.FinalizesExactly | core/src/onecoin_consensus.rs:196-234 | A pending block is finalized by exactly the certificates that hold its signed approval by a quorum of validators, if it extends the tip and executes. |
| Ballots.VoteExactly | core/src/onecoin_consensus_runtime.rs:137-187 | A vote finalizes if and only if it is counted, the ayes with it are a quorum, and the block extends the tip and executes. Exactly that block is then committed with a verifying certificate, announced to every validator, and dropped with its votes once saved. Any other counted vote is only recorded; an uncounted one changes nothing. |
| Polls.BallotsFinalizeExactly | core/src/onecoin_consensus_runtime.rs:137-187 | Over every run of approvals, in any order and with any repetition: a ready pending block is added to the chain, alone and once, if and only if the voters are a quorum and a quorum's ballots fit the table; short of it nothing is committed. |
| Polls.QuorumFitsTable | core/src/onecoin_consensus_runtime.rs:160-163 | A quorum's ballots fit the table of 4096 for exactly the validator sets of up to 6144. |
| Handlers.CertificateExactly | core/src/onecoin_consensus_runtime.rs:189-202 | A certificate finalizes if and only if a validator delivers it for a pending block that extends the tip and executes, at its height and with a quorum of its signed approvals; otherwise nothing changes. |
| Handlers.RunKeepsReach | core/src/onecoin_consensus_runtime.rs:82-202 | In every reachable node below the last height, no pending block lies above the next height, and those at the next height extend the tip. |
| Runtime.NodesAgree | core/src/onecoin_consensus_runtime.rs:82-202 | After any message schedules to any two nodes, one finalized chain is a prefix of the other, and equal heights mean equal states, if fewer than 2q - n validators approved two blocks at one height, going by the votes delivered to the two. |
| Runtime.ForkIsAccountable | core/src/onecoin_consensus_runtime.rs:82-202 | A fork between two nodes convicts at least 2q - n validators of approving two blocks at one height, by votes delivered to the two. |
| Certified.NextBlockSound | core/src/onecoin_consensus.rs:36-64 | A block made of transfers in canonical order holds them as handed in, on top of the given state, well formed and signed. |
| Certified.CertifyApprovers | core/src/onecoin_consensus.rs:113-175 | A certificate of one approval by each signer counts exactly the signers. |
| Certified.QuorumFinalizes | core/src/onecoin_consensus.rs:196-234 | A pending block that extends the tip and executes is finalized by the approvals of any quorum. |
| Forks.LeastOverlap | core/src/onecoin_consensus.rs:168-174 | Two quorums that share exactly max(2q - n, 0) validators exist in every set. |
| Forks.ConvictsExactly | core/src/onecoin_consensus.rs:146-175 | Two certificates for different blocks at one height convict exactly the validators that signed both. |
| Forks.LeastFork | core/src/onecoin_consensus_runtime.rs:101-202 | For every validator set there are schedules that fork two nodes while exactly max(2q - n, 0) validators sign two ways. |
| Forks.ThresholdIsExact | core/src/onecoin_consensus_runtime.rs:82-202 | Any two nodes stay on one chain under all schedules that convict at most k validators, if and only if k is below 2q - n. |
| Progress.StandstillLasts | core/src/onecoin_consensus_runtime.rs:101-202 | Over every run, a node none of whose pending blocks extends the tip and executes, and which has no room below the last height, finalizes nothing; its state stays, and below the last height its pending blocks do. |
| Progress.ProgressExactly | core/src/onecoin_consensus_runtime.rs:101-202 | A node has a future in which another block is finalized if and only if a pending block extends the tip and executes, or there is room below the last height. |
| Progress.StandstillReached | core/src/onecoin_consensus_runtime.rs:120-131 | From genesis, 256 rival proposals and one finalized block whose save fails lead to a standstill. |
| Assumptions.AssumptionsAreMet | core/src/onecoin_consensus.rs:66-74 | Injective hashing and signing validators, as assumed, can be had together for every validator set. |
| ConsensusRuntimes.OnecoinConsensusRuntime.Handle | core/src/onecoin_consensus_runtime.rs:82-99 | The object's handler answers and changes state exactly as `Runtime.Handle` says. |
| ConsensusRuntimes.OnecoinConsensusRuntime.HandleProposal | core/src/onecoin_consensus_runtime.rs:101-135 | The proposal handler in place, refusals in their order; it touches the pending blocks alone. |
| ConsensusRuntimes.OnecoinConsensusRuntime.HandleVote | core/src/onecoin_consensus_runtime.rs:137-187 | The vote handler in place: the ballot is kept even when finalization then fails. |
| ConsensusRuntimes.OnecoinConsensusRuntime.HandleCertificate | core/src/onecoin_consensus_runtime.rs:189-202 | The certificate handler in place. |
| ConsensusRuntimes.OnecoinConsensusRuntime.FinalizeAndSave | core/src/onecoin_store.rs:249-259 | A state that could not be saved stays advanced in memory, with its block still pending. |
| Capacity.PicksLeastLoaded | core/src/replication.rs:160-182 | The three nodes taken are distinct, open, and none of them is more loaded than any node passed over. |
| Capacity.BumpKeepsBalance | core/src/replication.rs:178-182 | Taking such nodes keeps all loads within one of each other. |
| Capacity.EnoughEligible | core/src/replication.rs:172-176 | With thirty nodes, balanced loads and a shard still to place, at least three nodes are open. |
| Capacity.GreedyNeverStuck | core/src/replication.rs:143-196 | For any hash, every prefix of the plan exists, gives each shard three distinct nodes, and keeps loads within one of each other and at most 100: the capacity error is unreachable. |
| Capacity.BalancedAverage | core/src/replication.rs:143-196 | In balanced loads every node carries the average, rounded down or up. |
| Capacity.PlaceShard | core/src/replication.rs:160-190 | One turn of the loop, raising loads in place, is `Capacity.Place`. |
| Capacity.BuildCapacityLimitedPlan | core/src/replication.rs:143-196 | The loop over shards computes `Capacity.CapacityPlan`. |
| Capacity.CapacityPlanCorrect | core/src/replication.rs:143-196 | The plan exists exactly when there are thirty distinct non-empty names; every shard then has three distinct nodes, loads sum to 3000, each is the average rounded down or up and at most 100. |
| Placements.CapacityPicksExactly | core/src/replication.rs:143-196 | Shard by shard, a node holds it if and only if it has fewer than a hundred of the earlier shards and fewer than three such nodes come before it by load, digest and name; the three are listed in that order. |
| Rendezvous.SelectedExactlyWhenAhead | core/src/replication.rs:37-53 | A node is selected exactly when fewer than three others come ahead of it by score, and by name among equal scores. |
| Rendezvous.SelectedSize | core/src/replication.rs:37-53 | The selection is three distinct names, or all of them if there are fewer. |
| Rendezvous.SelectedOrder | core/src/replication.rs:37-53 | The selection is in order of score, names breaking ties, or of names when all are taken. |
| Rendezvous.SelectionOfSet | core/src/replication.rs:37-53 | It depends on the set of non-empty names alone. |
| Rendezvous.NewcomerDisplacesOne | core/src/replication.rs:37-53 | A new node displaces at most one replica of a shard, and only to take its place. |
| Repair.BuiltPlanExactly | core/src/replication.rs:59-87 | A plan exists exactly when there are three distinct non-empty names; it has exactly the requested number of shards, kept within 12 and 1000, and shard `i` lies on exactly the names with fewer than three names ahead of them for shard `i`, best first. |
| Repair.BuiltPlanNumbered | core/src/replication.rs:59-87 | So its shards are numbered in order, each on three distinct nodes. |
| Repair.HealthExactly | core/src/replication.rs:89-114 | The health record of a shard lists exactly its online replicas, in the order of the placement, counts the others, and is healthy if and only if there are none. |
| Repair.PlanRepairs | core/src/repair.rs:4-31 | The loop over health records computes `Repair.Repairs`. |
| Repair.RepairsCorrect | core/src/repair.rs:4-31 | For any built plan and online set, a shard is listed, once, exactly when it is degraded and enough other nodes are online; what is listed and what survived are exactly three distinct online nodes, and the listed ones come first by name among those that could be listed. |
| Bfs.FrontierBound | core/src/network_topology.rs:430-441 | Along any path the search is already there at least as fast, or its frontier is that close. |
| Bfs.Route | core/src/network_topology.rs:427-451 | On any adjacency table, in any list order, both loops terminate and the result is a shortest repeat-free path, or none if there is none. |
| Routing.TableRouteCorrect | core/src/network_topology.rs:406-452 | A shortest route of the table of live nodes is a correct route of the network. |
| Network.AweNet.Adjacency | core/src/network_topology.rs:410-426 | The loops over centres, nodes and peers tabulate exactly the hops between live nodes. |
| Network.AweNet.Route | core/src/network_topology.rs:406-452 | None exactly when no path of hops between live nodes exists; otherwise a shortest repeat-free path, of live nodes only if the ends differ. |
| Network.AweNet.AddCentre | core/src/network_topology.rs:196-204 | Refused exactly when a node id is already taken; otherwise the centre is stored. |
| Peers.AddExactly | core/src/network_topology.rs:196-204 | A centre enters as it is, exactly when no node id of it is taken; the others stay as they are. |
| Network.AweNet.MarkNode | core/src/network_topology.rs:144-150 | The node's flag changes and nothing else. |
| Peers.MarkExactly | core/src/network_topology.rs:144-150 | Marking succeeds exactly on existing nodes and changes whether that node is live, no peer, score or link. |
| Network.AweNet.FullMesh | core/src/network_topology.rs:116-134 | After the nested loops every live node lists every other live node, in any iteration order. |
| Peers.MeshTeaches | core/src/network_topology.rs:116-134 | Meshing makes the live nodes of the centre know each other, and changes nothing else. |
| Network.AweNet.ConnectCentres | core/src/network_topology.rs:226-325 | The refusals in their order, then the peer insertions and both link records of `Topology.ApplyConnect`; the choices made are ones iteration order allows. |
| Peers.ConnectsExactly | core/src/network_topology.rs:226-302 | Two centres connect if and only if they differ, both exist with a live node, and a relay, if one is asked for, is a live node of the first. |
| Peers.ConnectTeaches | core/src/network_topology.rs:246-324 | A full mesh makes every live node of one centre and every live node of the other know each other; a relay link does so for the relay and a best-scored live node of the other; no other node learns or forgets a peer, and both sides record the same healthy link. |
| Peers.ConnectOpensRoutes | core/src/network_topology.rs:226-452 | Right after a connect any route result between a live node of one centre and a live node of the other is a path, both ways: of at most two nodes after a full mesh, of at most four after a relay link of meshed centres. |
| Network.AweNet.FailoverRelay | core/src/network_topology.rs:327-381 | Carries out `Topology.ApplyFailover`, with the best-scored unused relay and the best-scored target. |
| Peers.FailsOverExactly | core/src/network_topology.rs:327-353 | On two-sided links a failover succeeds if and only if the link exists, the first centre has a live node that is no relay yet, and the second has a live node. |
| Peers.FailoverTeaches | core/src/network_topology.rs:327-381 | The new relay, a best-scored live node that was none, and a best-scored live node of the other centre learn each other; nobody else learns or forgets anything, and the relay is appended on both sides. |
| Links.StepTwoSided | core/src/network_topology.rs:196-381 | Every operation keeps links two-sided. |
| Links.NeverPanics | core/src/network_topology.rs:327-381 | No unwrap of a failover fails while links are two-sided. |
| Links.RunTwoSided | core/src/network_topology.rs:196-381 | Over every run from the empty network: a lists b exactly when b lists a, with the same duplicate-free relays from the two centres, and no operation panics. |
| Links.FailoversBounded | core/src/network_topology.rs:327-381 | Between reconnects, a link fails over at most as often as its two centres have nodes. |
| Routing.MeshPersists | core/src/network_topology.rs:116-134 | A centre stays fully meshed through any run, as long as no node is live that was not when it was meshed. |
| Routing.FailoverBridges | core/src/network_topology.rs:327-381 | After a successful failover one live node of each centre knows the other. |
| Routing.FailoverRestoresRoutes | core/src/network_topology.rs:327-452 | Two centres once fully meshed, after any run and a successful failover: any route result between a live node of one and a live node of the other is a path of at most four nodes, both ways. |
| Replay.AdvanceStands | core/src/replay.rs:28-41 | Shifting the bitmap forward adds the new number and keeps the rest of the window. |
| Replay.FillStands | core/src/replay.rs:43-60 | Inside the window the bit test rejects exactly the accepted numbers, and setting the bit records the new one. |
| Replay.AcceptRefines | core/src/replay.rs:26-81 | One packet: the verdict is the one on sets of accepted numbers, and the table goes on standing for them. |
| Replay.GuardIsSets | core/src/replay.rs:26-81 | After every run, through every wrap of the generation counter: a tracked peer's packet is accepted exactly when its number is new and fewer than 64 behind the highest; unknown peers are accepted; the table stays within its bound. |
| Replay.EvictsLeastRecent | core/src/replay.rs:63-72 | Until the generation counter wraps, the evicted peer is the least recently accepted one. |
| Replay.ReplayGuard.Accept | core/src/replay.rs:26-81 | The object carries out `Replay.AcceptPacket`, evicting a peer of least generation. |
| Limits.RateBound | core/src/limits.rs:25-45 | Over any segment, from any state and with clock readings in any order, admitted cost is at most capacity plus refill, or capacity where that is less, times the spread of the readings. |
| Limits.RateBoundIsTight | core/src/limits.rs:25-45 | For every capacity and refill the bound is met with equality. |
| Limits.WaitingAdmits | core/src/limits.rs:25-45 | Waiting long enough admits any cost within the capacity. |
| Limits.AllowsExactly | core/src/limits.rs:25-45 | A call is admitted if and only if it costs nothing, or its cost fits the capacity and the tokens left plus the refill since the last reading; saturation never shows. |
| Limits.SpendExactly | core/src/limits.rs:25-45 | The bucket after any call, admitted or refused: filled up to its level and less the cost if admitted, and untouched by free and oversized calls. |
| Limits.PeersAreIndependent | core/src/limits.rs:70-93 | A peer never evicted is treated as if it were alone with one bucket. |
| Limits.PeerRateBound | core/src/limits.rs:70-93 | The rate bound carries through the table for every peer never evicted. |
| Limits.TableStaysBounded | core/src/limits.rs:70-93 | The table never tracks more peers than allowed. |
| Limits.EvictsExactly | core/src/limits.rs:70-93 | An unknown peer that finds the table full replaces one with the fewest tokens; nobody else leaves, and no other bucket changes. |
| Limits.TokenBucket.Allow | core/src/limits.rs:25-45 | The object carries out `Limits.Spend` and admits exactly what `Limits.Allows` allows. |
| Limits.PeerAdmission.Allow | core/src/limits.rs:70-93 | The table of bucket objects carries out `Limits.Admit`, evicting a bucket with fewest tokens; no other bucket changes. |
| Storage.EveryByteIsStored | core/src/storage.rs:304-308 | Every byte lands in a data shard, at its row-major place. |
| Storage.FillShards | core/src/storage.rs:304-308 | The in-place loop leaves exactly the bytes in row-major order, zeros elsewhere. |
| Storage.EncodesExactly | core/src/storage.rs:291-314 | Which inputs are encoded and which error the others get; the length of every data shard, each of its bytes, zeros behind the input, and the parity of exactly these shards behind them. |
| Storage.EncodeFile | core/src/storage.rs:291-314 | Encoding computes `Storage.EncodeShards`, error cases and the empty file included. |
| Storage.RecoverFile | core/src/storage.rs:316-333 | Recovery fills the missing shards in place and joins the data shards, as `Storage.RecoverShards` says. |
| Storage.RoundTripExactly | core/src/storage.rs:291-333 | What was encoded comes back from surviving shards if and only if the code accepts the policy and at least `data_shards` survive; it is then the input followed by zeros. |
| Storage.EmptyFileIsLost | core/src/storage.rs:291-333 | The empty file, under a policy with shards of both kinds that the library rejects, is encoded and not recovered, whatever survives of it. |
| Storage.OwnPolicyWorksUpTo84MiB | core/src/storage.rs:50-70 | With a code over bytes, the policy chosen for a file's size encodes it exactly up to 84 MiB. |
| Storage.PolicyForSize | core/src/storage.rs:50-70 | A file gets twelve shards for every started 4 MiB, at least 12 and at most 1000, of which 45 percent rounded down hold data. |
| Storage.CopyCodeIsErasure | core/src/storage.rs:309-313 | Copies of one data shard meet the assumptions about the erasure-code library. |
| ParityCode.SingleParityIsErasure | core/src/storage.rs:309-313 | So does a code with any number of data shards and one parity shard. |
| Canonical.NumberRoundTrip | core/src/canonical.rs:32-43 | Big-endian bytes of a number decode to it. |
| Canonical.BytesRoundTrip | core/src/canonical.rs:36-58 | Any bytes are the big-endian form of the number they decode to. |
| Canonical.TakeExactlyFramed | core/src/canonical.rs:44-58 | Taking a field and framing it undo each other, in both directions. |
| Canonical.Layout | core/src/canonical.rs:5-35 | Where every byte of an encoding goes: two bytes of version, then each field behind its length in eight, high bytes first. |
| Canonical.DecodesExactlyEncodings | core/src/canonical.rs:5-30 | Decoding yields an envelope if and only if its names are text and the input is, byte for byte, its encoding. |
| Canonical.PrefixFree | core/src/canonical.rs:5-12 | No encoding is a proper prefix of another. |
| Canonical.TruncationRefused | core/src/canonical.rs:14-30 | Every truncation of an encoding is refused. |
| Canonical.TrailingExactly | core/src/canonical.rs:14-30 | Trailing bytes are reported exactly when something follows a whole encoding. |
| Canonical.NamesRefusedExactly | core/src/canonical.rs:14-30 | A name is reported exactly when it is there as a whole and is no text, the message type before the request id. |
| Canonical.EncodeEnvelope | core/src/canonical.rs:5-12 | Appending the fields one by one yields `Canonical.Encode`. |
| Canonical.DecodeEnvelope | core/src/canonical.rs:14-30 | Advancing the slice field by field yields `Canonical.Decode`, each error in its order. |

## Left out

- Cryptography (Ed25519, BLAKE3 and the rest) and JSON: hashing is a function, injective where a theorem says so, and a signature check is a predicate; what is signed or hashed is the entity itself instead of its serialized bytes.
- Erasure-code algebra: `Storage.Erasure` states what is assumed of the library, that exactly the sets of at least `data_shards` surviving shards of a codeword rebuild it and that zeros encode to zeros.
- Text: that a name is valid UTF-8 is a predicate handed to the decoder, and names are kept as their bytes.
- Disk, network, clocks and processes: whether the disk takes a state is part of an event, times are parameters, and the `open` functions, quotas and message encodings are not modelled.
- Overflow checks: `height + 1`, `nonce + 1` and the generation counter wrap, as in a release build; a debug build stops there instead.
- Storage.OwnPolicyWorksUpTo84MiB: the data share of a policy is 45 percent of the shards rounded down over the integers; floating-point rounding of the product is not modelled, and the limit of 256 shards is a hypothesis about the code.
- Storage.EncodeFile: shards leave the byte table as sequences before parity is computed, so writing parity into the same buffers is not captured.
- Limits.PeerAdmission.Allow: among peers with equally few tokens any one may be evicted, where the code takes the first key; the same holds for equal generations in `Replay.ReplayGuard.Accept`.
- Network.AweNet.ConnectCentres: centres and nodes are values inside the network object, so aliasing between them is not captured; a node's id is its key in the centre's table, and its metrics are one score.
- Links.RunTwoSided: centres enter under a new id and without links; replacing a centre under its own id is left out.
- Runtime.NodesAgree: double approvals are bounded by hypothesis, since the proposal handler approves every valid proposal that extends the tip; a node that is restarted from disk is not modelled.
- Adding a node to a centre, nearest-node search, health ages, data groups and centre groups: single lookups and counts, or constructors that do not imply their own validation.
- The payment request, the node's dispatcher, the decimal parser, governance votes and the source-address limiter: no success path, no protocol content, or repeats of what is modelled.
