# Botanix peg, checkpoints, upgrades and signing: a Dafny model

Botanix is an EVM chain whose coin is pegged to Bitcoin. This project models the four protocols that keep the peg
sound and proves what holds over every run of them, not only over one call.

1. **Bitcoin checkpoints.** A bounded window of hash-linked Bitcoin headers and the synchronizer that refills it from a
   node that may fail, or follow another branch, between any two calls. Bitcoin is a tree of headers with intrinsic
   heights (`BlockTree`); a round is a function of the answers to its calls (`Synchronizer`); the event loop with its
   one-slot wake-up channel is a state machine (`SyncLoop`).
2. **Peg-ins, peg-outs and block execution.** The proof codec and its multi-proof parser (`ProofCodec`), proof validation
   against a checkpoint (`PeginValidation`), the mint contract with arbitrary re-entering code (`MintContract`), the log
   checks (`MintChecks`), the transaction loop with its roll-back of rejected mints (`BlockExecution`), the fee split
   (`Fees`), peg-in solvency over whole chains (`Solvency`), peg-out ids, amounts and byte forms over whole chains
   (`Pegouts`, `PegoutIds`, `PegoutCodec`, `Amounts`).
3. **Network upgrades.** The activation manager with its vote table (`VoteTable`, `Activation`) and its runs
   (`ActivationRuns`).
4. **Signing peg-outs.** PSBT acceptance (`Psbt`; PSBT as in BIP 174, section "Specification") and what the acceptance
   rules mean on the Bitcoin ledger under confirmations, reorganizations and un-tracking (`PegoutLedger`).

Where the source updates state or runs a loop, the model is a class or a method proved against a specification
function; the results over runs are then lemmas about that function.

## Main results

- `SyncLoop.WaitingMeansSynchronized`: on rising tips, whatever is interleaved or dropped and on whatever window the loop was
  started, a waiting loop holds exactly the confirmed window of the current tip, or still its first window while the tip
  has not passed the height recorded at the start. `SyncRuns.SwitchIsFollowedExactly` and
  `SyncLoop.RestartIsFollowedExactly` say which changes of the tip are followed at all.
- `SyncRuns.TwoRoundsConverge`: two quiet rounds repair every state a run can leave behind.
- `Solvency.PeginSolvency`: no Bitcoin output backs two accepted mints; what the mint contract pays out is exactly the logged
  amounts plus the refunds; and the logged amounts are covered by the outputs. `Solvency.PaymentsAreCovered` and
  `Solvency.RefundIsCoveredExactly` say when the refunds are covered as well.
- `Pegouts.PegoutIdsAreUnique`, `Pegouts.ChainReleasesWhatWasBurned`: over every chain no two peg-outs share an id, and what
  was burned is released, up to less than a satoshi for each.
- `Solvency.MintPassesExactly`, `Solvency.HonestMintPasses`: which mints pass, in terms of the Bitcoin chain, and that whoever
  deposits on it can mint.
- `BlockExecution.BlockAddsUp`, `BlockExecution.ReceiptsShowOutcomes`: gas, fees and receipts of every block.
- `ActivationRuns.DecidesExactly`, `ActivationRuns.SameWindowSameDecisions`, `ActivationRuns.VersionSafety`: when an upgrade is
  proposed and accepted, determinism and safety of upgrades.
- `Psbt.AcceptedExactly`: which PSBTs a signer accepts, in terms of the PSBT and the database alone.
- `PegoutLedger.NoPegoutPaidTwice`, `PegoutLedger.InvIsExact`, `PegoutLedger.AcceptExactly`, `PegoutLedger.UntrackExactly`:
  when no peg-out can be paid twice, exactly.
- `ProofCodec.ParseRecovers`, `ProofCodec.ParseSound`: the parser inverts the encoder, both ways.

## What the code does where a stronger claim would be false

- A tip that is no higher than the recorded height is ignored (`syncer.rs` 141-148). The window then stays on the old
  branch until a higher tip appears. `SwitchIsFollowedExactly` gives the exact condition. Over arbitrary tips a waiting loop
  has recorded at least the height of the current tip, and its window is exact unless such a height was recorded before
  its last round or the chain is too short (`WaitingMeansDecided`).
- A start on a window records a height one above what a finished round leaves (`syncer.rs` 104-108 against 235). A loop
  restarted on an up-to-date window therefore ignores the next block and keeps its window until the tip is two blocks
  higher; a loop started on a window ahead of the chain keeps it until the chain passes it
  (`WaitingMeansSynchronized`, `RestartIsFollowedExactly`).
- `validate` admits an output index equal to the number of outputs and then indexes out of bounds
  (`peg_contract.rs` 113-126). `AbortsExactlyOnePastTheEnd` gives the exact condition for a list of proofs,
  `ExecutionCrashesExactly` for a block.
- The price charged to the sender of a rejected mint and the price credited to the fees agree exactly when the block has a
  base fee, or no priority fee below the fee cap (`PricesAgree`, `RejectedMintConserves`; EIP-1559, section
  "Specification").
- The mint contract records the height before it calls foreign code and logs afterwards, so re-entrant mints may be logged
  in decreasing order of height (`NestedMintsFall`). The mint logs of each account rise if and only if no completed mint had
  another mint for its own account complete during its payment or refund (`LogsRiseExactly`). What always holds is that no
  two mint logs of an account share a height (`TransactionIsGuarded`).
- A mint pays out its logged amount plus a refund of 150,000 times the base fee, and only the logged amount is compared with
  the outputs (`Minting.sol` 42-52, `execute.rs` 669). So the logged amounts of all mints are covered by the outputs, but the
  payments need not be: `MintMayOutpayItsOutputs` is the failing call, and whatever amount is claimed for acceptable
  proofs the payment is covered if and only if the base fee is zero (`RefundIsCoveredExactly`).
- Tracked transactions are removed when they leave the local mempool, when their block is rolled back, and when a finalized
  block spends one of their outputs (`pegout_scheduler/mod.rs` 472-486, 509-527, 601-614, 861). After a removal no id can be
  paid twice if and only if every payer of its open ids that is able to confirm is guarded by another tracked payer
  (`UntrackExactly`, `UntrackLive`); the second payment that is possible otherwise is `UnguardedIsUnsafe`.
- Finalized ids are pruned after a retention period and not refused afterwards (`database/mod.rs` 1483-1531). Accepting a
  transaction that pays a pruned id is safe if and only if it was signed before or is unable to confirm (`AcceptExactly`);
  the failing sequence is `PrunedIdIsPaidAgain`.
- The input loop of the round checks ends at the first input the database does not know (`util.rs` 395-397), so a known but
  mismatching input behind it is accepted (`InputsPassExactly`).
- At the largest 64-bit height the saturating bound of the pruning keeps one vote (`NewerVersionClearsVotes`).
- The manager's documentation speaks of percentages; the code rounds the rate up, so a quorum `q` is reached from strictly
  more than `q - 1` percent (`RateReachesQuorum`).

## Assumptions

They are named predicates and appear in the `requires` of the lemmas that use them.

- `Solvency.Assumptions`: all checkpoints lie on one Bitcoin chain; no header outside that chain has the hash of one in it;
  a transaction is provably in at most one of its blocks; a transaction id in it fixes the outputs; a deposit script names
  one account; the EVM runs the mint contract as `MintContract` does, at the block's base fee, or zero without one.
- `ProofCodec.Formats`: on transactions, and on Merkle trees in their decoded form, the library decoders read forward,
  invert their encoders, and accept only their encoders' output.
- `PegoutCodec.Addresses.RoundTrips`: the address library parses what it prints.
- `BlockExecution.Metered`: a transaction uses at most its gas limit. `Pegouts.FewLogs`: a receipt has at most 2^32 logs.
- `PegoutLedger`: only accepted transactions are broadcast, and acceptance and tracking are one step. The exactness results
  ask for one output that no signed transaction spends.
- Subtraction of 32-bit heights in `validate` wraps, as in a release build.

## Model

| member | source | states |
|---|---|---|
| CheckpointChain.TryNew | crates/botanix-bitcoin-checkpoint/src/chain.rs:51-97 | parameters are refused exactly for a zero strong depth, a window reaching depth 0 or a window end beyond a machine word; otherwise the window spans the requested depths around the strong one |
| CheckpointChain.PushKeepsPath | crates/botanix-bitcoin-checkpoint/src/chain.rs:117-144 | an accepted push of a real block keeps the window a parent-linked path with consecutive heights, grows it by one up to the limit and makes the block the newest |
| CheckpointChain.CheckpointsChain.constructor | crates/botanix-bitcoin-checkpoint/src/chain.rs:51-97 | a new window is empty and within its limit |
| CheckpointChain.CheckpointsChain.Push | crates/botanix-bitcoin-checkpoint/src/chain.rs:117-144 | accepts exactly a block that links to the newest one, evicts the oldest at the limit, and leaves the window alone otherwise |
| CheckpointChain.CheckpointsChain.Clear | crates/botanix-bitcoin-checkpoint/src/chain.rs:238-240 | empties the window |
| CheckpointChain.CheckpointsChain.Display | crates/botanix-bitcoin-checkpoint/src/chain.rs:261-282 | prints each checkpoint once, in order, with its label |
| CheckpointChain.LabelsAreDepths | crates/botanix-bitcoin-checkpoint/src/chain.rs:169-196 | the label printed for a checkpoint is the depth whose lookup returns it, and no other depth returns anything |
| CheckpointChain.PathBelowAncestor | crates/botanix-bitcoin-checkpoint/src/chain.rs:117-144 | a linked window whose newest block is on a chain lies on that chain as a whole, with heights counting down |
| Synchronizer.RangeArithmetic | crates/botanix-bitcoin-checkpoint/src/syncer.rs:141-207 | for a new and deep enough tip something is fetched, no saturating subtraction saturates, the range ends at the newest confirmed block, starts above the confirmed ones, never reaches height 0 and is cut by the window size alone |
| Synchronizer.Fetched | crates/botanix-bitcoin-checkpoint/src/syncer.rs:211-221 | a fetched checkpoint is a real block at the asked height on the chain active during the first call, and fetching fails exactly when a call fails or the height is above the tip |
| Synchronizer.BitcoinCheckpointsChainSynchronizer.constructor | crates/botanix-bitcoin-checkpoint/src/syncer.rs:98-111 | starting on a window records a height one above what a finished round leaves |
| Synchronizer.BitcoinCheckpointsChainSynchronizer.PushHeights | crates/botanix-bitcoin-checkpoint/src/syncer.rs:209-232 | the fetch loop computes the recursive specification, interrupted or not |
| Synchronizer.BitcoinCheckpointsChainSynchronizer.SyncNewBlocks | crates/botanix-bitcoin-checkpoint/src/syncer.rs:133-238 | one round computes the outcome, window and recorded height of the specification |
| Synchronizer.BitcoinCheckpointsChainSynchronizer.HandleResult | crates/botanix-bitcoin-checkpoint/src/syncer.rs:419-462 | a stale link resets window and height, every failure asks for another round |
| SyncRuns.FetchRound | crates/botanix-bitcoin-checkpoint/src/syncer.rs:133-238 | a fetching round keeps the window a path; a successful one fills it up to the newest confirmed block, a failed one keeps the recorded height and either the window or one ahead of it |
| SyncRuns.IdleRound | crates/botanix-bitcoin-checkpoint/src/syncer.rs:136-168 | an unanswered first call or a tip that is not new or not deep enough leaves the window alone |
| SyncRuns.SyncIsExact | crates/botanix-bitcoin-checkpoint/src/syncer.rs:133-238 | from every reachable state, a round that reports checkpoints leaves exactly min(tip+1-lowest, size) linked blocks, ending at the newest confirmed height, whatever the node answered |
| SyncRuns.ReportIsTail | crates/botanix-bitcoin-checkpoint/src/syncer.rs:209-237 | the reported checkpoints are exactly the newest ones of the window |
| SyncRuns.StartKeepsInv | crates/botanix-bitcoin-checkpoint/src/syncer.rs:98-111 | every start, on an empty or on any linked window, satisfies the invariant |
| SyncRuns.RoundKeepsInv | crates/botanix-bitcoin-checkpoint/src/syncer.rs:419-462 | every round keeps the invariant, whatever the node answers |
| SyncRuns.RunsKeepInv | crates/botanix-bitcoin-checkpoint/src/syncer.rs:133-238 | so does every sequence of rounds |
| SyncRuns.SyncOnOneTip | crates/botanix-bitcoin-checkpoint/src/syncer.rs:133-238 | a reporting round answered from one tip leaves exactly that tip's window, old entries included |
| SyncRuns.SteadyRound | crates/botanix-bitcoin-checkpoint/src/syncer.rs:133-238 | against a node that answers and stays put a round reports checkpoints or finds a stale link, and never the latter from an empty window |
| SyncRuns.TwoRoundsConverge | crates/botanix-bitcoin-checkpoint/src/syncer.rs:133-238 | two such rounds reach the exact window from every state a run can leave: dirty, seeded, on another branch or far behind |
| SyncRuns.WindowsAgreeExactly | crates/botanix-bitcoin-checkpoint/src/chain.rs:117-144 | two tips have the same window exactly when they have the same newest confirmed block |
| SyncRuns.SwitchIsFollowedExactly | crates/botanix-bitcoin-checkpoint/src/syncer.rs:141-148 | after a move of the tip any two or more quiet rounds reach the new window exactly when the new tip is higher or confirms the same newest block |
| SyncRuns.DepthLookup | crates/botanix-bitcoin-checkpoint/src/chain.rs:169-196 | after a completed synchronization depth d finds the block with exactly d confirmations, and nothing exactly when d is outside the window or the chain is too short |
| SyncLoop.StepKeepsLoopInv | crates/botanix-bitcoin-checkpoint/src/syncer.rs:275-344 | every event keeps this: a token is in the channel, or the tip of the latest notification is no newer than the one the current or last successful round began on |
| SyncLoop.LastTokenServes | crates/botanix-bitcoin-checkpoint/src/syncer.rs:275-344 | in a run that ends waiting on an empty channel, after the last token was taken there was no notification and exactly one round ended |
| SyncLoop.NoLostWakeUp | crates/botanix-bitcoin-checkpoint/src/syncer.rs:275-344 | in every run, a loop waiting on an empty channel has a successful last round, and no notification has arrived since that round took its token; by position, the latest notified tip is no newer than the one the round began on |
| SyncLoop.WaitingMeansDecided | crates/botanix-bitcoin-checkpoint/src/syncer.rs:98-344 | for arbitrary tips, a loop waiting on an empty channel with the current tip announced has recorded at least that tip's height, and its state is what a round on that tip makes of the state the last round found |
| SyncLoop.LoopComesToRest | crates/botanix-bitcoin-checkpoint/src/syncer.rs:275-344 | once the chain stays put and the node answers, a woken loop waits on an empty channel after one pass, or after two if the first finds a stale link |
| SyncLoop.RoundKeepsUpToDate | crates/botanix-bitcoin-checkpoint/src/syncer.rs:297-322 | a round on rising tips never overtakes the chain and, if it began on the current tip and succeeded, catches up with it |
| SyncLoop.RunKeepsStarted | crates/botanix-bitcoin-checkpoint/src/syncer.rs:275-344 | every run of a loop started on any window leaves it untouched while the tip is not above the recorded height, and afterwards keeps the window exact whenever the recorded height is the tip's |
| SyncLoop.WaitingMeansSynchronized | crates/botanix-bitcoin-checkpoint/src/syncer.rs:98-344 | end to end: on rising tips and from every start, a loop waiting on an empty channel with the current tip announced holds exactly its confirmed window, or its first window if the tip is not above the height recorded at the start |
| SyncLoop.RestartIsFollowedExactly | crates/botanix-bitcoin-checkpoint/src/syncer.rs:98-111 | a loop restarted on the window of a finished synchronization comes to hold the window of the current tip exactly when the tip is two blocks higher or confirms the same newest block |
| VoteTable.VotesAddUp | crates/botanix-activation-manager/src/vote_tracker.rs:61-84 | ayes, nays and abstentions add up to the size of the table |
| VoteTable.RateReachesQuorum | crates/botanix-activation-manager/src/vote_tracker.rs:86-116 | a rate reaches quorum q exactly when 100 times the count exceeds (q-1) times the larger of the votes and the minimum count |
| VoteTable.QuorumsOverlap | crates/botanix-activation-manager/src/vote_tracker.rs:86-116 | when both rates pass, more than 2(q-1)-100 percent of the total are at once aye voters and compliant |
| VoteTable.UpdateKeepsNewest | crates/botanix-activation-manager/src/vote_tracker.rs:29-59 | an update touches one validator only and keeps the vote from the greater height, the first of two from one height |
| VoteTable.UpdatesCommute | crates/botanix-activation-manager/src/vote_tracker.rs:29-59 | votes from different validators or heights may arrive in any order |
| VoteTable.VoteWatcher.UpdateUpgradingVote | crates/botanix-activation-manager/src/vote_tracker.rs:29-59 | the proposer's entry is added, or replaced from a greater height only; all others stay |
| VoteTable.VoteWatcher.RemoveUpgradingVotes | crates/botanix-activation-manager/src/vote_tracker.rs:118-128 | exactly the entries below the height go, and their number is returned |
| Activation.BuildIgnore | crates/botanix-activation-manager/src/builder.rs:84-87 | always yields a well-made manager that tracks nothing, with the given version and retention and an empty table |
| Activation.BuildSignal | crates/botanix-activation-manager/src/builder.rs:109-128 | succeeds exactly for a newer version and yields a well-made, non-compliant manager with the given version, vote and retention |
| Activation.BuildCompliant | crates/botanix-activation-manager/src/builder.rs:158-192 | succeeds exactly for a newer version with enough quorum and validators and yields a well-made, compliant manager with the given parameters, voting aye by default |
| Activation.ActivationManager.constructor | crates/botanix-activation-manager/src/manager.rs:327-340 | the object starts in the given state |
| Activation.ActivationManager.ValidateConditions | crates/botanix-activation-manager/src/manager.rs:685-710 | reads the four conditions off the table |
| Activation.ActivationManager.OnPrepareProposal | crates/botanix-activation-manager/src/manager.rs:367-409 | proposes the upgrade's version exactly when all conditions pass, with the node's own vote attached |
| Activation.ActivationManager.OnProcessProposal | crates/botanix-activation-manager/src/manager.rs:432-468 | accepts exactly the active version, or the upgrade's version once all conditions pass |
| Activation.ActivationManager.TrackVote | crates/botanix-activation-manager/src/manager.rs:731-778 | records the vote that counts and prunes what left the retention period |
| Activation.ActivationManager.OnFinalizeBlock | crates/botanix-activation-manager/src/manager.rs:495-572 | the decision and the whole new state are those of the specification |
| Activation.ActivationManager.ForceUpgradeChecked | crates/botanix-activation-manager/src/manager.rs:642-668 | activates exactly the tracked version of a compliant node |
| Activation.ActivationManager.GetUpgradePolling | crates/botanix-activation-manager/src/manager.rs:587-608 | reports the counts of the table, with the total they are measured against |
| ActivationRuns.VersionsAreOrdered | crates/botanix-activation-manager/src/manager.rs:519 | versions are totally ordered, major before minor |
| ActivationRuns.ConditionsMean | crates/botanix-activation-manager/src/manager.rs:685-710 | the four reported conditions are: compliance, target height reached, and more than quorum - 1 percent aye voters and compliant validators of the larger of the table and the minimum count |
| ActivationRuns.DecidesExactly | crates/botanix-activation-manager/src/manager.rs:367-468 | a manager proposes the tracked version exactly when all four hold, and accepts exactly its active version and, when they hold, the tracked one |
| ActivationRuns.IgnoringStaysPut | crates/botanix-activation-manager/src/manager.rs:367-468 | a manager that tracks nothing proposes and accepts its active version alone |
| ActivationRuns.AcceptedUpgradeIsSupported | crates/botanix-activation-manager/src/manager.rs:432-468 | an accepted upgrade block has more than 2(q-1)-100 percent of validators who are at once aye voters and compliant |
| ActivationRuns.FinalizingDecides | crates/botanix-activation-manager/src/manager.rs:495-572 | what finalizing does in each case: keep, move to the upgrade, give it up, or stop with it pending |
| ActivationRuns.ForcedExactly | crates/botanix-activation-manager/src/manager.rs:642-668 | forcing succeeds exactly on a compliant node tracking that version, and then changes the version and drops the upgrade |
| ActivationRuns.VersionSafety | crates/botanix-activation-manager/src/manager.rs:495-572 | in every run of a builder-made manager the active version never decreases and only becomes the tracked one, and only if compliant |
| ActivationRuns.ChangesAtMostOnce | crates/botanix-activation-manager/src/manager.rs:495-668 | after one change the active version is final |
| ActivationRuns.FinalizedIffActiveReached | crates/botanix-activation-manager/src/manager.rs:495-572 | a block is finalized exactly when its version is at most the version active after the call |
| ActivationRuns.ProposalIsAccepted | crates/botanix-activation-manager/src/manager.rs:367-468 | what a manager proposes it accepts and finalizes from the same state (CometBFT ABCI, "Requirements for the Application", coherence) |
| ActivationRuns.SignallingStaysPut | crates/botanix-activation-manager/src/manager.rs:367-572 | a signalling node never proposes, accepts or moves to the upgrade, in any run |
| ActivationRuns.TableMatchesLog | crates/botanix-activation-manager/src/manager.rs:731-778 | the table equals, for each proposer, the latest vote in the finalized log if it is within the retention period |
| ActivationRuns.TableMeans | crates/botanix-activation-manager/src/manager.rs:731-778 | in terms of the finalized blocks alone: a validator is in the table exactly if its last block is recent enough, with the vote cast there for the tracked version, or abstained and not compliant without one |
| ActivationRuns.RunTracksLog | crates/botanix-activation-manager/src/manager.rs:495-572 | finalizing a log without newer versions changes the manager by exactly that table |
| ActivationRuns.SameWindowSameTable | crates/botanix-activation-manager/src/manager.rs:731-778 | logs that agree on the retention window before the same height give the same table, whatever came before |
| ActivationRuns.SameWindowSameDecisions | crates/botanix-activation-manager/src/manager.rs:367-468 | such nodes, also with different own votes, decide every further proposal alike (CometBFT ABCI, determinism) |
| ActivationRuns.OwnVoteIsIrrelevant | crates/botanix-activation-manager/src/manager.rs:731-778 | a node's own configured vote does not influence its table |
| ActivationRuns.NewerVersionClearsVotes | crates/botanix-activation-manager/src/manager.rs:525-549 | the first finalized block of a newer version empties the table; at the largest 64-bit height it leaves exactly its proposer's vote |
| Bytes.LaterBytesWeighMore | crates/botanix-authority-peg/src/peg_contract.rs:201 | integers are written least significant byte first |
| Bytes.VarIntRoundTrip | crates/botanix-authority-peg/src/peg_contract.rs:205-206 | the variable-length integer is read back from the front of any bytes |
| Bytes.VarIntCanonical | crates/botanix-authority-peg/src/peg_contract.rs:238-239 | what is read is the only encoding of the number: longer ones are refused |
| ProofCodec.ReadHeaders | crates/botanix-authority-peg/src/peg_contract.rs:252-256 | the header loop computes the recursive decoder |
| ProofCodec.DeserializeProof | crates/botanix-authority-peg/src/peg_contract.rs:217-266 | reading field by field computes the specified decoder, guards included |
| ProofCodec.DeserializeMeta | crates/botanix-authority-peg/src/peg_contract.rs:328-352 | dispatching on the version computes the specified decoder |
| ProofCodec.SerializeProof | crates/botanix-authority-peg/src/peg_contract.rs:199-214 | appending field by field yields the specified encoding |
| ProofCodec.HeaderLayout | crates/botanix-authority-peg/src/peg_contract.rs:207-209 | where the fields of a header stand |
| ProofCodec.ProofLayout | crates/botanix-authority-peg/src/peg_contract.rs:199-204 | where version, outpoint, address and key of a proof stand |
| ProofCodec.ProofRoundTrip | crates/botanix-authority-peg/src/peg_contract.rs:199-266 | every proof with a valid key and at most 2016 headers is decoded from the front of its encoding followed by anything; the remaining-bytes guard never refuses it |
| ProofCodec.ProofCanonical | crates/botanix-authority-peg/src/peg_contract.rs:217-266 | every decoded proof re-encodes to exactly the bytes consumed |
| ProofCodec.MetaRoundTrip | crates/botanix-authority-peg/src/peg_contract.rs:317-352 | both versions come back with the right tag, provided tag and version field agree |
| ProofCodec.MetaCanonical | crates/botanix-authority-peg/src/peg_contract.rs:328-352 | every decoded proof has agreeing tag and version and re-encodes to the bytes consumed |
| ProofCodec.ParseMetadata | crates/botanix-authority-peg/src/mint_validation.rs:206-232 | the offset loop terminates and computes the recursive parser |
| ProofCodec.ParseRecovers | crates/botanix-authority-peg/src/mint_validation.rs:206-232 | any concatenation of encoded proofs is recovered if the outpoints are distinct and refused as duplicate otherwise |
| ProofCodec.ParseSound | crates/botanix-authority-peg/src/mint_validation.rs:206-232 | whatever is accepted has distinct outpoints and is the concatenation of the encodings of its proofs |
| Amounts.FromWeiFloor | crates/botanix-authority-peg/src/utils.rs:30-37 | defined exactly below the wei of 2^64 satoshis, and then the largest amount not above the input |
| Amounts.FloorIsAdjoint | crates/botanix-authority-peg/src/utils.rs:20-37 | within range, a satoshi amount is worth at most w wei exactly when it is at most the floor of w |
| Amounts.ExactConversion | crates/botanix-authority-peg/src/utils.rs:44-50 | exact conversion succeeds exactly on the wei of a satoshi amount and inverts it |
| PegoutIds.IdBytesRoundTrip | bin/botanix-btc-server/src/pegout_id.rs:17-43 | the 36-byte form is a bijection |
| PegoutIds.IndexSortsAsBytes | bin/botanix-btc-server/src/pegout_id.rs:17-22 | the index is written most significant byte first, so ids of a transaction sort by position |
| PegoutIds.IdBytesInjective | bin/botanix-btc-server/src/pegout_id.rs:17-22 | different ids have different byte forms |
| PegoutCodec.SerializePegout | crates/botanix-authority-peg/src/peg_contract.rs:541-556 | appending field by field yields the specified encoding |
| PegoutCodec.PegoutRoundTrip | crates/botanix-authority-peg/src/peg_contract.rs:541-607 | every peg-out whose address fits its network comes back, whatever follows it |
| PegoutCodec.PegoutSound | crates/botanix-authority-peg/src/peg_contract.rs:559-607 | whatever decodes has version 0, minimal lengths, an address text that parses and fits the network, and the id's 36 bytes |
| PegoutCodec.PegoutMore | crates/botanix-authority-peg/src/peg_contract.rs:559-607 | what is decoded does not depend on the bytes behind it |
| PegoutCodec.TruncationIsRefused | crates/botanix-authority-peg/src/peg_contract.rs:559-607 | no proper prefix of an encoding decodes |
| PeginValidation.CheckLinks | crates/botanix-authority-peg/src/peg_contract.rs:136-145 | the peeking loop accepts exactly the hash-linked header lists |
| PeginValidation.ValidateProof | crates/botanix-authority-peg/src/peg_contract.rs:64-168 | the checks of one proof, in order, give its verdict and value |
| PeginValidation.Validate | crates/botanix-authority-peg/src/peg_contract.rs:55-172 | the accumulating loop computes the sum of the accepted outputs or the verdict of the first failing proof |
| PeginValidation.AbortsExactlyOnePastTheEnd | crates/botanix-authority-peg/src/peg_contract.rs:113-126 | validation stops without an answer exactly when some proof that passes all earlier checks, after accepted ones, names the output one past the last |
| PeginValidation.BackwardAlong | crates/botanix-authority-peg/src/peg_contract.rs:136-145 | linked headers that meet the chain at one position agree with it at all earlier ones |
| PeginValidation.AcceptedBlockIsAncestor | crates/botanix-authority-peg/src/peg_contract.rs:136-160 | the first header of an accepted proof is the chain's block at the claimed height, below the checkpoint |
| PeginValidation.ProofAcceptedExactly | crates/botanix-authority-peg/src/peg_contract.rs:64-168 | a proof is accepted, for its output's value, exactly when its headers lead from the claimed block along the chain to the checkpoint, that block contains the transaction, the output pays the account, and a coinbase has 100 blocks on top |
| PeginValidation.RejectionsMean | crates/botanix-authority-peg/src/peg_contract.rs:64-168 | what each rejection says about the proof |
| PeginValidation.JudgeAcceptsExactly | crates/botanix-authority-peg/src/peg_contract.rs:55-172 | a list of proofs is accepted exactly when each of them is |
| PeginValidation.AcceptedProofsShareBlock | crates/botanix-authority-peg/src/peg_contract.rs:55-172 | all proofs of an accepted event name the very same Bitcoin block |
| MintContract.TransactionIsGuarded | contracts/src/Minting.sol:28-53 | however calls nest, revert and re-enter: recorded heights only grow, each mint log lies above the old and at most at the new height of its account, and no two of an account share a height |
| MintContract.LogsRiseExactly | contracts/src/Minting.sol:28-53 | for all code, base fees and storages: the mint logs of each account rise in log order if and only if no completed mint had another mint for its own account complete during its payment or refund |
| MintContract.NestedMintsFall | contracts/src/Minting.sol:40-52 | a mint whose payment mints for the same account at the next height leaves the later height logged first |
| MintContract.PlainMintPays | contracts/src/Minting.sol:28-53 | a plain mint succeeds exactly with a new height and an amount of at least the refund; it then pays the whole amount and logs the rest |
| MintContract.PlainBurnLogs | contracts/src/Minting.sol:57-61 | a burn logs its sender, value, destination and data exactly above 330 satoshis, and changes nothing else |
| MintContract.PaidOutIsLoggedPlusRefunds | contracts/src/Minting.sol:42-52 | a transaction pays out exactly its logged amounts plus one refund per mint, also under re-entrancy |
| MintChecks.BurnPassesExactly | crates/botanix-authority-peg/src/mint_validation.rs:246-318 | a burn is accepted exactly if its satoshis fit 64 bits, its version is one byte and its address is valid; it then releases the floor of what was burned to that address |
| MintChecks.CheckMintLog | crates/botanix-evm/src/execute.rs:556-690 | parsing, checkpoint choice, uniformity, height and value checks give the verdict on one mint log |
| MintChecks.ChecksCrashExactly | crates/botanix-evm/src/execute.rs:552-690 | the checks of a transaction end the process exactly at a mint log, after passing ones, with a proof that names the output one past the last |
| MintChecks.CheckAllMints | crates/botanix-evm/src/execute.rs:552-690 | the first loop collects the peg-ins in log order and stops at the first mint that does not pass |
| MintChecks.CheckAllBurns | crates/botanix-evm/src/execute.rs:694-705 | the second loop collects the peg-outs, numbered by log position, and stops at the first bad burn |
| MintChecks.BotanixMintContractChecks | crates/botanix-evm/src/execute.rs:530-708 | the checks as specified: mints first, first failure decides, then burns |
| MintChecks.PeginsMatchMints | crates/botanix-evm/src/execute.rs:552-690 | the peg-ins of a passing transaction are those of its mint logs, one each, in order, with the log's account, amount, height and proofs |
| MintChecks.PegoutsMatchBurns | crates/botanix-evm/src/execute.rs:694-705 | the peg-outs of a passing transaction are those of its burn logs, one each, in order: each goes to its own burn's address, releases its whole satoshis and is numbered by its position |
| MintChecks.BurnsPassExactly | crates/botanix-evm/src/execute.rs:694-705 | the burns of a transaction pass exactly when each of them has a fitting amount, one byte of data and a valid address |
| MintChecks.PegoutsCovered | crates/botanix-evm/src/execute.rs:694-705 | the peg-outs of a transaction release at most what its burn logs burned, and lose less than 10^10 wei per burn |
| MintChecks.PegoutIdsPointAtBurns | crates/botanix-evm/src/execute.rs:694-705 | each id carries the transaction's hash and the position of its own burn log, in increasing order |
| Fees.BlockFeesSplit | crates/botanix-consensus-common/src/utils.rs:16-37 | fails exactly on overflow; otherwise the three shares add up to the total and the remainder goes to the recipient |
| Fees.SumCredited | crates/botanix-evm/src/state.rs:45-52 | crediting an address, new or present, raises the sum of increments by exactly the amount |
| Fees.PostBlockBalanceIncrements | crates/botanix-evm/src/state.rs:12-85 | with all recipients configured the increments add up to the block's fees and each address gets exactly the shares of the roles it holds, for every aliasing of the three; otherwise there are none |
| BlockExecution.ExecuteTransaction | crates/botanix-evm/src/execute.rs:327-508 | one pass of the loop: guards, fees, checks, roll-back and receipt as specified |
| BlockExecution.ExecutionCrashesExactly | crates/botanix-evm/src/execute.rs:293-519 | with metered gas and fee caps at the base fee, a block ends the process exactly at a valid, successful transaction whose logs stop the checks |
| BlockExecution.ExecuteStateTransitions | crates/botanix-evm/src/execute.rs:293-519 | the transaction loop computes a fold that stops at the first invalid transaction |
| BlockExecution.TxIsValidExactly | crates/botanix-evm/src/execute.rs:330-479 | a transaction is valid exactly if its gas limit fits, its sender exists, the EVM executes it, its fee cap reaches the base fee, its checks do not stop and, after failing checks, its sender can pay |
| BlockExecution.TxAddsUp | crates/botanix-evm/src/execute.rs:384-508 | however it ends, a transaction adds its gas to the total and the next receipt and its gas times the price to the fees; the EVM's state is committed unless its checks failed |
| BlockExecution.BlockAddsUp | crates/botanix-evm/src/execute.rs:318-519 | a block's gas is its last cumulative gas, and its fees are the sum over all transactions of the gas between receipts times min(fee cap, priority + base) |
| BlockExecution.ReceiptsShowOutcomes | crates/botanix-evm/src/execute.rs:384-508 | receipt i carries the EVM's gas, success and logs of transaction i on the state left before it |
| BlockExecution.GasFitsBlock | crates/botanix-evm/src/execute.rs:330-338 | cumulative gas never exceeds the block's limit, so the available-gas subtraction never underflows |
| BlockExecution.PegsMatchReceipts | crates/botanix-evm/src/execute.rs:396-508 | the block's peg-ins and peg-outs are exactly those of the transactions with successful receipts, in order |
| BlockExecution.RejectedMintOnlyCharges | crates/botanix-evm/src/execute.rs:413-479 | a rejected mint changes only its sender's nonce and balance, by gas used times price, and leaves a failed, empty receipt and no peg operation |
| BlockExecution.PricesAgree | crates/botanix-evm/src/execute.rs:384-391 | credited and charged price per gas agree exactly with a base fee or without a priority fee below the cap |
| BlockExecution.RejectedMintConserves | crates/botanix-evm/src/execute.rs:413-479 | what the sender loses equals what the fees gain exactly under that condition, or for zero gas |
| Solvency.ContractGuards | contracts/src/Minting.sol:28-53 | a successful transaction's logs obey the contract's height guard, and it pays out what they say plus one refund per mint |
| Solvency.BlockIsGuarded | crates/botanix-evm/src/execute.rs:293-519 | so do the accepted peg-ins of a block, through roll-backs and failures |
| Solvency.CheckedMintIsBacked | crates/botanix-evm/src/execute.rs:556-690 | an accepted mint is worth less than the distinct outputs of its proofs, each in the chain's block at the mint's height and paying its account |
| Solvency.TaggedChoice | crates/botanix-evm/src/execute.rs:564-646 | for parsed proofs the checkpoint is the block's own for version 0 and the reference block's for version 1, and all proofs must agree on it |
| Solvency.MintPassesExactly | crates/botanix-evm/src/execute.rs:556-690 | a mint passes exactly when its metadata parses to proofs that show deposits for its account at its height against that checkpoint and its amount is below their value |
| Solvency.HonestMintPasses | crates/botanix-evm/src/execute.rs:556-690 | proofs made from the chain itself, for distinct outputs, encoded one after the other, pass with every amount below their value |
| Solvency.ChainInvariant | crates/botanix-evm/src/execute.rs:293-519 | over every chain of blocks all accepted peg-ins are guarded and backed |
| Solvency.OutputsDistinct | crates/botanix-authority-peg/src/mint_validation.rs:220-226 | guarded and backed peg-ins never share an output, within an event or across events |
| Solvency.ChainPays | contracts/src/Minting.sol:42-52 | over every chain the contract pays out exactly the logged amounts of the accepted mints plus, for each, the refund at its block's base fee; failed and rolled back transactions pay nothing |
| Solvency.PeginSolvency | crates/botanix-evm/src/execute.rs:293-709 | no output backs two proofs; the payments are the logged amounts plus the refunds; the logged amounts stay at least one wei per mint below 10^10 times the satoshis of the distinct outputs, and the payments below that plus the refunds |
| Solvency.PaymentsAreCovered | crates/botanix-evm/src/execute.rs:664-676 | if each mint is covered by its own outputs, refund included, everything paid out is covered by the distinct outputs |
| Solvency.FreeChainIsCovered | contracts/src/Minting.sol:42-52 | over every chain without base fees everything paid out is covered by the distinct outputs |
| Solvency.ClaimsPassExactly | crates/botanix-evm/src/execute.rs:664-676 | for acceptable proofs a log passes with exactly the amounts below the value of their outputs |
| Solvency.RefundIsCoveredExactly | contracts/src/Minting.sol:42-52 | whatever amount is claimed for acceptable proofs, amount plus refund is covered by the outputs, if and only if the base fee is zero |
| Solvency.MintMayOutpayItsOutputs | contracts/src/Minting.sol:42-52 | with a positive base fee a plain mint call leaves a passing log and pays out more than its outputs hold |
| Pegouts.PegoutIdsAreUnique | crates/botanix-evm/src/execute.rs:694-705 | over every chain with distinct transaction hashes no two peg-outs share an id or its byte form |
| Pegouts.ReleasedIsBurned | crates/botanix-evm/src/execute.rs:396-508 | the peg-outs of a block release at most what its successful transactions burned, and lose less than 10^10 wei each |
| Pegouts.ChainReleasesWhatWasBurned | crates/botanix-evm/src/execute.rs:293-519 | so do the peg-outs of a chain |
| Psbt.HasConflictingInput | bin/botanix-btc-server/src/util.rs:596-630 | true exactly when every tracked transaction with a common id spends a common input |
| Psbt.DistinctBySize | bin/botanix-btc-server/src/util.rs:530-535 | comparing the sizes of list and set detects exactly the duplicates |
| Psbt.ValidateOutputs | bin/botanix-btc-server/src/util.rs:457-562 | reports the first failing rule in source order, for finalized ids the first such id; accepts exactly one record per output, distinct unfinalized ids and at most one change output, paying the federation; a finalized id is dropped from the pending set and nothing else changes |
| Psbt.ValidatePsbt | bin/botanix-btc-server/src/util.rs:273-421 | accepts exactly the transactions that pass the conflict, output, fee and round rules; says which error each failure reports, the first of several in source order, and that the process ends exactly if the fee is reached with differing numbers of inputs and records |
| Psbt.CheckRounds | bin/botanix-btc-server/src/util.rs:324-418 | computes the round checks the flags ask for, in order |
| Psbt.WrappingIsExact | bin/botanix-btc-server/src/util.rs:307-310 | the fold that falls back to zero on overflow is exact whenever the true sum fits 64 bits |
| Psbt.GoodOutputsExactly | bin/botanix-btc-server/src/util.rs:457-562 | the output rules mean: one record per output, no two equal, no finalized id, and change pays the federation |
| Psbt.ConflictsExactly | bin/botanix-btc-server/src/util.rs:596-630 | the conflict rule means: each tracked payer of an output's id spends one of the inputs |
| Psbt.FlagsAreMetExactly | bin/botanix-btc-server/src/util.rs:319-418 | the round checks pass exactly when, by bits: 3, enough commitments; 7, not too many signatures; 11, exactly enough by the committed signers; any, extractable; 1, known inputs match |
| Psbt.FundingShown | bin/botanix-btc-server/src/util.rs:294-305 | the worth of an input comes from its witness record, or else from the other one; one of them must be there |
| Psbt.FeeRefusalsMean | bin/botanix-btc-server/src/util.rs:294-305 | what each fee error says about the PSBT |
| Psbt.RoundRefusalsMean | bin/botanix-btc-server/src/util.rs:324-418 | what each refusal of the round checks says about the PSBT |
| Psbt.AcceptedExactly | bin/botanix-btc-server/src/util.rs:273-421 | a PSBT is accepted exactly under those rules and with inputs worth between once and twice the outputs, all sums within 64 bits |
| Psbt.AcceptedFeeIsSane | bin/botanix-btc-server/src/util.rs:294-317 | an accepted transaction's inputs are worth between once and twice its outputs, with exact sums |
| Psbt.AcceptanceIsMonotone | bin/botanix-btc-server/src/util.rs:324-418 | what passes under some flags passes under fewer |
| Psbt.InputSumIsTotal | bin/botanix-btc-server/src/util.rs:294-305 | adding up the inputs succeeds exactly when every output is given and the total fits 64 bits, and yields the total |
| Psbt.InputsPassExactly | bin/botanix-btc-server/src/util.rs:389-418 | the input loop accepts exactly when every input before the first unknown one matches; inputs behind it do not count |
| Psbt.KnownInputsMatch | bin/botanix-btc-server/src/util.rs:389-418 | in an accepted transaction each of those inputs shows its stored output and tweak |
| PegoutLedger.HarmReachesLedger | bin/botanix-btc-server/src/util.rs:596-630 | two signed payers of an id that do not conflict and can both confirm do both confirm in some run of the chain |
| PegoutLedger.HarmlessIsExact | bin/botanix-btc-server/src/util.rs:596-630 | no run of confirmations, reorganizations and burials pays an id twice if and only if of any two signed payers at most one is able to confirm |
| PegoutLedger.RulesKeepHarmless | bin/botanix-btc-server/src/util.rs:506-630 | while every payer able to confirm is guarded, the conflicting-input rule and the finalized-id rule admit no second payer |
| PegoutLedger.AcceptExactly | bin/botanix-btc-server/src/util.rs:506-630 | what the rules accept is safe if and only if it pays no pruned id, or was signed before, or is unable to confirm |
| PegoutLedger.PrunedIdIsPaidAgain | bin/botanix-btc-server/src/database/mod.rs:1483-1531 | finalizing, pruning and offering an id again on an unused output is allowed by the rules and not safe |
| PegoutLedger.UnguardedIsUnsafe | bin/botanix-btc-server/src/pegout_scheduler/mod.rs:835-867 | if a payer able to confirm is not guarded on an open id, the rules accept a second payer, whatever else is tracked, and the ledger is then not safe |
| PegoutLedger.InvIsExact | bin/botanix-btc-server/src/util.rs:596-630 | no continuation without un-tracking pays an id twice if and only if the signed set is harmless and every payer able to confirm is guarded |
| PegoutLedger.UntrackExactly | bin/botanix-btc-server/src/pegout_scheduler/mod.rs:472-486 | after an un-track no continuation without further un-tracking pays an id twice if and only if each payer of the transaction's open ids that is able to confirm has another tracked guard |
| PegoutLedger.UntrackLive | bin/botanix-btc-server/src/pegout_scheduler/mod.rs:472-486 | for a transaction able to confirm this means: each open id it pays has another tracked payer whose inputs are all spent for good or its own |
| PegoutLedger.RetryAllowsUntrack | bin/botanix-btc-server/src/pegout_scheduler/mod.rs:864-867 | a tracked retry paying the same ids from the transaction's own inputs makes it dispensable |
| PegoutLedger.RunKeepsInv | bin/botanix-btc-server/src/pegout_scheduler/mod.rs:531-660 | every run of chain events, acceptances, finalizations, prunings and un-trackings within the two exact conditions keeps the invariant |
| PegoutLedger.RunKeepsTrackedConflicts | bin/botanix-btc-server/src/util.rs:596-630 | over every run, whatever is un-tracked, pruned or offered again, all tracked payers of an id pairwise conflict |
| PegoutLedger.NoPegoutPaidTwice | bin/botanix-btc-server/src/util.rs:506-630 | in every such run no id is carried by two confirmed transactions |
| PegoutLedger.AcceptedPsbtObeysRules | bin/botanix-btc-server/src/util.rs:273-630 | what PSBT validation accepts, under any flags, is what the ledger's two rules accept |

## Left out

- RPC, ZMQ, gRPC, JSON-RPC, command line, configuration and metrics: plumbing; the Bitcoin node is a tree of headers and a sequence of answers.
- The EVM, tries, receipts encoding and payload building: one abstract transaction function.
- FROST, secp256k1, taproot tweaks, SHA-256, keccak, Merkle extraction, ABI and address codecs: abstract functions with the assumptions listed above.
- Locks: each call of the activation manager and of the checkpoint window is one atomic step; the poisoning of a lock is not modelled.
- System calls before a block's transactions and the unwinding of blocks already executed.
- Overflow of the 128-bit fee total and of 256-bit amounts in running sums: the sums are unbounded here.
- The panic on a database error while looking up a reference block: the lookup answers or finds nothing.
- Floating-point conversion of fee rates and the selection of spendable outputs (`util.rs` 76-89, 564-594): no property beyond their bodies.
- Distributed key generation, the signing coordinator, database encoding and migrations.
- CheckpointChain.TryNew: does not model the allocation of the whole window (`chain.rs` 89), which ends the process for sizes no memory holds.
- The allocation of an address buffer of the claimed length before it is read (`peg_contract.rs` 574-577).
- PegoutLedger.NoPegoutPaidTwice: covers runs whose acceptances satisfy `MayAccept` and whose un-trackings satisfy `MayUntrack`, because without them the claim is false: both conditions are exact (`AcceptExactly`, `UntrackExactly`), with failing cases `PrunedIdIsPaidAgain` and `UnguardedIsUnsafe`.
- SyncLoop.WaitingMeansSynchronized: covers rising tips, because a tip that is no higher is ignored (`SwitchIsFollowedExactly`; arbitrary tips are `WaitingMeansDecided`); that it comes to wait at all, once the chain stays put, is `LoopComesToRest`.
- ActivationRuns.SameWindowSameDecisions: covers logs without blocks of a newer version, because such a block empties the table (`NewerVersionClearsVotes`).
