# Talos contracts, verified models

Dafny models of the state machines behind the Talos protocol's Soroban contracts, and of the event
query that serves their indexers, with proofs of what they keep over every sequence of calls.

- **Governance** (`GovernanceModel`, `GovernanceInvariants`, `GovernanceQuorum`, `GovernanceRuns`,
  `GovernanceBounds`, `GovernanceBallots`, `GovernanceDelegation`, `GovernanceDecisions`,
  `GovernanceHistory`, `GovernanceLimits`, `Governance`): checkpointed voting power, snapshot-weighted
  votes and where their weight comes from, quorum arithmetic and the proposal lifecycle.
- **Dividends** (`DividendsModel`, `DividendsRuns`, `DividendsPatrons`, `DividendsClaims`,
  `DividendsHistory`, `DividendsAdmins`, `Dividends`): epochs, rounded allocations, dust, claim and
  recovery windows, and the transfer of the admin role.
- **Name service** (`NameValidation`, `NameRegistry`, `NamePages`, `NameLimits`, `NameService`) and its
  timelock (`TimelockModel`, `TimelockDelays`, `Timelock`): canonical names, the two name maps, the bounded
  reverse scan, delayed admin actions.
- **Storage migration** (`MigrationModel`, `MigrationRuns`, `Migration`): version, lock, history and
  dry runs.
- **Event query** (`EventQuery`): validation, filter, sort and pages.
- `Common`, `Sums` and `Checkpoints` hold machine integers, sums over finite maps and checkpoint
  histories.

## How the models are built

A contract is described twice. A `...Model` module says on plain values what each entry point does: it
uses whole histories and a linear lookup where the contract uses numbered storage keys and a binary
search, and it gives an error where the host would trap. A class of the same component keeps the storage
keys as fields and works on them as the contract does. Every method of the class is proved to return what
the model says and to reach the state the model says, and the class invariant says that the object is in
the state its calls so far lead to (`Valid`). What is proved of every run of the model therefore holds of
every object of the class. The theorems over runs allow the calls in any order and number, failed calls
included.

Integers carry their width: `u32`, `u64` and `i128` are ranges, and every sum or product that may leave
its range is checked, because the contracts are built with overflow checks (`contracts/Cargo.toml:21`).
A trap or an error rolls the whole call back.

What an invocation learns from outside is an argument of the call: the authorized caller, whether its
pause domain is paused, and what other contracts answer. Time and ledger sequence advance by steps of
their own and never go back. Events are kept as logs where something is proved about them.

## Where code and documentation differ

The models follow the code.

- Delegation is documented as handing voting power on (`contracts/README.md:98`). The delegator votes with
  the delegatee's history and the delegatee keeps its own vote, and so does everyone else who delegates to
  it: any address, with power or without, adds a holder's whole weight once more
  (`GovernanceDelegation.DelegatedVoteCounts`, `GovernanceDelegation.DelegatorsAllCount`). The votes stay
  within the snapshot supply exactly as `GovernanceBallots.VotesWithinSupplyIff` says.
- `commit_epoch` is documented as a no-op for an existing epoch. It would return an error, but that
  branch cannot be reached (`DividendsRuns.EpochNumbersAreDense`).
- `initialize` of dividends is documented to fix the sole authorized caller. A nominee that accepts replaces
  it (`DividendsAdmins.AdminIs`).
- The dividend claim guard is keyed by epoch number and patron without the talos, so epochs of the same
  number of two taloses share it (`DividendsPatrons.RefusedForAnotherTalos`).
- `names_page` is documented to scan `[start_id, start_id + limit)`. It scans on until the page is full,
  within a window of 500 ids; the two agree exactly as `NamePages.PageIsRangeIff` says
  (`NameLimits.PageLeavesRange`). A missing cursor does not mean that no name follows
  (`NamePages.MissedIff`, `NameLimits.GapEndsListing`).
- `dry_run` is documented to report the rejection `begin_migration` would produce. It does, except exactly
  where the plan is already in place (`MigrationRuns.DryRunForetells`).
- `complete_migration` is documented to complete the migration that was begun. It does not compare with it:
  the source is always the begun one once there is a version, the target need not be
  (`MigrationRuns.CompletionKeepsSource`, `MigrationRuns.CompletionWithoutVersion`).
- `claim_dividend` is documented to match the claimant against patron data of the registry
  (`contracts/talos_dividends/src/lib.rs:567-570`). The patrons and shares are the claimant's own
  arguments, and only the dust they leave has to agree with earlier claims
  (`DividendsClaims.ClaimAcceptedIff`, `DividendsClaims.SolePatronIsPaidAll`).
- The timelock is documented to make registry changes be scheduled while it is enabled. The admin can
  switch it off and replace the registry in the same instant (`TimelockDelays.SwitchOffThenReplace`), and
  replacing the admin directly never waits (`TimelockDelays.AdminChangeIff`).

## Model

| member | source | states |
|---|---|---|
| `Checkpoints.LastAtMeaning` | contracts/talos_governance/src/lib.rs:1711-1745 | The reference lookup answers with the checkpoint that is at or before the asked ledger and has none at or before it behind it, and answers nothing exactly when every checkpoint is later. |
| `Checkpoints.LastAtSplit` | contracts/talos_governance/src/lib.rs:1730-1744 | Where the search leaves `low`, with everything above it later than the asked ledger, is where the reference lookup stops. |
| `Checkpoints.RecordLookup` | contracts/talos_governance/src/lib.rs:1838-1859 | Overwriting or appending at the current ledger leaves the answer for every earlier ledger alone and answers the new balance from that ledger on. |
| `Governance.TalosGovernance.GetPastVotes` | contracts/talos_governance/src/lib.rs:1711-1745 | The binary search over the stored keys equals the reference lookup, with the cached snapshot exactly when no checkpoint is early enough; no index underflows and no key is missing. |
| `Governance.TalosGovernance.GetPastTotalSupply` | contracts/talos_governance/src/lib.rs:1747-1801 | The same for the supply keys, with 0 when no checkpoint is early enough. |
| `Governance.TalosGovernance.GetVoteWeight` | contracts/talos_governance/src/lib.rs:1706-1709 | A vote weighs what its delegatee's, else its voter's, history says at the snapshot. |
| `Governance.TalosGovernance.WriteCheckpoint` | contracts/talos_governance/src/lib.rs:1838-1859 | Over dense keys, one account's history gains or rewrites its checkpoint of this ledger and every other history stands; a count past 32 bits changes nothing. |
| `Governance.TalosGovernance.WriteSupplyCheckpoint` | contracts/talos_governance/src/lib.rs:1879-1912 | The same for the supply history. |
| `Governance.TalosGovernance.RecordPower` | contracts/talos_governance/src/lib.rs:1826-1913 | A new balance moves the account's history and, by the same difference, the supply history; an overflow on the way rolls both back. |
| `Governance.TalosGovernance.UpdateVotingPower` | contracts/talos_governance/src/lib.rs:1824-1913 | The whole call, guards included, is the model's step from a state this object's calls have reached. |
| `GovernanceInvariants.RecordKeepsSum` | contracts/talos_governance/src/lib.rs:1824-1913 | At every ledger, recording a balance keeps the sum over all accounts equal to the supply. |
| `GovernanceInvariants.StepHasEffect` | contracts/talos_governance/src/lib.rs:651-1078 | Every successful entry point has one of five effects: a counted vote, a recorded balance, a created proposal, one status move, or a change that touches no proposal, vote or checkpoint. |
| `GovernanceInvariants.EffectKeepsInv` | contracts/talos_governance/src/lib.rs:651-1913 | Each effect keeps the whole invariant: ids, configuration bounds, ordered histories, supply sums, tallies and sentinels. |
| `GovernanceInvariants.InvAlways` | contracts/talos_governance/src/lib.rs:609-1963 | The invariant holds after every sequence of calls. |
| `GovernanceRuns.SupplyIsSumAlways` | contracts/talos_governance/src/lib.rs:1747-1913 | In every reachable state and for every ledger, all accounts' recorded votes add up to `get_past_total_supply`. |
| `GovernanceRuns.PastIsFixed` | contracts/talos_governance/src/lib.rs:1711-1913 | Once a ledger has passed, no sequence of calls changes the supply recorded for it, any account's checkpoint there, or the votes of an account that has one. |
| `GovernanceRuns.UpdateKeepsPast` | contracts/talos_governance/src/lib.rs:1824-1913 | `update_voting_power` changes no past answer, the cached fallback included. |
| `GovernanceRuns.TalliesAlways` | contracts/talos_governance/src/lib.rs:775-825 | In every reachable state yes, no and voter count are the sums and the number of the recorded votes, one positive vote per voter. |
| `GovernanceRuns.CancelledHasNoVotes` | contracts/talos_governance/src/lib.rs:749-773 | A cancelled proposal never received a vote. |
| `GovernanceRuns.UnanimityDecides` | contracts/talos_governance/src/lib.rs:1948-1963 | Under every reachable configuration the approval of a whole positive snapshot supply approves, except exactly where a fixed quorum is above it, and its rejection rejects. |
| `GovernanceRuns.LifecycleOnlyAdvances` | contracts/talos_governance/src/lib.rs:749-871 | Over every run a status moves only forward, a proposal's terms never change and its tallies are frozen once it is not active. |
| `GovernanceRuns.ApprovalWasEarned` | contracts/talos_governance/src/lib.rs:1915-1963 | Every approved or executed proposal was settled by a vote or a finalization at which its votes met the threshold and its yes votes, times 10000, met the consensus share of all votes. |
| `GovernanceRuns.ExecutedAtMostOnce` | contracts/talos_governance/src/lib.rs:848-871 | The number of successful executions of a proposal in a run is 1 if it ends up executed and 0 otherwise. |
| `GovernanceRuns.SentinelBranchUnreachable` | contracts/talos_governance/src/lib.rs:1919-1943 | A vote is never counted on a proposal whose sentinel is set; after a vote the sentinel is set exactly if the vote settled the proposal. |
| `GovernanceRuns.QuorumAnnouncedOnce` | contracts/talos_governance/src/lib.rs:1919-1943 | A run sends the quorum event at most once per proposal, once exactly if the sentinel is set, and a set sentinel means the proposal is not active. |
| `GovernanceRuns.QuorumStateTruthful` | contracts/talos_governance/src/lib.rs:1386-1426 | In every reachable state the quorum query predicts what finalizing decides, except exactly where no votes meet a zero threshold; its progress is within 0..10000 and full exactly when the quorum is met. |
| `GovernanceQuorum.ThresholdIsExactShare` | contracts/talos_governance/src/lib.rs:1803-1816 | With a positive supply, votes reach the share threshold exactly when votes times 10000 reach supply times share; the threshold is between 1 and the supply. |
| `GovernanceQuorum.DecideMeaning` | contracts/talos_governance/src/lib.rs:1948-1963 | What approved, rejected and a division by zero each say about the tallies, without rounding. |
| `GovernanceQuorum.FractionMeaning` | contracts/talos_governance/src/lib.rs:1406-1412 | The capped progress figure is full exactly when the votes reach the threshold. |
| `GovernanceQuorum.FinalizeTrapsOnEmptySupply` | contracts/talos_governance/src/lib.rs:827-846 | Finalizing a proposal nobody voted on divides by zero exactly when the quorum is a share of a snapshot supply that is not positive. |
| `GovernanceDecisions.FinalStatusIff` | contracts/talos_governance/src/lib.rs:1948-1963 | A decision is made exactly where nothing overflows and votes that reach the quorum are not zero; it approves exactly if the votes reach the quorum and the yes votes the consensus share, both as products. |
| `GovernanceDecisions.VoteMeaning` | contracts/talos_governance/src/lib.rs:775-825 | A vote is counted exactly if nothing is paused, the proposal is open, the voter has not voted and weighs something, and the tallies stay countable; the chosen side gains the weight, and the proposal waits below the quorum and is decided at it. |
| `GovernanceDecisions.FinalizeMeaning` | contracts/talos_governance/src/lib.rs:827-846 | A proposal is finalized exactly if it is active, its last ledger is past and there is a decision to make; only its status changes, to that decision. |
| `GovernanceDecisions.ExecuteMeaning` | contracts/talos_governance/src/lib.rs:848-948 | A proposal is executed exactly if it is approved and its numbers are in bounds or the called contract succeeds; a configuration action replaces exactly its three numbers, any other leaves the configuration; a refusal changes nothing. |
| `GovernanceDecisions.QuorumQueryMeaning` | contracts/talos_governance/src/lib.rs:1386-1426 | The query answers nothing exactly for an unknown proposal, and otherwise its yes and no votes, whether they reach the quorum, and the approval and the progress rounded down. |
| `GovernanceDecisions.PowerAcceptedIff` | contracts/talos_governance/src/lib.rs:1824-1913 | A balance is recorded exactly for the admin, while nothing is paused and the differences and the histories fit. |
| `GovernanceDecisions.CreateAcceptedIff` | contracts/talos_governance/src/lib.rs:651-747 | A proposal is created exactly with texts of 1 to 128 and 1 to 2048 characters for a talos the registry accepts, unpaused, after initialization and while ledgers and ids fit. |
| `GovernanceDecisions.CancelAcceptedIff` | contracts/talos_governance/src/lib.rs:749-773 | A proposal is cancelled exactly by its proposer, while it is active and has no ballots. |
| `GovernanceDecisions.InitializeAcceptedIff` | contracts/talos_governance/src/lib.rs:609-649 | The first initialization in bounds is accepted and sets the admin and a fixed quorum without an offset. |
| `GovernanceHistory.ProposalWasCreated` | contracts/talos_governance/src/lib.rs:651-747 | Every proposal of every reachable state was created by one call and still has that call's proposer, talos, texts and action, its time and ledger, and the snapshot and end its configuration gave. |
| `GovernanceHistory.CheckpointWasRecorded` | contracts/talos_governance/src/lib.rs:1824-1913 | Every checkpoint of every account was recorded, with its votes and at its ledger, by a call the admin of that moment signed. |
| `GovernanceHistory.BallotWasCast` | contracts/talos_governance/src/lib.rs:775-825 | Every ballot is its voter's own call on an open proposal, with the weight and the time of that moment. |
| `GovernanceHistory.WasClosed` | contracts/talos_governance/src/lib.rs:749-846 | A proposal leaves the active status only by a vote while it is open, by its proposer before any ballot, or by a finalization after its last ledger; up to that ledger by no finalization. |
| `GovernanceHistory.AnnouncementWasMade` | contracts/talos_governance/src/lib.rs:1919-1941 | Every quorum event was sent by a vote on its proposal against the threshold of that moment, and tells the votes the settled proposal still has and their yes share rounded down. |
| `GovernanceHistory.ConfigurationWasSet` | contracts/talos_governance/src/lib.rs:609-1078 | The configuration is the one last set, by the first initialization, by the admin of that moment, or by executing an approved proposal that replaces three of its numbers. |
| `GovernanceBounds.WaitingStaysBelow` | contracts/talos_governance/src/lib.rs:1915-1963 | While the configuration stays, an active proposal below a settled threshold stays below it, and finalizing it can only reject it. |
| `GovernanceBounds.NewProposalWaits` | contracts/talos_governance/src/lib.rs:651-846 | The same from the proposal's creation on, when its threshold is positive and, in share mode, its snapshot lies before its start. |
| `GovernanceBounds.ApprovedOnlyByVote` | contracts/talos_governance/src/lib.rs:827-846 | Under the same conditions every approval is the work of a vote. |
| `GovernanceBounds.FinalApprovalNeedsChange` | contracts/talos_governance/src/lib.rs:827-846 | A finalization approves only a proposal some vote was counted on; the last one left it below its threshold, and since then the configuration changed or, in share mode on a snapshot of that vote's own ledger, the supply there did. |
| `GovernanceBallots.DrawnAlways` | contracts/talos_governance/src/lib.rs:1706-1709 | After every sequence of calls each counted ballot has a source, the voter's delegatee at that moment, and if cast after the snapshot ledger weighs what the source's checkpoint there says, if it has one. |
| `GovernanceBallots.VotesAreDraws` | contracts/talos_governance/src/lib.rs:775-825 | In every reachable state any proposal's votes are the balances recorded at its snapshot, each as often as ballots draw on it, plus what the ballots weigh beyond what their sources hold there. |
| `GovernanceBallots.VotesWithinSupplyIff` | contracts/talos_governance/src/lib.rs:775-825 | Any proposal's votes are within the supply at its snapshot exactly when the repeated draws and what ballots weigh beyond their sources do not outweigh what is not drawn. |
| `GovernanceBallots.DriftMeaning` | contracts/talos_governance/src/lib.rs:1706-1745 | A ballot cast after the snapshot ledger weighs nothing beyond a source on record, and any ballot weighs all it has beyond a source that is not; on a past snapshot every ballot is cast after it. |
| `GovernanceBallots.DriftIsCached` | contracts/talos_governance/src/lib.rs:1033-1048 | Where all ballots were cast after the snapshot ledger, what they weigh beyond their sources is what they drew on cached balances. |
| `GovernanceBallots.PastVotesWithinSupplyIff` | contracts/talos_governance/src/lib.rs:775-825 | On a past snapshot the votes are within the supply exactly when repeated draws and cached weights do not outweigh what is not drawn. |
| `GovernanceBallots.VotesWithinSupply` | contracts/talos_governance/src/lib.rs:775-825 | So they are when the counted ballots, delegated or not, were cast after the snapshot ledger and draw on pairwise distinct accounts that have a checkpoint there, and no recorded balance is negative there. |
| `GovernanceBallots.PlainVotesWithinSupply` | contracts/talos_governance/src/lib.rs:775-825 | So in every run without delegations, cached balances and negative balances. |
| `GovernanceDelegation.DelegatedVoteCounts` | contracts/talos_governance/src/lib.rs:1818-1822 | In either quorum mode, an address that delegates to a holder with votes at the snapshot can then vote exactly if the proposal is open and it has not voted, whatever its own power, and adds the holder's whole weight. |
| `GovernanceDelegation.DelegatorsAllCount` | contracts/talos_governance/src/lib.rs:1706-1709 | Any number of addresses that have not voted can do so one after the other, while the sums stay in range: as long as the proposal stays open each adds the weight again, and it is settled once they reach the quorum. |
| `GovernanceLimits.DelegationCountsTwice` | contracts/talos_governance/src/lib.rs:1706-1709 | A delegation makes one balance vote twice: 120 votes against a supply of 100. |
| `GovernanceLimits.CachedBalanceHasNoSupply` | contracts/talos_governance/src/lib.rs:1033-1048 | A cached balance votes without being part of the supply. |
| `GovernanceLimits.NegativeBalanceLowersSupply` | contracts/talos_governance/src/lib.rs:1824-1836 | A negative balance is accepted and makes the supply negative, so that even no votes exceed it. |
| `GovernanceLimits.SameLedgerSnapshotKeepsVotes` | contracts/talos_governance/src/lib.rs:705-709 | With a snapshot of the creating ledger, 100 votes stand after the power was withdrawn in that ledger: all 100 are weight beyond the source. |
| `GovernanceLimits.DelegatedOnceIsWithin` | contracts/talos_governance/src/lib.rs:1706-1709 | A run with a delegated vote whose delegatee does not vote meets the conditions of the bound. |
| `GovernanceLimits.LoweredQuorumLetsFinalizeApprove` | contracts/talos_governance/src/lib.rs:827-846 | A proposal with 100 of 1000 votes that finalizing would reject is approved by finalizing after the quorum is lowered to 50. |
| `GovernanceLimits.EmptySupplyTrapsFinalize` | contracts/talos_governance/src/lib.rs:1948-1963 | A run in share mode with no supply and no votes in which finalizing divides by zero. |
| `Governance.TalosGovernance.constructor` | contracts/talos_governance/src/lib.rs:604-608 | A fresh deployment is the model's initial state. |
| `Governance.TalosGovernance.Initialize` | contracts/talos_governance/src/lib.rs:609-649 | Same result and next state as the model; a second call is refused. |
| `Governance.TalosGovernance.CreateProposal` | contracts/talos_governance/src/lib.rs:651-1031 | Same result and next state as the model, for both ways to create; the new id is returned. |
| `Governance.TalosGovernance.CancelProposal` | contracts/talos_governance/src/lib.rs:749-773 | A cancelled proposal has no ballots and stays cancelled whatever is called; a refusal changes nothing. |
| `Governance.TalosGovernance.CheckBallot` | contracts/talos_governance/src/lib.rs:781-801 | Same refusals in the same order as the model, and the weight the vote would have. |
| `Governance.TalosGovernance.CountVote` | contracts/talos_governance/src/lib.rs:803-807 | The tally returned adds up the recorded votes and the new one if the given tally added up the recorded ones; it is refused exactly when that tally or the voter count would overflow. |
| `Governance.TalosGovernance.RecordVote` | contracts/talos_governance/src/lib.rs:783-825 | The vote, the tally, the sentinel and the event are all stored or, after a trap, none of them. |
| `Governance.TalosGovernance.Vote` | contracts/talos_governance/src/lib.rs:775-825 | Counted exactly under the stated conditions, with the new tallies, ballot and status; a refusal or trap changes nothing. |
| `Governance.TalosGovernance.ComputeQuorumThreshold` | contracts/talos_governance/src/lib.rs:1803-1816 | The threshold from the searched supply is the one from the reference lookup; an overflow is refused. |
| `Governance.TalosGovernance.FinalizeStatus` | contracts/talos_governance/src/lib.rs:1948-1963 | The status the tallies decide against that threshold. |
| `Governance.TalosGovernance.UpdateStatusIfQuorum` | contracts/talos_governance/src/lib.rs:1915-1946 | Below the threshold nothing happens; at it the proposal is marked once and decided. |
| `Governance.TalosGovernance.EmitQuorumReached` | contracts/talos_governance/src/lib.rs:1919-1941 | Afterwards exactly one event names the proposal, its sentinel is set and every sentinel still has one event; a newly announced approval is the exact share rounded down; a trap changes nothing. |
| `Governance.TalosGovernance.GetProposalQuorumState` | contracts/talos_governance/src/lib.rs:1386-1426 | The query's figures, or the trap an overflow causes. |
| `Governance.TalosGovernance.FinalizeProposal` | contracts/talos_governance/src/lib.rs:827-846 | Accepted exactly for an active proposal whose last ledger is past and whose tallies, supply and configuration decide; only its status changes, to that decision. |
| `Governance.TalosGovernance.DispatchAction` | contracts/talos_governance/src/lib.rs:878-948 | An accepted configuration action leaves exactly the old configuration with the three new numbers; a configuration `update_config` accepts stays one; in share mode no action moves a proposal's quorum; other actions leave the configuration. |
| `Governance.TalosGovernance.ExecuteProposal` | contracts/talos_governance/src/lib.rs:848-871 | Accepted exactly for an approved proposal whose action can run; the action takes effect with the executed status or, after a refusal, neither does. |
| `Governance.TalosGovernance.CacheTokenBalance` | contracts/talos_governance/src/lib.rs:1033-1048 | Accepted exactly for the admin, a balance that is not negative and no pause; then only this account's votes at this ledger may change, and only where no checkpoint answers, and no supply does. |
| `Governance.TalosGovernance.UpdateConfig` | contracts/talos_governance/src/lib.rs:1050-1078 | Accepted exactly for the admin, no pause and a configuration in bounds; where there is an admin there is always one to replace; nothing else changes. |
| `Governance.TalosGovernance.Delegate` | contracts/talos_governance/src/lib.rs:1818-1822 | Refused only while paused; from then on the delegator's votes at every ledger are the delegatee's, and nobody else's change. |
| `DividendsPatrons.PortionMeaning` | contracts/talos_dividends/src/lib.rs:354-363 | A share of a non-negative total is the percentage rounded down. |
| `DividendsPatrons.SharesAndDust` | contracts/talos_dividends/src/lib.rs:365-390 | Three shares that make 100 and the dust add up to the total, and the dust is 0, 1 or 2. |
| `DividendsRuns.InvAlways` | contracts/talos_dividends/src/lib.rs:506-768 | After every sequence of calls epochs are numbered densely, their books balance and the claim guard agrees with the claim events. |
| `DividendsAdmins.NomineeIs` | contracts/talos_dividends/src/lib.rs:893-958 | After every sequence of calls an address is the nominee exactly if the admin of some moment nominated it and no admin since nominated anew or cancelled and it did not accept. |
| `DividendsAdmins.AdminIs` | contracts/talos_dividends/src/lib.rs:468-930 | After every sequence of calls the admin is the one that took over last: the first initialization's, until a standing nominee accepts, then the last nominee that accepted. |
| `DividendsAdmins.AdminIffInitialized` | contracts/talos_dividends/src/lib.rs:468-481 | There is an admin exactly if some call was an initialization. |
| `DividendsRuns.EpochsBalance` | contracts/talos_dividends/src/lib.rs:593-768 | In every reachable state claimed is what the epoch's claims paid, at most its total; recovered is exactly the rest once recovered and nothing before; no epoch is stored as expired. |
| `DividendsRuns.EpochNumbersAreDense` | contracts/talos_dividends/src/lib.rs:506-561 | Epoch (t, e) exists exactly for 1 <= e < next id, so committing never reports an existing epoch. |
| `DividendsRuns.WindowsMeet` | contracts/talos_dividends/src/lib.rs:618-627 | Claims are open exactly up to the deadline and recovery exactly after it. |
| `DividendsRuns.EpochContinues` | contracts/talos_dividends/src/lib.rs:593-768 | Over every run an epoch keeps its terms, its claimed amount only grows, and a recovery is final. |
| `DividendsRuns.RecoveredIsFinal` | contracts/talos_dividends/src/lib.rs:723-768 | After a recovery no run changes what was claimed or recovered, and every claim is refused as expired. |
| `DividendsRuns.ClaimedOnceAcrossTaloses` | contracts/talos_dividends/src/lib.rs:655-658 | The guard of an epoch number and a patron is set exactly if some claim event carries both, and no two events do. |
| `DividendsPatrons.PatronClaims` | contracts/talos_dividends/src/lib.rs:593-706 | On an epoch claimed only with one fair split, inside the window, a patron is refused exactly if it has claimed and is otherwise paid its rounded share. |
| `DividendsPatrons.RunStaysOnCourse` | contracts/talos_dividends/src/lib.rs:593-768 | Such an epoch has at all times paid exactly the patrons that are marked, as long as every call on it that succeeds is such a claim and no patron is paid under its number by another talos; refused calls are free. |
| `DividendsPatrons.ThreeClaimsLeaveDust` | contracts/talos_dividends/src/lib.rs:593-768 | If the three patrons of such an epoch each claim in time, in any order and with other calls, refused ones included, between them, all are paid and what remains, and a later recovery returns, is exactly the dust. |
| `DividendsPatrons.ThreeClaimsHappen` | contracts/talos_dividends/src/lib.rs:593-768 | A run from a fresh deployment meets those conditions, with a refused recovery and a refused claim in between, and its one unit of dust is recovered. |
| `DividendsPatrons.RecoveryReturnsDust` | contracts/talos_dividends/src/lib.rs:723-768 | With all three paid, recovery is refused up to the deadline and returns exactly the dust after it. |
| `DividendsPatrons.FreshEpochOnCourse` | contracts/talos_dividends/src/lib.rs:546-561 | A committed epoch nobody touched, of a number its patrons have not used, is such an epoch. |
| `DividendsPatrons.CommitStartsOnCourse` | contracts/talos_dividends/src/lib.rs:506-561 | Every successful commitment starts such an epoch, for any fair split whose patrons have not used its number. |
| `DividendsPatrons.RefusedForAnotherTalos` | contracts/talos_dividends/src/lib.rs:655-658 | A patron that never claimed this epoch is refused as a repeat claimant exactly if it claimed the same epoch number of another talos. |
| `DividendsPatrons.GuardForgetsTalos` | contracts/talos_dividends/src/lib.rs:655-658 | A run in which that happens. |
| `DividendsClaims.ClaimAcceptedIff` | contracts/talos_dividends/src/lib.rs:636-706 | A claim on an open epoch is accepted exactly if the claimant names itself a patron of shares that make 100, has not claimed that number, and its rounded share is positive, agrees with the recorded dust and is still there; it pays that share. |
| `DividendsClaims.SolePatronIsPaidAll` | contracts/talos_dividends/src/lib.rs:640-653 | Whoever has not claimed an open epoch's number and names itself the patron of the whole is paid the whole total, exactly while nothing is claimed and no dust but zero is recorded. |
| `DividendsHistory.CommitAcceptedIff` | contracts/talos_dividends/src/lib.rs:506-561 | An epoch is committed exactly by the admin, with a positive amount and a window of an hour to a year, while numbers last. |
| `DividendsHistory.RecoverAcceptedIff` | contracts/talos_dividends/src/lib.rs:723-768 | An epoch is recovered exactly by the admin, once, after its deadline. |
| `DividendsHistory.EpochWasCommitted` | contracts/talos_dividends/src/lib.rs:506-561 | Every epoch was committed by one call that the admin of that moment signed, and has its total, its window and that moment's time. |
| `DividendsHistory.ClaimWasMade` | contracts/talos_dividends/src/lib.rs:593-706 | Every claim event is its patron's own call on the open epoch, in the first role its shares gave that address, for exactly that rounded share. |
| `DividendsHistory.RecoveryWasSigned` | contracts/talos_dividends/src/lib.rs:723-768 | Every recovery event is from a call the admin of that moment signed after the deadline, for exactly what was not claimed. |
| `Dividends.TalosDividends.Initialize` | contracts/talos_dividends/src/lib.rs:468-481 | Accepted exactly if no earlier call was an initialization; a refusal changes nothing. |
| `Dividends.TalosDividends.ProposeAdmin` | contracts/talos_dividends/src/lib.rs:893-903 | Accepted exactly from the address that took over last; the admin stays. |
| `Dividends.TalosDividends.AcceptAdmin` | contracts/talos_dividends/src/lib.rs:918-932 | Accepted exactly from an address nominated by the admin of that moment whose nomination nothing revoked since; it becomes the admin and no nomination stands. |
| `Dividends.TalosDividends.CancelAdminTransfer` | contracts/talos_dividends/src/lib.rs:945-958 | Accepted only from the address that took over last; afterwards nobody's nomination stands. |
| `Dividends.TalosDividends.CommitEpoch` | contracts/talos_dividends/src/lib.rs:506-561 | Never reports an existing epoch; returns the first number the talos has not used, now open with nothing claimed or recovered, and changes no other epoch; an error changes nothing. |
| `Dividends.TalosDividends.CheckOpen` | contracts/talos_dividends/src/lib.rs:607-627 | An epoch is not found exactly outside the numbers given out; an open one is within its deadline, has claims that add up to its claimed amount within its total, and cannot be recovered by anyone. |
| `Dividends.TalosDividends.ComputeAllocation` | contracts/talos_dividends/src/lib.rs:354-363 | The positive whole amount whose hundredfold is at most total times share and less than one unit below it; refused exactly if that would be below one or the product overflows. |
| `Dividends.TalosDividends.ComputeRoundingDust` | contracts/talos_dividends/src/lib.rs:365-390 | For shares of the whole: refused exactly if a product overflows, otherwise 0, 1 or 2, and what the three rounded shares leave of the total. |
| `Dividends.TalosDividends.ClaimDividend` | contracts/talos_dividends/src/lib.rs:593-706 | Within the deadline, pays the claimant's positive rounded share, raises the claimed amount by it to the sum of the epoch's claim events within its total, marks the claimant, records the event with its role and the dust, and leaves every other epoch; an error, a late one included, changes nothing. |
| `Dividends.TalosDividends.RecoverExpired` | contracts/talos_dividends/src/lib.rs:723-768 | After the deadline, returns exactly what the epoch's claim events leave of its total, once; an error changes nothing. |
| `NameValidation.TrimIs` | contracts/talos_name_service/src/validation.rs:79-88 | However surrounding whitespace is cut off a name, the tight core that remains is what trimming gives. |
| `NameValidation.TrimCutsSpace` | contracts/talos_name_service/src/validation.rs:79-88 | Trimming removes only whitespace and leaves none at either end. |
| `NameValidation.CanonicalMeaning` | contracts/talos_name_service/src/validation.rs:53-106 | A raw name has a canonical form exactly if it has at most 64 bytes and its core between whitespace has 1 to 32: that core with its capitals lowered; too long and empty have their own refusals. |
| `NameValidation.CanonicalIdempotent` | contracts/talos_name_service/src/validation.rs:53-106 | A canonical form is its own canonical form. |
| `NameValidation.CanonicalIgnores` | contracts/talos_name_service/src/validation.rs:53-106 | Padding and letter case do not change the canonical form. |
| `NameValidation.ValidIsCanonical` | contracts/talos_name_service/src/validation.rs:12-51 | A valid name is its own canonical form. |
| `NameValidation.LowerSlice` | contracts/talos_name_service/src/validation.rs:95-105 | The lowercasing loop lowercases every byte of the slice. |
| `NameValidation.TrimBounds` | contracts/talos_name_service/src/validation.rs:79-88 | The two scans over the buffer bound exactly the trimmed bytes. |
| `NameValidation.CanonicalizeName` | contracts/talos_name_service/src/validation.rs:67-106 | The trimming and lowercasing loops compute trim then lowercase, with the three refusals in order. |
| `NameValidation.SpelledIffRuns` | contracts/talos_name_service/src/validation.rs:12-18 | Allowed bytes, no hyphen at an end and no two together is the same as being runs of letters and digits joined by single hyphens. |
| `NameValidation.ValidateName` | contracts/talos_name_service/src/validation.rs:19-51 | The loop accepts exactly names of 3 to 32 bytes that are hyphen-separated runs of lowercase letters and digits. |
| `NameRegistry.InverseAlways` | contracts/talos_name_service/src/contract.rs:26-85 | After every sequence of registrations, renames included, the two maps are mutual inverses and every stored name is valid and canonical. |
| `NameRegistry.RegisterAcceptedIff` | contracts/talos_name_service/src/contract.rs:40-85 | A registration is accepted exactly if nothing is paused, the registry names the caller as the creator, and the canonical form is valid and free; then, and only then, it becomes the talos's name. |
| `NameRegistry.NameIsLastRegistered` | contracts/talos_name_service/src/contract.rs:26-85 | After every sequence of registrations a talos has exactly the name that the last accepted one for it asked for, and none without one. |
| `NameRegistry.NameChangesByCreator` | contracts/talos_name_service/src/contract.rs:54-85 | A talos's name changes only by a registration for it signed by the creator the registry answers. |
| `NameRegistry.ResolvesAfterRegister` | contracts/talos_name_service/src/contract.rs:26-85 | After a registration exactly the spellings of the new name resolve to its talos, those of the name given up to nothing, and all others as before. |
| `NameRegistry.AvailableMeansRegistrable` | contracts/talos_name_service/src/contract.rs:580-591 | A name is reported available exactly when the talos's creator could register it, and the report fails exactly when registering fails to canonicalize. |
| `NameRegistry.NameResolvesBack` | contracts/talos_name_service/src/contract.rs:497-507 | A spelling resolves to a talos exactly when its canonical form is that talos's name. |
| `NameService.TalosNameService.RegisterName` | contracts/talos_name_service/src/contract.rs:26-85 | Accepted exactly under those conditions; the talos then has the canonical form, every spelling resolves to it, and a refusal changes nothing. |
| `NameService.TalosNameService.ResolveName` | contracts/talos_name_service/src/contract.rs:497-501 | The canonical form's talos, or the failure to canonicalize. |
| `NameService.TalosNameService.NameOf` | contracts/talos_name_service/src/contract.rs:505-507 | The name returned is valid and resolves back; none is returned exactly when nothing resolves to the talos. |
| `NameService.TalosNameService.IsNameAvailable` | contracts/talos_name_service/src/contract.rs:580-591 | Valid and not taken after canonicalizing, or the failure to canonicalize. |
| `NamePages.NamedInMeaning` | contracts/talos_name_service/src/contract.rs:551-566 | A listing holds exactly the named ids of its interval, in strictly ascending order. |
| `NamePages.PageMeaning` | contracts/talos_name_service/src/contract.rs:541-577 | A page is the listing up to its cursor, or of the whole window without one; it holds at most the limit, taken as at least 1 and at most 50, and exactly that many with a cursor, which lies ahead of the start within 500 ids, right behind the last id listed. |
| `NamePages.PageIsRangeIff` | contracts/talos_name_service/src/contract.rs:541-577 | A page holds the names of the ids from `start_id` up to `start_id + limit` exactly when all of them are named or no other id of the window is. |
| `NameLimits.PageLeavesRange` | contracts/talos_name_service/src/contract.rs:541-577 | After registering a name for 600, the page of size 1 from 590 holds it, though the range from 590 to 591 is empty. |
| `NamePages.PageContinuesIff` | contracts/talos_name_service/src/contract.rs:568-574 | A page has a successor exactly when its window, short of its last id, fills it. |
| `NamePages.FollowListsAll` | contracts/talos_name_service/src/contract.rs:541-577 | Following the cursors ends and lists every named id up to the end of the last window once, in order. |
| `NamePages.MissedIff` | contracts/talos_name_service/src/contract.rs:541-577 | Following the cursors misses a named id exactly when, at the start or right after a multiple of the page size of named ids, a page begins whose window, short of its last id, holds fewer names than a page and ends at or before the id. |
| `NameLimits.GapEndsListing` | contracts/talos_name_service/src/contract.rs:568-574 | After registering a name for 1 and another for 600, the first page has no cursor and 600 is never listed. |
| `NamePages.LargestIdNeverListed` | contracts/talos_name_service/src/contract.rs:549-551 | The saturated window never reaches id 4294967295, so no page lists it. |
| `NameService.TalosNameService.GetNamesPage` | contracts/talos_name_service/src/contract.rs:541-577 | The scan loop returns that page; the guard against a zero cursor is dead. |
| `TimelockModel.RunKeeps` | contracts/talos_name_service/src/timelock.rs:118-239 | Over every run time does not go back, ids stay dense, and a proposal keeps its terms and leaves the scheduled status at most once. |
| `TimelockModel.AppliedAtMostOnce` | contracts/talos_name_service/src/timelock.rs:163-210 | A scheduled action is applied at most once in a run, once exactly if it ends up marked executed. |
| `TimelockModel.AppliedInWindow` | contracts/talos_name_service/src/timelock.rs:118-210 | An action is applied between its eta and the end of its grace period, at least the minimum delay of its scheduling later unless time saturates; it sets the one address it was scheduled for, marks itself executed and changes nothing else. |
| `TimelockModel.RegistryChangeWaits` | contracts/talos_name_service/src/timelock.rs:28-60 | While the timelock is on, a set registry changes only by applying an action that named the new one and was scheduled at least the then minimum delay before. |
| `TimelockDelays.NoDelayIff` | contracts/talos_name_service/src/timelock.rs:64-115 | After every sequence of calls the minimum delay is zero exactly if no call configured the timelock or the last one that did set zero. |
| `TimelockDelays.ConfigIsLastSet` | contracts/talos_name_service/src/timelock.rs:64-115 | The configuration is the one set last, and no delay with a week of grace before the first. |
| `TimelockDelays.ScheduleAcceptedIff` | contracts/talos_name_service/src/timelock.rs:118-160 | Only the admin schedules, unpaused, no sooner than the minimum delay, while ids last; the proposal is the next id's, with these terms and the eta the delay gives. |
| `TimelockDelays.ExecuteAcceptedIff` | contracts/talos_name_service/src/timelock.rs:163-210 | A scheduled action is executed by anyone exactly from its eta to the end of its grace, a new registry only over an old one. |
| `TimelockDelays.ExecuteRefusals` | contracts/talos_name_service/src/timelock.rs:163-186 | Unknown, settled, too early and too late each have their own refusal. |
| `TimelockDelays.CancelAcceptedIff` | contracts/talos_name_service/src/timelock.rs:213-239 | Only the admin cancels, unpaused, and only what is still scheduled. |
| `TimelockDelays.ScheduledChangeHappens` | contracts/talos_name_service/src/timelock.rs:118-210 | From every state with a registry the admin can change it by scheduling and waiting: once the delay has passed, anyone's execution sets it. |
| `TimelockDelays.DirectChangeIff` | contracts/talos_name_service/src/timelock.rs:28-60 | Other than by applying a scheduled action, a set registry changes exactly when the admin replaces it, nothing paused, after calls that left the timelock switched off. |
| `TimelockDelays.SwitchOffThenReplace` | contracts/talos_name_service/src/timelock.rs:64-93 | In every state the admin can switch the timelock off and replace the registry at once. |
| `TimelockDelays.AdminChangeIff` | contracts/talos_name_service/src/timelock.rs:9-17 | A set admin changes exactly when the admin hands over, which never waits, when a scheduled action for it is executed within its window, or by an accepted initialization that was still outstanding. |
| `TimelockDelays.InitializedIff` | contracts/talos_name_service/src/contract.rs:87-106 | There is a registry exactly if some call was an initialization with a fee that is not negative. |
| `TimelockDelays.NeverApplied` | contracts/talos_name_service/src/timelock.rs:163-239 | An action that was executed or cancelled is refused ever after, whatever is called. |
| `Timelock.NameServiceTimelock.Initialize` | contracts/talos_name_service/src/contract.rs:87-106 | Accepted exactly with a fee that is not negative after no call that was such an initialization; sets both addresses, and a refusal changes nothing. |
| `Timelock.NameServiceTimelock.ReplaceAdmin` | contracts/talos_name_service/src/timelock.rs:10-17 | Accepted exactly without a pause from the admin, or from anyone while there is none; only the admin changes, without a delay. |
| `Timelock.NameServiceTimelock.ReplaceRegistry` | contracts/talos_name_service/src/timelock.rs:28-60 | Accepted exactly if the admin signed, nothing is paused, there is a registry and the calls so far left the timelock switched off; only the registry changes. |
| `Timelock.NameServiceTimelock.SetTimelockConfig` | contracts/talos_name_service/src/timelock.rs:64-93 | Accepted exactly within the bounds; afterwards the timelock counts as switched off exactly for a zero delay, and nothing else changes. |
| `Timelock.NameServiceTimelock.ScheduleAction` | contracts/talos_name_service/src/timelock.rs:118-160 | Accepted exactly for the admin, unpaused, with at least the minimum delay; returns the first unused id, with the eta the delay gives; executing it now is refused exactly if a delay was asked for and time has not ended. |
| `Timelock.NameServiceTimelock.ExecuteAction` | contracts/talos_name_service/src/timelock.rs:163-210 | Accepted exactly inside the window of a scheduled action; it was scheduled, with these terms, the then minimum delay before, sets the scheduled address, and can never be repeated; an error changes nothing. |
| `Timelock.NameServiceTimelock.CancelAction` | contracts/talos_name_service/src/timelock.rs:213-239 | Accepted exactly for the admin, unpaused, on a scheduled action, which can then never be executed, whatever is called; only its status changes. |
| `MigrationRuns.ChainAlways` | contracts/storage_migration/src/lib.rs:394-508 | In every reachable state there is a version exactly if there is history; records chain from one to the next and end at the version; forward records rise, rollbacks fall, and only the first may stand still. |
| `MigrationRuns.ChainFrom` | contracts/storage_migration/src/lib.rs:154-175 | Over every run the history only grows. |
| `MigrationRuns.BeginsAreSeparated` | contracts/storage_migration/src/lib.rs:409-480 | Between two successful begins a complete or an abort succeeds. |
| `MigrationRuns.AcceptedIff` | contracts/storage_migration/src/lib.rs:394-508 | When each call is accepted, in the version, the lock, the history's room and the caller's arguments; a refusal changes nothing. |
| `MigrationRuns.BeginRefusals` | contracts/storage_migration/src/lib.rs:409-432 | A begin is refused for a target that is not ahead, a start or a view that is not the version, or a held lock, each with its own error. |
| `MigrationRuns.RollbackRefusals` | contracts/storage_migration/src/lib.rs:485-508 | The same for a rollback: not below, too deep, out of order, or locked. |
| `MigrationRuns.AbortUndoesBegin` | contracts/storage_migration/src/lib.rs:475-479 | Aborting is always accepted and only releases the lock; begun and aborted, a migration leaves no trace, and the same begin is accepted again. |
| `MigrationRuns.LockHeldIff` | contracts/storage_migration/src/lib.rs:409-479 | After every sequence of calls the lock is held exactly if some begin succeeded that no complete or abort ended since. |
| `MigrationRuns.RecordWasWritten` | contracts/storage_migration/src/lib.rs:154-175 | Every history record was written by an initialization without a version, a completion under the lock or a rollback within its depth without it, with its versions and at its time. |
| `MigrationRuns.DryRunReports` | contracts/storage_migration/src/lib.rs:263-378 | The version, target, lock, steps and up-to-date fields of both dry runs, and exactly when a target exceeds the supported versions. |
| `MigrationRuns.DryRunForetells` | contracts/storage_migration/src/lib.rs:263-320 | `dry_run` says applicable exactly when beginning succeeds and otherwise reports its error, in every state and for all arguments except exactly where the plan is already in place. |
| `MigrationRuns.DryRunToForetells` | contracts/storage_migration/src/lib.rs:326-378 | `dry_run_to` is applicable exactly under the stated conditions, its steps are then the single migrations that lead to the target, and within the supported versions its error is that of beginning. |
| `MigrationRuns.ClimbReaches` | contracts/storage_migration/src/lib.rs:409-470 | Single steps, each begun and completed, lead from the current version to the target. |
| `MigrationRuns.RollbackRoundTrip` | contracts/storage_migration/src/lib.rs:485-508 | A rollback of the stored version is accepted exactly down to the allowed depth while unlocked, and migrating forward again restores the version with both moves recorded. |
| `MigrationRuns.CodesRoundTrip` | contracts/storage_migration/src/lib.rs:115-136 | An error's code decodes to that error and no other code does. |
| `MigrationRuns.CompletionKeepsSource` | contracts/storage_migration/src/lib.rs:439-470 | With a version at the begin and a history that is not full, the first completion after it succeeds exactly if it names the version begun from and a later target; it is then the begun migration exactly if its target is. |
| `MigrationRuns.CompletionWithoutVersion` | contracts/storage_migration/src/lib.rs:439-470 | Without a version at the begin it succeeds exactly if it rises and starts where an initialization since the begin put the version, or anywhere without one. |
| `MigrationRuns.CompletionForgetsTarget` | contracts/storage_migration/src/lib.rs:439-470 | After beginning 1 to 2, completing 1 to 9 succeeds and leaves version 9. |
| `MigrationRuns.CompletionForgetsSource` | contracts/storage_migration/src/lib.rs:439-470 | Without a version at the begin, 5 to 6 is completed as 1 to 9 after initializing at 1. |
| `Migration.MigrationStore.AppendHistory` | contracts/storage_migration/src/lib.rs:154-175 | Over dense indices the history gains one record at its end; a full history changes nothing. |
| `Migration.MigrationStore.InitializeSchema` | contracts/storage_migration/src/lib.rs:394-402 | Same next state as the model; an existing version is kept. |
| `Migration.MigrationStore.Begin` | contracts/storage_migration/src/lib.rs:409-432 | Same result and next state as the model. |
| `Migration.MigrationStore.Complete` | contracts/storage_migration/src/lib.rs:439-470 | Same result and next state as the model. |
| `Migration.MigrationStore.Abort` | contracts/storage_migration/src/lib.rs:475-479 | Releases the lock and changes nothing else. |
| `Migration.MigrationStore.Rollback` | contracts/storage_migration/src/lib.rs:485-508 | Same result and next state as the model. |
| `Migration.MigrationStore.DryRunStep` | contracts/storage_migration/src/lib.rs:263-320 | The dry run's report, which foretells beginning as above, without changing the store. |
| `Migration.MigrationStore.DryRunTo` | contracts/storage_migration/src/lib.rs:326-378 | Applicable exactly from the stored version upward within the supported ones while unlocked, or in place; the announced number of single migrations then leads to the target, and otherwise its error is that of beginning; nothing is written. |
| `EventQuery.CursorTextInjective` | contracts/fixtures/event-query.ts:176-181 | Two events have the same cursor text exactly when they have the same ledger, transaction and event index. |
| `EventQuery.ParseFixtureSet` | contracts/fixtures/event-query.ts:138-182 | The bounds and cursor checks accept exactly positive, uncrossed bounds and events with unique cursors, and keep them. |
| `EventQuery.SelectedMeaning` | contracts/fixtures/event-query.ts:385-410 | The selection is exactly the matching events, each as often as it was given, in strict cursor order. |
| `EventQuery.AnsweredIff` | contracts/fixtures/event-query.ts:334-381 | A query is answered exactly if its range is given, ordered and no wider than the span, its page size is given and within bounds, and its page, if given, is at least 1; with the page size and page it asked for. |
| `EventQuery.AnswerMeaning` | contracts/fixtures/event-query.ts:383-424 | The answer is the asked page, of the asked size, of the fixtures in the range that pass the given filters, in strict order, with their number, the pages they fill, and whether more follow. |
| `EventQuery.AnswerIgnoresOrderAndTies` | contracts/fixtures/event-query.ts:399-424 | For a parsed set the answer depends neither on the order of the fixtures nor on how ids break ties. |
| `EventQuery.PagesAreSelection` | contracts/fixtures/event-query.ts:399-424 | Pages 1 to `totalPages` together are exactly the matching events, once each, in strict order. |
| `EventQuery.HasMoreMeaning` | contracts/fixtures/event-query.ts:411-424 | `hasMore` is false exactly when no later page has events. |
| `EventQuery.EmptyRangeMeaning` | contracts/fixtures/event-query.ts:427-437 | A range is answered exactly if it is whole, ordered and no wider than the span, and is empty exactly when no fixture passes its filters and lies in it. |

## Left out

- Host matters: XDR, event encoding, resource budgets, storage lifetime (`touch_*`, `extend_ttl_batch`,
  `get_storage_health`, which rewrite the same values) and token transfers, so `register_name_with_fee`
  is registration alone.
- Calls into other contracts (`is_active`, `creator_of`, registry compatibility, pausing and resuming a
  talos): their answers are arguments.
- Pause domains and guardians: a pause is an argument.
- The registry address and the dividend snapshots of governance, the registry address of dividends and the
  stored name fee: they are set and read without affecting what is modelled. The fee an initialization
  names is an argument, as a negative one is refused.
- The name registry and the timelock are two objects here; the contract keeps both in one storage, and
  what registering reads of the timelock's side, the registry, answers as an argument.
- Interface ids, versions, feature lists and manifest digests: constants.
- Catalog and payload decoding of event fixtures: parsing starts from rows that decoded.
- JavaScript numbers beyond 2^53 and locale comparison: numbers are whole or not, and how ids break ties
  is an arbitrary function.
- Unicode: names are bytes, and titles and descriptions are counted in characters of one byte.
- Web application, packages and scripts.
