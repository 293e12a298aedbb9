/** What holds over whole runs of the governance contract, however the steps interleave. */
module GovernanceRuns {
  import opened Common
  import opened Sums
  import opened Checkpoints
  import opened GovernanceModel
  import opened GovernanceInvariants
  import opened GovernanceQuorum

  /** Splits a run at its last step. */
  ghost function Before(s: GovState, ops: seq<Op>): GovState
    requires |ops| > 0
  {
    RunFrom(s, ops[..|ops| - 1])
  }

  // ---------- the ledger of voting power ----------

  /** In every reachable state and for every ledger, the supply is the sum of all accounts' votes. */
  lemma SupplyIsSumAlways(ops: seq<Op>, q: u32)
    ensures Sum(AccountsAt(Run(ops).histories, q)) == PastSupply(Run(ops), q)
  {
    InvAlways(ops);
  }

  lemma StepKeepsPast(s: GovState, op: Op, account: Address, q: int)
    requires Inv(s) && q < s.ledger
    ensures var t := After(s, op);
            && s.ledger <= t.ledger
            && LastAt(HistoryOf(t, account), q) == LastAt(HistoryOf(s, account), q)
            && LastAt(t.supply, q) == LastAt(s.supply, q)
  {
    if Call(s, op).Ok? {
      var t := After(s, op);
      StepHasEffect(s, op);
      EffectKeepsProposals(s, op, t);
      EffectKeepsLookups(s, op, t, account, q);
    }
  }

  lemma EffectKeepsLookups(s: GovState, op: Op, t: GovState, account: Address, q: int)
    requires HistoriesOk(s) && Effect(s, op, t) && q < s.ledger
    ensures LastAt(HistoryOf(t, account), q) == LastAt(HistoryOf(s, account), q)
    ensures LastAt(t.supply, q) == LastAt(s.supply, q)
  {
    hide LastAt, Record, Latest;
    if op.UpdateVotingPower? {
      var h := HistoryOf(s, op.account);
      RecordLookup(h, s.ledger, op.balance, q);
      RecordLookup(s.supply, s.ledger, Latest(s.supply) + op.balance - Latest(h), q);
    } else {
      assert t.histories == s.histories && t.supply == s.supply;
    }
  }

  /** Once a ledger has passed, no run changes the recorded supply or any account's checkpoint there. */
  lemma {:induction false} PastIsFixed(s: GovState, ops: seq<Op>, account: Address, q: u32)
    requires Inv(s) && q < s.ledger
    ensures var t := RunFrom(s, ops);
            && s.ledger <= t.ledger
            && LastAt(HistoryOf(t, account), q) == LastAt(HistoryOf(s, account), q)
            && PastSupply(t, q) == PastSupply(s, q)
            && (LastAt(HistoryOf(s, account), q).Some? ==> PastVotes(t, account, q) == PastVotes(s, account, q))
    decreases |ops|
  {
    if |ops| > 0 {
      var r := Before(s, ops);
      PastIsFixed(s, ops[..|ops| - 1], account, q);
      InvFrom(s, ops[..|ops| - 1]);
      StepKeepsPast(r, ops[|ops| - 1], account, q);
      assert LastAt(r.supply, q) == LastAt(RunFrom(s, ops).supply, q);
    }
  }

  /** Recording power never changes a past answer, the cached fallback included. */
  lemma UpdateKeepsPast(s: GovState, op: Op, account: Address, q: u32)
    requires Inv(s) && op.UpdateVotingPower? && q < s.ledger
    ensures PastVotes(After(s, op), account, q) == PastVotes(s, account, q)
    ensures PastSupply(After(s, op), q) == PastSupply(s, q)
  {
    StepKeepsPast(s, op, account, q);
    if Call(s, op).Ok? {
      StepHasEffect(s, op);
    }
  }

  // ---------- the proposal lifecycle ----------

  /** The statuses reachable from `a`. */
  predicate Reaches(a: ProposalStatus, b: ProposalStatus) {
    a == b || a == Active || (a == Approved && b == Executed)
  }

  /** Over any run a proposal's status only moves forward, its terms never change,
      and its tallies are frozen once it is not active. */
  lemma {:induction false} LifecycleOnlyAdvances(s: GovState, ops: seq<Op>, id: u32)
    requires Inv(s) && id in s.proposals
    ensures id in RunFrom(s, ops).proposals
    ensures var p, q := s.proposals[id], RunFrom(s, ops).proposals[id];
            && Reaches(p.status, q.status)
            && q == p.(status := q.status, yes := q.yes, no := q.no, totalVoters := q.totalVoters)
            && (p.status != Active ==> q == p.(status := q.status))
    decreases |ops|
  {
    if |ops| > 0 {
      var r := Before(s, ops);
      LifecycleOnlyAdvances(s, ops[..|ops| - 1], id);
      InvFrom(s, ops[..|ops| - 1]);
      if Call(r, ops[|ops| - 1]).Ok? {
        StepHasEffect(r, ops[|ops| - 1]);
        EffectAdvances(r, ops[|ops| - 1], RunFrom(s, ops), id);
      }
    }
  }

  /** The votes reach the threshold and the approvals reach the consensus floor. */
  ghost predicate ClearsFloors(config: GovernanceConfig, supply: i128, q: Proposal) {
    var threshold := Threshold(config, supply);
    && threshold.Ok?
    && q.yes + q.no >= threshold.value
    && q.yes * BPS >= config.consensusThreshold * (q.yes + q.no)
  }

  /** Step `op` from `s` to `t` settles `id` as approved, with both floors cleared under the
      configuration of that moment. */
  ghost predicate Approves(s: GovState, op: Op, t: GovState, id: u32) {
    && (op.CastVote? || op.FinalizeProposal?) && op.id == id
    && HasStatus(s, id, Active) && HasStatus(t, id, Approved)
    && s.config.Some?
    && ClearsFloors(s.config.value, PastSupply(s, t.proposals[id].snapshotLedger), t.proposals[id])
  }

  lemma DecisionClearsFloors(config: GovernanceConfig, supply: i128, q: Proposal)
    requires 0 <= q.yes && 0 <= q.no && InI128(q.yes + q.no) && Threshold(config, supply).Ok?
    requires Decide(config, Threshold(config, supply).value, q.yes, q.yes + q.no) == Ok(Approved)
    ensures ClearsFloors(config, supply, q)
  {
    DecideMeaning(config, Threshold(config, supply).value, q.yes, q.yes + q.no);
  }

  lemma SettlingClearsFloors(s: GovState, q: Proposal)
    requires SettledBy(s, q) && q.status == Approved && 0 <= q.yes && 0 <= q.no
    ensures ClearsFloors(s.config.value, PastSupply(s, q.snapshotLedger), q)
  {
    hide Decide, ClearsFloors, PastSupply;
    DecisionClearsFloors(s.config.value, PastSupply(s, q.snapshotLedger), q);
  }

  lemma FinalizingClearsFloors(s: GovState, p: Proposal)
    requires FinalStatus(s, p) == Ok(Approved) && 0 <= p.yes && 0 <= p.no
    ensures s.config.Some? && ClearsFloors(s.config.value, PastSupply(s, p.snapshotLedger), p)
  {
    hide Decide, ClearsFloors, PastSupply;
    DecisionClearsFloors(s.config.value, PastSupply(s, p.snapshotLedger), p);
  }

  lemma VoteApproves(s: GovState, op: Op, t: GovState)
    requires TalliesOk(s) && op.CastVote? && VoteEffect(s, t, op.id, op.voter, op.choice)
    requires t.proposals[op.id].status == Approved && SettledBy(s, t.proposals[op.id])
    ensures Approves(s, op, t, op.id)
  {
    hide Decide, Threshold, VoteWeight, Marked, ClearsFloors;
    TalliesNonNegative(s, op.id);
    SettlingClearsFloors(s, t.proposals[op.id]);
  }

  lemma FinalizeApproves(s: GovState, op: Op, t: GovState)
    requires TalliesOk(s) && op.FinalizeProposal? && StatusEffect(s, t, op.id, Active)
    requires t.proposals[op.id].status == Approved && FinalStatus(s, s.proposals[op.id]) == Ok(Approved)
    ensures Approves(s, op, t, op.id)
  {
    hide FinalStatus, ClearsFloors;
    TalliesNonNegative(s, op.id);
    FinalizingClearsFloors(s, s.proposals[op.id]);
    FloorsIgnoreStatus(s.config.value, PastSupply(s, s.proposals[op.id].snapshotLedger), s.proposals[op.id],
                       t.proposals[op.id]);
  }

  lemma FloorsIgnoreStatus(config: GovernanceConfig, supply: i128, p: Proposal, q: Proposal)
    requires ClearsFloors(config, supply, p) && q.yes == p.yes && q.no == p.no
    ensures ClearsFloors(config, supply, q)
  {
    hide Threshold;
  }

  /** Only a vote or a finalization of `id` itself can turn it approved. */
  lemma OnlySettlingApproves(s: GovState, op: Op, t: GovState, id: u32)
    requires ProposalsOk(s) && Effect(s, op, t) && id in t.proposals && t.proposals[id].status == Approved
    requires id in s.proposals ==> s.proposals[id].status != Approved
    ensures op.CastVote? || op.FinalizeProposal? || op.CancelProposal? || op.ExecuteProposal?
    ensures op.id == id && id in s.proposals && s.proposals[id].status == Active
  {
  }

  lemma CancelAndExecuteSet(s: GovState, op: Op)
    requires (op.CancelProposal? || op.ExecuteProposal?) && Call(s, op).Ok?
    ensures op.id in After(s, op).proposals
    ensures After(s, op).proposals[op.id].status == if op.CancelProposal? then Cancelled else Executed
  {
  }

  /** A proposal that was not approved before a step and is after it was settled by that step. */
  lemma StepApproves(s: GovState, op: Op, id: u32)
    requires Inv(s) && id in After(s, op).proposals && After(s, op).proposals[id].status == Approved
    requires id in s.proposals ==> s.proposals[id].status != Approved
    ensures Approves(s, op, After(s, op), id)
  {
    hide Call, Approves, SettledBy, FinalStatus;
    assert Call(s, op).Ok?;
    StepHasEffect(s, op);
    OnlySettlingApproves(s, op, After(s, op), id);
    if op.CastVote? {
      VoteHasEffect(s, op);
      VoteApproves(s, op, After(s, op));
    } else if op.FinalizeProposal? {
      FinalizeHasEffect(s, op);
      FinalizeApproves(s, op, After(s, op));
    } else {
      CancelAndExecuteSet(s, op);
    }
  }

  ghost predicate HasStatus(s: GovState, id: u32, status: ProposalStatus) {
    id in s.proposals && s.proposals[id].status == status
  }

  /** Every proposal found approved or executed was settled at some step that met both floors. */
  lemma {:induction false} ApprovalWasEarned(ops: seq<Op>, id: u32) returns (k: nat)
    requires HasStatus(Run(ops), id, Approved) || HasStatus(Run(ops), id, Executed)
    ensures k < |ops| && Approves(Run(ops[..k]), ops[k], Run(ops[..k + 1]), id)
    decreases |ops|
  {
    hide Call, Approves, Inv;
    assert |ops| > 0;
    k := |ops| - 1;
    var s, op := Run(ops[..k]), ops[k];
    assert ops[..k + 1] == ops;
    InvAlways(ops[..k]);
    if HasStatus(s, id, Approved) || HasStatus(s, id, Executed) {
      var j := ApprovalWasEarned(ops[..k], id);
      assert ops[..k][..j] == ops[..j] && ops[..k][..j + 1] == ops[..j + 1];
      k := j;
    } else {
      if HasStatus(After(s, op), id, Executed) {
        ExecutionNeedsApproval(s, op, id);
      }
      StepApproves(s, op, id);
    }
  }

  lemma ExecutionNeedsApproval(s: GovState, op: Op, id: u32)
    requires Inv(s) && HasStatus(After(s, op), id, Executed)
    ensures HasStatus(s, id, Approved) || HasStatus(s, id, Executed)
  {
    hide Call;
    if Call(s, op).Ok? {
      StepHasEffect(s, op);
      if id in s.proposals {
        EffectAdvances(s, op, After(s, op), id);
      }
    }
  }

  /** How many times a run successfully executes proposal `id`. */
  ghost function Executions(s: GovState, ops: seq<Op>, id: u32): nat {
    if |ops| == 0 then 0
    else
      var op := ops[|ops| - 1];
      Executions(s, ops[..|ops| - 1], id)
      + (if op.ExecuteProposal? && op.id == id && Call(Before(s, ops), op).Ok? then 1 else 0)
  }

  /** A step executes `id` exactly when it turns it from not executed to executed. */
  lemma ExecutionStep(s: GovState, op: Op, id: u32)
    requires Inv(s)
    ensures var runs := op.ExecuteProposal? && op.id == id && Call(s, op).Ok?;
            && (runs ==> !HasStatus(s, id, Executed) && HasStatus(After(s, op), id, Executed))
            && (!runs ==> (HasStatus(After(s, op), id, Executed) <==> HasStatus(s, id, Executed)))
  {
    hide Call;
    if Call(s, op).Ok? {
      StepHasEffect(s, op);
      ExecutionEffect(s, op, After(s, op), id);
    }
  }

  lemma ExecutionEffect(s: GovState, op: Op, t: GovState, id: u32)
    requires ProposalsOk(s) && Effect(s, op, t)
    ensures var runs := op.ExecuteProposal? && op.id == id;
            && (runs ==> !HasStatus(s, id, Executed) && HasStatus(t, id, Executed))
            && (!runs ==> (HasStatus(t, id, Executed) <==> HasStatus(s, id, Executed)))
  {
    hide VoteWeight, Latest, Record, HistoryOf;
  }

  /** A proposal is executed at most once in any run, and once exactly when it ends up executed. */
  lemma {:induction false} ExecutedAtMostOnce(ops: seq<Op>, id: u32)
    ensures Executions(DEPLOYED, ops, id) == if HasStatus(Run(ops), id, Executed) then 1 else 0
    decreases |ops|
  {
    hide Call, Inv;
    if |ops| > 0 {
      var front := ops[..|ops| - 1];
      ExecutedAtMostOnce(front, id);
      InvAlways(front);
      ExecutionStep(Run(front), ops[|ops| - 1], id);
    }
  }

  // ---------- the ballots ----------

  /** In every reachable state a proposal's tallies are the sums over its recorded votes and its
      voter count their number; every recorded vote is its voter's only one there and is positive. */
  lemma TalliesAlways(ops: seq<Op>, id: u32)
    requires id in Run(ops).proposals
    ensures var s, p := Run(ops), Run(ops).proposals[id];
            && p.yes == Sum(Weights(s.votes, id, Approve))
            && p.no == Sum(Weights(s.votes, id, Reject))
            && p.totalVoters == |Ballots(s.votes, id)|
            && forall k :: k in Ballots(s.votes, id) ==> s.votes[k].voter == k.1 && 0 < s.votes[k].weight
  {
    InvAlways(ops);
    assert TallyOk(Run(ops).votes, id, Run(ops).proposals[id]);
  }

  lemma CancelNeedsNoVotes(s: GovState, op: Op, id: u32)
    requires Inv(s) && HasStatus(After(s, op), id, Cancelled) && !HasStatus(s, id, Cancelled)
    ensures id in s.proposals && s.proposals[id].totalVoters == 0
    ensures After(s, op).proposals[id].totalVoters == 0
  {
    hide Call, FinalStatus;
    if Call(s, op).Ok? {
      StepHasEffect(s, op);
      if op.FinalizeProposal? {
        FinalizeHasEffect(s, op);
        FinalStatusSettles(s, s.proposals[op.id]);
      } else if op.CancelProposal? {
        CancelChecksVotes(s, op);
      }
      CancelledBy(s, op, After(s, op), id);
    }
  }

  lemma CancelChecksVotes(s: GovState, op: Op)
    requires op.CancelProposal? && Call(s, op).Ok?
    ensures op.id in s.proposals && s.proposals[op.id].totalVoters == 0
  {
  }

  /** Neither a vote, a finalization nor an execution leads to the cancelled status. */
  lemma CancelledBy(s: GovState, op: Op, t: GovState, id: u32)
    requires Effect(s, op, t) && HasStatus(t, id, Cancelled) && !HasStatus(s, id, Cancelled)
    requires op.FinalizeProposal? ==> HasStatus(t, op.id, Approved) || HasStatus(t, op.id, Rejected)
    ensures op.CancelProposal? && op.id == id && t.proposals[id].totalVoters == s.proposals[id].totalVoters
  {
    hide VoteWeight, Latest, Record, HistoryOf;
  }

  lemma FinalStatusSettles(s: GovState, p: Proposal)
    ensures FinalStatus(s, p).Ok? ==> FinalStatus(s, p).value == Approved || FinalStatus(s, p).value == Rejected
  {
    hide Threshold, ApprovalBps;
  }

  /** Only proposals nobody voted on are ever cancelled. */
  lemma {:induction false} CancelledHasNoVotes(ops: seq<Op>, id: u32)
    requires HasStatus(Run(ops), id, Cancelled)
    ensures Run(ops).proposals[id].totalVoters == 0 && Ballots(Run(ops).votes, id) == {}
    decreases |ops|
  {
    hide Call, Inv;
    assert |ops| > 0;
    var front := ops[..|ops| - 1];
    InvAlways(front);
    if HasStatus(Run(front), id, Cancelled) {
      CancelledHasNoVotes(front, id);
      StepFreezes(Run(front), ops[|ops| - 1], id);
    } else {
      CancelNeedsNoVotes(Run(front), ops[|ops| - 1], id);
    }
    TalliesAlways(ops, id);
  }

  lemma StepFreezes(s: GovState, op: Op, id: u32)
    requires Inv(s) && id in s.proposals && s.proposals[id].status != Active
    ensures id in After(s, op).proposals
    ensures After(s, op).proposals[id] == s.proposals[id].(status := After(s, op).proposals[id].status)
  {
    hide Call;
    if Call(s, op).Ok? {
      StepHasEffect(s, op);
      EffectAdvances(s, op, After(s, op), id);
    }
  }

  /** Every reachable configuration can be met: when the whole of a positive supply approves, the
      proposal is approved, except exactly where a fixed quorum is above the supply; when the whole
      supply rejects, it is rejected. */
  lemma UnanimityDecides(ops: seq<Op>, p: Proposal)
    requires Run(ops).config.Some? && 0 < PastSupply(Run(ops), p.snapshotLedger)
    requires p.yes + p.no == PastSupply(Run(ops), p.snapshotLedger) && (p.yes + p.no) * BPS + BPS <= I128_MAX
    requires p.yes == 0 || p.no == 0
    ensures var config := Run(ops).config.value;
            FinalStatus(Run(ops), p) ==
            Ok(if p.no == 0 && (config.quorumBps.Some? || config.quorumThreshold <= p.yes) then Approved else Rejected)
  {
    InvAlways(ops);
    UnanimousStatus(Run(ops), p);
  }

  lemma UnanimousStatus(s: GovState, p: Proposal)
    requires s.config.Some? && ConfigOk(s.config.value)
    requires 0 < p.yes + p.no == PastSupply(s, p.snapshotLedger) && (p.yes + p.no) * BPS + BPS <= I128_MAX
    requires p.yes == 0 || p.no == 0
    ensures FinalStatus(s, p) ==
            Ok(if p.no == 0 && (s.config.value.quorumBps.Some? || s.config.value.quorumThreshold <= p.yes) then Approved
               else Rejected)
  {
    var config, supply := s.config.value, PastSupply(s, p.snapshotLedger);
    if config.quorumBps.Some? {
      ShareWithin(supply, config.quorumBps.value);
      ThresholdIsExactShare(config, supply, supply);
    }
    assert Threshold(config, supply).Ok?;
    hide Threshold, PastSupply;
    DecideMeaning(config, Threshold(config, supply).value, p.yes, supply);
    MulMono(config.consensusThreshold, BPS, supply);
    MulMono(1, config.consensusThreshold, supply);
    assert InI128(p.yes * 10_000);
  }

  // ---------- the quorum sentinel ----------

  /** No vote is ever counted on a proposal whose sentinel is set, so the "already emitted" branch
      is never taken; a vote sets the sentinel exactly when it settles its proposal. */
  lemma SentinelBranchUnreachable(ops: seq<Op>, op: Op)
    requires op.CastVote? && Call(Run(ops), op).Ok?
    ensures op.id !in Run(ops).quorumReached
    ensures var t := After(Run(ops), op);
            op.id in t.proposals && (op.id in t.quorumReached <==> t.proposals[op.id].status != Active)
  {
    InvAlways(ops);
    StepHasEffect(Run(ops), op);
  }

  /** The quorum event is sent at most once per proposal over any run. */
  lemma QuorumAnnouncedOnce(ops: seq<Op>, id: u32)
    ensures multiset(Announced(Run(ops).quorumEvents))[id] == if id in Run(ops).quorumReached then 1 else 0
    ensures id in Run(ops).quorumReached ==>
              id in Run(ops).proposals && Run(ops).proposals[id].status != Active
  {
    InvAlways(ops);
    DistinctCountsOnce(Announced(Run(ops).quorumEvents), id);
  }

  lemma {:induction false} DistinctCountsOnce<T>(xs: seq<T>, x: T)
    requires Distinct(xs)
    ensures multiset(xs)[x] == if x in xs then 1 else 0
    decreases |xs|
  {
    if |xs| > 0 {
      var front := xs[..|xs| - 1];
      assert xs == front + [xs[|xs| - 1]];
      DistinctCountsOnce(front, x);
    }
  }

  // ---------- the quorum query ----------

  /** In every reachable state the quorum query tells what finalizing would decide, and its
      progress figure is full exactly when the quorum is met. */
  lemma QuorumStateTruthful(ops: seq<Op>, id: u32)
    requires id in Run(ops).proposals && ProposalQuorumState(Run(ops), id).Ok?
    ensures var q := ProposalQuorumState(Run(ops), id).value;
            && q.Some?
            && (Predicts(q.value, FinalStatus(Run(ops), Run(ops).proposals[id]))
                <==> !(q.value.votesCast == 0 && q.value.quorumThreshold <= 0))
            && 0 <= q.value.quorumFractionBps <= BPS
            && (q.value.quorumFractionBps == BPS <==> q.value.quorumMet)
  {
    InvAlways(ops);
    TalliesNonNegative(Run(ops), id);
    QuorumStatePredicts(Run(ops), id);
    hide *;
  }

  // ---------- what the entry points tell their callers ----------

  /** A cancelled proposal has no ballots and stays cancelled, whatever is called. */
  lemma StaysCancelled(ops: seq<Op>, id: u32)
    requires HasStatus(Run(ops), id, Cancelled)
    ensures Ballots(Run(ops).votes, id) == {}
    ensures forall later :: HasStatus(RunFrom(Run(ops), later), id, Cancelled)
  {
    CancelledHasNoVotes(ops, id);
    InvAlways(ops);
    hide Run, Inv;
    forall later
      ensures HasStatus(RunFrom(Run(ops), later), id, Cancelled)
    {
      LifecycleOnlyAdvances(Run(ops), later, id);
    }
  }

  /** There is a configuration exactly once there is an admin. */
  lemma AdminHasConfig(ops: seq<Op>)
    ensures Run(ops).admin.Some? <==> Run(ops).config.Some?
  {
    InvAlways(ops);
  }

  lemma CheckConfigMeans(config: GovernanceConfig)
    ensures CheckConfig(config).Ok?
            <==> ConfigOk(config) && config.snapshotOffset.GetOr(0) <= 120_960
  {
  }

  /** From a delegation on the delegator's votes are its delegatee's; nobody else's change. */
  lemma DelegationMoves(s: GovState, delegator: Address, delegatee: Address, t: GovState)
    requires t == s.(delegation := s.delegation[delegator := delegatee])
    ensures forall q: u32 :: VoteWeight(t, delegator, q) == PastVotes(s, delegatee, q)
    ensures forall v, q: u32 :: v != delegator ==> VoteWeight(t, v, q) == VoteWeight(s, v, q)
  {
    hide LastAt;
  }

  /** A cached balance is the answer for its account and ledger where no checkpoint is early enough. */
  lemma CacheMoves(s: GovState, ledger: u32, a: Address, balance: i128, t: GovState)
    requires t == s.(cached := s.cached[(ledger, a) := balance])
    ensures PastVotes(t, a, ledger) == LastAt(HistoryOf(s, a), ledger).GetOr(balance)
    ensures forall b, q: u32 :: (b, q) != (a, ledger) ==> PastVotes(t, b, q) == PastVotes(s, b, q)
    ensures forall q: u32 :: PastSupply(t, q) == PastSupply(s, q)
  {
    hide LastAt;
  }
}
