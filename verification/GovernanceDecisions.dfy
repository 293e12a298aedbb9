/** When votes, finalizations and executions are accepted and what they decide, in the tallies, the
    supply and the caller's arguments alone. */
module GovernanceDecisions {
  import opened Common
  import opened Checkpoints
  import opened GovernanceModel
  import opened GovernanceInvariants
  import opened GovernanceQuorum
  import opened GovernanceRuns

  // ---------- the decision ----------

  /** The votes reach the quorum: a fixed number, or the configured share of a positive supply. */
  predicate Reaches(config: GovernanceConfig, supply: int, total: int) {
    match config.quorumBps
    case None => config.quorumThreshold <= total
    case Some(bps) => supply <= 0 || supply * bps <= total * 10_000
  }

  /** Nothing overflows on the way to the decision, and votes that reach the quorum are not zero. */
  predicate Decidable(config: GovernanceConfig, supply: int, yes: int, no: int) {
    && yes + no <= I128_MAX
    && (config.quorumBps.Some? && 0 < supply ==> supply * config.quorumBps.value + 9_999 <= I128_MAX)
    && (Reaches(config, supply, yes + no) ==> 0 < yes + no && yes * 10_000 <= I128_MAX)
  }

  /** Votes that reach the quorum are approved exactly if the yes votes reach the consensus share. */
  function Decision(config: GovernanceConfig, supply: int, yes: int, no: int): ProposalStatus {
    if Reaches(config, supply, yes + no) && config.consensusThreshold * (yes + no) <= yes * 10_000 then Approved
    else Rejected
  }

  lemma ThresholdMeaning(config: GovernanceConfig, supply: i128, total: int)
    requires ConfigOk(config) && 0 <= total
    ensures Threshold(config, supply).Ok? <==>
              (config.quorumBps.Some? && 0 < supply ==> supply * config.quorumBps.value + 9_999 <= I128_MAX)
    ensures Threshold(config, supply).Ok? ==>
              (Threshold(config, supply).value <= total <==> Reaches(config, supply, total))
  {
    if config.quorumBps.Some? && 0 < supply {
      ShareWithin(supply, config.quorumBps.value);
      if Threshold(config, supply).Ok? {
        ThresholdIsExactShare(config, supply, total);
      }
    }
  }

  /** The decision is made exactly where it is decidable, and is as stated. */
  lemma DecideIff(config: GovernanceConfig, threshold: i128, supply: i128, yes: int, no: int)
    requires ConfigOk(config) && 0 <= yes && 0 <= no && yes + no <= I128_MAX
    requires Threshold(config, supply) == Ok(threshold)
    ensures Decide(config, threshold, yes, yes + no).Ok? <==> Decidable(config, supply, yes, no)
    ensures Decide(config, threshold, yes, yes + no).Ok? ==>
              Decide(config, threshold, yes, yes + no).value == Decision(config, supply, yes, no)
  {
    ThresholdMeaning(config, supply, yes + no);
    DecideMeaning(config, threshold, yes, yes + no);
    hide Threshold, Reaches;
  }

  lemma FinalStatusIff(s: GovState, p: Proposal)
    requires s.config.Some? && ConfigOk(s.config.value) && 0 <= p.yes && 0 <= p.no
    ensures var supply := PastSupply(s, p.snapshotLedger);
            && (FinalStatus(s, p).Ok? <==> Decidable(s.config.value, supply, p.yes, p.no))
            && (FinalStatus(s, p).Ok? ==> FinalStatus(s, p).value == Decision(s.config.value, supply, p.yes, p.no))
  {
    var config, supply := s.config.value, PastSupply(s, p.snapshotLedger);
    hide PastSupply;
    ThresholdMeaning(config, supply, p.yes + p.no);
    if Threshold(config, supply).Ok? && p.yes + p.no <= I128_MAX {
      DecideIff(config, Threshold(config, supply).value, supply, p.yes, p.no);
    }
    hide Threshold, Decide, Decision, Reaches;
  }

  // ---------- finalizing ----------

  /** A proposal is finalized exactly if it is active, its last ledger is past and there is a decision
      to make. It then has that decision's status, and nothing else changes; a refusal changes nothing. */
  ghost predicate FinalizesAsDecided(s: GovState, id: u32, accepted: bool, t: GovState) {
    && (accepted <==>
          && HasStatus(s, id, Active) && s.proposals[id].endLedger < s.ledger && s.config.Some?
          && var p := s.proposals[id];
          Decidable(s.config.value, PastSupply(s, p.snapshotLedger), p.yes, p.no))
    && (accepted ==>
          var p := s.proposals[id];
          var status := Decision(s.config.value, PastSupply(s, p.snapshotLedger), p.yes, p.no);
          t == s.(proposals := s.proposals[id := p.(status := status)]))
    && (!accepted ==> t == s)
  }

  lemma FinalizeMeaning(s: GovState, id: u32)
    requires Inv(s)
    ensures var op := FinalizeProposal(id); FinalizesAsDecided(s, id, Call(s, op).Ok?, After(s, op))
  {
    if id in s.proposals {
      TalliesNonNegative(s, id);
      FinalStatusIff(s, s.proposals[id]);
      assert s.config.Some?;
    }
    hide Inv, FinalStatus, Decision, Decidable, PastSupply;
  }

  lemma FinalizeMeaningAlways(ops: seq<Op>, id: u32)
    ensures var s, op := Run(ops), FinalizeProposal(id); FinalizesAsDecided(s, id, Call(s, op).Ok?, After(s, op))
  {
    InvAlways(ops);
    FinalizeMeaning(Run(ops), id);
  }

  // ---------- voting ----------

  /** The yes and no votes after one more ballot. */
  function YesWith(p: Proposal, choice: VoteChoice, weight: int): int {
    p.yes + (if choice == Approve then weight else 0)
  }

  function NoWith(p: Proposal, choice: VoteChoice, weight: int): int {
    p.no + (if choice == Reject then weight else 0)
  }

  /** The tallies with the ballot can still be counted and decided. */
  predicate Countable(s: GovState, p: Proposal, choice: VoteChoice, weight: int) {
    && s.config.Some? && p.totalVoters < U32_MAX
    && Decidable(s.config.value, PastSupply(s, p.snapshotLedger), YesWith(p, choice, weight), NoWith(p, choice, weight))
  }

  lemma SettleIff(s: GovState, id: u32, p: Proposal)
    requires s.config.Some? && ConfigOk(s.config.value) && 0 <= p.yes && 0 <= p.no && 0 < p.yes + p.no
    requires p.status == Active && p.id !in s.quorumReached
    ensures var supply := PastSupply(s, p.snapshotLedger);
            && (SettleSpec(s, id, p).Ok? <==> Decidable(s.config.value, supply, p.yes, p.no))
            && (SettleSpec(s, id, p).Ok? ==>
                  && id in SettleSpec(s, id, p).value.proposals
                  && SettleSpec(s, id, p).value.proposals[id].status ==
                     if Reaches(s.config.value, supply, p.yes + p.no)
                     then Decision(s.config.value, supply, p.yes, p.no) else Active)
  {
    var config, supply := s.config.value, PastSupply(s, p.snapshotLedger);
    hide PastSupply;
    ThresholdMeaning(config, supply, p.yes + p.no);
    if Threshold(config, supply).Ok? && p.yes + p.no <= I128_MAX {
      DecideIff(config, Threshold(config, supply).value, supply, p.yes, p.no);
      MulMono(0, p.yes, 10_000);
    }
    hide Threshold, Decision, Reaches, TruncDiv;
  }

  /** A vote is counted exactly if nothing is paused, the proposal is open, it is the voter's first there
      and weighs something, and the tallies stay countable. They gain the weight on the chosen side; the
      proposal then waits below the quorum and is decided at it. A refusal changes nothing. */
  ghost predicate VotesAsCounted(s: GovState, op: Op, accepted: bool, t: GovState)
    requires op.CastVote?
  {
    && (accepted <==>
          && !op.paused && HasStatus(s, op.id, Active) && s.ledger <= s.proposals[op.id].endLedger
          && (op.id, op.voter) !in s.votes
          && var weight := VoteWeight(s, op.voter, s.proposals[op.id].snapshotLedger);
          && 0 < weight && Countable(s, s.proposals[op.id], op.choice, weight))
    && (accepted ==>
          && op.id in t.proposals && s.config.Some?
          && var p, q := s.proposals[op.id], t.proposals[op.id];
          && var supply := PastSupply(s, p.snapshotLedger);
          && var weight := VoteWeight(s, op.voter, p.snapshotLedger);
          && q.yes == YesWith(p, op.choice, weight) && q.no == NoWith(p, op.choice, weight)
          && q.totalVoters == p.totalVoters + 1
          && q.status == (if Reaches(s.config.value, supply, q.yes + q.no)
                          then Decision(s.config.value, supply, q.yes, q.no) else Active)
          && t.votes == s.votes[(op.id, op.voter) := Vote(op.voter, op.choice, weight, s.timestamp)])
    && (!accepted ==> t == s)
  }

  lemma VoteMeaning(s: GovState, paused: bool, voter: Address, id: u32, choice: VoteChoice)
    requires Inv(s)
    ensures var op := CastVote(paused, voter, id, choice); VotesAsCounted(s, op, Call(s, op).Ok?, After(s, op))
  {
    if !paused && Ballot(s, voter, id).Ok? {
      BallotMeaning(s, voter, id, choice);
    }
    hide Inv, SettleSpec, Decision, Decidable, PastSupply, Reaches, Counted, VoteWeight;
  }

  lemma BallotMeaning(s: GovState, voter: Address, id: u32, choice: VoteChoice)
    requires Inv(s) && Ballot(s, voter, id).Ok?
    ensures var op := CastVote(false, voter, id, choice); VotesAsCounted(s, op, Call(s, op).Ok?, After(s, op))
  {
    hide Inv, Call, Decision, Decidable, PastSupply, Reaches, Counted, VoteWeight;
    var p, weight := s.proposals[id], VoteWeight(s, voter, s.proposals[id].snapshotLedger);
    SentinelClear(s, id);
    CountedIff(p, choice, weight);
    if Counted(p, choice, weight).Ok? {
      CountedMeaning(s, voter, id, choice, weight);
    } else {
      CountedErr(s, voter, id, choice, weight);
      if Countable(s, p, choice, weight) {
        CountableFits(s, p, choice, weight);
      }
    }
  }

  lemma CountableFits(s: GovState, p: Proposal, choice: VoteChoice, weight: int)
    requires Countable(s, p, choice, weight)
    ensures p.totalVoters < U32_MAX && YesWith(p, choice, weight) + NoWith(p, choice, weight) <= I128_MAX
  {
  }

  lemma CountedErr(s: GovState, voter: Address, id: u32, choice: VoteChoice, weight: i128)
    requires id in s.proposals && Ballot(s, voter, id) == Ok((s.proposals[id], weight))
    requires Counted(s.proposals[id], choice, weight).Err?
    ensures Call(s, CastVote(false, voter, id, choice)).Err?
  {
    hide Ballot, Counted;
  }

  lemma CountedMeaning(s: GovState, voter: Address, id: u32, choice: VoteChoice, weight: i128)
    requires id in s.proposals && Ballot(s, voter, id) == Ok((s.proposals[id], weight))
    requires s.config.Some? && ConfigOk(s.config.value) && s.proposals[id].id == id && id !in s.quorumReached
    requires 0 <= s.proposals[id].yes && 0 <= s.proposals[id].no && Counted(s.proposals[id], choice, weight).Ok?
    ensures var op, p := CastVote(false, voter, id, choice), s.proposals[id];
            var t, supply := After(s, op), PastSupply(s, p.snapshotLedger);
            && (Call(s, op).Ok? <==>
                  Decidable(s.config.value, supply, YesWith(p, choice, weight), NoWith(p, choice, weight)))
            && (Call(s, op).Ok? ==>
                  && id in t.proposals
                  && t.proposals[id] == Counted(p, choice, weight).value.(status := t.proposals[id].status)
                  && t.proposals[id].status ==
                     (if Reaches(s.config.value, supply, t.proposals[id].yes + t.proposals[id].no)
                      then Decision(s.config.value, supply, t.proposals[id].yes, t.proposals[id].no) else Active)
                  && t.votes == s.votes[(id, voter) := Vote(voter, choice, weight, s.timestamp)])
  {
    var recorded := s.(votes := s.votes[(id, voter) := Vote(voter, choice, weight, s.timestamp)]);
    CountedIff(s.proposals[id], choice, weight);
    SettleIff(recorded, id, Counted(s.proposals[id], choice, weight).value);
    assert PastSupply(recorded, s.proposals[id].snapshotLedger) == PastSupply(s, s.proposals[id].snapshotLedger);
    VoteTallies(s, voter, id, choice, weight);
    hide Call, SettleSpec, Decision, Decidable, PastSupply, Reaches, Counted, VoteWeight;
  }

  lemma VoteMeaningAlways(ops: seq<Op>, op: Op)
    requires op.CastVote?
    ensures VotesAsCounted(Run(ops), op, Call(Run(ops), op).Ok?, After(Run(ops), op))
  {
    InvAlways(ops);
    VoteMeaning(Run(ops), op.paused, op.voter, op.id, op.choice);
  }

  lemma SentinelClear(s: GovState, id: u32)
    requires Inv(s) && HasStatus(s, id, Active)
    ensures s.proposals[id].id == id && id !in s.quorumReached
    ensures s.config.Some? && ConfigOk(s.config.value)
    ensures 0 <= s.proposals[id].yes && 0 <= s.proposals[id].no
  {
    TalliesNonNegative(s, id);
  }

  lemma CountedIff(p: Proposal, choice: VoteChoice, weight: i128)
    requires 0 <= p.yes && 0 <= p.no && 0 < weight
    ensures Counted(p, choice, weight).Ok? ==>
              var q := Counted(p, choice, weight).value;
              && q == p.(yes := q.yes, no := q.no, totalVoters := p.totalVoters + 1) && p.totalVoters < U32_MAX
              && q.yes == YesWith(p, choice, weight) && q.no == NoWith(p, choice, weight)
    ensures p.totalVoters < U32_MAX && YesWith(p, choice, weight) + NoWith(p, choice, weight) <= I128_MAX ==>
              Counted(p, choice, weight).Ok?
  {
  }

  lemma VoteTallies(s: GovState, voter: Address, id: u32, choice: VoteChoice, weight: i128)
    requires id in s.proposals && Ballot(s, voter, id) == Ok((s.proposals[id], weight))
    requires Counted(s.proposals[id], choice, weight).Ok?
    ensures var op, q := CastVote(false, voter, id, choice), Counted(s.proposals[id], choice, weight).value;
            var recorded := s.(votes := s.votes[(id, voter) := Vote(voter, choice, weight, s.timestamp)]);
            && Call(s, op) == SettleSpec(recorded, id, q)
            && (Call(s, op).Ok? ==>
                  && id in After(s, op).proposals && After(s, op).votes == recorded.votes
                  && After(s, op).proposals[id] == q.(status := After(s, op).proposals[id].status))
  {
    hide Threshold, PastSupply, VoteWeight, ApprovalBps;
  }

  // ---------- the quorum query ----------

  /** What the query answers: nothing exactly for an unknown proposal, and otherwise its tallies, whether
      they reach the quorum, and the approval and the progress rounded down. */
  lemma QuorumQueryMeaning(s: GovState, id: u32)
    requires Inv(s)
    ensures ProposalQuorumState(s, id) == Ok(None) <==> id !in s.proposals
    ensures id in s.proposals && ProposalQuorumState(s, id).Ok? ==>
              var p, q := s.proposals[id], ProposalQuorumState(s, id).value.value;
              && q.yes == p.yes && q.no == p.no && q.votesCast == p.yes + p.no
              && s.config.Some? && q.consensusThreshold == s.config.value.consensusThreshold
              && (q.quorumMet <==> Reaches(s.config.value, PastSupply(s, p.snapshotLedger), q.votesCast))
              && (q.quorumMet <==> q.quorumThreshold <= q.votesCast)
              && (if 0 < q.votesCast then Share(q.approvalBps, p.yes, q.votesCast) else q.approvalBps == 0)
              && (if q.quorumMet then q.quorumFractionBps == 10_000
                  else Share(q.quorumFractionBps, q.votesCast, q.quorumThreshold))
  {
    if id in s.proposals && ProposalQuorumState(s, id).Ok? {
      var p := s.proposals[id];
      TalliesNonNegative(s, id);
      assert s.config.Some? && ConfigOk(s.config.value);
      QuorumStateIsDecision(s, id);
      hide Inv, ProposalQuorumState, FinalStatus;
      ThresholdMeaning(s.config.value, PastSupply(s, p.snapshotLedger), p.yes + p.no);
      QuorumFields(s.config.value, Threshold(s.config.value, PastSupply(s, p.snapshotLedger)).value, p.yes, p.no);
      hide Threshold, PastSupply, Reaches, QuorumStateOf;
    }
    hide Inv;
  }

  /** So many basis points, rounded down, that `part` is of `whole`. */
  predicate Share(bps: int, part: int, whole: int) {
    0 <= bps <= 10_000 && bps * whole <= part * 10_000 < (bps + 1) * whole
  }

  lemma QuorumFields(config: GovernanceConfig, threshold: i128, yes: i128, no: i128)
    requires 0 <= yes && 0 <= no && QuorumStateOf(config, threshold, yes, no).Ok?
    ensures var q := QuorumStateOf(config, threshold, yes, no).value;
            && q.yes == yes && q.no == no && q.votesCast == yes + no && q.quorumThreshold == threshold
            && q.consensusThreshold == config.consensusThreshold && (q.quorumMet <==> threshold <= yes + no)
            && (if 0 < yes + no then Share(q.approvalBps, yes, yes + no) else q.approvalBps == 0)
            && (if q.quorumMet then q.quorumFractionBps == 10_000 else Share(q.quorumFractionBps, yes + no, threshold))
  {
    ShareBounds(yes, yes + no);
    ShareBounds(yes + no, threshold);
    if 0 < threshold {
      FractionMeaning(yes + no, threshold);
    }
    hide TruncDiv;
  }

  // ---------- executing ----------

  /** A configuration with the numbers of a proposal's action. */
  function Replaced(config: GovernanceConfig, action: ProposalAction): GovernanceConfig
    requires action.ReplaceConfig?
  {
    config.(quorumThreshold := action.quorumThreshold, consensusThreshold := action.consensusThreshold,
            votingPeriod := action.votingPeriod)
  }

  /** The action's numbers are in bounds, or the other contract does what it is asked. */
  predicate CanRun(action: Option<ProposalAction>, callSucceeds: bool) {
    match action
    case None => true
    case Some(ReplaceConfig(quorum, consensus, period)) => 1 <= quorum && 1 <= consensus <= 10_000 && 1 <= period
    case Some(_) => callSucceeds
  }

  /** The configuration an executed action leaves. */
  function ConfigAfter(s: GovState, action: Option<ProposalAction>): Option<GovernanceConfig> {
    if action.Some? && action.value.ReplaceConfig? && s.config.Some? then Some(Replaced(s.config.value, action.value))
    else s.config
  }

  /** A proposal is executed exactly if it is approved and its action can run. A configuration action
      then replaces its three numbers and keeps the rest, any other leaves the configuration, and
      nothing else changes but the status; a refusal changes nothing. */
  ghost predicate ExecutesAction(s: GovState, id: u32, callSucceeds: bool, accepted: bool, t: GovState) {
    && (accepted <==> HasStatus(s, id, Approved) && CanRun(s.proposals[id].action, callSucceeds))
    && (accepted ==>
          t == s.(config := ConfigAfter(s, s.proposals[id].action),
                  proposals := s.proposals[id := s.proposals[id].(status := Executed)]))
    && (!accepted ==> t == s)
  }

  lemma ExecuteMeaning(s: GovState, id: u32, callSucceeds: bool)
    requires Inv(s)
    ensures var op := ExecuteProposal(id, callSucceeds);
            ExecutesAction(s, id, callSucceeds, Call(s, op).Ok?, After(s, op))
  {
    if id in s.proposals {
      assert s.config.Some?;
    }
    hide Inv;
  }

  lemma ExecuteMeaningAlways(ops: seq<Op>, id: u32, callSucceeds: bool)
    ensures var s, op := Run(ops), ExecuteProposal(id, callSucceeds);
            ExecutesAction(s, id, callSucceeds, Call(s, op).Ok?, After(s, op))
  {
    InvAlways(ops);
    ExecuteMeaning(Run(ops), id, callSucceeds);
  }

  // ---------- the other guards ----------

  /** Only the admin records balances, while they and the supply fit and the histories have room. */
  lemma PowerAcceptedIff(s: GovState, paused: bool, admin: Address, account: Address, balance: i128)
    ensures var h := HistoryOf(s, account);
            Call(s, UpdateVotingPower(paused, admin, account, balance)).Ok? <==>
              && !paused && s.admin == Some(admin)
              && InI128(balance - Latest(h)) && InI128(Latest(s.supply) + balance - Latest(h))
              && (Overwrites(h, s.ledger) || |h| < U32_MAX)
              && (Overwrites(s.supply, s.ledger) || |s.supply| < U32_MAX)
  {
  }

  /** Anyone creates a proposal, with texts in bounds, for a talos the registry accepts. */
  lemma CreateAcceptedIff(s: GovState, op: Op)
    requires op.CreateProposal?
    ensures Call(s, op).Ok? <==>
              && !op.paused && 1 <= |op.title| <= 128 && 1 <= |op.description| <= 2048 && op.registryAccepts
              && s.config.Some? && s.ledger + s.config.value.votingPeriod <= U32_MAX && s.nextProposalId < U32_MAX
  {
  }

  /** Only its proposer cancels a proposal, while it is active and nobody voted. */
  lemma CancelAcceptedIff(s: GovState, proposer: Address, id: u32)
    requires Inv(s)
    ensures Call(s, CancelProposal(proposer, id)).Ok? <==>
              HasStatus(s, id, Active) && s.proposals[id].proposer == proposer && Ballots(s.votes, id) == {}
  {
    if id in s.proposals {
      assert TallyOk(s.votes, id, s.proposals[id]);
      assert s.proposals[id].totalVoters == |Ballots(s.votes, id)|;
      assert |Ballots(s.votes, id)| == 0 <==> Ballots(s.votes, id) == {};
    }
    hide Inv, TallyOk, Ballots;
  }

  /** The first initialization in bounds sets the admin and a fixed quorum without an offset. */
  lemma InitializeAcceptedIff(s: GovState, admin: Address, token: Address, quorum: i128, consensus: i128, period: u32)
    requires Inv(s)
    ensures var op := Initialize(admin, token, quorum, consensus, period);
            && (Call(s, op).Ok? <==> s.admin.None? && 1 <= quorum && 1 <= consensus <= 10_000 && 1 <= period)
            && (Call(s, op).Ok? ==>
                  After(s, op) == s.(admin := Some(admin),
                                     config := Some(GovernanceConfig(quorum, consensus, period, token, None, None))))
  {
    assert s.admin.None? ==> s.nextProposalId == 1;
    hide Inv;
  }
}
