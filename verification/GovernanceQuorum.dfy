/** What the quorum arithmetic means. */
module GovernanceQuorum {
  import opened Common
  import opened Sums
  import opened GovernanceModel
  import opened GovernanceInvariants

  /** Ceiling division by the denominator of a basis point share. */
  lemma CeilingIsLeast(x: int, votes: int)
    ensures votes >= (x + 9_999) / 10_000 <==> votes * 10_000 >= x
  {
  }

  /** A share between one basis point and the whole of a positive supply. */
  lemma ShareWithin(supply: int, bps: int)
    requires 0 < supply && 1 <= bps <= BPS
    ensures 0 < supply * bps <= supply * BPS
  {
    MulMono(1, bps, supply);
    MulMono(bps, BPS, supply);
  }

  /** In share mode the threshold is the least vote count that reaches the configured share. */
  lemma ThresholdIsExactShare(config: GovernanceConfig, supply: i128, votes: int)
    requires config.quorumBps.Some? && 1 <= config.quorumBps.value <= BPS && 0 < supply
    requires Threshold(config, supply).Ok?
    ensures var t := Threshold(config, supply).value;
            && (votes >= t <==> votes * 10_000 >= supply * config.quorumBps.value)
            && 1 <= t <= supply
  {
    var x := supply * config.quorumBps.value;
    assert Threshold(config, supply).value == (x + 9_999) / 10_000;
    hide Threshold;
    ShareWithin(supply, config.quorumBps.value);
    CeilingIsLeast(x, votes);
    CeilingIsLeast(x, supply);
    CeilingIsLeast(x, 0);
  }

  /** A share of non-negative tallies clears a floor exactly when the products compare. */
  lemma ApprovalMeaning(yes: i128, total: i128, floor: int)
    requires 0 <= yes <= total && 0 < total && ApprovalBps(yes, total).Ok?
    ensures var bps := ApprovalBps(yes, total).value;
            && 0 <= bps <= BPS
            && (bps >= floor <==> yes * 10_000 >= floor * total)
  {
    TruncIsFloor(yes * 10_000, total);
    FloorMeaning(yes * 10_000, total, floor);
    FloorMeaning(yes * 10_000, total, 0);
    FloorMeaning(yes * 10_000, total, BPS + 1);
  }

  /** The truncated share brackets the exact one. */
  lemma ShareBounds(yes: i128, total: i128)
    ensures 0 <= yes <= total && 0 < total ==>
              var bps := TruncDiv(yes * 10_000, total);
              0 <= bps <= BPS && bps * total <= yes * 10_000 < (bps + 1) * total
  {
    if 0 <= yes <= total && 0 < total {
      TruncIsFloor(yes * 10_000, total);
      FloorMeaning(yes * 10_000, total, 0);
      FloorMeaning(yes * 10_000, total, BPS + 1);
      FloorMeaning(yes * 10_000, total, yes * 10_000 / total);
      FloorMeaning(yes * 10_000, total, yes * 10_000 / total + 1);
    }
  }

  lemma FractionMeaning(total: i128, threshold: i128)
    requires 0 <= total && 0 < threshold && FractionBps(total, threshold).Ok?
    ensures var bps := FractionBps(total, threshold).value;
            0 <= bps <= BPS && (bps == BPS <==> total >= threshold)
  {
    TruncIsFloor(total * 10_000, threshold);
    FloorMeaning(total * 10_000, threshold, 0);
    FloorMeaning(total * 10_000, threshold, BPS);
  }

  /** The decision in terms of the tallies alone. */
  lemma DecideMeaning(config: GovernanceConfig, threshold: i128, yes: i128, total: i128)
    requires 0 <= yes <= total
    ensures var d := Decide(config, threshold, yes, total);
            && (d == Ok(Approved) ==> total >= threshold && yes * 10_000 >= config.consensusThreshold * total)
            && (d == Ok(Rejected) ==> total < threshold || yes * 10_000 < config.consensusThreshold * total)
            && (d.Ok? ==> d.value == Approved || d.value == Rejected)
            && (d == Err(DivideByZero) <==> total == 0 && threshold <= 0)
            && (d.Err? && total > 0 ==> !InI128(yes * 10_000))
  {
    if total >= threshold && total > 0 && ApprovalBps(yes, total).Ok? {
      ApprovalMeaning(yes, total, config.consensusThreshold);
    }
  }

  lemma TalliesNonNegative(s: GovState, id: u32)
    requires TalliesOk(s) && id in s.proposals
    ensures 0 <= s.proposals[id].yes && 0 <= s.proposals[id].no
  {
    assert TallyOk(s.votes, id, s.proposals[id]);
    SumNonNegative(Weights(s.votes, id, Approve));
    SumNonNegative(Weights(s.votes, id, Reject));
  }

  /** `quorum_state` says what finalizing now would decide. */
  predicate Predicts(state: QuorumState, final: Outcome<ProposalStatus>) {
    final == Ok(if state.quorumMet && state.approvalBps >= state.consensusThreshold then Approved else Rejected)
  }

  /** The query predicts the decision except where the decision traps: no votes against a zero threshold. */
  lemma QuorumStateMeaning(config: GovernanceConfig, threshold: i128, yes: i128, no: i128)
    requires 0 <= yes && 0 <= no && QuorumStateOf(config, threshold, yes, no).Ok?
    ensures var state := QuorumStateOf(config, threshold, yes, no).value;
            && state.votesCast == yes + no && state.quorumThreshold == threshold
            && (Predicts(state, Decide(config, threshold, yes, state.votesCast))
                <==> !(state.votesCast == 0 && state.quorumThreshold <= 0))
            && 0 <= state.quorumFractionBps <= BPS
            && (state.quorumFractionBps == BPS <==> state.quorumMet)
  {
    var total := yes + no;
    if total > 0 {
      ApprovalMeaning(yes, total, config.consensusThreshold);
    }
    if threshold > 0 {
      FractionMeaning(total, threshold);
    }
  }

  lemma QuorumStateIsDecision(s: GovState, id: u32)
    requires id in s.proposals && ProposalQuorumState(s, id).Ok?
    ensures var p := s.proposals[id];
            && s.config.Some?
            && var threshold := Threshold(s.config.value, PastSupply(s, p.snapshotLedger));
            && threshold.Ok? && InI128(p.yes + p.no)
            && FinalStatus(s, p) == Decide(s.config.value, threshold.value, p.yes, p.yes + p.no)
            && QuorumStateOf(s.config.value, threshold.value, p.yes, p.no).Ok?
            && ProposalQuorumState(s, id).value ==
               Some(QuorumStateOf(s.config.value, threshold.value, p.yes, p.no).value)
  {
    hide Threshold, Decide, QuorumStateOf, PastSupply;
  }

  /** In every state that satisfies the invariant, `get_proposal_quorum_state` says what
      finalizing would decide, and finalizing traps exactly in the one case above. */
  lemma QuorumStatePredicts(s: GovState, id: u32)
    requires id in s.proposals && ProposalQuorumState(s, id).Ok?
    requires 0 <= s.proposals[id].yes && 0 <= s.proposals[id].no
    ensures var q := ProposalQuorumState(s, id).value;
            && q.Some?
            && (Predicts(q.value, FinalStatus(s, s.proposals[id]))
                <==> !(q.value.votesCast == 0 && q.value.quorumThreshold <= 0))
            && 0 <= q.value.quorumFractionBps <= BPS
            && (q.value.quorumFractionBps == BPS <==> q.value.quorumMet)
  {
    QuorumStateIsDecision(s, id);
    hide *;
    var p := s.proposals[id];
    QuorumStateMeaning(s.config.value, Threshold(s.config.value, PastSupply(s, p.snapshotLedger)).value, p.yes, p.no);
  }

  lemma NoVotersNoVotes(s: GovState, id: u32)
    requires TalliesOk(s) && id in s.proposals && s.proposals[id].totalVoters == 0
    ensures s.proposals[id].yes == 0 && s.proposals[id].no == 0
  {
    assert TallyOk(s.votes, id, s.proposals[id]);
    assert Ballots(s.votes, id) == {};
    assert forall k :: k in s.votes && k.0 == id ==> k in Ballots(s.votes, id);
    assert Weights(s.votes, id, Approve) == map[];
    assert Weights(s.votes, id, Reject) == map[];
  }

  /** A proposal nobody voted on cannot be finalized while the supply it is measured by is zero:
      the threshold is then zero and the share of no votes is undefined. */
  lemma FinalizeTrapsOnEmptySupply(s: GovState, id: u32)
    requires Inv(s) && id in s.proposals && s.proposals[id].status == Active
    requires s.ledger > s.proposals[id].endLedger && s.proposals[id].totalVoters == 0
    ensures FinalizeProposalSpec(s, id) == Err(DivideByZero)
            <==> s.config.value.quorumBps.Some? && PastSupply(s, s.proposals[id].snapshotLedger) <= 0
  {
    NoVotersNoVotes(s, id);
    var supply := PastSupply(s, s.proposals[id].snapshotLedger);
    if s.config.value.quorumBps.Some? && supply > 0 && Threshold(s.config.value, supply).Ok? {
      ThresholdIsExactShare(s.config.value, supply, 0);
    }
  }
}
