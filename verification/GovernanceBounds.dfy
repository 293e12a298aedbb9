/** A proposal that waits never has a quorum. */
module GovernanceBounds {
  import opened Common
  import opened Checkpoints
  import opened GovernanceModel
  import opened GovernanceInvariants
  import opened GovernanceQuorum
  import opened GovernanceRuns

  // ---------- waiting proposals stay below the threshold ----------

  /** The configuration is the same after every prefix of the run. */
  ghost predicate ConfigKept(s: GovState, ops: seq<Op>) {
    |ops| > 0 ==> ConfigKept(s, ops[..|ops| - 1]) && RunFrom(s, ops).config == s.config
  }

  /** The threshold of a proposal no longer depends on what is recorded from now on. */
  ghost predicate ThresholdFixed(s: GovState, p: Proposal) {
    s.config.Some? && (s.config.value.quorumBps.None? || p.snapshotLedger < s.ledger)
  }

  ghost predicate BelowThreshold(s: GovState, p: Proposal) {
    && s.config.Some?
    && var threshold := Threshold(s.config.value, PastSupply(s, p.snapshotLedger));
    && threshold.Ok?
    && p.yes + p.no < threshold.value
  }

  lemma BelowThresholdCarries(s: GovState, t: GovState, p: Proposal, q: Proposal)
    requires BelowThreshold(s, p) && ThresholdFixed(s, p) && t.config == s.config
    requires p.snapshotLedger < s.ledger ==> PastSupply(t, p.snapshotLedger) == PastSupply(s, p.snapshotLedger)
    requires q.yes == p.yes && q.no == p.no && q.snapshotLedger == p.snapshotLedger
    ensures BelowThreshold(t, q)
  {
    hide PastSupply;
  }

  lemma SettledActiveIsBelow(s: GovState, t: GovState, q: Proposal)
    requires SettledBy(s, q) && q.status == Active
    requires t.config == s.config && t.supply == s.supply
    requires 0 <= q.yes && 0 <= q.no
    ensures BelowThreshold(t, q)
  {
    hide Threshold, ApprovalBps;
  }

  /** Votes that keep a proposal active keep it below the threshold. */
  lemma StepStaysBelow(s: GovState, op: Op, id: u32)
    requires Inv(s) && HasStatus(s, id, Active) && HasStatus(After(s, op), id, Active)
    requires After(s, op).config == s.config
    requires BelowThreshold(s, s.proposals[id]) && ThresholdFixed(s, s.proposals[id])
    ensures BelowThreshold(After(s, op), After(s, op).proposals[id])
  {
    hide Call, BelowThreshold, SettledBy;
    var t := After(s, op);
    if Call(s, op).Ok? {
      var p := s.proposals[id];
      StepHasEffect(s, op);
      EffectAdvances(s, op, t, id);
      if p.snapshotLedger < s.ledger {
        EffectKeepsLookups(s, op, t, p.proposer, p.snapshotLedger);
      }
      if op.CastVote? && op.id == id {
        VoteHasEffect(s, op);
        TalliesNonNegative(s, id);
        SettledActiveIsBelow(s, t, t.proposals[id]);
      } else {
        TouchesOnlyItsOwn(s, op, t, id);
        BelowThresholdCarries(s, t, p, t.proposals[id]);
      }
    }
  }

  lemma TouchesOnlyItsOwn(s: GovState, op: Op, t: GovState, id: u32)
    requires ProposalsOk(s) && Effect(s, op, t) && HasStatus(s, id, Active) && HasStatus(t, id, Active)
    requires !(op.CastVote? && op.id == id)
    ensures t.proposals[id] == s.proposals[id]
  {
  }

  /** While the configuration stays, a proposal created below a fixed threshold is below it
      as long as it is active, and so finalizing it can only reject it. */
  lemma {:induction false} WaitingStaysBelow(s: GovState, ops: seq<Op>, id: u32)
    requires Inv(s) && HasStatus(s, id, Active) && ConfigKept(s, ops)
    requires BelowThreshold(s, s.proposals[id]) && ThresholdFixed(s, s.proposals[id])
    ensures var t := RunFrom(s, ops);
            && (HasStatus(t, id, Active) ==>
                  BelowThreshold(t, t.proposals[id]) && ThresholdFixed(t, t.proposals[id])
                  && FinalStatus(t, t.proposals[id]) == Ok(Rejected))
    decreases |ops|
  {
    hide Call, Inv, BelowThreshold;
    if |ops| > 0 {
      var front := ops[..|ops| - 1];
      InvFrom(s, front);
      LifecycleOnlyAdvances(s, front, id);
      LifecycleOnlyAdvances(s, ops, id);
      if HasStatus(RunFrom(s, ops), id, Active) {
        ActiveBefore(RunFrom(s, front), ops[|ops| - 1], id);
        WaitingStaysBelow(s, front, id);
        StepStaysBelow(RunFrom(s, front), ops[|ops| - 1], id);
        LedgerGrows(RunFrom(s, front), ops[|ops| - 1]);
      }
    }
    if HasStatus(RunFrom(s, ops), id, Active) {
      InvFrom(s, ops);
      BelowIsRejected(RunFrom(s, ops), id);
    }
  }

  lemma BelowIsRejected(s: GovState, id: u32)
    requires Inv(s) && id in s.proposals && BelowThreshold(s, s.proposals[id])
    ensures FinalStatus(s, s.proposals[id]) == Ok(Rejected)
  {
    TalliesNonNegative(s, id);
  }

  lemma ActiveBefore(s: GovState, op: Op, id: u32)
    requires Inv(s) && id in s.proposals && HasStatus(After(s, op), id, Active)
    ensures HasStatus(s, id, Active)
  {
    hide Call;
    if Call(s, op).Ok? {
      StepHasEffect(s, op);
      EffectAdvances(s, op, After(s, op), id);
    }
  }

  lemma LedgerGrows(s: GovState, op: Op)
    requires Inv(s)
    ensures s.ledger <= After(s, op).ledger
  {
    hide Call;
    if Call(s, op).Ok? {
      StepHasEffect(s, op);
      EffectKeepsProposals(s, op, After(s, op));
    }
  }

  /** So every approval of such a proposal is the work of a vote. */
  lemma {:induction false} ApprovedOnlyByVote(s: GovState, ops: seq<Op>, id: u32) returns (k: nat)
    requires Inv(s) && HasStatus(s, id, Active) && ConfigKept(s, ops)
    requires BelowThreshold(s, s.proposals[id]) && ThresholdFixed(s, s.proposals[id])
    requires HasStatus(RunFrom(s, ops), id, Approved)
    ensures k < |ops| && ops[k].CastVote? && Approves(RunFrom(s, ops[..k]), ops[k], RunFrom(s, ops[..k + 1]), id)
    decreases |ops|
  {
    hide Call, Inv, BelowThreshold, Approves, ThresholdFixed;
    assert |ops| > 0;
    k := |ops| - 1;
    var r, op := RunFrom(s, ops[..k]), ops[k];
    assert ops[..k + 1] == ops;
    InvFrom(s, ops[..k]);
    LifecycleOnlyAdvances(s, ops[..k], id);
    if HasStatus(r, id, Approved) {
      var j := ApprovedOnlyByVote(s, ops[..k], id);
      assert ops[..k][..j] == ops[..j] && ops[..k][..j + 1] == ops[..j + 1];
      k := j;
    } else {
      StepApproves(r, op, id);
      WaitingStaysBelow(s, ops[..k], id);
      FinalizeWouldReject(r, op, id);
    }
  }

  lemma FinalizeWouldReject(s: GovState, op: Op, id: u32)
    requires Inv(s) && Approves(s, op, After(s, op), id)
    requires HasStatus(s, id, Active) ==> FinalStatus(s, s.proposals[id]) == Ok(Rejected)
    ensures op.CastVote?
  {
    hide Call, FinalStatus;
    if op.FinalizeProposal? && Call(s, op).Ok? {
      FinalizeHasEffect(s, op);
    }
  }

  /** A proposal starts below any positive threshold. */
  lemma CreatedBelow(s: GovState, op: Op)
    requires Inv(s) && op.CreateProposal? && Call(s, op).Ok?
    requires var p := After(s, op).proposals[s.nextProposalId];
             var threshold := Threshold(s.config.value, PastSupply(s, p.snapshotLedger));
             threshold.Ok? && 0 < threshold.value
    ensures HasStatus(After(s, op), s.nextProposalId, Active)
    ensures BelowThreshold(After(s, op), After(s, op).proposals[s.nextProposalId])
  {
  }

  /** From creation on: while the configuration stays and the snapshot lies before the proposal's
      start, a proposal with a positive threshold stays below it as long as it is active, so
      finalizing it can only reject it. */
  lemma NewProposalWaits(before: seq<Op>, create: Op, later: seq<Op>)
    requires create.CreateProposal? && Call(Run(before), create).Ok?
    requires var s, t := Run(before), After(Run(before), create);
             var p := t.proposals[s.nextProposalId];
             && (s.config.value.quorumBps.None? || p.snapshotLedger < p.startLedger)
             && Threshold(s.config.value, PastSupply(s, p.snapshotLedger)).Ok?
             && 0 < Threshold(s.config.value, PastSupply(s, p.snapshotLedger)).value
             && ConfigKept(t, later)
    ensures var id, u := Run(before).nextProposalId, RunFrom(After(Run(before), create), later);
            HasStatus(u, id, Active) ==> BelowThreshold(u, u.proposals[id])
                                         && FinalStatus(u, u.proposals[id]) == Ok(Rejected)
  {
    var s, t := Run(before), After(Run(before), create);
    InvAlways(before);
    InvKept(s, create);
    CreatedBelow(s, create);
    StepHasEffect(s, create);
    hide Call, Inv, BelowThreshold;
    WaitingStaysBelow(t, later, s.nextProposalId);
  }

  // ---------- approvals by finalization ----------

  /** Step `k` counts a vote on proposal `id`. */
  ghost predicate CountsVote(ops: seq<Op>, k: int, id: u32) {
    0 <= k < |ops| && ops[k].CastVote? && ops[k].id == id && Call(Run(ops[..k]), ops[k]).Ok?
  }

  /** The last vote counted on a proposal that is still active left it as it is now. */
  lemma {:induction false} LastVote(ops: seq<Op>, id: u32) returns (k: nat)
    requires HasStatus(Run(ops), id, Active) && 0 < Run(ops).proposals[id].totalVoters
    ensures CountsVote(ops, k, id) && forall j :: k < j < |ops| ==> !CountsVote(ops, j, id)
    ensures var after, now := Run(ops[..k + 1]), Run(ops);
            var snapshot := now.proposals[id].snapshotLedger;
            && id in after.proposals && after.proposals[id] == now.proposals[id]
            && after.ledger <= now.ledger
            && (snapshot < after.ledger ==> PastSupply(now, snapshot) == PastSupply(after, snapshot))
    decreases |ops|
  {
    hide Call, Inv;
    assert |ops| > 0;
    k := |ops| - 1;
    assert ops[..k + 1] == ops;
    if !CountsVote(ops, k, id) {
      var front, op := ops[..k], ops[k];
      InvAlways(front);
      NotCounted(Run(front), op, id);
      var j := LastVote(front, id);
      assert front[..j] == ops[..j] && front[..j + 1] == ops[..j + 1];
      LedgerGrows(Run(front), op);
      if Run(ops).proposals[id].snapshotLedger < Run(ops[..j + 1]).ledger {
        StepKeepsPast(Run(front), op, Address(0), Run(ops).proposals[id].snapshotLedger);
      }
      forall i | j < i < |ops|
        ensures !CountsVote(ops, i, id)
      {
        if i < |front| {
          assert front[..i] == ops[..i];
          assert !CountsVote(front, i, id);
        }
      }
      k := j;
    }
  }

  /** Any other step leaves an active proposal that has votes as it was. */
  lemma NotCounted(s: GovState, op: Op, id: u32)
    requires Inv(s) && HasStatus(After(s, op), id, Active) && 0 < After(s, op).proposals[id].totalVoters
    requires !(op.CastVote? && op.id == id && Call(s, op).Ok?)
    ensures HasStatus(s, id, Active) && After(s, op).proposals[id] == s.proposals[id]
  {
    hide Call;
    if Call(s, op).Ok? {
      StepHasEffect(s, op);
      assert id in s.proposals;
      ActiveBefore(s, op, id);
      TouchesOnlyItsOwn(s, op, After(s, op), id);
    }
  }

  /** A finalization approves only what some vote was counted on and the last one left waiting: since
      then the threshold fell to the votes, and so the configuration changed, or, with a share of the
      supply of that vote's own ledger as the threshold, that supply did. */
  lemma FinalApprovalNeedsChange(ops: seq<Op>, id: u32) returns (k: nat)
    requires Call(Run(ops), FinalizeProposal(id)).Ok?
    requires HasStatus(After(Run(ops), FinalizeProposal(id)), id, Approved)
    ensures CountsVote(ops, k, id) && forall j :: k < j < |ops| ==> !CountsVote(ops, j, id)
    ensures var after, now := Run(ops[..k + 1]), Run(ops);
            && id in after.proposals && id in now.proposals && after.proposals[id] == now.proposals[id]
            && var p := now.proposals[id];
            && BelowThreshold(after, p) && !BelowThreshold(now, p)
            && (|| now.config != after.config
                || (&& now.config.value.quorumBps.Some? && p.snapshotLedger == after.ledger
                    && PastSupply(now, p.snapshotLedger) != PastSupply(after, p.snapshotLedger)))
  {
    var now := Run(ops);
    InvAlways(ops);
    ApprovedHasVotes(now, id);
    k := LastVote(ops, id);
    VoteLeavesBelow(ops, k, id);
    var after, p := Run(ops[..k + 1]), now.proposals[id];
    if now.config == after.config
       && (now.config.value.quorumBps.None?
           || PastSupply(now, p.snapshotLedger) == PastSupply(after, p.snapshotLedger)) {
      SameThreshold(after, now, p);
    }
    hide Run, Call, Inv, BelowThreshold, PastSupply;
  }

  /** A finalization that approves finds votes that meet the threshold. */
  lemma ApprovedHasVotes(s: GovState, id: u32)
    requires Inv(s) && Call(s, FinalizeProposal(id)).Ok?
    requires HasStatus(After(s, FinalizeProposal(id)), id, Approved)
    ensures HasStatus(s, id, Active) && 0 < s.proposals[id].totalVoters && !BelowThreshold(s, s.proposals[id])
  {
    FinalizeHasEffect(s, FinalizeProposal(id));
    TalliesNonNegative(s, id);
    if s.proposals[id].totalVoters == 0 {
      NoVotersNoVotes(s, id);
    }
    hide Call, After, Threshold, ApprovalBps;
  }

  /** A counted vote that leaves its proposal active leaves it below its threshold. */
  lemma VoteLeavesBelow(ops: seq<Op>, k: nat, id: u32)
    requires CountsVote(ops, k, id) && HasStatus(Run(ops[..k + 1]), id, Active)
    ensures var after := Run(ops[..k + 1]);
            && BelowThreshold(after, after.proposals[id])
            && after.config.Some? && after.proposals[id].snapshotLedger <= after.ledger
  {
    var before, op, after := Run(ops[..k]), ops[k], Run(ops[..k + 1]);
    assert ops[..k + 1][..k] == ops[..k];
    assert after == After(before, op);
    InvAlways(ops[..k]);
    InvAlways(ops[..k + 1]);
    LedgerAfterVote(before, op);
    VoteHasEffect(before, op);
    TalliesNonNegative(after, id);
    hide Call, Run, Inv;
    SettledActiveIsBelow(before, after, after.proposals[id]);
    hide BelowThreshold, SettledBy;
  }

  lemma LedgerAfterVote(s: GovState, op: Op)
    requires Inv(s) && op.CastVote? && Call(s, op).Ok?
    ensures op.id in s.proposals && op.id in After(s, op).proposals
    ensures After(s, op).ledger == s.ledger && After(s, op).supply == s.supply && After(s, op).config == s.config
    ensures After(s, op).proposals[op.id].snapshotLedger <= s.ledger
  {
    hide Threshold, LastAt;
    VoteHasEffect(s, op);
    hide Call;
  }

  lemma SameThreshold(s: GovState, t: GovState, p: Proposal)
    requires s.config == t.config
             && (PastSupply(t, p.snapshotLedger) == PastSupply(s, p.snapshotLedger)
                 || (s.config.Some? && s.config.value.quorumBps.None?))
    ensures BelowThreshold(s, p) <==> BelowThreshold(t, p)
  {
    hide LastAt;
  }
}
