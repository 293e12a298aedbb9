/** Where proposals, balances, ballots, statuses, announcements and configurations come from: each from
    one accepted call of the run, made by whom it must be. */
module GovernanceHistory {
  import opened Common
  import opened Checkpoints
  import opened GovernanceModel
  import opened GovernanceInvariants
  import opened GovernanceQuorum
  import opened GovernanceRuns
  import opened GovernanceBounds
  import opened GovernanceDecisions

  // ---------- proposals ----------

  /** The call creates exactly this proposal in state `s`, tallies and status aside. */
  ghost predicate Creates(s: GovState, op: Op, id: u32, p: Proposal) {
    && op.CreateProposal? && !op.paused && op.registryAccepts && s.nextProposalId == id && s.config.Some?
    && p.id == id && p.talosId == op.talosId && p.proposer == op.proposer
    && p.title == op.title && p.description == op.description && p.action == op.action
    && p.createdAt == s.timestamp && p.startLedger == s.ledger && p.endLedger == s.ledger + s.config.value.votingPeriod
    && p.snapshotLedger ==
       (var offset := s.config.value.snapshotOffset.GetOr(10); if s.ledger < offset then 0 else s.ledger - offset)
  }

  lemma CreatingStep(s: GovState, op: Op, id: u32)
    requires Inv(s) && id !in s.proposals && id in After(s, op).proposals
    ensures Creates(s, op, id, After(s, op).proposals[id])
    ensures var p := After(s, op).proposals[id]; p.status == Active && p.yes == p.no == p.totalVoters == 0
  {
    hide Call, Creates;
    assert Call(s, op).Ok?;
    StepHasEffect(s, op);
    OnlyCreates(s, op, After(s, op), id);
    CreationTerms(s, op);
    hide Inv, Effect;
  }

  lemma OnlyCreates(s: GovState, op: Op, t: GovState, id: u32)
    requires ProposalsOk(s) && Effect(s, op, t) && id !in s.proposals && id in t.proposals
    ensures op.CreateProposal? && id == s.nextProposalId
  {
    hide VoteWeight, Marked, Latest, Record, HistoryOf;
  }

  lemma CreationTerms(s: GovState, op: Op)
    requires op.CreateProposal? && Call(s, op).Ok?
    ensures var id := s.nextProposalId;
            && id in After(s, op).proposals
            && var p := After(s, op).proposals[id];
            && Creates(s, op, id, p) && p.status == Active && p.yes == p.no == p.totalVoters == 0
  {
  }

  lemma TermsStand(s: GovState, op: Op, id: u32)
    requires Inv(s) && id in s.proposals
    ensures id in After(s, op).proposals
    ensures var p, q := s.proposals[id], After(s, op).proposals[id];
            q == p.(status := q.status, yes := q.yes, no := q.no, totalVoters := q.totalVoters)
  {
    hide Call;
    if Call(s, op).Ok? {
      StepHasEffect(s, op);
      EffectAdvances(s, op, After(s, op), id);
    }
  }

  /** Every proposal was created by one call of the run, and has the terms that call gave it. */
  lemma {:induction false} ProposalWasCreated(ops: seq<Op>, id: u32) returns (k: nat)
    requires id in Run(ops).proposals
    ensures k < |ops| && Creates(Run(ops[..k]), ops[k], id, Run(ops).proposals[id])
    decreases |ops|
  {
    hide Call, Inv;
    assert |ops| > 0;
    k := |ops| - 1;
    InvAlways(ops[..k]);
    if id in Run(ops[..k]).proposals {
      var j := ProposalWasCreated(ops[..k], id);
      assert ops[..k][..j] == ops[..j];
      TermsStand(Run(ops[..k]), ops[k], id);
      k := j;
    } else {
      CreatingStep(Run(ops[..k]), ops[k], id);
    }
  }

  // ---------- balances ----------

  /** The admin of this state records the checkpoint. */
  ghost predicate Records(s: GovState, op: Op, account: Address, c: Checkpoint) {
    op.UpdateVotingPower? && !op.paused && s.admin == Some(op.admin)
    && op.account == account && op.balance == c.votes && s.ledger == c.ledger
  }

  lemma RecordingStep(s: GovState, op: Op, account: Address, i: nat)
    requires Inv(s) && i < |HistoryOf(After(s, op), account)|
    ensures var h, g := HistoryOf(s, account), HistoryOf(After(s, op), account);
            (i < |h| && g[i] == h[i]) || (Records(s, op, account, g[i]) && Call(s, op).Ok?)
  {
    hide LastAt, Inv;
    if Call(s, op).Ok? {
      if op.UpdateVotingPower? {
        PowerAcceptedIff(s, op.paused, op.admin, op.account, op.balance);
      } else {
        assert Inv(s);
        PowerStands(s, op);
      }
    }
  }

  lemma PowerStands(s: GovState, op: Op)
    requires Inv(s) && !op.UpdateVotingPower?
    ensures After(s, op).histories == s.histories
  {
    hide Call;
    if Call(s, op).Ok? {
      StepHasEffect(s, op);
    }
  }

  /** Every checkpoint of every account was recorded at its ledger by a call that the admin of that
      moment signed. */
  lemma {:induction false} CheckpointWasRecorded(ops: seq<Op>, account: Address, i: nat) returns (k: nat)
    requires i < |HistoryOf(Run(ops), account)|
    ensures k < |ops| && Records(Run(ops[..k]), ops[k], account, HistoryOf(Run(ops), account)[i])
    decreases |ops|
  {
    hide Call, Inv, Records;
    assert |ops| > 0;
    k := |ops| - 1;
    InvAlways(ops[..k]);
    RecordingStep(Run(ops[..k]), ops[k], account, i);
    if i < |HistoryOf(Run(ops[..k]), account)|
       && HistoryOf(Run(ops), account)[i] == HistoryOf(Run(ops[..k]), account)[i] {
      var j := CheckpointWasRecorded(ops[..k], account, i);
      assert ops[..k][..j] == ops[..j];
      k := j;
    }
  }

  // ---------- ballots ----------

  /** The voter's own call puts this ballot, at its weight and time, on an open proposal. */
  ghost predicate Casts(s: GovState, op: Op, key: (u32, Address), v: Vote) {
    && op.CastVote? && !op.paused && op.id == key.0 && op.voter == key.1
    && HasStatus(s, key.0, Active) && s.ledger <= s.proposals[key.0].endLedger && key !in s.votes
    && v == Vote(key.1, op.choice, VoteWeight(s, key.1, s.proposals[key.0].snapshotLedger), s.timestamp)
  }

  lemma CastingStep(s: GovState, op: Op, key: (u32, Address))
    requires Inv(s) && key in After(s, op).votes
    ensures key in s.votes ==> After(s, op).votes[key] == s.votes[key]
    ensures key !in s.votes ==> Casts(s, op, key, After(s, op).votes[key])
  {
    hide Call, VoteWeight, Marked;
    if Call(s, op).Ok? {
      StepHasEffect(s, op);
      if op.CastVote? {
        VoteMeaning(s, op.paused, op.voter, op.id, op.choice);
      }
    }
    hide Inv;
  }

  /** Every ballot is the voter's own call, weighed and timed as it was cast. */
  lemma {:induction false} BallotWasCast(ops: seq<Op>, key: (u32, Address)) returns (k: nat)
    requires key in Run(ops).votes
    ensures k < |ops| && Casts(Run(ops[..k]), ops[k], key, Run(ops).votes[key])
    decreases |ops|
  {
    hide Call, Inv, Casts;
    assert |ops| > 0;
    k := |ops| - 1;
    InvAlways(ops[..k]);
    CastingStep(Run(ops[..k]), ops[k], key);
    if key in Run(ops[..k]).votes {
      var j := BallotWasCast(ops[..k], key);
      assert ops[..k][..j] == ops[..j];
      k := j;
    }
  }

  // ---------- statuses ----------

  /** Who may take a proposal out of the active status in state `s`. */
  ghost predicate Closes(s: GovState, op: Op, id: u32) {
    && HasStatus(s, id, Active)
    && match op
       case CastVote(paused, _, i, _) => i == id && !paused && s.ledger <= s.proposals[id].endLedger
       case CancelProposal(proposer, i) =>
         i == id && proposer == s.proposals[id].proposer && Ballots(s.votes, id) == {}
       case FinalizeProposal(i) => i == id && s.proposals[id].endLedger < s.ledger
       case _ => false
  }

  lemma ClosingStep(s: GovState, op: Op, id: u32)
    requires Inv(s) && HasStatus(s, id, Active) && !HasStatus(After(s, op), id, Active)
    ensures Closes(s, op, id)
    ensures HasStatus(After(s, op), id, Cancelled) ==> op.CancelProposal?
  {
    hide Call, Ballots;
    assert Call(s, op).Ok?;
    StepHasEffect(s, op);
    match op {
      case CastVote(paused, voter, i, choice) =>
        VoteMeaning(s, paused, voter, i, choice);
      case CancelProposal(proposer, i) =>
        CancelAcceptedIff(s, proposer, i);
      case FinalizeProposal(i) =>
        FinalizeMeaning(s, i);
      case _ =>
    }
    ClosingEffect(s, op, After(s, op), id);
    hide Inv, Effect, Decidable, VoteWeight;
  }

  lemma ClosingEffect(s: GovState, op: Op, t: GovState, id: u32)
    requires ProposalsOk(s) && Effect(s, op, t) && HasStatus(s, id, Active) && !HasStatus(t, id, Active)
    ensures match op
            case CastVote(_, _, i, _) => i == id
            case CancelProposal(_, i) => i == id
            case FinalizeProposal(i) => i == id
            case _ => false
    ensures op.CastVote? ==> !HasStatus(t, id, Cancelled)
  {
    hide VoteWeight, Latest, Record, HistoryOf, Announces;
  }

  /** A proposal leaves the active status by a vote on it while it is open, by its proposer before any
      vote, or by a finalization after its last ledger: before that, by nothing else. */
  lemma {:induction false} WasClosed(ops: seq<Op>, id: u32) returns (k: nat)
    requires id in Run(ops).proposals && Run(ops).proposals[id].status != Active
    ensures k < |ops| && Closes(Run(ops[..k]), ops[k], id)
    ensures Run(ops).ledger <= Run(ops).proposals[id].endLedger ==> ops[k].CastVote? || ops[k].CancelProposal?
    decreases |ops|
  {
    hide Call, Inv, Closes;
    assert |ops| > 0;
    k := |ops| - 1;
    var s, op := Run(ops[..k]), ops[k];
    InvAlways(ops[..k]);
    LedgerGrows(s, op);
    if id in s.proposals {
      TermsStand(s, op, id);
    }
    if id !in s.proposals {
      CreatingStep(s, op, id);
    } else if s.proposals[id].status == Active {
      ClosingStep(s, op, id);
      ClosedBefore(s, op, id);
    } else {
      var j := WasClosed(ops[..k], id);
      assert ops[..k][..j] == ops[..j];
      k := j;
    }
  }

  lemma ClosedBefore(s: GovState, op: Op, id: u32)
    requires Closes(s, op, id)
    ensures HasStatus(s, id, Active) && (op.CastVote? || op.CancelProposal? || op.FinalizeProposal?)
    ensures s.ledger <= s.proposals[id].endLedger ==> op.CastVote? || op.CancelProposal?
  {
  }

  // ---------- announcements ----------

  /** The event tells the votes its proposal was settled with and their yes share rounded down. */
  ghost predicate TellsTally(p: Proposal, e: QuorumEvent) {
    && e.votesCast == p.yes + p.no && e.threshold <= e.votesCast
    && (0 < e.votesCast ==> 0 <= e.approvalBps <= BPS
                            && e.approvalBps * e.votesCast <= p.yes * 10_000 < (e.approvalBps + 1) * e.votesCast)
  }

  /** The vote that settles the proposal announces it against the threshold of that moment. */
  ghost predicate AnnouncedBy(s: GovState, op: Op, e: QuorumEvent) {
    && op.CastVote? && op.id == e.proposalId && op.id in s.proposals && s.config.Some?
    && Threshold(s.config.value, PastSupply(s, s.proposals[op.id].snapshotLedger)) == Ok(e.threshold)
  }

  lemma AnnouncingStep(s: GovState, op: Op)
    requires Inv(s)
    ensures var t := After(s, op);
            t.quorumEvents == s.quorumEvents
            || (|t.quorumEvents| == |s.quorumEvents| + 1 && t.quorumEvents[..|s.quorumEvents|] == s.quorumEvents
                && var e := t.quorumEvents[|s.quorumEvents|];
                && AnnouncedBy(s, op, e) && e.proposalId in t.proposals && t.proposals[e.proposalId].status != Active
                && TellsTally(t.proposals[e.proposalId], e))
  {
    hide Call, VoteWeight, Threshold, PastSupply, ApprovalBps, Decide;
    if Call(s, op).Ok? {
      StepHasEffect(s, op);
      if op.CastVote? {
        VoteHasEffect(s, op);
        SentinelClear(s, op.id);
        InvKept(s, op);
        TalliesNonNegative(After(s, op), op.id);
        var t := After(s, op);
        var q := t.proposals[op.id];
        hide After, Inv, SettledBy;
        if q.status != Active {
          var e :| Announces(s, q, e) && t.quorumEvents == s.quorumEvents + [e];
          AnnouncedTells(s, q, e);
          hide Announces, TellsTally;
        }
      }
    }
    hide Inv, TellsTally;
  }

  lemma AnnouncedTells(s: GovState, q: Proposal, e: QuorumEvent)
    requires Announces(s, q, e) && 0 <= q.yes && 0 <= q.no && SettledBy(s, q) && q.status != Active
    ensures TellsTally(q, e) && e.proposalId == q.id
    ensures s.config.Some? && Threshold(s.config.value, PastSupply(s, q.snapshotLedger)) == Ok(e.threshold)
  {
    hide Threshold, PastSupply, TruncDiv, Decide;
    ShareBounds(q.yes, e.votesCast);
  }

  /** Every announcement was made by the vote that settled its proposal, against the threshold of that
      moment, and tells the votes the proposal still has. */
  lemma {:induction false} AnnouncementWasMade(ops: seq<Op>, i: nat) returns (k: nat)
    requires i < |Run(ops).quorumEvents|
    ensures var e := Run(ops).quorumEvents[i];
            && k < |ops| && AnnouncedBy(Run(ops[..k]), ops[k], e)
            && e.proposalId in Run(ops).proposals && Run(ops).proposals[e.proposalId].status != Active
            && TellsTally(Run(ops).proposals[e.proposalId], e)
    decreases |ops|
  {
    hide Call, Inv, AnnouncedBy;
    assert |ops| > 0;
    k := |ops| - 1;
    var s, op := Run(ops[..k]), ops[k];
    InvAlways(ops[..k]);
    AnnouncingStep(s, op);
    if i < |s.quorumEvents| {
      var j := AnnouncementWasMade(ops[..k], i);
      assert ops[..k][..j] == ops[..j];
      var id := s.quorumEvents[i].proposalId;
      StepFreezes(s, op, id);
      StaysSettled(s, op, id);
      k := j;
    }
    hide After;
  }

  lemma StaysSettled(s: GovState, op: Op, id: u32)
    requires Inv(s) && id in s.proposals && s.proposals[id].status != Active
    ensures !HasStatus(After(s, op), id, Active)
  {
    if HasStatus(After(s, op), id, Active) {
      ActiveBefore(s, op, id);
    }
  }

  // ---------- configurations ----------

  /** The call sets exactly this configuration in state `s`. */
  ghost predicate Configures(s: GovState, op: Op, config: GovernanceConfig) {
    match op
    case Initialize(_, token, quorum, consensus, period) =>
      s.admin.None? && config == GovernanceConfig(quorum, consensus, period, token, None, None)
    case UpdateConfig(paused, admin, c) => !paused && s.admin == Some(admin) && config == c
    case ExecuteProposal(id, _) =>
      && HasStatus(s, id, Approved) && s.config.Some?
      && s.proposals[id].action.Some? && s.proposals[id].action.value.ReplaceConfig?
      && config == Replaced(s.config.value, s.proposals[id].action.value)
    case _ => false
  }

  lemma ConfiguringStep(s: GovState, op: Op)
    requires Inv(s)
    ensures After(s, op).config == s.config
            || (After(s, op).config.Some? && Configures(s, op, After(s, op).config.value))
  {
    match op {
      case Initialize(admin, token, quorum, consensus, period) =>
        InitializeAcceptedIff(s, admin, token, quorum, consensus, period);
      case ExecuteProposal(id, callSucceeds) =>
        ExecuteMeaning(s, id, callSucceeds);
      case UpdateConfig(_, _, _) =>
        hide Inv;
      case _ =>
        ConfigStands(s, op);
    }
    hide Inv, CanRun;
  }

  lemma ConfigStands(s: GovState, op: Op)
    requires Inv(s) && !op.Initialize? && !op.ExecuteProposal? && !op.UpdateConfig?
    ensures After(s, op).config == s.config
  {
    hide Inv, Threshold, PastSupply, VoteWeight, ApprovalBps, Record, Latest, LastAt;
    if op.CastVote? && Call(s, op).Ok? {
      VoteHasEffect(s, op);
      hide Call;
    }
  }

  /** The configuration is the one set last: by the first initialization, by the admin of that moment, or
      by executing an approved proposal that replaces three of its numbers. */
  lemma {:induction false} ConfigurationWasSet(ops: seq<Op>) returns (k: nat)
    requires Run(ops).config.Some?
    ensures k < |ops| && Configures(Run(ops[..k]), ops[k], Run(ops).config.value)
    ensures Run(ops[..k + 1]).config == Run(ops).config
    decreases |ops|
  {
    hide Call, Inv, Configures;
    assert |ops| > 0;
    k := |ops| - 1;
    assert ops[..k + 1] == ops;
    InvAlways(ops[..k]);
    ConfiguringStep(Run(ops[..k]), ops[k]);
    if Run(ops).config == Run(ops[..k]).config {
      var j := ConfigurationWasSet(ops[..k]);
      assert ops[..k][..j] == ops[..j] && ops[..k][..j + 1] == ops[..j + 1];
      k := j;
    }
  }
}
