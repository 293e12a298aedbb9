/** The governance contract over its storage keys. Every entry point is proved to do what
    `GovernanceModel` says, so what holds of every run there holds of this object. */
module Governance {
  import opened Common
  import opened Checkpoints
  import opened GovernanceModel
  import opened GovernanceInvariants
  import opened GovernanceQuorum
  import opened GovernanceRuns
  import opened GovernanceDecisions

  /** The checkpoints stored for `account` under the indices below `count`. */
  function HistoryFrom(checkpoint: map<(Address, u32), Checkpoint>, account: Address, count: u32): History {
    seq(count, i requires 0 <= i < count =>
      if (account, i) in checkpoint then checkpoint[(account, i)] else Checkpoint(0, 0))
  }

  function HistoriesFrom(checkpoint: map<(Address, u32), Checkpoint>, counts: map<Address, u32>)
    : map<Address, History>
  {
    map a | a in counts :: HistoryFrom(checkpoint, a, counts[a])
  }

  function SupplyFrom(checkpoint: map<u32, Checkpoint>, count: u32): History {
    seq(count, i requires 0 <= i < count => if i in checkpoint then checkpoint[i] else Checkpoint(0, 0))
  }

  predicate Dense(checkpoint: map<(Address, u32), Checkpoint>, counts: map<Address, u32>) {
    forall a, i: u32 :: a in counts && i < counts[a] ==> (a, i) in checkpoint
  }

  /** Rewriting an account's last checkpoint changes the end of its history and no other history. */
  lemma StoreLast(checkpoint: map<(Address, u32), Checkpoint>, counts: map<Address, u32>, account: Address,
                  ck: Checkpoint)
    requires Dense(checkpoint, counts) && account in counts && 0 < counts[account]
    ensures var count := counts[account];
            HistoriesFrom(checkpoint[(account, count - 1) := ck], counts) ==
            HistoriesFrom(checkpoint, counts)[account := HistoryFrom(checkpoint, account, count)[count - 1 := ck]]
  {
    var count := counts[account];
    var after := checkpoint[(account, count - 1) := ck];
    forall a | a in counts && a != account
      ensures HistoryFrom(after, a, counts[a]) == HistoryFrom(checkpoint, a, counts[a])
    {
    }
    assert HistoryFrom(after, account, count) == HistoryFrom(checkpoint, account, count)[count - 1 := ck];
  }

  /** Writing under the next index extends the account's history and no other history. */
  lemma StoreNext(checkpoint: map<(Address, u32), Checkpoint>, counts: map<Address, u32>, account: Address,
                  count: u32, ck: Checkpoint)
    requires Dense(checkpoint, counts) && count == (if account in counts then counts[account] else 0)
    requires count < U32_MAX
    ensures HistoriesFrom(checkpoint[(account, count) := ck], counts[account := count + 1]) ==
            HistoriesFrom(checkpoint, counts)[account := HistoryFrom(checkpoint, account, count) + [ck]]
  {
    var after := checkpoint[(account, count) := ck];
    forall a | a in counts && a != account
      ensures HistoryFrom(after, a, counts[a]) == HistoryFrom(checkpoint, a, counts[a])
    {
    }
    assert HistoryFrom(after, account, count + 1) == HistoryFrom(checkpoint, account, count) + [ck];
  }

  lemma CountKeepsTally(votes: map<(u32, Address), Vote>, p: Proposal, choice: VoteChoice, weight: i128)
    ensures Counted(p, choice, weight).Ok? && TallyOk(votes, p.id, p) ==>
              forall voter, at :: (p.id, voter) !in votes ==>
                TallyOk(votes[(p.id, voter) := Vote(voter, choice, weight, at)], p.id, Counted(p, choice, weight).value)
  {
    hide TallyOk;
    if Counted(p, choice, weight).Ok? && TallyOk(votes, p.id, p) {
      forall voter, at | (p.id, voter) !in votes
        ensures TallyOk(votes[(p.id, voter) := Vote(voter, choice, weight, at)], p.id, Counted(p, choice, weight).value)
      {
        TallyGains(votes, (p.id, voter), Vote(voter, choice, weight, at), p, Counted(p, choice, weight).value);
      }
    }
  }

  /** An event for a proposal whose sentinel was clear, and none otherwise, keeps one event per sentinel. */
  lemma AnnounceKeepsOnce(reached: set<u32>, events: seq<QuorumEvent>, id: u32, after: seq<QuorumEvent>)
    requires if id in reached then after == events
             else |after| == |events| + 1 && after[..|events|] == events && after[|events|].proposalId == id
    ensures AnnouncedOnce(reached, events) ==>
              AnnouncedOnce(reached + {id}, after) && multiset(Announced(after))[id] == 1
  {
    if AnnouncedOnce(reached, events) {
      if id in reached {
        assert reached + {id} == reached;
      } else {
        assert Announced(after) == Announced(events) + [id];
      }
      assert AnnouncedOnce(reached + {id}, after);
      DistinctCountsOnce(Announced(after), id);
    }
  }

  lemma HistoriesAlways(ops: seq<Op>)
    ensures HistoriesOk(Run(ops))
  {
    InvAlways(ops);
  }

  class TalosGovernance {
    var ledger: u32
    var timestamp: u64
    var admin: Option<Address>
    var pendingAdmin: Option<Address>
    var config: Option<GovernanceConfig>
    var nextProposalId: u32
    var proposals: map<u32, Proposal>
    var votes: map<(u32, Address), Vote>
    var tokenBalanceSnapshot: map<(u32, Address), i128>
    var checkpoint: map<(Address, u32), Checkpoint>
    var checkpointCount: map<Address, u32>
    var supplyCheckpoint: map<u32, Checkpoint>
    var supplyCount: u32
    var delegation: map<Address, Address>
    var quorumReached: set<u32>
    var quorumEvents: seq<QuorumEvent>
    ghost var trace: seq<Op>

    /** The stored checkpoints as whole histories. */
    ghost function View(): GovState
      reads this
    {
      GovState(ledger, timestamp, admin, pendingAdmin, config, nextProposalId, proposals, votes, tokenBalanceSnapshot,
               HistoriesFrom(checkpoint, checkpointCount), SupplyFrom(supplyCheckpoint, supplyCount),
               delegation, quorumReached, quorumEvents)
    }

    /** Checkpoint indices are dense and their ledgers strictly increase up to now. */
    ghost predicate Stored()
      reads this
    {
      && Dense(checkpoint, checkpointCount)
      && (forall i: u32 :: i < supplyCount ==> i in supplyCheckpoint)
      && AllRecordedBy(HistoriesFrom(checkpoint, checkpointCount), SupplyFrom(supplyCheckpoint, supplyCount), ledger)
    }

    /** The object is where its calls so far have taken a fresh deployment. */
    ghost predicate Valid()
      reads this
    {
      Stored() && View() == Run(trace)
    }

    constructor ()
      ensures Valid() && trace == []
    {
      ledger, timestamp := 0, 0;
      admin, pendingAdmin, config, nextProposalId := None, None, None, 1;
      proposals, votes, tokenBalanceSnapshot := map[], map[], map[];
      checkpoint, checkpointCount := map[], map[];
      supplyCheckpoint, supplyCount := map[], 0;
      delegation, quorumReached, quorumEvents := map[], {}, [];
      trace := [];
      new;
      assert View() == DEPLOYED;
    }

    /** Adds a call to the trace; what it must lead to is then fixed. */
    ghost method Take(op: Op)
      requires Valid()
      modifies this`trace
      ensures trace == old(trace) + [op]
      ensures Run(trace) == After(View(), op) && HistoriesOk(After(View(), op))
    {
      trace := trace + [op];
      assert View() == Run(old(trace));
      RunSnoc(old(trace), op);
      HistoriesAlways(trace);
      hide *;
    }

    // ---------- reads ----------

    method GetPastVotes(account: Address, q: u32) returns (votesThen: i128)
      requires Stored()
      ensures votesThen == PastVotes(View(), account, q)
    {
      ghost var h := HistoryOf(View(), account);
      var count := if account in checkpointCount then checkpointCount[account] else 0;
      var cached := if (q, account) in tokenBalanceSnapshot then tokenBalanceSnapshot[(q, account)] else 0;
      if count == 0 {
        return cached;
      }
      assert RecordedBy(h, ledger) && |h| == count;
      assert forall i: u32 :: i < count ==> h[i] == checkpoint[(account, i)];
      var latest := checkpoint[(account, count - 1)];
      if latest.ledger <= q {
        return latest.votes;
      }
      var earliest := checkpoint[(account, 0)];
      if earliest.ledger > q {
        LastAtNone(h, q);
        return cached;
      }
      var low: u32, high: u32 := 0, count - 1;
      while low < high
        invariant 0 <= low <= high < count
        invariant h[low].ledger <= q
        invariant forall j :: high < j < count ==> q < h[j].ledger
      {
        var mid: u32 := high - (high - low) / 2;
        var ck := checkpoint[(account, mid)];
        if ck.ledger == q {
          LastAtSplit(h, q, mid);
          return ck.votes;
        } else if ck.ledger < q {
          low := mid;
        } else {
          high := mid - 1;
        }
      }
      LastAtSplit(h, q, low);
      return checkpoint[(account, low)].votes;
    }

    method GetPastTotalSupply(q: u32) returns (supplyThen: i128)
      requires Stored()
      ensures supplyThen == PastSupply(View(), q)
    {
      ghost var h := View().supply;
      if supplyCount == 0 {
        return 0;
      }
      assert RecordedBy(h, ledger) && |h| == supplyCount;
      assert forall i: u32 :: i < supplyCount ==> h[i] == supplyCheckpoint[i];
      var latest := supplyCheckpoint[supplyCount - 1];
      if latest.ledger <= q {
        return latest.votes;
      }
      var earliest := supplyCheckpoint[0];
      if earliest.ledger > q {
        LastAtNone(h, q);
        return 0;
      }
      var low: u32, high: u32 := 0, supplyCount - 1;
      while low < high
        invariant 0 <= low <= high < supplyCount
        invariant h[low].ledger <= q
        invariant forall j :: high < j < supplyCount ==> q < h[j].ledger
      {
        var mid: u32 := high - (high - low) / 2;
        var ck := supplyCheckpoint[mid];
        if ck.ledger == q {
          LastAtSplit(h, q, mid);
          return ck.votes;
        } else if ck.ledger < q {
          low := mid;
        } else {
          high := mid - 1;
        }
      }
      LastAtSplit(h, q, low);
      return supplyCheckpoint[low].votes;
    }

    method GetVoteWeight(snapshotLedger: u32, voter: Address) returns (weight: i128)
      requires Stored()
      ensures weight == VoteWeight(View(), voter, snapshotLedger)
    {
      var delegatee := if voter in delegation then delegation[voter] else voter;
      weight := GetPastVotes(delegatee, snapshotLedger);
    }

    method ComputeQuorumThreshold(config: GovernanceConfig, snapshotLedger: u32) returns (r: Outcome<i128>)
      requires Stored()
      ensures r == Threshold(config, PastSupply(View(), snapshotLedger))
    {
      if config.quorumBps.None? {
        return Ok(config.quorumThreshold);
      }
      var supplyThen := GetPastTotalSupply(snapshotLedger);
      if supplyThen <= 0 {
        return Ok(0);
      }
      var scaled :- CheckedI128(supplyThen * config.quorumBps.value + 9_999, Overflow);
      return Ok(scaled / 10_000);
    }

    method GetProposalQuorumState(id: u32) returns (r: Outcome<Option<QuorumState>>)
      requires Stored()
      ensures r == ProposalQuorumState(View(), id)
    {
      hide Threshold, PastSupply;
      if id !in proposals {
        return Ok(None);
      }
      var p := proposals[id];
      if config.None? {
        return Err(NotInitialized);
      }
      var votesCast :- CheckedI128(p.yes + p.no, Overflow);
      var threshold :- ComputeQuorumThreshold(config.value, p.snapshotLedger);
      var approval := 0;
      if votesCast > 0 {
        var scaled :- CheckedI128(p.yes * 10_000, Overflow);
        approval := TruncDiv(scaled, votesCast);
      }
      var fraction := 10_000;
      if threshold > 0 {
        var scaled :- CheckedI128(votesCast as int * 10_000, Overflow);
        var raw := TruncDiv(scaled, threshold);
        fraction := if raw > 10_000 then 10_000 else raw;
      }
      return Ok(Some(QuorumState(votesCast, threshold, votesCast >= threshold, p.yes, p.no, approval,
                                 config.value.consensusThreshold, fraction)));
    }

    method FinalizeStatus(p: Proposal) returns (r: Outcome<ProposalStatus>)
      requires Stored()
      ensures r == FinalStatus(View(), p)
    {
      hide Threshold, PastSupply;
      if config.None? {
        return Err(NotInitialized);
      }
      var totalVotes :- CheckedI128(p.yes + p.no, Overflow);
      var threshold :- ComputeQuorumThreshold(config.value, p.snapshotLedger);
      if totalVotes < threshold {
        return Ok(Rejected);
      }
      var scaled :- CheckedI128(p.yes * 10_000, Overflow);
      if totalVotes == 0 {
        return Err(DivideByZero);
      }
      var approvalBps := TruncDiv(scaled, totalVotes);
      return Ok(if approvalBps >= config.value.consensusThreshold then Approved else Rejected);
    }

    /** Sets the sentinel and sends the event unless the sentinel is already set. */
    method EmitQuorumReached(p: Proposal, totalVotes: i128, threshold: i128) returns (r: Outcome<()>)
      modifies this`quorumReached, this`quorumEvents
      ensures r == ToUnit(MarkQuorum(old(View()), p, totalVotes, threshold))
      ensures r.Ok? ==> View() == MarkQuorum(old(View()), p, totalVotes, threshold).value
      ensures r.Err? ==> View() == old(View())
      ensures r.Ok? ==> p.id in quorumReached && old(quorumEvents) <= quorumEvents
      ensures r.Ok? && AnnouncedOnce(old(quorumReached), old(quorumEvents)) ==>
                && AnnouncedOnce(quorumReached, quorumEvents)
                && multiset(Announced(quorumEvents))[p.id] == 1
      ensures r.Ok? && p.id !in old(quorumReached) && 0 <= p.yes <= totalVotes && 0 < totalVotes ==>
                var bps := quorumEvents[|quorumEvents| - 1].approvalBps;
                0 <= bps <= BPS && bps * totalVotes <= p.yes * 10_000 < (bps + 1) * totalVotes
    {
      ShareBounds(p.yes, totalVotes);
      if p.id !in quorumReached {
        var approvalBps := 0;
        if totalVotes > 0 {
          var scaled :- CheckedI128(p.yes * 10_000, Overflow);
          approvalBps := TruncDiv(scaled, totalVotes);
        }
        quorumReached := quorumReached + {p.id};
        quorumEvents := quorumEvents + [QuorumEvent(p.id, totalVotes, threshold, approvalBps)];
      }
      AnnounceKeepsOnce(old(quorumReached), old(quorumEvents), p.id, quorumEvents);
      return Ok(());
    }

    /** Settles a counted proposal: `r` is the proposal to store. A trap leaves marks behind
        that the caller's rollback removes. */
    method UpdateStatusIfQuorum(id: u32, p: Proposal) returns (r: Outcome<Proposal>)
      requires Stored()
      modifies this`quorumReached, this`quorumEvents
      ensures Stored()
      ensures var settled := SettleSpec(old(View()), id, p);
              if r.Ok? then settled == Ok(View().(proposals := proposals[id := r.value]))
              else settled == Err(r.error)
    {
      hide Threshold, ValueAt, AllRecordedBy, Decide, MarkQuorum;
      ghost var s := View();
      if config.None? {
        return Err(NotInitialized);
      }
      var totalVotes :- CheckedI128(p.yes + p.no, Overflow);
      var threshold :- ComputeQuorumThreshold(config.value, p.snapshotLedger);
      if totalVotes < threshold {
        return Ok(p);
      }
      var _ :- EmitQuorumReached(p, totalVotes, threshold);
      assert FinalStatus(View(), p) == Decide(config.value, threshold, p.yes, totalVotes);
      hide FinalStatus;
      var status :- FinalizeStatus(p);
      return Ok(p.(status := status));
    }

    // ---------- entry points ----------

    method AdvanceLedger(ledgers: nat, seconds: nat) returns (r: Outcome<()>)
      requires Valid()
      modifies this
      ensures Valid() && trace == old(trace) + [Tick(ledgers, seconds)]
      ensures View() == After(old(View()), Tick(ledgers, seconds))
      ensures r == ToUnit(Call(old(View()), Tick(ledgers, seconds)))
    {
      hide Run, AllRecordedBy;
      Take(Tick(ledgers, seconds));
      if ledger + ledgers > U32_MAX || timestamp + seconds > U64_MAX {
        return Err(Overflow);
      }
      ledger, timestamp := ledger + ledgers, timestamp + seconds;
      return Ok(());
    }

    method Initialize(admin: Address, token: Address, quorum: i128, consensus: i128, period: u32)
      returns (r: Outcome<()>)
      requires Valid()
      modifies this
      ensures Valid() && trace == old(trace) + [Op.Initialize(admin, token, quorum, consensus, period)]
      ensures View() == After(old(View()), Op.Initialize(admin, token, quorum, consensus, period))
      ensures r == ToUnit(Call(old(View()), Op.Initialize(admin, token, quorum, consensus, period)))
    {
      hide Run, AllRecordedBy;
      Take(Op.Initialize(admin, token, quorum, consensus, period));
      if this.admin.Some? {
        return Err(AlreadyInitialized);
      }
      if quorum <= 0 {
        return Err(QuorumNotPositive);
      }
      if consensus <= 0 || consensus > 10_000 {
        return Err(ConsensusOutOfRange);
      }
      if period == 0 {
        return Err(PeriodNotPositive);
      }
      this.admin := Some(admin);
      config := Some(GovernanceConfig(quorum, consensus, period, token, None, None));
      nextProposalId := 1;
      return Ok(());
    }

    method CreateProposal(paused: bool, proposer: Address, talosId: u32, title: string, description: string,
                          registryAccepts: bool, action: Option<ProposalAction>)
      returns (r: Outcome<u32>)
      requires Valid()
      modifies this
      ensures var op := Op.CreateProposal(paused, proposer, talosId, title, description, registryAccepts, action);
              && Valid() && trace == old(trace) + [op]
              && View() == After(old(View()), op)
              && match Call(old(View()), op)
                 case Ok(_) => r == Ok(old(nextProposalId))
                 case Err(e) => r == Err(e)
    {
      hide Run, AllRecordedBy;
      Take(Op.CreateProposal(paused, proposer, talosId, title, description, registryAccepts, action));
      if paused {
        return Err(DomainPaused);
      }
      if |title| == 0 {
        return Err(TitleEmpty);
      }
      if |title| > MAX_TITLE_LEN {
        return Err(TitleTooLong);
      }
      if |description| == 0 {
        return Err(DescriptionEmpty);
      }
      if |description| > MAX_DESCRIPTION_LEN {
        return Err(DescriptionTooLong);
      }
      if !registryAccepts {
        return Err(TalosInactive);
      }
      if config.None? {
        return Err(NotInitialized);
      }
      var offset := config.value.snapshotOffset.GetOr(DEFAULT_SNAPSHOT_OFFSET_LEDGERS);
      var snapshot := SaturatingSubU32(ledger, offset);
      var id := nextProposalId;
      if ledger + config.value.votingPeriod > U32_MAX || id == U32_MAX {
        return Err(Overflow);
      }
      var p := Proposal(id, talosId, proposer, title, description, snapshot, ledger,
                        ledger + config.value.votingPeriod, Active, 0, 0, 0, timestamp, action);
      proposals := proposals[id := p];
      nextProposalId := id + 1;
      return Ok(id);
    }

    method CancelProposal(proposer: Address, id: u32) returns (r: Outcome<()>)
      requires Valid()
      modifies this
      ensures Valid() && trace == old(trace) + [Op.CancelProposal(proposer, id)]
      ensures View() == After(old(View()), Op.CancelProposal(proposer, id))
      ensures r == ToUnit(Call(old(View()), Op.CancelProposal(proposer, id)))
      ensures r.Ok? ==> && id in old(proposals) && Ballots(votes, id) == {}
                        && var cancelled := old(proposals)[id].(status := Cancelled);
                        && View() == old(View()).(proposals := old(proposals)[id := cancelled])
                        && forall later :: HasStatus(RunFrom(View(), later), id, Cancelled)
      ensures r.Err? ==> View() == old(View())
    {
      hide Run, AllRecordedBy;
      Take(Op.CancelProposal(proposer, id));
      if id !in proposals {
        return Err(ProposalNotFound);
      }
      var p := proposals[id];
      if p.proposer != proposer {
        return Err(NotProposer);
      }
      if p.status != Active {
        return Err(NotActive);
      }
      if p.totalVoters > 0 {
        return Err(HasVotes);
      }
      proposals := proposals[id := p.(status := Cancelled)];
      StaysCancelled(trace, id);
      return Ok(());
    }

    /** Adds a vote to a proposal whose tally adds its votes up; the tally returned adds them up with
        the new vote, however the voter and the time. */
    method CountVote(p: Proposal, choice: VoteChoice, weight: i128) returns (r: Outcome<Proposal>)
      ensures r == Counted(p, choice, weight)
      ensures r.Err? <==> p.totalVoters == U32_MAX || !InI128((if choice == Approve then p.yes else p.no) + weight)
      ensures r.Ok? ==> r.value.yes + r.value.no == p.yes + p.no + weight && r.value.status == p.status
      ensures r.Ok? && TallyOk(votes, p.id, p) ==>
                forall voter, at :: (p.id, voter) !in votes ==>
                  TallyOk(votes[(p.id, voter) := GovernanceModel.Vote(voter, choice, weight, at)], p.id, r.value)
    {
      CountKeepsTally(votes, p, choice, weight);
      var counted := p;
      match choice {
        case Approve =>
          var yes :- CheckedI128(p.yes + weight, Overflow);
          counted := counted.(yes := yes);
        case Reject =>
          var no :- CheckedI128(p.no + weight, Overflow);
          counted := counted.(no := no);
      }
      if counted.totalVoters == U32_MAX {
        return Err(Overflow);
      }
      return Ok(counted.(totalVoters := counted.totalVoters + 1));
    }

    method CheckBallot(voter: Address, id: u32) returns (r: Outcome<(Proposal, i128)>)
      requires Stored()
      ensures r == Ballot(View(), voter, id)
    {
      hide VoteWeight, AllRecordedBy;
      if id !in proposals {
        return Err(ProposalNotFound);
      }
      var p := proposals[id];
      if p.status != Active {
        return Err(NotActive);
      }
      if ledger > p.endLedger {
        return Err(VotingEnded);
      }
      if (id, voter) in votes {
        return Err(AlreadyVoted);
      }
      var weight := GetVoteWeight(p.snapshotLedger, voter);
      if weight <= 0 {
        return Err(NoVotingPower);
      }
      return Ok((p, weight));
    }

    /** Settles a counted proposal and stores it; a trap takes its marks back. */
    method StoreSettled(id: u32, p: Proposal) returns (r: Outcome<()>)
      requires Stored()
      modifies this`proposals, this`quorumReached, this`quorumEvents
      ensures match SettleSpec(old(View()), id, p)
              case Ok(t) => r == Ok(()) && View() == t
              case Err(e) => r == Err(e) && View() == old(View())
    {
      hide AllRecordedBy, SettleSpec, HistoriesFrom, SupplyFrom, Dense;
      var reachedBefore, eventsBefore := quorumReached, quorumEvents;
      var settled := UpdateStatusIfQuorum(id, p);
      if settled.Err? {
        quorumReached, quorumEvents := reachedBefore, eventsBefore;
        return Err(settled.error);
      }
      proposals := proposals[id := settled.value];
      return Ok(());
    }

    method RecordVote(voter: Address, id: u32, choice: VoteChoice) returns (r: Outcome<()>)
      requires Stored()
      modifies this`votes, this`proposals, this`quorumReached, this`quorumEvents
      ensures match CastVoteSpec(old(View()), false, voter, id, choice)
              case Ok(t) => r == Ok(()) && View() == t
              case Err(e) => r == Err(e) && View() == old(View())
    {
      hide AllRecordedBy, SettleSpec, Ballot, Counted, HistoriesFrom, SupplyFrom, Dense, TallyOk;
      var ballot :- CheckBallot(voter, id);
      var p, weight := ballot.0, ballot.1;
      p :- CountVote(p, choice, weight);
      var votesBefore := votes;
      votes := votes[(id, voter) := GovernanceModel.Vote(voter, choice, weight, timestamp)];
      assert CastVoteSpec(old(View()), false, voter, id, choice) == SettleSpec(View(), id, p);
      hide CastVoteSpec;
      r := StoreSettled(id, p);
      if r.Err? {
        // The trap undoes the whole invocation.
        votes := votesBefore;
      }
    }

    method Vote(paused: bool, voter: Address, id: u32, choice: VoteChoice) returns (r: Outcome<()>)
      requires Valid()
      modifies this
      ensures Valid() && trace == old(trace) + [CastVote(paused, voter, id, choice)]
      ensures View() == After(old(View()), CastVote(paused, voter, id, choice))
      ensures r == ToUnit(Call(old(View()), CastVote(paused, voter, id, choice)))
      ensures VotesAsCounted(old(View()), CastVote(paused, voter, id, choice), r.Ok?, View())
    {
      VoteMeaningAlways(trace, CastVote(paused, voter, id, choice));
      hide VotesAsCounted;
      Take(CastVote(paused, voter, id, choice));
      hide Run, AllRecordedBy, SettleSpec, Ballot, Counted;
      if paused {
        return Err(DomainPaused);
      }
      hide CastVoteSpec;
      r := RecordVote(voter, id, choice);
    }

    method FinalizeProposal(id: u32) returns (r: Outcome<()>)
      requires Valid()
      modifies this
      ensures Valid() && trace == old(trace) + [Op.FinalizeProposal(id)]
      ensures View() == After(old(View()), Op.FinalizeProposal(id))
      ensures r == ToUnit(Call(old(View()), Op.FinalizeProposal(id)))
      ensures FinalizesAsDecided(old(View()), id, r.Ok?, View())
    {
      FinalizeMeaningAlways(trace, id);
      hide FinalizesAsDecided;
      hide Run, AllRecordedBy, FinalStatus;
      Take(Op.FinalizeProposal(id));
      if id !in proposals {
        return Err(ProposalNotFound);
      }
      var p := proposals[id];
      if p.status != Active {
        return Err(NotActive);
      }
      if ledger <= p.endLedger {
        return Err(VotingOpen);
      }
      var status :- FinalizeStatus(p);
      proposals := proposals[id := p.(status := status)];
      return Ok(());
    }

    /** Runs a proposal's action; other contracts' calls answer `callSucceeds`. A configuration that
        could have been set directly stays one, and while the quorum is a share of the supply no
        action moves it. */
    method DispatchAction(action: ProposalAction, callSucceeds: bool) returns (r: Outcome<()>)
      modifies this`config
      ensures match DispatchSpec(old(View()), Some(action), callSucceeds)
              case Ok(c) => r == Ok(()) && config == c
              case Err(e) => r == Err(e) && config == old(config)
      ensures !action.ReplaceConfig? ==> config == old(config) && (r.Ok? <==> callSucceeds)
      ensures action.ReplaceConfig? && r.Ok? ==>
                old(config).Some? && config == Some(Replaced(old(config).value, action))
      ensures old(config).Some? && CheckConfig(old(config).value).Ok? ==>
                && config.Some? && CheckConfig(config.value).Ok?
                && (action.ReplaceConfig? ==>
                      (r.Ok? <==> 0 < action.quorumThreshold
                                  && CheckConfig(Replaced(old(config).value, action)).Ok?))
      ensures old(config).Some? && old(config).value.quorumBps.Some? ==>
                && config.Some?
                && forall supply: i128 :: Threshold(config.value, supply) == Threshold(old(config).value, supply)
    {
      match action {
        case PauseTalos(_, _) =>
          return if callSucceeds then Ok(()) else Err(CallFailed);
        case ResumeTalos(_, _) =>
          return if callSucceeds then Ok(()) else Err(CallFailed);
        case ReplaceConfig(quorum, consensus, period) =>
          if quorum <= 0 {
            return Err(QuorumNotPositive);
          }
          if consensus <= 0 || consensus > 10_000 {
            return Err(ConsensusOutOfRange);
          }
          if period == 0 {
            return Err(PeriodNotPositive);
          }
          if config.None? {
            return Err(NotInitialized);
          }
          config := Some(GovernanceConfig(quorum, consensus, period, config.value.token,
                                          config.value.snapshotOffset, config.value.quorumBps));
          return Ok(());
      }
    }

    method ExecuteProposal(id: u32, callSucceeds: bool) returns (r: Outcome<()>)
      requires Valid()
      modifies this
      ensures Valid() && trace == old(trace) + [Op.ExecuteProposal(id, callSucceeds)]
      ensures View() == After(old(View()), Op.ExecuteProposal(id, callSucceeds))
      ensures r == ToUnit(Call(old(View()), Op.ExecuteProposal(id, callSucceeds)))
      ensures ExecutesAction(old(View()), id, callSucceeds, r.Ok?, View())
    {
      ExecuteMeaningAlways(trace, id, callSucceeds);
      hide ExecutesAction, CheckConfig, Threshold, Replaced;
      hide Run, AllRecordedBy, HistoriesFrom, SupplyFrom, HistoryFrom, Dense;
      Take(Op.ExecuteProposal(id, callSucceeds));
      if id !in proposals {
        return Err(ProposalNotFound);
      }
      var p := proposals[id];
      if p.status != Approved {
        return Err(NotApproved);
      }
      if p.action.Some? {
        var _ :- DispatchAction(p.action.value, callSucceeds);
      }
      proposals := proposals[id := p.(status := Executed)];
      return Ok(());
    }

    method CacheTokenBalance(paused: bool, admin: Address, q: u32, address: Address, balance: i128)
      returns (r: Outcome<()>)
      requires Valid()
      modifies this
      ensures Valid() && trace == old(trace) + [Op.CacheTokenBalance(paused, admin, q, address, balance)]
      ensures View() == After(old(View()), Op.CacheTokenBalance(paused, admin, q, address, balance))
      ensures r == ToUnit(Call(old(View()), Op.CacheTokenBalance(paused, admin, q, address, balance)))
      ensures r.Ok? <==> !paused && old(this.admin) == Some(admin) && 0 <= balance
      ensures r.Ok? ==> && PastVotes(View(), address, q) == LastAt(HistoryOf(View(), address), q).GetOr(balance)
                        && (forall b, l: u32 :: (b, l) != (address, q) ==>
                              PastVotes(View(), b, l) == old(PastVotes(View(), b, l)))
                        && forall l: u32 :: PastSupply(View(), l) == old(PastSupply(View(), l))
      ensures r.Err? ==> View() == old(View())
    {
      hide Run, AllRecordedBy;
      Take(Op.CacheTokenBalance(paused, admin, q, address, balance));
      if paused {
        return Err(DomainPaused);
      }
      var _ :- CheckAdmin(admin);
      if balance < 0 {
        return Err(NegativeBalance);
      }
      tokenBalanceSnapshot := tokenBalanceSnapshot[(q, address) := balance];
      CacheMoves(old(View()), q, address, balance, View());
      return Ok(());
    }

    method CheckAdmin(admin: Address) returns (r: Outcome<()>)
      ensures r == RequireAdmin(View(), admin)
    {
      if this.admin.None? {
        return Err(NotInitialized);
      }
      return if this.admin.value == admin then Ok(()) else Err(Unauthorized);
    }

    method UpdateConfig(paused: bool, admin: Address, config: GovernanceConfig) returns (r: Outcome<()>)
      requires Valid()
      modifies this
      ensures Valid() && trace == old(trace) + [Op.UpdateConfig(paused, admin, config)]
      ensures View() == After(old(View()), Op.UpdateConfig(paused, admin, config))
      ensures r == ToUnit(Call(old(View()), Op.UpdateConfig(paused, admin, config)))
      ensures r.Ok? <==> && !paused && old(this.admin) == Some(admin)
                         && ConfigOk(config) && config.snapshotOffset.GetOr(0) <= 120_960
      ensures View() == old(View()).(config := if r.Ok? then Some(config) else old(this.config))
    {
      AdminHasConfig(trace);
      CheckConfigMeans(config);
      hide Run, AllRecordedBy;
      Take(Op.UpdateConfig(paused, admin, config));
      if paused {
        return Err(DomainPaused);
      }
      var _ :- CheckAdmin(admin);
      if config.quorumBps.Some? {
        if config.quorumBps.value == 0 || config.quorumBps.value > 10_000 {
          return Err(BpsOutOfRange);
        }
        if config.quorumThreshold < 0 {
          return Err(QuorumNegative);
        }
      } else if config.quorumThreshold <= 0 {
        return Err(QuorumNotPositive);
      }
      if config.consensusThreshold <= 0 || config.consensusThreshold > 10_000 {
        return Err(ConsensusOutOfRange);
      }
      if config.votingPeriod == 0 {
        return Err(PeriodNotPositive);
      }
      if config.snapshotOffset.Some? && config.snapshotOffset.value > MAX_SNAPSHOT_OFFSET_LEDGERS {
        return Err(OffsetTooLarge);
      }
      if this.config.None? {
        return Err(NotInitialized);
      }
      this.config := Some(config);
      return Ok(());
    }

    method Delegate(paused: bool, delegator: Address, delegatee: Address) returns (r: Outcome<()>)
      requires Valid()
      modifies this
      ensures Valid() && trace == old(trace) + [Op.Delegate(paused, delegator, delegatee)]
      ensures View() == After(old(View()), Op.Delegate(paused, delegator, delegatee))
      ensures r == ToUnit(Call(old(View()), Op.Delegate(paused, delegator, delegatee)))
      ensures r.Ok? <==> !paused
      ensures r.Ok? ==> && (forall q: u32 :: VoteWeight(View(), delegator, q) == old(PastVotes(View(), delegatee, q)))
                        && forall v, q: u32 :: v != delegator ==>
                             VoteWeight(View(), v, q) == old(VoteWeight(View(), v, q))
      ensures View() == old(View()).(delegation := delegation) && (r.Err? ==> View() == old(View()))
    {
      hide Run, AllRecordedBy;
      Take(Op.Delegate(paused, delegator, delegatee));
      if paused {
        return Err(DomainPaused);
      }
      delegation := delegation[delegator := delegatee];
      DelegationMoves(old(View()), delegator, delegatee, View());
      return Ok(());
    }

    /** The nominator stays the admin until the nominee accepts. */
    method ProposeAdmin(paused: bool, caller: Address, nominee: Address) returns (r: Outcome<()>)
      requires Valid()
      modifies this
      ensures Valid() && trace == old(trace) + [Op.ProposeAdmin(paused, caller, nominee)]
      ensures View() == After(old(View()), Op.ProposeAdmin(paused, caller, nominee))
      ensures r == ToUnit(Call(old(View()), Op.ProposeAdmin(paused, caller, nominee)))
      ensures r.Ok? <==> !paused && admin == Some(caller)
      ensures View() == old(View()).(pending := if r.Ok? then Some(nominee) else old(pendingAdmin))
    {
      hide Run, AllRecordedBy;
      Take(Op.ProposeAdmin(paused, caller, nominee));
      if paused {
        return Err(DomainPaused);
      }
      var _ :- CheckAdmin(caller);
      pendingAdmin := Some(nominee);
      return Ok(());
    }

    method AcceptAdmin(caller: Address) returns (r: Outcome<()>)
      requires Valid()
      modifies this
      ensures Valid() && trace == old(trace) + [Op.AcceptAdmin(caller)]
      ensures View() == After(old(View()), Op.AcceptAdmin(caller))
      ensures r == ToUnit(Call(old(View()), Op.AcceptAdmin(caller)))
      ensures r.Ok? <==> old(pendingAdmin) == Some(caller)
      ensures View() == if r.Ok? then old(View()).(admin := Some(caller), pending := None) else old(View())
    {
      hide Run, AllRecordedBy;
      Take(Op.AcceptAdmin(caller));
      if pendingAdmin.None? {
        return Err(NoPendingAdmin);
      }
      if pendingAdmin.value != caller {
        return Err(Unauthorized);
      }
      admin, pendingAdmin := pendingAdmin, None;
      return Ok(());
    }

    method CancelAdminTransfer(caller: Address) returns (r: Outcome<()>)
      requires Valid()
      modifies this
      ensures Valid() && trace == old(trace) + [Op.CancelAdminTransfer(caller)]
      ensures View() == After(old(View()), Op.CancelAdminTransfer(caller))
      ensures r == ToUnit(Call(old(View()), Op.CancelAdminTransfer(caller)))
      ensures r.Ok? <==> admin == Some(caller) && old(pendingAdmin).Some?
      ensures View() == old(View()).(pending := if r.Ok? then None else old(pendingAdmin))
    {
      hide Run, AllRecordedBy;
      Take(Op.CancelAdminTransfer(caller));
      var _ :- CheckAdmin(caller);
      if pendingAdmin.None? {
        return Err(NoPendingAdmin);
      }
      pendingAdmin := None;
      return Ok(());
    }

    /** Overwrites the account's last checkpoint when it is of this ledger, else appends one. */
    method WriteCheckpoint(account: Address, balance: i128) returns (r: Outcome<()>)
      requires Dense(checkpoint, checkpointCount)
      modifies this`checkpoint, this`checkpointCount
      ensures Dense(checkpoint, checkpointCount)
      ensures var before := old(HistoriesFrom(checkpoint, checkpointCount));
              match CheckedRecord(if account in before then before[account] else [], ledger, balance)
              case Err(e) => r == Err(e) && checkpoint == old(checkpoint) && checkpointCount == old(checkpointCount)
              case Ok(h) => r == Ok(()) && HistoriesFrom(checkpoint, checkpointCount) == before[account := h]
    {
      var count := if account in checkpointCount then checkpointCount[account] else 0;
      ghost var h := HistoryFrom(checkpoint, account, count);
      assert count == 0 ==> h == [];
      var ck := Checkpoint(ledger, balance);
      if count > 0 {
        var last := checkpoint[(account, count - 1)];
        assert h[count - 1] == last;
        if last.ledger == ledger {
          StoreLast(checkpoint, checkpointCount, account, ck);
          checkpoint := checkpoint[(account, count - 1) := ck];
          return Ok(());
        }
      }
      if count == U32_MAX {
        return Err(Overflow);
      }
      StoreNext(checkpoint, checkpointCount, account, count, ck);
      checkpoint := checkpoint[(account, count) := ck];
      checkpointCount := checkpointCount[account := count + 1];
      return Ok(());
    }

    /** The same for the total supply. */
    method WriteSupplyCheckpoint(total: i128) returns (r: Outcome<()>)
      requires forall i: u32 :: i < supplyCount ==> i in supplyCheckpoint
      modifies this`supplyCheckpoint, this`supplyCount
      ensures forall i: u32 :: i < supplyCount ==> i in supplyCheckpoint
      ensures match CheckedRecord(old(SupplyFrom(supplyCheckpoint, supplyCount)), ledger, total)
              case Err(e) => r == Err(e) && supplyCheckpoint == old(supplyCheckpoint) && supplyCount == old(supplyCount)
              case Ok(h) => r == Ok(()) && SupplyFrom(supplyCheckpoint, supplyCount) == h
    {
      ghost var h := SupplyFrom(supplyCheckpoint, supplyCount);
      var ck := Checkpoint(ledger, total);
      if supplyCount > 0 {
        var last := supplyCheckpoint[supplyCount - 1];
        assert h[supplyCount - 1] == last;
        if last.ledger == ledger {
          supplyCheckpoint := supplyCheckpoint[supplyCount - 1 := ck];
          assert SupplyFrom(supplyCheckpoint, supplyCount) == h[|h| - 1 := ck];
          return Ok(());
        }
      }
      if supplyCount == U32_MAX {
        return Err(Overflow);
      }
      supplyCheckpoint := supplyCheckpoint[supplyCount := ck];
      supplyCount := supplyCount + 1;
      assert SupplyFrom(supplyCheckpoint, supplyCount) == h + [ck];
      return Ok(());
    }

    method CheckDelta(admin: Address, account: Address, balance: i128) returns (r: Outcome<i128>)
      requires Stored()
      ensures r == PowerDelta(View(), admin, account, balance)
    {
      var _ :- CheckAdmin(admin);
      var oldBalance := LastBalance(account);
      r := CheckedI128(balance - oldBalance, Overflow);
    }

    method MoveSupply(delta: i128) returns (r: Outcome<()>)
      requires forall i: u32 :: i < supplyCount ==> i in supplyCheckpoint
      modifies this`supplyCheckpoint, this`supplyCount
      ensures forall i: u32 :: i < supplyCount ==> i in supplyCheckpoint
      ensures match MovedSupply(old(View()).supply, ledger, delta)
              case Err(e) => r == Err(e) && supplyCheckpoint == old(supplyCheckpoint) && supplyCount == old(supplyCount)
              case Ok(h) => r == Ok(()) && View() == old(View()).(supply := h)
    {
      hide CheckedRecord, HistoryFrom, SupplyFrom, HistoriesFrom;
      var previousSupply := LastSupply();
      var total :- CheckedI128(previousSupply as int + delta, Overflow);
      r := WriteSupplyCheckpoint(total);
    }

    method RecordPower(admin: Address, account: Address, balance: i128) returns (r: Outcome<()>)
      requires Stored()
      modifies this`checkpoint, this`checkpointCount, this`supplyCheckpoint, this`supplyCount
      ensures Dense(checkpoint, checkpointCount) && forall i: u32 :: i < supplyCount ==> i in supplyCheckpoint
      ensures match UpdateVotingPowerSpec(old(View()), false, admin, account, balance)
              case Ok(t) => r == Ok(()) && View() == t
              case Err(e) => r == Err(e) && View() == old(View())
    {
      hide AllRecordedBy, CheckedRecord, HistoryFrom, SupplyFrom, HistoriesFrom, Latest, PowerDelta, MovedSupply, Dense;
      var delta :- CheckDelta(admin, account, balance);
      var checkpointBefore, countBefore := checkpoint, checkpointCount;
      var _ :- WriteCheckpoint(account, balance);
      var written := MoveSupply(delta);
      if written.Err? {
        // The trap undoes the account's checkpoint as well.
        checkpoint, checkpointCount := checkpointBefore, countBefore;
        return Err(written.error);
      }
      return Ok(());
    }

    method UpdateVotingPower(paused: bool, admin: Address, account: Address, balance: i128)
      returns (r: Outcome<()>)
      requires Valid()
      modifies this
      ensures Valid() && trace == old(trace) + [Op.UpdateVotingPower(paused, admin, account, balance)]
      ensures View() == After(old(View()), Op.UpdateVotingPower(paused, admin, account, balance))
      ensures r == ToUnit(Call(old(View()), Op.UpdateVotingPower(paused, admin, account, balance)))
    {
      Take(Op.UpdateVotingPower(paused, admin, account, balance));
      hide Run, AllRecordedBy, CheckedRecord, HistoryFrom, SupplyFrom;
      if paused {
        return Err(DomainPaused);
      }
      hide UpdateVotingPowerSpec;
      r := RecordPower(admin, account, balance);
    }

    method LastBalance(account: Address) returns (balance: i128)
      requires Stored()
      ensures balance == Latest(HistoryOf(View(), account))
    {
      var count := if account in checkpointCount then checkpointCount[account] else 0;
      if count == 0 {
        return 0;
      }
      assert HistoryOf(View(), account)[count - 1] == checkpoint[(account, count - 1)];
      return checkpoint[(account, count - 1)].votes;
    }

    method LastSupply() returns (total: i128)
      requires forall i: u32 :: i < supplyCount ==> i in supplyCheckpoint
      ensures total == Latest(View().supply)
    {
      if supplyCount == 0 {
        return 0;
      }
      assert View().supply[supplyCount - 1] == supplyCheckpoint[supplyCount - 1];
      return supplyCheckpoint[supplyCount - 1].votes;
    }
  }
}
