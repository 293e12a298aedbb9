/** What every governance entry point keeps. */
module GovernanceInvariants {
  import opened Common
  import opened Sums
  import opened Checkpoints
  import opened GovernanceModel

  // ---------- the invariant ----------

  ghost predicate ConfigOk(config: GovernanceConfig) {
    && 1 <= config.consensusThreshold <= BPS
    && 1 <= config.votingPeriod
    && match config.quorumBps
       case None => 1 <= config.quorumThreshold
       case Some(bps) => 0 <= config.quorumThreshold && 1 <= bps <= BPS
  }

  ghost predicate ProposalsOk(s: GovState) {
    && 1 <= s.nextProposalId
    && (s.admin.Some? <==> s.config.Some?)
    && (s.pending.Some? ==> s.admin.Some?)
    && (s.config.Some? ==> ConfigOk(s.config.value))
    && (s.config.None? ==> s.nextProposalId == 1)
    && (forall id :: id in s.proposals <==> 1 <= id < s.nextProposalId)
    && forall id :: id in s.proposals ==>
         var p := s.proposals[id];
         p.id == id && p.snapshotLedger <= p.startLedger <= s.ledger && p.startLedger <= p.endLedger
  }

  ghost predicate AllRecordedBy(histories: map<Address, History>, supply: History, ledger: u32) {
    && (forall a :: a in histories ==> RecordedBy(histories[a], ledger))
    && RecordedBy(supply, ledger)
  }

  ghost predicate HistoriesOk(s: GovState) {
    AllRecordedBy(s.histories, s.supply, s.ledger)
  }

  /** Every account's recorded votes at ledger `q`. */
  ghost function AccountsAt(histories: map<Address, History>, q: int): map<Address, int> {
    map a | a in histories :: ValueAt(histories[a], q)
  }

  ghost predicate SupplyIsSum(s: GovState) {
    forall q: int :: Sum(AccountsAt(s.histories, q)) == ValueAt(s.supply, q)
  }

  /** The ballots cast on proposal `id`: one per voter, as votes are keyed by both. */
  ghost function Ballots(votes: map<(u32, Address), Vote>, id: u32): set<(u32, Address)> {
    set k | k in votes && k.0 == id
  }

  /** The weights that ballots of proposal `id` put on `choice`. */
  ghost function Weights(votes: map<(u32, Address), Vote>, id: u32, choice: VoteChoice): map<(u32, Address), int> {
    map k | k in votes && k.0 == id && votes[k].choice == choice :: votes[k].weight
  }

  ghost predicate TallyOk(votes: map<(u32, Address), Vote>, id: u32, p: Proposal) {
    && p.yes == Sum(Weights(votes, id, Approve))
    && p.no == Sum(Weights(votes, id, Reject))
    && p.totalVoters == |Ballots(votes, id)|
  }

  /** One positive entry per voter, and tallies that add the entries up. */
  ghost predicate TalliesOk(s: GovState) {
    && (forall k :: k in s.votes ==> k.0 in s.proposals && s.votes[k].voter == k.1 && 0 < s.votes[k].weight)
    && forall id :: id in s.proposals ==> TallyOk(s.votes, id, s.proposals[id])
  }

  /** Proposals announced as having met the quorum, in order. */
  function Announced(events: seq<QuorumEvent>): seq<u32> {
    seq(|events|, i requires 0 <= i < |events| => events[i].proposalId)
  }

  ghost predicate Distinct<T>(xs: seq<T>) {
    forall i, j :: 0 <= i < j < |xs| ==> xs[i] != xs[j]
  }

  /** The sentinel is set only on settled proposals, and exactly one event per sentinel was sent. */
  ghost predicate SentinelsOk(s: GovState) {
    && (forall id :: id in s.quorumReached ==> id in s.proposals && s.proposals[id].status != Active)
    && AnnouncedOnce(s.quorumReached, s.quorumEvents)
  }

  ghost predicate AnnouncedOnce(reached: set<u32>, events: seq<QuorumEvent>) {
    (forall id :: id in reached <==> id in Announced(events)) && Distinct(Announced(events))
  }

  ghost predicate Inv(s: GovState) {
    ProposalsOk(s) && HistoriesOk(s) && SupplyIsSum(s) && TalliesOk(s) && SentinelsOk(s)
  }

  // ---------- the effect of one successful step ----------

  /** The four status moves there are. */
  predicate StatusMove(a: ProposalStatus, b: ProposalStatus) {
    a == b || (a == Active && (b == Approved || b == Rejected || b == Cancelled)) || (a == Approved && b == Executed)
  }

  /** What one step may do to a stored proposal: only an active one changes more than its status. */
  predicate Advances(p: Proposal, q: Proposal) {
    && StatusMove(p.status, q.status)
    && q == p.(status := q.status, yes := q.yes, no := q.no, totalVoters := q.totalVoters)
    && (p.status != Active ==> q == p.(status := q.status))
  }

  /** A vote is recorded, counted once on its side, and may settle its proposal. */
  ghost predicate VoteEffect(s: GovState, t: GovState, id: u32, voter: Address, choice: VoteChoice) {
    && id in s.proposals && id in t.proposals && (id, voter) !in s.votes
    && var p, q := s.proposals[id], t.proposals[id];
    && p.status == Active && s.ledger <= p.endLedger
    && var weight := VoteWeight(s, voter, p.snapshotLedger);
    && 0 < weight
    && q == p.(yes := q.yes, no := q.no, totalVoters := q.totalVoters, status := q.status)
    && q.yes == p.yes + (if choice == Approve then weight else 0)
    && q.no == p.no + (if choice == Reject then weight else 0)
    && q.totalVoters == p.totalVoters + 1
    && Marked(s, t, q)
    && t == s.(votes := s.votes[(id, voter) := Vote(voter, choice, weight, s.timestamp)],
               proposals := s.proposals[id := q], quorumReached := t.quorumReached, quorumEvents := t.quorumEvents)
  }

  /** Settling a proposal sets its sentinel and sends its event if the sentinel was clear. */
  ghost predicate Marked(s: GovState, t: GovState, q: Proposal) {
    if q.status == Active then t.quorumReached == s.quorumReached && t.quorumEvents == s.quorumEvents
    else
      && (q.status == Approved || q.status == Rejected)
      && t.quorumReached == s.quorumReached + {q.id}
      && if q.id in s.quorumReached then t.quorumEvents == s.quorumEvents
         else exists e: QuorumEvent :: Announces(s, q, e) && t.quorumEvents == s.quorumEvents + [e]
  }

  /** The event names the proposal, its votes, the threshold of that moment and the yes share. */
  ghost predicate Announces(s: GovState, q: Proposal, e: QuorumEvent) {
    && e.proposalId == q.id && e.votesCast == q.yes + q.no
    && s.config.Some? && Threshold(s.config.value, PastSupply(s, q.snapshotLedger)) == Ok(e.threshold)
    && (0 < q.yes + q.no ==> ApprovalBps(q.yes, e.votesCast) == Ok(e.approvalBps))
  }

  /** A counted proposal stays active exactly while its votes are below the threshold. */
  ghost predicate SettledBy(s: GovState, q: Proposal) {
    && s.config.Some? && InI128(q.yes + q.no)
    && var threshold := Threshold(s.config.value, PastSupply(s, q.snapshotLedger));
    && threshold.Ok?
    && if q.yes + q.no < threshold.value then q.status == Active
       else Decide(s.config.value, threshold.value, q.yes, q.yes + q.no) == Ok(q.status)
  }

  /** One account's power and the supply are recorded at the current ledger. */
  ghost predicate PowerEffect(s: GovState, t: GovState, account: Address, balance: i128) {
    && var h := HistoryOf(s, account);
    && var total := Latest(s.supply) + balance - Latest(h);
    && InI128(total)
    && t == s.(histories := s.histories[account := Record(h, s.ledger, balance)],
               supply := Record(s.supply, s.ledger, total))
  }

  /** One proposal leaves status `from` and changes nothing else; its action may replace the configuration. */
  ghost predicate StatusEffect(s: GovState, t: GovState, id: u32, from: ProposalStatus) {
    && id in s.proposals && id in t.proposals
    && s.proposals[id].status == from != t.proposals[id].status
    && StatusMove(s.proposals[id].status, t.proposals[id].status)
    && (t.config == s.config || (s.config.Some? && t.config.Some? && ConfigOk(t.config.value)))
    && t == s.(proposals := s.proposals[id := s.proposals[id].(status := t.proposals[id].status)], config := t.config)
  }

  /** A fresh proposal under the next id. */
  ghost predicate CreateEffect(s: GovState, t: GovState) {
    && s.config.Some? && s.nextProposalId < U32_MAX
    && var id := s.nextProposalId;
    && id in t.proposals
    && var q := t.proposals[id];
    && q.id == id && q.status == Active && q.yes == q.no == 0 && q.totalVoters == 0
    && q.startLedger == s.ledger && q.endLedger == s.ledger + s.config.value.votingPeriod
    && q.snapshotLedger ==
       SaturatingSubU32(s.ledger, s.config.value.snapshotOffset.GetOr(DEFAULT_SNAPSHOT_OFFSET_LEDGERS))
    && t == s.(proposals := s.proposals[id := q], nextProposalId := id + 1)
  }

  /** Time, setup, the admin, the balance cache or a delegation changes; proposals, votes and checkpoints do not. */
  ghost predicate SideEffect(s: GovState, t: GovState) {
    && s.ledger <= t.ledger
    && (t.config == s.config || (t.config.Some? && ConfigOk(t.config.value)))
    && (t.admin.Some? <==> t.config.Some?) && (t.pending.Some? ==> t.admin.Some?)
    && t == s.(ledger := t.ledger, timestamp := t.timestamp, admin := t.admin, pending := t.pending, config := t.config,
               cached := t.cached, delegation := t.delegation)
  }

  ghost predicate Effect(s: GovState, op: Op, t: GovState) {
    match op
    case CastVote(_, voter, id, choice) => VoteEffect(s, t, id, voter, choice)
    case UpdateVotingPower(_, _, account, balance) => PowerEffect(s, t, account, balance)
    case CreateProposal(_, _, _, _, _, _, _) => CreateEffect(s, t)
    case CancelProposal(_, id) => StatusEffect(s, t, id, Active)
    case FinalizeProposal(id) => StatusEffect(s, t, id, Active)
    case ExecuteProposal(id, _) => StatusEffect(s, t, id, Approved)
    case _ => SideEffect(s, t)
  }

  /** A settled tally is stored with the status its votes decide. */
  lemma SettleEffect(s: GovState, id: u32, p: Proposal)
    requires p.status == Active && SettleSpec(s, id, p).Ok?
    ensures var t := SettleSpec(s, id, p).value;
            && id in t.proposals
            && t.proposals[id] == p.(status := t.proposals[id].status)
            && Marked(s, t, t.proposals[id])
            && SettledBy(s, t.proposals[id])
            && t == s.(proposals := s.proposals[id := t.proposals[id]], quorumReached := t.quorumReached,
                       quorumEvents := t.quorumEvents)
  {
    var t := SettleSpec(s, id, p).value;
    var threshold := Threshold(s.config.value, PastSupply(s, p.snapshotLedger)).value;
    if p.yes + p.no >= threshold {
      var marked := MarkQuorum(s, p, p.yes + p.no, threshold).value;
      if p.id !in s.quorumReached {
        assert Announces(s, t.proposals[id], marked.quorumEvents[|s.quorumEvents|]);
      }
      assert t.quorumReached == marked.quorumReached && t.quorumEvents == marked.quorumEvents;
      assert p.id in s.quorumReached ==> s.quorumReached + {p.id} == s.quorumReached;
    }
  }

  lemma VoteHasEffect(s: GovState, op: Op)
    requires op.CastVote? && Call(s, op).Ok?
    ensures Effect(s, op, After(s, op))
    ensures SettledBy(s, After(s, op).proposals[op.id])
  {
    var p := s.proposals[op.id];
    var weight := VoteWeight(s, op.voter, p.snapshotLedger);
    var vote := Vote(op.voter, op.choice, weight, s.timestamp);
    SettleEffect(s.(votes := s.votes[(op.id, op.voter) := vote]), op.id, Counted(p, op.choice, weight).value);
  }

  lemma FinalizeHasEffect(s: GovState, op: Op)
    requires op.FinalizeProposal? && Call(s, op).Ok?
    ensures Effect(s, op, After(s, op))
    ensures FinalStatus(s, s.proposals[op.id]) == Ok(After(s, op).proposals[op.id].status)
  {
    hide Threshold, ApprovalBps;
  }

  lemma StatusHasEffect(s: GovState, op: Op)
    requires ProposalsOk(s) && Call(s, op).Ok?
    requires op.CancelProposal? || op.ExecuteProposal?
    ensures Effect(s, op, After(s, op))
  {
  }

  /** Every successful step has exactly one of the effects above. */
  lemma StepHasEffect(s: GovState, op: Op)
    requires ProposalsOk(s) && Call(s, op).Ok?
    ensures Effect(s, op, After(s, op))
  {
    match op {
      case CastVote(_, _, _, _) => VoteHasEffect(s, op);
      case CancelProposal(_, _) => StatusHasEffect(s, op);
      case FinalizeProposal(_) => FinalizeHasEffect(s, op);
      case ExecuteProposal(_, _) => StatusHasEffect(s, op);
      case _ =>
    }
  }

  // ---------- what each effect keeps ----------

  lemma EffectKeepsProposals(s: GovState, op: Op, t: GovState)
    requires ProposalsOk(s) && Effect(s, op, t)
    ensures ProposalsOk(t)
    ensures s.ledger <= t.ledger
  {
    hide Marked, VoteWeight, Record, Latest, HistoryOf;
  }

  lemma EffectAdvances(s: GovState, op: Op, t: GovState, id: u32)
    requires ProposalsOk(s) && Effect(s, op, t) && id in s.proposals
    ensures id in t.proposals && Advances(s.proposals[id], t.proposals[id])
  {
  }

  /** Writing one account's power moves the sum by exactly what it moves the supply. */
  lemma RecordKeepsSum(histories: map<Address, History>, supply: History, account: Address, ledger: u32,
                       balance: i128, total: i128, q: int)
    requires RecordedBy(supply, ledger)
    requires forall a :: a in histories ==> RecordedBy(histories[a], ledger)
    requires Sum(AccountsAt(histories, q)) == ValueAt(supply, q)
    requires var h := if account in histories then histories[account] else [];
             total == Latest(supply) + balance - Latest(h)
    ensures var h := if account in histories then histories[account] else [];
            Sum(AccountsAt(histories[account := Record(h, ledger, balance)], q)) ==
            ValueAt(Record(supply, ledger, total), q)
  {
    var h := if account in histories then histories[account] else [];
    var value := ValueAt(Record(h, ledger, balance), q);
    RecordValue(h, ledger, balance, q);
    RecordValue(supply, ledger, total, q);
    AccountsUpdate(histories, account, Record(h, ledger, balance), q);
    hide Record, LastAt, Latest, Increasing, AccountsAt;
    SumUpdate(AccountsAt(histories, q), account, value);
  }

  /** What is recorded replaces the latest value from its ledger on. */
  lemma RecordValue(h: History, ledger: u32, votes: i128, q: int)
    requires RecordedBy(h, ledger)
    ensures ValueAt(Record(h, ledger, votes), q) == if ledger <= q then votes else ValueAt(h, q)
    ensures ledger <= q ==> ValueAt(h, q) == Latest(h)
  {
    RecordLookup(h, ledger, votes, q);
    if ledger <= q {
      LookupAfterLast(h, ledger, q);
    }
  }

  lemma AccountsUpdate(histories: map<Address, History>, account: Address, h: History, q: int)
    ensures AccountsAt(histories[account := h], q) == AccountsAt(histories, q)[account := ValueAt(h, q)]
    ensures account in AccountsAt(histories, q) <==> account in histories
    ensures account in histories ==> AccountsAt(histories, q)[account] == ValueAt(histories[account], q)
  {
    hide LastAt;
  }

  lemma PowerKeepsPower(s: GovState, t: GovState, account: Address, balance: i128)
    requires HistoriesOk(s) && SupplyIsSum(s) && PowerEffect(s, t, account, balance)
    ensures HistoriesOk(t) && SupplyIsSum(t)
  {
    hide Record, Latest, LastAt;
    var h := HistoryOf(s, account);
    var total := Latest(s.supply) + balance - Latest(h);
    RecordKeepsOrder(h, s.ledger, balance);
    RecordKeepsOrder(s.supply, s.ledger, total);
    forall q: int
      ensures Sum(AccountsAt(t.histories, q)) == ValueAt(t.supply, q)
    {
      RecordKeepsSum(s.histories, s.supply, account, s.ledger, balance, total, q);
    }
  }

  /** A new vote adds its weight to the chosen side of its proposal... */
  lemma WeightsGain(votes: map<(u32, Address), Vote>, key: (u32, Address), vote: Vote)
    requires key !in votes
    ensures Sum(Weights(votes[key := vote], key.0, vote.choice)) ==
            Sum(Weights(votes, key.0, vote.choice)) + vote.weight
  {
    var before := Weights(votes, key.0, vote.choice);
    assert Weights(votes[key := vote], key.0, vote.choice) == before[key := vote.weight];
    SumUpdate(before, key, vote.weight);
  }

  /** ...and to nothing else. */
  lemma WeightsKept(votes: map<(u32, Address), Vote>, key: (u32, Address), vote: Vote, id: u32, choice: VoteChoice)
    requires key !in votes && (key.0 != id || vote.choice != choice)
    ensures Weights(votes[key := vote], id, choice) == Weights(votes, id, choice)
  {
    assert Weights(votes[key := vote], id, choice).Keys == Weights(votes, id, choice).Keys;
  }

  lemma BallotsAfterVote(votes: map<(u32, Address), Vote>, key: (u32, Address), vote: Vote, id: u32)
    requires key !in votes
    ensures |Ballots(votes[key := vote], id)| == |Ballots(votes, id)| + (if key.0 == id then 1 else 0)
  {
    assert Ballots(votes[key := vote], id) == if key.0 == id then Ballots(votes, id) + {key} else Ballots(votes, id);
  }

  lemma NoVotesYet(s: GovState, id: u32, q: Proposal)
    requires TalliesOk(s) && id !in s.proposals && q.yes == q.no == 0 && q.totalVoters == 0
    ensures TallyOk(s.votes, id, q)
  {
    assert Weights(s.votes, id, Approve) == map[];
    assert Weights(s.votes, id, Reject) == map[];
    assert Ballots(s.votes, id) == {};
  }

  /** The voted proposal's tally gains the entry. */
  lemma TallyGains(votes: map<(u32, Address), Vote>, key: (u32, Address), vote: Vote, p: Proposal, q: Proposal)
    requires TallyOk(votes, key.0, p) && key !in votes
    requires q.yes == p.yes + (if vote.choice == Approve then vote.weight else 0)
    requires q.no == p.no + (if vote.choice == Reject then vote.weight else 0)
    requires q.totalVoters == p.totalVoters + 1
    ensures TallyOk(votes[key := vote], key.0, q)
  {
    WeightsGain(votes, key, vote);
    WeightsKept(votes, key, vote, key.0, if vote.choice == Approve then Reject else Approve);
    BallotsAfterVote(votes, key, vote, key.0);
  }

  /** Every other proposal's tally stands. */
  lemma TallyStands(votes: map<(u32, Address), Vote>, id: u32, p: Proposal, key: (u32, Address), vote: Vote)
    requires TallyOk(votes, id, p) && key !in votes && key.0 != id
    ensures TallyOk(votes[key := vote], id, p)
  {
    WeightsKept(votes, key, vote, id, Approve);
    WeightsKept(votes, key, vote, id, Reject);
    BallotsAfterVote(votes, key, vote, id);
  }

  lemma VoteKeepsTallies(s: GovState, t: GovState, id: u32, voter: Address, choice: VoteChoice)
    requires TalliesOk(s) && VoteEffect(s, t, id, voter, choice)
    ensures TalliesOk(t)
  {
    hide TallyOk, VoteWeight, Marked;
    var vote := Vote(voter, choice, VoteWeight(s, voter, s.proposals[id].snapshotLedger), s.timestamp);
    forall j | j in t.proposals
      ensures TallyOk(t.votes, j, t.proposals[j])
    {
      if j == id {
        TallyGains(s.votes, (id, voter), vote, s.proposals[id], t.proposals[id]);
      } else {
        TallyStands(s.votes, j, s.proposals[j], (id, voter), vote);
      }
    }
  }

  /** A step that leaves the votes alone leaves every tally alone. */
  lemma OtherKeepsTallies(s: GovState, op: Op, t: GovState)
    requires ProposalsOk(s) && TalliesOk(s) && Effect(s, op, t) && !op.CastVote?
    ensures TalliesOk(t)
  {
    hide TallyOk;
    assert t.votes == s.votes;
    forall id | id in t.proposals
      ensures TallyOk(t.votes, id, t.proposals[id])
    {
      if id in s.proposals {
        EffectAdvances(s, op, t, id);
        TallyIgnoresStatus(s.votes, id, s.proposals[id], t.proposals[id]);
      } else {
        NoVotesYet(s, id, t.proposals[id]);
      }
    }
  }

  lemma TallyIgnoresStatus(votes: map<(u32, Address), Vote>, id: u32, p: Proposal, q: Proposal)
    requires TallyOk(votes, id, p) && q.yes == p.yes && q.no == p.no && q.totalVoters == p.totalVoters
    ensures TallyOk(votes, id, q)
  {
  }

  lemma EffectKeepsTallies(s: GovState, op: Op, t: GovState)
    requires ProposalsOk(s) && TalliesOk(s) && Effect(s, op, t)
    ensures TalliesOk(t)
  {
    if op.CastVote? {
      VoteKeepsTallies(s, t, op.id, op.voter, op.choice);
    } else {
      OtherKeepsTallies(s, op, t);
    }
  }

  lemma VoteKeepsSentinels(s: GovState, t: GovState, id: u32, voter: Address, choice: VoteChoice)
    requires ProposalsOk(s) && SentinelsOk(s) && VoteEffect(s, t, id, voter, choice)
    ensures SentinelsOk(t)
  {
    assert id !in s.quorumReached;
    if t.quorumReached != s.quorumReached {
      var e: QuorumEvent :| Announces(s, t.proposals[id], e) && t.quorumEvents == s.quorumEvents + [e];
      assert Announced(t.quorumEvents) == Announced(s.quorumEvents) + [id];
    }
  }

  lemma EffectKeepsSentinels(s: GovState, op: Op, t: GovState)
    requires ProposalsOk(s) && SentinelsOk(s) && Effect(s, op, t)
    ensures SentinelsOk(t)
  {
    if op.CastVote? {
      VoteKeepsSentinels(s, t, op.id, op.voter, op.choice);
    }
  }

  lemma EffectKeepsPower(s: GovState, op: Op, t: GovState)
    requires HistoriesOk(s) && SupplyIsSum(s) && Effect(s, op, t)
    ensures HistoriesOk(t) && SupplyIsSum(t)
  {
    if op.UpdateVotingPower? {
      PowerKeepsPower(s, t, op.account, op.balance);
    } else {
      assert t.histories == s.histories && t.supply == s.supply && s.ledger <= t.ledger;
    }
  }

  lemma EffectKeepsInv(s: GovState, op: Op, t: GovState)
    requires Inv(s) && Effect(s, op, t)
    ensures Inv(t)
  {
    EffectKeepsProposals(s, op, t);
    EffectKeepsPower(s, op, t);
    EffectKeepsTallies(s, op, t);
    EffectKeepsSentinels(s, op, t);
  }

  lemma InvKept(s: GovState, op: Op)
    requires Inv(s)
    ensures Inv(After(s, op))
  {
    hide Call, Effect;
    if Call(s, op).Ok? {
      StepHasEffect(s, op);
      EffectKeepsInv(s, op, After(s, op));
    }
  }

  lemma {:induction false} InvFrom(s: GovState, ops: seq<Op>)
    requires Inv(s)
    ensures Inv(RunFrom(s, ops))
    decreases |ops|
  {
    if |ops| > 0 {
      InvFrom(s, ops[..|ops| - 1]);
      InvKept(RunFrom(s, ops[..|ops| - 1]), ops[|ops| - 1]);
    }
  }

  /** The invariant holds in every reachable state. */
  lemma InvAlways(ops: seq<Op>)
    ensures Inv(Run(ops))
  {
    assert Inv(DEPLOYED) by {
      forall q: int
        ensures Sum(AccountsAt(DEPLOYED.histories, q)) == ValueAt(DEPLOYED.supply, q)
      {
        assert AccountsAt(DEPLOYED.histories, q) == map[];
      }
    }
    InvFrom(DEPLOYED, ops);
  }
}
