/** The governance contract as a state machine on values: what each entry point does to
    storage, stated over whole checkpoint histories instead of storage keys. */
module GovernanceModel {
  import opened Common
  import opened Checkpoints

  const DEFAULT_SNAPSHOT_OFFSET_LEDGERS: u32 := 10
  const MAX_SNAPSHOT_OFFSET_LEDGERS: u32 := 120_960
  const MAX_TITLE_LEN := 128
  const MAX_DESCRIPTION_LEN := 2048
  const BPS: int := 10_000

  datatype VoteChoice = Approve | Reject

  datatype ProposalStatus = Active | Approved | Rejected | Executed | Cancelled

  datatype Vote = Vote(voter: Address, choice: VoteChoice, weight: i128, votedAt: u64)

  datatype ProposalAction =
    | PauseTalos(registry: Address, talosId: u32)
    | ResumeTalos(registry: Address, talosId: u32)
    | ReplaceConfig(quorumThreshold: i128, consensusThreshold: i128, votingPeriod: u32)

  datatype Proposal = Proposal(
    id: u32, talosId: u32, proposer: Address, title: string, description: string,
    snapshotLedger: u32, startLedger: u32, endLedger: u32, status: ProposalStatus,
    yes: i128, no: i128, totalVoters: u32, createdAt: u64, action: Option<ProposalAction>)

  datatype GovernanceConfig = GovernanceConfig(
    quorumThreshold: i128, consensusThreshold: i128, votingPeriod: u32, token: Address,
    snapshotOffset: Option<u32>, quorumBps: Option<u32>)

  datatype QuorumEvent = QuorumEvent(proposalId: u32, votesCast: i128, threshold: i128, approvalBps: int)

  datatype QuorumState = QuorumState(
    votesCast: i128, quorumThreshold: i128, quorumMet: bool, yes: i128, no: i128,
    approvalBps: int, consensusThreshold: i128, quorumFractionBps: int)

  datatype Error =
    | DomainPaused | AlreadyInitialized | NotInitialized | Unauthorized
    | QuorumNotPositive | QuorumNegative | ConsensusOutOfRange | PeriodNotPositive
    | BpsOutOfRange | OffsetTooLarge
    | TitleEmpty | TitleTooLong | DescriptionEmpty | DescriptionTooLong | TalosInactive
    | ProposalNotFound | NotProposer | NotActive | HasVotes | VotingEnded | VotingOpen
    | AlreadyVoted | NoVotingPower | NotApproved | CallFailed | NegativeBalance
    | NoPendingAdmin | Overflow | DivideByZero

  type Outcome<+T> = Result<T, Error>

  datatype GovState = GovState(
    ledger: u32,
    timestamp: u64,
    admin: Option<Address>,
    pending: Option<Address>,
    config: Option<GovernanceConfig>,
    nextProposalId: u32,
    proposals: map<u32, Proposal>,
    votes: map<(u32, Address), Vote>,
    cached: map<(u32, Address), i128>,
    histories: map<Address, History>,
    supply: History,
    delegation: map<Address, Address>,
    quorumReached: set<u32>,
    quorumEvents: seq<QuorumEvent>)

  const DEPLOYED := GovState(0, 0, None, None, None, 1, map[], map[], map[], map[], [], map[], {}, [])

  /** One invocation. `paused`, `registryAccepts` and `callSucceeds` are what the host
      and the other contracts answer during it. */
  datatype Op =
    | Tick(ledgers: nat, seconds: nat)
    | Initialize(admin: Address, token: Address, quorum: i128, consensus: i128, period: u32)
    | CreateProposal(paused: bool, proposer: Address, talosId: u32, title: string, description: string,
                     registryAccepts: bool, action: Option<ProposalAction>)
    | CancelProposal(proposer: Address, id: u32)
    | CastVote(paused: bool, voter: Address, id: u32, choice: VoteChoice)
    | FinalizeProposal(id: u32)
    | ExecuteProposal(id: u32, callSucceeds: bool)
    | UpdateConfig(paused: bool, admin: Address, config: GovernanceConfig)
    | CacheTokenBalance(paused: bool, admin: Address, ledger: u32, address: Address, balance: i128)
    | Delegate(paused: bool, delegator: Address, delegatee: Address)
    | UpdateVotingPower(paused: bool, admin: Address, account: Address, balance: i128)
    | ProposeAdmin(paused: bool, caller: Address, nominee: Address)
    | AcceptAdmin(caller: Address)
    | CancelAdminTransfer(caller: Address)

  // ---------- reads ----------

  function HistoryOf(s: GovState, account: Address): History {
    if account in s.histories then s.histories[account] else []
  }

  function CachedAt(s: GovState, ledger: u32, account: Address): i128 {
    if (ledger, account) in s.cached then s.cached[(ledger, account)] else 0
  }

  /** The last checkpoint at or before `ledger`; the cached snapshot when there is none. */
  function PastVotes(s: GovState, account: Address, ledger: u32): i128 {
    LastAt(HistoryOf(s, account), ledger).GetOr(CachedAt(s, ledger, account))
  }

  function PastSupply(s: GovState, ledger: u32): i128 {
    ValueAt(s.supply, ledger)
  }

  function DelegateeOf(s: GovState, voter: Address): Address {
    if voter in s.delegation then s.delegation[voter] else voter
  }

  function VoteWeight(s: GovState, voter: Address, snapshotLedger: u32): i128 {
    PastVotes(s, DelegateeOf(s, voter), snapshotLedger)
  }

  function RequireConfig(s: GovState): Outcome<GovernanceConfig> {
    match s.config
    case Some(c) => Ok(c)
    case None => Err(NotInitialized)
  }

  function RequireAdmin(s: GovState, admin: Address): Outcome<()> {
    match s.admin
    case None => Err(NotInitialized)
    case Some(a) => if a == admin then Ok(()) else Err(Unauthorized)
  }

  function RequireProposal(s: GovState, id: u32): Outcome<Proposal> {
    if id in s.proposals then Ok(s.proposals[id]) else Err(ProposalNotFound)
  }

  // ---------- quorum arithmetic ----------

  function Threshold(config: GovernanceConfig, supply: i128): Outcome<i128> {
    match config.quorumBps
    case None => Ok(config.quorumThreshold)
    case Some(bps) =>
      if supply <= 0 then Ok(0)
      else
        var scaled :- CheckedI128(supply * bps + 9_999, Overflow);
        Ok(scaled / 10_000)
  }

  /** The yes share in basis points. */
  function ApprovalBps(yes: i128, total: i128): Outcome<int> {
    var scaled :- CheckedI128(yes * 10_000, Overflow);
    if total == 0 then Err(DivideByZero) else Ok(TruncDiv(scaled, total))
  }

  /** The status that the tallies decide. */
  function Decide(config: GovernanceConfig, threshold: i128, yes: i128, total: i128): Outcome<ProposalStatus> {
    if total < threshold then Ok(Rejected)
    else
      var bps :- ApprovalBps(yes, total);
      Ok(if bps >= config.consensusThreshold then Approved else Rejected)
  }

  function FinalStatus(s: GovState, p: Proposal): Outcome<ProposalStatus> {
    var config :- RequireConfig(s);
    var total :- CheckedI128(p.yes + p.no, Overflow);
    var threshold :- Threshold(config, PastSupply(s, p.snapshotLedger));
    Decide(config, threshold, p.yes, total)
  }

  function QuorumStateOf(config: GovernanceConfig, threshold: i128, yes: i128, no: i128): Outcome<QuorumState> {
    var total :- CheckedI128(yes + no, Overflow);
    var approval :- if total > 0 then ApprovalBps(yes, total) else Ok(0);
    var fraction :- if threshold > 0 then FractionBps(total, threshold) else Ok(10_000);
    Ok(QuorumState(total, threshold, total >= threshold, yes, no, approval, config.consensusThreshold, fraction))
  }

  /** Progress toward the threshold in basis points, capped. */
  function FractionBps(total: i128, threshold: i128): Outcome<int>
    requires threshold > 0
  {
    var scaled :- CheckedI128(total * 10_000, Overflow);
    var raw := TruncDiv(scaled, threshold);
    Ok(if raw > 10_000 then 10_000 else raw)
  }

  function ProposalQuorumState(s: GovState, id: u32): Outcome<Option<QuorumState>> {
    if id !in s.proposals then Ok(None)
    else
      var p := s.proposals[id];
      var config :- RequireConfig(s);
      var _ :- CheckedI128(p.yes + p.no, Overflow);
      var threshold :- Threshold(config, PastSupply(s, p.snapshotLedger));
      var state :- QuorumStateOf(config, threshold, p.yes, p.no);
      Ok(Some(state))
  }

  // ---------- entry points ----------

  function InitializeSpec(s: GovState, admin: Address, token: Address, quorum: i128, consensus: i128, period: u32)
    : Outcome<GovState>
  {
    if s.admin.Some? then Err(AlreadyInitialized)
    else if quorum <= 0 then Err(QuorumNotPositive)
    else if consensus <= 0 || consensus > 10_000 then Err(ConsensusOutOfRange)
    else if period == 0 then Err(PeriodNotPositive)
    else Ok(s.(admin := Some(admin),
               config := Some(GovernanceConfig(quorum, consensus, period, token, None, None)),
               nextProposalId := 1))
  }

  function CheckTexts(title: string, description: string): Outcome<()> {
    if |title| == 0 then Err(TitleEmpty)
    else if |title| > MAX_TITLE_LEN then Err(TitleTooLong)
    else if |description| == 0 then Err(DescriptionEmpty)
    else if |description| > MAX_DESCRIPTION_LEN then Err(DescriptionTooLong)
    else Ok(())
  }

  function CreateProposalSpec(s: GovState, paused: bool, proposer: Address, talosId: u32, title: string,
                              description: string, registryAccepts: bool, action: Option<ProposalAction>)
    : Outcome<GovState>
  {
    if paused then Err(DomainPaused)
    else
      var _ :- CheckTexts(title, description);
      if !registryAccepts then Err(TalosInactive)
      else
        var config :- RequireConfig(s);
        var id := s.nextProposalId;
        var snapshot := SaturatingSubU32(s.ledger, config.snapshotOffset.GetOr(DEFAULT_SNAPSHOT_OFFSET_LEDGERS));
        if s.ledger + config.votingPeriod > U32_MAX || id == U32_MAX then Err(Overflow)
        else
          var p := Proposal(id, talosId, proposer, title, description, snapshot, s.ledger,
                            s.ledger + config.votingPeriod, Active, 0, 0, 0, s.timestamp, action);
          Ok(s.(proposals := s.proposals[id := p], nextProposalId := id + 1))
  }

  function CancelProposalSpec(s: GovState, proposer: Address, id: u32): Outcome<GovState> {
    var p :- RequireProposal(s, id);
    if p.proposer != proposer then Err(NotProposer)
    else if p.status != Active then Err(NotActive)
    else if p.totalVoters > 0 then Err(HasVotes)
    else Ok(s.(proposals := s.proposals[id := p.(status := Cancelled)]))
  }

  /** A vote adds its weight to one tally. */
  function Counted(p: Proposal, choice: VoteChoice, weight: i128): Outcome<Proposal> {
    var yes :- CheckedI128(p.yes + (if choice == Approve then weight else 0), Overflow);
    var no :- CheckedI128(p.no + (if choice == Reject then weight else 0), Overflow);
    if p.totalVoters == U32_MAX then Err(Overflow)
    else Ok(p.(yes := yes, no := no, totalVoters := p.totalVoters + 1))
  }

  /** The first time the quorum is met it is marked and announced. */
  function MarkQuorum(s: GovState, p: Proposal, total: i128, threshold: i128): Outcome<GovState> {
    if p.id in s.quorumReached then Ok(s)
    else
      var bps :- if total > 0 then ApprovalBps(p.yes, total) else Ok(0);
      Ok(s.(quorumReached := s.quorumReached + {p.id},
            quorumEvents := s.quorumEvents + [QuorumEvent(p.id, total, threshold, bps)]))
  }

  /** Settles a freshly counted proposal and stores it. */
  function SettleSpec(s: GovState, id: u32, p: Proposal): Outcome<GovState> {
    var config :- RequireConfig(s);
    var total :- CheckedI128(p.yes + p.no, Overflow);
    var threshold :- Threshold(config, PastSupply(s, p.snapshotLedger));
    if total < threshold then Ok(s.(proposals := s.proposals[id := p]))
    else
      var marked :- MarkQuorum(s, p, total, threshold);
      var status :- Decide(config, threshold, p.yes, total);
      Ok(marked.(proposals := s.proposals[id := p.(status := status)]))
  }

  /** The proposal a voter may still vote on and the weight the vote would have. */
  function Ballot(s: GovState, voter: Address, id: u32): Outcome<(Proposal, i128)> {
    var p :- RequireProposal(s, id);
    if p.status != Active then Err(NotActive)
    else if s.ledger > p.endLedger then Err(VotingEnded)
    else if (id, voter) in s.votes then Err(AlreadyVoted)
    else if VoteWeight(s, voter, p.snapshotLedger) <= 0 then Err(NoVotingPower)
    else Ok((p, VoteWeight(s, voter, p.snapshotLedger)))
  }

  function CastVoteSpec(s: GovState, paused: bool, voter: Address, id: u32, choice: VoteChoice): Outcome<GovState> {
    if paused then Err(DomainPaused)
    else
      var (p, weight) :- Ballot(s, voter, id);
      var counted :- Counted(p, choice, weight);
      var recorded := s.(votes := s.votes[(id, voter) := Vote(voter, choice, weight, s.timestamp)]);
      SettleSpec(recorded, id, counted)
  }

  function FinalizeProposalSpec(s: GovState, id: u32): Outcome<GovState> {
    var p :- RequireProposal(s, id);
    if p.status != Active then Err(NotActive)
    else if s.ledger <= p.endLedger then Err(VotingOpen)
    else
      var status :- FinalStatus(s, p);
      Ok(s.(proposals := s.proposals[id := p.(status := status)]))
  }

  /** The configuration after a proposal's action ran. */
  function DispatchSpec(s: GovState, action: Option<ProposalAction>, callSucceeds: bool)
    : Outcome<Option<GovernanceConfig>>
  {
    match action
    case None => Ok(s.config)
    case Some(ReplaceConfig(quorum, consensus, period)) =>
      if quorum <= 0 then Err(QuorumNotPositive)
      else if consensus <= 0 || consensus > 10_000 then Err(ConsensusOutOfRange)
      else if period == 0 then Err(PeriodNotPositive)
      else
        var config :- RequireConfig(s);
        Ok(Some(config.(quorumThreshold := quorum, consensusThreshold := consensus, votingPeriod := period)))
    case Some(_) => if callSucceeds then Ok(s.config) else Err(CallFailed)
  }

  function ExecuteProposalSpec(s: GovState, id: u32, callSucceeds: bool): Outcome<GovState> {
    var p :- RequireProposal(s, id);
    if p.status != Approved then Err(NotApproved)
    else
      var config :- DispatchSpec(s, p.action, callSucceeds);
      Ok(s.(config := config, proposals := s.proposals[id := p.(status := Executed)]))
  }

  function CheckConfig(config: GovernanceConfig): Outcome<()> {
    if config.quorumBps.Some? && (config.quorumBps.value == 0 || config.quorumBps.value > 10_000) then
      Err(BpsOutOfRange)
    else if config.quorumBps.Some? && config.quorumThreshold < 0 then Err(QuorumNegative)
    else if config.quorumBps.None? && config.quorumThreshold <= 0 then Err(QuorumNotPositive)
    else if config.consensusThreshold <= 0 || config.consensusThreshold > 10_000 then Err(ConsensusOutOfRange)
    else if config.votingPeriod == 0 then Err(PeriodNotPositive)
    else if config.snapshotOffset.GetOr(0) > MAX_SNAPSHOT_OFFSET_LEDGERS then Err(OffsetTooLarge)
    else Ok(())
  }

  function UpdateConfigSpec(s: GovState, paused: bool, admin: Address, config: GovernanceConfig): Outcome<GovState> {
    if paused then Err(DomainPaused)
    else
      var _ :- RequireAdmin(s, admin);
      var _ :- CheckConfig(config);
      var _ :- RequireConfig(s);
      Ok(s.(config := Some(config)))
  }

  function CacheTokenBalanceSpec(s: GovState, paused: bool, admin: Address, ledger: u32, address: Address,
                                 balance: i128)
    : Outcome<GovState>
  {
    if paused then Err(DomainPaused)
    else
      var _ :- RequireAdmin(s, admin);
      if balance < 0 then Err(NegativeBalance)
      else Ok(s.(cached := s.cached[(ledger, address) := balance]))
  }

  function DelegateSpec(s: GovState, paused: bool, delegator: Address, delegatee: Address): Outcome<GovState> {
    if paused then Err(DomainPaused)
    else Ok(s.(delegation := s.delegation[delegator := delegatee]))
  }

  /** Recording at `ledger`; a new checkpoint's count must still be a u32. */
  function CheckedRecord(h: History, ledger: u32, votes: i128): Outcome<History> {
    if !Overwrites(h, ledger) && |h| >= U32_MAX then Err(Overflow) else Ok(Record(h, ledger, votes))
  }

  /** How much the admin's new balance moves the account's power. */
  function PowerDelta(s: GovState, admin: Address, account: Address, balance: i128): Outcome<i128> {
    var _ :- RequireAdmin(s, admin);
    CheckedI128(balance - Latest(HistoryOf(s, account)), Overflow)
  }

  /** The supply history after the power of one account moved. */
  function MovedSupply(supply: History, ledger: u32, delta: i128): Outcome<History> {
    var total :- CheckedI128(Latest(supply) + delta, Overflow);
    CheckedRecord(supply, ledger, total)
  }

  function UpdateVotingPowerSpec(s: GovState, paused: bool, admin: Address, account: Address, balance: i128)
    : Outcome<GovState>
  {
    if paused then Err(DomainPaused)
    else
      var delta :- PowerDelta(s, admin, account, balance);
      var history :- CheckedRecord(HistoryOf(s, account), s.ledger, balance);
      var supply :- MovedSupply(s.supply, s.ledger, delta);
      Ok(s.(histories := s.histories[account := history], supply := supply))
  }

  /** `caller` signs a step of the transfer of the admin role. */
  function ProposeAdminSpec(s: GovState, paused: bool, caller: Address, nominee: Address): Outcome<GovState> {
    if paused then Err(DomainPaused)
    else
      var _ :- RequireAdmin(s, caller);
      Ok(s.(pending := Some(nominee)))
  }

  function AcceptAdminSpec(s: GovState, caller: Address): Outcome<GovState> {
    if s.pending.None? then Err(NoPendingAdmin)
    else if s.pending.value != caller then Err(Unauthorized)
    else Ok(s.(admin := s.pending, pending := None))
  }

  function CancelAdminTransferSpec(s: GovState, caller: Address): Outcome<GovState> {
    var _ :- RequireAdmin(s, caller);
    if s.pending.None? then Err(NoPendingAdmin) else Ok(s.(pending := None))
  }

  /** Ledgers close: sequence and time never go back and stay in range. */
  function TickSpec(s: GovState, ledgers: nat, seconds: nat): Outcome<GovState> {
    if s.ledger + ledgers > U32_MAX || s.timestamp + seconds > U64_MAX then Err(Overflow)
    else Ok(s.(ledger := s.ledger + ledgers, timestamp := s.timestamp + seconds))
  }

  // ---------- runs ----------

  function Call(s: GovState, op: Op): Outcome<GovState> {
    match op
    case Tick(ledgers, seconds) => TickSpec(s, ledgers, seconds)
    case Initialize(admin, token, quorum, consensus, period) =>
      InitializeSpec(s, admin, token, quorum, consensus, period)
    case CreateProposal(paused, proposer, talosId, title, description, registryAccepts, action) =>
      CreateProposalSpec(s, paused, proposer, talosId, title, description, registryAccepts, action)
    case CancelProposal(proposer, id) => CancelProposalSpec(s, proposer, id)
    case CastVote(paused, voter, id, choice) => CastVoteSpec(s, paused, voter, id, choice)
    case FinalizeProposal(id) => FinalizeProposalSpec(s, id)
    case ExecuteProposal(id, callSucceeds) => ExecuteProposalSpec(s, id, callSucceeds)
    case UpdateConfig(paused, admin, config) => UpdateConfigSpec(s, paused, admin, config)
    case CacheTokenBalance(paused, admin, ledger, address, balance) =>
      CacheTokenBalanceSpec(s, paused, admin, ledger, address, balance)
    case Delegate(paused, delegator, delegatee) => DelegateSpec(s, paused, delegator, delegatee)
    case UpdateVotingPower(paused, admin, account, balance) =>
      UpdateVotingPowerSpec(s, paused, admin, account, balance)
    case ProposeAdmin(paused, caller, nominee) => ProposeAdminSpec(s, paused, caller, nominee)
    case AcceptAdmin(caller) => AcceptAdminSpec(s, caller)
    case CancelAdminTransfer(caller) => CancelAdminTransferSpec(s, caller)
  }

  /** A failed invocation is rolled back. */
  function After(s: GovState, op: Op): GovState {
    match Call(s, op)
    case Ok(t) => t
    case Err(_) => s
  }

  function RunFrom(s: GovState, ops: seq<Op>): GovState {
    if |ops| == 0 then s else After(RunFrom(s, ops[..|ops| - 1]), ops[|ops| - 1])
  }

  function Run(ops: seq<Op>): GovState {
    RunFrom(DEPLOYED, ops)
  }

  lemma RunSnoc(ops: seq<Op>, op: Op)
    ensures Run(ops + [op]) == After(Run(ops), op)
  {
    assert (ops + [op])[..|ops|] == ops;
  }
}
