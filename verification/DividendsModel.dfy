/** The dividend contract as a state machine on values. */
module DividendsModel {
  import opened Common

  const MIN_EXPIRY_SECS: u64 := 3_600
  const MAX_EXPIRY_SECS: u64 := 31_536_000
  const MIN_EPOCH_AMOUNT: i128 := 1

  datatype PatronRole = Creator | Investor | Treasury

  datatype EpochStatus = Active | Expired | Recovered

  datatype EpochRecord = EpochRecord(
    epochId: u64, talosId: u32, total: i128, claimed: i128, createdAt: u64, expirySecs: u64, status: EpochStatus)

  /** The patron data a claimant supplies. */
  datatype Split = Split(
    creator: Address, investor: Address, treasury: Address,
    creatorShare: u32, investorShare: u32, treasuryShare: u32)

  /** `div_clm` and `ep_rcv` events. */
  datatype ClaimEvent = ClaimEvent(talosId: u32, epochId: u64, patron: Address, amount: i128, role: PatronRole)
  datatype RecoveryEvent = RecoveryEvent(talosId: u32, epochId: u64, amount: i128)

  datatype Error =
    | AlreadyInitialized | NotInitialized | Unauthorized | EpochNotFound | AlreadyClaimed | EpochExpired
    | EpochNotExpired | ZeroAllocation | InvalidEpochParams | NotAPatron | Overflow | EpochAlreadyExists
    | AccountingOverflow | AlreadyRecovered | InvalidPatronShares | InconsistentShareData | NoPendingAdmin | Trap

  type Outcome<+T> = Result<T, Error>

  datatype State = State(
    now: u64,
    admin: Option<Address>,
    pending: Option<Address>,
    epochs: map<(u32, u64), EpochRecord>,
    claimed: set<(u64, Address)>,
    dust: map<(u32, u64), i128>,
    nextEpochId: map<u32, u64>,
    claims: seq<ClaimEvent>,
    recoveries: seq<RecoveryEvent>)

  const DEPLOYED := State(0, None, None, map[], {}, map[], map[], [], [])

  /** One invocation; `admin`, `claimant` and `caller` are the addresses that signed it. */
  datatype Op =
    | Tick(seconds: nat)
    | Initialize(admin: Address)
    | CommitEpoch(admin: Address, talosId: u32, total: i128, expirySecs: u64)
    | ClaimDividend(claimant: Address, talosId: u32, epochId: u64, split: Split)
    | RecoverExpired(admin: Address, talosId: u32, epochId: u64)
    | ProposeAdmin(caller: Address, nominee: Address)
    | AcceptAdmin(caller: Address)
    | CancelAdminTransfer(caller: Address)

  /** A percentage share, rounded toward zero. */
  function Portion(total: i128, share: u32): Outcome<i128> {
    var numerator :- CheckedI128(total * share, Overflow);
    Ok(TruncDiv(numerator, 100))
  }

  function Allocation(total: i128, share: u32): Outcome<i128> {
    var portion :- Portion(total, share);
    if portion <= 0 then Err(ZeroAllocation) else Ok(portion)
  }

  function RoundingDust(total: i128, split: Split): Outcome<i128> {
    var creator :- Portion(total, split.creatorShare);
    var investor :- Portion(total, split.investorShare);
    var treasury :- Portion(total, split.treasuryShare);
    var two :- CheckedI128(creator + investor, Overflow);
    var distributed :- CheckedI128(two + treasury, Overflow);
    CheckedI128(total - distributed, Overflow)
  }

  function RequireAdmin(s: State, admin: Address): Outcome<()> {
    match s.admin
    case None => Err(NotInitialized)
    case Some(a) => if a == admin then Ok(()) else Err(Unauthorized)
  }

  function NextEpoch(s: State, talosId: u32): u64 {
    if talosId in s.nextEpochId then s.nextEpochId[talosId] else 1
  }

  function Deadline(record: EpochRecord): Outcome<u64> {
    if record.createdAt + record.expirySecs > U64_MAX then Err(Overflow) else Ok(record.createdAt + record.expirySecs)
  }

  function TickSpec(s: State, seconds: nat): Outcome<State> {
    if s.now + seconds > U64_MAX then Err(Trap) else Ok(s.(now := s.now + seconds))
  }

  function InitializeSpec(s: State, admin: Address): Outcome<State> {
    if s.admin.Some? then Err(AlreadyInitialized) else Ok(s.(admin := Some(admin)))
  }

  function CommitEpochSpec(s: State, admin: Address, talosId: u32, total: i128, expirySecs: u64)
    : Outcome<(State, u64)>
  {
    var _ :- RequireAdmin(s, admin);
    if total < MIN_EPOCH_AMOUNT || expirySecs < MIN_EXPIRY_SECS || expirySecs > MAX_EXPIRY_SECS then
      Err(InvalidEpochParams)
    else
      var id := NextEpoch(s, talosId);
      if (talosId, id) in s.epochs then Err(EpochAlreadyExists)
      else if id == U64_MAX then Err(Trap)
      else
        var record := EpochRecord(id, talosId, total, 0, s.now, expirySecs, Active);
        Ok((s.(epochs := s.epochs[(talosId, id) := record], nextEpochId := s.nextEpochId[talosId := id + 1]), id))
  }

  function CheckShares(split: Split): Outcome<()> {
    if split.creatorShare + split.investorShare + split.treasuryShare > U32_MAX then Err(Overflow)
    else if split.creatorShare + split.investorShare + split.treasuryShare != 100 then Err(InvalidPatronShares)
    else Ok(())
  }

  function RoleOf(claimant: Address, split: Split): Outcome<(PatronRole, u32)> {
    if claimant == split.creator then Ok((Creator, split.creatorShare))
    else if claimant == split.investor then Ok((Investor, split.investorShare))
    else if claimant == split.treasury then Ok((Treasury, split.treasuryShare))
    else Err(NotAPatron)
  }

  /** The epoch while its claims are open. */
  function OpenEpoch(s: State, talosId: u32, epochId: u64): Outcome<EpochRecord> {
    if (talosId, epochId) !in s.epochs then Err(EpochNotFound)
    else
      var record := s.epochs[(talosId, epochId)];
      if record.status != Active then Err(EpochExpired)
      else
        var deadline :- Deadline(record);
        if s.now > deadline then Err(EpochExpired) else Ok(record)
  }

  /** The dust of the epoch's split is recorded once and must agree from then on. */
  function RecordDust(s: State, talosId: u32, epochId: u64, dust: i128): Outcome<map<(u32, u64), i128>> {
    if (talosId, epochId) in s.dust && s.dust[(talosId, epochId)] != dust then Err(InconsistentShareData)
    else Ok(s.dust[(talosId, epochId) := dust])
  }

  /** Records the dust and adds the claim to its epoch's books, within the total. */
  function BookClaim(s: State, record: EpochRecord, claim: ClaimEvent, dust: i128): Outcome<State> {
    var key := (claim.talosId, claim.epochId);
    var recorded :- RecordDust(s, claim.talosId, claim.epochId, dust);
    var claimed :- CheckedI128(record.claimed + claim.amount, Overflow);
    if claimed > record.total then Err(AccountingOverflow)
    else
      Ok(s.(epochs := s.epochs[key := record.(claimed := claimed)],
            claimed := s.claimed + {(claim.epochId, claim.patron)},
            dust := recorded,
            claims := s.claims + [claim]))
  }

  function ClaimDividendSpec(s: State, claimant: Address, talosId: u32, epochId: u64, split: Split)
    : Outcome<(State, i128)>
  {
    var record :- OpenEpoch(s, talosId, epochId);
    var _ :- CheckShares(split);
    var role :- RoleOf(claimant, split);
    if (epochId, claimant) in s.claimed then Err(AlreadyClaimed)
    else
      var allocation :- Allocation(record.total, role.1);
      var dust :- RoundingDust(record.total, split);
      var t :- BookClaim(s, record, ClaimEvent(talosId, epochId, claimant, allocation, role.0), dust);
      Ok((t, allocation))
  }

  function RecoverExpiredSpec(s: State, admin: Address, talosId: u32, epochId: u64): Outcome<(State, i128)> {
    var _ :- RequireAdmin(s, admin);
    if (talosId, epochId) !in s.epochs then Err(EpochNotFound)
    else
      var record := s.epochs[(talosId, epochId)];
      if record.status == Recovered then Err(AlreadyRecovered)
      else
        var deadline :- Deadline(record);
        if s.now <= deadline then Err(EpochNotExpired)
        else
          var unclaimed :- CheckedI128(record.total - record.claimed, Overflow);
          Ok((s.(epochs := s.epochs[(talosId, epochId) := record.(status := Recovered)],
                 recoveries := s.recoveries + [RecoveryEvent(talosId, epochId, unclaimed)]),
              unclaimed))
  }

  /** The stored admin signs; without its signature the host traps. */
  function ProposeAdminSpec(s: State, caller: Address, nominee: Address): Outcome<State> {
    if s.admin.None? then Err(NotInitialized)
    else if s.admin.value != caller then Err(Trap)
    else Ok(s.(pending := Some(nominee)))
  }

  function AcceptAdminSpec(s: State, caller: Address): Outcome<State> {
    if s.pending.None? then Err(NoPendingAdmin)
    else if s.pending.value != caller then Err(Trap)
    else Ok(s.(admin := s.pending, pending := None))
  }

  function CancelAdminTransferSpec(s: State, caller: Address): Outcome<State> {
    if s.admin.None? then Err(NotInitialized)
    else if s.admin.value != caller then Err(Trap)
    else if s.pending.None? then Err(NoPendingAdmin)
    else Ok(s.(pending := None))
  }

  function State0<T>(r: Outcome<(State, T)>): Outcome<State> {
    match r
    case Ok(p) => Ok(p.0)
    case Err(e) => Err(e)
  }

  function Call(s: State, op: Op): Outcome<State> {
    match op
    case Tick(seconds) => TickSpec(s, seconds)
    case Initialize(admin) => InitializeSpec(s, admin)
    case CommitEpoch(admin, talosId, total, expirySecs) => State0(CommitEpochSpec(s, admin, talosId, total, expirySecs))
    case ClaimDividend(claimant, talosId, epochId, split) =>
      State0(ClaimDividendSpec(s, claimant, talosId, epochId, split))
    case RecoverExpired(admin, talosId, epochId) => State0(RecoverExpiredSpec(s, admin, talosId, epochId))
    case ProposeAdmin(caller, nominee) => ProposeAdminSpec(s, caller, nominee)
    case AcceptAdmin(caller) => AcceptAdminSpec(s, caller)
    case CancelAdminTransfer(caller) => CancelAdminTransferSpec(s, caller)
  }

  /** A failed invocation is rolled back. */
  function After(s: State, op: Op): State {
    match Call(s, op)
    case Ok(t) => t
    case Err(_) => s
  }

  function RunFrom(s: State, ops: seq<Op>): State {
    if |ops| == 0 then s else After(RunFrom(s, ops[..|ops| - 1]), ops[|ops| - 1])
  }

  function Run(ops: seq<Op>): State {
    RunFrom(DEPLOYED, ops)
  }

  lemma RunSnoc(ops: seq<Op>, op: Op)
    ensures Run(ops + [op]) == After(Run(ops), op)
  {
    assert (ops + [op])[..|ops|] == ops;
  }
}
