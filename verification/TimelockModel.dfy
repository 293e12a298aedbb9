/** The name service's timelock as a state machine on values, and what it keeps over runs. */
module TimelockModel {
  import opened Common

  const DEFAULT_GRACE_PERIOD: u64 := 604_800
  const MAX_MIN_DELAY: u64 := 2_592_000

  datatype AdminAction = SetRegistryContract(registry: Address) | SetAdmin(admin: Address)

  datatype ProposalStatus = Scheduled | Executed | Cancelled

  datatype TimelockProposal = TimelockProposal(
    id: u64, action: AdminAction, eta: u64, status: ProposalStatus, scheduledAt: u64, scheduledBy: Address)

  datatype TimelockConfig = TimelockConfig(minDelay: u64, gracePeriod: u64)

  datatype Error =
    | DomainPaused | AlreadyInitialized | FeeNegative | AdminMissing | Unauthorized | TimelockEnabled | RegistryMissing
    | GraceNotPositive | DelayTooLarge | DelayTooShort | NotFound | NotActive | DelayNotMet | Lapsed | Overflow

  type Outcome<+T> = Result<T, Error>

  datatype State = State(
    now: u64,
    admin: Option<Address>,
    registry: Option<Address>,
    config: Option<TimelockConfig>,
    proposals: map<u64, TimelockProposal>,
    nextId: u64)

  const DEPLOYED := State(0, None, None, None, map[], 1)

  /** `caller` is the address that signed the invocation. */
  datatype Op =
    | Tick(seconds: nat)
    | Initialize(registry: Address, admin: Address, fee: i128)
    | ReplaceAdmin(paused: bool, caller: Address, admin: Address)
    | ReplaceRegistry(paused: bool, caller: Address, registry: Address)
    | SetTimelockConfig(paused: bool, caller: Address, minDelay: u64, gracePeriod: u64)
    | Schedule(paused: bool, caller: Address, action: AdminAction, delay: u64)
    | Execute(id: u64)
    | Cancel(paused: bool, caller: Address, id: u64)

  function ConfigOf(s: State): TimelockConfig {
    s.config.GetOr(TimelockConfig(0, DEFAULT_GRACE_PERIOD))
  }

  function RequireAdmin(s: State, paused: bool, caller: Address): Outcome<Address> {
    if paused then Err(DomainPaused)
    else
      match s.admin
      case None => Err(AdminMissing)
      case Some(a) => if a == caller then Ok(a) else Err(Unauthorized)
  }

  function TickSpec(s: State, seconds: nat): Outcome<State> {
    if s.now + seconds > U64_MAX then Err(Overflow) else Ok(s.(now := s.now + seconds))
  }

  function InitializeSpec(s: State, registry: Address, admin: Address, fee: i128): Outcome<State> {
    if s.registry.Some? then Err(AlreadyInitialized)
    else if fee < 0 then Err(FeeNegative)
    else Ok(s.(registry := Some(registry), admin := Some(admin)))
  }

  function ReplaceAdminSpec(s: State, paused: bool, caller: Address, admin: Address): Outcome<State> {
    if paused then Err(DomainPaused)
    else if s.admin.Some? && s.admin.value != caller then Err(Unauthorized)
    else Ok(s.(admin := Some(admin)))
  }

  function ReplaceRegistrySpec(s: State, paused: bool, caller: Address, registry: Address): Outcome<State> {
    var _ :- RequireAdmin(s, paused, caller);
    if ConfigOf(s).minDelay > 0 then Err(TimelockEnabled)
    else if s.registry.None? then Err(RegistryMissing)
    else Ok(s.(registry := Some(registry)))
  }

  function SetTimelockConfigSpec(s: State, paused: bool, caller: Address, minDelay: u64, gracePeriod: u64)
    : Outcome<State>
  {
    var _ :- RequireAdmin(s, paused, caller);
    if gracePeriod == 0 then Err(GraceNotPositive)
    else if minDelay > MAX_MIN_DELAY then Err(DelayTooLarge)
    else Ok(s.(config := Some(TimelockConfig(minDelay, gracePeriod))))
  }

  function ScheduleSpec(s: State, paused: bool, caller: Address, action: AdminAction, delay: u64): Outcome<State> {
    var admin :- RequireAdmin(s, paused, caller);
    if delay < ConfigOf(s).minDelay then Err(DelayTooShort)
    else if s.nextId == U64_MAX then Err(Overflow)
    else
      var p := TimelockProposal(s.nextId, action, SaturatingAddU64(s.now, delay), Scheduled, s.now, admin);
      Ok(s.(proposals := s.proposals[s.nextId := p], nextId := s.nextId + 1))
  }

  function Apply(s: State, action: AdminAction): Outcome<State> {
    match action
    case SetRegistryContract(registry) =>
      if s.registry.None? then Err(RegistryMissing) else Ok(s.(registry := Some(registry)))
    case SetAdmin(admin) => Ok(s.(admin := Some(admin)))
  }

  function ExecuteSpec(s: State, id: u64): Outcome<State> {
    if id !in s.proposals then Err(NotFound)
    else
      var p := s.proposals[id];
      if p.status != Scheduled then Err(NotActive)
      else if s.now < p.eta then Err(DelayNotMet)
      else if s.now > SaturatingAddU64(p.eta, ConfigOf(s).gracePeriod) then Err(Lapsed)
      else
        var applied :- Apply(s, p.action);
        Ok(applied.(proposals := s.proposals[id := p.(status := Executed)]))
  }

  function CancelSpec(s: State, paused: bool, caller: Address, id: u64): Outcome<State> {
    var _ :- RequireAdmin(s, paused, caller);
    if id !in s.proposals then Err(NotFound)
    else if s.proposals[id].status != Scheduled then Err(NotActive)
    else Ok(s.(proposals := s.proposals[id := s.proposals[id].(status := Cancelled)]))
  }

  function Call(s: State, op: Op): Outcome<State> {
    match op
    case Tick(seconds) => TickSpec(s, seconds)
    case Initialize(registry, admin, fee) => InitializeSpec(s, registry, admin, fee)
    case ReplaceAdmin(paused, caller, admin) => ReplaceAdminSpec(s, paused, caller, admin)
    case ReplaceRegistry(paused, caller, registry) => ReplaceRegistrySpec(s, paused, caller, registry)
    case SetTimelockConfig(paused, caller, minDelay, gracePeriod) =>
      SetTimelockConfigSpec(s, paused, caller, minDelay, gracePeriod)
    case Schedule(paused, caller, action, delay) => ScheduleSpec(s, paused, caller, action, delay)
    case Execute(id) => ExecuteSpec(s, id)
    case Cancel(paused, caller, id) => CancelSpec(s, paused, caller, id)
  }

  /** A failed invocation is rolled back. */
  function After(s: State, op: Op): State {
    match Call(s, op)
    case Ok(t) => t
    case Err(_) => s
  }

  function RunFrom(s: State, ops: seq<Op>): State {
    if |ops| == 0 then s else After(RunFrom(s, ops[..|ops| - 1]), ops[|ops| - 1])
  }

  function Run(ops: seq<Op>): State {
    RunFrom(DEPLOYED, ops)
  }

  lemma RunSnoc(ops: seq<Op>, op: Op)
    ensures Run(ops + [op]) == After(Run(ops), op)
  {
    assert (ops + [op])[..|ops|] == ops;
  }

  // ---------- what every step keeps ----------

  ghost predicate Inv(s: State) {
    && 1 <= s.nextId
    && (forall id :: id in s.proposals <==> 1 <= id < s.nextId)
    && forall id :: id in s.proposals ==> s.proposals[id].id == id && s.proposals[id].scheduledAt <= s.now
  }

  /** A proposal keeps its terms and leaves `Scheduled` at most once. */
  predicate Advances(p: TimelockProposal, q: TimelockProposal) {
    q == p.(status := q.status) && (p.status != Scheduled ==> q == p)
  }

  lemma StepKeeps(s: State, op: Op)
    requires Inv(s)
    ensures var t := After(s, op);
            && Inv(t) && s.now <= t.now
            && forall id :: id in s.proposals ==> id in t.proposals && Advances(s.proposals[id], t.proposals[id])
  {
  }

  lemma {:induction false} RunKeeps(s: State, ops: seq<Op>)
    requires Inv(s)
    ensures var t := RunFrom(s, ops);
            && Inv(t) && s.now <= t.now
            && forall id :: id in s.proposals ==> id in t.proposals && Advances(s.proposals[id], t.proposals[id])
    decreases |ops|
  {
    hide After;
    if |ops| > 0 {
      RunKeeps(s, ops[..|ops| - 1]);
      StepKeeps(RunFrom(s, ops[..|ops| - 1]), ops[|ops| - 1]);
    }
  }

  // ---------- executions ----------

  ghost function Executions(ops: seq<Op>, id: u64): nat {
    if |ops| == 0 then 0
    else
      var front, op := ops[..|ops| - 1], ops[|ops| - 1];
      Executions(front, id) + (if op == Execute(id) && Call(Run(front), op).Ok? then 1 else 0)
  }

  ghost predicate IsExecuted(s: State, id: u64) {
    id in s.proposals && s.proposals[id].status == Executed
  }

  lemma ExecutionStep(s: State, op: Op, id: u64)
    requires Inv(s)
    ensures var runs := op == Execute(id) && Call(s, op).Ok?;
            && (runs ==> !IsExecuted(s, id) && IsExecuted(After(s, op), id))
            && (!runs ==> (IsExecuted(After(s, op), id) <==> IsExecuted(s, id)))
  {
  }

  /** A scheduled action is applied at most once, and once exactly when it is marked executed. */
  lemma {:induction false} AppliedAtMostOnce(ops: seq<Op>, id: u64)
    ensures Executions(ops, id) == if IsExecuted(Run(ops), id) then 1 else 0
    decreases |ops|
  {
    hide Call, Inv;
    if |ops| > 0 {
      AppliedAtMostOnce(ops[..|ops| - 1], id);
      assert Inv(DEPLOYED) by {
        FreshInv();
      }
      RunKeeps(DEPLOYED, ops[..|ops| - 1]);
      ExecutionStep(Run(ops[..|ops| - 1]), ops[|ops| - 1], id);
    }
  }

  lemma FreshInv()
    ensures Inv(DEPLOYED)
  {
  }

  /** Step `op` in `s` schedules proposal `id` as `p`. */
  ghost predicate Schedules(s: State, op: Op, id: u64, p: TimelockProposal) {
    && op.Schedule? && Call(s, op).Ok? && s.nextId == id
    && p == TimelockProposal(id, op.action, SaturatingAddU64(s.now, op.delay), Scheduled, s.now, op.caller)
    && ConfigOf(s).minDelay <= op.delay
  }

  lemma SchedulingStep(s: State, op: Op, id: u64)
    requires Inv(s) && id !in s.proposals && id in After(s, op).proposals
    ensures Schedules(s, op, id, After(s, op).proposals[id])
  {
  }

  /** Every proposal was scheduled by some earlier step, with the terms it still has. */
  lemma {:induction false} WasScheduled(ops: seq<Op>, id: u64) returns (k: nat)
    requires id in Run(ops).proposals
    ensures k < |ops| && Schedules(Run(ops[..k]), ops[k], id, Run(ops).proposals[id].(status := Scheduled))
    decreases |ops|
  {
    hide Call, Inv, Schedules;
    assert |ops| > 0;
    k := |ops| - 1;
    var s, op := Run(ops[..k]), ops[k];
    FreshInv();
    RunKeeps(DEPLOYED, ops[..k]);
    if id in s.proposals {
      var j := WasScheduled(ops[..k], id);
      assert ops[..k][..j] == ops[..j];
      StepKeeps(s, op);
      k := j;
    } else {
      SchedulingStep(s, op, id);
      SchedulesScheduled(s, op, id, Run(ops).proposals[id]);
    }
  }

  lemma SchedulesScheduled(s: State, op: Op, id: u64, p: TimelockProposal)
    requires Schedules(s, op, id, p)
    ensures p.status == Scheduled
  {
  }

  /** An action is applied inside its window and no sooner after its scheduling than the minimum
      delay of that time, unless the end of time is reached first; it sets the one address it was
      scheduled for and marks itself executed, and everything else stands. */
  lemma AppliedInWindow(ops: seq<Op>, id: u64) returns (k: nat)
    requires Call(Run(ops), Execute(id)).Ok?
    ensures var s := Run(ops);
            && id in s.proposals
            && s.proposals[id].eta <= s.now <= SaturatingAddU64(s.proposals[id].eta, ConfigOf(s).gracePeriod)
            && k < |ops| && Schedules(Run(ops[..k]), ops[k], id, s.proposals[id])
            && s.now >= SaturatingAddU64(Run(ops[..k]).now, ConfigOf(Run(ops[..k])).minDelay)
            && var t := s.(proposals := s.proposals[id := s.proposals[id].(status := Executed)]);
            Call(s, Execute(id)).value ==
               match ops[k].action
               case SetRegistryContract(registry) => t.(registry := Some(registry))
               case SetAdmin(admin) => t.(admin := Some(admin))
  {
    hide Run;
    k := WasScheduled(ops, id);
  }

  /** While the timelock is on, a configured registry changes only by applying an action that named
      the new registry and was scheduled long enough before. */
  lemma RegistryChangeWaits(ops: seq<Op>, op: Op) returns (k: nat)
    requires ConfigOf(Run(ops)).minDelay > 0 && Run(ops).registry.Some?
    requires After(Run(ops), op).registry != Run(ops).registry
    ensures k < |ops| && op.Execute?
    ensures var earlier := Run(ops[..k]);
            && ops[k].Schedule? && ops[k].action.SetRegistryContract?
            && After(Run(ops), op).registry == Some(ops[k].action.registry)
            && Run(ops).now >= SaturatingAddU64(earlier.now, ConfigOf(earlier).minDelay)
  {
    hide Run;
    assert op.Execute? && Call(Run(ops), op).Ok?;
    k := AppliedInWindow(ops, op.id);
    hide ConfigOf;
  }
}
