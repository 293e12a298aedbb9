/** The storage-migration framework as a state machine on values: lock, version and history. */
module MigrationModel {
  import opened Common

  datatype MigrationError = NotForward | OutOfOrder | MigrationInProgress | RollbackNotAllowed | RollbackTooDeep
                          | TargetExceedsMax {
    /** The stable numeric code. */
    function Code(): u32 {
      match this
      case NotForward => 1
      case OutOfOrder => 2
      case MigrationInProgress => 3
      case RollbackNotAllowed => 4
      case RollbackTooDeep => 5
      case TargetExceedsMax => 6
    }

    static function FromCode(code: u32): Option<MigrationError> {
      match code
      case 1 => Some(NotForward)
      case 2 => Some(OutOfOrder)
      case 3 => Some(MigrationInProgress)
      case 4 => Some(RollbackNotAllowed)
      case 5 => Some(RollbackTooDeep)
      case 6 => Some(TargetExceedsMax)
      case _ => None
    }
  }

  /** A typed error, or a panic that traps the host. */
  datatype Failure = Rejected(error: MigrationError) | VersionMismatch | NotLocked | NotAhead | Overflow

  type Outcome<+T> = Result<T, Failure>

  datatype MigrationRecord = MigrationRecord(from: u32, to: u32, appliedAt: u64, rolledBack: bool)

  datatype State = State(now: u64, version: Option<u32>, locked: bool, history: seq<MigrationRecord>)

  const FRESH := State(0, None, false, [])

  datatype Op =
    | Tick(seconds: nat)
    | InitializeSchema(genesis: u32)
    | Begin(current: u32, from: u32, to: u32)
    | Complete(from: u32, to: u32)
    | Abort
    | Rollback(current: u32, target: u32, maxDepth: u32)

  datatype DryRun = DryRun(
    currentVersion: u32, targetVersion: u32, steps: u32, upToDate: bool, locked: bool, applicable: bool,
    errorCode: Option<u32>)

  // ---------- pure validation ----------

  function ValidateForwardStep(current: u32, from: u32, to: u32): Result<(), MigrationError> {
    if to <= from then Err(NotForward)
    else if current != from then Err(OutOfOrder)
    else Ok(())
  }

  function ValidateRollback(current: u32, target: u32, maxDepth: u32): Result<(), MigrationError> {
    if target >= current then Err(RollbackNotAllowed)
    else if current - target > maxDepth then Err(RollbackTooDeep)
    else Ok(())
  }

  function ValidateTarget(current: u32, target: u32, maxSupported: u32): Result<(), MigrationError> {
    if target < current then Err(NotForward)
    else if target > maxSupported then Err(TargetExceedsMax)
    else Ok(())
  }

  function Reject(r: Result<(), MigrationError>): Outcome<()> {
    match r
    case Ok(_) => Ok(())
    case Err(e) => Err(Rejected(e))
  }

  // ---------- steps ----------

  function Appended(s: State, from: u32, to: u32, rolledBack: bool): Outcome<State> {
    if |s.history| >= U32_MAX then Err(Overflow)
    else Ok(s.(history := s.history + [MigrationRecord(from, to, s.now, rolledBack)]))
  }

  function TickSpec(s: State, seconds: nat): Outcome<State> {
    if s.now + seconds > U64_MAX then Err(Overflow) else Ok(s.(now := s.now + seconds))
  }

  function InitializeSchemaSpec(s: State, genesis: u32): Outcome<State> {
    if s.version.Some? then Ok(s) else Appended(s.(version := Some(genesis)), genesis, genesis, false)
  }

  function BeginSpec(s: State, current: u32, from: u32, to: u32): Outcome<State> {
    var stored := s.version.GetOr(current);
    if stored != current then Err(Rejected(OutOfOrder))
    else
      var _ :- Reject(ValidateForwardStep(stored, from, to));
      if s.locked then Err(Rejected(MigrationInProgress)) else Ok(s.(locked := true))
  }

  function CompleteSpec(s: State, from: u32, to: u32): Outcome<State> {
    if s.version.GetOr(from) != from then Err(VersionMismatch)
    else if !s.locked then Err(NotLocked)
    else if to <= from then Err(NotAhead)
    else Appended(s.(version := Some(to), locked := false), from, to, false)
  }

  function AbortSpec(s: State): Outcome<State> {
    Ok(s.(locked := false))
  }

  function RollbackSpec(s: State, current: u32, target: u32, maxDepth: u32): Outcome<State> {
    var stored := s.version.GetOr(current);
    if stored != current then Err(Rejected(OutOfOrder))
    else
      var _ :- Reject(ValidateRollback(stored, target, maxDepth));
      if s.locked then Err(Rejected(MigrationInProgress))
      else Appended(s.(version := Some(target)), stored, target, true)
  }

  // ---------- dry runs ----------

  /** A plan that stops before the lock is looked at. */
  function Stopped(s: State, stored: u32, target: u32, error: Option<MigrationError>): DryRun {
    DryRun(stored, target, 0, error.None?, s.locked, error.None?,
           match error case None => None case Some(e) => Some(e.Code()))
  }

  /** A plan that passed or failed `check`, then needs the lock free. */
  function Planned(s: State, stored: u32, target: u32, check: Result<(), MigrationError>, steps: u32,
                   stepsOnError: u32): DryRun
  {
    var error := if check.Err? then Some(check.error) else if s.locked then Some(MigrationInProgress) else None;
    DryRun(stored, target, if error.None? then steps else stepsOnError, false, s.locked, error.None?,
           match error case None => None case Some(e) => Some(e.Code()))
  }

  function DryRunSpec(s: State, current: u32, from: u32, to: u32): DryRun {
    var stored := s.version.GetOr(current);
    if stored != current then Stopped(s, stored, to, Some(OutOfOrder))
    else if stored == to then Stopped(s, stored, to, None)
    else Planned(s, stored, to, ValidateForwardStep(stored, from, to), 1, 1)
  }

  function DryRunToSpec(s: State, current: u32, target: u32, maxSupported: u32): DryRun {
    var stored := s.version.GetOr(current);
    if stored != current then Stopped(s, stored, target, Some(OutOfOrder))
    else if stored == target then Stopped(s, stored, target, None)
    else Planned(s, stored, target, ValidateTarget(stored, target, maxSupported), SaturatingSubU32(target, stored), 0)
  }

  // ---------- runs ----------

  function Call(s: State, op: Op): Outcome<State> {
    match op
    case Tick(seconds) => TickSpec(s, seconds)
    case InitializeSchema(genesis) => InitializeSchemaSpec(s, genesis)
    case Begin(current, from, to) => BeginSpec(s, current, from, to)
    case Complete(from, to) => CompleteSpec(s, from, to)
    case Abort => AbortSpec(s)
    case Rollback(current, target, maxDepth) => RollbackSpec(s, current, target, maxDepth)
  }

  /** A failed call leaves nothing behind. */
  function After(s: State, op: Op): State {
    match Call(s, op)
    case Ok(t) => t
    case Err(_) => s
  }

  function RunFrom(s: State, ops: seq<Op>): State {
    if |ops| == 0 then s else After(RunFrom(s, ops[..|ops| - 1]), ops[|ops| - 1])
  }

  function Run(ops: seq<Op>): State {
    RunFrom(FRESH, ops)
  }

  lemma RunSnoc(ops: seq<Op>, op: Op)
    ensures Run(ops + [op]) == After(Run(ops), op)
  {
    assert (ops + [op])[..|ops|] == ops;
  }
}
