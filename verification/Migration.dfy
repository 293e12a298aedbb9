/** The storage-migration framework over its storage keys; each call does what `MigrationModel` says. */
module Migration {
  import opened Common
  import opened MigrationModel
  import opened MigrationRuns

  /** The records stored under the indices below `len`, oldest first. */
  function HistoryFrom(records: map<u32, MigrationRecord>, len: u32): seq<MigrationRecord> {
    seq(len, i requires 0 <= i < len => if i in records then records[i] else MigrationRecord(0, 0, 0, false))
  }

  class MigrationStore {
    var now: u64
    var schemaVersion: Option<u32>
    var migrationLock: Option<bool>
    var history: map<u32, MigrationRecord>
    var historyLen: u32
    ghost var trace: seq<Op>

    ghost function View(): State
      reads this
    {
      State(now, schemaVersion, migrationLock.GetOr(false), HistoryFrom(history, historyLen))
    }

    /** Indices are dense, and the store is where its calls so far have taken a fresh one. */
    ghost predicate Valid()
      reads this
    {
      (forall i: u32 :: i in history <==> i < historyLen) && View() == Run(trace)
    }

    constructor ()
      ensures Valid() && trace == []
    {
      now, schemaVersion, migrationLock := 0, None, None;
      history, historyLen, trace := map[], 0, [];
    }

    /** Adds a call to the trace; what it must lead to is then fixed. */
    ghost method Take(op: Op)
      requires Valid()
      modifies this`trace
      ensures trace == old(trace) + [op] && Run(trace) == After(View(), op)
    {
      trace := trace + [op];
      RunSnoc(old(trace), op);
    }

    method AdvanceTime(seconds: nat) returns (r: Outcome<()>)
      requires Valid()
      modifies this
      ensures Valid() && trace == old(trace) + [Tick(seconds)]
      ensures View() == After(old(View()), Tick(seconds))
      ensures r == ToUnit(Call(old(View()), Tick(seconds)))
    {
      hide Run;
      Take(Tick(seconds));
      if now + seconds > U64_MAX {
        return Err(Overflow);
      }
      now := now + seconds;
      return Ok(());
    }

    /** Writes the next history record; the caller's state must still be as it was on overflow. */
    method AppendHistory(from: u32, to: u32, rolledBack: bool) returns (r: Outcome<()>)
      requires forall i: u32 :: i in history <==> i < historyLen
      modifies this`history, this`historyLen
      ensures forall i: u32 :: i in history <==> i < historyLen
      ensures match Appended(old(View()), from, to, rolledBack)
              case Ok(t) => r == Ok(()) && View() == t
              case Err(e) => r == Err(e) && View() == old(View())
    {
      if historyLen == U32_MAX {
        return Err(Overflow);
      }
      ghost var before := HistoryFrom(history, historyLen);
      history := history[historyLen := MigrationRecord(from, to, now, rolledBack)];
      historyLen := historyLen + 1;
      assert HistoryFrom(history, historyLen) == before + [MigrationRecord(from, to, now, rolledBack)];
      return Ok(());
    }

    method InitializeSchema(genesis: u32) returns (r: Outcome<()>)
      requires Valid()
      modifies this
      ensures Valid() && trace == old(trace) + [Op.InitializeSchema(genesis)]
      ensures View() == After(old(View()), Op.InitializeSchema(genesis))
      ensures r == ToUnit(Call(old(View()), Op.InitializeSchema(genesis)))
    {
      hide Run, HistoryFrom;
      Take(Op.InitializeSchema(genesis));
      if schemaVersion.None? {
        schemaVersion := Some(genesis);
        r := AppendHistory(genesis, genesis, false);
        if r.Err? {
          schemaVersion := None;
        }
        return;
      }
      return Ok(());
    }

    method Begin(current: u32, from: u32, to: u32) returns (r: Outcome<()>)
      requires Valid()
      modifies this
      ensures Valid() && trace == old(trace) + [Op.Begin(current, from, to)]
      ensures View() == After(old(View()), Op.Begin(current, from, to))
      ensures r == ToUnit(Call(old(View()), Op.Begin(current, from, to)))
    {
      hide Run, HistoryFrom;
      Take(Op.Begin(current, from, to));
      var stored := schemaVersion.GetOr(current);
      if stored != current {
        return Err(Rejected(OutOfOrder));
      }
      var step := ValidateForwardStep(stored, from, to);
      if step.Err? {
        return Err(Rejected(step.error));
      }
      if migrationLock.GetOr(false) {
        return Err(Rejected(MigrationInProgress));
      }
      migrationLock := Some(true);
      return Ok(());
    }

    method Complete(from: u32, to: u32) returns (r: Outcome<()>)
      requires Valid()
      modifies this
      ensures Valid() && trace == old(trace) + [Op.Complete(from, to)]
      ensures View() == After(old(View()), Op.Complete(from, to))
      ensures r == ToUnit(Call(old(View()), Op.Complete(from, to)))
    {
      hide Run, HistoryFrom;
      Take(Op.Complete(from, to));
      if schemaVersion.GetOr(from) != from {
        return Err(VersionMismatch);
      }
      if !migrationLock.GetOr(false) {
        return Err(NotLocked);
      }
      if to <= from {
        return Err(NotAhead);
      }
      var versionBefore, lockBefore := schemaVersion, migrationLock;
      schemaVersion := Some(to);
      migrationLock := Some(false);
      r := AppendHistory(from, to, false);
      if r.Err? {
        // The trap undoes the whole call.
        schemaVersion, migrationLock := versionBefore, lockBefore;
      }
    }

    method Abort()
      requires Valid()
      modifies this
      ensures Valid() && trace == old(trace) + [Op.Abort]
      ensures View() == After(old(View()), Op.Abort)
      ensures View() == old(View()).(locked := false)
    {
      hide Run, HistoryFrom;
      Take(Op.Abort);
      migrationLock := Some(false);
    }

    method Rollback(current: u32, target: u32, maxDepth: u32) returns (r: Outcome<()>)
      requires Valid()
      modifies this
      ensures Valid() && trace == old(trace) + [Op.Rollback(current, target, maxDepth)]
      ensures View() == After(old(View()), Op.Rollback(current, target, maxDepth))
      ensures r == ToUnit(Call(old(View()), Op.Rollback(current, target, maxDepth)))
    {
      hide Run, HistoryFrom;
      Take(Op.Rollback(current, target, maxDepth));
      var stored := schemaVersion.GetOr(current);
      if stored != current {
        return Err(Rejected(OutOfOrder));
      }
      var step := ValidateRollback(stored, target, maxDepth);
      if step.Err? {
        return Err(Rejected(step.error));
      }
      if migrationLock.GetOr(false) {
        return Err(Rejected(MigrationInProgress));
      }
      var versionBefore := schemaVersion;
      schemaVersion := Some(target);
      r := AppendHistory(stored, target, true);
      if r.Err? {
        // The trap undoes the whole call.
        schemaVersion := versionBefore;
      }
    }

    /** Reads only: the store is not in the frame. */
    method DryRunStep(current: u32, from: u32, to: u32) returns (d: DryRun)
      ensures d == DryRunSpec(View(), current, from, to)
      ensures Foretells(d, BeginSpec(View(), current, from, to)) <==> !(View().version.GetOr(current) == current == to)
    {
      hide HistoryFrom;
      var stored := schemaVersion.GetOr(current);
      var locked := migrationLock.GetOr(false);
      if stored != current {
        return DryRun(stored, to, 0, false, locked, false, Some(MigrationError.OutOfOrder.Code()));
      }
      if stored == to {
        return DryRun(stored, to, 0, true, locked, true, None);
      }
      var step := ValidateForwardStep(stored, from, to);
      var error := if step.Err? then Some(step.error) else if locked then Some(MigrationInProgress) else None;
      return DryRun(stored, to, 1, false, locked, error.None?,
                    if error.None? then None else Some(error.value.Code()));
    }

    method DryRunTo(current: u32, target: u32, maxSupported: u32) returns (d: DryRun)
      ensures d == DryRunToSpec(View(), current, target, maxSupported)
      ensures d.applicable <==> (View().version.GetOr(current) == current
                                 && (current == target || (current < target <= maxSupported && !View().locked)))
      ensures !d.applicable && target <= maxSupported ==> Foretells(d, BeginSpec(View(), current, current, target))
      ensures d.applicable && !d.upToDate && |View().history| + d.steps <= U32_MAX ==>
                && |Climb(current, target)| == 2 * d.steps
                && RunFrom(View(), Climb(current, target)).version == Some(target)
    {
      hide HistoryFrom, RunFrom, Climb;
      DryRunToForetells(View(), current, target, maxSupported);
      var stored := schemaVersion.GetOr(current);
      var locked := migrationLock.GetOr(false);
      if stored != current {
        return DryRun(stored, target, 0, false, locked, false, Some(MigrationError.OutOfOrder.Code()));
      }
      if stored == target {
        return DryRun(stored, target, 0, true, locked, true, None);
      }
      var check := ValidateTarget(stored, target, maxSupported);
      var error := if check.Err? then Some(check.error) else if locked then Some(MigrationInProgress) else None;
      return DryRun(stored, target, if error.None? then SaturatingSubU32(target, stored) else 0, false, locked,
                    error.None?, if error.None? then None else Some(error.value.Code()));
    }
  }
}
