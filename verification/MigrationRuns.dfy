/** The migration history is a chain, the lock separates migrations, and dry runs tell the truth. */
module MigrationRuns {
  import opened Common
  import opened MigrationModel

  // ---------- the history ----------

  /** A forward record rises, a rollback falls; only the first record may stand still. */
  predicate RecordOk(history: seq<MigrationRecord>, i: int)
    requires 0 <= i < |history|
  {
    var r := history[i];
    && (r.rolledBack ==> r.to < r.from)
    && (!r.rolledBack ==> r.from < r.to || (i == 0 && r.from == r.to))
    && (i > 0 ==> r.from == history[i - 1].to)
  }

  ghost predicate Chain(s: State) {
    && (s.version.None? <==> s.history == [])
    && (forall i :: 0 <= i < |s.history| ==> RecordOk(s.history, i))
    && (s.history != [] ==> s.version == Some(s.history[|s.history| - 1].to))
  }

  lemma AppendKeepsChain(s: State, r: MigrationRecord, t: State)
    requires Chain(s) && t.history == s.history + [r] && t.version == Some(r.to)
    requires s.version.Some? ==> r.from == s.version.value
    requires r.rolledBack ==> r.to < r.from
    requires !r.rolledBack ==> r.from < r.to || (s.history == [] && r.from == r.to)
    ensures Chain(t)
  {
    forall i | 0 <= i < |t.history|
      ensures RecordOk(t.history, i)
    {
      if i < |s.history| {
        assert RecordOk(s.history, i);
      }
    }
  }

  lemma ChainKept(s: State, op: Op)
    requires Chain(s)
    ensures Chain(After(s, op))
    ensures s.history <= After(s, op).history
  {
    var t := After(s, op);
    if |t.history| > |s.history| {
      AppendKeepsChain(s, t.history[|s.history|], t);
    }
  }

  lemma {:induction false} ChainFrom(s: State, ops: seq<Op>)
    requires Chain(s)
    ensures Chain(RunFrom(s, ops)) && s.history <= RunFrom(s, ops).history
    decreases |ops|
  {
    hide After, Chain;
    if |ops| > 0 {
      ChainFrom(s, ops[..|ops| - 1]);
      ChainKept(RunFrom(s, ops[..|ops| - 1]), ops[|ops| - 1]);
    }
  }

  /** In every reachable state the history is a chain that ends at the stored version. */
  lemma ChainAlways(ops: seq<Op>)
    ensures Chain(Run(ops))
  {
    ChainFrom(FRESH, ops);
  }

  // ---------- the lock ----------

  /** Step `k` of the run is a begin that succeeds. */
  ghost predicate Begins(s: State, ops: seq<Op>, k: int) {
    0 <= k < |ops| && ops[k].Begin? && Call(RunFrom(s, ops[..k]), ops[k]).Ok?
  }

  ghost predicate Ends(s: State, ops: seq<Op>, k: int) {
    0 <= k < |ops| && (ops[k].Complete? || ops[k].Abort?) && Call(RunFrom(s, ops[..k]), ops[k]).Ok?
  }

  lemma LockStep(s: State, op: Op)
    ensures var t := After(s, op);
            && (op.Begin? && Call(s, op).Ok? ==> !s.locked && t.locked)
            && (s.locked && !t.locked ==> (op.Complete? || op.Abort?) && Call(s, op).Ok?)
  {
  }

  /** A lock held after step `i` is held until a complete or an abort succeeds. */
  lemma {:induction false} HeldUntilEnded(s: State, ops: seq<Op>, i: int, j: int)
    requires Begins(s, ops, i) && i < j <= |ops|
    requires forall k :: i < k < j ==> !Ends(s, ops, k)
    ensures RunFrom(s, ops[..j]).locked
    decreases j - i
  {
    hide Call;
    var r := RunFrom(s, ops[..j - 1]);
    assert ops[..j][..j - 1] == ops[..j - 1];
    LockStep(r, ops[j - 1]);
    if j > i + 1 {
      HeldUntilEnded(s, ops, i, j - 1);
      assert !Ends(s, ops, j - 1);
    }
  }

  /** Between two successful begins a complete or an abort succeeds. */
  lemma BeginsAreSeparated(s: State, ops: seq<Op>, i: int, j: int)
    requires Begins(s, ops, i) && Begins(s, ops, j) && i < j
    ensures exists k :: i < k < j && Ends(s, ops, k)
  {
    hide Call;
    if forall k :: i < k < j ==> !Ends(s, ops, k) {
      HeldUntilEnded(s, ops, i, j);
      LockStep(RunFrom(s, ops[..j]), ops[j]);
    }
  }

  /** Exactly when each call is accepted. */
  lemma AcceptedIff(s: State, op: Op)
    ensures Call(s, op).Ok? <==>
            match op
            case Tick(seconds) => s.now + seconds <= U64_MAX
            case InitializeSchema(_) => s.version.Some? || |s.history| < U32_MAX
            case Begin(current, from, to) => s.version.GetOr(current) == current == from < to && !s.locked
            case Complete(from, to) => s.version.GetOr(from) == from < to && s.locked && |s.history| < U32_MAX
            case Abort => true
            case Rollback(current, target, maxDepth) =>
              && s.version.GetOr(current) == current && target < current <= target + maxDepth
              && !s.locked && |s.history| < U32_MAX
    ensures After(s, op).now == s.now + (if op.Tick? && Call(s, op).Ok? then op.seconds else 0)
    ensures Call(s, op).Err? ==> After(s, op) == s
  {
  }

  /** Why a begin is refused: the caller's view or the start is not the version, the target is not
      ahead, or another migration holds the lock. */
  lemma BeginRefusals(s: State, current: u32, from: u32, to: u32)
    ensures var r := Call(s, Begin(current, from, to));
            && (r == Err(Rejected(NotForward)) <==> s.version.GetOr(current) == current && to <= from)
            && (r == Err(Rejected(OutOfOrder)) <==>
                  s.version.GetOr(current) != current || (from < to && from != current))
            && (r == Err(Rejected(MigrationInProgress)) <==>
                  s.version.GetOr(current) == current == from < to && s.locked)
  {
  }

  /** Why a rollback is refused. */
  lemma RollbackRefusals(s: State, current: u32, target: u32, maxDepth: u32)
    ensures var r := Call(s, Rollback(current, target, maxDepth));
            && (r == Err(Rejected(OutOfOrder)) <==> s.version.GetOr(current) != current)
            && (r == Err(Rejected(RollbackNotAllowed)) <==> s.version.GetOr(current) == current <= target)
            && (r == Err(Rejected(RollbackTooDeep)) <==>
                  s.version.GetOr(current) == current && target + maxDepth < current)
            && (r == Err(Rejected(MigrationInProgress)) <==>
                  s.version.GetOr(current) == current && target < current <= target + maxDepth && s.locked)
  {
  }

  /** Aborting is always accepted, releases the lock and leaves the rest; begun and aborted, a migration
      leaves no trace, so that the same begin is accepted again. */
  lemma AbortUndoesBegin(s: State, current: u32, from: u32, to: u32)
    ensures Call(s, Abort).Ok? && After(s, Abort) == s.(locked := false)
    ensures Call(s, Begin(current, from, to)).Ok? ==> RunFrom(s, [Begin(current, from, to), Abort]) == s
    ensures Call(s, Begin(current, from, to)).Ok? ==>
              Call(RunFrom(s, [Begin(current, from, to), Abort]), Begin(current, from, to)).Ok?
  {
    RunTwo(s, [], Begin(current, from, to), Abort);
    assert [] + [Begin(current, from, to), Abort] == [Begin(current, from, to), Abort];
  }

  /** The lock is held exactly if some begin succeeded that no complete or abort has ended since. */
  lemma {:induction false} LockHeldIff(ops: seq<Op>)
    ensures Run(ops).locked <==>
              exists i :: Begins(FRESH, ops, i) && forall k :: i < k < |ops| ==> !Ends(FRESH, ops, k)
    decreases |ops|
  {
    hide Call;
    if |ops| > 0 {
      var front, last := ops[..|ops| - 1], |ops| - 1;
      LockHeldIff(front);
      LockMoves(Run(front), ops[last]);
      forall k | k < last
        ensures Begins(FRESH, front, k) <==> Begins(FRESH, ops, k)
        ensures Ends(FRESH, front, k) <==> Ends(FRESH, ops, k)
      {
        if 0 <= k {
          assert front[..k] == ops[..k];
        }
      }
      assert Begins(FRESH, ops, last) <==> ops[last].Begin? && Call(Run(front), ops[last]).Ok?;
      assert Ends(FRESH, ops, last) <==> (ops[last].Complete? || ops[last].Abort?) && Call(Run(front), ops[last]).Ok?;
      hide Run, Begins, Ends;
      LockFold(ops, front);
    }
  }

  lemma LockMoves(s: State, op: Op)
    ensures After(s, op).locked <==>
              if op.Begin? && Call(s, op).Ok? then true
              else if (op.Complete? || op.Abort?) && Call(s, op).Ok? then false else s.locked
  {
  }

  /** One more step holds the lock if it begins, and else if it does not end what was held. */
  lemma LockFold(ops: seq<Op>, front: seq<Op>)
    requires |ops| > 0 && |front| == |ops| - 1
    requires forall k :: k < |front| ==> (Begins(FRESH, front, k) <==> Begins(FRESH, ops, k))
    requires forall k :: k < |front| ==> (Ends(FRESH, front, k) <==> Ends(FRESH, ops, k))
    ensures (exists i :: Begins(FRESH, ops, i) && forall k :: i < k < |ops| ==> !Ends(FRESH, ops, k)) <==>
              || Begins(FRESH, ops, |front|)
              || (!Ends(FRESH, ops, |front|) &&
                  exists i :: Begins(FRESH, front, i) && forall k :: i < k < |front| ==> !Ends(FRESH, front, k))
  {
    BeginsInside(ops);
    BeginsInside(front);
    hide Begins, Ends;
    if i :| Begins(FRESH, front, i) && (forall k :: i < k < |front| ==> !Ends(FRESH, front, k))
            && !Ends(FRESH, ops, |front|) {
      assert Begins(FRESH, ops, i);
    }
    if i :| Begins(FRESH, ops, i) && (forall k :: i < k < |ops| ==> !Ends(FRESH, ops, k)) && i < |front| {
      assert Begins(FRESH, front, i);
    }
  }

  lemma BeginsInside(ops: seq<Op>)
    ensures forall i :: Begins(FRESH, ops, i) ==> 0 <= i < |ops|
  {
  }

  // ---------- where records come from ----------

  /** The call that writes such a record in state `s`. */
  predicate Writes(s: State, op: Op, r: MigrationRecord) {
    && r.appliedAt == s.now
    && match op
       case InitializeSchema(genesis) => s.version.None? && r.from == r.to == genesis && !r.rolledBack
       case Complete(from, to) => s.locked && s.version.GetOr(from) == from < to
                                  && r.from == from && r.to == to && !r.rolledBack
       case Rollback(current, target, maxDepth) =>
         && !s.locked && s.version.GetOr(current) == current && target < current <= target + maxDepth
         && r.from == current && r.to == target && r.rolledBack
       case _ => false
  }

  lemma RecordStep(s: State, op: Op)
    ensures var t := After(s, op);
            t.history == s.history || (|t.history| == |s.history| + 1 && t.history[..|s.history|] == s.history
                                       && Writes(s, op, t.history[|s.history|])
                                       && t.version == Some(t.history[|s.history|].to))
    ensures Call(s, op).Ok? && (op.Complete? || op.Rollback? || (op.InitializeSchema? && s.version.None?)) ==>
              After(s, op).history != s.history
  {
  }

  /** Every history record was written by an initialization without a version, a completion under the
      lock or a rollback without it, at its time and with its versions. */
  lemma {:induction false} RecordWasWritten(ops: seq<Op>, i: nat) returns (k: nat)
    requires i < |Run(ops).history|
    ensures k < |ops| && Writes(Run(ops[..k]), ops[k], Run(ops).history[i])
    ensures |Run(ops[..k]).history| == i
    decreases |ops|
  {
    hide After, Writes;
    assert |ops| > 0;
    k := |ops| - 1;
    RecordStep(Run(ops[..k]), ops[k]);
    if i < |Run(ops[..k]).history| {
      var j := RecordWasWritten(ops[..k], i);
      assert ops[..k][..j] == ops[..j];
      k := j;
    }
  }

  // ---------- dry runs ----------

  /** The dry run says what beginning the same migration would answer. */
  predicate Foretells(d: DryRun, began: Outcome<State>) {
    && (d.applicable <==> began.Ok?)
    && d.errorCode == if began.Err? && began.error.Rejected? then Some(began.error.error.Code()) else None
  }

  /** `dry_run` foretells `begin_migration` exactly when the plan is not already in place. */
  lemma DryRunForetells(s: State, current: u32, from: u32, to: u32)
    ensures Foretells(DryRunSpec(s, current, from, to), BeginSpec(s, current, from, to))
            <==> !(s.version.GetOr(current) == current == to)
  {
  }

  /** Both dry runs report the stored version, the asked target and the lock; a plan in place has no
      steps, and one that fails for its target keeps its one step in `dry_run` but none in `dry_run_to`. */
  lemma DryRunReports(s: State, current: u32, from: u32, to: u32, maxSupported: u32)
    ensures var d, e := DryRunSpec(s, current, from, to), DryRunToSpec(s, current, to, maxSupported);
            var stored := s.version.GetOr(current);
            && d.currentVersion == e.currentVersion == stored && d.targetVersion == e.targetVersion == to
            && d.locked == e.locked == s.locked
            && (d.upToDate <==> stored == current == to) && (e.upToDate <==> stored == current == to)
            && d.steps == (if stored == current && stored != to then 1 else 0)
            && e.steps == (if stored == current && current < to <= maxSupported && !s.locked then to - current else 0)
            && (e.errorCode == Some(MigrationError.TargetExceedsMax.Code()) <==>
                  stored == current < to && maxSupported < to)
  {
  }

  /** Codes and errors translate back and forth, and no other code is an error. */
  lemma CodesRoundTrip(e: MigrationError, code: u32)
    ensures MigrationError.FromCode(code) == Some(e) <==> code == e.Code()
  {
  }

  /** One whole step from `v` to `v + 1`. */
  function StepUp(v: u32): seq<Op>
    requires v < U32_MAX
  {
    [Begin(v, v, v + 1), Complete(v, v + 1)]
  }

  /** The single steps from `v` to `target`. */
  function Climb(v: u32, target: u32): seq<Op>
    decreases target - v
  {
    if v >= target then [] else Climb(v, target - 1) + StepUp(target - 1)
  }

  lemma RunTwo(s: State, ops: seq<Op>, a: Op, b: Op)
    ensures RunFrom(s, ops + [a, b]) == After(After(RunFrom(s, ops), a), b)
  {
    hide After;
    assert (ops + [a, b])[..|ops| + 1] == ops + [a];
    assert (ops + [a])[..|ops|] == ops;
  }

  /** An applicable plan can be carried out: its steps, one by one, lead to the target. */
  lemma {:induction false} ClimbReaches(s: State, current: u32, target: u32)
    requires s.version.GetOr(current) == current && !s.locked && current < target
    requires |s.history| + (target - current) <= U32_MAX
    ensures var t := RunFrom(s, Climb(current, target));
            t.version == Some(target) && !t.locked && |t.history| == |s.history| + (target - current)
    decreases target
  {
    if current < target - 1 {
      ClimbReaches(s, current, target - 1);
    } else {
      assert Climb(current, current) == [];
    }
    RunTwo(s, Climb(current, target - 1), Begin(target - 1, target - 1, target), Complete(target - 1, target));
  }

  /** `dry_run_to` is applicable exactly when the caller's view is current and the target is in place, or
      ahead, supported and not blocked by the lock; its steps are then those of the climb to the target,
      which reaches it if the history has room for them. */
  lemma DryRunToForetells(s: State, current: u32, target: u32, maxSupported: u32)
    ensures var d := DryRunToSpec(s, current, target, maxSupported);
            && (d.applicable && !d.upToDate ==> 0 < d.steps && |Climb(current, target)| == 2 * d.steps)
            && (d.applicable && !d.upToDate && |s.history| + d.steps <= U32_MAX ==>
                  RunFrom(s, Climb(current, target)).version == Some(target))
            && (d.applicable <==> (s.version.GetOr(current) == current
                                   && (current == target || (current < target <= maxSupported && !s.locked))))
            && (!d.applicable && target <= maxSupported ==>
                  Foretells(d, BeginSpec(s, current, current, target)))
  {
    if s.version.GetOr(current) == current && current < target && !s.locked {
      ClimbLength(current, target);
      if |s.history| + (target - current) <= U32_MAX {
        ClimbReaches(s, current, target);
      }
    }
  }

  lemma {:induction false} ClimbLength(v: u32, target: u32)
    requires v <= target
    ensures |Climb(v, target)| == 2 * (target - v)
    decreases target - v
  {
    if v < target {
      ClimbLength(v, target - 1);
    }
  }

  // ---------- rollbacks ----------

  /** A rollback of the stored version is accepted exactly down to the allowed depth, while unlocked,
      and going forward again returns to the version it left, both moves recorded. */
  lemma RollbackRoundTrip(s: State, current: u32, target: u32, maxDepth: u32)
    requires s.version.GetOr(current) == current && |s.history| + 2 <= U32_MAX
    ensures Call(s, Rollback(current, target, maxDepth)).Ok?
            <==> target < current <= target + maxDepth && !s.locked
    ensures Call(s, Rollback(current, target, maxDepth)).Ok? ==>
              var t := RunFrom(s, [Rollback(current, target, maxDepth)] + [Begin(target, target, current),
                                                                         Complete(target, current)]);
              t == s.(version := Some(current),
                      history := s.history + [MigrationRecord(current, target, s.now, true),
                                              MigrationRecord(target, current, s.now, false)])
  {
    var back := Rollback(current, target, maxDepth);
    RunTwo(s, [back], Begin(target, target, current), Complete(target, current));
    assert [back][..0] == [];
    assert RunFrom(s, [back]) == After(s, back);
  }

  // ---------- what the lock remembers ----------

  /** No complete or abort succeeds strictly between steps `i` and `j`. */
  ghost predicate Undisturbed(s: State, ops: seq<Op>, i: int, j: int) {
    forall k :: i < k < j ==> !Ends(s, ops, k)
  }

  /** The genesis of the first initialization among `ops`. */
  function FirstGenesis(ops: seq<Op>): Option<u32> {
    if |ops| == 0 then None
    else if ops[0].InitializeSchema? then Some(ops[0].genesis)
    else FirstGenesis(ops[1..])
  }

  /** While the lock is held only an initialization touches the version, and only a missing one. */
  lemma LockedStep(s: State, op: Op)
    requires Chain(s) && s.locked
    requires !((op.Complete? || op.Abort?) && Call(s, op).Ok?)
    ensures var t := After(s, op);
            && t.locked
            && t.version == if s.version.None? && op.InitializeSchema? then Some(op.genesis) else s.version
  {
  }

  lemma {:induction false} FirstGenesisSnoc(ops: seq<Op>, op: Op)
    ensures FirstGenesis(ops + [op]) ==
            if FirstGenesis(ops).Some? then FirstGenesis(ops)
            else if op.InitializeSchema? then Some(op.genesis) else None
    decreases |ops|
  {
    if |ops| > 0 {
      assert (ops + [op])[1..] == ops[1..] + [op];
      FirstGenesisSnoc(ops[1..], op);
    }
  }

  lemma BeginStep(s: State, op: Op)
    requires op.Begin? && Call(s, op).Ok?
    ensures var t := After(s, op);
            t == s.(locked := true) && op.from < op.to && s.version.GetOr(op.from) == op.from
  {
  }

  /** From a begin to whatever first ends it the lock is held, and the version is the one begun from
      or, if there was none, that of the first initialization since. */
  lemma {:induction false} VersionWhileHeld(s: State, ops: seq<Op>, i: int, j: int)
    requires Chain(s) && Begins(s, ops, i) && i < j <= |ops| && Undisturbed(s, ops, i, j)
    ensures var r := RunFrom(s, ops[..j]);
            && Chain(r) && r.locked
            && r.version == if RunFrom(s, ops[..i]).version.Some? then Some(ops[i].from)
                            else FirstGenesis(ops[i + 1..j])
    decreases j
  {
    hide Call, Chain, After;
    var before := RunFrom(s, ops[..j - 1]);
    assert ops[..j][..j - 1] == ops[..j - 1];
    ChainFrom(s, ops[..j]);
    ChainFrom(s, ops[..j - 1]);
    if j == i + 1 {
      BeginStep(before, ops[i]);
      assert ops[i + 1..j] == [];
    } else {
      assert Undisturbed(s, ops, i, j - 1);
      VersionWhileHeld(s, ops, i, j - 1);
      assert !Ends(s, ops, j - 1);
      LockedStep(before, ops[j - 1]);
      assert ops[i + 1..j] == ops[i + 1..j - 1] + [ops[j - 1]];
      FirstGenesisSnoc(ops[i + 1..j - 1], ops[j - 1]);
    }
  }

  lemma CompleteAccepted(s: State, from: u32, to: u32)
    requires s.locked && |s.history| < U32_MAX
    ensures Call(s, Complete(from, to)).Ok? <==> s.version.GetOr(from) == from && from < to
  {
  }

  /** Once there is a version, the next completion succeeds exactly if it names the version the
      migration was begun from and a later target: the source is always the begun one, and the
      completion is the begun one exactly if its target is. */
  lemma CompletionKeepsSource(s: State, ops: seq<Op>, i: int, j: int)
    requires Chain(s) && Begins(s, ops, i) && i < j < |ops| && Undisturbed(s, ops, i, j) && ops[j].Complete?
    requires RunFrom(s, ops[..i]).version.Some? && |RunFrom(s, ops[..j]).history| < U32_MAX
    ensures Call(RunFrom(s, ops[..j]), ops[j]).Ok? <==> ops[j].from == ops[i].from && ops[j].to > ops[i].from
    ensures Call(RunFrom(s, ops[..j]), ops[j]).Ok? ==>
              ((ops[j].from, ops[j].to) == (ops[i].from, ops[i].to) <==> ops[j].to == ops[i].to)
  {
    hide Call, Chain;
    VersionWhileHeld(s, ops, i, j);
    CompleteAccepted(RunFrom(s, ops[..j]), ops[j].from, ops[j].to);
  }

  /** Without a version at the begin the source is free, or that of an initialization since the begin. */
  lemma CompletionWithoutVersion(s: State, ops: seq<Op>, i: int, j: int)
    requires Chain(s) && Begins(s, ops, i) && i < j < |ops| && Undisturbed(s, ops, i, j) && ops[j].Complete?
    requires RunFrom(s, ops[..i]).version.None? && |RunFrom(s, ops[..j]).history| < U32_MAX
    ensures Call(RunFrom(s, ops[..j]), ops[j]).Ok? <==>
              ops[j].from < ops[j].to && FirstGenesis(ops[i + 1..j]).GetOr(ops[j].from) == ops[j].from
  {
    hide Call, Chain, FirstGenesis;
    VersionWhileHeld(s, ops, i, j);
    CompleteAccepted(RunFrom(s, ops[..j]), ops[j].from, ops[j].to);
  }

  lemma Then(ops: seq<Op>, op: Op) returns (longer: seq<Op>)
    requires Call(Run(ops), op).Ok?
    ensures longer == ops + [op] && Run(longer) == Call(Run(ops), op).value
  {
    longer := ops + [op];
    RunSnoc(ops, op);
  }

  /** The target is not remembered: 1 to 9 completes what was begun as 1 to 2. */
  lemma CompletionForgetsTarget()
    ensures var s := Run([InitializeSchema(1), Begin(1, 1, 2), Complete(1, 9)]);
            s.version == Some(9) && !s.locked
  {
    assert Run([]) == FRESH;
    hide RunFrom;
    var ops := Then([], InitializeSchema(1));
    ops := Then(ops, Begin(1, 1, 2));
    ops := Then(ops, Complete(1, 9));
    assert ops == [InitializeSchema(1), Begin(1, 1, 2), Complete(1, 9)];
  }

  /** Without a version not even the source is: 1 to 9 completes what was begun as 5 to 6. */
  lemma CompletionForgetsSource()
    ensures var s := Run([Begin(5, 5, 6), InitializeSchema(1), Complete(1, 9)]);
            s.version == Some(9) && !s.locked
  {
    assert Run([]) == FRESH;
    hide RunFrom;
    var ops := Then([], Begin(5, 5, 6));
    ops := Then(ops, InitializeSchema(1));
    ops := Then(ops, Complete(1, 9));
    assert ops == [Begin(5, 5, 6), InitializeSchema(1), Complete(1, 9)];
  }
}
