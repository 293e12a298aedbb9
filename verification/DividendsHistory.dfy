/** Where epochs, claims and recoveries come from: each from one accepted call, signed by whom it must be. */
module DividendsHistory {
  import opened Common
  import opened DividendsModel
  import opened DividendsRuns
  import opened DividendsPatrons
  import opened DividendsClaims

  // ---------- who may commit and recover ----------

  /** Exactly when an epoch is committed: by the admin, with a positive amount, for an hour to a year. */
  lemma CommitAcceptedIff(s: State, admin: Address, talosId: u32, total: i128, expirySecs: u64)
    requires Inv(s)
    ensures Call(s, CommitEpoch(admin, talosId, total, expirySecs)).Ok? <==>
              && s.admin == Some(admin) && 1 <= total && 60 * 60 <= expirySecs <= 365 * 24 * 60 * 60
              && NextEpoch(s, talosId) < U64_MAX
  {
    FreshNumber(s, talosId);
    hide RecordsOk, EventsOk;
  }

  /** Exactly when an epoch is recovered: by the admin, once, after its deadline. */
  lemma RecoverAcceptedIff(s: State, admin: Address, talosId: u32, epochId: u64)
    requires Inv(s)
    ensures Call(s, RecoverExpired(admin, talosId, epochId)).Ok? <==>
              && s.admin == Some(admin) && (talosId, epochId) in s.epochs
              && s.epochs[(talosId, epochId)].status == Active
              && s.epochs[(talosId, epochId)].createdAt + s.epochs[(talosId, epochId)].expirySecs < s.now
  {
    if (talosId, epochId) in s.epochs {
      RecordBooks(s, talosId, epochId);
      RecordStatus(s, talosId, epochId);
    }
    hide Inv;
  }

  /** Step `k` is a call the admin of that moment signed and that was accepted. */
  ghost predicate SignedByAdmin(ops: seq<Op>, k: int, admin: Address) {
    0 <= k < |ops| && Run(ops[..k]).admin == Some(admin) && Call(Run(ops[..k]), ops[k]).Ok?
  }

  lemma EpochStep(s: State, op: Op, t: u32, e: u64)
    requires Inv(s) && (t, e) !in s.epochs && (t, e) in After(s, op).epochs
    ensures op.CommitEpoch? && Call(s, op).Ok? && op.talosId == t && s.admin == Some(op.admin)
    ensures After(s, op).epochs[(t, e)] == EpochRecord(e, t, op.total, 0, s.now, op.expirySecs, Active)
  {
    if op.ClaimDividend? && Call(s, op).Ok? {
      var c := ClaimHasEffect(s, op);
      hide Call;
    } else {
      hide RecordsOk, EventsOk, RoundingDust, Allocation;
    }
  }

  /** Every epoch was committed by the admin of its moment, with the terms it still has. */
  lemma {:induction false} EpochWasCommitted(ops: seq<Op>, t: u32, e: u64) returns (k: nat)
    requires (t, e) in Run(ops).epochs
    ensures k < |ops| && ops[k].CommitEpoch? && SignedByAdmin(ops, k, ops[k].admin) && ops[k].talosId == t
    ensures var r := Run(ops).epochs[(t, e)];
            r == EpochRecord(e, t, ops[k].total, r.claimed, Run(ops[..k]).now, ops[k].expirySecs, r.status)
    decreases |ops|
  {
    hide Call, Inv;
    assert |ops| > 0;
    k := |ops| - 1;
    InvAlways(ops[..k]);
    if (t, e) in Run(ops[..k]).epochs {
      var j := EpochWasCommitted(ops[..k], t, e);
      assert ops[..k][..j] == ops[..j];
      StepContinues(Run(ops[..k]), ops[k], (t, e));
      k := j;
    } else {
      EpochStep(Run(ops[..k]), ops[k], t, e);
    }
  }

  lemma EventStep(s: State, op: Op)
    requires Inv(s)
    ensures var t := After(s, op);
            && (t.claims == s.claims
                || (op.ClaimDividend? && |t.claims| == |s.claims| + 1 && t.claims[..|s.claims|] == s.claims
                    && ClaimPays(s, t, op.claimant, op.talosId, op.epochId, op.split, t.claims[|s.claims|].amount)))
            && (t.recoveries == s.recoveries
                || (op.RecoverExpired? && |t.recoveries| == |s.recoveries| + 1
                    && t.recoveries[..|s.recoveries|] == s.recoveries
                    && t.recoveries[|s.recoveries|].talosId == op.talosId
                    && t.recoveries[|s.recoveries|].epochId == op.epochId
                    && s.admin == Some(op.admin)
                    && Recovers(s, t, op.talosId, op.epochId, t.recoveries[|s.recoveries|].amount)))
  {
    hide ClaimPays, Recovers, Inv;
    match op {
      case ClaimDividend(a, t, e, split) =>
        ClaimEventStep(s, a, t, e, split);
      case RecoverExpired(admin, t, e) =>
        RecoveryEventStep(s, admin, t, e);
      case _ =>
    }
  }

  lemma ClaimEventStep(s: State, a: Address, t: u32, e: u64, split: Split)
    requires Inv(s)
    ensures var u := After(s, ClaimDividend(a, t, e, split));
            && u.recoveries == s.recoveries
            && (u.claims == s.claims
                || (|u.claims| == |s.claims| + 1 && u.claims[..|s.claims|] == s.claims
                    && ClaimPays(s, u, a, t, e, split, u.claims[|s.claims|].amount)))
  {
    ClaimTells(s, a, t, e, split);
    if ClaimDividendSpec(s, a, t, e, split).Ok? {
      ClaimRecords(s, a, t, e, split);
    }
    hide ClaimDividendSpec, Inv, Remainder, Deal.Pay;
  }

  lemma RecoveryEventStep(s: State, admin: Address, t: u32, e: u64)
    requires Inv(s)
    ensures var u := After(s, RecoverExpired(admin, t, e));
            && u.claims == s.claims
            && (u.recoveries == s.recoveries
                || (|u.recoveries| == |s.recoveries| + 1 && u.recoveries[..|s.recoveries|] == s.recoveries
                    && u.recoveries[|s.recoveries|].talosId == t && u.recoveries[|s.recoveries|].epochId == e
                    && s.admin == Some(admin) && Recovers(s, u, t, e, u.recoveries[|s.recoveries|].amount)))
  {
    RecoveryTells(s, admin, t, e);
    RecoverAcceptedIff(s, admin, t, e);
    hide Inv, Recovers;
  }

  /** Every claim event is the patron's own call, paid from the open epoch as the call's shares say. */
  lemma {:induction false} ClaimWasMade(ops: seq<Op>, i: nat) returns (k: nat)
    requires i < |Run(ops).claims|
    ensures k < |ops| && ops[k].ClaimDividend? && ops[k].claimant == Run(ops).claims[i].patron
    ensures var c, op := Run(ops).claims[i], ops[k];
            ClaimPays(Run(ops[..k]), Run(ops[..k + 1]), op.claimant, op.talosId, op.epochId, op.split, c.amount)
            && IsClaimOf(c, op.claimant, op.talosId, op.epochId, op.split, c.amount)
    decreases |ops|
  {
    hide After, Inv;
    assert |ops| > 0;
    k := |ops| - 1;
    assert ops[..k + 1] == ops && ops[..k + 1][..k] == ops[..k];
    InvAlways(ops[..k]);
    EventStep(Run(ops[..k]), ops[k]);
    if i < |Run(ops[..k]).claims| {
      var j := ClaimWasMade(ops[..k], i);
      assert ops[..k][..j] == ops[..j] && ops[..k][..j + 1] == ops[..j + 1];
      k := j;
    }
    hide ClaimPays;
  }

  /** Every recovery was signed by the admin of its moment, after the epoch's deadline. */
  lemma {:induction false} RecoveryWasSigned(ops: seq<Op>, i: nat) returns (k: nat)
    requires i < |Run(ops).recoveries|
    ensures k < |ops| && ops[k].RecoverExpired? && Run(ops[..k]).admin == Some(ops[k].admin)
    ensures var r := Run(ops).recoveries[i];
            && r.talosId == ops[k].talosId && r.epochId == ops[k].epochId
            && Recovers(Run(ops[..k]), Run(ops[..k + 1]), r.talosId, r.epochId, r.amount)
    decreases |ops|
  {
    hide After, Inv, ClaimPays, Recovers;
    assert |ops| > 0;
    k := |ops| - 1;
    assert ops[..k + 1] == ops;
    InvAlways(ops[..k]);
    EventStep(Run(ops[..k]), ops[k]);
    if i < |Run(ops[..k]).recoveries| {
      var j := RecoveryWasSigned(ops[..k], i);
      assert ops[..k][..j] == ops[..j] && ops[..k][..j + 1] == ops[..j + 1];
      k := j;
    }
  }
}
