/** What the dividend contract keeps over whole runs. */
module DividendsRuns {
  import opened Common
  import opened DividendsModel

  // ---------- accounting ----------

  /** What the claim events of epoch (`t`, `e`) add up to. */
  function ClaimedSum(claims: seq<ClaimEvent>, t: u32, e: u64): int {
    if |claims| == 0 then 0
    else
      var last := claims[|claims| - 1];
      ClaimedSum(claims[..|claims| - 1], t, e) + (if last.talosId == t && last.epochId == e then last.amount else 0)
  }

  function RecoveredSum(recoveries: seq<RecoveryEvent>, t: u32, e: u64): int {
    if |recoveries| == 0 then 0
    else
      var last := recoveries[|recoveries| - 1];
      RecoveredSum(recoveries[..|recoveries| - 1], t, e)
      + (if last.talosId == t && last.epochId == e then last.amount else 0)
  }

  ghost predicate EpochIdsOk(s: State) {
    && (forall t: u32 :: 1 <= NextEpoch(s, t))
    && (forall t: u32, e: u64 :: (t, e) in s.epochs <==> 1 <= e < NextEpoch(s, t))
  }

  ghost predicate RecordOk(s: State, t: u32, e: u64, r: EpochRecord) {
    && r.talosId == t && r.epochId == e && r.createdAt <= s.now
    && 1 <= r.total && 0 <= r.claimed <= r.total
    && r.claimed == ClaimedSum(s.claims, t, e)
    && (r.status == Active || r.status == Recovered)
    && (r.status == Active ==> RecoveredSum(s.recoveries, t, e) == 0)
    && (r.status == Recovered ==> r.claimed + RecoveredSum(s.recoveries, t, e) == r.total)
  }

  ghost predicate RecordsOk(s: State) {
    forall k :: k in s.epochs ==> RecordOk(s, k.0, k.1, s.epochs[k])
  }

  ghost predicate EventsOk(s: State) {
    && (forall c :: c in s.claims ==> (c.talosId, c.epochId) in s.epochs && 0 < c.amount)
    && (forall r :: r in s.recoveries ==> (r.talosId, r.epochId) in s.epochs)
    && (forall e: u64, a :: (e, a) in s.claimed <==> exists c :: c in s.claims && c.epochId == e && c.patron == a)
    && (forall i, j :: 0 <= i < j < |s.claims| ==>
          !(s.claims[i].epochId == s.claims[j].epochId && s.claims[i].patron == s.claims[j].patron))
  }

  ghost predicate Inv(s: State) {
    EpochIdsOk(s) && RecordsOk(s) && EventsOk(s)
  }

  lemma {:induction false} NoEventsNoSum(claims: seq<ClaimEvent>, recoveries: seq<RecoveryEvent>, t: u32, e: u64)
    requires forall c :: c in claims ==> !(c.talosId == t && c.epochId == e)
    requires forall r :: r in recoveries ==> !(r.talosId == t && r.epochId == e)
    ensures ClaimedSum(claims, t, e) == 0 && RecoveredSum(recoveries, t, e) == 0
    decreases |claims| + |recoveries|
  {
    if |claims| > 0 {
      NoEventsNoSum(claims[..|claims| - 1], recoveries, t, e);
    } else if |recoveries| > 0 {
      NoEventsNoSum(claims, recoveries[..|recoveries| - 1], t, e);
    }
  }

  lemma SumsSnoc(claims: seq<ClaimEvent>, c: ClaimEvent, recoveries: seq<RecoveryEvent>, r: RecoveryEvent,
                 t: u32, e: u64)
    ensures ClaimedSum(claims + [c], t, e) ==
            ClaimedSum(claims, t, e) + (if c.talosId == t && c.epochId == e then c.amount else 0)
    ensures RecoveredSum(recoveries + [r], t, e) ==
            RecoveredSum(recoveries, t, e) + (if r.talosId == t && r.epochId == e then r.amount else 0)
  {
    assert (claims + [c])[..|claims|] == claims;
    assert (recoveries + [r])[..|recoveries|] == recoveries;
  }

  lemma CommitKeepsInv(s: State, op: Op)
    requires Inv(s) && op.CommitEpoch? && Call(s, op).Ok?
    ensures Inv(After(s, op))
  {
    hide RecordOk, EventsOk;
    var t := After(s, op);
    forall k | k in t.epochs
      ensures RecordOk(t, k.0, k.1, t.epochs[k])
    {
      if k in s.epochs {
        RecordSurvives(s, t, k);
      } else {
        FreshRecord(s, t, k);
      }
    }
    CommitKeepsEvents(s, t);
    CommitKeepsIds(s, op);
  }

  lemma CommitKeepsEvents(s: State, t: State)
    requires EventsOk(s) && s.epochs.Keys <= t.epochs.Keys
    requires t.claims == s.claims && t.recoveries == s.recoveries && t.claimed == s.claimed
    ensures EventsOk(t)
  {
  }

  lemma CommitKeepsIds(s: State, op: Op)
    requires EpochIdsOk(s) && op.CommitEpoch? && Call(s, op).Ok?
    ensures EpochIdsOk(After(s, op))
  {
    var t := After(s, op);
    assert forall i: u32 :: NextEpoch(t, i) == if i == op.talosId then NextEpoch(s, i) + 1 else NextEpoch(s, i);
  }

  lemma RecordSurvives(s: State, t: State, k: (u32, u64))
    requires k in s.epochs && RecordOk(s, k.0, k.1, s.epochs[k])
    requires k in t.epochs && t.epochs[k] == s.epochs[k] && s.now <= t.now
    requires ClaimedSum(t.claims, k.0, k.1) == ClaimedSum(s.claims, k.0, k.1)
    requires RecoveredSum(t.recoveries, k.0, k.1) == RecoveredSum(s.recoveries, k.0, k.1)
    ensures RecordOk(t, k.0, k.1, t.epochs[k])
  {
  }

  lemma FreshRecord(s: State, t: State, k: (u32, u64))
    requires EventsOk(s) && k !in s.epochs && t.claims == s.claims && t.recoveries == s.recoveries
    requires k in t.epochs
    requires var r := t.epochs[k];
             r.talosId == k.0 && r.epochId == k.1 && r.createdAt <= t.now && 1 <= r.total && r.claimed == 0
             && r.status == Active
    ensures RecordOk(t, k.0, k.1, t.epochs[k])
  {
    NoEventsNoSum(s.claims, s.recoveries, k.0, k.1);
  }

  /** A successful claim adds one event and its amount to an open epoch, within its total. */
  ghost predicate ClaimEffect(s: State, t: State, key: (u32, u64), c: ClaimEvent) {
    && key in s.epochs && c.talosId == key.0 && c.epochId == key.1 && 0 < c.amount
    && (c.epochId, c.patron) !in s.claimed
    && var r := s.epochs[key];
    && r.status == Active && InI128(r.claimed + c.amount) && r.claimed + c.amount <= r.total
    && t.epochs == s.epochs[key := r.(claimed := r.claimed + c.amount)]
    && t.now == s.now && t.admin == s.admin && t.pending == s.pending
    && t.nextEpochId == s.nextEpochId && t.recoveries == s.recoveries
    && t.claimed == s.claimed + {(c.epochId, c.patron)} && t.claims == s.claims + [c]
  }

  lemma ClaimHasEffect(s: State, op: Op) returns (c: ClaimEvent)
    requires op.ClaimDividend? && Call(s, op).Ok?
    ensures c.patron == op.claimant && ClaimEffect(s, After(s, op), (op.talosId, op.epochId), c)
    ensures c.amount == ClaimDividendSpec(s, op.claimant, op.talosId, op.epochId, op.split).value.1
  {
    hide RoundingDust, CheckShares, Portion;
    c := After(s, op).claims[|s.claims|];
  }

  lemma ClaimKeepsRecord(s: State, t: State, key: (u32, u64), c: ClaimEvent, k: (u32, u64))
    requires ClaimEffect(s, t, key, c) && k in s.epochs && RecordOk(s, k.0, k.1, s.epochs[k])
    ensures RecordOk(t, k.0, k.1, t.epochs[k])
  {
    SumsSnoc(s.claims, c, s.recoveries, RecoveryEvent(0, 0, 0), k.0, k.1);
  }

  lemma ClaimKeepsRecords(s: State, t: State, key: (u32, u64), c: ClaimEvent)
    requires EpochIdsOk(s) && RecordsOk(s) && ClaimEffect(s, t, key, c)
    ensures RecordsOk(t) && EpochIdsOk(t)
  {
    hide RecordOk;
    forall k | k in t.epochs
      ensures RecordOk(t, k.0, k.1, t.epochs[k])
    {
      ClaimKeepsRecord(s, t, key, c, k);
    }
    assert t.epochs.Keys == s.epochs.Keys;
    assert forall i: u32 :: NextEpoch(t, i) == NextEpoch(s, i);
  }

  lemma ClaimKeepsEvents(s: State, t: State, key: (u32, u64), c: ClaimEvent)
    requires EventsOk(s) && ClaimEffect(s, t, key, c)
    ensures EventsOk(t)
  {
    forall e: u64, a
      ensures (e, a) in t.claimed <==> exists d :: d in t.claims && d.epochId == e && d.patron == a
    {
      if (e, a) == (c.epochId, c.patron) {
        assert c in t.claims;
      } else if (e, a) in s.claimed {
        var d :| d in s.claims && d.epochId == e && d.patron == a;
        assert d in t.claims;
      }
    }
    forall i | 0 <= i < |s.claims|
      ensures !(s.claims[i].epochId == c.epochId && s.claims[i].patron == c.patron)
    {
      assert s.claims[i] in s.claims;
    }
  }

  /** A successful recovery closes one epoch and reports what was left. */
  ghost predicate RecoverEffect(s: State, t: State, key: (u32, u64), r: RecoveryEvent) {
    && key in s.epochs && r.talosId == key.0 && r.epochId == key.1
    && s.epochs[key].status != Recovered && r.amount == s.epochs[key].total - s.epochs[key].claimed
    && t == s.(epochs := s.epochs[key := s.epochs[key].(status := Recovered)], recoveries := s.recoveries + [r])
  }

  lemma RecoverHasEffect(s: State, op: Op) returns (r: RecoveryEvent)
    requires op.RecoverExpired? && Call(s, op).Ok?
    ensures RecoverEffect(s, After(s, op), (op.talosId, op.epochId), r)
  {
    r := After(s, op).recoveries[|s.recoveries|];
  }

  lemma RecoverKeepsRecord(s: State, t: State, key: (u32, u64), r: RecoveryEvent, k: (u32, u64))
    requires RecoverEffect(s, t, key, r) && k in s.epochs && RecordOk(s, k.0, k.1, s.epochs[k])
    ensures RecordOk(t, k.0, k.1, t.epochs[k])
  {
    SumsSnoc(s.claims, ClaimEvent(0, 0, Address(0), 0, Creator), s.recoveries, r, k.0, k.1);
  }

  lemma RecoverKeepsInv(s: State, t: State, key: (u32, u64), r: RecoveryEvent)
    requires Inv(s) && RecoverEffect(s, t, key, r)
    ensures Inv(t)
  {
    hide RecordOk;
    forall k | k in t.epochs
      ensures RecordOk(t, k.0, k.1, t.epochs[k])
    {
      RecoverKeepsRecord(s, t, key, r, k);
    }
    assert t.epochs.Keys == s.epochs.Keys;
    assert forall i: u32 :: NextEpoch(t, i) == NextEpoch(s, i);
  }

  /** Time, setup and admin steps. */
  lemma OtherKeepsInv(s: State, op: Op)
    requires Inv(s) && !op.CommitEpoch? && !op.ClaimDividend? && !op.RecoverExpired? && Call(s, op).Ok?
    ensures Inv(After(s, op))
  {
    hide RecordOk;
    var t := After(s, op);
    forall k | k in t.epochs
      ensures RecordOk(t, k.0, k.1, t.epochs[k])
    {
      RecordSurvives(s, t, k);
    }
    assert forall i: u32 :: NextEpoch(t, i) == NextEpoch(s, i);
  }

  lemma InvKept(s: State, op: Op)
    requires Inv(s)
    ensures Inv(After(s, op))
  {
    hide Call, ClaimEffect, RecoverEffect;
    if Call(s, op).Ok? {
      match op {
        case CommitEpoch(_, _, _, _) => CommitKeepsInv(s, op);
        case ClaimDividend(_, t, e, _) =>
          var c := ClaimHasEffect(s, op);
          ClaimKeepsRecords(s, After(s, op), (t, e), c);
          ClaimKeepsEvents(s, After(s, op), (t, e), c);
        case RecoverExpired(_, t, e) =>
          var r := RecoverHasEffect(s, op);
          RecoverKeepsInv(s, After(s, op), (t, e), r);
        case _ => OtherKeepsInv(s, op);
      }
    }
  }

  lemma {:induction false} InvFrom(s: State, ops: seq<Op>)
    requires Inv(s)
    ensures Inv(RunFrom(s, ops))
    decreases |ops|
  {
    hide After, Inv;
    if |ops| > 0 {
      InvFrom(s, ops[..|ops| - 1]);
      InvKept(RunFrom(s, ops[..|ops| - 1]), ops[|ops| - 1]);
    }
  }

  /** The accounts balance in every reachable state. */
  lemma InvAlways(ops: seq<Op>)
    ensures Inv(Run(ops))
  {
    assert Inv(DEPLOYED);
    InvFrom(DEPLOYED, ops);
  }

  /** Dust is recorded only for committed epochs. */
  lemma {:induction false} DustHasEpoch(ops: seq<Op>)
    ensures Run(ops).dust.Keys <= Run(ops).epochs.Keys
    decreases |ops|
  {
    hide RoundingDust, Allocation, CheckShares;
    if |ops| > 0 {
      DustHasEpoch(ops[..|ops| - 1]);
    }
  }

  // ---------- consequences over runs ----------

  /** In every reachable state an epoch's books balance: what is claimed is what claims paid,
      never more than the total, and once recovered the two together are the whole total. */
  lemma EpochsBalance(ops: seq<Op>, t: u32, e: u64)
    requires (t, e) in Run(ops).epochs
    ensures var s, r := Run(ops), Run(ops).epochs[(t, e)];
            && 0 <= r.claimed == ClaimedSum(s.claims, t, e) <= r.total
            && r.status != Expired
            && RecoveredSum(s.recoveries, t, e) == if r.status == Recovered then r.total - r.claimed else 0
  {
    InvAlways(ops);
    assert RecordOk(Run(ops), t, e, Run(ops).epochs[(t, e)]);
  }

  /** Epochs are numbered without gaps, so committing never finds its number taken. */
  lemma EpochNumbersAreDense(ops: seq<Op>, admin: Address, t: u32, total: i128, expirySecs: u64)
    ensures forall e: u64 :: (t, e) in Run(ops).epochs <==> 1 <= e < NextEpoch(Run(ops), t)
    ensures CommitEpochSpec(Run(ops), admin, t, total, expirySecs) != Err(EpochAlreadyExists)
  {
    InvAlways(ops);
  }

  /** An epoch's claim window and its recovery window share no instant and leave none out. */
  lemma WindowsMeet(s: State, admin: Address, t: u32, e: u64)
    requires Inv(s) && (t, e) in s.epochs && s.epochs[(t, e)].status == Active
    requires Deadline(s.epochs[(t, e)]).Ok? && s.admin == Some(admin)
    ensures OpenEpoch(s, t, e).Ok? <==> s.now <= Deadline(s.epochs[(t, e)]).value
    ensures RecoverExpiredSpec(s, admin, t, e).Ok? <==> OpenEpoch(s, t, e) == Err(EpochExpired)
  {
    assert RecordOk(s, t, e, s.epochs[(t, e)]);
  }

  /** An epoch keeps its terms, its claims only grow, and recovery is final. */
  predicate Continues(r: EpochRecord, q: EpochRecord) {
    && q == r.(claimed := q.claimed, status := q.status)
    && r.claimed <= q.claimed
    && (r.status == Recovered ==> q == r)
  }

  lemma StepContinues(s: State, op: Op, k: (u32, u64))
    requires Inv(s) && k in s.epochs
    ensures k in After(s, op).epochs && Continues(s.epochs[k], After(s, op).epochs[k])
  {
    assert RecordOk(s, k.0, k.1, s.epochs[k]);
    assert EpochIdsOk(s);
    hide Call, Inv, EpochIdsOk;
    if Call(s, op).Ok? {
      match op {
        case ClaimDividend(_, t, e, _) =>
          var c := ClaimHasEffect(s, op);
        case RecoverExpired(_, t, e) =>
          var r := RecoverHasEffect(s, op);
        case _ =>
          OtherKeepsRecords(s, op, k);
      }
    }
  }

  lemma OtherKeepsRecords(s: State, op: Op, k: (u32, u64))
    requires EpochIdsOk(s) && k in s.epochs && !op.ClaimDividend? && !op.RecoverExpired?
    ensures k in After(s, op).epochs && After(s, op).epochs[k] == s.epochs[k]
  {
  }

  lemma {:induction false} EpochContinues(s: State, ops: seq<Op>, k: (u32, u64))
    requires Inv(s) && k in s.epochs
    ensures k in RunFrom(s, ops).epochs && Continues(s.epochs[k], RunFrom(s, ops).epochs[k])
    decreases |ops|
  {
    hide After, Inv;
    if |ops| > 0 {
      EpochContinues(s, ops[..|ops| - 1], k);
      InvFrom(s, ops[..|ops| - 1]);
      StepContinues(RunFrom(s, ops[..|ops| - 1]), ops[|ops| - 1], k);
    }
  }

  /** After a recovery no run changes what was claimed or recovered, and no claim succeeds. */
  lemma RecoveredIsFinal(s: State, ops: seq<Op>, t: u32, e: u64, claimant: Address, split: Split)
    requires Inv(s) && (t, e) in s.epochs && s.epochs[(t, e)].status == Recovered
    ensures var u := RunFrom(s, ops);
            && (t, e) in u.epochs && u.epochs[(t, e)] == s.epochs[(t, e)]
            && ClaimedSum(u.claims, t, e) == ClaimedSum(s.claims, t, e)
            && RecoveredSum(u.recoveries, t, e) == RecoveredSum(s.recoveries, t, e)
            && ClaimDividendSpec(u, claimant, t, e, split) == Err(EpochExpired)
  {
    EpochContinues(s, ops, (t, e));
    InvFrom(s, ops);
    assert RecordOk(s, t, e, s.epochs[(t, e)]);
    assert RecordOk(RunFrom(s, ops), t, e, s.epochs[(t, e)]);
  }

  /** The claim guard is one per epoch number and patron, whichever talos the epoch is of:
      set exactly when some claim event carries that pair, and no pair has two events. */
  lemma ClaimedOnceAcrossTaloses(ops: seq<Op>, e: u64, a: Address)
    ensures (e, a) in Run(ops).claimed <==>
            exists i :: 0 <= i < |Run(ops).claims| && Run(ops).claims[i].epochId == e && Run(ops).claims[i].patron == a
    ensures forall i, j :: 0 <= i < j < |Run(ops).claims| ==>
              !(Run(ops).claims[i].epochId == Run(ops).claims[j].epochId
                && Run(ops).claims[i].patron == Run(ops).claims[j].patron)
  {
    InvAlways(ops);
  }
}
