/** What decides a claim: the patron data is the claimant's own argument, so nothing ties it to the
    registry's patrons. */
module DividendsClaims {
  import opened Common
  import opened DividendsModel
  import opened DividendsRuns
  import opened DividendsPatrons

  ghost predicate SharesFit(total: i128, split: Split) {
    && total * split.creatorShare <= I128_MAX
    && total * split.investorShare <= I128_MAX
    && total * split.treasuryShare <= I128_MAX
  }

  /** What the three rounded shares leave of the total. */
  function Remainder(total: i128, split: Split): int {
    total - (total * split.creatorShare / 100 + total * split.investorShare / 100 + total * split.treasuryShare / 100)
  }

  lemma DustIsRemainder(total: i128, split: Split)
    requires 1 <= total && CheckShares(split).Ok?
    ensures RoundingDust(total, split).Ok? <==> SharesFit(total, split)
    ensures SharesFit(total, split) ==> RoundingDust(total, split) == Ok(Remainder(total, split))
    ensures 0 <= Remainder(total, split) <= 2
  {
    var x, y, z := total * split.creatorShare, total * split.investorShare, total * split.treasuryShare;
    ThreeProducts(total, split, x, y, z);
    hide RoundingDust, CheckShares;
    ThreeFloors(x, y, z, total);
  }

  lemma AllocationIs(total: i128, share: u32)
    requires 1 <= total && total * share <= I128_MAX
    ensures Allocation(total, share) == if total * share < 100 then Err(ZeroAllocation) else Ok(total * share / 100)
  {
    NonNegativeProduct(total, share);
    PortionMeaning(total, share);
    FloorMeaning(total * share, 100, 1);
  }

  /** Exactly when a claim on an open epoch is accepted, whoever makes it, and what it pays: the
      claimant names itself a patron of shares that make 100, has not claimed that epoch number, and
      its rounded share is positive, leaves the dust recorded by the first claim, and is still there. */
  lemma ClaimAcceptedIff(s: State, a: Address, t: u32, e: u64, split: Split)
    requires Inv(s) && OpenEpoch(s, t, e).Ok?
    ensures var record, r := s.epochs[(t, e)], ClaimDividendSpec(s, a, t, e, split);
            var d := Deal(t, e, split, record.total);
            && (r.Ok? <==>
                  && split.creatorShare + split.investorShare + split.treasuryShare == 100
                  && d.Patron(a)
                  && (e, a) !in s.claimed
                  && SharesFit(record.total, split)
                  && 100 <= record.total * d.Share(a)
                  && ((t, e) in s.dust ==> s.dust[(t, e)] == Remainder(record.total, split))
                  && record.claimed + d.Pay(a) <= record.total)
            && (r.Ok? ==> r.value.1 == d.Pay(a))
  {
    var record := s.epochs[(t, e)];
    assert RecordOk(s, t, e, record);
    if CheckShares(split).Ok? && RoleOf(a, split).Ok? {
      DustIsRemainder(record.total, split);
      var share := Deal(t, e, split, record.total).Share(a);
      assert RoleOf(a, split).value.1 == share;
      if record.total * share <= I128_MAX {
        AllocationIs(record.total, share);
      }
      FloorMeaning(record.total * share, 100, 1);
    }
    hide Allocation, RoundingDust, Remainder, OpenEpoch, Inv, RecordOk;
  }

  /** Any claimant that has not claimed an open epoch's number and names itself the patron of the
      whole is paid the whole total, exactly while nothing is claimed and no dust but zero is recorded. */
  lemma SolePatronIsPaidAll(s: State, a: Address, b: Address, t: u32, e: u64)
    requires Inv(s) && OpenEpoch(s, t, e).Ok? && (e, a) !in s.claimed
    requires s.epochs[(t, e)].total * 100 <= I128_MAX
    ensures var record, r := s.epochs[(t, e)], ClaimDividendSpec(s, a, t, e, Split(a, b, b, 100, 0, 0));
            && (r.Ok? <==> record.claimed == 0 && ((t, e) in s.dust ==> s.dust[(t, e)] == 0))
            && (r.Ok? ==> r.value.1 == record.total)
  {
    var total := s.epochs[(t, e)].total;
    assert RecordOk(s, t, e, s.epochs[(t, e)]);
    ClaimAcceptedIff(s, a, t, e, Split(a, b, b, 100, 0, 0));
    assert total * 100 / 100 == total && total * 0 == 0;
    hide OpenEpoch, ClaimDividendSpec, Inv, RecordOk;
  }

  // ---------- what the entry points tell their callers ----------

  /** The event names the claimant in the first role that the split gives its address. */
  predicate IsClaimOf(c: ClaimEvent, a: Address, talosId: u32, epochId: u64, split: Split, amount: int) {
    && c.talosId == talosId && c.epochId == epochId && c.patron == a && c.amount == amount
    && match c.role
       case Creator => a == split.creator
       case Investor => a == split.investor != split.creator
       case Treasury => a == split.treasury && a != split.creator && a != split.investor
  }

  /** An accepted claim pays a positive rounded share of the epoch, books it within the total and
      marks the claimant; no other epoch changes. */
  ghost predicate ClaimPays(s: State, t: State, a: Address, talosId: u32, epochId: u64, split: Split, amount: i128) {
    && var key := (talosId, epochId);
    && key in s.epochs && key in t.epochs
    && var r, q := s.epochs[key], t.epochs[key];
    && r.status == Active && s.now <= r.createdAt + r.expirySecs
    && 0 < amount == Deal(talosId, epochId, split, r.total).Pay(a)
    && q == r.(claimed := q.claimed) && q.claimed == r.claimed + amount <= r.total
    && t.epochs == s.epochs[key := q]
    && (epochId, a) !in s.claimed && t.claimed == s.claimed + {(epochId, a)}
    && ClaimedSum(t.claims, talosId, epochId) == q.claimed
    && |t.claims| == |s.claims| + 1 && t.claims == s.claims + [t.claims[|s.claims|]]
    && IsClaimOf(t.claims[|s.claims|], a, talosId, epochId, split, amount)
    && key in t.dust && t.dust == s.dust[key := t.dust[key]] && t.dust[key] == Remainder(r.total, split)
    && t.admin == s.admin && t.pending == s.pending && t.now == s.now
    && t.nextEpochId == s.nextEpochId && t.recoveries == s.recoveries
  }

  lemma ClaimTells(s: State, a: Address, talosId: u32, epochId: u64, split: Split)
    requires Inv(s)
    ensures var r := ClaimDividendSpec(s, a, talosId, epochId, split);
            r.Ok? ==> ClaimPays(s, After(s, ClaimDividend(a, talosId, epochId, split)), a, talosId, epochId, split,
                                r.value.1)
  {
    var op := ClaimDividend(a, talosId, epochId, split);
    if ClaimDividendSpec(s, a, talosId, epochId, split).Ok? {
      OpenWhenClaimed(s, a, talosId, epochId, split);
      ClaimAcceptedIff(s, a, talosId, epochId, split);
      ClaimRecords(s, a, talosId, epochId, split);
      var c := ClaimHasEffect(s, op);
      hide Call, ClaimDividendSpec, CheckShares, Inv, Deal.Pay, IsClaimOf, Remainder;
      InvKept(s, op);
      RecordBooks(After(s, op), talosId, epochId);
    }
  }

  lemma ClaimRecords(s: State, a: Address, t: u32, e: u64, split: Split)
    requires Inv(s) && ClaimDividendSpec(s, a, t, e, split).Ok?
    ensures (t, e) in s.epochs
    ensures var u := After(s, ClaimDividend(a, t, e, split));
            && |u.claims| == |s.claims| + 1 && u.claims == s.claims + [u.claims[|s.claims|]]
            && IsClaimOf(u.claims[|s.claims|], a, t, e, split, ClaimDividendSpec(s, a, t, e, split).value.1)
            && (t, e) in u.dust && u.dust == s.dust[(t, e) := u.dust[(t, e)]]
            && u.dust[(t, e)] == Remainder(s.epochs[(t, e)].total, split)
  {
    OpenWhenClaimed(s, a, t, e, split);
    assert RecordOk(s, t, e, s.epochs[(t, e)]);
    assert CheckShares(split).Ok? by { hide RoundingDust, Allocation, OpenEpoch, Inv, RecordOk; }
    DustIsRemainder(s.epochs[(t, e)].total, split);
    hide RoundingDust, Allocation, CheckShares, Remainder, Inv, RecordOk;
  }

  lemma ClaimTellsAlways(ops: seq<Op>, a: Address, talosId: u32, epochId: u64, split: Split)
    ensures var s := Run(ops);
            var r := ClaimDividendSpec(s, a, talosId, epochId, split);
            r.Ok? ==> ClaimPays(s, After(s, ClaimDividend(a, talosId, epochId, split)), a, talosId, epochId, split,
                                r.value.1)
  {
    InvAlways(ops);
    ClaimTells(Run(ops), a, talosId, epochId, split);
  }

  lemma OpenWhenClaimed(s: State, a: Address, t: u32, e: u64, split: Split)
    requires ClaimDividendSpec(s, a, t, e, split).Ok?
    ensures OpenEpoch(s, t, e).Ok? && Call(s, ClaimDividend(a, t, e, split)).Ok?
  {
    hide RoundingDust, Allocation, OpenEpoch, CheckShares;
  }

  lemma RecordBooks(s: State, t: u32, e: u64)
    requires Inv(s) && (t, e) in s.epochs
    ensures var r := s.epochs[(t, e)];
            && ClaimedSum(s.claims, t, e) == r.claimed && 0 <= r.claimed <= r.total
            && (r.status == Active ==> RecoveredSum(s.recoveries, t, e) == 0)
            && (r.status == Recovered ==> r.claimed + RecoveredSum(s.recoveries, t, e) == r.total)
  {
    assert RecordOk(s, t, e, s.epochs[(t, e)]);
  }

  /** A recovery after the deadline returns exactly what was never claimed and closes the books. */
  ghost predicate Recovers(s: State, t: State, talosId: u32, epochId: u64, amount: i128) {
    && var key := (talosId, epochId);
    && key in s.epochs
    && var r := s.epochs[key];
    && r.status == Active && r.createdAt + r.expirySecs < s.now
    && 0 <= amount == r.total - ClaimedSum(s.claims, talosId, epochId)
    && RecoveredSum(s.recoveries, talosId, epochId) == 0
    && RecoveredSum(t.recoveries, talosId, epochId) == amount
    && t == s.(epochs := s.epochs[key := r.(status := EpochStatus.Recovered)], recoveries := t.recoveries)
  }

  lemma RecoveryTells(s: State, admin: Address, talosId: u32, epochId: u64)
    requires Inv(s)
    ensures var r := RecoverExpiredSpec(s, admin, talosId, epochId);
            r.Ok? ==> Recovers(s, After(s, RecoverExpired(admin, talosId, epochId)), talosId, epochId, r.value.1)
  {
    var op := RecoverExpired(admin, talosId, epochId);
    if RecoverExpiredSpec(s, admin, talosId, epochId).Ok? {
      LateWhenRecovered(s, admin, talosId, epochId);
      var r := RecoverHasEffect(s, op);
      hide Call, RecoverExpiredSpec;
      InvKept(s, op);
      RecordBooks(s, talosId, epochId);
      RecordBooks(After(s, op), talosId, epochId);
      RecordStatus(s, talosId, epochId);
      hide Inv;
    }
  }

  lemma RecoveryTellsAlways(ops: seq<Op>, admin: Address, talosId: u32, epochId: u64)
    ensures var s := Run(ops);
            var r := RecoverExpiredSpec(s, admin, talosId, epochId);
            r.Ok? ==> Recovers(s, After(s, RecoverExpired(admin, talosId, epochId)), talosId, epochId, r.value.1)
  {
    InvAlways(ops);
    RecoveryTells(Run(ops), admin, talosId, epochId);
  }

  lemma LateWhenRecovered(s: State, admin: Address, t: u32, e: u64)
    requires RecoverExpiredSpec(s, admin, t, e).Ok?
    ensures Call(s, RecoverExpired(admin, t, e)).Ok? && (t, e) in s.epochs
    ensures var r := s.epochs[(t, e)];
            r.createdAt + r.expirySecs < s.now
            && RecoverExpiredSpec(s, admin, t, e).value.1 == r.total - r.claimed
  {
  }

  lemma RecordStatus(s: State, t: u32, e: u64)
    requires Inv(s) && (t, e) in s.epochs
    ensures s.epochs[(t, e)].status == Active || s.epochs[(t, e)].status == Recovered
  {
    assert RecordOk(s, t, e, s.epochs[(t, e)]);
  }

  /** A commitment takes the first free number of its talos for an open, unclaimed epoch. */
  ghost predicate Commits(s: State, t: State, talosId: u32, epochId: u64, total: i128, expirySecs: u64) {
    && (forall e: u64 :: (talosId, e) in s.epochs <==> 1 <= e < epochId)
    && var record := EpochRecord(epochId, talosId, total, 0, s.now, expirySecs, Active);
    && t == s.(epochs := s.epochs[(talosId, epochId) := record],
               nextEpochId := t.nextEpochId)
    && ClaimedSum(t.claims, talosId, epochId) == RecoveredSum(t.recoveries, talosId, epochId) == 0
  }

  lemma CommitTells(s: State, admin: Address, talosId: u32, total: i128, expirySecs: u64)
    requires Inv(s)
    ensures var r := CommitEpochSpec(s, admin, talosId, total, expirySecs);
            && r != Err(EpochAlreadyExists)
            && (r.Ok? ==> Commits(s, After(s, CommitEpoch(admin, talosId, total, expirySecs)), talosId, r.value.1,
                                  total, expirySecs))
  {
    hide RecordsOk, EventsOk;
    if CommitEpochSpec(s, admin, talosId, total, expirySecs).Ok? {
      var t := After(s, CommitEpoch(admin, talosId, total, expirySecs));
      FreshNumber(s, talosId);
      assert t.claims == s.claims && t.recoveries == s.recoveries;
    }
  }

  lemma CommitTellsAlways(ops: seq<Op>, admin: Address, talosId: u32, total: i128, expirySecs: u64)
    ensures var s := Run(ops);
            var r := CommitEpochSpec(s, admin, talosId, total, expirySecs);
            && r != Err(EpochAlreadyExists)
            && (r.Ok? ==> Commits(s, After(s, CommitEpoch(admin, talosId, total, expirySecs)), talosId, r.value.1,
                                  total, expirySecs))
  {
    InvAlways(ops);
    CommitTells(Run(ops), admin, talosId, total, expirySecs);
  }

  lemma FreshNumber(s: State, talosId: u32)
    requires Inv(s)
    ensures forall e: u64 :: (talosId, e) in s.epochs <==> 1 <= e < NextEpoch(s, talosId)
    ensures ClaimedSum(s.claims, talosId, NextEpoch(s, talosId)) == 0
    ensures RecoveredSum(s.recoveries, talosId, NextEpoch(s, talosId)) == 0
  {
    assert (talosId, NextEpoch(s, talosId)) !in s.epochs;
    NoEventsNoSum(s.claims, s.recoveries, talosId, NextEpoch(s, talosId));
  }
}
