/** Three patrons of one epoch: their shares, their dust and the order of their claims. */
module DividendsPatrons {
  import opened Common
  import opened DividendsModel
  import opened DividendsRuns

  // ---------- shares and dust ----------

  /** A non-negative portion is the rounded-down percentage. */
  lemma PortionMeaning(total: i128, share: u32)
    requires 0 <= total && InI128(total * share)
    ensures Portion(total, share) == Ok(total * share / 100)
    ensures 0 <= total * share / 100
  {
    MulMono(0, total, share);
    TruncIsFloor(total * share, 100);
  }

  /** The three products make up the whole, and the dust is what their hundredths fall short by. */
  lemma ThreeProducts(total: i128, split: Split, x: int, y: int, z: int)
    requires 1 <= total && CheckShares(split).Ok?
    requires x == total * split.creatorShare && y == total * split.investorShare && z == total * split.treasuryShare
    ensures 0 <= x && 0 <= y && 0 <= z && x + y + z == total * 100
    ensures RoundingDust(total, split) == if x <= I128_MAX && y <= I128_MAX && z <= I128_MAX
                                          then Ok(total - (x / 100 + y / 100 + z / 100)) else Err(Overflow)
  {
    Distribute(total, split.creatorShare, split.investorShare, split.treasuryShare);
    PortionIs(total, split.creatorShare, x);
    PortionIs(total, split.investorShare, y);
    PortionIs(total, split.treasuryShare, z);
    hide Portion, RoundingDust;
    DustFrom(total, split, x, y, z);
  }

  lemma Distribute(total: int, a: int, b: int, c: int)
    ensures total * a + total * b + total * c == total * (a + b + c)
  {
  }

  lemma DustFrom(total: i128, split: Split, x: int, y: int, z: int)
    requires 0 <= x && 0 <= y && 0 <= z && x + y + z == total * 100
    requires Portion(total, split.creatorShare) == if x <= I128_MAX then Ok(x / 100) else Err(Overflow)
    requires Portion(total, split.investorShare) == if y <= I128_MAX then Ok(y / 100) else Err(Overflow)
    requires Portion(total, split.treasuryShare) == if z <= I128_MAX then Ok(z / 100) else Err(Overflow)
    ensures RoundingDust(total, split) == if x <= I128_MAX && y <= I128_MAX && z <= I128_MAX
                                          then Ok(total - (x / 100 + y / 100 + z / 100)) else Err(Overflow)
  {
    hide Portion;
    ThreeFloors(x, y, z, total);
  }

  lemma PortionIs(total: i128, share: u32, x: int)
    requires 0 <= total && x == total * share
    ensures 0 <= x
    ensures Portion(total, share) == if x <= I128_MAX then Ok(x / 100) else Err(Overflow)
  {
    NonNegativeProduct(total, share);
    TruncIsFloor(x, 100);
  }

  /** The three rounded shares and the dust make up the total, and the dust is at most two units. */
  lemma SharesAndDust(total: i128, split: Split)
    requires 1 <= total && CheckShares(split).Ok?
    requires InI128(total * split.creatorShare) && InI128(total * split.investorShare)
    requires InI128(total * split.treasuryShare)
    ensures RoundingDust(total, split).Ok? && 0 <= RoundingDust(total, split).value <= 2
    ensures total * split.creatorShare / 100 + total * split.investorShare / 100 + total * split.treasuryShare / 100
            + RoundingDust(total, split).value == total
  {
    var x, y, z := total * split.creatorShare, total * split.investorShare, total * split.treasuryShare;
    ThreeProducts(total, split, x, y, z);
    hide RoundingDust, CheckShares;
    ThreeFloors(x, y, z, total);
  }

  lemma NonNegativeProduct(a: int, b: int)
    requires 0 <= a && 0 <= b
    ensures 0 <= a * b
  {
  }

  /** Three hundredths rounded down fall short of their sum by at most two. */
  lemma ThreeFloors(x: int, y: int, z: int, total: int)
    requires 0 <= x && 0 <= y && 0 <= z && x + y + z == total * 100
    ensures 0 <= x / 100 <= x && 0 <= y / 100 <= y && 0 <= z / 100 <= z
    ensures 0 <= total - (x / 100 + y / 100 + z / 100) <= 2
  {
  }

  // ---------- the claims of one epoch ----------

  /** One epoch, the split its patrons use, and its total. */
  datatype Deal = Deal(talosId: u32, epochId: u64, split: Split, total: i128) {
    /** Distinct patrons, shares of the whole, and allocations that are neither zero nor too wide. */
    predicate Fair() {
      && split.creator != split.investor && split.creator != split.treasury && split.investor != split.treasury
      && CheckShares(split).Ok?
      && 1 <= total
      && 100 <= total * split.creatorShare <= I128_MAX
      && 100 <= total * split.investorShare <= I128_MAX
      && 100 <= total * split.treasuryShare <= I128_MAX
    }

    predicate Patron(a: Address) {
      a == split.creator || a == split.investor || a == split.treasury
    }

    function Share(a: Address): u32 {
      if a == split.creator then split.creatorShare
      else if a == split.investor then split.investorShare
      else split.treasuryShare
    }

    function Pay(a: Address): int {
      total * Share(a) / 100
    }

    function PaidTo(claimed: set<(u64, Address)>, a: Address): int {
      if (epochId, a) in claimed then Pay(a) else 0
    }

    function Paid(claimed: set<(u64, Address)>): int {
      PaidTo(claimed, split.creator) + PaidTo(claimed, split.investor) + PaidTo(claimed, split.treasury)
    }

    predicate AnyClaimed(claimed: set<(u64, Address)>) {
      || (epochId, split.creator) in claimed
      || (epochId, split.investor) in claimed
      || (epochId, split.treasury) in claimed
    }

    predicate AllClaimed(claimed: set<(u64, Address)>) {
      && (epochId, split.creator) in claimed
      && (epochId, split.investor) in claimed
      && (epochId, split.treasury) in claimed
    }
  }

  /** The epoch is not recovered, has paid exactly the patrons marked as claimed, and its dust,
      once recorded, is that of the split. */
  ghost predicate OnCourse(s: State, d: Deal) {
    && var key := (d.talosId, d.epochId);
    && key in s.epochs && s.epochs[key].status == Active && s.epochs[key].total == d.total
    && s.epochs[key].claimed == d.Paid(s.claimed)
    && RoundingDust(d.total, d.split).Ok?
    && (key in s.dust <==> d.AnyClaimed(s.claimed))
    && (key in s.dust ==> s.dust[key] == RoundingDust(d.total, d.split).value)
  }

  /** What a successful step must leave to the epoch's three patrons: nobody else is paid from it or
      recovers it, and its patrons are not paid under its number by another talos. */
  predicate Leaves(op: Op, d: Deal) {
    match op
    case ClaimDividend(a, t, e, split) =>
      if t == d.talosId && e == d.epochId then split == d.split && d.Patron(a)
      else e == d.epochId ==> !d.Patron(a)
    case RecoverExpired(_, t, e) => !(t == d.talosId && e == d.epochId)
    case _ => true
  }

  lemma FairPay(d: Deal, a: Address)
    requires d.Fair() && d.Patron(a)
    ensures Allocation(d.total, d.Share(a)) == Ok(d.Pay(a)) && 1 <= d.Pay(a)
  {
    PortionMeaning(d.total, d.Share(a));
  }

  lemma PaidAndDust(d: Deal, claimed: set<(u64, Address)>)
    requires d.Fair()
    ensures RoundingDust(d.total, d.split).Ok? && 0 <= RoundingDust(d.total, d.split).value <= 2
    ensures 0 <= d.Paid(claimed) <= d.total
    ensures d.AllClaimed(claimed) ==> d.total - d.Paid(claimed) == RoundingDust(d.total, d.split).value
  {
    SharesAndDust(d.total, d.split);
    FairPay(d, d.split.creator);
    FairPay(d, d.split.investor);
    FairPay(d, d.split.treasury);
  }

  lemma PayAdds(d: Deal, claimed: set<(u64, Address)>, a: Address)
    requires d.Fair() && d.Patron(a) && (d.epochId, a) !in claimed
    ensures d.Paid(claimed + {(d.epochId, a)}) == d.Paid(claimed) + d.Pay(a)
    ensures d.AnyClaimed(claimed + {(d.epochId, a)})
  {
  }

  /** On course and inside the window, a patron's claim is refused only if already made, and pays
      exactly the patron's rounded share. */
  lemma PatronClaims(s: State, d: Deal, a: Address)
    requires OnCourse(s, d) && d.Fair() && d.Patron(a)
    requires Deadline(s.epochs[(d.talosId, d.epochId)]).Ok?
    requires s.now <= Deadline(s.epochs[(d.talosId, d.epochId)]).value
    ensures var r := ClaimDividendSpec(s, a, d.talosId, d.epochId, d.split);
            && (r == Err(AlreadyClaimed) <==> (d.epochId, a) in s.claimed)
            && (r.Ok? <==> (d.epochId, a) !in s.claimed)
            && (r.Ok? ==> r.value.1 == d.Pay(a))
  {
    hide RoundingDust, Allocation, Deal.Paid, Deal.Pay;
    FairPay(d, a);
    PaidAndDust(d, s.claimed);
    if (d.epochId, a) !in s.claimed {
      PayAdds(d, s.claimed, a);
      PaidAndDust(d, s.claimed + {(d.epochId, a)});
    }
  }

  lemma ClaimStaysOnCourse(s: State, op: Op, d: Deal)
    requires OnCourse(s, d) && d.Fair() && Leaves(op, d) && op.ClaimDividend? && Call(s, op).Ok?
    ensures OnCourse(After(s, op), d)
  {
    hide RoundingDust, Allocation, Deal.Pay;
    if op.talosId == d.talosId && op.epochId == d.epochId {
      FairPay(d, op.claimant);
      PayAdds(d, s.claimed, op.claimant);
    }
  }

  lemma StepStaysOnCourse(s: State, op: Op, d: Deal)
    requires OnCourse(s, d) && d.Fair() && (Call(s, op).Ok? ==> Leaves(op, d))
    ensures OnCourse(After(s, op), d)
    ensures s.claimed <= After(s, op).claimed
    ensures After(s, op).epochs[(d.talosId, d.epochId)].createdAt == s.epochs[(d.talosId, d.epochId)].createdAt
    ensures After(s, op).epochs[(d.talosId, d.epochId)].expirySecs == s.epochs[(d.talosId, d.epochId)].expirySecs
  {
    if op.ClaimDividend? && Call(s, op).Ok? {
      ClaimStaysOnCourse(s, op, d);
      hide OnCourse, RoundingDust, Allocation;
    }
  }

  /** Every step that succeeds leaves the epoch to its patrons; refused calls are free. */
  ghost predicate AllLeave(s: State, ops: seq<Op>, d: Deal) {
    |ops| > 0 ==>
      var front, op := ops[..|ops| - 1], ops[|ops| - 1];
      AllLeave(s, front, d) && (Call(RunFrom(s, front), op).Ok? ==> Leaves(op, d))
  }

  lemma {:induction false} AllLeaveSplits(s: State, ops: seq<Op>, d: Deal, k: nat)
    requires k <= |ops| && AllLeave(s, ops, d)
    ensures AllLeave(s, ops[..k], d) && AllLeave(RunFrom(s, ops[..k]), ops[k..], d)
    decreases |ops|
  {
    hide Call, Leaves;
    if k == |ops| {
      assert ops[..k] == ops && ops[k..] == [];
    } else {
      var front, rest := ops[..|ops| - 1], ops[k..];
      AllLeaveSplits(s, front, d, k);
      assert front[..k] == ops[..k];
      assert rest[..|rest| - 1] == front[k..];
      RunSplits(s, front, k);
    }
  }

  lemma {:induction false} RunStaysOnCourse(s: State, ops: seq<Op>, d: Deal)
    requires OnCourse(s, d) && d.Fair() && AllLeave(s, ops, d)
    ensures OnCourse(RunFrom(s, ops), d)
    ensures s.claimed <= RunFrom(s, ops).claimed
    ensures Deadline(RunFrom(s, ops).epochs[(d.talosId, d.epochId)]) == Deadline(s.epochs[(d.talosId, d.epochId)])
    decreases |ops|
  {
    hide After, Leaves;
    if |ops| > 0 {
      RunStaysOnCourse(s, ops[..|ops| - 1], d);
      StepStaysOnCourse(RunFrom(s, ops[..|ops| - 1]), ops[|ops| - 1], d);
    }
  }

  /** Patron `a` claims at step `k` of the run, inside the window. */
  ghost predicate ClaimsInWindow(s: State, ops: seq<Op>, d: Deal, a: Address, k: int) {
    && 0 <= k < |ops|
    && ops[k] == ClaimDividend(a, d.talosId, d.epochId, d.split)
    && (d.talosId, d.epochId) in s.epochs
    && Deadline(s.epochs[(d.talosId, d.epochId)]).Ok?
    && RunFrom(s, ops[..k]).now <= Deadline(s.epochs[(d.talosId, d.epochId)]).value
  }

  lemma {:induction false} RunSplits(s: State, ops: seq<Op>, k: nat)
    requires k <= |ops|
    ensures RunFrom(s, ops) == RunFrom(RunFrom(s, ops[..k]), ops[k..])
    decreases |ops|
  {
    hide After;
    if k == |ops| {
      assert ops[..k] == ops;
    } else {
      var front := ops[..|ops| - 1];
      RunSplits(s, front, k);
      assert front[..k] == ops[..k];
      assert ops[k..][..|ops[k..]| - 1] == front[k..];
    }
  }

  /** A patron that claims in time ends up paid, wherever its claim stands in the run. */
  lemma ClaimInWindowPays(s: State, ops: seq<Op>, d: Deal, a: Address, k: int)
    requires OnCourse(s, d) && d.Fair() && AllLeave(s, ops, d) && d.Patron(a) && ClaimsInWindow(s, ops, d, a, k)
    ensures (d.epochId, a) in RunFrom(s, ops).claimed
  {
    hide OnCourse, Deal.Fair, ClaimDividendSpec, AllLeave;
    var r := RunFrom(s, ops[..k]);
    AllLeaveSplits(s, ops, d, k);
    AllLeaveSplits(s, ops, d, k + 1);
    RunStaysOnCourse(s, ops[..k], d);
    PatronClaims(r, d, a);
    ClaimMarks(r, d, a);
    assert ops[..k + 1][..k] == ops[..k];
    assert RunFrom(s, ops[..k + 1]) == After(r, ops[k]);
    RunStaysOnCourse(s, ops[..k + 1], d);
    RunSplits(s, ops, k + 1);
    RunStaysOnCourse(RunFrom(s, ops[..k + 1]), ops[k + 1..], d);
  }

  lemma ClaimMarks(s: State, d: Deal, a: Address)
    requires ClaimDividendSpec(s, a, d.talosId, d.epochId, d.split).Ok? || (d.epochId, a) in s.claimed
    ensures (d.epochId, a) in After(s, ClaimDividend(a, d.talosId, d.epochId, d.split)).claimed
  {
    hide RoundingDust, Allocation, CheckShares;
  }

  /** Once the three have claimed and the window has closed, recovery returns exactly the dust. */
  lemma RecoveryReturnsDust(s: State, d: Deal, admin: Address)
    requires OnCourse(s, d) && d.Fair() && d.AllClaimed(s.claimed) && s.admin == Some(admin)
    requires Deadline(s.epochs[(d.talosId, d.epochId)]).Ok?
    ensures var r := RecoverExpiredSpec(s, admin, d.talosId, d.epochId);
            if s.now <= Deadline(s.epochs[(d.talosId, d.epochId)]).value then r == Err(EpochNotExpired)
            else r.Ok? && Ok(r.value.1) == RoundingDust(d.total, d.split) && 0 <= r.value.1 <= 2
  {
    PaidAndDust(d, s.claimed);
    hide RoundingDust, Deal.Paid, Deal.Fair;
  }

  /** If the three patrons of an epoch on course each claim in time, in any order and with any other
      steps between, all are paid their rounded shares and a later recovery returns exactly the dust. */
  lemma ThreeClaimsLeaveDust(s: State, ops: seq<Op>, d: Deal, i: int, j: int, k: int)
    requires OnCourse(s, d) && d.Fair() && AllLeave(s, ops, d)
    requires ClaimsInWindow(s, ops, d, d.split.creator, i) && ClaimsInWindow(s, ops, d, d.split.investor, j)
    requires ClaimsInWindow(s, ops, d, d.split.treasury, k)
    ensures var u := RunFrom(s, ops);
            && OnCourse(u, d) && d.AllClaimed(u.claimed)
            && u.epochs[(d.talosId, d.epochId)].claimed ==
               d.Pay(d.split.creator) + d.Pay(d.split.investor) + d.Pay(d.split.treasury)
            && var dust := RoundingDust(d.total, d.split);
            && dust.Ok? && d.total - u.epochs[(d.talosId, d.epochId)].claimed == dust.value
            && (u.admin.Some? && u.now > Deadline(s.epochs[(d.talosId, d.epochId)]).value ==>
                  var r := RecoverExpiredSpec(u, u.admin.value, d.talosId, d.epochId);
                  r.Ok? && r.value.1 == dust.value)
  {
    var u := RunFrom(s, ops);
    ClaimInWindowPays(s, ops, d, d.split.creator, i);
    ClaimInWindowPays(s, ops, d, d.split.investor, j);
    ClaimInWindowPays(s, ops, d, d.split.treasury, k);
    RunStaysOnCourse(s, ops, d);
    PaidAndDust(d, u.claimed);
    if u.admin.Some? {
      RecoveryReturnsDust(u, d, u.admin.value);
    }
    hide RoundingDust, Deal.Pay, Deal.Fair, RunFrom, RecoverExpiredSpec, AllLeave;
  }

  /** A freshly committed epoch whose number its patrons have not used is on course. */
  lemma FreshEpochOnCourse(s: State, d: Deal)
    requires d.Fair() && (d.talosId, d.epochId) in s.epochs && (d.talosId, d.epochId) !in s.dust
    requires !d.AnyClaimed(s.claimed)
    requires var r := s.epochs[(d.talosId, d.epochId)]; r.status == Active && r.total == d.total && r.claimed == 0
    ensures OnCourse(s, d)
  {
    SharesAndDust(d.total, d.split);
  }

  /** So every commitment starts an epoch on course, for any fair split whose patrons have not used
      its number under another talos. */
  lemma CommitStartsOnCourse(ops: seq<Op>, commit: Op, split: Split)
    requires commit.CommitEpoch? && Call(Run(ops), commit).Ok?
    requires var d := Deal(commit.talosId, NextEpoch(Run(ops), commit.talosId), split, commit.total);
             d.Fair() && !d.AnyClaimed(Run(ops).claimed)
    ensures OnCourse(After(Run(ops), commit),
                     Deal(commit.talosId, NextEpoch(Run(ops), commit.talosId), split, commit.total))
  {
    InvAlways(ops);
    DustHasEpoch(ops);
    hide Run, Deal.Fair;
    FreshEpochOnCourse(After(Run(ops), commit),
                       Deal(commit.talosId, NextEpoch(Run(ops), commit.talosId), split, commit.total));
  }

  const ADMIN := Address(9)
  const SPLIT := Split(Address(1), Address(2), Address(3), 60, 30, 10)
  const DEAL := Deal(1, 1, SPLIT, 1_001)
  const SHARED: State := DEPLOYED.(admin := Some(ADMIN),
                                   epochs := map[(1, 1) := EpochRecord(1, 1, 1_001, 0, 0, 3_600, Active)],
                                   nextEpochId := map[1 := 2])

  lemma FirstSteps()
    ensures After(DEPLOYED, Initialize(ADMIN)) == DEPLOYED.(admin := Some(ADMIN))
    ensures After(DEPLOYED.(admin := Some(ADMIN)), CommitEpoch(ADMIN, 1, 1_001, 3_600)) == SHARED
  {
    var epochs: map<(u32, u64), EpochRecord>, next: map<u32, u64> := map[], map[];
    var record := EpochRecord(1, 1, 1_001, 0, 0, 3_600, Active);
    assert epochs[(1, 1) := record] == map[(1, 1) := record];
    assert next[1 := 2] == map[1 := 2];
  }

  lemma SharedIsReachable()
    ensures Run([Initialize(ADMIN), CommitEpoch(ADMIN, 1, 1_001, 3_600)]) == SHARED
  {
    hide After;
    FirstSteps();
    var one, two := [Initialize(ADMIN)], [Initialize(ADMIN), CommitEpoch(ADMIN, 1, 1_001, 3_600)];
    assert one[..0] == [] && two[..1] == one;
    assert RunFrom(DEPLOYED, one) == After(RunFrom(DEPLOYED, one[..0]), one[0]);
    assert RunFrom(DEPLOYED, two) == After(RunFrom(DEPLOYED, two[..1]), two[1]);
  }

  lemma SharedOnCourse()
    ensures DEAL.Fair() && RoundingDust(1_001, SPLIT) == Ok(1) && OnCourse(SHARED, DEAL)
  {
    PortionMeaning(1_001, 60);
    PortionMeaning(1_001, 30);
    PortionMeaning(1_001, 10);
  }

  function ClaimBy(a: Address): Op {
    ClaimDividend(a, 1, 1, SPLIT)
  }

  lemma {:induction false} TimeStands(s: State, ops: seq<Op>)
    requires forall op :: op in ops ==> op.ClaimDividend? || op.RecoverExpired?
    ensures RunFrom(s, ops).now == s.now && RunFrom(s, ops).admin == s.admin
    decreases |ops|
  {
    hide RoundingDust, Allocation, OpenEpoch, CheckShares;
    if |ops| > 0 {
      assert ops[|ops| - 1] in ops;
      TimeStands(s, ops[..|ops| - 1]);
    }
  }

  lemma LeaveSnoc(s: State, ops: seq<Op>, op: Op, d: Deal)
    requires AllLeave(s, ops, d) && (Call(RunFrom(s, ops), op).Ok? ==> Leaves(op, d))
    ensures AllLeave(s, ops + [op], d)
  {
    assert (ops + [op])[..|ops|] == ops;
  }

  lemma StrangerIsRefused(s: State)
    ensures Call(s, ClaimBy(ADMIN)).Err?
  {
  }

  lemma EarlyRecoveryIsRefused(s: State, d: Deal, admin: Address)
    requires OnCourse(s, d) && Deadline(s.epochs[(d.talosId, d.epochId)]).Ok?
    requires s.now <= Deadline(s.epochs[(d.talosId, d.epochId)]).value
    ensures Call(s, RecoverExpired(admin, d.talosId, d.epochId)).Err?
  {
  }

  const CLAIMS: seq<Op> := [ClaimBy(Address(3)), RecoverExpired(ADMIN, 1, 1), ClaimBy(ADMIN), ClaimBy(Address(1)),
                            ClaimBy(Address(2)), Tick(3_601)]

  lemma ClaimsLeave()
    requires OnCourse(SHARED, DEAL) && DEAL.Fair()
    ensures AllLeave(SHARED, CLAIMS, DEAL)
  {
    hide Call, RunFrom, OnCourse, Deal.Fair;
    LeaveSnoc(SHARED, [], ClaimBy(Address(3)), DEAL);
    var one := [] + [ClaimBy(Address(3))];
    RunStaysOnCourse(SHARED, one, DEAL);
    TimeStands(SHARED, one);
    EarlyRecoveryIsRefused(RunFrom(SHARED, one), DEAL, ADMIN);
    LeaveSnoc(SHARED, one, RecoverExpired(ADMIN, 1, 1), DEAL);
    var two := one + [RecoverExpired(ADMIN, 1, 1)];
    StrangerIsRefused(RunFrom(SHARED, two));
    LeaveSnoc(SHARED, two, ClaimBy(ADMIN), DEAL);
    var three := two + [ClaimBy(ADMIN)];
    LeaveSnoc(SHARED, three, ClaimBy(Address(1)), DEAL);
    LeaveSnoc(SHARED, three + [ClaimBy(Address(1))], ClaimBy(Address(2)), DEAL);
    LeaveSnoc(SHARED, three + [ClaimBy(Address(1))] + [ClaimBy(Address(2))], Tick(3_601), DEAL);
    assert three + [ClaimBy(Address(1))] + [ClaimBy(Address(2))] + [Tick(3_601)] == CLAIMS;
  }

  lemma ClaimsAreInWindow()
    ensures ClaimsInWindow(SHARED, CLAIMS, DEAL, SPLIT.treasury, 0)
    ensures ClaimsInWindow(SHARED, CLAIMS, DEAL, SPLIT.creator, 3)
    ensures ClaimsInWindow(SHARED, CLAIMS, DEAL, SPLIT.investor, 4)
    ensures RunFrom(SHARED, CLAIMS).now == 3_601 && RunFrom(SHARED, CLAIMS).admin == Some(ADMIN)
  {
    hide RunFrom;
    TimeStands(SHARED, CLAIMS[..0]);
    TimeStands(SHARED, CLAIMS[..3]);
    TimeStands(SHARED, CLAIMS[..4]);
    TimeStands(SHARED, CLAIMS[..5]);
    LastTick();
  }

  /** The conditions of `ThreeClaimsLeaveDust` are met by a run of the contract, with a refused
      recovery and a refused stranger in between; its dust of one unit is then recovered. */
  lemma ThreeClaimsHappen()
    ensures Run([Initialize(ADMIN), CommitEpoch(ADMIN, 1, 1_001, 3_600)]) == SHARED
    ensures OnCourse(SHARED, DEAL) && DEAL.Fair() && AllLeave(SHARED, CLAIMS, DEAL)
    ensures ClaimsInWindow(SHARED, CLAIMS, DEAL, SPLIT.treasury, 0)
    ensures ClaimsInWindow(SHARED, CLAIMS, DEAL, SPLIT.creator, 3)
    ensures ClaimsInWindow(SHARED, CLAIMS, DEAL, SPLIT.investor, 4)
    ensures var r := RecoverExpiredSpec(RunFrom(SHARED, CLAIMS), ADMIN, 1, 1); r.Ok? && r.value.1 == 1
  {
    assert Deadline(SHARED.epochs[(1, 1)]) == Ok(3_600);
    assert DEAL.talosId == DEAL.epochId == 1 && DEAL.total == 1_001 && DEAL.split == SPLIT;
    SharedIsReachable();
    SharedOnCourse();
    hide *;
    ClaimsLeave();
    ClaimsAreInWindow();
    ThreeClaimsLeaveDust(SHARED, CLAIMS, DEAL, 3, 4, 0);
  }

  lemma LastTick()
    requires RunFrom(SHARED, CLAIMS[..5]).now == 0
    ensures RunFrom(SHARED, CLAIMS).now == 3_601
    ensures RunFrom(SHARED, CLAIMS).admin == RunFrom(SHARED, CLAIMS[..5]).admin
  {
    assert CLAIMS[5] == Tick(3_601);
  }

  // ---------- the guard's missing talos ----------

  /** Exactly when a patron that never claimed this epoch is refused as a repeat claimant: it has
      claimed an epoch of the same number under another talos. */
  lemma RefusedForAnotherTalos(ops: seq<Op>, a: Address, t: u32, e: u64, split: Split)
    requires OpenEpoch(Run(ops), t, e).Ok? && CheckShares(split).Ok? && RoleOf(a, split).Ok?
    requires forall c :: c in Run(ops).claims && c.epochId == e && c.patron == a ==> c.talosId != t
    ensures ClaimDividendSpec(Run(ops), a, t, e, split) == Err(AlreadyClaimed)
            <==> exists c :: c in Run(ops).claims && c.talosId != t && c.epochId == e && c.patron == a
  {
    hide RoundingDust, Allocation, OpenEpoch, CheckShares, Run;
    InvAlways(ops);
    LaterErrors(Run(ops), a, t, e, split);
  }

  /** Past the guard, no later check answers with the guard's error. */
  lemma LaterErrors(s: State, a: Address, t: u32, e: u64, split: Split)
    requires OpenEpoch(s, t, e).Ok? && CheckShares(split).Ok? && RoleOf(a, split).Ok?
    ensures ClaimDividendSpec(s, a, t, e, split) == Err(AlreadyClaimed) <==> (e, a) in s.claimed
  {
  }

  lemma Then(ops: seq<Op>, op: Op, s: State) returns (longer: seq<Op>)
    requires Run(ops) == s && Call(s, op).Ok?
    ensures longer == ops + [op] && Run(longer) == Call(s, op).value
  {
    longer := ops + [op];
    RunSnoc(ops, op);
  }

  /** Both taloses have an open epoch 1 and nobody has claimed. */
  lemma TwoTaloses(a: Address) returns (ops: seq<Op>)
    ensures ops == [Initialize(a), CommitEpoch(a, 1, 1_000, 3_600), CommitEpoch(a, 2, 1_000, 3_600)]
    ensures var s := Run(ops);
            && OpenEpoch(s, 1, 1) == Ok(EpochRecord(1, 1, 1_000, 0, 0, 3_600, Active))
            && OpenEpoch(s, 2, 1) == Ok(EpochRecord(1, 2, 1_000, 0, 0, 3_600, Active))
            && s.claimed == {} && s.dust == map[] && s.claims == []
  {
    assert Run([]) == DEPLOYED;
    hide Run, RunFrom;
    ops := [];
    ops := Then(ops, Initialize(a), DEPLOYED);
    ops := Then(ops, CommitEpoch(a, 1, 1_000, 3_600), Run(ops));
    ops := Then(ops, CommitEpoch(a, 2, 1_000, 3_600), Run(ops));
  }

  /** A claim of a first-time patron is refused because of a claim on another talos's epoch of the
      same number: the guard does not tell taloses apart. */
  lemma GuardForgetsTalos() returns (ops: seq<Op>, a: Address, split: Split)
    ensures split == Split(a, Address(2), Address(3), 60, 30, 10)
    ensures ops == [Initialize(a), CommitEpoch(a, 1, 1_000, 3_600), CommitEpoch(a, 2, 1_000, 3_600),
                    ClaimDividend(a, 1, 1, split)]
    ensures ClaimDividendSpec(Run(ops), a, 2, 1, split) == Err(AlreadyClaimed)
    ensures (2, 1) in Run(ops).epochs && ClaimedSum(Run(ops).claims, 2, 1) == 0
  {
    a := Address(1);
    split := Split(a, Address(2), Address(3), 60, 30, 10);
    assert RoundingDust(1_000, split) == Ok(0) && Allocation(1_000, 60) == Ok(600);
    hide Run, RunFrom, RoundingDust, Allocation;
    ops := TwoTaloses(a);
    ops := Then(ops, ClaimDividend(a, 1, 1, split), Run(ops));
    assert Run(ops).claims == [ClaimEvent(1, 1, a, 600, Creator)];
  }
}
