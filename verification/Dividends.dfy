/** The dividend contract over its storage keys; every entry point does what `DividendsModel` says. */
module Dividends {
  import opened Common
  import opened DividendsModel
  import opened DividendsRuns
  import opened DividendsClaims
  import opened DividendsAdmins

  function Answer<T>(o: Outcome<(State, T)>): Outcome<T> {
    match o
    case Ok(p) => Ok(p.1)
    case Err(e) => Err(e)
  }

  class TalosDividends {
    var now: u64
    var admin: Option<Address>
    var pendingAdmin: Option<Address>
    var epochs: map<(u32, u64), EpochRecord>
    var claimed: set<(u64, Address)>
    var roundingDust: map<(u32, u64), i128>
    var nextEpochId: map<u32, u64>
    var claims: seq<ClaimEvent>
    var recoveries: seq<RecoveryEvent>
    ghost var trace: seq<Op>

    ghost function View(): State
      reads this
    {
      State(now, admin, pendingAdmin, epochs, claimed, roundingDust, nextEpochId, claims, recoveries)
    }

    /** The object is where its calls so far have taken a fresh deployment. */
    ghost predicate Valid()
      reads this
    {
      View() == Run(trace)
    }

    constructor ()
      ensures Valid() && trace == []
    {
      now, admin, pendingAdmin := 0, None, None;
      epochs, claimed, roundingDust, nextEpochId := map[], {}, map[], map[];
      claims, recoveries, trace := [], [], [];
    }

    /** Adds a call to the trace; what it must lead to is then fixed. */
    ghost method Take(op: Op)
      requires Valid()
      modifies this`trace
      ensures trace == old(trace) + [op] && Run(trace) == After(View(), op)
    {
      trace := trace + [op];
      RunSnoc(old(trace), op);
    }

    method AdvanceTime(seconds: nat) returns (r: Outcome<()>)
      requires Valid()
      modifies this
      ensures Valid() && trace == old(trace) + [Tick(seconds)]
      ensures View() == After(old(View()), Tick(seconds))
      ensures r.Ok? <==> Call(old(View()), Tick(seconds)).Ok?
    {
      hide Run;
      Take(Tick(seconds));
      if now + seconds > U64_MAX {
        return Err(Trap);
      }
      now := now + seconds;
      return Ok(());
    }

    method Initialize(admin: Address) returns (r: Outcome<()>)
      requires Valid()
      modifies this
      ensures Valid() && trace == old(trace) + [Op.Initialize(admin)]
      ensures View() == After(old(View()), Op.Initialize(admin))
      ensures r.Ok? <==> Call(old(View()), Op.Initialize(admin)).Ok?
      ensures r.Ok? <==> forall op :: op in old(trace) ==> !op.Initialize?
      ensures r.Ok? ==> View() == old(View()).(admin := Some(admin))
      ensures r.Err? ==> View() == old(View())
    {
      AdminIffInitialized(trace);
      hide Run;
      Take(Op.Initialize(admin));
      if this.admin.Some? {
        return Err(AlreadyInitialized);
      }
      this.admin := Some(admin);
      return Ok(());
    }

    /** Nominates a successor; the nominator stays the admin. */
    method ProposeAdmin(caller: Address, nominee: Address) returns (r: Outcome<()>)
      requires Valid()
      modifies this
      ensures Valid() && trace == old(trace) + [Op.ProposeAdmin(caller, nominee)]
      ensures View() == After(old(View()), Op.ProposeAdmin(caller, nominee))
      ensures r == ToUnit(Call(old(View()), Op.ProposeAdmin(caller, nominee)))
      ensures r.Ok? <==> exists k :: LastToTakeOver(old(trace), k, caller)
      ensures r.Ok? ==> View() == old(View()).(pending := Some(nominee))
      ensures r.Err? ==> View() == old(View())
    {
      AdminIs(trace, caller);
      hide Run, LastToTakeOver;
      Take(Op.ProposeAdmin(caller, nominee));
      if admin.None? {
        return Err(NotInitialized);
      }
      if admin.value != caller {
        return Err(Trap);
      }
      pendingAdmin := Some(nominee);
      return Ok(());
    }

    /** Only the standing nominee of the admin of that moment becomes the admin. */
    method AcceptAdmin(caller: Address) returns (r: Outcome<()>)
      requires Valid()
      modifies this
      ensures Valid() && trace == old(trace) + [Op.AcceptAdmin(caller)]
      ensures View() == After(old(View()), Op.AcceptAdmin(caller))
      ensures r == ToUnit(Call(old(View()), Op.AcceptAdmin(caller)))
      ensures r.Ok? <==> exists j :: Nominates(old(trace), j, |old(trace)|, caller)
      ensures r.Ok? ==> View() == old(View()).(admin := Some(caller), pending := None)
      ensures r.Err? ==> View() == old(View())
    {
      NomineeIs(trace, caller);
      hide Run, Nominates;
      Take(Op.AcceptAdmin(caller));
      if pendingAdmin.None? {
        return Err(NoPendingAdmin);
      }
      if pendingAdmin.value != caller {
        return Err(Trap);
      }
      admin, pendingAdmin := pendingAdmin, None;
      return Ok(());
    }

    /** The admin withdraws a standing nomination: nobody can accept until the next one. */
    method CancelAdminTransfer(caller: Address) returns (r: Outcome<()>)
      requires Valid()
      modifies this
      ensures Valid() && trace == old(trace) + [Op.CancelAdminTransfer(caller)]
      ensures View() == After(old(View()), Op.CancelAdminTransfer(caller))
      ensures r == ToUnit(Call(old(View()), Op.CancelAdminTransfer(caller)))
      ensures r.Ok? ==> exists k :: LastToTakeOver(old(trace), k, caller)
      ensures r.Ok? ==> View() == old(View()).(pending := None)
      ensures r.Ok? ==> forall anyone, j :: !Nominates(trace, j, |trace|, anyone)
      ensures r.Err? ==> View() == old(View())
    {
      AdminIs(trace, caller);
      NobodyNominated(trace + [Op.CancelAdminTransfer(caller)]);
      hide Run, LastToTakeOver, Nominates;
      Take(Op.CancelAdminTransfer(caller));
      if admin.None? {
        return Err(NotInitialized);
      }
      if admin.value != caller {
        return Err(Trap);
      }
      if pendingAdmin.None? {
        return Err(NoPendingAdmin);
      }
      pendingAdmin := None;
      return Ok(());
    }

    method CheckAdmin(admin: Address) returns (r: Outcome<()>)
      ensures r == RequireAdmin(View(), admin)
    {
      if this.admin.None? {
        return Err(NotInitialized);
      }
      return if this.admin.value == admin then Ok(()) else Err(Unauthorized);
    }

    method CommitEpoch(admin: Address, talosId: u32, total: i128, expirySecs: u64) returns (r: Outcome<u64>)
      requires Valid()
      modifies this
      ensures Valid() && trace == old(trace) + [Op.CommitEpoch(admin, talosId, total, expirySecs)]
      ensures View() == After(old(View()), Op.CommitEpoch(admin, talosId, total, expirySecs))
      ensures r == Answer(CommitEpochSpec(old(View()), admin, talosId, total, expirySecs))
      ensures r != Err(EpochAlreadyExists)
      ensures r.Ok? ==> Commits(old(View()), View(), talosId, r.value, total, expirySecs)
      ensures r.Err? ==> View() == old(View())
    {
      CommitTellsAlways(trace, admin, talosId, total, expirySecs);
      hide Commits;
      hide Run;
      Take(Op.CommitEpoch(admin, talosId, total, expirySecs));
      var _ :- CheckAdmin(admin);
      if total < MIN_EPOCH_AMOUNT {
        return Err(InvalidEpochParams);
      }
      if expirySecs < MIN_EXPIRY_SECS || expirySecs > MAX_EXPIRY_SECS {
        return Err(InvalidEpochParams);
      }
      var epochId := if talosId in nextEpochId then nextEpochId[talosId] else 1;
      if (talosId, epochId) in epochs {
        return Err(EpochAlreadyExists);
      }
      if epochId == U64_MAX {
        return Err(Trap);
      }
      epochs := epochs[(talosId, epochId) := EpochRecord(epochId, talosId, total, 0, now, expirySecs, Active)];
      nextEpochId := nextEpochId[talosId := epochId + 1];
      return Ok(epochId);
    }

    /** Finds the epoch while claims on it are open; its books are then in order and it cannot be
        recovered yet. */
    method CheckOpen(talosId: u32, epochId: u64) returns (r: Outcome<EpochRecord>)
      requires Inv(View())
      ensures r == OpenEpoch(View(), talosId, epochId)
      ensures r == Err(EpochNotFound) <==> !(1 <= epochId < NextEpoch(View(), talosId))
      ensures r.Ok? ==> (talosId, epochId) in epochs && r.value == epochs[(talosId, epochId)]
      ensures r.Ok? ==> r.value.status == Active && now <= r.value.createdAt + r.value.expirySecs
      ensures r.Ok? ==> 0 <= r.value.claimed == ClaimedSum(claims, talosId, epochId) <= r.value.total
      ensures r.Ok? ==> forall caller :: RecoverExpiredSpec(View(), caller, talosId, epochId).Err?
    {
      if (talosId, epochId) !in epochs {
        return Err(EpochNotFound);
      }
      RecordBooks(View(), talosId, epochId);
      var record := epochs[(talosId, epochId)];
      if record.status != Active {
        return Err(EpochExpired);
      }
      if record.createdAt + record.expirySecs > U64_MAX {
        return Err(Overflow);
      }
      if now > record.createdAt + record.expirySecs {
        return Err(EpochExpired);
      }
      return Ok(record);
    }

    /** The percentage rounded down to a whole positive amount. */
    method ComputeAllocation(total: i128, share: u32) returns (r: Outcome<i128>)
      ensures r == Allocation(total, share)
      ensures r.Ok? ==> 0 < r.value && r.value * 100 <= total * share < (r.value + 1) * 100
      ensures r == Err(ZeroAllocation) <==> InI128(total * share) && total * share < 100
      ensures r == Err(Overflow) <==> !InI128(total * share)
    {
      var numerator :- CheckedI128(total * share, Overflow);
      var allocation := TruncDiv(numerator, 100);
      if allocation <= 0 {
        return Err(ZeroAllocation);
      }
      return Ok(allocation);
    }

    /** For shares of the whole, at most two units: what the three rounded portions leave. */
    method ComputeRoundingDust(total: i128, split: Split) returns (r: Outcome<i128>)
      ensures r == RoundingDust(total, split)
      ensures 1 <= total && CheckShares(split).Ok? ==>
                && (r.Ok? <==> SharesFit(total, split))
                && (r.Ok? ==> 0 <= r.value <= 2 && r.value == Remainder(total, split))
    {
      if 1 <= total && CheckShares(split).Ok? {
        DustIsRemainder(total, split);
      }
      hide TruncDiv, CheckShares, SharesFit, Remainder;
      var creator :- CheckedI128(total * split.creatorShare, Overflow);
      var investor :- CheckedI128(total * split.investorShare, Overflow);
      var treasury :- CheckedI128(total * split.treasuryShare, Overflow);
      var two :- CheckedI128(TruncDiv(creator, 100) + TruncDiv(investor, 100), Overflow);
      var distributed :- CheckedI128(two as int + TruncDiv(treasury, 100), Overflow);
      r := CheckedI128(total - distributed, Overflow);
    }

    /** Records the dust and books the claim; an error late on undoes the recorded dust. */
    method BookClaim(record: EpochRecord, claim: ClaimEvent, dust: i128) returns (r: Outcome<()>)
      modifies this`roundingDust, this`claimed, this`epochs, this`claims
      ensures match DividendsModel.BookClaim(old(View()), record, claim, dust)
              case Ok(t) => r == Ok(()) && View() == t
              case Err(e) => r == Err(e) && View() == old(View())
    {
      var key, dustBefore := (claim.talosId, claim.epochId), roundingDust;
      if key in roundingDust {
        if roundingDust[key] != dust {
          return Err(InconsistentShareData);
        }
        assert roundingDust[key := dust] == roundingDust;
      } else {
        roundingDust := roundingDust[key := dust];
      }
      var newClaimed := CheckedI128(record.claimed as int + claim.amount, Overflow);
      if newClaimed.Err? || newClaimed.value > record.total {
        // The error undoes the recorded dust.
        roundingDust := dustBefore;
        return if newClaimed.Err? then Err(Overflow) else Err(AccountingOverflow);
      }
      claimed := claimed + {(claim.epochId, claim.patron)};
      epochs := epochs[key := record.(claimed := newClaimed.value)];
      claims := claims + [claim];
      return Ok(());
    }

    method ClaimDividend(claimant: Address, talosId: u32, epochId: u64, split: Split) returns (r: Outcome<i128>)
      requires Valid()
      modifies this
      ensures Valid() && trace == old(trace) + [Op.ClaimDividend(claimant, talosId, epochId, split)]
      ensures View() == After(old(View()), Op.ClaimDividend(claimant, talosId, epochId, split))
      ensures r == Answer(ClaimDividendSpec(old(View()), claimant, talosId, epochId, split))
      ensures r.Ok? ==> ClaimPays(old(View()), View(), claimant, talosId, epochId, split, r.value)
      ensures r.Err? ==> View() == old(View())
    {
      InvAlways(trace);
      hide ClaimPays, Inv, ClaimedSum, NextEpoch, RecoverExpiredSpec, SharesFit, Remainder, TruncDiv;
      hide Run, RoundingDust, Allocation, OpenEpoch, CheckShares, RoleOf, DividendsModel.BookClaim;
      Take(Op.ClaimDividend(claimant, talosId, epochId, split));
      var record :- CheckOpen(talosId, epochId);
      var _ :- CheckShares(split);
      var role :- RoleOf(claimant, split);
      if (epochId, claimant) in claimed {
        return Err(AlreadyClaimed);
      }
      var allocation :- ComputeAllocation(record.total, role.1);
      var dust :- ComputeRoundingDust(record.total, split);
      var _ :- BookClaim(record, ClaimEvent(talosId, epochId, claimant, allocation, role.0), dust);
      ClaimTellsAlways(old(trace), claimant, talosId, epochId, split);
      return Ok(allocation);
    }

    method RecoverExpired(admin: Address, talosId: u32, epochId: u64) returns (r: Outcome<i128>)
      requires Valid()
      modifies this
      ensures Valid() && trace == old(trace) + [Op.RecoverExpired(admin, talosId, epochId)]
      ensures View() == After(old(View()), Op.RecoverExpired(admin, talosId, epochId))
      ensures r == Answer(RecoverExpiredSpec(old(View()), admin, talosId, epochId))
      ensures r.Ok? ==> Recovers(old(View()), View(), talosId, epochId, r.value)
      ensures r.Err? ==> View() == old(View())
    {
      hide Run;
      Take(Op.RecoverExpired(admin, talosId, epochId));
      var _ :- CheckAdmin(admin);
      if (talosId, epochId) !in epochs {
        return Err(EpochNotFound);
      }
      var record := epochs[(talosId, epochId)];
      if record.status == Recovered {
        return Err(AlreadyRecovered);
      }
      if record.createdAt + record.expirySecs > U64_MAX {
        return Err(Overflow);
      }
      if now <= record.createdAt + record.expirySecs {
        return Err(EpochNotExpired);
      }
      var unclaimed :- CheckedI128(record.total - record.claimed, Overflow);
      epochs := epochs[(talosId, epochId) := record.(status := Recovered)];
      recoveries := recoveries + [RecoveryEvent(talosId, epochId, unclaimed)];
      RecoveryTellsAlways(old(trace), admin, talosId, epochId);
      hide Recovers;
      return Ok(unclaimed);
    }
  }
}
