/** The timelock entry points over their storage keys; each does what `TimelockModel` says. */
module Timelock {
  import opened Common
  import opened TimelockModel
  import opened TimelockDelays

  class NameServiceTimelock {
    var now: u64
    var admin: Option<Address>
    var registryContract: Option<Address>
    var timelockConfig: Option<TimelockConfig>
    var timelockProposal: map<u64, TimelockProposal>
    var nextTimelockId: u64
    ghost var trace: seq<Op>

    ghost function View(): State
      reads this
    {
      State(now, admin, registryContract, timelockConfig, timelockProposal, nextTimelockId)
    }

    /** The object is where its calls so far have taken a fresh deployment. */
    ghost predicate Valid()
      reads this
    {
      View() == Run(trace)
    }

    constructor ()
      ensures Valid() && trace == []
    {
      now, admin, registryContract, timelockConfig := 0, None, None, None;
      timelockProposal, nextTimelockId, trace := map[], 1, [];
    }

    /** Adds a call to the trace; what it must lead to is then fixed. */
    ghost method Take(op: Op)
      requires Valid()
      modifies this`trace
      ensures trace == old(trace) + [op] && Run(trace) == After(View(), op)
    {
      trace := trace + [op];
      RunSnoc(old(trace), op);
    }

    method AdvanceTime(seconds: nat) returns (r: Outcome<()>)
      requires Valid()
      modifies this
      ensures Valid() && trace == old(trace) + [Tick(seconds)]
      ensures View() == After(old(View()), Tick(seconds))
      ensures r == ToUnit(Call(old(View()), Tick(seconds)))
    {
      hide Run;
      Take(Tick(seconds));
      if now + seconds > U64_MAX {
        return Err(Overflow);
      }
      now := now + seconds;
      return Ok(());
    }

    method Initialize(registry: Address, admin: Address, fee: i128) returns (r: Outcome<()>)
      requires Valid()
      modifies this
      ensures Valid() && trace == old(trace) + [Op.Initialize(registry, admin, fee)]
      ensures View() == After(old(View()), Op.Initialize(registry, admin, fee))
      ensures r == ToUnit(Call(old(View()), Op.Initialize(registry, admin, fee)))
      ensures r.Ok? <==> 0 <= fee && forall op :: op in old(trace) ==> !Initializes(op)
      ensures r.Ok? ==> View() == old(View()).(registry := Some(registry), admin := Some(admin))
      ensures r.Err? ==> View() == old(View())
    {
      InitializedIff(trace);
      hide Run;
      Take(Op.Initialize(registry, admin, fee));
      if registryContract.Some? {
        return Err(AlreadyInitialized);
      }
      if fee < 0 {
        return Err(FeeNegative);
      }
      registryContract := Some(registry);
      this.admin := Some(admin);
      return Ok(());
    }

    method ReplaceAdmin(paused: bool, caller: Address, admin: Address) returns (r: Outcome<()>)
      requires Valid()
      modifies this
      ensures Valid() && trace == old(trace) + [Op.ReplaceAdmin(paused, caller, admin)]
      ensures View() == After(old(View()), Op.ReplaceAdmin(paused, caller, admin))
      ensures r == ToUnit(Call(old(View()), Op.ReplaceAdmin(paused, caller, admin)))
      ensures r.Ok? <==> !paused && (old(this.admin).Some? ==> old(this.admin) == Some(caller))
      ensures View() == old(View()).(admin := if r.Ok? then Some(admin) else old(this.admin))
    {
      hide Run;
      Take(Op.ReplaceAdmin(paused, caller, admin));
      if paused {
        return Err(DomainPaused);
      }
      if this.admin.Some? && this.admin.value != caller {
        return Err(Unauthorized);
      }
      this.admin := Some(admin);
      return Ok(());
    }

    method CheckAdmin(paused: bool, caller: Address) returns (r: Outcome<Address>)
      ensures r == RequireAdmin(View(), paused, caller)
    {
      if paused {
        return Err(DomainPaused);
      }
      if admin.None? {
        return Err(AdminMissing);
      }
      return if admin.value == caller then Ok(admin.value) else Err(Unauthorized);
    }

    method ReplaceRegistry(paused: bool, caller: Address, registry: Address) returns (r: Outcome<()>)
      requires Valid()
      modifies this
      ensures Valid() && trace == old(trace) + [Op.ReplaceRegistry(paused, caller, registry)]
      ensures View() == After(old(View()), Op.ReplaceRegistry(paused, caller, registry))
      ensures r == ToUnit(Call(old(View()), Op.ReplaceRegistry(paused, caller, registry)))
      ensures r.Ok? <==> !paused && old(admin) == Some(caller) && old(registryContract).Some? && SwitchedOff(old(trace))
      ensures registryContract == if r.Ok? then Some(registry) else old(registryContract)
      ensures View() == old(View()).(registry := registryContract)
    {
      NoDelayIff(trace);
      hide Run, SwitchedOff;
      Take(Op.ReplaceRegistry(paused, caller, registry));
      var _ :- CheckAdmin(paused, caller);
      var config := timelockConfig.GetOr(TimelockConfig(0, DEFAULT_GRACE_PERIOD));
      if config.minDelay > 0 {
        return Err(TimelockEnabled);
      }
      if registryContract.None? {
        return Err(RegistryMissing);
      }
      registryContract := Some(registry);
      return Ok(());
    }

    method SetTimelockConfig(paused: bool, caller: Address, minDelay: u64, gracePeriod: u64)
      returns (r: Outcome<()>)
      requires Valid()
      modifies this
      ensures Valid() && trace == old(trace) + [Op.SetTimelockConfig(paused, caller, minDelay, gracePeriod)]
      ensures View() == After(old(View()), Op.SetTimelockConfig(paused, caller, minDelay, gracePeriod))
      ensures r == ToUnit(Call(old(View()), Op.SetTimelockConfig(paused, caller, minDelay, gracePeriod)))
      ensures r.Ok? <==> !paused && admin == Some(caller) && 1 <= gracePeriod && minDelay <= 30 * 24 * 60 * 60
      ensures r.Ok? ==> ConfigOf(View()) == TimelockConfig(minDelay, gracePeriod)
      ensures r.Ok? ==> (SwitchedOff(trace) <==> minDelay == 0)
      ensures View() == old(View()).(config := timelockConfig) && (r.Err? ==> View() == old(View()))
    {
      NoDelayIff(trace + [Op.SetTimelockConfig(paused, caller, minDelay, gracePeriod)]);
      hide Run, SwitchedOff;
      Take(Op.SetTimelockConfig(paused, caller, minDelay, gracePeriod));
      var _ :- CheckAdmin(paused, caller);
      if gracePeriod == 0 {
        return Err(GraceNotPositive);
      }
      if minDelay > MAX_MIN_DELAY {
        return Err(DelayTooLarge);
      }
      timelockConfig := Some(TimelockConfig(minDelay, gracePeriod));
      return Ok(());
    }

    method ScheduleAction(paused: bool, caller: Address, action: AdminAction, delay: u64) returns (r: Outcome<u64>)
      requires Valid()
      modifies this
      ensures Valid() && trace == old(trace) + [Schedule(paused, caller, action, delay)]
      ensures View() == After(old(View()), Schedule(paused, caller, action, delay))
      ensures match Call(old(View()), Schedule(paused, caller, action, delay))
              case Ok(_) => r == Ok(old(nextTimelockId))
              case Err(e) => r == Err(e)
      ensures r.Ok? <==> && !paused && admin == Some(caller) && ConfigOf(old(View())).minDelay <= delay
                         && old(nextTimelockId) < U64_MAX
      ensures r.Ok? ==> && (forall id :: id in old(timelockProposal) <==> 1 <= id < r.value)
                        && View() == old(View()).(proposals := timelockProposal, nextId := r.value + 1)
                        && timelockProposal == old(timelockProposal)[r.value := timelockProposal[r.value]]
      ensures r.Ok? ==> var p := timelockProposal[r.value];
                        && p.id == r.value && p.action == action && p.status == Scheduled && p.scheduledBy == caller
                        && p.scheduledAt == now && SaturatingAddU64(now, ConfigOf(View()).minDelay) <= p.eta
                        && p.eta == SaturatingAddU64(now, delay)
      ensures r.Ok? ==> (Call(View(), Execute(r.value)) == Err(DelayNotMet) <==> 0 < delay && now < U64_MAX)
      ensures r.Err? ==> View() == old(View())
    {
      ReachableInv(trace);
      hide Run;
      Take(Schedule(paused, caller, action, delay));
      var signer :- CheckAdmin(paused, caller);
      var config := timelockConfig.GetOr(TimelockConfig(0, DEFAULT_GRACE_PERIOD));
      if delay < config.minDelay {
        return Err(DelayTooShort);
      }
      var id := nextTimelockId;
      if id == U64_MAX {
        return Err(Overflow);
      }
      var eta := SaturatingAddU64(now, delay);
      timelockProposal := timelockProposal[id := TimelockProposal(id, action, eta, Scheduled, now, signer)];
      nextTimelockId := id + 1;
      return Ok(id);
    }

    method ExecuteAction(id: u64) returns (r: Outcome<()>)
      requires Valid()
      modifies this
      ensures Valid() && trace == old(trace) + [Execute(id)]
      ensures View() == After(old(View()), Execute(id))
      ensures r == ToUnit(Call(old(View()), Execute(id)))
      ensures r.Ok? <==> && id in old(timelockProposal) && old(timelockProposal)[id].status == Scheduled
                         && old(timelockProposal)[id].eta <= now
                         && now <= SaturatingAddU64(old(timelockProposal)[id].eta, ConfigOf(View()).gracePeriod)
                         && (old(timelockProposal)[id].action.SetRegistryContract? ==> old(registryContract).Some?)
      ensures r.Ok? ==> && Waited(old(trace), id)
                        && var p := old(timelockProposal)[id];
                        && p.eta <= now <= SaturatingAddU64(p.eta, ConfigOf(View()).gracePeriod)
                        && timelockProposal == old(timelockProposal)[id := p.(status := Executed)]
                        && (p.action.SetRegistryContract? ==> registryContract == Some(p.action.registry))
                        && (p.action.SetAdmin? ==> admin == Some(p.action.admin))
      ensures r.Ok? ==> forall later :: Call(RunFrom(View(), later), Execute(id)) == Err(NotActive)
      ensures r.Err? ==> View() == old(View())
    {
      ReachableInv(trace + [Execute(id)]);
      hide Run;
      Take(Execute(id));
      if id !in timelockProposal {
        return Err(NotFound);
      }
      var p := timelockProposal[id];
      if p.status != Scheduled {
        return Err(NotActive);
      }
      if now < p.eta {
        return Err(DelayNotMet);
      }
      var config := timelockConfig.GetOr(TimelockConfig(0, DEFAULT_GRACE_PERIOD));
      if now > SaturatingAddU64(p.eta, config.gracePeriod) {
        return Err(Lapsed);
      }
      match p.action {
        case SetRegistryContract(registry) =>
          if registryContract.None? {
            return Err(RegistryMissing);
          }
          registryContract := Some(registry);
        case SetAdmin(newAdmin) =>
          admin := Some(newAdmin);
      }
      timelockProposal := timelockProposal[id := p.(status := Executed)];
      AppliedHasWaited(old(trace), id);
      NeverAgain(View(), id);
      return Ok(());
    }

    method CancelAction(paused: bool, caller: Address, id: u64) returns (r: Outcome<()>)
      requires Valid()
      modifies this
      ensures Valid() && trace == old(trace) + [Cancel(paused, caller, id)]
      ensures View() == After(old(View()), Cancel(paused, caller, id))
      ensures r == ToUnit(Call(old(View()), Cancel(paused, caller, id)))
      ensures r.Ok? <==> && !paused && admin == Some(caller)
                         && id in old(timelockProposal) && old(timelockProposal)[id].status == Scheduled
      ensures r.Ok? ==> var p := old(timelockProposal)[id];
                        View() == old(View()).(proposals := old(timelockProposal)[id := p.(status := Cancelled)])
      ensures r.Ok? ==> forall later :: Call(RunFrom(View(), later), Execute(id)) == Err(NotActive)
      ensures r.Err? ==> View() == old(View())
    {
      ReachableInv(trace + [Cancel(paused, caller, id)]);
      hide Run;
      Take(Cancel(paused, caller, id));
      var _ :- CheckAdmin(paused, caller);
      if id !in timelockProposal {
        return Err(NotFound);
      }
      var p := timelockProposal[id];
      if p.status != Scheduled {
        return Err(NotActive);
      }
      timelockProposal := timelockProposal[id := p.(status := Cancelled)];
      NeverAgain(View(), id);
      return Ok(());
    }
  }
}
