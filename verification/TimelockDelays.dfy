/** What the timelock delays and what it does not, over whole runs. */
module TimelockDelays {
  import opened Common
  import opened TimelockModel

  // ---------- when the timelock is on ----------

  /** Step `i` of the run sets the timelock's configuration. */
  ghost predicate Sets(ops: seq<Op>, i: int) {
    0 <= i < |ops| && ops[i].SetTimelockConfig? && Call(Run(ops[..i]), ops[i]).Ok?
  }

  ghost predicate LastSet(ops: seq<Op>, j: int) {
    Sets(ops, j) && forall i :: j < i < |ops| ==> !Sets(ops, i)
  }

  /** The timelock was never configured, or was last configured without a delay. */
  ghost predicate SwitchedOff(ops: seq<Op>) {
    (forall i :: !Sets(ops, i)) || exists j :: LastSet(ops, j) && ops[j].minDelay == 0
  }

  lemma SetsInPrefix(ops: seq<Op>, i: int)
    requires |ops| > 0
    ensures i < |ops| - 1 ==> (Sets(ops, i) <==> Sets(ops[..|ops| - 1], i))
  {
    hide Call;
    if 0 <= i < |ops| - 1 {
      assert ops[..|ops| - 1][..i] == ops[..i];
    }
  }

  lemma ConfigStep(s: State, op: Op)
    ensures After(s, op).config == if op.SetTimelockConfig? && Call(s, op).Ok?
                                   then Some(TimelockConfig(op.minDelay, op.gracePeriod)) else s.config
  {
  }

  lemma SwitchedOffStep(ops: seq<Op>)
    requires |ops| > 0
    ensures SwitchedOff(ops) <==> if Sets(ops, |ops| - 1) then ops[|ops| - 1].minDelay == 0
                                  else SwitchedOff(ops[..|ops| - 1])
  {
    hide Call, Run;
    var last, front := |ops| - 1, ops[..|ops| - 1];
    forall i
      ensures i != last ==> (Sets(ops, i) <==> Sets(front, i))
    {
      SetsInPrefix(ops, i);
    }
    if Sets(ops, last) {
      assert LastSet(ops, last);
      assert forall j :: LastSet(ops, j) ==> j == last;
    } else {
      assert forall j :: LastSet(ops, j) <==> LastSet(front, j);
    }
  }

  /** There is no delay exactly when the run never configured one or last configured none. */
  lemma {:induction false} NoDelayIff(ops: seq<Op>)
    ensures ConfigOf(Run(ops)).minDelay == 0 <==> SwitchedOff(ops)
    decreases |ops|
  {
    hide Call, Sets, SwitchedOff;
    if |ops| == 0 {
      assert SwitchedOff(ops) by { NothingSet(); }
    } else {
      var front, op := ops[..|ops| - 1], ops[|ops| - 1];
      NoDelayIff(front);
      SwitchedOffStep(ops);
      ConfigStep(Run(front), op);
      assert Sets(ops, |ops| - 1) <==> op.SetTimelockConfig? && Call(Run(front), op).Ok? by { LastSets(ops); }
    }
  }

  lemma NothingSet()
    ensures SwitchedOff([])
  {
  }

  lemma LastSets(ops: seq<Op>)
    requires |ops| > 0
    ensures var front, op := ops[..|ops| - 1], ops[|ops| - 1];
            Sets(ops, |ops| - 1) <==> op.SetTimelockConfig? && Call(Run(front), op).Ok?
  {
    hide Call, Run;
  }

  /** The configuration is the last one set, and no delay with a week of grace before the first. */
  lemma {:induction false} ConfigIsLastSet(ops: seq<Op>, j: int)
    ensures (forall i :: !Sets(ops, i)) ==> ConfigOf(Run(ops)) == TimelockConfig(0, 7 * 24 * 60 * 60)
    ensures LastSet(ops, j) ==> ConfigOf(Run(ops)) == TimelockConfig(ops[j].minDelay, ops[j].gracePeriod)
    decreases |ops|
  {
    hide Call, Sets;
    if |ops| > 0 {
      var front, op := ops[..|ops| - 1], ops[|ops| - 1];
      ConfigIsLastSet(front, j);
      ConfigStep(Run(front), op);
      LastSets(ops);
      forall i
        ensures i < |ops| - 1 ==> (Sets(ops, i) <==> Sets(front, i))
        ensures Sets(front, i) ==> 0 <= i < |front| && front[i] == ops[i]
        ensures Sets(ops, i) ==> 0 <= i < |ops|
      {
        SetsInPrefix(ops, i);
        SetsInside(ops, i);
        SetsInside(front, i);
      }
    } else {
      NothingSetAt(j);
    }
  }

  lemma SetsInside(ops: seq<Op>, i: int)
    ensures Sets(ops, i) ==> 0 <= i < |ops|
  {
  }

  lemma NothingSetAt(j: int)
    ensures !Sets([], j)
  {
  }

  // ---------- changes that do not wait ----------

  /** Exactly when a step other than applying a scheduled action changes a set registry: the admin
      replaces it while no name call is paused and the timelock is switched off. */
  lemma DirectChangeIff(ops: seq<Op>, op: Op)
    requires Run(ops).registry.Some? && !op.Execute?
    ensures After(Run(ops), op).registry != Run(ops).registry
            <==> op.ReplaceRegistry? && !op.paused && Run(ops).admin == Some(op.caller)
                 && Some(op.registry) != Run(ops).registry && SwitchedOff(ops)
  {
    NoDelayIff(ops);
    hide Run, SwitchedOff;
  }

  /** So the admin can always change the registry at once: switch the timelock off, then replace. */
  lemma SwitchOffThenReplace(s: State, admin: Address, grace: u64, registry: Address)
    requires s.admin == Some(admin) && s.registry.Some? && 1 <= grace
    ensures var ops := [SetTimelockConfig(false, admin, 0, grace), ReplaceRegistry(false, admin, registry)];
            RunFrom(s, ops) == s.(config := Some(TimelockConfig(0, grace)), registry := Some(registry))
  {
    var first := [SetTimelockConfig(false, admin, 0, grace)];
    var ops := [SetTimelockConfig(false, admin, 0, grace), ReplaceRegistry(false, admin, registry)];
    assert ops[..1] == first && first[..0] == [];
    assert RunFrom(s, first) == After(RunFrom(s, first[..0]), first[0]);
  }

  /** Exactly when a step changes a set admin: the admin hands over, which never waits, a scheduled
      action is executed in its window, or the contract had an admin but no registry and is initialized. */
  lemma AdminChangeIff(s: State, op: Op)
    requires s.admin.Some?
    ensures After(s, op).admin != s.admin
            <==> match op
                 case ReplaceAdmin(paused, caller, admin) => !paused && Some(caller) == s.admin && admin != caller
                 case Execute(id) =>
                   && id in s.proposals && s.proposals[id].status == Scheduled
                   && s.proposals[id].eta <= s.now <= SaturatingAddU64(s.proposals[id].eta, ConfigOf(s).gracePeriod)
                   && s.proposals[id].action.SetAdmin? && Some(s.proposals[id].action.admin) != s.admin
                 case Initialize(_, admin, fee) => s.registry.None? && 0 <= fee && Some(admin) != s.admin
                 case _ => false
    ensures After(s, op).admin.Some?
  {
  }

  predicate Initializes(op: Op) {
    op.Initialize? && 0 <= op.fee
  }

  /** There is a registry exactly after some initialization was called with a fee that is not negative. */
  lemma {:induction false} InitializedIff(ops: seq<Op>)
    ensures Run(ops).registry.Some? <==> exists op :: op in ops && Initializes(op)
    decreases |ops|
  {
    hide After;
    if |ops| > 0 {
      var front, last := ops[..|ops| - 1], ops[|ops| - 1];
      InitializedIff(front);
      assert ops == front + [last];
      RegistryStep(Run(front), last);
    }
  }

  lemma RegistryStep(s: State, op: Op)
    ensures After(s, op).registry.Some? <==> s.registry.Some? || Initializes(op)
  {
  }

  // ---------- scheduled actions ----------

  predicate IsAdmin(s: State, paused: bool, caller: Address) {
    !paused && s.admin == Some(caller)
  }

  /** Only the admin schedules, no sooner than the minimum delay; the proposal is the next id's. */
  lemma ScheduleAcceptedIff(s: State, paused: bool, caller: Address, action: AdminAction, delay: u64)
    ensures var op := Schedule(paused, caller, action, delay);
            && (Call(s, op).Ok? <==> IsAdmin(s, paused, caller) && ConfigOf(s).minDelay <= delay && s.nextId < U64_MAX)
            && (Call(s, op).Ok? ==>
                  && After(s, op).nextId == s.nextId + 1 && s.nextId in After(s, op).proposals
                  && var p := After(s, op).proposals[s.nextId];
                  && p.action == action && p.status == Scheduled && p.scheduledBy == caller && p.scheduledAt == s.now
                  && p.eta == (if s.now + delay > U64_MAX then U64_MAX else s.now + delay)
                  && After(s, op) == s.(proposals := s.proposals[s.nextId := p], nextId := s.nextId + 1))
  {
  }

  /** Anyone executes a scheduled action exactly inside its window, a new registry only over an old one. */
  lemma ExecuteAcceptedIff(s: State, id: u64)
    ensures Call(s, Execute(id)).Ok? <==>
              && id in s.proposals && s.proposals[id].status == Scheduled
              && s.proposals[id].eta <= s.now <= SaturatingAddU64(s.proposals[id].eta, ConfigOf(s).gracePeriod)
              && (s.proposals[id].action.SetRegistryContract? ==> s.registry.Some?)
  {
  }

  /** Each refusal of an execution has its own reason. */
  lemma ExecuteRefusals(s: State, id: u64)
    ensures var r := Call(s, Execute(id));
            && (r == Err(NotFound) <==> id !in s.proposals)
            && (r == Err(NotActive) <==> id in s.proposals && s.proposals[id].status != Scheduled)
            && (r == Err(DelayNotMet) <==>
                  id in s.proposals && s.proposals[id].status == Scheduled && s.now < s.proposals[id].eta)
            && (r == Err(Lapsed) <==>
                  && id in s.proposals && s.proposals[id].status == Scheduled
                  && SaturatingAddU64(s.proposals[id].eta, ConfigOf(s).gracePeriod) < s.now)
  {
  }

  /** Only the admin cancels, and only what is still scheduled. */
  lemma CancelAcceptedIff(s: State, paused: bool, caller: Address, id: u64)
    ensures var op := Cancel(paused, caller, id);
            && (Call(s, op).Ok? <==>
                  IsAdmin(s, paused, caller) && id in s.proposals && s.proposals[id].status == Scheduled)
            && (Call(s, op).Ok? ==>
                  After(s, op) == s.(proposals := s.proposals[id := s.proposals[id].(status := Cancelled)]))
  {
  }

  lemma RunThree(s: State, a: Op, b: Op, c: Op)
    ensures RunFrom(s, [a, b, c]) == After(After(After(s, a), b), c)
  {
    hide After;
    var ops := [a, b, c];
    assert ops[..2] == [a, b] && [a, b][..1] == [a] && [a][..0] == [];
    assert RunFrom(s, [a]) == After(RunFrom(s, []), a);
    assert RunFrom(s, [a, b]) == After(RunFrom(s, [a]), b);
  }

  /** So a registry change can always be made the slow way: scheduled by the admin, it takes effect once
      its delay has passed, for anyone who then asks. */
  lemma ScheduledChangeHappens(s: State, admin: Address, registry: Address, delay: u64)
    requires s.admin == Some(admin) && s.registry.Some? && ConfigOf(s).minDelay <= delay
    requires s.nextId < U64_MAX && s.now + delay <= U64_MAX
    ensures RunFrom(s, [Schedule(false, admin, SetRegistryContract(registry), delay), Tick(delay), Execute(s.nextId)])
              .registry == Some(registry)
  {
    var a, b, c := Schedule(false, admin, SetRegistryContract(registry), delay), Tick(delay), Execute(s.nextId);
    RunThree(s, a, b, c);
    ScheduleAcceptedIff(s, false, admin, SetRegistryContract(registry), delay);
    var t := After(After(s, a), b);
    ExecuteAcceptedIff(t, s.nextId);
    hide RunFrom;
  }

  // ---------- what the entry points tell their callers ----------

  lemma ReachableInv(ops: seq<Op>)
    ensures Inv(Run(ops))
  {
    FreshInv();
    RunKeeps(DEPLOYED, ops);
  }

  /** Proposal `id` was scheduled with the terms it has, at a step of the run that lies the then
      minimum delay back. */
  ghost predicate Waited(ops: seq<Op>, id: u64) {
    && id in Run(ops).proposals
    && exists k :: 0 <= k < |ops| && Schedules(Run(ops[..k]), ops[k], id, Run(ops).proposals[id])
                   && SaturatingAddU64(Run(ops[..k]).now, ConfigOf(Run(ops[..k])).minDelay) <= Run(ops).now
  }

  lemma AppliedHasWaited(ops: seq<Op>, id: u64)
    requires Call(Run(ops), Execute(id)).Ok?
    ensures Waited(ops, id)
  {
    hide Run, Call, Schedules, ConfigOf;
    var k := AppliedInWindow(ops, id);
  }

  /** An action that is no longer scheduled is never applied again, whatever is called. */
  lemma NeverApplied(s: State, ops: seq<Op>, id: u64)
    requires Inv(s) && id in s.proposals && s.proposals[id].status != Scheduled
    ensures Call(RunFrom(s, ops), Execute(id)) == Err(NotActive)
    ensures RunFrom(s, ops).proposals[id] == s.proposals[id]
  {
    RunKeeps(s, ops);
    hide RunFrom;
  }

  lemma NeverAgain(s: State, id: u64)
    requires Inv(s) && id in s.proposals && s.proposals[id].status != Scheduled
    ensures forall later :: Call(RunFrom(s, later), Execute(id)) == Err(NotActive)
  {
    hide Call;
    forall later
      ensures Call(RunFrom(s, later), Execute(id)) == Err(NotActive)
    {
      NeverApplied(s, later, id);
    }
  }
}
