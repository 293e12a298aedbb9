/** What a delegation does to the count: every address that delegates to a holder votes with the
    holder's whole weight, whatever it has itself and whoever else does the same. */
module GovernanceDelegation {
  import opened Common
  import opened Checkpoints
  import opened GovernanceModel
  import opened GovernanceInvariants
  import opened GovernanceQuorum
  import opened GovernanceRuns
  import opened GovernanceBounds

  /** The quorum of proposal `id`, in either mode. */
  function Quorum(s: GovState, id: u32): Outcome<i128>
    requires id in s.proposals && s.config.Some?
  {
    Threshold(s.config.value, PastSupply(s, s.proposals[id].snapshotLedger))
  }

  function HolderWeight(s: GovState, holder: Address, id: u32): i128
    requires id in s.proposals
  {
    PastVotes(s, holder, s.proposals[id].snapshotLedger)
  }

  /** The holder has votes at the snapshot, and `n` more votes of that weight can be added up. */
  ghost predicate RoomFor(s: GovState, holder: Address, id: u32, n: nat) {
    && id in s.proposals && s.config.Some? && Quorum(s, id).Ok? && 0 < HolderWeight(s, holder, id)
    && var p := s.proposals[id];
    && (p.yes + p.no + n * HolderWeight(s, holder, id)) * BPS <= I128_MAX
    && p.totalVoters + n <= U32_MAX
  }

  /** The chosen tally grows by the holder's weight and the ballot is recorded with it. */
  ghost predicate AddsWeight(s: GovState, t: GovState, a: Address, id: u32, choice: VoteChoice, weight: i128) {
    && id in s.proposals && id in t.proposals && (id, a) in t.votes
    && var p, q := s.proposals[id], t.proposals[id];
    && q.yes == p.yes + (if choice == Approve then weight else 0)
    && q.no == p.no + (if choice == Reject then weight else 0)
    && q.totalVoters == p.totalVoters + 1
    && q == p.(yes := q.yes, no := q.no, totalVoters := q.totalVoters, status := q.status)
    && t.votes == s.votes[(id, a) := t.votes[(id, a)]] && t.votes[(id, a)].weight == weight
    && t.histories == s.histories && t.cached == s.cached && t.supply == s.supply
    && t.ledger == s.ledger && t.config == s.config
  }

  /** A counted vote of positive weight within range is settled without a trap. */
  lemma SettlesInRange(s: GovState, id: u32, p: Proposal)
    requires s.config.Some? && Threshold(s.config.value, PastSupply(s, p.snapshotLedger)).Ok?
    requires 0 <= p.yes && 0 <= p.no && 0 < p.yes + p.no && (p.yes + p.no) * BPS <= I128_MAX
    ensures SettleSpec(s, id, p).Ok?
  {
    hide Threshold, PastSupply, TruncDiv;
    MulMono(p.yes, p.yes + p.no, BPS);
  }

  /** After delegating to a holder with votes at the snapshot, an address can vote exactly if the
      proposal is open and it has not voted; the vote adds the holder's whole weight. */
  lemma DelegatedVoteCounts(s: GovState, a: Address, holder: Address, id: u32, choice: VoteChoice)
    requires Inv(s) && RoomFor(s, holder, id, 1)
    ensures var t := After(s, Delegate(false, a, holder));
            var r := Call(t, CastVote(false, a, id, choice));
            && (r.Ok? <==> && s.proposals[id].status == Active && s.ledger <= s.proposals[id].endLedger
                           && (id, a) !in s.votes)
            && (r.Ok? ==> AddsWeight(s, r.value, a, id, choice, HolderWeight(s, holder, id)))
            && (r.Ok? ==> SettledBy(s, r.value.proposals[id]))
  {
    var t, p, weight := After(s, Delegate(false, a, holder)), s.proposals[id], HolderWeight(s, holder, id);
    var op := CastVote(false, a, id, choice);
    assert t == s.(delegation := s.delegation[a := holder]);
    assert VoteWeight(t, a, p.snapshotLedger) == weight by { hide LastAt; }
    TalliesNonNegative(s, id);
    assert Ballot(t, a, id).Ok? ==> Ballot(t, a, id).value == (p, weight);
    if Ballot(t, a, id).Ok? {
      CountedInRange(t, p, choice, weight);
      VoteGoesThrough(t, op, p, weight);
      DelegatedEffect(s, t, op, weight);
    }
    hide Inv, SettledBy, Threshold, LastAt, VoteWeight, SettleSpec, Counted;
  }

  lemma CountedInRange(s: GovState, p: Proposal, choice: VoteChoice, weight: i128)
    requires 0 <= p.yes && 0 <= p.no && 0 < weight && p.totalVoters < U32_MAX
    requires (p.yes + p.no + weight) * BPS <= I128_MAX
    ensures Counted(p, choice, weight).Ok?
    ensures var q := Counted(p, choice, weight).value;
            && 0 <= q.yes && 0 <= q.no && q.yes + q.no == p.yes + p.no + weight && q.snapshotLedger == p.snapshotLedger
  {
  }

  lemma VoteGoesThrough(s: GovState, op: Op, p: Proposal, weight: i128)
    requires op.CastVote? && !op.paused && Ballot(s, op.voter, op.id) == Ok((p, weight))
    requires Counted(p, op.choice, weight).Ok?
    requires var q := Counted(p, op.choice, weight).value;
             && s.config.Some? && Threshold(s.config.value, PastSupply(s, q.snapshotLedger)).Ok?
             && 0 <= q.yes && 0 <= q.no && 0 < q.yes + q.no && (q.yes + q.no) * BPS <= I128_MAX
    ensures Call(s, op).Ok?
  {
    hide Threshold, LastAt, SettleSpec, Ballot, Counted;
    var vote := Vote(op.voter, op.choice, weight, s.timestamp);
    SettlesInRange(s.(votes := s.votes[(op.id, op.voter) := vote]), op.id, Counted(p, op.choice, weight).value);
  }

  lemma DelegatedEffect(s: GovState, t: GovState, op: Op, weight: i128)
    requires op.CastVote? && Call(t, op).Ok? && t == s.(delegation := t.delegation)
    requires op.id in s.proposals && VoteWeight(t, op.voter, s.proposals[op.id].snapshotLedger) == weight
    ensures AddsWeight(s, Call(t, op).value, op.voter, op.id, op.choice, weight)
    ensures SettledBy(s, Call(t, op).value.proposals[op.id])
  {
    hide Threshold, LastAt, VoteWeight, Decide;
    VoteHasEffect(t, op);
    hide Call, Marked;
  }

  // ---------- many addresses, one holder ----------

  /** Each voter in turn delegates to the holder and votes. */
  function DelegatedVotes(voters: seq<Address>, holder: Address, id: u32, choice: VoteChoice): seq<Op> {
    if |voters| == 0 then []
    else
      var last := voters[|voters| - 1];
      DelegatedVotes(voters[..|voters| - 1], holder, id, choice)
      + [Delegate(false, last, holder)] + [CastVote(false, last, id, choice)]
  }

  ghost predicate FreshVoters(s: GovState, voters: seq<Address>, id: u32) {
    Distinct(voters) && forall v :: v in voters ==> (id, v) !in s.votes
  }

  /** All of `voters` have been counted with the holder's weight and the proposal is still open. */
  ghost predicate Gathered(s: GovState, t: GovState, voters: seq<Address>, id: u32, choice: VoteChoice, gain: int) {
    && id in s.proposals && HasStatus(t, id, Active)
    && var p, q := s.proposals[id], t.proposals[id];
    && q.yes == p.yes + (if choice == Approve then gain else 0)
    && q.no == p.no + (if choice == Reject then gain else 0)
    && q.totalVoters == p.totalVoters + |voters|
    && q == p.(yes := q.yes, no := q.no, totalVoters := q.totalVoters)
    && t.histories == s.histories && t.cached == s.cached && t.supply == s.supply
    && t.ledger == s.ledger && t.config == s.config
    && forall v :: (id, v) in t.votes ==> (id, v) in s.votes || v in voters
  }

  lemma RunSnoc2(s: GovState, ops: seq<Op>, x: Op, y: Op)
    ensures RunFrom(s, ops + [x] + [y]) == After(After(RunFrom(s, ops), x), y)
  {
    assert (ops + [x])[..|ops|] == ops && (ops + [x] + [y])[..|ops| + 1] == ops + [x];
  }

  lemma GatheredMore(s: GovState, t: GovState, u: GovState, voters: seq<Address>, holder: Address, id: u32,
                     choice: VoteChoice)
    requires |voters| > 0 && id in t.proposals
    requires var front, weight := voters[..|voters| - 1], HolderWeight(t, holder, id);
             && Gathered(s, t, front, id, choice, |front| * weight)
             && AddsWeight(t, u, voters[|voters| - 1], id, choice, weight)
             && HasStatus(u, id, Active)
    ensures Gathered(s, u, voters, id, choice, |voters| * HolderWeight(t, holder, id))
  {
    var front, weight := voters[..|voters| - 1], HolderWeight(t, holder, id);
    assert |voters| * weight == |front| * weight + weight;
    hide HolderWeight;
    assert voters == front + [voters[|voters| - 1]];
  }

  lemma RoomShrinks(s: GovState, t: GovState, holder: Address, id: u32, choice: VoteChoice, voters: seq<Address>)
    requires RoomFor(s, holder, id, |voters| + 1)
    requires Gathered(s, t, voters, id, choice, |voters| * HolderWeight(s, holder, id))
    ensures RoomFor(t, holder, id, 1) && HolderWeight(t, holder, id) == HolderWeight(s, holder, id)
    ensures Quorum(t, id) == Quorum(s, id)
  {
    hide Threshold, LastAt;
    var weight := HolderWeight(s, holder, id);
    assert (|voters| + 1) * weight == |voters| * weight + weight;
    assert HolderWeight(t, holder, id) == weight;
    hide HolderWeight;
  }

  lemma RoomForFewer(s: GovState, holder: Address, id: u32, n: nat, m: nat)
    requires RoomFor(s, holder, id, n) && m <= n
    ensures RoomFor(s, holder, id, m)
  {
    MulMono(m, n, HolderWeight(s, holder, id));
    hide HolderWeight, Quorum;
  }

  /** Any number of addresses that have not voted can delegate to one holder and vote one after the
      other: as long as the proposal stays open each adds the holder's whole weight again, and once
      that reaches the quorum the proposal is settled. */
  lemma {:induction false} DelegatorsAllCount(s: GovState, voters: seq<Address>, holder: Address, id: u32,
                                              choice: VoteChoice)
    requires Inv(s) && RoomFor(s, holder, id, |voters|) && FreshVoters(s, voters, id)
    requires s.proposals[id].status == Active && s.ledger <= s.proposals[id].endLedger
    ensures var t := RunFrom(s, DelegatedVotes(voters, holder, id, choice));
            var gain := |voters| * HolderWeight(s, holder, id);
            && (HasStatus(t, id, Active) ==> Gathered(s, t, voters, id, choice, gain))
            && (|voters| > 0 && Quorum(s, id).value <= s.proposals[id].yes + s.proposals[id].no + gain ==>
                  !HasStatus(t, id, Active))
    decreases |voters|
  {
    assert id in s.proposals;
    hide Call, Inv, RoomFor, AddsWeight, Gathered, SettledBy, Quorum, HolderWeight;
    if |voters| == 0 {
      assert Gathered(s, s, voters, id, choice, 0 * HolderWeight(s, holder, id)) by { NoneGathered(s, id, choice); }
    } else {
      var front, a := voters[..|voters| - 1], voters[|voters| - 1];
      var ops := DelegatedVotes(front, holder, id, choice);
      var t := RunFrom(s, ops);
      var x, y := Delegate(false, a, holder), CastVote(false, a, id, choice);
      var u := After(After(t, x), y);
      RunSnoc2(s, ops, x, y);
      RoomForFewer(s, holder, id, |voters|, |front|);
      DelegatorsAllCount(s, front, holder, id, choice);
      InvFrom(s, ops);
      InvKept(t, x);
      LifecycleOnlyAdvances(s, ops, id);
      StillThere(t, x, id);
      if HasStatus(u, id, Active) {
        ActiveBefore(After(t, x), y, id);
        ActiveBefore(t, x, id);
        OneMore(s, t, voters, holder, id, choice);
      }
    }
  }

  lemma NoneGathered(s: GovState, id: u32, choice: VoteChoice)
    requires HasStatus(s, id, Active)
    ensures Gathered(s, s, [], id, choice, 0)
  {
  }

  lemma StillThere(s: GovState, op: Op, id: u32)
    requires id in s.proposals && op.Delegate?
    ensures id in After(s, op).proposals
  {
  }

  lemma OneMore(s: GovState, t: GovState, voters: seq<Address>, holder: Address, id: u32, choice: VoteChoice)
    requires |voters| > 0
    requires var front, a := voters[..|voters| - 1], voters[|voters| - 1];
             && Inv(t) && RoomFor(s, holder, id, |voters|) && FreshVoters(s, voters, id)
             && s.ledger <= s.proposals[id].endLedger
             && Gathered(s, t, front, id, choice, |front| * HolderWeight(s, holder, id))
             && HasStatus(After(After(t, Delegate(false, a, holder)), CastVote(false, a, id, choice)), id, Active)
    ensures var a, gain := voters[|voters| - 1], |voters| * HolderWeight(s, holder, id);
            && Gathered(s, After(After(t, Delegate(false, a, holder)), CastVote(false, a, id, choice)), voters, id,
                        choice, gain)
            && s.proposals[id].yes + s.proposals[id].no + gain < Quorum(s, id).value
  {
    var front, a := voters[..|voters| - 1], voters[|voters| - 1];
    RoomShrinks(s, t, holder, id, choice, front);
    DelegatedVoteCounts(t, a, holder, id, choice);
    var u := After(After(t, Delegate(false, a, holder)), CastVote(false, a, id, choice));
    NotYetVoted(s, t, voters, id, choice, |front| * HolderWeight(s, holder, id));
    GatheredMore(s, t, u, voters, holder, id, choice);
    OpenIsBelow(s, t, u, id, a, choice, HolderWeight(s, holder, id));
    hide Call, Inv, SettledBy, HolderWeight;
  }

  lemma NotYetVoted(s: GovState, t: GovState, voters: seq<Address>, id: u32, choice: VoteChoice, gain: int)
    requires |voters| > 0 && FreshVoters(s, voters, id) && Gathered(s, t, voters[..|voters| - 1], id, choice, gain)
    ensures (id, voters[|voters| - 1]) !in t.votes
  {
  }

  /** A counted proposal that is still open is below its quorum. */
  lemma OpenIsBelow(s: GovState, t: GovState, u: GovState, id: u32, a: Address, choice: VoteChoice, weight: i128)
    requires id in s.proposals && AddsWeight(t, u, a, id, choice, weight) && HasStatus(u, id, Active)
    requires t.config == s.config && t.supply == s.supply && s.config.Some? && id in t.proposals
    requires t.proposals[id].snapshotLedger == s.proposals[id].snapshotLedger
    requires SettledBy(t, u.proposals[id])
    ensures u.proposals[id].yes + u.proposals[id].no < Quorum(s, id).value
  {
    hide Threshold, LastAt, ApprovalBps;
  }
}
