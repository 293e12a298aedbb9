/** Single runs: proposals that gather more votes than their snapshot supply, each by dropping one
    condition of `GovernanceBallots.VotesWithinSupply`, one that meets them all with a delegation,
    and two finalizations that surprise. */
module GovernanceLimits {
  import opened Common
  import opened Checkpoints
  import opened GovernanceModel
  import opened GovernanceInvariants
  import opened GovernanceRuns
  import opened GovernanceBallots

  const ALICE := Address(1)
  const BOB := Address(2)
  const CONFIG := GovernanceConfig(1_000, 5_000, 100, ALICE, None, None)
  const STARTED := DEPLOYED.(admin := Some(ALICE), config := Some(CONFIG))
  const SETUP := Initialize(ALICE, ALICE, 1_000, 5_000, 100)
  const PROPOSE := CreateProposal(false, ALICE, 7, "t", "d", true, None)

  ghost predicate Exceeds(s: GovState, id: u32) {
    id in s.proposals &&
    s.proposals[id].yes + s.proposals[id].no > PastSupply(s, s.proposals[id].snapshotLedger)
  }

  lemma Then(ops: seq<Op>, op: Op, s: GovState) returns (longer: seq<Op>)
    requires Run(ops) == s && Call(s, op).Ok?
    ensures longer == ops + [op] && Run(longer) == Call(s, op).value
  {
    longer := ops + [op];
    RunSnoc(ops, op);
  }

  /** The first power recorded is the whole history. */
  lemma FirstPower(s: GovState, balance: i128)
    requires s.admin == Some(ALICE) && s.histories == map[] && s.supply == []
    ensures Call(s, UpdateVotingPower(false, ALICE, ALICE, balance)) ==
            Ok(s.(histories := map[ALICE := [Checkpoint(s.ledger, balance)]],
                  supply := [Checkpoint(s.ledger, balance)]))
  {
    assert Record([], s.ledger, balance) == [Checkpoint(s.ledger, balance)];
    var none: map<Address, History> := map[];
    assert none[ALICE := [Checkpoint(s.ledger, balance)]] == map[ALICE := [Checkpoint(s.ledger, balance)]];
  }

  lemma Start() returns (ops: seq<Op>)
    ensures ops == [SETUP] && Run(ops) == STARTED
  {
    assert Run([]) == DEPLOYED;
    ops := Then([], SETUP, DEPLOYED);
  }

  /** A started contract in which only ALICE has power, recorded at ledger 0. */
  lemma StartWithPower(balance: i128) returns (ops: seq<Op>)
    ensures ops == [SETUP, UpdateVotingPower(false, ALICE, ALICE, balance)]
    ensures Run(ops) ==
            STARTED.(histories := map[ALICE := [Checkpoint(0, balance)]], supply := [Checkpoint(0, balance)])
  {
    hide RunFrom;
    ops := Start();
    FirstPower(STARTED, balance);
    ops := Then(ops, UpdateVotingPower(false, ALICE, ALICE, balance), STARTED);
  }

  /** A new proposal of ledger 20 in a state whose only open facts are its powers. */
  ghost predicate JustProposed(s: GovState) {
    && s.config == Some(CONFIG) && s.admin == Some(ALICE) && s.votes == map[] && s.quorumReached == {}
    && HasStatus(s, 1, Active)
    && var p := s.proposals[1];
    && p.id == 1 && p.yes == p.no == 0 && p.totalVoters == 0 && p.startLedger == s.ledger <= p.endLedger
    && p.snapshotLedger == SaturatingSubU32(s.ledger, 10)
  }

  const POWERS: map<Address, History> := map[ALICE := [Checkpoint(0, 60)], BOB := [Checkpoint(0, 40)]]

  /** ALICE has 60 and BOB 40 of 100. */
  lemma TwoPowers() returns (ops: seq<Op>)
    ensures ops == [SETUP, UpdateVotingPower(false, ALICE, ALICE, 60), UpdateVotingPower(false, ALICE, BOB, 40)]
    ensures Run(ops) == STARTED.(histories := POWERS, supply := [Checkpoint(0, 100)])
  {
    hide RunFrom;
    ops := StartWithPower(60);
    var s := Run(ops);
    ops := Then(ops, UpdateVotingPower(false, ALICE, BOB, 40), s);
    assert s.histories[BOB := [Checkpoint(0, 40)]] == POWERS;
    assert Record([], 0, 40) == [Checkpoint(0, 40)] && Run(ops).supply == [Checkpoint(0, 100)];
  }

  lemma DelegatedProposal() returns (ops: seq<Op>)
    ensures ops == [SETUP, UpdateVotingPower(false, ALICE, ALICE, 60), UpdateVotingPower(false, ALICE, BOB, 40),
                    Tick(20, 0), Delegate(false, BOB, ALICE), PROPOSE]
    ensures var s := Run(ops);
            && JustProposed(s) && s.ledger == 20 && s.histories == POWERS && DelegateeOf(s, BOB) == ALICE
            && PastSupply(s, 10) == 100 && VoteWeight(s, ALICE, 10) == 60 && VoteWeight(s, BOB, 10) == 60
  {
    hide RunFrom;
    ops := TwoPowers();
    var s := Run(ops);
    ops := Then(ops, Tick(20, 0), s);
    s := Run(ops);
    ops := Then(ops, Delegate(false, BOB, ALICE), s);
    s := Run(ops);
    ops := Then(ops, PROPOSE, s);
  }

  /** A delegator and the delegatee both vote with the delegatee's checkpoint. */
  lemma DelegationCountsTwice() returns (ops: seq<Op>)
    ensures Exceeds(Run(ops), 1)
    ensures Run(ops).proposals[1].snapshotLedger < Run(ops).proposals[1].startLedger
    ensures ops == [SETUP, UpdateVotingPower(false, ALICE, ALICE, 60), UpdateVotingPower(false, ALICE, BOB, 40),
                    Tick(20, 0), Delegate(false, BOB, ALICE), PROPOSE, CastVote(false, ALICE, 1, Approve),
                    CastVote(false, BOB, 1, Approve)]
  {
    hide RunFrom, LastAt;
    ops := DelegatedProposal();
    var s := Run(ops);
    ops := Then(ops, CastVote(false, ALICE, 1, Approve), s);
    s := Run(ops);
    assert VoteWeight(s, BOB, 10) == 60;
    ops := Then(ops, CastVote(false, BOB, 1, Approve), s);
  }

  /** A balance cached by the admin is votes without supply. */
  lemma CachedBalanceHasNoSupply() returns (ops: seq<Op>)
    ensures Exceeds(Run(ops), 1)
    ensures Run(ops).proposals[1].snapshotLedger < Run(ops).proposals[1].startLedger
    ensures ops == [SETUP, CacheTokenBalance(false, ALICE, 10, ALICE, 100), Tick(20, 0), PROPOSE,
                    CastVote(false, ALICE, 1, Approve)]
  {
    hide RunFrom;
    ops := Start();
    var s := Run(ops);
    ops := Then(ops, CacheTokenBalance(false, ALICE, 10, ALICE, 100), s);
    s := Run(ops);
    ops := Then(ops, Tick(20, 0), s);
    s := Run(ops);
    ops := Then(ops, PROPOSE, s);
    s := Run(ops);
    assert VoteWeight(s, ALICE, 10) == 100;
    ops := Then(ops, CastVote(false, ALICE, 1, Approve), s);
  }

  /** A negative balance is accepted, and against the negative supply even no votes are too many. */
  lemma NegativeBalanceLowersSupply() returns (ops: seq<Op>)
    ensures Exceeds(Run(ops), 1)
    ensures Run(ops).proposals[1].snapshotLedger < Run(ops).proposals[1].startLedger
    ensures ops == [SETUP, UpdateVotingPower(false, ALICE, ALICE, -50), Tick(20, 0), PROPOSE]
  {
    hide RunFrom;
    ops := StartWithPower(-50);
    ops := Then(ops, Tick(20, 0), Run(ops));
    ops := Then(ops, PROPOSE, Run(ops));
  }

  lemma ProposedAtOnce() returns (ops: seq<Op>)
    ensures ops == [SETUP, UpdateVotingPower(false, ALICE, ALICE, 100), PROPOSE]
    ensures var s := Run(ops);
            && JustProposed(s) && s.ledger == 0
            && s.histories == map[ALICE := [Checkpoint(0, 100)]] && s.supply == [Checkpoint(0, 100)]
            && VoteWeight(s, ALICE, 0) == 100 && DelegateeOf(s, ALICE) == ALICE
  {
    hide RunFrom;
    ops := StartWithPower(100);
    ops := Then(ops, PROPOSE, Run(ops));
  }

  lemma VotedAtOnce() returns (ops: seq<Op>)
    ensures ops == [SETUP, UpdateVotingPower(false, ALICE, ALICE, 100), PROPOSE, CastVote(false, ALICE, 1, Approve)]
    ensures Sources(ops) == map[(1, ALICE) := ALICE]
    ensures var s := Run(ops);
            && s.admin == Some(ALICE) && s.ledger == 0 && 1 in s.proposals
            && s.histories == map[ALICE := [Checkpoint(0, 100)]] && s.supply == [Checkpoint(0, 100)]
            && s.proposals[1].yes == 100 && s.proposals[1].no == 0
            && s.proposals[1].snapshotLedger == s.proposals[1].startLedger == 0
            && s.votes.Keys == {(1, ALICE)} && s.votes[(1, ALICE)].weight == 100
  {
    hide RunFrom;
    ops := ProposedAtOnce();
    var s := Run(ops);
    NoVotesNoSources(ops);
    ops := Then(ops, CastVote(false, ALICE, 1, Approve), s);
    FirstSource(ops, s, ALICE, ALICE);
    hide Sources, FinalStatus;
  }

  /** With a snapshot of the creating ledger itself, power withdrawn later in that ledger has already
      voted: the ballot weighs all of it beyond what its source then holds. */
  lemma SameLedgerSnapshotKeepsVotes() returns (ops: seq<Op>)
    ensures Exceeds(Run(ops), 1)
    ensures Run(ops).proposals[1].snapshotLedger == Run(ops).proposals[1].startLedger
    ensures ops == [SETUP, UpdateVotingPower(false, ALICE, ALICE, 100), PROPOSE, CastVote(false, ALICE, 1, Approve),
                    UpdateVotingPower(false, ALICE, ALICE, 0)]
    ensures Sources(ops) == map[(1, ALICE) := ALICE] && Sources(ops).Keys == Run(ops).votes.Keys
    ensures (1, ALICE) in Drift(Run(ops), Sources(ops), 1) && Drift(Run(ops), Sources(ops), 1)[(1, ALICE)] == 100
  {
    hide RunFrom;
    ops := VotedAtOnce();
    var voted, s := ops, Run(ops);
    ops := Then(ops, UpdateVotingPower(false, ALICE, ALICE, 0), s);
    assert ops[..|ops| - 1] == voted;
    s := Run(ops);
    assert s.supply == [Checkpoint(0, 0)] && s.histories[ALICE] == [Checkpoint(0, 0)];
  }

  /** A delegation that is not used twice keeps the bound: the delegatee does not vote as well. */
  lemma DelegatedOnceIsWithin() returns (ops: seq<Op>)
    ensures ops == [SETUP, UpdateVotingPower(false, ALICE, ALICE, 60), UpdateVotingPower(false, ALICE, BOB, 40),
                    Tick(20, 0), Delegate(false, BOB, ALICE), PROPOSE, CastVote(false, BOB, 1, Approve)]
    ensures 1 in Run(ops).proposals && PastSnapshot(Run(ops).proposals[1]) && OneEach(Run(ops), Sources(ops), 1)
    ensures forall k :: k in Ballots(Run(ops).votes, 1) ==> CastLater(ops, k)
    ensures Sources(ops) == map[(1, BOB) := ALICE] && Run(ops).proposals[1].yes == 60
  {
    hide RunFrom, LastAt;
    ops := DelegatedProposal();
    var s := Run(ops);
    NoVotesNoSources(ops);
    ops := Then(ops, CastVote(false, BOB, 1, Approve), s);
    FirstSource(ops, s, BOB, ALICE);
    assert Run(ops).votes.Keys == {(1, BOB)};
    hide Call;
    PowersOnRecord(Run(ops));
    PastSnapshotCastLater(ops, 1);
  }

  lemma FirstSource(ops: seq<Op>, s: GovState, voter: Address, source: Address)
    requires |ops| > 0 && Run(ops[..|ops| - 1]) == s && s.votes == map[] && DelegateeOf(s, voter) == source
    requires ops[|ops| - 1] == CastVote(false, voter, 1, Approve) && Call(s, ops[|ops| - 1]).Ok?
    ensures Sources(ops) == map[(1, voter) := source]
  {
    hide Call, RunFrom;
    NoVotesNoSources(ops[..|ops| - 1]);
  }

  lemma PowersOnRecord(s: GovState)
    requires s.histories == POWERS
    ensures OnRecord(s, ALICE, 10) && forall a :: a in s.histories ==> 0 <= ValueAt(s.histories[a], 10)
  {
  }

  lemma NoVotesNoSources(ops: seq<Op>)
    requires Run(ops).votes == map[]
    ensures Sources(ops) == map[]
  {
    DrawnAlways(ops);
  }

  const WAITING: seq<Op> := [SETUP, UpdateVotingPower(false, ALICE, ALICE, 100), Tick(20, 0), PROPOSE,
                             CastVote(false, ALICE, 1, Approve)]

  /** A proposal with 100 of 1000 votes, waiting. */
  lemma WaitingProposal() returns (ops: seq<Op>)
    ensures ops == WAITING
    ensures var s := Run(ops);
            && s.admin == Some(ALICE) && s.config == Some(CONFIG) && s.ledger == 20 && s.timestamp == 0
            && HasStatus(s, 1, Active)
            && s.proposals[1].yes == 100 && s.proposals[1].no == 0 && s.proposals[1].endLedger == 120
  {
    hide RunFrom;
    ops := StartWithPower(100);
    var s := Run(ops);
    ops := Then(ops, Tick(20, 0), s);
    s := Run(ops);
    ops := Then(ops, PROPOSE, s);
    s := Run(ops);
    assert VoteWeight(s, ALICE, 10) == 100;
    ops := Then(ops, CastVote(false, ALICE, 1, Approve), s);
  }

  /** Lowering the quorum while a proposal waits lets its finalization approve it. */
  lemma LoweredQuorumLetsFinalizeApprove() returns (ops: seq<Op>)
    ensures HasStatus(Run(WAITING), 1, Active) && FinalStatus(Run(WAITING), Run(WAITING).proposals[1]) == Ok(Rejected)
    ensures ops == WAITING + [UpdateConfig(false, ALICE, CONFIG.(quorumThreshold := 50))] + [Tick(200, 0)]
    ensures HasStatus(Run(ops), 1, Active) && HasStatus(After(Run(ops), FinalizeProposal(1)), 1, Approved)
  {
    hide RunFrom;
    ops := WaitingProposal();
    var s := Run(ops);
    assert FinalStatus(s, s.proposals[1]) == Ok(Rejected);
    ops := Then(ops, UpdateConfig(false, ALICE, CONFIG.(quorumThreshold := 50)), s);
    s := Run(ops);
    ops := Then(ops, Tick(200, 0), s);
    s := Run(ops);
    assert Decide(s.config.value, 50, 100, 100) == Ok(Approved);
  }

  /** In share mode a proposal nobody voted on cannot be finalized while the supply is empty. */
  lemma EmptySupplyTrapsFinalize() returns (ops: seq<Op>)
    ensures ops == [SETUP, UpdateConfig(false, ALICE, CONFIG.(quorumBps := Some(100))), PROPOSE, Tick(200, 0)]
    ensures HasStatus(Run(ops), 1, Active) && Call(Run(ops), FinalizeProposal(1)) == Err(DivideByZero)
  {
    hide RunFrom;
    ops := Start();
    var s := Run(ops);
    ops := Then(ops, UpdateConfig(false, ALICE, CONFIG.(quorumBps := Some(100))), s);
    s := Run(ops);
    ops := Then(ops, PROPOSE, s);
    s := Run(ops);
    ops := Then(ops, Tick(200, 0), s);
  }
}
