/** Where counted votes come from, and when they stay within the supply they are measured by. */
module GovernanceBallots {
  import opened Common
  import opened Sums
  import opened Checkpoints
  import opened GovernanceModel
  import opened GovernanceInvariants
  import opened GovernanceRuns

  // ---------- the account behind each ballot ----------

  /** For every ballot a run counts, the account whose power it counted: the voter's delegatee then. */
  ghost function Sources(ops: seq<Op>): map<(u32, Address), Address> {
    if |ops| == 0 then map[]
    else
      var front, op := ops[..|ops| - 1], ops[|ops| - 1];
      if op.CastVote? && Call(Run(front), op).Ok?
      then Sources(front)[(op.id, op.voter) := DelegateeOf(Run(front), op.voter)]
      else Sources(front)
  }

  /** The ledger at which each of them was cast. */
  ghost function CastLedgers(ops: seq<Op>): map<(u32, Address), u32> {
    if |ops| == 0 then map[]
    else
      var front, op := ops[..|ops| - 1], ops[|ops| - 1];
      if op.CastVote? && Call(Run(front), op).Ok? then CastLedgers(front)[(op.id, op.voter) := Run(front).ledger]
      else CastLedgers(front)
  }

  ghost predicate PastSnapshot(p: Proposal) {
    p.snapshotLedger < p.startLedger
  }

  /** Whether the account has a checkpoint at the snapshot. */
  ghost predicate OnRecord(s: GovState, source: Address, snapshot: u32) {
    LastAt(HistoryOf(s, source), snapshot).Some?
  }

  /** A ballot cast after the snapshot ledger weighs what its source's history says there, if it says anything. */
  ghost predicate BallotDrawn(s: GovState, k: (u32, Address), source: Address, castAt: u32) {
    && k in s.votes && k.0 in s.proposals
    && var p := s.proposals[k.0];
    && p.startLedger <= castAt <= s.ledger
    && (p.snapshotLedger < castAt && OnRecord(s, source, p.snapshotLedger) ==>
          s.votes[k].weight == LastAt(HistoryOf(s, source), p.snapshotLedger).value)
  }

  ghost predicate Drawn(s: GovState, sources: map<(u32, Address), Address>, castAt: map<(u32, Address), u32>) {
    && sources.Keys == s.votes.Keys && castAt.Keys == s.votes.Keys
    && forall k :: k in s.votes ==> BallotDrawn(s, k, sources[k], castAt[k])
  }

  lemma BallotStaysDrawn(s: GovState, op: Op, t: GovState, k: (u32, Address), source: Address, castAt: u32)
    requires Inv(s) && BallotDrawn(s, k, source, castAt) && Effect(s, op, t)
    requires k in t.votes && t.votes[k] == s.votes[k]
    ensures BallotDrawn(t, k, source, castAt)
  {
    hide LastAt, VoteEffect, PowerEffect, StatusEffect, CreateEffect, SideEffect;
    EffectAdvances(s, op, t, k.0);
    EffectKeepsProposals(s, op, t);
    if s.proposals[k.0].snapshotLedger < castAt {
      EffectKeepsLookups(s, op, t, source, s.proposals[k.0].snapshotLedger);
    }
  }

  lemma VoteIsDrawn(s: GovState, op: Op, t: GovState)
    requires ProposalsOk(s) && op.CastVote? && VoteEffect(s, t, op.id, op.voter, op.choice)
    ensures BallotDrawn(t, (op.id, op.voter), DelegateeOf(s, op.voter), s.ledger)
  {
    hide Marked, LastAt;
  }

  lemma VotesGrowByOne(s: GovState, op: Op, t: GovState)
    requires Effect(s, op, t)
    ensures op.CastVote? ==> (op.id, op.voter) !in s.votes && t.votes.Keys == s.votes.Keys + {(op.id, op.voter)}
    ensures !op.CastVote? ==> t.votes == s.votes
    ensures forall k :: k in s.votes ==> k in t.votes && t.votes[k] == s.votes[k]
  {
    hide Marked, VoteWeight;
  }

  lemma StepKeepsDrawn(ops: seq<Op>)
    requires |ops| > 0
    requires var front := ops[..|ops| - 1]; Inv(Run(front)) && Drawn(Run(front), Sources(front), CastLedgers(front))
    ensures Drawn(Run(ops), Sources(ops), CastLedgers(ops))
  {
    hide Call, Inv, BallotDrawn, Effect;
    var front := ops[..|ops| - 1];
    var s, op, t := Run(front), ops[|ops| - 1], Run(ops);
    if Call(s, op).Ok? {
      assert ProposalsOk(s) by { InvHasProposals(s); }
      StepHasEffect(s, op);
      VotesGrowByOne(s, op, t);
      forall k | k in t.votes
        ensures BallotDrawn(t, k, Sources(ops)[k], CastLedgers(ops)[k])
      {
        if k in s.votes {
          BallotStaysDrawn(s, op, t, k, Sources(front)[k], CastLedgers(front)[k]);
        } else {
          assert VoteEffect(s, t, op.id, op.voter, op.choice) by { VoteOnly(s, op, t); }
          VoteIsDrawn(s, op, t);
        }
      }
    }
  }

  lemma VoteOnly(s: GovState, op: Op, t: GovState)
    requires op.CastVote? && Effect(s, op, t)
    ensures VoteEffect(s, t, op.id, op.voter, op.choice)
  {
  }

  lemma InvHasProposals(s: GovState)
    requires Inv(s)
    ensures ProposalsOk(s)
  {
  }

  /** Every ballot has a source; cast after the snapshot ledger, it weighs the source's checkpoint there. */
  lemma {:induction false} DrawnAlways(ops: seq<Op>)
    ensures Drawn(Run(ops), Sources(ops), CastLedgers(ops))
    decreases |ops|
  {
    hide Call, Inv, BallotDrawn;
    if |ops| > 0 {
      DrawnAlways(ops[..|ops| - 1]);
      InvAlways(ops[..|ops| - 1]);
      StepKeepsDrawn(ops);
    }
  }

  // ---------- votes as multiples of recorded balances ----------

  /** The ballots that draw on account `a`. */
  ghost function DrawnOn<K, A>(ballots: set<K>, sources: map<K, A>, a: A): set<K> {
    set k | k in ballots && k in sources && sources[k] == a
  }

  ghost function Multiplied<A>(times: map<A, int>, entries: map<A, int>): map<A, int>
    requires times.Keys == entries.Keys
  {
    map a | a in entries :: times[a] * entries[a]
  }

  ghost function Times<K, A>(ballots: set<K>, sources: map<K, A>, accounts: set<A>): map<A, int> {
    map a | a in accounts :: |DrawnOn(ballots, sources, a)|
  }

  /** Ballots that each weigh what their source holds weigh together every entry as often as it is drawn on. */
  lemma {:induction false} SumBySource<K, A>(ballots: map<K, int>, sources: map<K, A>, entries: map<A, int>)
    requires forall k :: k in ballots ==> k in sources && sources[k] in entries && ballots[k] == entries[sources[k]]
    ensures Sum(ballots) == Sum(Multiplied(Times(ballots.Keys, sources, entries.Keys), entries))
    decreases |ballots|
  {
    if ballots == map[] {
      NothingDrawn(sources, entries);
    } else {
      var k :| k in ballots;
      assert (ballots - {k}).Keys == ballots.Keys - {k};
      SumBySource(ballots - {k}, sources, entries);
      SumRemove(ballots, k);
      SumMore(ballots.Keys, sources, entries, k);
      hide Times, Multiplied;
    }
  }

  lemma NothingDrawn<K, A>(sources: map<K, A>, entries: map<A, int>)
    ensures Sum(Multiplied(Times({}, sources, entries.Keys), entries)) == 0
  {
    var none := Multiplied(Times({}, sources, entries.Keys), entries);
    forall a | a in none
      ensures none[a] == 0
    {
      assert DrawnOn({}, sources, a) == {};
    }
    SumOfZeros(none);
  }

  lemma SumMore<K, A>(ballots: set<K>, sources: map<K, A>, entries: map<A, int>, k: K)
    requires k in ballots && k in sources && sources[k] in entries
    ensures Sum(Multiplied(Times(ballots, sources, entries.Keys), entries)) ==
            Sum(Multiplied(Times(ballots - {k}, sources, entries.Keys), entries)) + entries[sources[k]]
  {
    var rest := Multiplied(Times(ballots - {k}, sources, entries.Keys), entries);
    DrawnMore(ballots, sources, entries, k);
    SumUpdate(rest, sources[k], rest[sources[k]] + entries[sources[k]]);
    hide Times;
  }

  lemma DrawnMore<K, A>(ballots: set<K>, sources: map<K, A>, entries: map<A, int>, k: K)
    requires k in ballots && k in sources && sources[k] in entries
    ensures var rest := Multiplied(Times(ballots - {k}, sources, entries.Keys), entries);
            Multiplied(Times(ballots, sources, entries.Keys), entries) ==
            rest[sources[k] := rest[sources[k]] + entries[sources[k]]]
  {
    var rest := Multiplied(Times(ballots - {k}, sources, entries.Keys), entries);
    var all := Multiplied(Times(ballots, sources, entries.Keys), entries);
    forall a | a in all
      ensures all[a] == if a == sources[k] then rest[a] + entries[a] else rest[a]
    {
      var less := DrawnOn(ballots - {k}, sources, a);
      assert DrawnOn(ballots, sources, a) == if a == sources[k] then less + {k} else less;
      assert (|less| + 1) * entries[a] == |less| * entries[a] + entries[a];
    }
  }

  lemma {:induction false} SumOfZeros<K>(m: map<K, int>)
    requires forall k :: k in m ==> m[k] == 0
    ensures Sum(m) == 0
    decreases |m|
  {
    if m != map[] {
      var k :| k in m;
      SumRemove(m, k);
      SumOfZeros(m - {k});
    }
  }

  /** The entries drawn on once more or less than each holds its sum once. */
  lemma {:induction false} SumOfOthers<A>(times: map<A, int>, entries: map<A, int>)
    requires times.Keys == entries.Keys
    ensures Sum(Multiplied(times, entries)) == Sum(entries) + Sum(Surplus(times, entries))
    decreases |entries|
  {
    if entries == map[] {
      assert Multiplied(times, entries) == map[] && Surplus(times, entries) == map[];
    } else {
      var a :| a in entries;
      SumOfOthers(times - {a}, entries - {a});
      SumRemove(entries, a);
      SumRemove(Multiplied(times, entries), a);
      SumRemove(Surplus(times, entries), a);
      assert Multiplied(times, entries) - {a} == Multiplied(times - {a}, entries - {a});
      assert Surplus(times, entries) - {a} == Surplus(times - {a}, entries - {a});
      assert (times[a] - 1) * entries[a] == times[a] * entries[a] - entries[a];
    }
  }

  ghost function Surplus<A>(times: map<A, int>, entries: map<A, int>): map<A, int>
    requires times.Keys == entries.Keys
  {
    map a | a in entries :: (times[a] - 1) * entries[a]
  }

  // ---------- a proposal's votes against its snapshot supply ----------

  ghost function Weighed(votes: map<(u32, Address), Vote>, id: u32): map<(u32, Address), int> {
    map k | k in votes && k.0 == id :: votes[k].weight
  }

  /** What each ballot's source holds at the proposal's snapshot by now. */
  ghost function Held(s: GovState, sources: map<(u32, Address), Address>, id: u32): map<(u32, Address), int>
    requires id in s.proposals && sources.Keys == s.votes.Keys
  {
    map k | k in Ballots(s.votes, id) :: ValueAt(HistoryOf(s, sources[k]), s.proposals[id].snapshotLedger) as int
  }

  /** What each ballot weighs beyond that. */
  ghost function Drift(s: GovState, sources: map<(u32, Address), Address>, id: u32): map<(u32, Address), int>
    requires id in s.proposals && sources.Keys == s.votes.Keys
  {
    map k | k in Ballots(s.votes, id) ::
      s.votes[k].weight - ValueAt(HistoryOf(s, sources[k]), s.proposals[id].snapshotLedger)
  }

  /** The weights that came from balances cached by the admin, not from checkpoints. */
  ghost function CachedWeights(s: GovState, sources: map<(u32, Address), Address>, id: u32): map<(u32, Address), int>
    requires id in s.proposals && sources.Keys == s.votes.Keys
  {
    map k | k in Ballots(s.votes, id) && !OnRecord(s, sources[k], s.proposals[id].snapshotLedger) :: s.votes[k].weight
  }

  /** How many ballots of the proposal draw on each account. */
  ghost function Draws(s: GovState, sources: map<(u32, Address), Address>, id: u32): map<Address, int> {
    Times(Ballots(s.votes, id), sources, s.histories.Keys)
  }

  lemma TalliesAreWeights(s: GovState, id: u32)
    requires TalliesOk(s) && id in s.proposals
    ensures s.proposals[id].yes + s.proposals[id].no == Sum(Weighed(s.votes, id))
  {
    assert TallyOk(s.votes, id, s.proposals[id]);
    SidesAreAll(s.votes, id);
  }

  lemma SidesAreAll(votes: map<(u32, Address), Vote>, id: u32)
    ensures Sum(Weighed(votes, id)) == Sum(Weights(votes, id, Approve)) + Sum(Weights(votes, id, Reject))
  {
    var yes, no, all := Weights(votes, id, Approve), Weights(votes, id, Reject), Weighed(votes, id);
    assert all.Keys == yes.Keys + no.Keys;
    SumDisjoint(yes, no);
    forall k | k in all
      ensures (yes + no)[k] == all[k]
    {
    }
    assert yes + no == all;
  }

  lemma {:induction false} SumAdded<K>(m: map<K, int>, n: map<K, int>, sum: map<K, int>)
    requires m.Keys == n.Keys == sum.Keys && forall k :: k in sum ==> sum[k] == m[k] + n[k]
    ensures Sum(sum) == Sum(m) + Sum(n)
    decreases |sum|
  {
    if sum == map[] {
      assert m == map[] && n == map[];
    } else {
      var k :| k in sum;
      SumRemove(m, k);
      SumRemove(n, k);
      SumRemove(sum, k);
      SumAdded(m - {k}, n - {k}, sum - {k});
    }
  }

  lemma WeightIsHeldAndDrift(s: GovState, sources: map<(u32, Address), Address>, id: u32)
    requires id in s.proposals && sources.Keys == s.votes.Keys
    ensures Sum(Weighed(s.votes, id)) == Sum(Held(s, sources, id)) + Sum(Drift(s, sources, id))
  {
    hide LastAt;
    SumAdded(Held(s, sources, id), Drift(s, sources, id), Weighed(s.votes, id));
  }

  /** The ballots whose source has a history. */
  ghost function Known(s: GovState, sources: map<(u32, Address), Address>, id: u32): set<(u32, Address)>
    requires sources.Keys == s.votes.Keys
  {
    set k | k in Ballots(s.votes, id) && sources[k] in s.histories
  }

  lemma DrawsAreKnown(s: GovState, sources: map<(u32, Address), Address>, id: u32)
    requires sources.Keys == s.votes.Keys
    ensures Draws(s, sources, id) == Times(Known(s, sources, id), sources, s.histories.Keys)
  {
    forall a | a in s.histories
      ensures DrawnOn(Ballots(s.votes, id), sources, a) == DrawnOn(Known(s, sources, id), sources, a)
    {
    }
  }

  /** What the ballots' sources hold is every account's entry as often as it is drawn on. */
  lemma HeldByAccount(s: GovState, sources: map<(u32, Address), Address>, id: u32)
    requires id in s.proposals && sources.Keys == s.votes.Keys
    ensures var entries := AccountsAt(s.histories, s.proposals[id].snapshotLedger);
            Sum(Held(s, sources, id)) == Sum(Multiplied(Draws(s, sources, id), entries))
  {
    hide LastAt;
    var held := Held(s, sources, id);
    var entries := AccountsAt(s.histories, s.proposals[id].snapshotLedger);
    var known := map k | k in Known(s, sources, id) :: held[k];
    var rest := map k | k in held && k !in known :: held[k];
    assert known + rest == held;
    SumDisjoint(known, rest);
    forall k | k in rest
      ensures rest[k] == 0
    {
      NoHistoryNothing(s, sources[k], s.proposals[id].snapshotLedger);
    }
    SumOfZeros(rest);
    SumBySource(known, sources, entries);
    DrawsAreKnown(s, sources, id);
    hide Times, Multiplied, Sum;
    assert known.Keys == Known(s, sources, id);
  }

  lemma NoHistoryNothing(s: GovState, a: Address, q: u32)
    requires a !in s.histories
    ensures ValueAt(HistoryOf(s, a), q) == 0
  {
  }

  /** In every reachable state a proposal's votes are the balances recorded at its snapshot, each as
      often as ballots draw on it, and what the ballots weigh beyond their sources' balances. */
  lemma VotesAreDraws(ops: seq<Op>, id: u32)
    requires id in Run(ops).proposals
    ensures Sources(ops).Keys == Run(ops).votes.Keys
    ensures var s, sources, p := Run(ops), Sources(ops), Run(ops).proposals[id];
            p.yes + p.no == Sum(Multiplied(Draws(s, sources, id), AccountsAt(s.histories, p.snapshotLedger)))
                            + Sum(Drift(s, sources, id))
  {
    InvAlways(ops);
    DrawnAlways(ops);
    hide Run, Sources, Multiplied, Times, AccountsAt, LastAt, BallotDrawn;
    WeightIsHeldAndDrift(Run(ops), Sources(ops), id);
    HeldByAccount(Run(ops), Sources(ops), id);
    TalliesAreWeights(Run(ops), id);
  }

  /** Exactly when a proposal's votes are within the supply at its snapshot: what is drawn more than
      once and what ballots weigh beyond their sources do not outweigh what is not drawn at all. */
  lemma VotesWithinSupplyIff(ops: seq<Op>, id: u32)
    requires id in Run(ops).proposals
    ensures Sources(ops).Keys == Run(ops).votes.Keys
    ensures var s, sources, p := Run(ops), Sources(ops), Run(ops).proposals[id];
            p.yes + p.no <= PastSupply(s, p.snapshotLedger)
            <==> Sum(Surplus(Draws(s, sources, id), AccountsAt(s.histories, p.snapshotLedger)))
                 + Sum(Drift(s, sources, id)) <= 0
  {
    VotesAreDraws(ops, id);
    SupplyIsSumAlways(ops, Run(ops).proposals[id].snapshotLedger);
    var snapshot := Run(ops).proposals[id].snapshotLedger;
    SumOfOthers(Draws(Run(ops), Sources(ops), id), AccountsAt(Run(ops).histories, snapshot));
    hide Run, Multiplied, Surplus, Times, LastAt;
  }

  /** Whether the ballot was cast after its proposal's snapshot ledger, as all are on a past snapshot. */
  ghost predicate CastLater(ops: seq<Op>, k: (u32, Address)) {
    k in CastLedgers(ops) && k.0 in Run(ops).proposals && Run(ops).proposals[k.0].snapshotLedger < CastLedgers(ops)[k]
  }

  /** A ballot cast after the snapshot ledger weighs nothing beyond a source on record, and all it
      weighs beyond one that is not. */
  lemma DriftMeaning(ops: seq<Op>, k: (u32, Address))
    requires k in Run(ops).votes
    ensures k in Sources(ops) && k in CastLedgers(ops) && k.0 in Run(ops).proposals
    ensures Sources(ops).Keys == Run(ops).votes.Keys && k in Drift(Run(ops), Sources(ops), k.0)
    ensures PastSnapshot(Run(ops).proposals[k.0]) ==> CastLater(ops, k)
    ensures var s, snapshot := Run(ops), Run(ops).proposals[k.0].snapshotLedger;
            var drift := Drift(s, Sources(ops), k.0)[k];
            && (CastLater(ops, k) && OnRecord(s, Sources(ops)[k], snapshot) ==> drift == 0)
            && (!OnRecord(s, Sources(ops)[k], snapshot) ==> drift == s.votes[k].weight)
  {
    DrawnAlways(ops);
    hide Run, Sources, CastLedgers, LastAt;
    assert BallotDrawn(Run(ops), k, Sources(ops)[k], CastLedgers(ops)[k]);
  }

  /** So where all ballots were cast after the snapshot ledger, what they weigh beyond their sources is
      what they drew on cached balances. */
  lemma DriftIsCached(ops: seq<Op>, id: u32)
    requires id in Run(ops).proposals
    requires forall k :: k in Ballots(Run(ops).votes, id) ==> CastLater(ops, k)
    ensures Sources(ops).Keys == Run(ops).votes.Keys
    ensures Sum(Drift(Run(ops), Sources(ops), id)) == Sum(CachedWeights(Run(ops), Sources(ops), id))
  {
    DrawnAlways(ops);
    hide Run, Sources, CastLater, LastAt, OnRecord;
    var s, sources := Run(ops), Sources(ops);
    var drift, cached := Drift(s, sources, id), CachedWeights(s, sources, id);
    var rest := map k | k in drift && k !in cached :: drift[k];
    forall k | k in drift
      ensures if k in cached then drift[k] == cached[k] else drift[k] == 0
    {
      DriftMeaning(ops, k);
    }
    assert cached + rest == drift;
    SumDisjoint(cached, rest);
    SumOfZeros(rest);
  }

  lemma PastSnapshotCastLater(ops: seq<Op>, id: u32)
    requires id in Run(ops).proposals && PastSnapshot(Run(ops).proposals[id])
    ensures forall k :: k in Ballots(Run(ops).votes, id) ==> CastLater(ops, k)
  {
    hide Run, CastLater, PastSnapshot;
    forall k | k in Ballots(Run(ops).votes, id)
      ensures CastLater(ops, k)
    {
      DriftMeaning(ops, k);
    }
  }

  /** On a past snapshot the votes are within the supply exactly when repeated draws and cached weights
      do not outweigh what is not drawn. */
  lemma PastVotesWithinSupplyIff(ops: seq<Op>, id: u32)
    requires id in Run(ops).proposals && PastSnapshot(Run(ops).proposals[id])
    ensures Sources(ops).Keys == Run(ops).votes.Keys
    ensures var s, sources, p := Run(ops), Sources(ops), Run(ops).proposals[id];
            p.yes + p.no <= PastSupply(s, p.snapshotLedger)
            <==> Sum(Surplus(Draws(s, sources, id), AccountsAt(s.histories, p.snapshotLedger)))
                 + Sum(CachedWeights(s, sources, id)) <= 0
  {
    VotesWithinSupplyIff(ops, id);
    PastSnapshotCastLater(ops, id);
    DriftIsCached(ops, id);
    hide *;
  }

  ghost predicate OwnSource<K, A>(ballots: set<K>, sources: map<K, A>) {
    forall j, k :: (j in ballots && k in ballots && j in sources && k in sources && j != k) ==> sources[j] != sources[k]
  }

  /** Every ballot of the proposal draws on a checkpoint of its own, and no balance was negative. */
  ghost predicate OneEach(s: GovState, sources: map<(u32, Address), Address>, id: u32)
    requires id in s.proposals
  {
    var snapshot := s.proposals[id].snapshotLedger;
    && sources.Keys == s.votes.Keys
    && OwnSource(Ballots(s.votes, id), sources)
    && (forall k :: k in Ballots(s.votes, id) ==> OnRecord(s, sources[k], snapshot))
    && (forall a :: a in s.histories ==> 0 <= ValueAt(s.histories[a], snapshot))
  }

  /** When the counted ballots were cast after the snapshot ledger, as all are on a past snapshot, and
      draw on pairwise distinct accounts, delegated or not, that each have a checkpoint there, the votes
      never exceed the supply there. */
  lemma VotesWithinSupply(ops: seq<Op>, id: u32)
    requires id in Run(ops).proposals
    requires forall k :: k in Ballots(Run(ops).votes, id) ==> CastLater(ops, k)
    requires OneEach(Run(ops), Sources(ops), id)
    ensures var p := Run(ops).proposals[id];
            p.yes + p.no <= PastSupply(Run(ops), p.snapshotLedger)
  {
    VotesWithinSupplyIff(ops, id);
    DriftIsCached(ops, id);
    NoSurplus(Run(ops), Sources(ops), id);
    assert Sources(ops).Keys == Run(ops).votes.Keys;
    hide *;
  }

  lemma NoSurplus(s: GovState, sources: map<(u32, Address), Address>, id: u32)
    requires id in s.proposals && OneEach(s, sources, id)
    ensures Sum(Surplus(Draws(s, sources, id), AccountsAt(s.histories, s.proposals[id].snapshotLedger)))
            + Sum(CachedWeights(s, sources, id)) <= 0
  {
    hide LastAt, OnRecord;
    var entries := AccountsAt(s.histories, s.proposals[id].snapshotLedger);
    var surplus := Surplus(Draws(s, sources, id), entries);
    assert CachedWeights(s, sources, id) == map[];
    forall a | a in surplus
      ensures surplus[a] <= 0
    {
      AtMostOne(Ballots(s.votes, id), sources, a);
      var n := |DrawnOn(Ballots(s.votes, id), sources, a)|;
      assert n == 0 || n == 1;
    }
    SumNonPositive(surplus);
  }

  lemma AtMostOne<K, A>(ballots: set<K>, sources: map<K, A>, a: A)
    requires OwnSource(ballots, sources)
    ensures |DrawnOn(ballots, sources, a)| <= 1
  {
    if DrawnOn(ballots, sources, a) != {} {
      var k :| k in DrawnOn(ballots, sources, a);
      assert DrawnOn(ballots, sources, a) == {k};
    }
  }

  lemma {:induction false} SumNonPositive<K>(m: map<K, int>)
    requires forall k :: k in m ==> m[k] <= 0
    ensures Sum(m) <= 0
    decreases |m|
  {
    if m != map[] {
      var k :| k in m;
      SumRemove(m, k);
      SumNonPositive(m - {k});
    }
  }

  // ---------- runs without delegation ----------

  ghost predicate NonNegative(h: History) {
    forall i :: 0 <= i < |h| ==> 0 <= h[i].votes
  }

  lemma {:induction false} NonNegativeLookup(h: History, q: int)
    requires NonNegative(h)
    ensures 0 <= ValueAt(h, q)
    decreases |h|
  {
    if |h| > 0 {
      NonNegativeLookup(h[..|h| - 1], q);
    }
  }

  /** Nobody delegated, nothing is cached, and no recorded balance is negative. */
  ghost predicate Plain(s: GovState) {
    && s.delegation == map[] && s.cached == map[]
    && forall a :: a in s.histories ==> NonNegative(s.histories[a])
  }

  predicate PlainOp(op: Op) {
    !op.Delegate? && !op.CacheTokenBalance? && (op.UpdateVotingPower? ==> 0 <= op.balance)
  }

  /** Steps that may touch what their effect leaves open. */
  predicate IsSide(op: Op) {
    match op
    case CastVote(_, _, _, _) => false
    case UpdateVotingPower(_, _, _, _) => false
    case CreateProposal(_, _, _, _, _, _, _) => false
    case CancelProposal(_, _) => false
    case FinalizeProposal(_) => false
    case ExecuteProposal(_, _) => false
    case _ => true
  }

  lemma PlainStep(s: GovState, op: Op)
    requires Inv(s) && Plain(s) && PlainOp(op)
    ensures Plain(After(s, op))
  {
    hide Call, Plain, Effect;
    if Call(s, op).Ok? {
      if IsSide(op) {
        PlainSide(s, op);
      } else {
        StepHasEffect(s, op);
        PlainEffect(s, op, After(s, op));
      }
    }
  }

  lemma PlainSide(s: GovState, op: Op)
    requires Plain(s) && PlainOp(op) && IsSide(op)
    ensures Plain(After(s, op))
  {
  }

  lemma PlainEffect(s: GovState, op: Op, t: GovState)
    requires Plain(s) && PlainOp(op) && !IsSide(op) && Effect(s, op, t)
    ensures Plain(t)
  {
    hide Marked, VoteWeight, Latest;
  }

  /** A vote of a plain run draws on the voter's own checkpoint. */
  lemma PlainVote(s: GovState, op: Op)
    requires Inv(s) && Plain(s) && op.CastVote? && Call(s, op).Ok?
    ensures DelegateeOf(s, op.voter) == op.voter && op.id in s.proposals
    ensures OnRecord(s, op.voter, s.proposals[op.id].snapshotLedger)
  {
    hide LastAt;
    StepHasEffect(s, op);
    hide Call;
  }

  /** Every ballot's source is its voter, on record at a past snapshot. */
  ghost predicate OwnSources(s: GovState, sources: map<(u32, Address), Address>) {
    forall k :: k in sources ==>
      && sources[k] == k.1 && k.0 in s.proposals
      && (PastSnapshot(s.proposals[k.0]) ==> OnRecord(s, k.1, s.proposals[k.0].snapshotLedger))
  }

  lemma SourceStays(s: GovState, op: Op, k: (u32, Address))
    requires Inv(s) && k.0 in s.proposals
    requires PastSnapshot(s.proposals[k.0]) ==> OnRecord(s, k.1, s.proposals[k.0].snapshotLedger)
    ensures var t := After(s, op);
            && k.0 in t.proposals
            && (PastSnapshot(t.proposals[k.0]) ==> OnRecord(t, k.1, t.proposals[k.0].snapshotLedger))
  {
    hide Call, LastAt;
    if Call(s, op).Ok? {
      StepHasEffect(s, op);
      EffectAdvances(s, op, After(s, op), k.0);
      if PastSnapshot(s.proposals[k.0]) {
        StepKeepsPast(s, op, k.1, s.proposals[k.0].snapshotLedger);
      }
      hide Effect;
    }
  }

  lemma {:induction false} PlainRun(ops: seq<Op>)
    requires forall op :: op in ops ==> PlainOp(op)
    ensures Plain(Run(ops)) && OwnSources(Run(ops), Sources(ops))
    decreases |ops|
  {
    hide Call, Inv, OnRecord, PastSnapshot;
    if |ops| > 0 {
      var front, op := ops[..|ops| - 1], ops[|ops| - 1];
      PlainRun(front);
      InvAlways(front);
      PlainStep(Run(front), op);
      hide Plain;
      if op.CastVote? && Call(Run(front), op).Ok? {
        PlainVote(Run(front), op);
      }
      forall k | k in Sources(ops)
        ensures k.0 in Run(front).proposals
        ensures var p := Run(front).proposals[k.0];
                PastSnapshot(p) ==> OnRecord(Run(front), k.1, p.snapshotLedger)
      {
      }
      forall k | k in Sources(ops) {
        SourceStays(Run(front), op, k);
      }
    }
  }

  /** So without delegations, cached balances and negative balances the bound holds of every run. */
  lemma PlainVotesWithinSupply(ops: seq<Op>, id: u32)
    requires forall op :: op in ops ==> !op.Delegate? && !op.CacheTokenBalance?
    requires forall op :: op in ops && op.UpdateVotingPower? ==> 0 <= op.balance
    requires id in Run(ops).proposals && PastSnapshot(Run(ops).proposals[id])
    ensures var p := Run(ops).proposals[id];
            p.yes + p.no <= PastSupply(Run(ops), p.snapshotLedger)
  {
    PlainRun(ops);
    DrawnAlways(ops);
    var s, sources := Run(ops), Sources(ops);
    forall a | a in s.histories
      ensures 0 <= ValueAt(s.histories[a], s.proposals[id].snapshotLedger)
    {
      NonNegativeLookup(s.histories[a], s.proposals[id].snapshotLedger);
    }
    hide Run, Sources, LastAt, BallotDrawn, Plain;
    PastSnapshotCastLater(ops, id);
    VotesWithinSupply(ops, id);
  }
}
