/** Who the admin of the dividend contract is after any run, told by the calls alone. */
module DividendsAdmins {
  import opened Common
  import opened DividendsModel

  /** The call revokes the standing nomination of `a`: the admin nominates anew or cancels, or `a` accepts. */
  predicate Revokes(s: State, op: Op, a: Address) {
    match op
    case ProposeAdmin(caller, _) => s.admin == Some(caller)
    case CancelAdminTransfer(caller) => s.admin == Some(caller)
    case AcceptAdmin(caller) => caller == a
    case _ => false
  }

  /** The admin of that moment nominated `a` at step `j`, and nothing before step `k` revoked it. */
  ghost predicate Nominates(ops: seq<Op>, j: int, k: int, a: Address) {
    && 0 <= j < k <= |ops|
    && ops[j].ProposeAdmin? && ops[j].nominee == a && Run(ops[..j]).admin == Some(ops[j].caller)
    && forall i :: j < i < k ==> !Revokes(Run(ops[..i]), ops[i], a)
  }

  /** Step `k` makes `a` the admin: the first initialization names it, or it accepts a standing nomination. */
  ghost predicate TakesOver(ops: seq<Op>, k: int, a: Address) {
    && 0 <= k < |ops|
    && match ops[k]
       case Initialize(admin) => admin == a && forall i :: 0 <= i < k ==> !ops[i].Initialize?
       case AcceptAdmin(caller) => caller == a && exists j :: Nominates(ops, j, k, a)
       case _ => false
  }

  ghost predicate LastToTakeOver(ops: seq<Op>, k: int, a: Address) {
    TakesOver(ops, k, a) && forall i, b :: k < i < |ops| ==> !TakesOver(ops, i, b)
  }

  // ---------- steps ----------

  lemma AdminStep(s: State, op: Op)
    ensures var t := After(s, op);
            && t.admin == (match op
                           case Initialize(admin) => if s.admin.None? then Some(admin) else s.admin
                           case AcceptAdmin(caller) => if s.pending == Some(caller) then s.pending else s.admin
                           case _ => s.admin)
  {
    hide RoundingDust, Allocation, OpenEpoch, CheckShares;
  }

  lemma PendingStep(s: State, op: Op, a: Address)
    requires s.pending.Some? ==> s.admin.Some?
    ensures var t := After(s, op);
            && (t.pending.Some? ==> t.admin.Some?)
            && (t.pending == Some(a) <==>
                  || (op.ProposeAdmin? && op.nominee == a && s.admin == Some(op.caller))
                  || (s.pending == Some(a) && !Revokes(s, op, a)))
  {
    hide RoundingDust, Allocation, OpenEpoch, CheckShares;
  }

  // ---------- runs ----------

  lemma NominatesInPrefix(ops: seq<Op>, j: int, k: int, a: Address, n: nat)
    requires k <= n <= |ops|
    ensures Nominates(ops[..n], j, k, a) <==> Nominates(ops, j, k, a)
  {
    hide Run;
    forall i | 0 <= i < n
      ensures ops[..n][..i] == ops[..i] && ops[..n][i] == ops[i]
    {
    }
  }

  lemma TakesOverInPrefix(ops: seq<Op>, k: int, a: Address, n: nat)
    requires k < n <= |ops|
    ensures TakesOver(ops[..n], k, a) <==> TakesOver(ops, k, a)
  {
    hide Nominates;
    forall j
      ensures Nominates(ops[..n], j, k, a) <==> Nominates(ops, j, k, a)
    {
      NominatesInPrefix(ops, j, k, a, n);
    }
  }

  /** One more step leaves a nomination standing exactly if it makes it or does not revoke it. */
  lemma NominatesStep(ops: seq<Op>, a: Address)
    requires |ops| > 0
    ensures var front, op := ops[..|ops| - 1], ops[|ops| - 1];
            (exists j :: Nominates(ops, j, |ops|, a)) <==>
              || (op.ProposeAdmin? && op.nominee == a && Run(front).admin == Some(op.caller))
              || ((exists j :: Nominates(front, j, |front|, a)) && !Revokes(Run(front), op, a))
  {
    hide Run, Revokes;
    var front, op, last := ops[..|ops| - 1], ops[|ops| - 1], |ops| - 1;
    forall j
      ensures Nominates(front, j, last, a) <==> Nominates(ops, j, last, a)
      ensures j < last ==> (Nominates(ops, j, |ops|, a) <==> Nominates(ops, j, last, a) && !Revokes(Run(front), op, a))
    {
      NominatesInPrefix(ops, j, last, a, last);
    }
    assert Nominates(ops, last, |ops|, a) <==>
             op.ProposeAdmin? && op.nominee == a && Run(front).admin == Some(op.caller);
  }

  /** Exactly when `a` is the nominee: an admin of the moment nominated it and nothing revoked that since. */
  lemma {:induction false} NomineeIs(ops: seq<Op>, a: Address)
    ensures Run(ops).pending == Some(a) <==> exists j :: Nominates(ops, j, |ops|, a)
    ensures Run(ops).pending.Some? ==> Run(ops).admin.Some?
    decreases |ops|
  {
    hide After, Nominates, Revokes;
    if |ops| == 0 {
      assert forall j :: !Nominates(ops, j, |ops|, a) by { NothingNominated(a); }
    } else {
      NomineeIs(ops[..|ops| - 1], a);
      NominatesStep(ops, a);
      PendingStep(Run(ops[..|ops| - 1]), ops[|ops| - 1], a);
    }
  }

  lemma NobodyNominated(ops: seq<Op>)
    ensures Run(ops).pending.None? ==> forall a, j :: !Nominates(ops, j, |ops|, a)
  {
    hide Run, Nominates;
    if Run(ops).pending.None? {
      forall a, j
        ensures !Nominates(ops, j, |ops|, a)
      {
        NomineeIs(ops, a);
      }
    }
  }

  lemma NothingNominated(a: Address)
    ensures forall j :: !Nominates([], j, 0, a)
  {
  }

  /** There is an admin exactly if some call was an initialization. */
  lemma {:induction false} AdminIffInitialized(ops: seq<Op>)
    ensures Run(ops).admin.Some? <==> exists op :: op in ops && op.Initialize?
    decreases |ops|
  {
    hide After;
    if |ops| > 0 {
      var front, last := ops[..|ops| - 1], ops[|ops| - 1];
      AdminIffInitialized(front);
      NomineeIs(front, Address(0));
      AdminStep(Run(front), last);
      assert ops == front + [last];
    }
  }

  /** The last step takes over exactly if it changes the admin or confirms it by an acceptance. */
  lemma LastTakesOver(ops: seq<Op>, a: Address)
    requires |ops| > 0
    ensures var front, op := ops[..|ops| - 1], ops[|ops| - 1];
            TakesOver(ops, |ops| - 1, a) <==>
              || (op == Initialize(a) && Run(front).admin.None?)
              || (op == AcceptAdmin(a) && Run(front).pending == Some(a))
  {
    hide Run, Nominates;
    var front, last := ops[..|ops| - 1], |ops| - 1;
    AdminIffInitialized(front);
    NomineeIs(front, a);
    forall j
      ensures Nominates(front, j, last, a) <==> Nominates(ops, j, last, a)
    {
      NominatesInPrefix(ops, j, last, a, last);
    }
    assert (exists op :: op in front && op.Initialize?) <==> exists i :: 0 <= i < last && ops[i].Initialize?;
  }

  lemma LastToTakeOverStep(ops: seq<Op>, a: Address)
    requires |ops| > 0
    ensures var front, last := ops[..|ops| - 1], |ops| - 1;
            (exists k :: LastToTakeOver(ops, k, a)) <==>
              || TakesOver(ops, last, a)
              || ((forall b :: !TakesOver(ops, last, b)) && exists k :: LastToTakeOver(front, k, a))
  {
    hide TakesOver;
    var front, last := ops[..|ops| - 1], |ops| - 1;
    forall k, b | k < last
      ensures TakesOver(front, k, b) <==> TakesOver(ops, k, b)
    {
      TakesOverInPrefix(ops, k, b, last);
    }
    TakesOverInside(ops, a);
    TakesOverInside(front, a);
    if TakesOver(ops, last, a) {
      assert LastToTakeOver(ops, last, a);
    }
    forall k
      ensures k < last && LastToTakeOver(ops, k, a) ==>
                LastToTakeOver(front, k, a) && forall b :: !TakesOver(ops, last, b)
      ensures LastToTakeOver(front, k, a) && (forall b :: !TakesOver(ops, last, b)) ==> LastToTakeOver(ops, k, a)
    {
    }
  }

  lemma TakesOverInside(ops: seq<Op>, a: Address)
    ensures forall k :: TakesOver(ops, k, a) ==> 0 <= k < |ops|
  {
  }

  /** After every run the admin is the one that took over last: the first initializer's choice until a
      nominee accepts, then the last nominee that accepted, each nominated by the admin of its moment. */
  lemma {:induction false} AdminIs(ops: seq<Op>, a: Address)
    ensures Run(ops).admin == Some(a) <==> exists k :: LastToTakeOver(ops, k, a)
    decreases |ops|
  {
    hide After, TakesOver;
    if |ops| == 0 {
      TakesOverInside(ops, a);
    } else {
      var front, op, last := ops[..|ops| - 1], ops[|ops| - 1], |ops| - 1;
      AdminIs(front, a);
      LastToTakeOverStep(ops, a);
      AdminStep(Run(front), op);
      forall b
        ensures TakesOver(ops, last, b) <==>
                  || (op == Initialize(b) && Run(front).admin.None?)
                  || (op == AcceptAdmin(b) && Run(front).pending == Some(b))
      {
        LastTakesOver(ops, b);
      }
    }
  }
}
