/** Checkpoint histories and their linear reference lookup. */
module Checkpoints {
  import opened Common

  datatype Checkpoint = Checkpoint(ledger: u32, votes: i128)

  type History = seq<Checkpoint>

  ghost predicate Increasing(h: History) {
    forall i, j :: 0 <= i < j < |h| ==> h[i].ledger < h[j].ledger
  }

  /** No checkpoint was written after `ledger`, and each ledger has at most one. */
  ghost predicate RecordedBy(h: History, ledger: int) {
    Increasing(h) && forall i :: 0 <= i < |h| ==> h[i].ledger <= ledger
  }

  /** The votes of the last checkpoint at or before ledger `q`, found by walking back. */
  function LastAt(h: History, q: int): Option<i128> {
    if |h| == 0 then None
    else if h[|h| - 1].ledger <= q then Some(h[|h| - 1].votes)
    else LastAt(h[..|h| - 1], q)
  }

  function ValueAt(h: History, q: int): i128 {
    LastAt(h, q).GetOr(0)
  }

  function Latest(h: History): i128 {
    if |h| == 0 then 0 else h[|h| - 1].votes
  }

  /** Overwrite the checkpoint of `ledger` if it is the last one, append otherwise. */
  function Record(h: History, ledger: u32, votes: i128): History {
    if Overwrites(h, ledger) then h[|h| - 1 := Checkpoint(ledger, votes)]
    else h + [Checkpoint(ledger, votes)]
  }

  predicate Overwrites(h: History, ledger: u32) {
    |h| > 0 && h[|h| - 1].ledger == ledger
  }

  /** Index `i` splits the history at `q`: the walk back stops there. */
  lemma {:induction false} LastAtSplit(h: History, q: int, i: nat)
    requires i < |h| && h[i].ledger <= q
    requires forall j :: i < j < |h| ==> q < h[j].ledger
    ensures LastAt(h, q) == Some(h[i].votes)
    decreases |h|
  {
    if i < |h| - 1 {
      LastAtSplit(h[..|h| - 1], q, i);
    }
  }

  lemma {:induction false} LastAtNone(h: History, q: int)
    requires forall j :: 0 <= j < |h| ==> q < h[j].ledger
    ensures LastAt(h, q) == None
    decreases |h|
  {
    if |h| > 0 {
      LastAtNone(h[..|h| - 1], q);
    }
  }

  /** Checkpoint `i` is the last one at or before ledger `q`. */
  ghost predicate IsLastAt(h: History, q: int, i: int) {
    0 <= i < |h| && h[i].ledger <= q && forall j :: i < j < |h| ==> q < h[j].ledger
  }

  /** Declarative meaning of the lookup, both ways. */
  lemma {:induction false} LastAtMeaning(h: History, q: int)
    ensures LastAt(h, q).None? <==> forall i :: 0 <= i < |h| ==> q < h[i].ledger
    ensures LastAt(h, q).Some? <==> exists i :: IsLastAt(h, q, i) && LastAt(h, q) == Some(h[i].votes)
    decreases |h|
  {
    if |h| > 0 {
      var last := |h| - 1;
      if h[last].ledger <= q {
        assert IsLastAt(h, q, last);
      } else {
        LastAtMeaning(h[..last], q);
        if LastAt(h[..last], q).Some? {
          var i :| IsLastAt(h[..last], q, i) && LastAt(h[..last], q) == Some(h[..last][i].votes);
          assert IsLastAt(h, q, i);
        }
      }
    }
  }

  lemma RecordKeepsOrder(h: History, ledger: u32, votes: i128)
    requires RecordedBy(h, ledger)
    ensures RecordedBy(Record(h, ledger, votes), ledger)
    ensures Latest(Record(h, ledger, votes)) == votes
  {
  }

  /** Recording at `ledger` leaves every earlier ledger's answer as it was
      and answers `votes` from `ledger` on. */
  lemma RecordLookup(h: History, ledger: u32, votes: i128, q: int)
    requires RecordedBy(h, ledger)
    ensures q < ledger ==> LastAt(Record(h, ledger, votes), q) == LastAt(h, q)
    ensures ledger <= q ==> LastAt(Record(h, ledger, votes), q) == Some(votes)
  {
    var r := Record(h, ledger, votes);
    if Overwrites(h, ledger) {
      assert r[..|r| - 1] == h[..|h| - 1];
    } else {
      assert r[..|r| - 1] == h;
    }
  }

  /** From the last checkpoint on, the lookup is the latest value. */
  lemma LookupAfterLast(h: History, ledger: int, q: int)
    requires RecordedBy(h, ledger) && ledger <= q
    ensures ValueAt(h, q) == Latest(h)
  {
  }
}
