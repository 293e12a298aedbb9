/** A reachable name service whose listing ends before its last name. */
module NameLimits {
  import opened Common
  import opened NameValidation
  import opened NameRegistry
  import opened NamePages

  const OWNER := Address(1)
  const ABC: Name := [97, 98, 99]
  const XYZ: Name := [120, 121, 122]

  lemma ShortNameIsValid(name: Name)
    requires |name| == 3 && forall b :: b in name ==> IsAlnum(b)
    ensures ValidName(name) && Canonical(name) == Ok(name)
  {
    assert IsRun(name) && AreRuns([name]) && Join([name]) == name;
    ValidIsCanonical(name);
  }

  function ByOwner(id: u32, name: Name): Registration {
    Registration(false, OWNER, id, name, CreatorIs(Some(OWNER)))
  }

  lemma TwoRegistrations() returns (rs: seq<Registration>)
    ensures rs == [ByOwner(1, ABC), ByOwner(600, XYZ)]
    ensures RunAll(rs) == Names(map[ABC := 1, XYZ := 600], map[1 := ABC, 600 := XYZ])
  {
    hide ValidName, Canonical;
    ShortNameIsValid(ABC);
    ShortNameIsValid(XYZ);
    rs := [ByOwner(1, ABC), ByOwner(600, XYZ)];
    assert rs[..1] == [ByOwner(1, ABC)] && rs[..1][..0] == [];
    assert RunAll(rs[..1]) == Names(map[ABC := 1], map[1 := ABC]);
  }

  /** A gap of a whole window ends the listing although a registered name follows it. */
  lemma GapEndsListing() returns (rs: seq<Registration>)
    ensures RunAll(rs).names == map[1 := ABC, 600 := XYZ]
    ensures PageOf(RunAll(rs).names, 1, 50).nextStart == 0
    ensures (600, XYZ) !in Follow(RunAll(rs).names, 1, 50)
  {
    rs := TwoRegistrations();
    var names := RunAll(rs).names;
    NothingNamed(names, 2, 500);
    assert NamedIn(names, 1, 500) == [(1, ABC)];
    hide RunAll, Follow;
    PageContinuesIff(names, 1, 50);
    assert PageBegins(names, 1, 50, 1) && WindowRunsDry(names, 50, 1) && ScanEnd(1) == 501;
    MissedIff(names, 1, 50, 600);
  }

  /** A page may hold a name outside the ids `[start, start + limit)`. */
  lemma PageLeavesRange() returns (rs: seq<Registration>)
    ensures RunAll(rs).names == map[1 := ABC, 600 := XYZ]
    ensures PageOf(RunAll(rs).names, 590, 1).items == [(600, XYZ)] && NamedIn(RunAll(rs).names, 590, 591) == []
  {
    rs := TwoRegistrations();
    hide *;
    FarName(RunAll(rs).names);
  }

  lemma FarName(names: map<u32, Name>)
    requires names == map[1 := ABC, 600 := XYZ]
    ensures PageOf(names, 590, 1).items == [(600, XYZ)] && NamedIn(names, 590, 591) == []
  {
    hide ScanStop, NamedIn, PageOf;
    NothingNamed(names, 590, 591);
    NamedInMembers(names, 591, 1_090, (600, names[600]));
    PageIsRangeIff(names, 590, 1);
    PageMeaning(names, 590, 1);
    var page := PageOf(names, 590, 1);
    NamedInMembers(names, 590, if page.nextStart != 0 then page.nextStart else 1_090, page.items[0]);
  }
}
