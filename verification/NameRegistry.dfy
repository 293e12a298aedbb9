/** The forward and reverse name maps: what registering does and what every run keeps. */
module NameRegistry {
  import opened Common
  import opened NameValidation

  /** What the registry contract answers when asked for a talos's creator. */
  datatype RegistryReply = NotConfigured | CreatorIs(creator: Option<Address>)

  datatype NameError = DomainPaused | Uncanonical(reason: NameValidation.Error) | InvalidName | NameTaken
                     | RegistryMissing | UnauthorizedCaller

  datatype Names = Names(records: map<Name, u32>, names: map<u32, Name>)

  datatype Registration = Registration(paused: bool, owner: Address, talosId: u32, raw: Name, reply: RegistryReply)

  /** The canonical name a registration would store, or why it is refused. */
  ghost function Checked(s: Names, r: Registration): Result<Name, NameError> {
    if r.paused then Err(DomainPaused)
    else
      match Canonical(r.raw)
      case Err(e) => Err(Uncanonical(e))
      case Ok(name) =>
        if !ValidName(name) then Err(InvalidName)
        else if name in s.records then Err(NameTaken)
        else if r.reply == NotConfigured then Err(RegistryMissing)
        else if r.reply.creator != Some(r.owner) then Err(UnauthorizedCaller)
        else Ok(name)
  }

  /** Storing a name frees the one the talos had. */
  ghost function Stored(s: Names, id: u32, name: Name): Names {
    var kept := if id in s.names then s.records - {s.names[id]} else s.records;
    Names(kept[name := id], s.names[id := name])
  }

  ghost function Register(s: Names, r: Registration): Names {
    match Checked(s, r)
    case Ok(name) => Stored(s, r.talosId, name)
    case Err(_) => s
  }

  ghost function RunAll(rs: seq<Registration>): Names {
    if |rs| == 0 then Names(map[], map[]) else Register(RunAll(rs[..|rs| - 1]), rs[|rs| - 1])
  }

  /** Resolving canonicalizes first and fails where that fails. */
  function Resolve(s: Names, raw: Name): Result<Option<u32>, NameValidation.Error> {
    var name :- Canonical(raw);
    Ok(if name in s.records then Some(s.records[name]) else None)
  }

  ghost function Available(s: Names, raw: Name): Result<bool, NameValidation.Error> {
    match Canonical(raw)
    case Err(e) => Err(e)
    case Ok(name) => Ok(ValidName(name) && name !in s.records)
  }

  /** Each map undoes the other, and only valid names, which are their own canonical form, are stored. */
  ghost predicate Inverse(s: Names) {
    && (forall name, id: u32 ::
          (name in s.records && s.records[name] == id) <==> (id in s.names && s.names[id] == name))
    && forall name :: name in s.records ==> ValidName(name) && Canonical(name) == Ok(name)
  }

  lemma StoringKeepsInverse(s: Names, id: u32, name: Name)
    requires Inverse(s) && name !in s.records && ValidName(name)
    ensures Inverse(Stored(s, id, name))
  {
    hide ValidName, Canonical;
    ValidIsCanonical(name);
    var t := Stored(s, id, name);
    forall n, i: u32
      ensures (n in t.records && t.records[n] == i) <==> (i in t.names && t.names[i] == n)
    {
      assert i in s.names ==> s.names[i] in s.records && s.records[s.names[i]] == i;
      assert n in s.records ==> s.records[n] in s.names && s.names[s.records[n]] == n;
    }
  }

  /** In every reachable state, across renames, the two maps are mutual inverses of valid names. */
  lemma {:induction false} InverseAlways(rs: seq<Registration>)
    ensures Inverse(RunAll(rs))
    decreases |rs|
  {
    if |rs| > 0 {
      var s, r := RunAll(rs[..|rs| - 1]), rs[|rs| - 1];
      InverseAlways(rs[..|rs| - 1]);
      if Checked(s, r).Ok? {
        StoringKeepsInverse(s, r.talosId, Checked(s, r).value);
      }
    }
  }

  /** After a registration exactly the spellings of the new name resolve to its talos, the spellings
      of the name it gave up resolve to nothing, and all others resolve as before. */
  lemma ResolvesAfterRegister(s: Names, r: Registration, raw: Name)
    requires Inverse(s) && Checked(s, r).Ok?
    ensures Resolve(Register(s, r), raw) ==
            if Canonical(raw) == Canonical(r.raw) then Ok(Some(r.talosId))
            else if r.talosId in s.names && Canonical(raw) == Ok(s.names[r.talosId]) then Ok(None)
            else Resolve(s, raw)
  {
    hide ValidName, Canonical;
  }

  /** A name is available exactly when the talos's creator could register it. */
  lemma AvailableMeansRegistrable(s: Names, owner: Address, id: u32, raw: Name)
    ensures Available(s, raw) == Ok(true)
            <==> Checked(s, Registration(false, owner, id, raw, CreatorIs(Some(owner)))).Ok?
    ensures Available(s, raw).Err?
            <==> exists e ::
                   Checked(s, Registration(false, owner, id, raw, CreatorIs(Some(owner)))) == Err(Uncanonical(e))
  {
    hide ValidName, Canonical;
  }

  /** A talos resolves from its own name, and no other talos does. */
  lemma NameResolvesBack(s: Names, id: u32, raw: Name)
    requires Inverse(s) && id in s.names
    ensures Resolve(s, raw) == Ok(Some(id)) <==> Canonical(raw) == Ok(s.names[id])
  {
    hide ValidName, Canonical;
  }

  // ---------- who can register what ----------

  /** The caller is the talos's creator, nothing is paused, and the canonical form is valid and free. */
  ghost predicate Acceptable(s: Names, r: Registration) {
    && !r.paused && r.reply == CreatorIs(Some(r.owner))
    && Canonical(r.raw).Ok? && ValidName(Canonical(r.raw).value) && Canonical(r.raw).value !in s.records
  }

  /** A registration is accepted exactly then, and gives the talos its canonical form as its name. A
      caller that is not the creator is told so exactly where nothing else is wrong, and a name that is
      taken whoever asks. */
  lemma RegisterAcceptedIff(s: Names, r: Registration)
    ensures Checked(s, r).Ok? <==> Acceptable(s, r)
    ensures Checked(s, r) == Err(UnauthorizedCaller) <==>
              r.reply.CreatorIs? && r.reply.creator != Some(r.owner)
              && Acceptable(s, r.(reply := CreatorIs(Some(r.owner))))
    ensures Checked(s, r) == Err(NameTaken) <==>
              !r.paused && Canonical(r.raw).Ok? && ValidName(Canonical(r.raw).value)
              && Canonical(r.raw).value in s.records
    ensures Checked(s, r) == Err(InvalidName) <==>
              !r.paused && Canonical(r.raw).Ok? && !ValidName(Canonical(r.raw).value)
    ensures Register(s, r).names ==
            if Acceptable(s, r) then s.names[r.talosId := Canonical(r.raw).value] else s.names
    ensures !Acceptable(s, r) ==> Register(s, r) == s
  {
    hide ValidName, Canonical;
  }

  /** Step `k` is an accepted registration for the talos, and the last one. */
  ghost predicate LastRegistration(rs: seq<Registration>, k: int, id: u32) {
    && 0 <= k < |rs| && rs[k].talosId == id && Acceptable(RunAll(rs[..k]), rs[k])
    && forall j :: k < j < |rs| ==> !(rs[j].talosId == id && Acceptable(RunAll(rs[..j]), rs[j]))
  }

  lemma LastRegistrationStep(rs: seq<Registration>, k: int, id: u32)
    requires |rs| > 0
    ensures var front, r := rs[..|rs| - 1], rs[|rs| - 1];
            LastRegistration(rs, k, id) <==>
              if r.talosId == id && Acceptable(RunAll(front), r) then k == |rs| - 1 else LastRegistration(front, k, id)
  {
    hide RunAll, Acceptable;
    var front := rs[..|rs| - 1];
    forall j | 0 <= j < |front|
      ensures front[..j] == rs[..j] && front[j] == rs[j]
    {
    }
  }

  /** After every run a talos has the name that the last accepted registration for it asked for, signed
      by the creator the registry then answered, and no name without one. */
  lemma {:induction false} NameIsLastRegistered(rs: seq<Registration>, id: u32, name: Name)
    ensures (id in RunAll(rs).names && RunAll(rs).names[id] == name)
            <==> exists k :: LastRegistration(rs, k, id) && Canonical(rs[k].raw) == Ok(name)
    decreases |rs|
  {
    hide Canonical, ValidName;
    if |rs| > 0 {
      var front, r := rs[..|rs| - 1], rs[|rs| - 1];
      NameIsLastRegistered(front, id, name);
      RegisterAcceptedIff(RunAll(front), r);
      forall k
        ensures LastRegistration(rs, k, id) <==>
                  if r.talosId == id && Acceptable(RunAll(front), r) then k == |rs| - 1
                  else LastRegistration(front, k, id)
        ensures LastRegistration(front, k, id) ==> 0 <= k < |front| && rs[k] == front[k]
      {
        LastRegistrationStep(rs, k, id);
      }
      hide LastRegistration;
      if r.talosId == id && Acceptable(RunAll(front), r) {
        assert LastRegistration(rs, |rs| - 1, id);
      }
    }
  }

  /** So a talos's name changes only by a registration for it that its creator signed. */
  lemma NameChangesByCreator(rs: seq<Registration>, r: Registration, id: u32)
    requires var s, t := RunAll(rs), RunAll(rs + [r]);
             !(id in s.names <==> id in t.names) || (id in s.names && s.names[id] != t.names[id])
    ensures r.talosId == id && r.reply == CreatorIs(Some(r.owner)) && !r.paused
    ensures id in RunAll(rs + [r]).names && Canonical(r.raw) == Ok(RunAll(rs + [r]).names[id])
  {
    assert (rs + [r])[..|rs|] == rs;
    RegisterAcceptedIff(RunAll(rs), r);
    hide Canonical, ValidName, RunAll;
  }
}
