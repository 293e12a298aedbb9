/** The name service over its storage keys. */
module NameService {
  import opened Common
  import opened NameValidation
  import opened NameRegistry
  import opened NamePages

  class TalosNameService {
    var nameRecord: map<Name, u32>
    var talosName: map<u32, Name>
    ghost var trace: seq<Registration>

    ghost function View(): Names
      reads this
    {
      Names(nameRecord, talosName)
    }

    /** The object is where its registrations so far have taken a fresh deployment. */
    ghost predicate Valid()
      reads this
    {
      View() == RunAll(trace)
    }

    constructor ()
      ensures Valid() && trace == []
    {
      nameRecord, talosName, trace := map[], map[], [];
    }

    method RegisterName(paused: bool, owner: Address, talosId: u32, raw: Name, reply: RegistryReply)
      returns (r: Result<(), NameError>)
      requires Valid()
      modifies this
      ensures Valid() && trace == old(trace) + [Registration(paused, owner, talosId, raw, reply)]
      ensures View() == Register(old(View()), Registration(paused, owner, talosId, raw, reply))
      ensures match Checked(old(View()), Registration(paused, owner, talosId, raw, reply))
              case Ok(_) => r == Ok(())
              case Err(e) => r == Err(e)
      ensures r.Ok? <==> Acceptable(old(View()), Registration(paused, owner, talosId, raw, reply))
      ensures r.Ok? ==> reply == CreatorIs(Some(owner)) && talosName == old(talosName)[talosId := talosName[talosId]]
                        && Resolve(View(), raw) == Ok(Some(talosId))
      ensures r.Err? ==> View() == old(View())
    {
      RegisterAcceptedIff(View(), Registration(paused, owner, talosId, raw, reply));
      hide Canonical, ValidName;
      trace := trace + [Registration(paused, owner, talosId, raw, reply)];
      assert trace[..|trace| - 1] == old(trace);
      if paused {
        return Err(DomainPaused);
      }
      var canonical := CanonicalizeName(raw);
      if canonical.Err? {
        return Err(Uncanonical(canonical.error));
      }
      var name := canonical.value;
      var valid := ValidateName(name);
      if !valid {
        return Err(InvalidName);
      }
      if name in nameRecord {
        return Err(NameTaken);
      }
      if reply == NotConfigured {
        return Err(RegistryMissing);
      }
      if reply.creator != Some(owner) {
        return Err(UnauthorizedCaller);
      }
      if talosId in talosName {
        nameRecord := nameRecord - {talosName[talosId]};
      }
      nameRecord := nameRecord[name := talosId];
      talosName := talosName[talosId := name];
      return Ok(());
    }

    method ResolveName(raw: Name) returns (r: Result<Option<u32>, NameValidation.Error>)
      ensures r == Resolve(View(), raw)
    {
      var name :- CanonicalizeName(raw);
      return Ok(if name in nameRecord then Some(nameRecord[name]) else None);
    }

    method NameOf(talosId: u32) returns (r: Option<Name>)
      requires Valid()
      ensures r.Some? ==> ValidName(r.value) && Resolve(View(), r.value) == Ok(Some(talosId))
      ensures r.None? ==> forall raw :: Resolve(View(), raw) != Ok(Some(talosId))
    {
      hide ValidName;
      InverseAlways(trace);
      return if talosId in talosName then Some(talosName[talosId]) else None;
    }

    method IsNameAvailable(raw: Name) returns (r: Result<bool, NameValidation.Error>)
      ensures r == Available(View(), raw)
    {
      var name :- CanonicalizeName(raw);
      var valid := ValidateName(name);
      if !valid {
        return Ok(false);
      }
      return Ok(name !in nameRecord);
    }

    method GetNamesPage(startId: u32, limit: u32) returns (page: NamesPage)
      ensures page == PageOf(View().names, startId, limit)
    {
      var effectiveStart: u32 := if startId == 0 then 1 else startId;
      var effectiveLimit: u32 := PageSize(limit);
      var items: seq<(u32, Name)> := [];
      var collected: u32 := 0;
      var scanEnd := SaturatingAddU32(effectiveStart, MAX_REVERSE_SCAN_WINDOW);
      var cursor := effectiveStart;
      while cursor < scanEnd && collected < effectiveLimit
        invariant effectiveStart <= cursor <= scanEnd
        invariant 0 <= collected <= effectiveLimit
        invariant items == NamedIn(talosName, effectiveStart, cursor)
        invariant ScanStop(talosName, cursor, scanEnd, effectiveLimit - collected) ==
                  ScanStop(talosName, effectiveStart, scanEnd, effectiveLimit)
        decreases scanEnd - cursor
      {
        NamedInSplits(talosName, effectiveStart, cursor, cursor + 1);
        if cursor in talosName {
          items := items + [(cursor, talosName[cursor])];
          collected := collected + 1;
        }
        cursor := SaturatingAddU32(cursor, 1);
        if cursor == 0 {
          // The overflow guard: a saturating step never reaches zero.
          assert false;
        }
      }
      ScanStopMeaning(talosName, effectiveStart, scanEnd, effectiveLimit);
      var nextStart: u32 := if cursor < scanEnd && collected == effectiveLimit then cursor else 0;
      return NamesPage(items, nextStart);
    }
  }
}
