/** The hospital service: registration and update with validation of the
    admin ids, and adding and removing one admin on a hospital's list. */
module Hospitals {
  import opened Domain
  import opened Lists

  /** A user document with this id and role hospital_admin exists. */
  ghost predicate IsAdminUser(users: seq<User>, id: Id) {
    exists u :: u in users && u.id == id && u.role == HospitalAdmin
  }

  /** The ids of User.find({_id: {$in: ids}, role: 'hospital_admin'}); each
      user document is found once, however often its id is listed. */
  function FoundAdmins(users: seq<User>, ids: seq<Id>): (r: set<Id>)
    ensures r <= Elements(ids)
    ensures forall id :: id in r <==> id in ids && IsAdminUser(users, id)
  {
    set u | u in users && u.id in ids && u.role == HospitalAdmin :: u.id
  }

  /** The admin check of registerHospital and updateHospital: an empty or
      absent list is not checked; a falsy id is a 400; so is a found count
      that differs from the length of the list. */
  function CheckAdmins(users: seq<User>, admins: seq<Id>): (r: Option<Error>)
    ensures r.Some? ==> r.value == BadRequest
  {
    if |admins| == 0 then None
    else if exists i :: 0 <= i < |admins| && Missing(admins[i]) then Some(BadRequest)
    else if |FoundAdmins(users, admins)| != |admins| then Some(BadRequest)
    else None
  }

  /** A set inside another of the same size is the other. */
  lemma SubsetOfSameSize<T>(a: set<T>, b: set<T>)
    requires a <= b && |a| == |b|
    ensures a == b
  {
    assert b == a + (b - a);
    assert a * (b - a) == {};
    assert |b - a| == 0;
    assert b == a + {};
  }

  /** A non-empty admin list passes exactly when every id is well formed,
      names an existing hospital admin, and occurs once. So a repeated
      valid id is refused. */
  lemma CheckAdminsExactly(users: seq<User>, admins: seq<Id>)
    ensures CheckAdmins(users, admins).None? <==>
      |admins| == 0 ||
      ((forall i :: 0 <= i < |admins| ==> WellFormed(admins[i]) && IsAdminUser(users, admins[i])) && Distinct(admins))
  {
    if |admins| > 0 && forall i :: 0 <= i < |admins| ==> WellFormed(admins[i]) {
      var found := FoundAdmins(users, admins);
      ElementsCount(admins);
      if |found| == |admins| {
        assert |found| == |Elements(admins)| by {
          assert |found| <= |Elements(admins)| by {
            SubsetCard(found, Elements(admins));
          }
        }
        SubsetOfSameSize(found, Elements(admins));
        forall i | 0 <= i < |admins| ensures IsAdminUser(users, admins[i]) {
          assert admins[i] in Elements(admins);
        }
      }
      if (forall i :: 0 <= i < |admins| ==> IsAdminUser(users, admins[i])) && Distinct(admins) {
        assert found == Elements(admins) by {
          forall id | id in Elements(admins) ensures id in found {
            var i :| 0 <= i < |admins| && admins[i] == id;
          }
        }
      }
    }
  }

  lemma SubsetCard<T>(a: set<T>, b: set<T>)
    requires a <= b
    ensures |a| <= |b|
  {
    assert b == a + (b - a);
  }

  class HospitalRegistry {
    var hospitals: map<Id, Hospital>
    var nextId: nat

    ghost predicate Valid()
      reads this
    {
      0 < nextId && forall id :: id in hospitals ==> 0 < id < nextId
    }

    constructor ()
      ensures Valid() && hospitals == map[]
    {
      hospitals := map[];
      nextId := 1;
    }

    /** registerHospital with an already geocoded location: the admin check,
        then a new hospital. */
    method RegisterHospital(users: seq<User>, name: string, location: Point, admins: seq<Id>)
      returns (r: Result<Id>)
      requires Valid()
      modifies this
      ensures Valid()
      ensures CheckAdmins(users, admins).Some? <==> r.Err?
      ensures r.Err? ==> r.error == BadRequest && hospitals == old(hospitals)
      ensures r.Ok? ==> r.value !in old(hospitals) && hospitals == old(hospitals)[r.value := Hospital(name, location, admins)]
    {
      if CheckAdmins(users, admins).Some? {
        return Err(BadRequest);
      }
      var id := nextId;
      hospitals := hospitals[id := Hospital(name, location, admins)];
      nextId := nextId + 1;
      r := Ok(id);
    }

    /** updateHospital: 400 for a malformed id, the admin check on a given
        list, 404 for a missing hospital; the given fields replace the
        stored ones and the rest stay. */
    method UpdateHospital(users: seq<User>, hospitalId: Id, name: Option<string>, location: Option<Point>,
                          admins: Option<seq<Id>>)
      returns (r: Result<Hospital>)
      requires Valid()
      modifies this`hospitals
      ensures Valid()
      ensures Missing(hospitalId) ==> r == Err(BadRequest)
      ensures WellFormed(hospitalId) && admins.Some? && CheckAdmins(users, admins.value).Some? ==> r == Err(BadRequest)
      ensures WellFormed(hospitalId) && (admins.None? || CheckAdmins(users, admins.value).None?) ==>
        (r == Err(NotFound) <==> hospitalId !in old(hospitals))
      ensures r.Ok? <==>
        && WellFormed(hospitalId)
        && (admins.None? || CheckAdmins(users, admins.value).None?)
        && hospitalId in old(hospitals)
      ensures r.Err? ==> hospitals == old(hospitals)
      ensures r.Ok? ==>
        var h := old(hospitals)[hospitalId];
        && hospitalId in old(hospitals)
        && r.value.name == (if name.Some? then name.value else h.name)
        && r.value.location == (if location.Some? then location.value else h.location)
        && r.value.admins == (if admins.Some? then admins.value else h.admins)
        && hospitals == old(hospitals)[hospitalId := r.value]
    {
      if Missing(hospitalId) {
        return Err(BadRequest);
      }
      if admins.Some? && CheckAdmins(users, admins.value).Some? {
        return Err(BadRequest);
      }
      if hospitalId !in hospitals {
        return Err(NotFound);
      }
      var h := hospitals[hospitalId];
      var updated := Hospital(
        if name.Some? then name.value else h.name,
        if location.Some? then location.value else h.location,
        if admins.Some? then admins.value else h.admins);
      hospitals := hospitals[hospitalId := updated];
      r := Ok(updated);
    }

    /** addAdminToHospital: 400 for a malformed hospital or admin id, 404 for
        a missing user, 400 for a user who is not a hospital admin, 404 for
        a missing hospital, 400 for an admin already listed; else the id
        goes at the end of the list. */
    method AddAdmin(users: seq<User>, hospitalId: Id, adminId: Id) returns (r: Result<Hospital>)
      requires Valid()
      modifies this`hospitals
      ensures Valid()
      ensures Missing(hospitalId) || Missing(adminId) ==> r == Err(BadRequest)
      ensures WellFormed(hospitalId) && WellFormed(adminId) ==>
        && (FindUser(users, adminId).None? ==> r == Err(NotFound))
        && (FindUser(users, adminId).Some? && FindUser(users, adminId).value.role != HospitalAdmin
            ==> r == Err(BadRequest))
        && (FindUser(users, adminId).Some? && FindUser(users, adminId).value.role == HospitalAdmin ==>
            && (hospitalId !in old(hospitals) ==> r == Err(NotFound))
            && (hospitalId in old(hospitals) && adminId in old(hospitals)[hospitalId].admins ==> r == Err(BadRequest))
            && (hospitalId in old(hospitals) && adminId !in old(hospitals)[hospitalId].admins ==> r.Ok?))
      ensures r.Err? ==> hospitals == old(hospitals)
      ensures r.Ok? ==>
        var h := old(hospitals)[hospitalId];
        && hospitalId in old(hospitals)
        && adminId !in h.admins
        && r.value == h.(admins := h.admins + [adminId])
        && hospitals == old(hospitals)[hospitalId := r.value]
    {
      if Missing(hospitalId) || Missing(adminId) {
        return Err(BadRequest);
      }
      var adminUser := FindUser(users, adminId);
      if adminUser.None? {
        return Err(NotFound);
      }
      if adminUser.value.role != HospitalAdmin {
        return Err(BadRequest);
      }
      if hospitalId !in hospitals {
        return Err(NotFound);
      }
      var h := hospitals[hospitalId];
      if adminId in h.admins {
        return Err(BadRequest);
      }
      var updated := h.(admins := h.admins + [adminId]);
      hospitals := hospitals[hospitalId := updated];
      r := Ok(updated);
    }

    /** removeAdminFromHospital: 400 for a malformed id, 404 for a missing
        hospital or an admin not on its list; else the first occurrence of
        the id is spliced out. */
    method RemoveAdmin(hospitalId: Id, adminId: Id) returns (r: Result<Hospital>)
      requires Valid()
      modifies this`hospitals
      ensures Valid()
      ensures Missing(hospitalId) || Missing(adminId) ==> r == Err(BadRequest)
      ensures WellFormed(hospitalId) && WellFormed(adminId) ==>
        (r == Err(NotFound) <==> hospitalId !in old(hospitals) || adminId !in old(hospitals)[hospitalId].admins)
      ensures r.Ok? <==>
        && WellFormed(hospitalId) && WellFormed(adminId)
        && hospitalId in old(hospitals)
        && adminId in old(hospitals)[hospitalId].admins
      ensures r.Err? ==> hospitals == old(hospitals)
      ensures r.Ok? ==>
        var h := old(hospitals)[hospitalId];
        && hospitalId in old(hospitals)
        && adminId in h.admins
        && r.value == h.(admins := RemoveFirst(h.admins, adminId))
        && hospitals == old(hospitals)[hospitalId := r.value]
    {
      if Missing(hospitalId) || Missing(adminId) {
        return Err(BadRequest);
      }
      if hospitalId !in hospitals {
        return Err(NotFound);
      }
      var h := hospitals[hospitalId];
      if IndexOf(h.admins, adminId) == -1 {
        return Err(NotFound);
      }
      var updated := h.(admins := RemoveFirst(h.admins, adminId));
      hospitals := hospitals[hospitalId := updated];
      r := Ok(updated);
    }
  }

  /** Adding a new admin and then removing the same id gives back the
      original hospitals. */
  lemma AddThenRemoveRestores(hospitals: map<Id, Hospital>, hospitalId: Id, adminId: Id)
    requires hospitalId in hospitals && adminId !in hospitals[hospitalId].admins
    ensures var h := hospitals[hospitalId];
      var added := hospitals[hospitalId := h.(admins := h.admins + [adminId])];
      adminId in added[hospitalId].admins &&
      added[hospitalId := added[hospitalId].(admins := RemoveFirst(added[hospitalId].admins, adminId))] == hospitals
  {
    var h := hospitals[hospitalId];
    PushThenRemoveFirst(h.admins, adminId);
    var added := hospitals[hospitalId := h.(admins := h.admins + [adminId])];
    assert added[hospitalId].(admins := RemoveFirst(added[hospitalId].admins, adminId)) == h;
  }
}
