/** The donation service: scheduling a donation, cancelling it, and moving
    its status forward along scheduled < in_progress < completed < cancelled. */
module Donations {
  import opened Domain
  import Notifications
  import Lists

  datatype DonationStatus = Scheduled | InProgress | Completed | Cancelled

  function StatusName(s: DonationStatus): string {
    match s
    case Scheduled => "scheduled"
    case InProgress => "in_progress"
    case Completed => "completed"
    case Cancelled => "cancelled"
  }

  /** The allowed status strings. */
  function ParseStatus(text: string): (r: Option<DonationStatus>)
    ensures r.Some? <==> text in {"scheduled", "in_progress", "completed", "cancelled"}
    ensures r.Some? ==> StatusName(r.value) == text
  {
    if text == "scheduled" then Some(Scheduled)
    else if text == "in_progress" then Some(InProgress)
    else if text == "completed" then Some(Completed)
    else if text == "cancelled" then Some(Cancelled)
    else None
  }

  /** statusOrder.indexOf(status). */
  function StatusIndex(s: DonationStatus): (i: nat)
    ensures i < 4
  {
    match s
    case Scheduled => 0
    case InProgress => 1
    case Completed => 2
    case Cancelled => 3
  }

  datatype Donation = Donation(
    donorId: Id,
    hospitalId: Id,
    bloodType: BloodType,
    status: DonationStatus,
    appointmentDate: int,
    quantity: int)

  /** Who may cancel a donation or change its status: its donor, any system
      admin, or an admin of its hospital. */
  predicate Authorized(d: Donation, hospitals: map<Id, Hospital>, userId: Id, role: Role) {
    d.donorId == userId || role == SystemAdmin
    || (d.hospitalId in hospitals && userId in hospitals[d.hospitalId].admins)
  }

  /** The role claim matters only for a user who is neither the donor nor a
      listed admin of the donation's hospital: such a user passes exactly as
      a system admin. The donor and a listed admin pass whatever their role,
      and the hospital's admin list is consulted without checking that the
      user is a hospital admin. */
  lemma AuthorizedByRoleOnlyForOthers(d: Donation, hospitals: map<Id, Hospital>, userId: Id, role: Role)
    ensures userId != d.donorId && !(d.hospitalId in hospitals && userId in hospitals[d.hospitalId].admins)
            ==> (Authorized(d, hospitals, userId, role) <==> role == SystemAdmin)
    ensures userId == d.donorId || (d.hospitalId in hospitals && userId in hospitals[d.hospitalId].admins)
            ==> Authorized(d, hospitals, userId, Donor) && Authorized(d, hospitals, userId, Recipient)
    ensures d.hospitalId !in hospitals && userId != d.donorId
            ==> (Authorized(d, hospitals, userId, role) <==> role == SystemAdmin)
  {
  }

  /** cancelDonation refuses a donation that is already completed or cancelled. */
  function CancelCheck(current: DonationStatus): (r: Result<DonationStatus>)
    ensures r.Err? <==> current == Completed || current == Cancelled
    ensures r.Err? ==> r.error == BadRequest
    ensures r.Ok? ==> r.value == Cancelled
  {
    if current == Completed || current == Cancelled then Err(BadRequest) else Ok(Cancelled)
  }

  /** The checks of updateDonationStatus after authorization: an unknown
      status is a 400; the current status again is accepted with no change
      (None); a status earlier in the order is a 400; a later one is the new
      status. */
  function StatusUpdate(current: DonationStatus, text: string): (r: Result<Option<DonationStatus>>)
    ensures r.Err? ==> r.error == BadRequest
    ensures ParseStatus(text).None? ==> r.Err?
    ensures ParseStatus(text).Some? ==>
      var s := ParseStatus(text).value;
      && (s == current ==> r == Ok(None))
      && (StatusIndex(s) < StatusIndex(current) ==> r.Err?)
      && (StatusIndex(s) > StatusIndex(current) ==> r == Ok(Some(s)))
    // a status change never moves backwards in the order
    ensures r.Ok? && r.value.Some? ==> StatusIndex(current) < StatusIndex(r.value.value)
  {
    match ParseStatus(text)
    case None => Err(BadRequest)
    case Some(s) =>
      if s == current then Ok(None)
      else if StatusIndex(s) < StatusIndex(current) then Err(BadRequest)
      else Ok(Some(s))
  }

  /** completed -> cancelled through updateDonationStatus succeeds, while
      cancelDonation refuses a completed donation. */
  lemma CompletedMayBeCancelledOnlyByUpdate()
    ensures StatusUpdate(Completed, "cancelled") == Ok(Some(Cancelled))
    ensures CancelCheck(Completed) == Err(BadRequest)
  {
  }

  /** As written, a forward status change with an existing donor fails at
      its first call, the `info` notice to the donor; with the extended enum
      both notices go out. */
  lemma InfoNoticesAsWrittenAndCorrected(users: seq<User>, hospitals: map<Id, Hospital>, d: Donation)
    requires FindUser(users, d.donorId).Some?
    ensures var ns := NoticeIfUser(users, d.donorId, "info") + NoticeToAdmin(users, hospitals, d.hospitalId, "info");
      && Notifications.Issued(Notifications.SchemaKinds, users, ns) == [Notice(d.donorId, "info")]
      && Notifications.AllAccepted(Notifications.AcceptedKinds, users, ns)
  {
    var ns := NoticeIfUser(users, d.donorId, "info") + NoticeToAdmin(users, hospitals, d.hospitalId, "info");
    assert Notifications.Rejects(Notifications.SchemaKinds, users, ns[0]);
    Notifications.FirstRejectedUnique(Notifications.SchemaKinds, users, ns, 0);
    Notifications.ServiceNoticesAccepted(users, ns);
  }

  /** A notice to the user, sent only when the user exists (User.findById). */
  function NoticeIfUser(users: seq<User>, id: Id, kind: string): (r: seq<Notice>)
    ensures r == [] <==> FindUser(users, id).None?
    ensures r != [] ==> r == [Notice(id, kind)]
  {
    if FindUser(users, id).Some? then [Notice(id, kind)] else []
  }

  /** A notice to the first admin of the hospital, when the hospital exists,
      has an admin, and that admin's user document exists. */
  function NoticeToAdmin(users: seq<User>, hospitals: map<Id, Hospital>, hospitalId: Id, kind: string)
    : (r: seq<Notice>)
    ensures |r| <= 1
    ensures r != [] <==> hospitalId in hospitals && |hospitals[hospitalId].admins| > 0
                         && FindUser(users, hospitals[hospitalId].admins[0]).Some?
    ensures r != [] ==> r[0] == Notice(hospitals[hospitalId].admins[0], kind)
  {
    if hospitalId in hospitals && |hospitals[hospitalId].admins| > 0 then
      NoticeIfUser(users, hospitals[hospitalId].admins[0], kind)
    else []
  }

  class DonationBook {
    var donations: map<Id, Donation>
    var nextId: nat
    /** The sendNotification calls this service has made, oldest first,
        including one that threw. */
    ghost var sent: seq<Notice>

    ghost predicate Valid()
      reads this
    {
      0 < nextId && forall id :: id in donations ==> 0 < id < nextId
    }

    constructor ()
      ensures Valid() && donations == map[] && sent == []
    {
      donations := map[];
      nextId := 1;
      sent := [];
    }

    /** scheduleDonation: 404 for a missing donor, then for a missing
        hospital, 403 for a donor whose eligibility flag is false; otherwise
        a new scheduled donation, announced to the hospital's first admin.
        The `system` type is in the schema's enum, so this notice is never
        rejected. */
    method ScheduleDonation(users: seq<User>, hospitals: map<Id, Hospital>, donorId: Id, hospitalId: Id,
                            bloodType: BloodType, appointmentDate: int, quantity: int)
      returns (r: Result<Id>)
      requires Valid()
      modifies this
      ensures Valid()
      ensures FindUser(users, donorId).None? ==> r == Err(NotFound)
      ensures FindUser(users, donorId).Some? && hospitalId !in hospitals ==> r == Err(NotFound)
      ensures (FindUser(users, donorId).Some? && hospitalId in hospitals
               && !FindUser(users, donorId).value.donationEligibility) ==> r == Err(Forbidden)
      ensures r.Ok? <==> FindUser(users, donorId).Some? && hospitalId in hospitals
                         && FindUser(users, donorId).value.donationEligibility
      ensures r.Err? ==> donations == old(donations) && sent == old(sent)
      ensures r.Ok? ==>
        && r.value !in old(donations)
        && donations == old(donations)[r.value := Donation(donorId, hospitalId, bloodType, Scheduled, appointmentDate, quantity)]
        && sent == old(sent) + NoticeToAdmin(users, hospitals, hospitalId, "system")
    {
      var donor := FindUser(users, donorId);
      if donor.None? || hospitalId !in hospitals {
        return Err(NotFound);
      }
      if !donor.value.donationEligibility {
        return Err(Forbidden);
      }
      var id := nextId;
      donations := donations[id := Donation(donorId, hospitalId, bloodType, Scheduled, appointmentDate, quantity)];
      nextId := nextId + 1;
      sent := sent + NoticeToAdmin(users, hospitals, hospitalId, "system");
      r := Ok(id);
    }

    /** cancelDonation: 404, then 403 unless Authorized, then the
        CancelCheck; on success the donor and the first admin are told. The
        `alert` type is in the schema's enum, so these notices are never
        rejected. */
    method CancelDonation(users: seq<User>, hospitals: map<Id, Hospital>, donationId: Id, userId: Id, role: Role)
      returns (r: Result<Donation>)
      requires Valid()
      modifies this
      ensures Valid() && nextId == old(nextId)
      ensures donationId !in old(donations) ==> r == Err(NotFound)
      ensures donationId in old(donations) && !Authorized(old(donations)[donationId], hospitals, userId, role)
              ==> r == Err(Forbidden)
      ensures r.Err? ==> donations == old(donations) && sent == old(sent)
      ensures donationId in old(donations) && Authorized(old(donations)[donationId], hospitals, userId, role) ==>
        var d := old(donations)[donationId];
        var c := CancelCheck(d.status);
        && (c.Err? ==> r == Err(c.error))
        && (c.Ok? ==>
          && r == Ok(d.(status := Cancelled))
          && donations == old(donations)[donationId := d.(status := Cancelled)]
          && sent == old(sent) + NoticeIfUser(users, d.donorId, "alert")
                               + NoticeToAdmin(users, hospitals, d.hospitalId, "alert"))
    {
      if donationId !in donations {
        return Err(NotFound);
      }
      var d := donations[donationId];
      if !Authorized(d, hospitals, userId, role) {
        return Err(Forbidden);
      }
      var c := CancelCheck(d.status);
      if c.Err? {
        return Err(c.error);
      }
      var updated := d.(status := Cancelled);
      donations := donations[donationId := updated];
      sent := sent + NoticeIfUser(users, d.donorId, "alert") + NoticeToAdmin(users, hospitals, d.hospitalId, "alert");
      r := Ok(updated);
    }

    /** updateDonationStatus: 404, then 403 unless Authorized, then the
        StatusUpdate checks; the same status returns the donation untouched
        and silent, a later one is stored and announced with `info` to the
        donor and the first admin, one call after the other; a notice the
        enum `kinds` rejects ends the call with a 400 after the save. */
    method UpdateDonationStatus(kinds: set<string>, users: seq<User>, hospitals: map<Id, Hospital>,
                                donationId: Id, text: string, userId: Id, role: Role)
      returns (r: Result<Donation>)
      requires Valid()
      modifies this
      ensures Valid() && nextId == old(nextId)
      ensures donationId !in old(donations) ==> r == Err(NotFound)
      ensures donationId in old(donations) && !Authorized(old(donations)[donationId], hospitals, userId, role)
              ==> r == Err(Forbidden)
      ensures donationId !in old(donations) || !Authorized(old(donations)[donationId], hospitals, userId, role)
              ==> donations == old(donations) && sent == old(sent)
      ensures donationId in old(donations) && Authorized(old(donations)[donationId], hospitals, userId, role) ==>
        var d := old(donations)[donationId];
        var u := StatusUpdate(d.status, text);
        var ns := NoticeIfUser(users, d.donorId, "info") + NoticeToAdmin(users, hospitals, d.hospitalId, "info");
        && (u.Err? ==> r == Err(u.error) && donations == old(donations) && sent == old(sent))
        && (u == Ok(None) ==> r == Ok(d) && donations == old(donations) && sent == old(sent))
        && (u.Ok? && u.value.Some? ==>
          && donations == old(donations)[donationId := d.(status := u.value.value)]
          && sent == old(sent) + Notifications.Issued(kinds, users, ns)
          && (r.Ok? <==> Notifications.AllAccepted(kinds, users, ns))
          && (r.Ok? ==> r.value == d.(status := u.value.value))
          && (r.Err? ==> r.error == BadRequest))
    {
      if donationId !in donations {
        return Err(NotFound);
      }
      var d := donations[donationId];
      if !Authorized(d, hospitals, userId, role) {
        return Err(Forbidden);
      }
      var u := StatusUpdate(d.status, text);
      if u.Err? {
        return Err(u.error);
      }
      if u.value.None? {
        return Ok(d);
      }
      var updated := d.(status := u.value.value);
      donations := donations[donationId := updated];
      var ok := Announce(kinds, users, NoticeIfUser(users, d.donorId, "info"),
                         NoticeToAdmin(users, hospitals, d.hospitalId, "info"));
      if !ok {
        return Err(BadRequest);
      }
      r := Ok(updated);
    }

    /** Two sendNotification calls in turn, each of at most one notice; the
        first rejected one throws and the second is not made. */
    method Announce(kinds: set<string>, users: seq<User>, first: seq<Notice>, second: seq<Notice>)
      returns (ok: bool)
      requires |first| <= 1 && |second| <= 1
      modifies this`sent
      ensures sent == old(sent) + Notifications.Issued(kinds, users, first + second)
      ensures ok <==> Notifications.AllAccepted(kinds, users, first + second)
    {
      Notifications.IssuedPair(kinds, users, first, second);
      sent := sent + first;
      if !Notifications.AllAccepted(kinds, users, first) {
        return false;
      }
      sent := sent + second;
      Lists.AppendAssoc(old(sent), first, second);
      ok := Notifications.AllAccepted(kinds, users, second);
    }
  }
}
