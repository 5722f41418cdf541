/** The blood-request service: creating a request, matching donors to it,
    changing its status, and listing the requests a user may see. The
    requests collection is a map from id to record; every sendNotification
    call the service makes is appended to the ghost log `sent`. Each
    operation takes the notification schema's type enum `kinds`: a notice
    the schema rejects throws after the request has been saved, and ends
    the operation with a 400. */
module Requests {
  import opened Domain
  import opened Matching
  import Notifications
  import Lists

  datatype RequestStatus = Pending | Matched | Fulfilled | Cancelled

  function StatusName(s: RequestStatus): string {
    match s
    case Pending => "pending"
    case Matched => "matched"
    case Fulfilled => "fulfilled"
    case Cancelled => "cancelled"
  }

  /** The status strings updateRequestStatus accepts. */
  function ParseStatus(text: string): (r: Option<RequestStatus>)
    ensures r.Some? <==> text in {"pending", "matched", "fulfilled", "cancelled"}
    ensures r.Some? ==> StatusName(r.value) == text
  {
    if text == "pending" then Some(Pending)
    else if text == "matched" then Some(Matched)
    else if text == "fulfilled" then Some(Fulfilled)
    else if text == "cancelled" then Some(Cancelled)
    else None
  }

  datatype BloodRequest = BloodRequest(
    recipientId: Id,
    hospitalId: Id,
    bloodType: BloodType,
    quantity: int,
    urgency: Urgency,
    status: RequestStatus,
    matchedDonorIds: seq<Id>)

  datatype MatchResult = MatchResult(request: BloodRequest, matchedDonors: seq<User>)

  /** matchedDonors.map(donor => donor._id) */
  function DonorIds(donors: seq<User>): (r: seq<Id>)
    ensures |r| == |donors|
    ensures forall i :: 0 <= i < |r| ==> r[i] == donors[i].id
  {
    seq(|donors|, i requires 0 <= i < |donors| => donors[i].id)
  }

  /** One notice of the given kind per listed user, in list order. */
  function NoticesTo(ids: seq<Id>, kind: string): (r: seq<Notice>)
    ensures |r| == |ids|
    ensures forall i :: 0 <= i < |r| ==> r[i] == Notice(ids[i], kind)
  {
    seq(|ids|, i requires 0 <= i < |ids| => Notice(ids[i], kind))
  }

  /** Only an admin of the request's hospital may trigger matching; a
      system admin who is not in the list is refused too. */
  predicate MayMatch(req: BloodRequest, hospitals: map<Id, Hospital>, userId: Id) {
    req.hospitalId in hospitals && userId in hospitals[req.hospitalId].admins
  }

  /** Matching is open to exactly the listed admins of the request's
      hospital: a missing hospital refuses everyone, and the recipient is
      refused unless listed. */
  lemma MayMatchOnlyListedAdmins(req: BloodRequest, hospitals: map<Id, Hospital>, userId: Id)
    ensures req.hospitalId !in hospitals ==> !MayMatch(req, hospitals, userId)
    ensures req.hospitalId in hospitals ==>
      (MayMatch(req, hospitals, userId) <==> userId in hospitals[req.hospitalId].admins)
    ensures req.hospitalId in hospitals && req.recipientId !in hospitals[req.hospitalId].admins
            ==> !MayMatch(req, hospitals, req.recipientId)
  {
  }

  /** The request as matchDonors leaves it: the matched ids in ranked order
      and a status that depends only on whether anyone was matched. */
  function AfterMatch(req: BloodRequest, matched: seq<User>): (r: BloodRequest)
    ensures r.matchedDonorIds == DonorIds(matched)
    ensures r.status == Matched <==> |matched| > 0
    ensures r.status == Pending <==> |matched| == 0
    ensures r.(matchedDonorIds := req.matchedDonorIds, status := req.status) == req
  {
    req.(matchedDonorIds := DonorIds(matched), status := if |matched| > 0 then Matched else Pending)
  }

  /** The guards of updateRequestStatus, in the source's order: authorization
      (a hospital admin or the recipient), then the status value. The current
      status is not consulted: any value may follow any other. */
  function StatusChange(req: BloodRequest, hospitals: map<Id, Hospital>, text: string, userId: Id)
    : (r: Result<RequestStatus>)
    ensures r == Err(Forbidden) <==>
      req.hospitalId !in hospitals || (userId !in hospitals[req.hospitalId].admins && userId != req.recipientId)
    ensures r == Err(BadRequest) <==> r != Err(Forbidden) && ParseStatus(text).None?
    ensures r.Ok? <==> r != Err(Forbidden) && ParseStatus(text).Some?
    ensures r.Ok? ==> StatusName(r.value) == text
  {
    if req.hospitalId !in hospitals
       || (userId !in hospitals[req.hospitalId].admins && userId != req.recipientId) then
      Err(Forbidden)
    else match ParseStatus(text)
      case None => Err(BadRequest)
      case Some(s) => Ok(s)
  }

  /** There is no forward-only check: the decision does not depend on the
      current status, so even a fulfilled request can go back to pending. */
  lemma StatusChangeIgnoresCurrent(req: BloodRequest, hospitals: map<Id, Hospital>, text: string,
                                   userId: Id, current: RequestStatus)
    ensures StatusChange(req.(status := current), hospitals, text, userId) == StatusChange(req, hospitals, text, userId)
  {
  }

  lemma FulfilledCanReturnToPending(req: BloodRequest, hospitals: map<Id, Hospital>)
    requires req.status == Fulfilled && req.hospitalId in hospitals
    ensures StatusChange(req, hospitals, "pending", req.recipientId) == Ok(Pending)
  {
  }

  /** The type tags of the notices sent after a request is fulfilled or
      cancelled, to the recipient, the first admin and the matched donors. */
  function RecipientTag(s: RequestStatus): string {
    if s == Fulfilled then "request_fulfilled" else "request_cancelled"
  }

  function AdminTag(s: RequestStatus): string {
    if s == Fulfilled then "request_fulfilled_admin" else "request_cancelled_admin"
  }

  function DonorTag(s: RequestStatus): string {
    if s == Fulfilled then "request_fulfilled_donor" else "request_cancelled_donor"
  }

  /** The notifications issued after a status change: on fulfilled or
      cancelled, the recipient first, then the first admin if there is one,
      then every matched donor in order; nothing otherwise. */
  function StatusNotices(req: BloodRequest, h: Hospital, s: RequestStatus): (r: seq<Notice>)
    ensures s == Pending || s == Matched ==> r == []
    ensures s == Fulfilled || s == Cancelled ==>
      && |r| == 1 + |NoticeToFirstAdmin(h, AdminTag(s))| + |req.matchedDonorIds|
      && r[0] == Notice(req.recipientId, RecipientTag(s))
      && (|h.admins| > 0 ==> r[1] == Notice(h.admins[0], AdminTag(s)))
      && r[|r| - |req.matchedDonorIds|..] == NoticesTo(req.matchedDonorIds, DonorTag(s))
  {
    if s == Fulfilled || s == Cancelled then
      var head := [Notice(req.recipientId, RecipientTag(s))] + NoticeToFirstAdmin(h, AdminTag(s));
      var tail := NoticesTo(req.matchedDonorIds, DonorTag(s));
      assert (head + tail)[|head|..] == tail;
      head + tail
    else []
  }

  /** As written, createRequest's notice to an existing first admin is
      rejected. */
  lemma NewRequestRejectedAsWritten(users: seq<User>, h: Hospital)
    requires |h.admins| > 0 && FindUser(users, h.admins[0]).Some?
    ensures !Notifications.AllAccepted(Notifications.SchemaKinds, users, NoticeToFirstAdmin(h, "new_request"))
  {
    assert Notifications.Rejects(Notifications.SchemaKinds, users, NoticeToFirstAdmin(h, "new_request")[0]);
  }

  /** As written, matchDonors with at least one donor stops at its first
      call: the notice to the nearest donor is rejected. */
  lemma MatchRejectedAsWritten(users: seq<User>, matched: seq<User>)
    requires UsersWellFormed(users) && |matched| > 0 && matched[0] in users
    ensures Notifications.Issued(Notifications.SchemaKinds, users, NoticesTo(DonorIds(matched), "potential_match"))
      == [Notice(matched[0].id, "potential_match")]
  {
    FindUserFindsEach(users, matched[0]);
    var ns := NoticesTo(DonorIds(matched), "potential_match");
    assert Notifications.Rejects(Notifications.SchemaKinds, users, ns[0]);
    Notifications.FirstRejectedUnique(Notifications.SchemaKinds, users, ns, 0);
  }

  /** As written, a fulfilled or cancelled update stops at its first call,
      the notice to an existing recipient. */
  lemma StatusNoticesRejectedAsWritten(users: seq<User>, req: BloodRequest, h: Hospital, s: RequestStatus)
    requires (s == Fulfilled || s == Cancelled) && FindUser(users, req.recipientId).Some?
    ensures Notifications.Issued(Notifications.SchemaKinds, users, StatusNotices(req, h, s))
      == [Notice(req.recipientId, RecipientTag(s))]
  {
    var ns := StatusNotices(req, h, s);
    RecipientTagOutsideSchema(s);
    Notifications.FirstRejectedUnique(Notifications.SchemaKinds, users, ns, 0);
    assert ns[..1] == [ns[0]];
  }

  /** The recipient's status types are not in the schema's enum. */
  lemma RecipientTagOutsideSchema(s: RequestStatus)
    ensures RecipientTag(s) !in Notifications.SchemaKinds
  {
  }

  /** With the extended enum none of these notices is rejected. */
  lemma AcceptedEnumTakesRequestNotices(users: seq<User>, h: Hospital, req: BloodRequest,
                                        s: RequestStatus, ids: seq<Id>)
    ensures Notifications.AllAccepted(Notifications.AcceptedKinds, users, NoticeToFirstAdmin(h, "new_request"))
    ensures Notifications.AllAccepted(Notifications.AcceptedKinds, users, NoticesTo(ids, "potential_match"))
    ensures Notifications.AllAccepted(Notifications.AcceptedKinds, users, StatusNotices(req, h, s))
  {
    Notifications.ServiceNoticesAccepted(users, NoticeToFirstAdmin(h, "new_request"));
    Notifications.ServiceNoticesAccepted(users, NoticesTo(ids, "potential_match"));
    var ns := StatusNotices(req, h, s);
    forall i | 0 <= i < |ns| ensures ns[i].kind in Notifications.ServiceKinds {
    }
    Notifications.ServiceNoticesAccepted(users, ns);
  }

  /** Which requests viewMyRequests returns for a role, by default
      recipient; any other role is a 400. The result is a set: the order in
      which the store returns the requests is not modelled. */
  function View(requests: map<Id, BloodRequest>, hospitals: map<Id, Hospital>, userId: Id,
                role: string := "recipient")
    : (r: Result<set<Id>>)
    ensures r.Err? <==> role !in {"recipient", "hospital_admin", "donor"}
    ensures r.Err? ==> r.error == BadRequest
    ensures r.Ok? ==> forall id :: id in r.value ==> id in requests
    ensures role == "recipient" ==> forall id :: id in requests ==>
      (id in r.value <==> requests[id].recipientId == userId)
    ensures role == "hospital_admin" ==> forall id :: id in requests ==>
      (id in r.value <==> requests[id].hospitalId in hospitals && userId in hospitals[requests[id].hospitalId].admins)
    ensures role == "donor" ==> forall id :: id in requests ==>
      (id in r.value <==> userId in requests[id].matchedDonorIds)
  {
    if role == "recipient" then
      Ok(set id | id in requests && requests[id].recipientId == userId)
    else if role == "hospital_admin" then
      var adminOf := set h | h in hospitals && userId in hospitals[h].admins;
      Ok(set id | id in requests && requests[id].hospitalId in adminOf)
    else if role == "donor" then
      Ok(set id | id in requests && userId in requests[id].matchedDonorIds)
    else Err(BadRequest)
  }

  /** A donor kept by matchDonors sees the request among their own. */
  lemma MatchedDonorSeesRequest(requests: map<Id, BloodRequest>, hospitals: map<Id, Hospital>,
                                id: Id, req: BloodRequest, matched: seq<User>, k: nat)
    requires k < |matched|
    ensures var after := requests[id := AfterMatch(req, matched)];
      View(after, hospitals, matched[k].id, "donor").Ok? &&
      id in View(after, hospitals, matched[k].id, "donor").value
  {
    var ids := AfterMatch(req, matched).matchedDonorIds;
    assert ids[k] == matched[k].id;
  }

  class RequestBoard {
    var requests: map<Id, BloodRequest>
    var nextId: nat
    /** The sendNotification calls this service has made, oldest first,
        including one that threw. */
    ghost var sent: seq<Notice>

    ghost predicate Valid()
      reads this
    {
      0 < nextId && forall id :: id in requests ==> 0 < id < nextId
    }

    constructor ()
      ensures Valid() && requests == map[] && sent == []
    {
      requests := map[];
      nextId := 1;
      sent := [];
    }

    /** createRequest: the recipient and the hospital must exist; the new
        request is pending with no matched donors, and the hospital's first
        admin, if any, is told about it. A rejected notice leaves the
        request saved and ends the call with a 400. */
    method CreateRequest(kinds: set<string>, users: seq<User>, hospitals: map<Id, Hospital>, recipientId: Id,
                         hospitalId: Id, bloodType: BloodType, quantity: int, urgency: Urgency := Medium)
      returns (r: Result<Id>)
      requires Valid()
      modifies this
      ensures Valid()
      ensures FindUser(users, recipientId).None? || hospitalId !in hospitals ==>
        r == Err(NotFound) && requests == old(requests) && sent == old(sent)
      ensures FindUser(users, recipientId).Some? && hospitalId in hospitals ==>
        var ns := NoticeToFirstAdmin(hospitals[hospitalId], "new_request");
        && old(nextId) !in old(requests)
        && requests == old(requests)[old(nextId) := BloodRequest(recipientId, hospitalId, bloodType, quantity, urgency, Pending, [])]
        && sent == old(sent) + Notifications.Issued(kinds, users, ns)
        && (r.Ok? <==> Notifications.AllAccepted(kinds, users, ns))
        && (r.Ok? ==> r.value == old(nextId))
        && (r.Err? ==> r.error == BadRequest)
    {
      if FindUser(users, recipientId).None? || hospitalId !in hospitals {
        return Err(NotFound);
      }
      var id := nextId;
      requests := requests[id := BloodRequest(recipientId, hospitalId, bloodType, quantity, urgency, Pending, [])];
      nextId := nextId + 1;
      var ns := NoticeToFirstAdmin(hospitals[hospitalId], "new_request");
      sent := sent + ns;
      if !Notifications.AllAccepted(kinds, users, ns) {
        return Err(BadRequest);
      }
      r := Ok(id);
    }

    /** matchDonors: look the request up (404), check that the caller is an
        admin of its hospital (403), shortlist the nearest five of the first
        twenty selected donors (`matched`), record them and the new status
        whatever the old status was, and issue one potential_match notice
        per donor; a rejected notice ends the call with a 400, after the
        save. */
    method MatchDonors(kinds: set<string>, users: seq<User>, hospitals: map<Id, Hospital>, requestId: Id,
                       userId: Id, now: int, within: (Point, Point, nat) -> bool)
      returns (r: Result<MatchResult>, ghost matched: seq<User>)
      requires Valid()
      modifies this
      ensures Valid() && nextId == old(nextId)
      ensures requestId !in old(requests) ==> r == Err(NotFound)
      ensures requestId in old(requests) && !MayMatch(old(requests)[requestId], hospitals, userId) ==> r == Err(Forbidden)
      ensures requestId !in old(requests) || !MayMatch(old(requests)[requestId], hospitals, userId) ==>
        requests == old(requests) && sent == old(sent)
      ensures requestId in old(requests) && MayMatch(old(requests)[requestId], hospitals, userId) ==>
        var req := old(requests)[requestId];
        var m := matched;
        var ns := NoticesTo(DonorIds(m), "potential_match");
        && IsShortlist(users, SearchCriteria(req.bloodType, req.urgency, hospitals[req.hospitalId].location, now), within, m)
        && requests == old(requests)[requestId := AfterMatch(req, m)]
        && sent == old(sent) + Notifications.Issued(kinds, users, ns)
        && (r.Ok? <==> Notifications.AllAccepted(kinds, users, ns))
        && (r.Ok? ==> r.value == MatchResult(AfterMatch(req, m), m))
        && (r.Err? ==> r.error == BadRequest)
    {
      matched := [];
      if requestId !in requests {
        return Err(NotFound), matched;
      }
      var req := requests[requestId];
      if !MayMatch(req, hospitals, userId) {
        return Err(Forbidden), matched;
      }
      var hospital := hospitals[req.hospitalId];
      var c := SearchCriteria(req.bloodType, req.urgency, hospital.location, now);
      var shortlist := Shortlist(users, c, within);
      assert IsShortlist(users, c, within, shortlist);
      matched := shortlist;
      r := RecordMatch(kinds, users, requestId, shortlist);
    }

    /** The end of matchDonors: save the matched ids and the status, then one
        potential_match notice per donor until one is rejected. */
    method RecordMatch(kinds: set<string>, users: seq<User>, requestId: Id, matched: seq<User>)
      returns (r: Result<MatchResult>)
      requires Valid() && requestId in requests
      modifies this
      ensures Valid() && nextId == old(nextId)
      ensures var ns := NoticesTo(DonorIds(matched), "potential_match");
        && requests == old(requests)[requestId := AfterMatch(old(requests)[requestId], matched)]
        && sent == old(sent) + Notifications.Issued(kinds, users, ns)
        && (r.Ok? <==> Notifications.AllAccepted(kinds, users, ns))
        && (r.Ok? ==> r.value == MatchResult(AfterMatch(old(requests)[requestId], matched), matched))
        && (r.Err? ==> r.error == BadRequest)
    {
      var updated := AfterMatch(requests[requestId], matched);
      requests := requests[requestId := updated];
      var ok := NotifyEach(kinds, users, DonorIds(matched), "potential_match");
      if !ok {
        return Err(BadRequest);
      }
      r := Ok(MatchResult(updated, matched));
    }

    /** updateRequestStatus: 404 for a missing request, then the guards of
        StatusChange; on success the status is overwritten and the
        fulfilled/cancelled notices go out, one call after another, until
        one is rejected. */
    method UpdateRequestStatus(kinds: set<string>, users: seq<User>, hospitals: map<Id, Hospital>,
                               requestId: Id, text: string, userId: Id)
      returns (r: Result<BloodRequest>)
      requires Valid()
      modifies this
      ensures Valid() && nextId == old(nextId)
      ensures requestId !in old(requests) ==> r == Err(NotFound) && requests == old(requests) && sent == old(sent)
      ensures requestId in old(requests) ==>
        var req := old(requests)[requestId];
        var d := StatusChange(req, hospitals, text, userId);
        && (d.Err? ==> r == Err(d.error) && requests == old(requests) && sent == old(sent))
        && (d.Ok? ==>
          var ns := StatusNotices(req, hospitals[req.hospitalId], d.value);
          && requests == old(requests)[requestId := req.(status := d.value)]
          && sent == old(sent) + Notifications.Issued(kinds, users, ns)
          && (r.Ok? <==> Notifications.AllAccepted(kinds, users, ns))
          && (r.Ok? ==> r.value == req.(status := d.value))
          && (r.Err? ==> r.error == BadRequest))
    {
      if requestId !in requests {
        return Err(NotFound);
      }
      var req := requests[requestId];
      var d := StatusChange(req, hospitals, text, userId);
      if d.Err? {
        return Err(d.error);
      }
      r := RecordStatus(kinds, users, requestId, hospitals[req.hospitalId], d.value);
    }

    /** The end of updateRequestStatus: save the new status, then the
        status-change notices until one is rejected. */
    method RecordStatus(kinds: set<string>, users: seq<User>, requestId: Id, hospital: Hospital, s: RequestStatus)
      returns (r: Result<BloodRequest>)
      requires Valid() && requestId in requests
      modifies this
      ensures Valid() && nextId == old(nextId)
      ensures var req := old(requests)[requestId];
        var ns := StatusNotices(req, hospital, s);
        && requests == old(requests)[requestId := req.(status := s)]
        && sent == old(sent) + Notifications.Issued(kinds, users, ns)
        && (r.Ok? <==> Notifications.AllAccepted(kinds, users, ns))
        && (r.Ok? ==> r.value == req.(status := s))
        && (r.Err? ==> r.error == BadRequest)
    {
      var req := requests[requestId];
      var updated := req.(status := s);
      requests := requests[requestId := updated];
      var ok := NotifyStatusChange(kinds, users, req, hospital, s);
      if !ok {
        return Err(BadRequest);
      }
      r := Ok(updated);
    }

    /** The notices after a status change: on fulfilled or cancelled the
        recipient, then the first admin if there is one, then the matched
        donors, one call after another until one is rejected. */
    method NotifyStatusChange(kinds: set<string>, users: seq<User>, req: BloodRequest, hospital: Hospital,
                              s: RequestStatus)
      returns (ok: bool)
      modifies this`sent
      ensures sent == old(sent) + Notifications.Issued(kinds, users, StatusNotices(req, hospital, s))
      ensures ok <==> Notifications.AllAccepted(kinds, users, StatusNotices(req, hospital, s))
    {
      if s == Fulfilled || s == Cancelled {
        var head := [Notice(req.recipientId, RecipientTag(s))] + NoticeToFirstAdmin(hospital, AdminTag(s));
        var donors := NoticesTo(req.matchedDonorIds, DonorTag(s));
        assert StatusNotices(req, hospital, s) == head + donors;
        Notifications.IssuedAppend(kinds, users, head, donors);
        Notifications.AllAcceptedAppend(kinds, users, head, donors);
        var headOk := Announce(kinds, users, [Notice(req.recipientId, RecipientTag(s))],
                               NoticeToFirstAdmin(hospital, AdminTag(s)));
        if !headOk {
          return false;
        }
        ghost var mid := sent;
        ok := NotifyEach(kinds, users, req.matchedDonorIds, DonorTag(s));
        Lists.AppendAssoc(old(sent), head, Notifications.Issued(kinds, users, donors));
      } else {
        ok := true;
      }
    }

    /** Two sendNotification calls in turn, each of at most one notice; the
        first rejected one throws and the second is not made. */
    method Announce(kinds: set<string>, users: seq<User>, first: seq<Notice>, second: seq<Notice>)
      returns (ok: bool)
      requires |first| <= 1 && |second| <= 1
      modifies this`sent
      ensures sent == old(sent) + Notifications.Issued(kinds, users, first + second)
      ensures ok <==> Notifications.AllAccepted(kinds, users, first + second)
    {
      Notifications.IssuedPair(kinds, users, first, second);
      sent := sent + first;
      if !Notifications.AllAccepted(kinds, users, first) {
        return false;
      }
      sent := sent + second;
      Lists.AppendAssoc(old(sent), first, second);
      ok := Notifications.AllAccepted(kinds, users, second);
    }

    /** The loop `for (const id of ids) await sendNotification(id, ..., kind)`,
        which a rejected notice ends. */
    method NotifyEach(kinds: set<string>, users: seq<User>, ids: seq<Id>, kind: string) returns (ok: bool)
      modifies this`sent
      ensures sent == old(sent) + Notifications.Issued(kinds, users, NoticesTo(ids, kind))
      ensures ok <==> Notifications.AllAccepted(kinds, users, NoticesTo(ids, kind))
    {
      ghost var ns := NoticesTo(ids, kind);
      var k := 0;
      while k < |ids|
        invariant 0 <= k <= |ids|
        invariant forall i :: 0 <= i < k ==> !Notifications.Rejects(kinds, users, ns[i])
        invariant sent == old(sent) + ns[..k]
      {
        var n := Notice(ids[k], kind);
        assert ns[..k + 1] == ns[..k] + [n];
        Lists.AppendAssoc(old(sent), ns[..k], [n]);
        sent := sent + [n];
        if Notifications.Rejects(kinds, users, n) {
          Notifications.IssuedUpTo(kinds, users, ns, k);
          return false;
        }
        k := k + 1;
      }
      assert ns[..|ids|] == ns;
      return true;
    }
  }
}
