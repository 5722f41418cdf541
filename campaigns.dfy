/** The campaign service: joining and leaving a campaign's participant list,
    and the classification of a campaign by date and stored status. */
module Campaigns {
  import opened Domain
  import opened Lists
  import Notifications

  /** The fields of a campaign document the service reads. Both dates are
      required by the schema; `status` is the stored string. */
  datatype Campaign = Campaign(
    title: string,
    hospitalId: Id,
    startDate: int,
    endDate: int,
    status: string,
    participants: seq<Id>)

  /** The schema's status enum and its default. */
  const StoredStatuses: set<string> := {"upcoming", "ongoing", "completed"}

  /** The pre-save hook: a campaign whose start is after its end cannot be
      saved. */
  predicate SaveAllowed(c: Campaign) {
    c.startDate <= c.endDate
  }

  /** The hook looks only at the dates: changing the participant list never
      changes whether a save succeeds, and a one-day campaign (start equal
      to end) is allowed. */
  lemma SaveHookIgnoresParticipants(c: Campaign, participants: seq<Id>)
    ensures SaveAllowed(c.(participants := participants)) == SaveAllowed(c)
    ensures c.startDate == c.endDate ==> SaveAllowed(c)
    ensures c.startDate > c.endDate ==> !SaveAllowed(c)
  {
  }

  /** What checkCampaignStatus reports. `Unknown` is the initial value of
      the service's variable. */
  datatype CampaignState = Unknown | Expired | Scheduled | Active | Completed | Cancelled

  /** checkCampaignStatus at time `now`: past the end date is expired, before
      the start date is scheduled, otherwise the stored status when it is
      active, completed or cancelled, and active for any other value. */
  function Classify(now: int, c: Campaign): (r: CampaignState)
    ensures now > c.endDate ==> r == Expired
    ensures now <= c.endDate && now < c.startDate ==> r == Scheduled
    ensures c.startDate <= now <= c.endDate ==>
      && (c.status == "active" ==> r == Active)
      && (c.status == "completed" ==> r == Completed)
      && (c.status == "cancelled" ==> r == Cancelled)
      && (c.status !in {"active", "completed", "cancelled"} ==> r == Active)
    ensures r != Unknown
  {
    if now > c.endDate then Expired
    else if now < c.startDate then Scheduled
    else if c.status == "active" then Active
    else if c.status == "completed" then Completed
    else if c.status == "cancelled" then Cancelled
    else Active
  }

  /** Within its dates a campaign with a status the schema allows is
      reported either active or completed: upcoming and ongoing both read as
      active, and cancelled never comes out. */
  lemma StoredStatusInWindow(now: int, c: Campaign)
    requires c.status in StoredStatuses && c.startDate <= now <= c.endDate
    ensures Classify(now, c) == (if c.status == "completed" then Completed else Active)
  {
  }

  /** Once expired, a campaign stays expired; before it is expired, the
      classification never goes from the stored status back to scheduled. */
  lemma ClassifyOverTime(now: int, later: int, c: Campaign)
    requires now <= later
    ensures Classify(now, c) == Expired ==> Classify(later, c) == Expired
    ensures Classify(later, c) == Scheduled ==> Classify(now, c) == Scheduled
  {
  }

  class CampaignBoard {
    var campaigns: map<Id, Campaign>
    /** The sendNotification calls this service has made, oldest first,
        including one that threw. */
    ghost var sent: seq<Notice>

    /** No campaign is stored under the falsy id, so findById of a falsy
        id finds nothing. */
    ghost predicate Valid()
      reads this
    {
      0 !in campaigns
    }

    constructor ()
      ensures Valid() && campaigns == map[] && sent == []
    {
      campaigns := map[];
      sent := [];
    }

    /** addParticipantToCampaign: 404 for a missing campaign, 404 for a
        missing user or one whose role is not donor, 400 for a donor already
        listed, the pre-save hook's error for inconsistent dates; else the
        donor goes at the end of the list, the list is saved, and the donor
        is sent `campaign_joined`, which ends the call with a 400 when the
        enum `kinds` lacks it. The admin notice after it is guarded by
        admins of an id that is never populated, so it is never sent. */
    method AddParticipant(kinds: set<string>, users: seq<User>, campaignId: Id, donorId: Id)
      returns (r: Result<Campaign>)
      requires Valid()
      modifies this
      ensures Valid()
      ensures campaignId !in old(campaigns) ==> r == Err(NotFound) && campaigns == old(campaigns) && sent == old(sent)
      ensures campaignId in old(campaigns) ==>
        var c := old(campaigns)[campaignId];
        var joined := c.(participants := c.participants + [donorId]);
        && (FindUser(users, donorId).None? || FindUser(users, donorId).value.role != Donor ==> r == Err(NotFound) && campaigns == old(campaigns) && sent == old(sent))
        && (FindUser(users, donorId).Some? && FindUser(users, donorId).value.role == Donor ==>
            && (donorId in c.participants ==> r == Err(BadRequest) && campaigns == old(campaigns) && sent == old(sent))
            && (donorId !in c.participants && !SaveAllowed(c) ==> r == Err(ServerError) && campaigns == old(campaigns) && sent == old(sent))
            && (donorId !in c.participants && SaveAllowed(c) ==>
                && campaigns == old(campaigns)[campaignId := joined]
                && sent == old(sent) + [Notice(donorId, "campaign_joined")]
                && (r.Ok? <==> "campaign_joined" in kinds)
                && (r.Ok? ==> r.value == joined)
                && (r.Err? ==> r.error == BadRequest)))
    {
      if campaignId !in campaigns {
        return Err(NotFound);
      }
      var c := campaigns[campaignId];
      var donor := FindUser(users, donorId);
      if donor.None? || donor.value.role != Donor {
        return Err(NotFound);
      }
      if donorId in c.participants {
        return Err(BadRequest);
      }
      var updated := c.(participants := c.participants + [donorId]);
      if !SaveAllowed(updated) {
        return Err(ServerError);
      }
      campaigns := campaigns[campaignId := updated];
      sent := sent + [Notice(donorId, "campaign_joined")];
      if "campaign_joined" !in kinds {
        return Err(BadRequest);
      }
      r := Ok(updated);
    }

    /** removeParticipantFromCampaign: 404 for a missing campaign or a donor
        not on its list, the pre-save hook's error for inconsistent dates;
        else the first occurrence of the donor is spliced out, the list is
        saved, and the donor is sent `campaign_removed`, which ends the call
        with a 400 when the donor exists and the enum `kinds` lacks it. */
    method RemoveParticipant(kinds: set<string>, users: seq<User>, campaignId: Id, donorId: Id)
      returns (r: Result<Campaign>)
      requires Valid()
      modifies this
      ensures Valid()
      ensures r == Err(NotFound) <==> campaignId !in old(campaigns) || donorId !in old(campaigns)[campaignId].participants
      ensures campaignId in old(campaigns) && donorId in old(campaigns)[campaignId].participants ==>
        (r == Err(ServerError) <==> !SaveAllowed(old(campaigns)[campaignId]))
      ensures r.Ok? <==>
        && campaignId in old(campaigns)
        && donorId in old(campaigns)[campaignId].participants
        && SaveAllowed(old(campaigns)[campaignId])
        && !Notifications.Rejects(kinds, users, Notice(donorId, "campaign_removed"))
      ensures r == Err(NotFound) || r == Err(ServerError) ==> campaigns == old(campaigns) && sent == old(sent)
      ensures r != Err(NotFound) && r != Err(ServerError) ==>
        var c := old(campaigns)[campaignId];
        var left := c.(participants := RemoveFirst(c.participants, donorId));
        && campaigns == old(campaigns)[campaignId := left]
        && sent == old(sent) + [Notice(donorId, "campaign_removed")]
        && (r.Ok? ==> r.value == left)
        && (r.Err? ==> r.error == BadRequest)
    {
      if campaignId !in campaigns {
        return Err(NotFound);
      }
      var c := campaigns[campaignId];
      if IndexOf(c.participants, donorId) == -1 {
        return Err(NotFound);
      }
      var updated := c.(participants := RemoveFirst(c.participants, donorId));
      if !SaveAllowed(updated) {
        return Err(ServerError);
      }
      campaigns := campaigns[campaignId := updated];
      sent := sent + [Notice(donorId, "campaign_removed")];
      if Notifications.Rejects(kinds, users, Notice(donorId, "campaign_removed")) {
        return Err(BadRequest);
      }
      r := Ok(updated);
    }

    /** checkCampaignStatus: 404 for a missing campaign, the falsy id
        among them, else its class at time `now`. */
    function CheckCampaignStatus(campaignId: Id, now: int): (r: Result<CampaignState>)
      requires Valid()
      reads this
      ensures Missing(campaignId) ==> r == Err(NotFound)
      ensures r.Err? <==> campaignId !in campaigns
      ensures r.Err? ==> r.error == NotFound
      ensures r.Ok? ==> r.value != Unknown && r.value == Classify(now, campaigns[campaignId])
    {
      if campaignId !in campaigns then Err(NotFound) else Ok(Classify(now, campaigns[campaignId]))
    }
  }

  /** Joining and then leaving a campaign gives back the original list. */
  lemma JoinThenLeaveRestores(c: Campaign, donorId: Id)
    requires donorId !in c.participants
    ensures var joined := c.(participants := c.participants + [donorId]);
      donorId in joined.participants && joined.(participants := RemoveFirst(joined.participants, donorId)) == c
  {
    PushThenRemoveFirst(c.participants, donorId);
  }

  /** As written, the schema's enum lacks both participant notices, so a
      join always ends in a 400 after the save, and so does a removal of a
      donor who exists; with the extended enum both go through. */
  lemma ParticipantNoticesAsWrittenAndCorrected(users: seq<User>, donorId: Id)
    requires FindUser(users, donorId).Some?
    ensures "campaign_joined" !in Notifications.SchemaKinds
    ensures Notifications.Rejects(Notifications.SchemaKinds, users, Notice(donorId, "campaign_removed"))
    ensures "campaign_joined" in Notifications.AcceptedKinds
    ensures !Notifications.Rejects(Notifications.AcceptedKinds, users, Notice(donorId, "campaign_removed"))
  {
  }
}
