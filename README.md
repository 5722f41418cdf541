# LifeLink services in Dafny

A model of the decision logic of the LifeLink blood-donation backend: the six
service modules under `src/services/` that match donors to blood requests, keep
the blood inventory, move donations through their status order, store and
update notifications, maintain a hospital's admin list and a campaign's
participant list, and classify a campaign by date.

Each collection of the database is a value the model passes around or a field
of a class over it:

- users are a `seq<User>` in collection order, which `.limit(20)` depends on;
- hospitals are a `map<Id, Hospital>`;
- requests, donations and campaigns are maps from id to record, fields of the
  classes `RequestBoard`, `DonationBook` and `CampaignBoard`;
- the inventory is a map from `(hospitalId, bloodType)` to `(quantity, expiry)`,
  the field of `InventoryLedger`;
- notifications are a sequence of rows in insertion order, the field of
  `NotificationTable`.

Every call a service makes to `sendNotification` is appended, as
`Notice(to, kind)`, to the ghost log `sent` of that service's class, including
a call that throws. The notification type enum is a parameter `kinds` of
`NotificationTable.Send` and of every service method whose notice types are
not all in the schema's enum: `Notifications.SchemaKinds` is the enum as
written, `Notifications.AcceptedKinds` the enum extended with every type the
services send. A notice is rejected when its user exists and its type is
outside `kinds`; the service call then ends with a 400 after its save, and
the calls after the rejected one are not made (`Notifications.Issued`).
`scheduleDonation` and `cancelDonation` send only `system` and `alert`, which
both enums contain, and `InventoryLedger` only `alert`, so those take no
`kinds`. In the same way `NotificationTable.MarkReadBulk` takes `timestamps`,
whether the schema stamps `updatedAt` on updates (it does, which makes the
bulk count include rows already read). Ids are
natural numbers, with 0 standing for a falsy id. Dates are integer millisecond
timestamps. The error a service throws is an `Error` whose `Status()` is the
HTTP status it ends as.

Modules, one per file:

| file | module | models |
|---|---|---|
| domain.dfy | `Domain` | ids, users, hospitals, errors, `User.findById`, first-admin notices |
| lists.dfy | `Lists` | `indexOf`, `push`, `splice(i, 1)` on id lists |
| matching.dfy | `Matching` | the donor query, `.limit(20)`, the distance sort, the top five |
| requests.dfy | `Requests` | `requestService.js` |
| inventory.dfy | `Inventory` | `inventoryService.js` |
| donations.dfy | `Donations` | `donationService.js` |
| notifications.dfy | `Notifications` | `notificationService.js` and the notification schema's type enum |
| hospitals.dfy | `Hospitals` | `hospitalService.js` |
| campaigns.dfy | `Campaigns` | `campaignService.js` |

## Model

| member | source | states |
|---|---|---|
| `Domain.FindUser` | src/services/requestService.js:8-11 | nothing is found for a falsy id; otherwise a user is found exactly when one with that id is in the collection, and the one found has that id |
| `Domain.FindUserFindsEach` | src/services/requestService.js:8-11 | on a collection with well-formed, unique ids every user is found by its own id |
| `Domain.NoticeToFirstAdmin` | src/services/requestService.js:26-32 | at most one notice; none exactly when the hospital has no admin; otherwise it goes to `admins[0]` |
| `Lists.IndexOf` | src/services/hospitalService.js:161-164 | -1 exactly when the id is absent; otherwise the position of its first occurrence |
| `Lists.RemoveAt` | src/services/hospitalService.js:166 | `splice(i, 1)` drops exactly the element at `i`, keeps the order of the rest, and removes one copy from the multiset |
| `Lists.RemoveFirst` | src/services/campaignService.js:133-138 | removes exactly the first occurrence of the element and keeps everything else in order |
| `Lists.PushThenRemoveFirst` | src/services/hospitalService.js:138-166 | pushing an absent id and then splicing out its first occurrence gives back the original list |
| `Lists.ElementsCount` | src/services/hospitalService.js:29-30 | a list has at most as many distinct ids as entries, and exactly as many iff no id repeats |
| `Matching.SearchCriteria` | src/services/requestService.js:78-104 | the query keeps the request's blood type and the hospital's location; the radius is 100 km for critical urgency and 50 km otherwise; the cutoff is now minus 56 days |
| `Matching.CutoffIgnoresUrgency` | src/services/requestService.js:98-104 | the recency cutoff is the same for every urgency (the 28-day relaxation is commented out); no urgency has a wider radius than critical |
| `Matching.QuerySingle` | src/services/requestService.js:107 | on one user the query returns that user exactly when it is selected |
| `Matching.QueryKeepsOrder` | src/services/requestService.js:107 | the query distributes over concatenation, so it keeps the selected users in the collection's order |
| `Matching.Query` | src/services/requestService.js:82-95 | a user is returned iff they are in the collection with the request's blood type, a true eligibility flag, a non-null last donation date at or before the cutoff, and a location within the radius; the result is a sub-multiset of the collection |
| `Matching.Candidates` | src/services/requestService.js:107-109 | the first `min(20, n)` users of the query result, in query order |
| `Matching.SqDist` | src/services/requestService.js:120-127 | the squared planar distance is never negative |
| `Matching.RootsOrderAsSquares` | src/services/requestService.js:120-127 | for the non-negative square roots the source compares, `da <= db` iff the squared distances compare the same way, and ties coincide, so ranking by `SqDist` is ranking by distance |
| `Matching.SortByDistance` | src/services/requestService.js:116-129 | sorts the array in place: afterwards non-decreasing in distance to the hospital and a permutation of what it held |
| `Matching.Insert` | src/services/requestService.js:116-129 | one pass of the sort turns a ranked prefix of length i into one of length i + 1 and keeps the array's elements |
| `Matching.RankByDistance` | src/services/requestService.js:116-129 | the ranked candidates are a permutation of the candidates, non-decreasing in distance |
| `Matching.PrefixIsNearest` | src/services/requestService.js:131 | the first k of a ranking are a ranked sub-multiset of the candidates, and every candidate past them is at least as far as each of them |
| `Matching.CandidatesSelected` | src/services/requestService.js:82-109 | everything drawn from the candidates is a selected user of the collection |
| `Matching.Shortlist` | src/services/requestService.js:107-131 | at most five donors, exactly `min(5, candidates)`, drawn from the first twenty selected users, ranked by distance, and no candidate left out is nearer than a donor kept |
| `Requests.ParseStatus` | src/services/requestService.js:171-174 | exactly pending, matched, fulfilled and cancelled are accepted |
| `Requests.DonorIds` | src/services/requestService.js:134 | the ids of the matched donors, in ranked order |
| `Requests.NoticesTo` | src/services/requestService.js:139-145 | exactly one notice per listed id, in list order, and no other |
| `Requests.MayMatchOnlyListedAdmins` | src/services/requestService.js:55-61 | matching is allowed exactly to the listed admins of an existing hospital; a missing hospital refuses everyone and an unlisted recipient is refused |
| `Requests.AfterMatch` | src/services/requestService.js:133-136 | `matchedDonorIds` are the donors' ids in ranked order; the status is matched iff some donor was matched, else pending, whatever it was before; no other field changes |
| `Requests.StatusChange` | src/services/requestService.js:164-174 | 403 iff the hospital is missing or the user is neither one of its admins nor the recipient; otherwise 400 iff the value is not one of the four statuses; otherwise that status |
| `Requests.StatusChangeIgnoresCurrent` | src/services/requestService.js:170-176 | the decision does not depend on the current status: there is no transition order |
| `Requests.FulfilledCanReturnToPending` | src/services/requestService.js:171-176 | a fulfilled request can be set back to pending by its recipient |
| `Requests.StatusNotices` | src/services/requestService.js:179-200 | on fulfilled or cancelled: the recipient first, then `admins[0]` if any, then each matched donor in order, with the service's type tags; no notice for pending or matched |
| `Requests.NewRequestRejectedAsWritten` | src/services/requestService.js:26-32 | with the schema's enum the new_request notice to an existing first admin is rejected |
| `Requests.MatchRejectedAsWritten` | src/services/requestService.js:139-145 | with the schema's enum and at least one matched donor, the loop makes exactly one call, the potential_match to the nearest donor, and stops there |
| `Requests.StatusNoticesRejectedAsWritten` | src/services/requestService.js:179-200 | with the schema's enum a fulfilled or cancelled request of an existing recipient makes exactly one call, to the recipient, and stops there |
| `Requests.AcceptedEnumTakesRequestNotices` | src/models/Notification.js:13-17 | with the extended enum no notice of createRequest, matchDonors or updateRequestStatus is rejected |
| `Requests.View` | src/services/requestService.js:205-226 | with recipient as the default role: 400 for a role other than recipient, hospital_admin or donor; otherwise exactly the requests of the recipient, of the hospitals the user administers, or that list the user among the matched donors |
| `Requests.MatchedDonorSeesRequest` | src/services/requestService.js:214-216 | a donor kept by matchDonors finds the request among their own |
| `Requests.RequestBoard.CreateRequest` | src/services/requestService.js:7-35 | 404 iff the recipient or the hospital is missing, with nothing changed; otherwise one new pending request with no matched donors is saved, a new_request notice to `admins[0]` is issued if there is one, and the call succeeds with the new id iff that notice is accepted, else a 400 with the request kept |
| `Requests.RequestBoard.MatchDonors` | src/services/requestService.js:49-155 | 404 for a missing request; 403 when the hospital is missing or the user is not on its admin list, even for a system admin, with nothing changed; otherwise the shortlist properties above, the request updated by `AfterMatch` and nothing else, the potential_match calls `Issued` in order, and success iff none is rejected, else a 400 with the match kept; no donor found is a success |
| `Requests.RequestBoard.RecordMatch` | src/services/requestService.js:133-146 | the match is saved, then one potential_match call per donor until one is rejected; success iff none is |
| `Requests.RequestBoard.UpdateRequestStatus` | src/services/requestService.js:158-203 | 404 for a missing request, then the errors of `StatusChange`, with nothing changed; otherwise only the status is overwritten, the calls of `StatusNotices` are `Issued` in order, and success iff none is rejected, else a 400 with the status kept |
| `Requests.RequestBoard.RecordStatus` | src/services/requestService.js:176-200 | the status is saved, then the status-change calls until one is rejected; success iff none is |
| `Requests.RequestBoard.NotifyStatusChange` | src/services/requestService.js:179-200 | the log grows by exactly the issued prefix of `StatusNotices`; true iff all of them are accepted |
| `Requests.RequestBoard.NotifyEach` | src/services/requestService.js:187-189 | the loop makes one call per id, in order, up to and including the first rejected one; true iff none is rejected |
| `Inventory.LowStockAlert` | src/services/inventoryService.js:66-78 | an alert to `admins[0]` iff the quantity left is strictly between 0 and 2000 and the hospital has an admin; otherwise none |
| `Inventory.Upsert` | src/services/inventoryService.js:47-57 | the record under the key holds exactly the given values and no other record changes |
| `Inventory.UpsertIdempotent` | src/services/inventoryService.js:47-57 | repeating updateInventory's upsert with the same values leaves the same table |
| `Inventory.AddUnits` | src/services/inventoryService.js:107-127 | an existing record grows by exactly the amount and keeps the later expiry; a missing one is created with the amount and expiry; no other record changes |
| `Inventory.TakeUnits` | src/services/inventoryService.js:162-167 | the quantity drops by exactly the amount, the expiry stays, the record stays even at 0, no other record changes |
| `Inventory.ExpiredKeys` | src/services/inventoryService.js:200-203 | exactly this hospital's records whose expiry is strictly before now |
| `Inventory.Purge` | src/services/inventoryService.js:210-213 | exactly the expired records go; other hospitals' records and unexpired ones stay unchanged |
| `Inventory.PurgeIdempotent` | src/services/inventoryService.js:198-213 | a second run with the same clock finds nothing and changes nothing |
| `Inventory.AddThenTake` | src/services/inventoryService.js:109-162 | adding and then removing the same amount restores the quantity; a record created by the add stays with quantity 0 |
| `Inventory.InventoryLedger.GetHospitalInventory` | src/services/inventoryService.js:12-20 | 404 iff the hospital is missing; otherwise exactly that hospital's records |
| `Inventory.InventoryLedger.UpdateInventory` | src/services/inventoryService.js:33-83 | 404 for a missing hospital, 400 for a negative quantity or an invalid expiry, with nothing changed; otherwise `Upsert` of exactly the given values, and the low-stock rule runs |
| `Inventory.InventoryLedger.AddBloodUnits` | src/services/inventoryService.js:94-132 | 404 for a missing hospital, 400 for a non-positive amount or an invalid expiry; otherwise `AddUnits`; never an alert |
| `Inventory.InventoryLedger.RemoveBloodUnits` | src/services/inventoryService.js:142-184 | 404 for a missing hospital, 400 for a non-positive amount, 404 for a missing record, 400 for insufficient stock, with nothing changed; otherwise `TakeUnits` and the low-stock rule on what is left |
| `Inventory.InventoryLedger.ManageExpiredBlood` | src/services/inventoryService.js:192-229 | 404 for a missing hospital; otherwise the table becomes `Purge` and the count is the number of expired records |
| `Donations.ParseStatus` | src/services/donationService.js:127-130 | exactly scheduled, in_progress, completed and cancelled are accepted |
| `Donations.StatusIndex` | src/services/donationService.js:137-139 | the position in the order scheduled < in_progress < completed < cancelled |
| `Donations.AuthorizedByRoleOnlyForOthers` | src/services/donationService.js:69-75 | the donor and a listed admin of the donation's hospital pass whatever their role, the admin list being read without a role check; anyone else passes exactly as a system admin, also when the hospital is missing (the same check guards updateDonationStatus at lines 120-125) |
| `Donations.CancelCheck` | src/services/donationService.js:77-81 | 400 iff the donation is already completed or cancelled; otherwise it becomes cancelled |
| `Donations.StatusUpdate` | src/services/donationService.js:127-145 | 400 for an unknown status; the current status again means no change; 400 for an earlier status; a later status is accepted, so the index never decreases |
| `Donations.CompletedMayBeCancelledOnlyByUpdate` | src/services/donationService.js:137-145 | completed to cancelled is accepted by the status update and refused by cancelDonation |
| `Donations.InfoNoticesAsWrittenAndCorrected` | src/services/donationService.js:150-170 | with the schema's enum a status change of an existing donor makes one call, the info notice to the donor, and stops; with the extended enum both notices are accepted |
| `Donations.NoticeIfUser` | src/services/donationService.js:86-93 | a notice to the user exactly when the user exists |
| `Donations.NoticeToAdmin` | src/services/donationService.js:95-106 | a notice to `admins[0]` exactly when the hospital exists, has an admin, and that admin's user exists |
| `Donations.DonationBook.ScheduleDonation` | src/services/donationService.js:7-48 | 404 for a missing donor, then for a missing hospital, 403 for an ineligible donor, with nothing changed; otherwise one new scheduled donation and a system notice to an existing first admin |
| `Donations.DonationBook.CancelDonation` | src/services/donationService.js:61-109 | 404 for a missing donation; 403 unless `Authorized`; then `CancelCheck`; on success only the status changes, and alert notices go to the donor and the first admin when they exist |
| `Donations.DonationBook.UpdateDonationStatus` | src/services/donationService.js:112-173 | 404, then 403 unless `Authorized`, then `StatusUpdate`, with nothing changed; the current status returns the donation unchanged with no notice; a later status is stored, the info notices to the donor and the first admin are `Issued` in order, and the call succeeds iff none is rejected, else a 400 with the status kept |
| `Donations.DonationBook.Announce` | src/services/donationService.js:150-170 | two calls of at most one notice each: the log grows by their issued prefix; true iff neither is rejected |
| `Notifications.SendOutcome` | src/services/notificationService.js:16-35 | null for a falsy or unknown user; a validation error for an empty message or a type outside the enum; otherwise a stored notification |
| `Notifications.PotentialMatchRejectedAsWritten` | src/models/Notification.js:13-17 | with the schema's enum, a potential_match, new_request or info notice to an existing user fails validation |
| `Notifications.ServiceKindsStored` | src/models/Notification.js:15 | with the extended enum, every type the services send, and every type the schema allowed, is stored |
| `Notifications.RejectsIsSendError` | src/services/notificationService.js:16-35 | for a non-empty message, a notice is rejected exactly when sendNotification answers it with a validation error |
| `Notifications.Issued` | src/services/requestService.js:139-145 | the calls made when each notice is awaited in turn: a prefix of the notices, all of them when none is rejected, else ending at the first rejected one with none rejected before it |
| `Notifications.AllAcceptedAppend` | src/services/requestService.js:179-189 | a concatenation goes through exactly when both parts do |
| `Notifications.IssuedAppend` | src/services/requestService.js:179-189 | sending one batch after another: the second batch is called only when all of the first went through |
| `Notifications.SchemaRejectsServiceKinds` | src/models/Notification.js:15 | with the schema's enum, every service type outside it is rejected when it goes to an existing user, and that one call is still made |
| `Notifications.ServiceNoticesAccepted` | src/models/Notification.js:13-17 | with the extended enum no batch of service notices is rejected, so every call is made |
| `Notifications.NewestFirst` | src/services/notificationService.js:53 | exactly the user's notifications whose status reads as the filter |
| `Notifications.NewestFirstOrdered` | src/services/notificationService.js:53 | on a table in insertion order the listing is newest first |
| `Notifications.NoStatusListsNothing` | src/controllers/notificationController.js:45-49 | a filter other than unread or read, such as the controller's default all, lists nothing |
| `Notifications.SentIsListedFirst` | src/services/notificationService.js:30-53 | a newly created unread notification is first in its owner's unread listing, one more than before |
| `Notifications.ReadLeavesUnreadListing` | src/services/notificationService.js:53-105 | after the ids are marked read, none of them is in the owner's unread listing |
| `Notifications.SetRead` | src/services/notificationService.js:90-93 | exactly the listed notifications of the user become read; every other row and every other field stays |
| `Notifications.SetReadIdempotent` | src/services/notificationService.js:62-66 | marking as read twice is marking as read once |
| `Notifications.CountOwned` | src/services/notificationService.js:90-105 | modifiedCount as written: the listed rows the user owns, all of which the timestamped update writes; at most the number of rows |
| `Notifications.CountOwnedZero` | src/services/notificationService.js:90-105 | the count as written is zero exactly when the user owns none of the listed rows |
| `Notifications.RepeatCountsAgain` | src/services/notificationService.js:90-105 | as written, repeating a bulk mark with the same ids reports the same count again |
| `Notifications.ReadRowCountedAsWritten` | src/services/notificationService.js:90-105 | an already-read row of user 7 listed as 5 counts 1 as written, on the first call and on a repeat, although its status does not change; the count the comment expects is 0 |
| `Notifications.UnreadCountedAmongOwned` | src/services/notificationService.js:97-103 | the count the comment expects is at most the count as written, and equal to it iff no listed row of the user is already read |
| `Notifications.CountUnreadOwned` | src/services/notificationService.js:97-103 | the count the comment expects, the listed unread rows of the user; at most the number of rows |
| `Notifications.Modified` | src/services/notificationService.js:103-105 | the number of rows two tables differ in: zero exactly when they are equal |
| `Notifications.CountIsModified` | src/services/notificationService.js:90-105 | without the timestamps option, modifiedCount is exactly the number of rows `SetRead` changes, so listed rows of the user that are already read are not counted |
| `Notifications.NothingLeftToMark` | src/services/notificationService.js:90-105 | without the timestamps option, a second bulk mark with the same ids modifies nothing |
| `Notifications.Without` | src/services/notificationService.js:142 | exactly the listed notifications of the user go; the rest stay |
| `Notifications.WithoutIncreasing` | src/services/notificationService.js:119 | deleting keeps the remaining rows in insertion order |
| `Notifications.WithoutEverything` | src/services/notificationService.js:144-148 | a delete that matches nothing leaves the table as it is |
| `Notifications.WithoutShrinks` | src/services/notificationService.js:142-148 | a delete removes something exactly when some row of the user has a listed id |
| `Notifications.SingleDeleteAtMostOne` | src/services/notificationService.js:119-123 | a single delete removes at most one row, and one exactly when the user owns a notification with that id |
| `Notifications.IndexOfOwned` | src/services/notificationService.js:62-70 | -1 exactly when the user owns no notification with that id; otherwise its position |
| `Notifications.NotificationTable.Send` | src/services/notificationService.js:16-47 | for the type enum `kinds`: null and no row for a falsy or unknown user; 400 and no row for an empty message or a type outside `kinds`; otherwise exactly one new unread row with the given user, message and type (default alert), after all others |
| `Notifications.NotificationTable.GetNotificationsForUser` | src/services/notificationService.js:49-55 | 400 iff the user id is falsy; otherwise `NewestFirst` of the table, with unread as the default filter |
| `Notifications.NotificationTable.MarkRead` | src/services/notificationService.js:57-72 | 400 for a falsy id; 404 iff the user owns no notification with that id; success exactly when both ids are well formed and the user owns one; then exactly that row becomes read and is returned |
| `Notifications.NotificationTable.MarkReadBulk` | src/services/notificationService.js:82-106 | 400 iff the list is empty or the user id falsy; otherwise `SetRead` on the listed ids, returning with `timestamps` (the schema as written) every listed row the user owns, and without it how many of them were unread |
| `Notifications.NotificationTable.Delete` | src/services/notificationService.js:114-126 | 400 for a falsy id; 404 iff the user owns no notification with that id; success exactly when both ids are well formed and the user owns one; then exactly that row goes and the count is 1 |
| `Notifications.NotificationTable.DeleteBulk` | src/services/notificationService.js:134-149 | 400 iff the list is empty or the user id falsy; otherwise exactly the listed rows of the user go and the count says how many; zero is not an error |
| `Hospitals.FoundAdmins` | src/services/hospitalService.js:29 | the listed ids that belong to a hospital admin user, each found once |
| `Hospitals.CheckAdmins` | src/services/hospitalService.js:22-35 | an empty list is not checked; any failure is a 400 |
| `Hospitals.CheckAdminsExactly` | src/services/hospitalService.js:73-85 | a non-empty list passes iff every id is well formed, names an existing hospital admin, and occurs once |
| `Hospitals.HospitalRegistry.RegisterHospital` | src/services/hospitalService.js:6-39 | 400 iff the admin check fails; otherwise one new hospital with the given fields |
| `Hospitals.HospitalRegistry.UpdateHospital` | src/services/hospitalService.js:54-97 | 400 for a malformed id, then for a failing admin check; 404 for a missing hospital; success exactly when the id is well formed, a given admin list passes the check and the hospital exists; then the given fields replace the stored ones and the rest stay |
| `Hospitals.HospitalRegistry.AddAdmin` | src/services/hospitalService.js:116-146 | 400 for a malformed id, 404 for a missing user, 400 for a user who is not a hospital admin, 404 for a missing hospital, 400 for a listed admin, with nothing changed; otherwise the id is appended and earlier entries stay |
| `Hospitals.HospitalRegistry.RemoveAdmin` | src/services/hospitalService.js:148-170 | 400 for a malformed id; 404 iff the hospital is missing or the admin is not listed; success exactly when both ids are well formed and the admin is listed; then only the first occurrence is removed and the order of the rest kept |
| `Hospitals.AddThenRemoveRestores` | src/services/hospitalService.js:142-166 | adding a new admin and then removing it gives back the original hospitals |
| `Campaigns.SaveHookIgnoresParticipants` | src/models/Campaign.js:59-64 | the pre-save hook looks only at the dates: changing the participants never changes whether a save succeeds; equal dates pass, a start after the end fails |
| `Campaigns.Classify` | src/services/campaignService.js:162-177 | expired whenever now is past the end date; else scheduled before the start date; else the stored active, completed or cancelled, and active for any other value; never unknown |
| `Campaigns.StoredStatusInWindow` | src/models/Campaign.js:43-47 | within its dates a campaign with a status the schema allows is reported completed or active, never cancelled |
| `Campaigns.ClassifyOverTime` | src/services/campaignService.js:165-168 | once expired always expired; scheduled at a later time means scheduled at every earlier time |
| `Campaigns.ParticipantNoticesAsWrittenAndCorrected` | src/services/campaignService.js:102-107 | with the schema's enum campaign_joined is always rejected and campaign_removed is rejected for an existing donor; with the extended enum both are accepted |
| `Campaigns.CampaignBoard.AddParticipant` | src/services/campaignService.js:84-124 | 404 for a missing campaign, 404 for a missing user or one who is not a donor, 400 for a listed donor, 500 when the pre-save hook refuses the dates, with nothing changed; otherwise the donor is appended and saved, one campaign_joined call is made, and the call succeeds iff `kinds` holds that type, else a 400 with the donor kept; no new_participant notice is ever sent |
| `Campaigns.CampaignBoard.RemoveParticipant` | src/services/campaignService.js:127-150 | 404 iff the campaign is missing or the donor is not listed; 500 when the pre-save hook refuses the dates, with nothing changed; otherwise the first occurrence is removed and saved and one campaign_removed call is made; success exactly when the donor was listed, the dates pass and that notice is not rejected, else a 400 with the removal kept |
| `Campaigns.CampaignBoard.CheckCampaignStatus` | src/services/campaignService.js:152-180 | 404 iff the campaign is missing, always for the falsy id, which the board's `Valid()` keeps out of the store; otherwise `Classify` at the given time, never unknown |
| `Campaigns.JoinThenLeaveRestores` | src/services/campaignService.js:99-138 | joining and then leaving gives back the original campaign |

## Left out

- Socket.IO delivery in sendNotification and the chat service: delivery to a connected client is outside the store.
- The text of notification messages: only the target and the type tag of each notice are recorded; the services never pass an empty message, so a notice is rejected only for its type.
- The spherical `$geoWithin`/`$centerSphere` test and the radius in radians: "within km of centre" is the parameter `within` of the matching functions.
- Matching.SqDist: coordinates are integers here while the source stores and computes with floating-point doubles; rounding, NaN and the square root itself are not modelled, only that the root orders as its square (`Matching.RootsOrderAsSquares`).
- Geocoding of addresses (an HTTP call): `RegisterHospital` and `UpdateHospital` take an already resolved location, and the 400 for an address that cannot be geocoded is not modelled.
- Analytics aggregation, authentication, JWT handling and password hashing, the Joi schemas, controllers and routes.
- Campaign creation and update, with their campaign_created and campaign_updated notices (src/services/campaignService.js:8-38 and 51-82): outside the modelled operations; the update also passes the participant array as a single user id.
- Fractional, NaN and infinite numbers: quantities and amounts are integers, so `typeof ... !== 'number'` reduces to the sign checks, and an invalid expiry date is `None`.
- Casting of malformed but truthy ids (Mongoose CastError, a 404 via the error handler): every id in the model is either well formed or falsy.
- The second 500 of updateInventory (an upsert returning nothing): with `new: true, upsert: true` a record is always returned.
- Persistence details: `populate`, `select`, timestamps (`lastUpdated`, `createdAt`, `updatedAt`) and the `{success, deletedCount}` wrappers of the results. No row carries an `updatedAt`; the one place it shows in a result, the count of a bulk mark, is the `timestamps` parameter of `MarkReadBulk`.
- Notifications.NotificationTable.MarkReadBulk: with `timestamps` the count is every listed row the user owns because each one is re-stamped; the case of a clock that has not advanced since a row's last write, where a matched read row would be left as it is and not counted, is not modelled.
- The daylight-saving effect of `setDate(getDate() - 56)`: the cutoff is exactly 56 times 86 400 000 ms before now.
- Matching.SortByDistance: `Array.prototype.sort` is stable and the insertion sort is too, but stability is not stated; only sortedness and permutation are. The comparator's branch for a donor without coordinates is not modelled, because the query only returns donors with coordinates.
- Requests.RequestBoard.MatchDonors: a concurrent change to the request between the read and the save is not modelled; every operation is one sequential step.
- Hospitals.FoundAdmins: the found count is the number of distinct matching ids, which equals the source's document count because `_id` is unique in the users collection.
- getRequestDetails, getDonationDetails, getHospitalDetails and deleteHospital: plain lookups and deletions outside the modelled operations.
- Inventory.AlertScenario: a check of one concrete run of the ledger's contracts, not a model of a source operation, so it has no row above.

## Findings

| source | as written | input that shows it | evidently intended | confidence | as-written member | corrected member |
|---|---|---|---|---|---|---|
| src/services/requestService.js:139-145 | the potential_match type is outside the schema's enum (src/models/Notification.js:15), so Notification.create rejects it and matchDonors ends with a 400 after it saved the match, having made one call | matchDonors on a request whose hospital admin triggers it, with one eligible donor within 50 km | every type the services send is accepted (the comment "Changed notification type" at line 143 shows the tag was renamed on purpose) | high, not executed | `Requests.MatchRejectedAsWritten` | `Requests.AcceptedEnumTakesRequestNotices` |
| src/services/requestService.js:26-32 | new_request is outside the enum, so createRequest ends with a 400 after it created the request | createRequest for a hospital whose first admin is an existing user | the request is created and the admin told | high, not executed | `Requests.NewRequestRejectedAsWritten` | `Requests.AcceptedEnumTakesRequestNotices` |
| src/services/requestService.js:179-200 | the request_fulfilled and request_cancelled tags are outside the enum, so updateRequestStatus ends with a 400 after saving the status, having made only the call to the recipient, which is rejected, so no notification is stored | updateRequestStatus to fulfilled for a request of an existing recipient | the recipient, the first admin and every matched donor are told | high, not executed | `Requests.StatusNoticesRejectedAsWritten` | `Notifications.ServiceNoticesAccepted` |
| src/services/donationService.js:150-170 | info is outside the enum, so updateDonationStatus ends with a 400 after saving the status, having made only the call to the donor, which is rejected, so no notification is stored | updateDonationStatus from scheduled to completed for a donation of an existing donor | the donor and the first admin are told | high, not executed | `Donations.InfoNoticesAsWrittenAndCorrected` | `Notifications.ServiceNoticesAccepted` |
| src/services/notificationService.js:90-105 | the schema's timestamps option (src/models/Notification.js:27) adds `updatedAt` to the updateMany, so every matched row is written and modifiedCount counts listed rows that were already read | markNotificationsAsReadBulk([5], 7) where user 7 owns notification 5, already read: the count is 1, and 1 again on a repeat | rows already read are not counted, as the comment at lines 100-103 says (a filter on `status: 'unread'` or `timestamps: false` gives that) | medium, not executed | `Notifications.ReadRowCountedAsWritten` | `Notifications.CountIsModified` |
| src/services/campaignService.js:100-107 | campaign_joined and campaign_removed are outside the enum, so addParticipantToCampaign and removeParticipantFromCampaign end with a 400 after saving the participant list | addParticipantToCampaign for an existing donor not yet listed, in a campaign with consistent dates | the donor is told and the call succeeds | high, not executed | `Campaigns.ParticipantNoticesAsWrittenAndCorrected` | `Notifications.ServiceKindsStored` |
