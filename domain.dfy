/** Entities shared by the services of the blood-donation backend: ids,
    user and hospital documents, the errors the services throw, and the
    notification requests they issue. */
module Domain {

  /** A document id. The value 0 plays the part of a falsy id
      (null, undefined or the empty string). */
  type Id = nat

  /** True for an id that JavaScript would treat as falsy. */
  predicate Missing(id: Id) {
    id == 0
  }

  /** ObjectId.isValid: every id except the falsy one is well-formed. */
  predicate WellFormed(id: Id) {
    id != 0
  }

  datatype Option<T> = None | Some(value: T)

  /** The errors the services throw, each with its HTTP status; a plain
      Error without a status code ends as a 500. */
  datatype Error = BadRequest | Forbidden | NotFound | ServerError {
    function Status(): int {
      match this
      case BadRequest => 400
      case Forbidden => 403
      case NotFound => 404
      case ServerError => 500
    }
  }

  datatype Result<T> = Ok(value: T) | Err(error: Error)

  /** The eight ABO/Rh blood types of the schemas. */
  datatype BloodType = APos | ANeg | BPos | BNeg | OPos | ONeg | ABPos | ABNeg

  datatype Role = Donor | Recipient | HospitalAdmin | SystemAdmin

  /** A GeoJSON point [longitude, latitude]; the coordinates are integers
      here, where the source has double-precision numbers. */
  datatype Point = Point(lng: int, lat: int)

  /** The fields of a user document that the services read.
      A missing last-donation date is `None` (the schema default null). */
  datatype User = User(
    id: Id,
    role: Role,
    bloodType: BloodType,
    donationEligibility: bool,
    lastDonationDate: Option<int>,
    location: Point)

  datatype Hospital = Hospital(name: string, location: Point, admins: seq<Id>)

  /** One call of sendNotification issued by a service: the target user and
      the type tag. */
  datatype Notice = Notice(to: Id, kind: string)

  /** User.findById over the users collection: a falsy id finds nothing,
      otherwise the first document with that id. */
  function FindUser(users: seq<User>, id: Id): (r: Option<User>)
    ensures r.Some? <==> WellFormed(id) && exists u :: u in users && u.id == id
    ensures r.Some? ==> r.value in users && r.value.id == id
  {
    if Missing(id) || |users| == 0 then None
    else if users[0].id == id then Some(users[0])
    else FindUser(users[1..], id)
  }

  /** What the users collection guarantees of its `_id`s: none is falsy and
      no two documents share one. */
  ghost predicate UsersWellFormed(users: seq<User>) {
    && (forall i :: 0 <= i < |users| ==> WellFormed(users[i].id))
    && (forall i, j :: 0 <= i < j < |users| ==> users[i].id != users[j].id)
  }

  /** In a well-formed collection every user is found by its own id, and is
      the one found. */
  lemma {:induction false} FindUserFindsEach(users: seq<User>, u: User)
    requires UsersWellFormed(users) && u in users
    ensures FindUser(users, u.id) == Some(u)
  {
    if users[0] != u {
      assert u in users[1..];
      assert UsersWellFormed(users[1..]) by {
        forall i, j | 0 <= i < j < |users[1..]| ensures users[1..][i].id != users[1..][j].id {
          assert users[1..][i] == users[i + 1] && users[1..][j] == users[j + 1];
        }
      }
      var k :| 0 <= k < |users| && users[k] == u;
      assert users[0].id != u.id;
      FindUserFindsEach(users[1..], u);
    }
  }

  /** The hospital's first admin, if it has one: the target of every
      "notify the hospital" call. */
  function FirstAdmin(h: Hospital): (r: Option<Id>)
    ensures r.Some? <==> |h.admins| > 0
    ensures r.Some? ==> r.value == h.admins[0]
  {
    if |h.admins| > 0 then Some(h.admins[0]) else None
  }

  /** The notice for the first admin, or none when the hospital has no admin. */
  function NoticeToFirstAdmin(h: Hospital, kind: string): (r: seq<Notice>)
    ensures |r| <= 1
    ensures r == [] <==> |h.admins| == 0
    ensures r != [] ==> r[0] == Notice(h.admins[0], kind)
  {
    match FirstAdmin(h)
    case Some(a) => [Notice(a, kind)]
    case None => []
  }
}
