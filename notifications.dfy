/** The notification service: a table of notifications, each owned by one
    user, with owner-checked reads, updates and deletions. */
module Notifications {
  import opened Domain
  import opened Lists

  datatype ReadStatus = Unread | Read

  function StatusName(s: ReadStatus): string {
    match s
    case Unread => "unread"
    case Read => "read"
  }

  datatype Notification = Notification(id: Id, userId: Id, message: string, kind: string, status: ReadStatus)

  /** The `type` enum of the notification schema. */
  const SchemaKinds: set<string> := {"alert", "reminder", "campaign", "system", "request_match"}

  /** The types the request, donation, inventory and campaign services pass
      to sendNotification. */
  const ServiceKinds: set<string> := {
    "alert", "system", "info", "new_request", "potential_match",
    "request_fulfilled", "request_cancelled",
    "request_fulfilled_admin", "request_cancelled_admin",
    "request_fulfilled_donor", "request_cancelled_donor",
    "campaign_created", "campaign_joined", "campaign_removed", "campaign_updated", "new_participant"
  }

  /** The enum extended with every type the services use. */
  const AcceptedKinds: set<string> := SchemaKinds + ServiceKinds

  /** What sendNotification does for a table whose type enum is `kinds`:
      Ok(false) is the early `return null` (falsy id, unknown user), Ok(true)
      a created notification, Err(BadRequest) the schema's validation error
      for an empty message or a type outside the enum. */
  function SendOutcome(kinds: set<string>, users: seq<User>, userId: Id, message: string, kind: string)
    : (r: Result<bool>)
    ensures r == Ok(false) <==> Missing(userId) || FindUser(users, userId).None?
    ensures r.Err? ==> r.error == BadRequest
    ensures r == Ok(true) <==> WellFormed(userId) && FindUser(users, userId).Some? && message != "" && kind in kinds
  {
    if Missing(userId) || FindUser(users, userId).None? then Ok(false)
    else if message == "" || kind !in kinds then Err(BadRequest)
    else Ok(true)
  }

  /** As written, the `potential_match` notice of matchDonors to an existing
      donor fails validation, so matchDonors fails after it saved the match. */
  lemma PotentialMatchRejectedAsWritten(users: seq<User>, donorId: Id, message: string)
    requires WellFormed(donorId) && FindUser(users, donorId).Some? && message != ""
    ensures SendOutcome(SchemaKinds, users, donorId, message, "potential_match") == Err(BadRequest)
    ensures SendOutcome(SchemaKinds, users, donorId, message, "new_request") == Err(BadRequest)
    ensures SendOutcome(SchemaKinds, users, donorId, message, "info") == Err(BadRequest)
  {
  }

  /** With the extended enum every service notice to an existing user is
      stored, and every type the schema accepted is still accepted. */
  lemma ServiceKindsStored(users: seq<User>, userId: Id, message: string, kind: string)
    requires WellFormed(userId) && FindUser(users, userId).Some? && message != ""
    requires kind in ServiceKinds || kind in SchemaKinds
    ensures SendOutcome(AcceptedKinds, users, userId, message, kind) == Ok(true)
  {
  }

  /** sendNotification throws on this notice: its user exists, so a row is
      created, and its type is outside the enum. The services never pass an
      empty message, so the type alone decides. */
  predicate Rejects(kinds: set<string>, users: seq<User>, n: Notice) {
    FindUser(users, n.to).Some? && n.kind !in kinds
  }

  /** For a message that is not empty, a rejected notice is exactly one that
      sendNotification answers with a validation error. */
  lemma RejectsIsSendError(kinds: set<string>, users: seq<User>, n: Notice, message: string)
    requires message != ""
    ensures Rejects(kinds, users, n) <==> SendOutcome(kinds, users, n.to, message, n.kind).Err?
  {
  }

  /** No notice of `ns` is rejected. */
  predicate AllAccepted(kinds: set<string>, users: seq<User>, ns: seq<Notice>) {
    forall i :: 0 <= i < |ns| ==> !Rejects(kinds, users, ns[i])
  }

  /** The position of the first notice of `ns` that sendNotification
      rejects, or |ns| when there is none. */
  function FirstRejected(kinds: set<string>, users: seq<User>, ns: seq<Notice>): (k: nat)
    ensures k <= |ns|
    ensures forall i :: 0 <= i < k ==> !Rejects(kinds, users, ns[i])
    ensures k < |ns| ==> Rejects(kinds, users, ns[k])
  {
    if |ns| == 0 || Rejects(kinds, users, ns[0]) then 0
    else
      var k := 1 + FirstRejected(kinds, users, ns[1..]);
      assert forall i :: 1 <= i < |ns| ==> ns[i] == ns[1..][i - 1];
      k
  }

  /** The first rejected position is the only one before which everything
      goes through and at which the notice is rejected. */
  lemma FirstRejectedUnique(kinds: set<string>, users: seq<User>, ns: seq<Notice>, j: nat)
    requires j <= |ns|
    requires forall i :: 0 <= i < j ==> !Rejects(kinds, users, ns[i])
    requires j < |ns| ==> Rejects(kinds, users, ns[j])
    ensures FirstRejected(kinds, users, ns) == j
  {
  }

  /** The calls a service makes when it awaits sendNotification for each
      notice of `ns` in turn: all of them, or those up to and including the
      first one that throws, which ends the service call. */
  function Issued(kinds: set<string>, users: seq<User>, ns: seq<Notice>): (r: seq<Notice>)
    ensures |r| <= |ns| && r == ns[..|r|]
    ensures AllAccepted(kinds, users, ns) ==> r == ns
    ensures !AllAccepted(kinds, users, ns) ==>
      0 < |r| && Rejects(kinds, users, r[|r| - 1]) && AllAccepted(kinds, users, r[..|r| - 1])
  {
    var k := FirstRejected(kinds, users, ns);
    if k < |ns| then ns[..k + 1] else ns
  }

  /** When the notice at position k is the first rejected one, the calls
      are those up to and including it. */
  lemma IssuedUpTo(kinds: set<string>, users: seq<User>, ns: seq<Notice>, k: nat)
    requires k < |ns| && Rejects(kinds, users, ns[k])
    requires forall i :: 0 <= i < k ==> !Rejects(kinds, users, ns[i])
    ensures Issued(kinds, users, ns) == ns[..k + 1]
    ensures !AllAccepted(kinds, users, ns)
  {
    FirstRejectedUnique(kinds, users, ns, k);
  }

  /** A single notice, or none, is always issued whole: a rejected call is
      still a call. */
  lemma IssuedShort(kinds: set<string>, users: seq<User>, ns: seq<Notice>)
    requires |ns| <= 1
    ensures Issued(kinds, users, ns) == ns
  {
  }

  /** Two calls of at most one notice each: the second is made only when
      the first goes through. */
  lemma IssuedPair(kinds: set<string>, users: seq<User>, first: seq<Notice>, second: seq<Notice>)
    requires |first| <= 1 && |second| <= 1
    ensures Issued(kinds, users, first + second) ==
      if AllAccepted(kinds, users, first) then first + second else first
    ensures AllAccepted(kinds, users, first + second) <==>
      AllAccepted(kinds, users, first) && AllAccepted(kinds, users, second)
  {
    IssuedShort(kinds, users, first);
    IssuedShort(kinds, users, second);
    IssuedAppend(kinds, users, first, second);
    AllAcceptedAppend(kinds, users, first, second);
  }

  /** `a + b` goes through exactly when `a` and `b` both do. */
  lemma AllAcceptedAppend(kinds: set<string>, users: seq<User>, a: seq<Notice>, b: seq<Notice>)
    ensures AllAccepted(kinds, users, a + b) <==> AllAccepted(kinds, users, a) && AllAccepted(kinds, users, b)
  {
    var ab := a + b;
    if AllAccepted(kinds, users, ab) {
      forall i | 0 <= i < |b| ensures !Rejects(kinds, users, b[i]) {
        assert b[i] == ab[|a| + i];
      }
      forall i | 0 <= i < |a| ensures !Rejects(kinds, users, a[i]) {
        assert a[i] == ab[i];
      }
    }
  }

  /** Sending `a` and then `b`: the calls of `b` are made only when all of
      `a` went through. */
  lemma IssuedAppend(kinds: set<string>, users: seq<User>, a: seq<Notice>, b: seq<Notice>)
    ensures Issued(kinds, users, a + b) ==
      if AllAccepted(kinds, users, a) then a + Issued(kinds, users, b) else Issued(kinds, users, a)
  {
    if AllAccepted(kinds, users, a) {
      IssuedAfterAccepted(kinds, users, a, b);
    } else {
      IssuedStopsInside(kinds, users, a, b);
    }
  }

  /** A rejection inside `a` ends the calls there. */
  lemma IssuedStopsInside(kinds: set<string>, users: seq<User>, a: seq<Notice>, b: seq<Notice>)
    requires !AllAccepted(kinds, users, a)
    ensures Issued(kinds, users, a + b) == Issued(kinds, users, a)
  {
    var ab := a + b;
    var ka := FirstRejected(kinds, users, a);
    assert forall i :: 0 <= i <= ka ==> ab[i] == a[i];
    FirstRejectedUnique(kinds, users, ab, ka);
    assert ab[..ka + 1] == a[..ka + 1];
  }

  /** When all of `a` goes through, the calls of `b` follow. */
  lemma IssuedAfterAccepted(kinds: set<string>, users: seq<User>, a: seq<Notice>, b: seq<Notice>)
    requires AllAccepted(kinds, users, a)
    ensures Issued(kinds, users, a + b) == a + Issued(kinds, users, b)
  {
    var ab := a + b;
    var kb := FirstRejected(kinds, users, b);
    forall i | 0 <= i < |a| + kb ensures !Rejects(kinds, users, ab[i]) {
      if i < |a| {
        assert ab[i] == a[i];
      } else {
        assert ab[i] == b[i - |a|];
      }
    }
    if kb < |b| {
      assert ab[|a| + kb] == b[kb];
      FirstRejectedUnique(kinds, users, ab, |a| + kb);
      Lists.TakeAppend(a, b, kb + 1);
    } else {
      FirstRejectedUnique(kinds, users, ab, |ab|);
    }
  }

  /** As written, every notice of a type the services add to the enum fails
      once it goes to an existing user. */
  lemma SchemaRejectsServiceKinds(users: seq<User>, n: Notice)
    requires FindUser(users, n.to).Some? && n.kind in ServiceKinds - SchemaKinds
    ensures Rejects(SchemaKinds, users, n)
    ensures Issued(SchemaKinds, users, [n]) == [n] && !AllAccepted(SchemaKinds, users, [n])
  {
  }

  /** With the extended enum no service notice is ever rejected, so every
      call is made. */
  lemma ServiceNoticesAccepted(users: seq<User>, ns: seq<Notice>)
    requires forall i :: 0 <= i < |ns| ==> ns[i].kind in ServiceKinds
    ensures AllAccepted(AcceptedKinds, users, ns)
    ensures Issued(AcceptedKinds, users, ns) == ns
  {
  }

  /** Every id increases along the table: insertion order, which is also
      createdAt order. */
  ghost predicate Increasing(rows: seq<Notification>) {
    forall i, j :: 0 <= i < j < |rows| ==> rows[i].id < rows[j].id
  }

  ghost predicate Decreasing(rows: seq<Notification>) {
    forall i, j :: 0 <= i < j < |rows| ==> rows[i].id > rows[j].id
  }

  /** find({userId, status}).sort({createdAt: -1}): the user's rows whose
      status reads `status`, newest first. */
  function NewestFirst(rows: seq<Notification>, userId: Id, status: string): (r: seq<Notification>)
    ensures forall n :: n in r <==> n in rows && n.userId == userId && StatusName(n.status) == status
    ensures |r| <= |rows|
  {
    if |rows| == 0 then []
    else
      var last := rows[|rows| - 1];
      var init := rows[..|rows| - 1];
      assert rows == init + [last];
      (if last.userId == userId && StatusName(last.status) == status then [last] else [])
      + NewestFirst(init, userId, status)
  }

  /** On a table in insertion order the listing is newest first. */
  lemma {:induction false} NewestFirstOrdered(rows: seq<Notification>, userId: Id, status: string)
    requires Increasing(rows)
    ensures Decreasing(NewestFirst(rows, userId, status))
  {
    if |rows| > 0 {
      var last := rows[|rows| - 1];
      var init := rows[..|rows| - 1];
      NewestFirstOrdered(init, userId, status);
      var rest := NewestFirst(init, userId, status);
      forall n | n in rest ensures n.id < last.id {
        var k :| 0 <= k < |init| && init[k] == n;
        assert rows[k] == n;
      }
    }
  }

  /** A status filter that is neither "unread" nor "read" (such as "all")
      lists nothing. */
  lemma NoStatusListsNothing(rows: seq<Notification>, userId: Id, status: string)
    requires status != "unread" && status != "read"
    ensures NewestFirst(rows, userId, status) == []
  {
  }

  /** updateMany({_id: {$in: ids}, userId}, {status: 'read'}): every listed
      row of the user becomes read, every other row and field stays. */
  function SetRead(rows: seq<Notification>, ids: set<Id>, userId: Id): (r: seq<Notification>)
    ensures |r| == |rows|
    ensures forall i :: 0 <= i < |rows| ==>
      && r[i].id == rows[i].id && r[i].userId == rows[i].userId
      && r[i].message == rows[i].message && r[i].kind == rows[i].kind
    ensures forall i :: 0 <= i < |rows| ==>
      r[i].status == (if rows[i].id in ids && rows[i].userId == userId then Read else rows[i].status)
  {
    if |rows| == 0 then []
    else
      var n := rows[0];
      [if n.id in ids && n.userId == userId then n.(status := Read) else n] + SetRead(rows[1..], ids, userId)
  }

  /** Marking as read twice is marking as read once. */
  lemma SetReadIdempotent(rows: seq<Notification>, ids: set<Id>, userId: Id)
    ensures SetRead(SetRead(rows, ids, userId), ids, userId) == SetRead(rows, ids, userId)
  {
  }

  /** A fresh unread notification heads its owner's unread listing, ahead
      of everything listed before. */
  lemma {:induction false} SentIsListedFirst(rows: seq<Notification>, n: Notification)
    requires n.status == Unread
    ensures var listed := NewestFirst(rows + [n], n.userId, "unread");
      |listed| == |NewestFirst(rows, n.userId, "unread")| + 1 && listed[0] == n
  {
    assert (rows + [n])[..|rows|] == rows;
  }

  /** After the listed notifications are marked read, none of them is left
      in the owner's unread listing. */
  lemma ReadLeavesUnreadListing(rows: seq<Notification>, ids: set<Id>, userId: Id)
    ensures forall m :: m in NewestFirst(SetRead(rows, ids, userId), userId, "unread") ==> m.id !in ids
  {
    var marked := SetRead(rows, ids, userId);
    forall m | m in NewestFirst(marked, userId, "unread") ensures m.id !in ids {
      var i :| 0 <= i < |marked| && marked[i] == m;
      assert m.status == Unread;
    }
  }

  /** The rows updateMany({_id: {$in: ids}, userId}) matches. The schema's
      timestamps option adds `updatedAt` to that update, so every matched
      row is written and modifiedCount is this count. */
  function CountOwned(rows: seq<Notification>, ids: set<Id>, userId: Id): (c: nat)
    ensures c <= |rows|
  {
    if |rows| == 0 then 0
    else
      (if rows[0].id in ids && rows[0].userId == userId then 1 else 0)
      + CountOwned(rows[1..], ids, userId)
  }

  /** Only the listed rows the user owns are counted: the count is zero
      exactly when the user owns none of them. */
  lemma {:induction false} CountOwnedZero(rows: seq<Notification>, ids: set<Id>, userId: Id)
    ensures CountOwned(rows, ids, userId) == 0 <==>
              forall i :: 0 <= i < |rows| ==> !(rows[i].id in ids && rows[i].userId == userId)
  {
    if |rows| > 0 {
      CountOwnedZero(rows[1..], ids, userId);
      assert forall i :: 1 <= i < |rows| ==> rows[i] == rows[1..][i - 1];
    }
  }

  /** As written, a bulk mark repeated with the same ids reports the same
      count again: the already-read rows are matched and re-stamped. */
  lemma {:induction false} RepeatCountsAgain(rows: seq<Notification>, ids: set<Id>, userId: Id)
    ensures CountOwned(SetRead(rows, ids, userId), ids, userId) == CountOwned(rows, ids, userId)
  {
    if |rows| > 0 {
      RepeatCountsAgain(rows[1..], ids, userId);
      assert SetRead(rows, ids, userId)[1..] == SetRead(rows[1..], ids, userId);
    }
  }

  /** The count the comment of markNotificationsAsReadBulk expects (rows
      "already read" are not counted) never exceeds the count as written,
      and the two agree exactly when no listed row of the user is read. */
  lemma {:induction false} UnreadCountedAmongOwned(rows: seq<Notification>, ids: set<Id>, userId: Id)
    ensures CountUnreadOwned(rows, ids, userId) <= CountOwned(rows, ids, userId)
    ensures CountUnreadOwned(rows, ids, userId) == CountOwned(rows, ids, userId) <==>
              forall i :: 0 <= i < |rows| && rows[i].id in ids && rows[i].userId == userId ==> rows[i].status == Unread
  {
    if |rows| > 0 {
      UnreadCountedAmongOwned(rows[1..], ids, userId);
      assert forall i :: 1 <= i < |rows| ==> rows[i] == rows[1..][i - 1];
    }
  }

  /** As written, a read notification of user 7 listed by id 5 is counted
      once and again after a repeat, although nothing about it but the
      timestamp changes; the count the comment expects is 0. */
  lemma ReadRowCountedAsWritten()
    ensures var rows := [Notification(5, 7, "stock low", "alert", Read)];
      && CountOwned(rows, {5}, 7) == 1
      && CountOwned(SetRead(rows, {5}, 7), {5}, 7) == 1
      && CountUnreadOwned(rows, {5}, 7) == 0
      && Modified(rows, SetRead(rows, {5}, 7)) == 0
  {
    var rows := [Notification(5, 7, "stock low", "alert", Read)];
    assert SetRead(rows, {5}, 7) == rows;
  }

  /** The count the comment expects: the listed rows of the user that were
      still unread. */
  function CountUnreadOwned(rows: seq<Notification>, ids: set<Id>, userId: Id): (c: nat)
    ensures c <= |rows|
  {
    if |rows| == 0 then 0
    else
      (if rows[0].id in ids && rows[0].userId == userId && rows[0].status == Unread then 1 else 0)
      + CountUnreadOwned(rows[1..], ids, userId)
  }

  /** The number of positions at which two tables of equal length differ. */
  function Modified(before: seq<Notification>, after: seq<Notification>): (c: nat)
    requires |before| == |after|
    ensures c <= |before|
    ensures c == 0 <==> before == after
  {
    if |before| == 0 then 0
    else
      var c := (if before[0] != after[0] then 1 else 0) + Modified(before[1..], after[1..]);
      assert before == [before[0]] + before[1..] && after == [after[0]] + after[1..];
      c
  }

  /** Without the timestamps option, modifiedCount is the number of rows
      whose status updateMany changes: a listed row of the user that is
      already read stays as it is. */
  lemma {:induction false} CountIsModified(rows: seq<Notification>, ids: set<Id>, userId: Id)
    ensures CountUnreadOwned(rows, ids, userId) == Modified(rows, SetRead(rows, ids, userId))
  {
    if |rows| > 0 {
      var marked := SetRead(rows, ids, userId);
      assert marked[1..] == SetRead(rows[1..], ids, userId);
      CountIsModified(rows[1..], ids, userId);
    }
  }

  /** Without the timestamps option, a second bulk mark with the same ids
      modifies nothing. */
  lemma {:induction false} NothingLeftToMark(rows: seq<Notification>, ids: set<Id>, userId: Id)
    ensures CountUnreadOwned(SetRead(rows, ids, userId), ids, userId) == 0
  {
    if |rows| > 0 {
      NothingLeftToMark(rows[1..], ids, userId);
      assert SetRead(rows, ids, userId)[1..] == SetRead(rows[1..], ids, userId);
    }
  }

  /** The rows deleteMany({_id: {$in: ids}, userId}) leaves, in order. */
  function Without(rows: seq<Notification>, ids: set<Id>, userId: Id): (r: seq<Notification>)
    ensures forall n :: n in r <==> n in rows && !(n.id in ids && n.userId == userId)
    ensures |r| <= |rows|
  {
    if |rows| == 0 then []
    else
      assert rows == [rows[0]] + rows[1..];
      (if rows[0].id in ids && rows[0].userId == userId then [] else [rows[0]]) + Without(rows[1..], ids, userId)
  }

  /** The rows after the first of an increasing table are increasing, and
      each has a larger id than the first. */
  lemma IncreasingTail(rows: seq<Notification>)
    requires Increasing(rows) && |rows| > 0
    ensures Increasing(rows[1..])
    ensures forall n :: n in rows[1..] ==> rows[0].id < n.id
  {
    forall n | n in rows[1..] ensures rows[0].id < n.id {
      var k :| 0 <= k < |rows[1..]| && rows[1..][k] == n;
      assert rows[k + 1] == n;
    }
  }

  /** Deleting keeps the remaining rows in insertion order. */
  lemma {:induction false} WithoutIncreasing(rows: seq<Notification>, ids: set<Id>, userId: Id)
    requires Increasing(rows)
    ensures Increasing(Without(rows, ids, userId))
  {
    if |rows| > 0 {
      IncreasingTail(rows);
      WithoutIncreasing(rows[1..], ids, userId);
    }
  }

  /** With unique ids a single-id delete removes at most one row. */
  lemma {:induction false} SingleDeleteAtMostOne(rows: seq<Notification>, id: Id, userId: Id)
    requires Increasing(rows)
    ensures |rows| - |Without(rows, {id}, userId)| <= 1
    ensures (exists n :: n in rows && n.id == id && n.userId == userId) <==> |Without(rows, {id}, userId)| < |rows|
  {
    WithoutShrinks(rows, {id}, userId);
    if |rows| > 0 {
      var tail := rows[1..];
      IncreasingTail(rows);
      SingleDeleteAtMostOne(tail, id, userId);
      if rows[0].id == id && rows[0].userId == userId {
        WithoutEverything(tail, {id}, userId);
      }
    }
  }

  /** A delete removes something exactly when some row of the user has a
      listed id. */
  lemma {:induction false} WithoutShrinks(rows: seq<Notification>, ids: set<Id>, userId: Id)
    ensures (exists n :: n in rows && n.id in ids && n.userId == userId) <==> |Without(rows, ids, userId)| < |rows|
  {
    if |rows| > 0 {
      var tail := rows[1..];
      WithoutShrinks(tail, ids, userId);
      assert rows == [rows[0]] + tail;
      if !(rows[0].id in ids && rows[0].userId == userId) {
        assert forall n :: n in rows && n != rows[0] ==> n in tail;
      }
    }
  }

  /** A delete that matches no row leaves the table as it is. */
  lemma {:induction false} WithoutEverything(rows: seq<Notification>, ids: set<Id>, userId: Id)
    requires forall n :: n in rows ==> !(n.id in ids && n.userId == userId)
    ensures Without(rows, ids, userId) == rows
  {
    if |rows| > 0 {
      WithoutEverything(rows[1..], ids, userId);
      assert rows == [rows[0]] + rows[1..];
    }
  }

  /** The position of the user's notification with this id, or -1. */
  function IndexOfOwned(rows: seq<Notification>, id: Id, userId: Id): (r: int)
    ensures r == -1 <==> forall n :: n in rows ==> !(n.id == id && n.userId == userId)
    ensures r != -1 ==> 0 <= r < |rows| && rows[r].id == id && rows[r].userId == userId
  {
    if |rows| == 0 then -1
    else if rows[0].id == id && rows[0].userId == userId then 0
    else
      assert rows == [rows[0]] + rows[1..];
      var k := IndexOfOwned(rows[1..], id, userId);
      if k == -1 then -1 else k + 1
  }

  class NotificationTable {
    var rows: seq<Notification>
    var nextId: nat

    ghost predicate Valid()
      reads this
    {
      && 0 < nextId
      && Increasing(rows)
      && forall i :: 0 <= i < |rows| ==> 0 < rows[i].id < nextId
    }

    constructor ()
      ensures Valid() && rows == []
    {
      rows := [];
      nextId := 1;
    }

    /** sendNotification, store part, for a schema whose type enum is
        `kinds` (`SchemaKinds` as written): None for a falsy or unknown user,
        a validation error for an empty message or a type outside the enum,
        else one new unread row at the end of the table. */
    method Send(kinds: set<string>, users: seq<User>, userId: Id, message: string, kind: string := "alert")
      returns (r: Result<Option<Notification>>)
      requires Valid()
      modifies this
      ensures Valid()
      ensures var o := SendOutcome(kinds, users, userId, message, kind);
        && (o == Ok(false) ==> r == Ok(None))
        && (o.Err? ==> r == Err(o.error))
        && (o == Ok(true) ==> r.Ok? && r.value.Some?)
      ensures r.Ok? && r.value.Some? ==>
        && r.value.value == Notification(r.value.value.id, userId, message, kind, Unread)
        && (forall n :: n in old(rows) ==> n.id < r.value.value.id)
        && rows == old(rows) + [r.value.value]
      ensures !(r.Ok? && r.value.Some?) ==> rows == old(rows)
    {
      var o := SendOutcome(kinds, users, userId, message, kind);
      if o.Err? {
        return Err(o.error);
      }
      if !o.value {
        return Ok(None);
      }
      var n := Notification(nextId, userId, message, kind, Unread);
      rows := rows + [n];
      nextId := nextId + 1;
      r := Ok(Some(n));
    }

    /** getNotificationsForUser: 400 for a falsy user id. */
    function GetNotificationsForUser(userId: Id, status: string := "unread"): (r: Result<seq<Notification>>)
      reads this
      ensures r.Err? <==> Missing(userId)
      ensures r.Err? ==> r.error == BadRequest
      ensures r.Ok? ==> r.value == NewestFirst(rows, userId, status)
    {
      if Missing(userId) then Err(BadRequest) else Ok(NewestFirst(rows, userId, status))
    }

    /** markNotificationAsRead: 400 for a falsy id, 404 when the user owns no
        notification with that id, else that one row becomes read. */
    method MarkRead(notificationId: Id, userId: Id) returns (r: Result<Notification>)
      requires Valid()
      modifies this
      ensures Valid() && nextId == old(nextId)
      ensures Missing(notificationId) || Missing(userId) ==> r == Err(BadRequest)
      ensures WellFormed(notificationId) && WellFormed(userId) ==>
        (r == Err(NotFound) <==> forall n :: n in old(rows) ==> !(n.id == notificationId && n.userId == userId))
      ensures r.Ok? <==> WellFormed(notificationId) && WellFormed(userId)
                         && exists n :: n in old(rows) && n.id == notificationId && n.userId == userId
      ensures r.Err? ==> rows == old(rows)
      ensures r.Ok? ==>
        && rows == SetRead(old(rows), {notificationId}, userId)
        && r.value in rows
        && r.value.id == notificationId && r.value.userId == userId && r.value.status == Read
    {
      if Missing(notificationId) || Missing(userId) {
        return Err(BadRequest);
      }
      var i := IndexOfOwned(rows, notificationId, userId);
      if i == -1 {
        return Err(NotFound);
      }
      rows := SetRead(rows, {notificationId}, userId);
      r := Ok(rows[i]);
    }

    /** markNotificationsAsReadBulk: 400 for an empty list or a falsy user,
        else the listed rows of the user become read. `timestamps` says
        whether the schema stamps `updatedAt` on updates (it does, at
        src/models/Notification.js:27): then the count is every listed row
        the user owns, otherwise how many of them were unread. */
    method MarkReadBulk(ids: seq<Id>, userId: Id, timestamps: bool) returns (r: Result<nat>)
      requires Valid()
      modifies this
      ensures Valid() && nextId == old(nextId)
      ensures r.Err? <==> |ids| == 0 || Missing(userId)
      ensures r.Err? ==> r.error == BadRequest && rows == old(rows)
      ensures r.Ok? ==>
        && rows == SetRead(old(rows), Elements(ids), userId)
        && r.value == if timestamps then CountOwned(old(rows), Elements(ids), userId)
                      else CountUnreadOwned(old(rows), Elements(ids), userId)
    {
      if |ids| == 0 || Missing(userId) {
        return Err(BadRequest);
      }
      var listed := Elements(ids);
      r := Ok(if timestamps then CountOwned(rows, listed, userId) else CountUnreadOwned(rows, listed, userId));
      rows := SetRead(rows, listed, userId);
    }

    /** deleteNotification: 400 for a falsy id, 404 when nothing was
        deleted, else the one owned row is gone. */
    method Delete(notificationId: Id, userId: Id) returns (r: Result<nat>)
      requires Valid()
      modifies this
      ensures Valid() && nextId == old(nextId)
      ensures Missing(notificationId) || Missing(userId) ==> r == Err(BadRequest)
      ensures WellFormed(notificationId) && WellFormed(userId) ==>
        (r == Err(NotFound) <==> forall n :: n in old(rows) ==> !(n.id == notificationId && n.userId == userId))
      ensures r.Ok? <==> WellFormed(notificationId) && WellFormed(userId)
                         && exists n :: n in old(rows) && n.id == notificationId && n.userId == userId
      ensures r.Err? ==> rows == old(rows)
      ensures r.Ok? ==> r.value == 1 && rows == Without(old(rows), {notificationId}, userId)
    {
      if Missing(notificationId) || Missing(userId) {
        return Err(BadRequest);
      }
      var remaining := Without(rows, {notificationId}, userId);
      SingleDeleteAtMostOne(rows, notificationId, userId);
      WithoutIncreasing(rows, {notificationId}, userId);
      if |remaining| == |rows| {
        return Err(NotFound);
      }
      r := Ok(|rows| - |remaining|);
      rows := remaining;
    }

    /** deleteNotificationsBulk: 400 for an empty list or a falsy user, else
        the listed rows of the user are gone; deleting none is no error. */
    method DeleteBulk(ids: seq<Id>, userId: Id) returns (r: Result<nat>)
      requires Valid()
      modifies this
      ensures Valid() && nextId == old(nextId)
      ensures r.Err? <==> |ids| == 0 || Missing(userId)
      ensures r.Err? ==> r.error == BadRequest && rows == old(rows)
      ensures r.Ok? ==>
        && rows == Without(old(rows), Elements(ids), userId)
        && r.value == |old(rows)| - |rows|
    {
      if |ids| == 0 || Missing(userId) {
        return Err(BadRequest);
      }
      var listed := Elements(ids);
      var remaining := Without(rows, listed, userId);
      WithoutIncreasing(rows, listed, userId);
      r := Ok(|rows| - |remaining|);
      rows := remaining;
    }
  }
}
