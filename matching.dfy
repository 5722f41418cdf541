/** The donor-matching rules of the request service: the donor query
    (blood type, eligibility flag, a 56-day recency cutoff, a search radius
    that depends on urgency), the first 20 documents the query returns, the
    in-place sort by planar distance to the hospital, and the top 5. */
module Matching {
  import opened Domain

  const MsPerDay: int := 86_400_000
  /** The standard donation interval; the relaxed 28-day interval for
      critical requests is commented out in the service. */
  const DonationIntervalDays: int := 56
  /** Query limit before ranking. */
  const CandidateLimit: nat := 20
  /** Number of donors kept after ranking. */
  const MatchLimit: nat := 5

  datatype Urgency = Low | Medium | High | Critical

  /** What the donor query is built from for one request. */
  datatype Criteria = Criteria(bloodType: BloodType, cutoff: int, center: Point, radiusKm: nat)

  /** The query of a request with this urgency, issued at time `now`. */
  function SearchCriteria(bloodType: BloodType, urgency: Urgency, center: Point, now: int): (c: Criteria)
    ensures c.bloodType == bloodType && c.center == center
    ensures c.radiusKm == if urgency == Critical then 100 else 50
    ensures c.cutoff == now - DonationIntervalDays * MsPerDay
  {
    var radius := if urgency == Critical then 100 else 50;
    Criteria(bloodType, now - DonationIntervalDays * MsPerDay, center, radius)
  }

  /** Urgency widens the radius and leaves the recency cutoff alone. */
  lemma CutoffIgnoresUrgency(bt: BloodType, u: Urgency, v: Urgency, center: Point, now: int)
    ensures SearchCriteria(bt, u, center, now).cutoff == SearchCriteria(bt, v, center, now).cutoff
    ensures SearchCriteria(bt, u, center, now).radiusKm <= SearchCriteria(bt, Critical, center, now).radiusKm
  {
  }

  /** The non-spatial part of the donor query. `lastDonationDate <= cutoff`
      never selects a document whose date is null. */
  predicate Eligible(u: User, c: Criteria) {
    && u.bloodType == c.bloodType
    && u.donationEligibility
    && u.lastDonationDate.Some?
    && u.lastDonationDate.value <= c.cutoff
  }

  /** A user the whole query selects; `within(p, center, km)` stands for the
      spherical "within km of center" test of the store. */
  predicate Selected(u: User, c: Criteria, within: (Point, Point, nat) -> bool) {
    Eligible(u, c) && within(u.location, c.center, c.radiusKm)
  }

  /** User.find(query): the selected users, in the collection's order. */
  function Query(users: seq<User>, c: Criteria, within: (Point, Point, nat) -> bool): (r: seq<User>)
    ensures forall u :: u in r <==> u in users && Selected(u, c, within)
    ensures multiset(r) <= multiset(users)
    ensures |r| <= |users|
  {
    if |users| == 0 then []
    else
      assert users == [users[0]] + users[1..];
      (if Selected(users[0], c, within) then [users[0]] else []) + Query(users[1..], c, within)
  }

  /** On one user the query keeps that user exactly when it is selected. */
  lemma QuerySingle(u: User, c: Criteria, within: (Point, Point, nat) -> bool)
    ensures Query([u], c, within) == if Selected(u, c, within) then [u] else []
  {
    assert [u][1..] == [];
    assert Query([u][1..], c, within) == [];
  }

  /** With QuerySingle: the query is a filter that keeps the collection's
      order, since it distributes over concatenation. */
  lemma {:induction false} QueryKeepsOrder(a: seq<User>, b: seq<User>, c: Criteria, within: (Point, Point, nat) -> bool)
    ensures Query(a + b, c, within) == Query(a, c, within) + Query(b, c, within)
  {
    if |a| == 0 {
      assert a + b == b;
    } else {
      var head := if Selected(a[0], c, within) then [a[0]] else [];
      assert (a + b)[0] == a[0] && (a + b)[1..] == a[1..] + b;
      QueryKeepsOrder(a[1..], b, c, within);
      calc {
        Query(a + b, c, within);
        head + Query(a[1..] + b, c, within);
        head + (Query(a[1..], c, within) + Query(b, c, within));
        (head + Query(a[1..], c, within)) + Query(b, c, within);
      }
    }
  }

  /** .limit(20) on the query. */
  function Candidates(users: seq<User>, c: Criteria, within: (Point, Point, nat) -> bool): (r: seq<User>)
    ensures |r| <= CandidateLimit
    ensures |r| == if |Query(users, c, within)| < CandidateLimit then |Query(users, c, within)| else CandidateLimit
    ensures r == Query(users, c, within)[..|r|]
  {
    var q := Query(users, c, within);
    if |q| < CandidateLimit then q else q[..CandidateLimit]
  }

  /** Squared planar distance between two points; RootsOrderAsSquares shows
      it orders points as the square root of the sum of squares does. */
  function SqDist(p: Point, q: Point): (d: int)
    ensures d >= 0
  {
    (p.lng - q.lng) * (p.lng - q.lng) + (p.lat - q.lat) * (p.lat - q.lat)
  }

  /** Multiplying a non-negative real by itself keeps a strict order. */
  lemma SquareStrictlyMonotone(x: real, y: real)
    requires 0.0 <= x < y
    ensures x * x < y * y
  {
    calc {
      x * x;
    <= { assert x * (y - x) >= 0.0; }
      x * y;
    < { assert (y - x) * y > 0.0; }
      y * y;
    }
  }

  /** The source ranks by the distance itself, the non-negative root of the
      sum of squares; `da` and `db` are those roots for `a` and `b`. They are
      in the same order as the squared distances the model compares. */
  lemma RootsOrderAsSquares(a: Point, b: Point, center: Point, da: real, db: real)
    requires 0.0 <= da && da * da == SqDist(a, center) as real
    requires 0.0 <= db && db * db == SqDist(b, center) as real
    ensures da <= db <==> SqDist(a, center) <= SqDist(b, center)
    ensures da == db <==> SqDist(a, center) == SqDist(b, center)
  {
    if da < db {
      SquareStrictlyMonotone(da, db);
    } else if db < da {
      SquareStrictlyMonotone(db, da);
    }
  }

  function Key(u: User, center: Point): int {
    SqDist(u.location, center)
  }

  /** Non-decreasing in distance to `center`. */
  ghost predicate Ranked(s: seq<User>, center: Point) {
    forall i, j :: 0 <= i < j < |s| ==> Key(s[i], center) <= Key(s[j], center)
  }

  /** The first n elements are non-decreasing in distance. */
  ghost predicate RankedUpTo(s: seq<User>, n: int, center: Point) {
    forall p, q :: 0 <= p < q < n && q < |s| ==> Key(s[p], center) <= Key(s[q], center)
  }

  /** Mid-pass state of Insert: s[..i+1] is ranked apart from slot j, and
      the element in slot j is nearer than everything after it up to i. */
  ghost predicate Sifting(s: seq<User>, i: int, j: int, center: Point)
    requires 0 <= j <= i < |s|
  {
    && (forall p, q :: 0 <= p < q <= i && p != j && q != j ==> Key(s[p], center) <= Key(s[q], center))
    && (forall q :: j < q <= i ==> Key(s[j], center) < Key(s[q], center))
  }

  /** The in-place sort with the comparator distA - distB. */
  method SortByDistance(a: array<User>, center: Point)
    modifies a
    ensures Ranked(a[..], center)
    ensures multiset(a[..]) == multiset(old(a[..]))
  {
    if a.Length == 0 {
      return;
    }
    var i := 1;
    while i < a.Length
      invariant 1 <= i <= a.Length
      invariant RankedUpTo(a[..], i, center)
      invariant multiset(a[..]) == multiset(old(a[..]))
    {
      Insert(a, i, center);
      i := i + 1;
    }
  }

  /** One pass of the sort: a[i] moves left past every farther element, so
      a ranked prefix of length i becomes one of length i + 1. */
  method Insert(a: array<User>, i: int, center: Point)
    requires 0 < i < a.Length
    requires RankedUpTo(a[..], i, center)
    modifies a
    ensures RankedUpTo(a[..], i + 1, center)
    ensures multiset(a[..]) == multiset(old(a[..]))
  {
    var j := i;
    while j > 0 && Key(a[j - 1], center) > Key(a[j], center)
      invariant 0 <= j <= i
      invariant Sifting(a[..], i, j, center)
      invariant multiset(a[..]) == multiset(old(a[..]))
    {
      ghost var before := a[..];
      a[j - 1], a[j] := a[j], a[j - 1];
      SwapStep(before, a[..], i, j, center);
      j := j - 1;
    }
    SiftDone(a[..], i, j, center);
  }

  /** Swapping slot j with a farther left neighbour keeps the mid-pass
      state, one slot further left, and the elements. */
  lemma SwapStep(s: seq<User>, s': seq<User>, i: int, j: int, center: Point)
    requires 0 < j <= i < |s| && Sifting(s, i, j, center)
    requires Key(s[j - 1], center) > Key(s[j], center)
    requires s' == s[j - 1 := s[j]][j := s[j - 1]]
    ensures Sifting(s', i, j - 1, center)
    ensures multiset(s') == multiset(s)
  {
  }

  /** A pass stops when slot j's left neighbour is no farther, or at the
      front: then the first i + 1 are ranked. */
  lemma SiftDone(s: seq<User>, i: int, j: int, center: Point)
    requires 0 <= j <= i < |s| && Sifting(s, i, j, center)
    requires j == 0 || Key(s[j - 1], center) <= Key(s[j], center)
    ensures RankedUpTo(s, i + 1, center)
  {
  }

  /** The ranking of the candidate list: a copy sorted in place. */
  method RankByDistance(cands: seq<User>, center: Point) returns (ranked: seq<User>)
    ensures multiset(ranked) == multiset(cands)
    ensures |ranked| == |cands|
    ensures Ranked(ranked, center)
  {
    var a := new User[|cands|](i requires 0 <= i < |cands| => cands[i]);
    assert a[..] == cands;
    SortByDistance(a, center);
    ranked := a[..];
    assert |multiset(ranked)| == |multiset(cands)|;
  }

  /** The first k of a ranking of `cands` are a ranked sub-multiset of
      `cands`, and every element past them is at least as far as each. */
  lemma {:induction false} PrefixIsNearest(cands: seq<User>, ranked: seq<User>, k: nat, center: Point)
    requires multiset(ranked) == multiset(cands) && Ranked(ranked, center) && k <= |ranked|
    ensures multiset(ranked[..k]) <= multiset(cands)
    ensures Ranked(ranked[..k], center)
    ensures forall i, u :: 0 <= i < k && u in multiset(cands) - multiset(ranked[..k])
              ==> Key(ranked[i], center) <= Key(u, center)
  {
    var rest := ranked[k..];
    assert ranked == ranked[..k] + rest;
    assert multiset(ranked) == multiset(ranked[..k]) + multiset(rest);
    forall i, u | 0 <= i < k && u in multiset(cands) - multiset(ranked[..k])
      ensures Key(ranked[i], center) <= Key(u, center)
    {
      assert u in multiset(rest);
      var j :| 0 <= j < |rest| && rest[j] == u;
      assert ranked[k + j] == u;
    }
  }

  /** Every element of a sub-multiset of the candidates was selected. */
  lemma CandidatesSelected(users: seq<User>, c: Criteria, within: (Point, Point, nat) -> bool, s: seq<User>)
    requires multiset(s) <= multiset(Candidates(users, c, within))
    ensures forall u :: u in s ==> u in users && Selected(u, c, within)
  {
    var cands := Candidates(users, c, within);
    forall u | u in s ensures u in users && Selected(u, c, within) {
      assert u in multiset(cands);
      assert u in Query(users, c, within);
    }
  }

  /** What matchDonors keeps: the nearest (at most) five of the first
      twenty selected users, in order of distance; every candidate left out
      is at least as far as every donor kept. */
  ghost predicate IsShortlist(users: seq<User>, c: Criteria, within: (Point, Point, nat) -> bool, m: seq<User>) {
    var cands := Candidates(users, c, within);
    && |m| == (if |cands| < MatchLimit then |cands| else MatchLimit)
    && multiset(m) <= multiset(cands)
    && (forall u :: u in m ==> u in users && Selected(u, c, within))
    && Ranked(m, c.center)
    && (forall i, u :: 0 <= i < |m| && u in multiset(cands) - multiset(m) ==> Key(m[i], c.center) <= Key(u, c.center))
  }

  /** potentialDonors.slice(0, 5) after the sort: a shortlist. */
  method Shortlist(users: seq<User>, c: Criteria, within: (Point, Point, nat) -> bool)
    returns (matched: seq<User>)
    ensures var n := |Candidates(users, c, within)|;
      |matched| == if n < MatchLimit then n else MatchLimit
    ensures multiset(matched) <= multiset(Candidates(users, c, within))
    ensures forall u :: u in matched ==> u in users && Selected(u, c, within)
    ensures Ranked(matched, c.center)
    ensures forall i, u :: 0 <= i < |matched| && u in multiset(Candidates(users, c, within)) - multiset(matched)
              ==> Key(matched[i], c.center) <= Key(u, c.center)
  {
    var cands := Candidates(users, c, within);
    var ranked := RankByDistance(cands, c.center);
    var k := if |ranked| < MatchLimit then |ranked| else MatchLimit;
    matched := ranked[..k];
    PrefixIsNearest(cands, ranked, k, c.center);
    CandidatesSelected(users, c, within, matched);
  }
}
