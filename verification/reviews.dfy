/** The review controller: one review per (user, event), written by an upsert after a
    bounds check on the rating, and read back with an average and a count. */
module ReviewController {
  import opened Common
  import opened Tables
  import opened Ordering
  import opened Auth

  const ID_REQUIRED: string := "ID de evento requerido"
  const NOT_AUTHENTICATED: string := "No autenticado"
  const RATING_OUT_OF_RANGE: string := "Rating debe ser entre 1 y 5"
  const USER_NOT_FOUND: string := "Usuario no encontrado"
  const CREATE_FAILED: string := "Error al crear review"
  const LIST_FAILED: string := "Error al obtener reviews"

  /** The JSON body `{ rating, comment }`; a field the client left out is `None`. */
  datatype ReviewBody = ReviewBody(rating: Option<real>, comment: Option<string>)

  datatype Stats = Stats(average: real, count: nat)

  /** The answer of `GET /reviews/:eventId`. */
  datatype EventReviews = EventReviews(reviews: seq<Review>, stats: Stats)

  // ----- the write path -----

  /** `rating < 1 || rating > 5`. An absent rating compares false both ways and is let
      through; a fractional one inside the bounds is let through too. */
  predicate RatingRejected(rating: Option<real>)
    ensures rating.None? ==> !RatingRejected(rating)
    ensures rating.Some? ==> (RatingRejected(rating) <==> !(1.0 <= rating.value <= 5.0))
  {
    rating.Some? && (rating.value < 1.0 || rating.value > 5.0)
  }

  /** The bounds check accepts exactly the ratings in [1, 5], whole or not. */
  lemma RatingBoundsOnly(x: real)
    ensures !RatingRejected(Some(x)) <==> 1.0 <= x <= 5.0
    ensures !RatingRejected(Some(2.5))
    ensures RatingRejected(Some(0.0)) && RatingRejected(Some(6.0))
    ensures !RatingRejected(None)
  {
  }

  /** The `upsert` keyed by (userId, eventId): an existing row gets the new rating and
      comment and keeps its creation time; a missing row is created. The rating is a
      required column and the database checks the `create` argument of every upsert, so
      a submission without a rating is refused (throws) whether or not the row exists. */
  function SubmitReview(t: ReviewTable, key: PairKey, rating: Option<real>, comment: Option<string>, now: int)
    : (r: Option<ReviewTable>)
    ensures r.None? <==> rating.None?
    ensures r.Some? ==> r.value.Keys == t.Keys + {key}
    ensures r.Some? ==> forall k :: k in t && k != key ==> r.value[k] == t[k]
    ensures r.Some? ==> r.value[key].rating == rating.value && r.value[key].comment == comment
    ensures r.Some? && key in t ==> r.value[key].createdAt == t[key].createdAt
    ensures r.Some? && key !in t ==> r.value[key].createdAt == now
  {
    if rating.None? then None
    else if key in t then
      Some(t[key := t[key].(rating := rating.value, comment := comment)])
    else
      Some(t[key := Review(key.userId, key.eventId, rating.value, comment, now)])
  }

  /** A submission that passed the bounds check, by a stored user about a stored event,
      keeps every review resolvable and every rating in [1, 5]. */
  lemma SubmitKeepsKeyed(users: UserTable, events: EventTable, t: ReviewTable, key: PairKey,
                         rating: Option<real>, comment: Option<string>, now: int)
    requires ReviewsKeyed(users, events, t)
    requires key.userId in UserIds(users) && key.eventId in events && !RatingRejected(rating)
    requires SubmitReview(t, key, rating, comment, now).Some?
    ensures ReviewsKeyed(users, events, SubmitReview(t, key, rating, comment, now).value)
  {
  }

  /** Submitting twice for the same pair leaves one review, holding the second rating and
      comment and the first creation time; every other review is untouched. */
  lemma ResubmitReplaces(t: ReviewTable, key: PairKey, x1: real, c1: Option<string>, n1: int,
                         x2: real, c2: Option<string>, n2: int)
    requires RowsMatchKeys(t, ReviewPair)
    ensures SubmitReview(t, key, Some(x1), c1, n1).Some?
    ensures
      var t1 := SubmitReview(t, key, Some(x1), c1, n1).value;
      && SubmitReview(t1, key, Some(x2), c2, n2).Some?
      && var t2 := SubmitReview(t1, key, Some(x2), c2, n2).value;
      && RowsFor(t2, ReviewPair, key.userId, key.eventId) == {key}
      && t2[key].rating == x2 && t2[key].comment == c2 && t2[key].createdAt == t1[key].createdAt
      && t2.Keys == t.Keys + {key}
      && forall k :: k in t && k != key ==> t2[k] == t[k]
  {
    var t1 := SubmitReview(t, key, Some(x1), c1, n1).value;
    var t2 := SubmitReview(t1, key, Some(x2), c2, n2).value;
    assert RowsMatchKeys(t2, ReviewPair) by {
      forall k | k in t2 ensures ReviewPair(t2[k]) == k {
        if k != key {
          assert t2[k] == t[k];
        }
      }
    }
  }

  // ----- the read path -----

  /** `where: { eventId }`. */
  function OfEvent(eventId: string): Review -> bool {
    (v: Review) => v.eventId == eventId
  }

  /** `orderBy: { createdAt: 'desc' }`. */
  function LatestFirst(): Review -> int {
    (v: Review) => -v.createdAt
  }

  /** The sum of the ratings; with every rating in [1, 5], it lies between n and 5n. */
  function TotalRating(rs: seq<Review>): (t: real)
    ensures (forall v :: v in rs ==> 1.0 <= v.rating <= 5.0) ==>
      |rs| as real <= t <= 5.0 * (|rs| as real)
  {
    if rs == [] then 0.0
    else
      assert forall v :: v in rs[1..] ==> v in rs;
      rs[0].rating + TotalRating(rs[1..])
  }

  /** The mean rating, 0 for no reviews (the `|| 0` fallback for a null `_avg`): a value
      that, taken once per review, adds up to the total. */
  function Mean(rs: seq<Review>): (m: real)
    ensures rs == [] ==> m == 0.0
    ensures rs != [] ==> m * (|rs| as real) == TotalRating(rs)
  {
    if |rs| == 0 then 0.0 else TotalRating(rs) / (|rs| as real)
  }

  /** `review.findMany({ where: { eventId }, orderBy: { createdAt: 'desc' } })`. */
  ghost function ReviewsOf(reviews: ReviewTable, eventId: string): (rs: seq<Review>)
    ensures forall v :: v in rs <==> v in reviews.Values && v.eventId == eventId
    ensures |rs| == |set k | k in reviews && reviews[k].eventId == eventId|
    ensures forall i, j :: 0 <= i < j < |rs| ==> rs[i].createdAt >= rs[j].createdAt
  {
    var rs := FindMany(reviews, OfEvent(eventId), LatestFirst());
    assert KeysWhere(reviews, OfEvent(eventId)) == set k | k in reviews && reviews[k].eventId == eventId;
    forall i, j | 0 <= i < j < |rs| ensures rs[i].createdAt >= rs[j].createdAt {
      assert LatestFirst()(rs[i]) <= LatestFirst()(rs[j]);
    }
    rs
  }

  /** `review.aggregate({ where: { eventId }, _avg: { rating }, _count })`, a query of its
      own over the same rows. */
  ghost function Aggregate(reviews: ReviewTable, eventId: string): (s: Stats)
    ensures s.count == |set k | k in reviews && reviews[k].eventId == eventId|
    ensures s.count == 0 ==> s.average == 0.0
  {
    var rows := Select(reviews, OfEvent(eventId));
    assert KeysWhere(reviews, OfEvent(eventId)) == set k | k in reviews && reviews[k].eventId == eventId;
    Stats(Mean(rows), |rows|)
  }

  /** Inserting a row into a sorted list adds its rating to the total. */
  lemma {:induction false} TotalInsert(x: Review, s: seq<Review>, key: Review -> int)
    requires SortedBy(s, key)
    ensures TotalRating(InsertBy(x, s, key)) == x.rating + TotalRating(s)
    decreases |s|
  {
    var r := InsertBy(x, s, key);
    if s == [] || key(x) <= key(s[0]) {
      assert r[1..] == s;
    } else {
      TotalInsert(x, s[1..], key);
      assert r[1..] == InsertBy(x, s[1..], key);
    }
  }

  /** Putting the rows in `orderBy` order does not change their total. */
  lemma {:induction false} TotalSorted(s: seq<Review>, key: Review -> int)
    ensures TotalRating(SortBy(s, key)) == TotalRating(s)
    decreases |s|
  {
    if s != [] {
      TotalSorted(s[1..], key);
      TotalInsert(s[0], SortBy(s[1..], key), key);
    }
  }

  /** The statistics describe exactly the listed reviews: `count` is their number and
      `average` their mean, although the two come from separate queries. */
  lemma StatsDescribeListing(reviews: ReviewTable, eventId: string)
    ensures Aggregate(reviews, eventId).count == |ReviewsOf(reviews, eventId)|
    ensures Aggregate(reviews, eventId).average == Mean(ReviewsOf(reviews, eventId))
  {
    var rows := Select(reviews, OfEvent(eventId));
    var listed := SortBy(rows, LatestFirst());
    assert ReviewsOf(reviews, eventId) == listed;
    TotalSorted(rows, LatestFirst());
  }

  /** With every rating in [1, 5], a non-empty mean is in [1, 5] too. */
  lemma MeanBounds(rs: seq<Review>)
    requires forall v :: v in rs ==> 1.0 <= v.rating <= 5.0
    requires rs != []
    ensures 1.0 <= Mean(rs) <= 5.0
  {
    QuotientBounds(TotalRating(rs), |rs| as real);
  }

  lemma QuotientBounds(t: real, n: real)
    requires 0.0 < n && n <= t <= 5.0 * n
    ensures 1.0 <= t / n <= 5.0
  {
    QuotientAtMost(t, n, 5.0);
    QuotientAtLeast(t, n, 1.0);
  }

  lemma QuotientAtMost(t: real, n: real, c: real)
    requires 0.0 < n && t <= c * n
    ensures t / n <= c
  {
    var q := t / n;
    assert q * n == t;
    if q > c {
      assert (q - c) * n > 0.0;
    }
  }

  lemma QuotientAtLeast(t: real, n: real, c: real)
    requires 0.0 < n && c * n <= t
    ensures c <= t / n
  {
    var q := t / n;
    assert q * n == t;
    if q < c {
      assert (c - q) * n > 0.0;
    }
  }

  /** Ratings 5, 3 and 4 average to 4. */
  lemma MeanExample(u: string, e: string)
    ensures Mean([Review(u, e, 5.0, None, 1), Review(u + "2", e, 3.0, None, 2), Review(u + "3", e, 4.0, None, 3)]) == 4.0
  {
    var rs := [Review(u, e, 5.0, None, 1), Review(u + "2", e, 3.0, None, 2), Review(u + "3", e, 4.0, None, 3)];
    assert rs[1..][1..][1..] == [];
    assert TotalRating(rs[1..][1..]) == 4.0;
    assert TotalRating(rs[1..]) == 7.0;
    assert TotalRating(rs) == 12.0;
  }

  // ----- the handlers -----

  /** `POST /reviews/:eventId`. */
  method CreateReview(db: Store, eventId: string, body: ReviewBody, caller: Option<AuthUser>, now: int, fault: bool)
    returns (r: Reply<Review>)
    requires db.Valid()
    modifies db
    ensures db.Valid()
    ensures eventId == "" ==> r == Fail(BAD_REQUEST, ID_REQUIRED)
    ensures eventId != "" && CallerUid(caller).None? ==> r == Fail(UNAUTHORIZED, NOT_AUTHENTICATED)
    ensures eventId != "" && CallerUid(caller).Some? && RatingRejected(body.rating) ==>
      r == Fail(BAD_REQUEST, RATING_OUT_OF_RANGE)
    ensures eventId != "" && CallerUid(caller).Some? && !RatingRejected(body.rating) && fault ==>
      r == Fail(SERVER_ERROR, CREATE_FAILED)
    ensures eventId != "" && CallerUid(caller).Some? && !RatingRejected(body.rating) && !fault
            && CallerUid(caller).value !in old(db.users) ==>
      r == Fail(NOT_FOUND, USER_NOT_FOUND)
    ensures eventId != "" && CallerUid(caller).Some? && !RatingRejected(body.rating) && !fault
            && CallerUid(caller).value in old(db.users) && eventId !in old(db.events) ==>
      r == Fail(SERVER_ERROR, CREATE_FAILED)
    ensures r.Fail? ==> unchanged(db)
    ensures r.Ok? ==>
      && eventId != "" && CallerUid(caller).Some? && !RatingRejected(body.rating) && !fault
      && CallerUid(caller).value in old(db.users) && eventId in old(db.events)
    ensures eventId != "" && CallerUid(caller).Some? && !RatingRejected(body.rating) && !fault
            && CallerUid(caller).value in old(db.users) && eventId in old(db.events) ==>
      var key := PairKey(old(db.users)[CallerUid(caller).value].id, eventId);
      var written := SubmitReview(old(db.reviews), key, body.rating, body.comment, now);
      && (written.None? ==> r == Fail(SERVER_ERROR, CREATE_FAILED))
      && (written.Some? ==>
            r.Ok? && r.status == CREATED && db.reviews == written.value && r.payload == db.reviews[key])
    ensures r.Ok? ==> db.users == old(db.users) && db.events == old(db.events) && db.attendances == old(db.attendances)
  {
    if eventId == "" {
      return Fail(BAD_REQUEST, ID_REQUIRED);
    }
    var uid := CallerUid(caller);
    if uid.None? {
      return Fail(UNAUTHORIZED, NOT_AUTHENTICATED);
    }
    if RatingRejected(body.rating) {
      return Fail(BAD_REQUEST, RATING_OUT_OF_RANGE);
    }
    if fault {
      return Fail(SERVER_ERROR, CREATE_FAILED);
    }
    if uid.value !in db.users {
      return Fail(NOT_FOUND, USER_NOT_FOUND);
    }
    var user := db.users[uid.value];
    // Creating a review of an unknown event breaks the foreign key and throws.
    if eventId !in db.events {
      return Fail(SERVER_ERROR, CREATE_FAILED);
    }
    var key := PairKey(user.id, eventId);
    var written := SubmitReview(db.reviews, key, body.rating, body.comment, now);
    if written.None? {
      return Fail(SERVER_ERROR, CREATE_FAILED);
    }
    assert user.id in UserIds(db.users);
    SubmitKeepsKeyed(db.users, db.events, db.reviews, key, body.rating, body.comment, now);
    db.reviews := written.value;
    return Ok(CREATED, db.reviews[key]);
  }

  /** `GET /reviews/:eventId`: the event's reviews, newest first, with their count and mean.
      An unknown event is not an error: it has no reviews. */
  ghost function GetEventReviews(db: Store, eventId: string, fault: bool): (r: Reply<EventReviews>)
    reads db
    requires db.Valid()
    ensures eventId == "" ==> r == Fail(BAD_REQUEST, ID_REQUIRED)
    ensures eventId != "" && fault ==> r == Fail(SERVER_ERROR, LIST_FAILED)
    ensures r.Ok? <==> eventId != "" && !fault
    ensures r.Ok? ==>
      && r.status == OK
      && r.payload.reviews == ReviewsOf(db.reviews, eventId)
      && r.payload.stats.count == |r.payload.reviews|
      && r.payload.stats.average == Mean(r.payload.reviews)
    ensures r.Ok? && r.payload.stats.count > 0 ==> 1.0 <= r.payload.stats.average <= 5.0
  {
    if eventId == "" then Fail(BAD_REQUEST, ID_REQUIRED)
    else if fault then Fail(SERVER_ERROR, LIST_FAILED)
    else
      var listed := ReviewsOf(db.reviews, eventId);
      var stats := Aggregate(db.reviews, eventId);
      StatsDescribeListing(db.reviews, eventId);
      StoredRatingsInRange(db.users, db.events, db.reviews);
      if listed != [] then MeanBounds(listed); Ok(OK, EventReviews(listed, stats))
      else Ok(OK, EventReviews(listed, stats))
  }

  lemma StoredRatingsInRange(users: UserTable, events: EventTable, reviews: ReviewTable)
    requires ReviewsKeyed(users, events, reviews)
    ensures forall v :: v in reviews.Values ==> 1.0 <= v.rating <= 5.0
  {
    forall v | v in reviews.Values ensures 1.0 <= v.rating <= 5.0 {
      var k :| k in reviews && reviews[k] == v;
    }
  }
}
