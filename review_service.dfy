// Reviews: a diner's review of a restaurant, linked back to the reservation
// it was written for; the restaurant's public review list; deletion by the
// author and by an administrator.

module ReviewService {
  import opened Common
  import opened JavaText
  import opened Query
  import opened Entities
  import opened ReviewMapper

  // ---------------------------------------------------------------- messages

  const NoRestaurantId: string := "Restaurant ID cannot be empty"
  const Retrieved: string := "Retrieved successfully"

  // ---------------------------------------------------------------- views

  /** ReviewVO. Its id is an Integer while the review's id is a String, so
    * the bean copy leaves it null. */
  datatype ReviewView = ReviewView(
    id: Option<int>, userId: int, userName: Option<string>, userAvatar: Option<string>,
    content: Option<string>, photos: seq<string>, videos: seq<string>, rating: int, createdAt: int)

  datatype ReviewListing = ReviewListing(total: int, list: seq<ReviewView>)

  /** convertToVO: the review with its media lists and its author's name and
    * avatar when the author exists. */
  function ToView(v: Review, users: seq<User>): ReviewView {
    var author := SelectById(users, UserId, v.userId);
    ReviewView(None, v.userId,
               if author.Some? then author.value.name else None,
               if author.Some? then author.value.avatar else None,
               v.content, PipeList(v.photos), PipeList(v.videos), v.rating, v.createdAt)
  }

  // ---------------------------------------------------------------- the restaurant's reviews

  /** A rating filter applies only for a rating from 1 to 5. */
  predicate RatingFilter(rating: Option<int>) {
    rating.Some? && 0 < rating.value <= 5
  }

  function RestaurantReviewCondition(restaurantId: int, rating: Option<int>): Review -> bool {
    (v: Review) => v.restaurantId == restaurantId && (!RatingFilter(rating) || v.rating == rating.value)
  }

  /** A rating outside 1..5 lists the same reviews as no rating at all. */
  lemma OutOfRangeRatingIgnored(reviews: seq<Review>, restaurantId: int, rating: int)
    requires rating < 1 || rating > 5
    ensures Where(reviews, RestaurantReviewCondition(restaurantId, Some(rating)))
         == Where(reviews, RestaurantReviewCondition(restaurantId, None))
  {
    WhereExt(reviews, RestaurantReviewCondition(restaurantId, Some(rating)), RestaurantReviewCondition(restaurantId, None));
  }

  /** getRestaurantReviews: every review of the restaurant, of the given
    * rating when it is 1..5, newest first, with a total of 0: selectPage
    * runs without the pagination interceptor, so the normalised page and
    * size have no effect. */
  method GetRestaurantReviews(reviews: seq<Review>, users: seq<User>, restaurantId: Option<int>,
                              page: Option<int>, pageSize: Option<int>, rating: Option<int>)
    returns (res: Response<ReviewListing>)
    ensures restaurantId.None? ==> res == ValidateFailed(NoRestaurantId)
    ensures restaurantId.Some? ==>
      var cond := RestaurantReviewCondition(restaurantId.value, rating);
      var rows := SelectPageUnintercepted(reviews, cond, ReviewCreatedAt).records;
      && IsSuccess(res) && res.message == Retrieved && res.data.Some?
      && res.data.value.total == 0
      && |res.data.value.list| == |rows| && |rows| == CountWhere(reviews, cond)
      && (forall i :: 0 <= i < |rows| ==> res.data.value.list[i] == ToView(rows[i], users))
      && (forall i, j :: 0 <= i < j < |res.data.value.list| ==>
            res.data.value.list[i].createdAt >= res.data.value.list[j].createdAt)
      && (forall v :: v in reviews && cond(v) ==> ToView(v, users) in res.data.value.list)
      && forall view :: view in res.data.value.list ==>
           exists v :: v in reviews && view == ToView(v, users) && cond(v)
  {
    if restaurantId.None? {
      return ValidateFailed(NoRestaurantId);
    }
    var cond := RestaurantReviewCondition(restaurantId.value, rating);
    var selected := SelectPageUnintercepted(reviews, cond, ReviewCreatedAt);
    var rows := selected.records;
    var views := ConvertAll(rows, (v: Review) => ToView(v, users));
    ViewsOfRows(reviews, users, cond, rows, views);
    res := SuccessWith(Some(ReviewListing(selected.total, views)), Retrieved);
  }

  /** The views of the matching reviews, one per row: newest first when the
    * rows are, each the view of a matching review, and every matching review
    * viewed. */
  lemma ViewsOfRows(reviews: seq<Review>, users: seq<User>, cond: Review -> bool,
                    rows: seq<Review>, views: seq<ReviewView>)
    requires forall v :: v in rows <==> v in reviews && cond(v)
    requires forall i, j :: 0 <= i < j < |rows| ==> rows[i].createdAt >= rows[j].createdAt
    requires |views| == |rows| && forall i :: 0 <= i < |rows| ==> views[i] == ToView(rows[i], users)
    ensures forall i, j :: 0 <= i < j < |views| ==> views[i].createdAt >= views[j].createdAt
    ensures forall v :: v in reviews && cond(v) ==> ToView(v, users) in views
    ensures forall view :: view in views ==> exists v :: v in reviews && view == ToView(v, users) && cond(v)
  {
    forall view | view in views
      ensures exists v :: v in reviews && view == ToView(v, users) && cond(v)
    {
      var i :| 0 <= i < |views| && views[i] == view;
      assert rows[i] in rows;
    }
    forall v | v in reviews && cond(v)
      ensures ToView(v, users) in views
    {
      var i :| 0 <= i < |rows| && rows[i] == v;
      assert views[i] == ToView(v, users);
    }
    assert forall i :: 0 <= i < |views| ==> views[i].createdAt == rows[i].createdAt;
  }

  // ---------------------------------------------------------------- submitting

  /** The review as submitted: `id` is a string and the transient
    * `reservationId` is the field meant to name the reservation. */
  datatype ReviewForm = ReviewForm(
    id: Option<string>, restaurantId: Option<int>, userId: Option<int>, content: Option<string>,
    photos: Option<string>, videos: Option<string>, rating: Option<int>, reservationId: Option<int>)

  /** The message of Integer.valueOf's NumberFormatException. */
  function NumberFormatMessage(s: Option<string>): string {
    if s.None? then "Cannot parse null string: null" else "For input string: " + Quote + s.value + Quote
  }

  /** The checks addReview makes before it stores anything. */
  function ReviewRefusal(form: Option<ReviewForm>): Option<Response<Review>> {
    if form.None? then Some(ValidateFailed("Review information cannot be empty"))
    else if form.value.restaurantId.None? then Some(ValidateFailed(NoRestaurantId))
    else if form.value.userId.None? then Some(ValidateFailed("User ID cannot be empty"))
    else if form.value.rating.None? || form.value.rating.value < 1 || form.value.rating.value > 5 then
      Some(ValidateFailed("Rating must be between 1 and 5"))
    else None
  }

  /** The stored review: a fresh id and one timestamp for both stamps. */
  function StoredReview(form: ReviewForm, newId: string, now: int): Review
    requires form.restaurantId.Some? && form.userId.Some? && form.rating.Some?
  {
    Review(newId, form.restaurantId.value, form.userId.value, form.content, form.photos, form.videos,
           form.rating.value, now, now)
  }

  /** Point the reservation with that id, if there is one, at the review. */
  function LinkReservation(reservations: seq<Reservation>, reservationId: int, reviewId: string): (r: seq<Reservation>)
    ensures |r| == |reservations|
  {
    match IndexOf(reservations, ReservationId, reservationId)
    case None => reservations
    case Some(k) => reservations[k := reservations[k].(reviewId := Some(reviewId))]
  }

  /** Only the reservation with that id changes, and only its review id. */
  lemma LinkReservationChangesOne(reservations: seq<Reservation>, reservationId: int, reviewId: string)
    requires UniqueIds(reservations, ReservationId)
    ensures var r := LinkReservation(reservations, reservationId, reviewId);
      forall i :: 0 <= i < |r| ==>
        r[i] == if reservations[i].id == reservationId then reservations[i].(reviewId := Some(reviewId)) else reservations[i]
  {
    match IndexOf(reservations, ReservationId, reservationId)
    case None =>
    case Some(k) =>
      forall i | 0 <= i < |reservations| && i != k ensures reservations[i].id != reservationId {
        IndexOfUnique(reservations, ReservationId, reservations[i].id, i);
      }
  }

  /** addReview as written: the incoming string id is parsed as the
    * reservation id before the review is stored, so a review without a
    * numeric id fails with 500 and nothing is saved. */
  function AddReviewAsWritten(reviews: seq<Review>, reservations: seq<Reservation>, form: Option<ReviewForm>,
                              newId: string, now: int): (Response<Review>, seq<Review>, seq<Reservation>)
  {
    match ReviewRefusal(form)
    case Some(refusal) => (refusal, reviews, reservations)
    case None =>
      var f := form.value;
      var parsed := if f.id.None? then None else ParseInt(f.id.value);
      if parsed.None? then (Error(500, "Failed to add review: " + NumberFormatMessage(f.id)), reviews, reservations)
      else
        var stored := StoredReview(f, newId, now);
        (SuccessWith(Some(stored), "Review submitted successfully"), reviews + [stored],
         LinkReservation(reservations, parsed.value, newId))
  }

  /** A valid review submitted without an id is refused with 500, although
    * the code after the parse handles a missing reservation id. */
  lemma ReviewWithoutIdRejected(reviews: seq<Review>, reservations: seq<Reservation>, form: ReviewForm, newId: string, now: int)
    requires form.id.None? && form.restaurantId.Some? && form.userId.Some?
    requires form.rating.Some? && 1 <= form.rating.value <= 5
    ensures AddReviewAsWritten(reviews, reservations, Some(form), newId, now)
         == (Error(500, "Failed to add review: " + NumberFormatMessage(None)), reviews, reservations)
  {
  }

  /** With a numeric id, the code as written behaves as intended for a
    * form naming that reservation. */
  lemma NumericIdAsIntended(reviews: seq<Review>, reservations: seq<Reservation>, form: ReviewForm, n: int,
                            newId: string, now: int)
    requires form.id.Some? && ParseInt(form.id.value) == Some(n)
    ensures AddReviewAsWritten(reviews, reservations, Some(form), newId, now)
         == AddReview(reviews, reservations, Some(form.(reservationId := Some(n))), newId, now)
  {
  }

  /** addReview as intended: the reservation is named by reservationId; a
    * review without one is stored and links nothing. */
  function AddReview(reviews: seq<Review>, reservations: seq<Reservation>, form: Option<ReviewForm>,
                     newId: string, now: int): (Response<Review>, seq<Review>, seq<Reservation>)
  {
    match ReviewRefusal(form)
    case Some(refusal) => (refusal, reviews, reservations)
    case None =>
      var f := form.value;
      var stored := StoredReview(f, newId, now);
      (SuccessWith(Some(stored), "Review submitted successfully"), reviews + [stored],
       if f.reservationId.Some? then LinkReservation(reservations, f.reservationId.value, newId) else reservations)
  }

  /** A review is stored exactly when the form names a restaurant and a user
    * and rates 1..5; the stored review has the fresh id and equal stamps, a
    * refused one changes nothing, and no reservation is linked unless one
    * is named. */
  lemma AddReviewOutcome(reviews: seq<Review>, reservations: seq<Reservation>, form: Option<ReviewForm>, newId: string, now: int)
    ensures var (res, after, linked) := AddReview(reviews, reservations, form, newId, now);
      && (IsSuccess(res) <==>
            && form.Some? && form.value.restaurantId.Some? && form.value.userId.Some?
            && form.value.rating.Some? && 1 <= form.value.rating.value <= 5)
      && (!IsSuccess(res) ==> res.code == Some(400) && after == reviews && linked == reservations)
      && (IsSuccess(res) ==>
            && res.data.Some? && after == reviews + [res.data.value]
            && res.data.value.id == newId
            && res.data.value.createdAt == res.data.value.updatedAt == now
            && res.data.value.rating == form.value.rating.value
            && res.data.value.userId == form.value.userId.value
            && (form.value.reservationId.None? ==> linked == reservations))
  {
  }

  /** A fresh id keeps review ids unique. */
  lemma AddReviewKeepsIdsUnique(reviews: seq<Review>, reservations: seq<Reservation>, form: Option<ReviewForm>, newId: string, now: int)
    requires forall i, j :: 0 <= i < j < |reviews| ==> reviews[i].id != reviews[j].id
    requires forall v :: v in reviews ==> v.id != newId
    ensures var after := AddReview(reviews, reservations, form, newId, now).1;
      forall i, j :: 0 <= i < j < |after| ==> after[i].id != after[j].id
  {
    var after := AddReview(reviews, reservations, form, newId, now).1;
    forall i, j | 0 <= i < j < |after| ensures after[i].id != after[j].id {
      if j == |reviews| {
        assert reviews[i] in reviews;
      }
    }
  }

  // ---------------------------------------------------------------- deleting

  /** The text id column compared with a numeric id. */
  predicate HasId(v: Review, reviewId: int) {
    v.id == IntToString(reviewId)
  }

  function FindReview(reviews: seq<Review>, reviewId: int): (r: Option<Review>)
    ensures r.Some? ==> r.value in reviews && HasId(r.value, reviewId)
    ensures r.None? ==> forall v :: v in reviews ==> !HasId(v, reviewId)
  {
    if reviews == [] then None
    else if HasId(reviews[0], reviewId) then Some(reviews[0])
    else FindReview(reviews[1..], reviewId)
  }

  /** deleteById. */
  function DeleteById(reviews: seq<Review>, reviewId: int): (r: seq<Review>)
    ensures forall v :: v in r <==> v in reviews && !HasId(v, reviewId)
  {
    Where(reviews, (v: Review) => !HasId(v, reviewId))
  }

  /** deleteReview by its author: both ids required, a missing review is
    * 404, someone else's is 403. */
  function DeleteOwnReview(reviews: seq<Review>, reviewId: Option<int>, userId: Option<int>): (Response<bool>, seq<Review>) {
    if reviewId.None? then (ValidateFailed("Review ID cannot be empty"), reviews)
    else if userId.None? then (ValidateFailed("User ID cannot be empty"), reviews)
    else
      match FindReview(reviews, reviewId.value)
      case None => (NotFound(), reviews)
      case Some(v) =>
        if v.userId != userId.value then (Forbidden(), reviews)
        else (SuccessWith(Some(true), "Deleted successfully"), DeleteById(reviews, reviewId.value))
  }

  /** With ids unique, a user deletes a review exactly when it is theirs,
    * and only that review goes. */
  lemma DeleteOwnReviewOnlyOwn(reviews: seq<Review>, reviewId: int, userId: int)
    requires forall i, j :: 0 <= i < j < |reviews| ==> reviews[i].id != reviews[j].id
    ensures var (res, after) := DeleteOwnReview(reviews, Some(reviewId), Some(userId));
      && (IsSuccess(res) <==> exists v :: v in reviews && HasId(v, reviewId) && v.userId == userId)
      && (res.code == Some(404) <==> forall v :: v in reviews ==> !HasId(v, reviewId))
      && (IsSuccess(res) ==> forall v :: v in after <==> v in reviews && !HasId(v, reviewId))
      && (!IsSuccess(res) ==> after == reviews)
  {
    if exists v :: v in reviews && HasId(v, reviewId) && v.userId == userId {
      var v :| v in reviews && HasId(v, reviewId) && v.userId == userId;
      var w := FindReview(reviews, reviewId).value;
      var i :| 0 <= i < |reviews| && reviews[i] == v;
      var j :| 0 <= j < |reviews| && reviews[j] == w;
      assert i == j;
    }
  }

  /** The administrator's deleteReview: false for a missing review, else
    * whether deleteById removed a row. */
  function DeleteAnyReview(reviews: seq<Review>, reviewId: Option<int>): (Except<bool>, seq<Review>) {
    if reviewId.None? then (Value(false), reviews)
    else
      match FindReview(reviews, reviewId.value)
      case None => (Value(false), reviews)
      case Some(_) =>
        var after := DeleteById(reviews, reviewId.value);
        (Value(|after| < |reviews|), after)
  }

  /** The administrator deletes exactly the reviews with that id, and hears
    * true exactly when there was one. */
  lemma {:induction false} DeleteAnyReviewOutcome(reviews: seq<Review>, reviewId: Option<int>)
    ensures var (r, after) := DeleteAnyReview(reviews, reviewId);
      && (r == Value(true) <==> reviewId.Some? && exists v :: v in reviews && HasId(v, reviewId.value))
      && (reviewId.Some? ==> forall v :: v in after <==> v in reviews && !HasId(v, reviewId.value))
      && (reviewId.None? ==> after == reviews)
  {
    if reviewId.Some? {
      var p := (v: Review) => !HasId(v, reviewId.value);
      var found := FindReview(reviews, reviewId.value);
      if found.Some? {
        WhereDropsRow(reviews, p, found.value);
      }
    }
  }

  /** The text of a java.util.UUID: 36 characters, a hyphen at position 8. */
  predicate UuidShaped(id: string) {
    |id| == 36 && id[8] == '-'
  }

  /** No int prints as a UUID, so a review stored under a fresh UUID (as
    * addReview stores every review) is matched by no numeric id: neither
    * delete path removes it. */
  lemma UuidReviewNotDeletable(reviews: seq<Review>, v: Review, reviewId: int, userId: Option<int>)
    requires v in reviews && UuidShaped(v.id)
    ensures !HasId(v, reviewId)
    ensures v in DeleteOwnReview(reviews, Some(reviewId), userId).1
    ensures v in DeleteAnyReview(reviews, Some(reviewId)).1
  {
    var s := IntToString(reviewId);
    if |s| == 36 {
      if reviewId < 0 {
        var digits := NatToString(-reviewId);
        assert s[8] == digits[7];
      }
      assert IsDigit(s[8]);
    }
    assert !HasId(v, reviewId);
  }

  // ---------------------------------------------------------------- the administrator's list

  datatype AdminReviewListing = AdminReviewListing(total: int, list: seq<Review>)

  /** getAdminReviewList: the page at (page - 1) * pageSize in int
    * arithmetic, with the count under the same filters; a failing query is
    * rethrown as "Failed to get review list". */
  function GetAdminReviews(reviews: seq<Review>, page: int, pageSize: int, restaurantId: Option<int>, rating: Option<int>)
    : (r: Except<AdminReviewListing>)
    ensures r.Value? <==> Offset(page, pageSize) >= 0 && pageSize >= 0
    ensures r.Throws? ==>
      r == Throws("Failed to get review list: " + if Offset(page, pageSize) < 0 then NegativeOffset else NegativeLimit)
    ensures r.Value? ==> r.v.list == GetAdminReviewList(reviews, Offset(page, pageSize), pageSize, restaurantId, rating).v
    ensures r.Value? ==>
      && r.v.total == CountAdminReviews(reviews, restaurantId, rating)
      && |r.v.list| <= pageSize
      && forall v :: v in r.v.list ==>
           v in reviews && (restaurantId.Some? ==> v.restaurantId == restaurantId.value)
                        && (rating.Some? ==> v.rating == rating.value)
  {
    var offset := Offset(page, pageSize);
    match GetAdminReviewList(reviews, offset, pageSize, restaurantId, rating)
    case Throws(reason) => Throws("Failed to get review list: " + reason)
    case Value(list) =>
      AdminReviewPageSound(reviews, offset, pageSize, restaurantId, rating);
      Value(AdminReviewListing(CountAdminReviews(reviews, restaurantId, rating), list))
  }
}
