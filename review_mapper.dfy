// The review queries used by the administrator's review list and by the
// management reservation views.

module ReviewMapper {
  import opened Common
  import opened Query
  import opened Entities

  function ReviewCreatedAt(v: Review): int { v.createdAt }

  /** Optional `restaurant_id = ?` and `rating = ?` conditions. */
  function AdminReviewCondition(restaurantId: Option<int>, rating: Option<int>): Review -> bool {
    (v: Review) => (restaurantId.None? || v.restaurantId == restaurantId.value)
                && (rating.None? || v.rating == rating.value)
  }

  function GetAdminReviewList(reviews: seq<Review>, offset: int, pageSize: int,
                              restaurantId: Option<int>, rating: Option<int>): Except<seq<Review>> {
    SelectPageDesc(reviews, AdminReviewCondition(restaurantId, rating), ReviewCreatedAt, offset, pageSize)
  }

  function CountAdminReviews(reviews: seq<Review>, restaurantId: Option<int>, rating: Option<int>): nat {
    CountWhere(reviews, AdminReviewCondition(restaurantId, rating))
  }

  /** Every review on an administrator's page matches both supplied filters,
    * the page is newest first and no longer than pageSize, and it is
    * consistent with the count query. */
  lemma AdminReviewPageSound(reviews: seq<Review>, offset: int, pageSize: int,
                             restaurantId: Option<int>, rating: Option<int>)
    requires GetAdminReviewList(reviews, offset, pageSize, restaurantId, rating).Value?
    ensures var page := GetAdminReviewList(reviews, offset, pageSize, restaurantId, rating).v;
      && |page| <= pageSize
      && (forall v :: v in page ==>
            && v in reviews
            && (restaurantId.Some? ==> v.restaurantId == restaurantId.value)
            && (rating.Some? ==> v.rating == rating.value))
      && (forall i, j :: 0 <= i < j < |page| ==> page[i].createdAt >= page[j].createdAt)
      && (offset >= CountAdminReviews(reviews, restaurantId, rating) ==> page == [])
  {
    var p := AdminReviewCondition(restaurantId, rating);
    SelectPageDescRowsMatch(reviews, p, ReviewCreatedAt, offset, pageSize);
    SelectPageDescOrdered(reviews, p, ReviewCreatedAt, offset, pageSize);
    SelectPageDescLength(reviews, p, ReviewCreatedAt, offset, pageSize);
  }

  /** checkReviewExistence: the number of reviews by this user of this
    * restaurant, whatever reservation they were written for. */
  function CheckReviewExistence(reviews: seq<Review>, userId: int, restaurantId: int): (n: nat)
    ensures n > 0 <==> exists v :: v in reviews && v.userId == userId && v.restaurantId == restaurantId
  {
    var p := (v: Review) => v.userId == userId && v.restaurantId == restaurantId;
    CountIsWhereLength(reviews, p);
    assert |Where(reviews, p)| > 0 <==> exists v :: v in Where(reviews, p) by {
      var w := Where(reviews, p);
      assert w != [] ==> w[0] in w;
    }
    CountWhere(reviews, p)
  }
}
