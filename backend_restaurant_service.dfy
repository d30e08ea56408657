// The diner-facing restaurant catalogue: the filtered, paged list (with a
// diner's favourites marked), the cuisine list and the detail page.

module BackendRestaurantService {
  import opened Common
  import opened JavaText
  import opened Query
  import opened Entities
  import opened RestaurantMapper

  // ---------------------------------------------------------------- messages

  const Retrieved: string := "Retrieved successfully"

  const StatusPending: int := 0
  const StatusApproved: int := 1
  const StatusClosed: int := 2
  const StatusOperating: int := 3

  /** FavoriteService.isFavorite(userId, restaurantId). */
  type FavoriteCheck = (int, int) -> bool

  /** getStatusName: the four statuses by name, anything else "Unknown". */
  function StatusName(status: Option<int>): (name: string)
    ensures name != "Unknown" <==> status.Some? && StatusPending <= status.value <= StatusOperating
  {
    if status.None? then "Unknown"
    else if status.value == StatusPending then "Pending Review"
    else if status.value == StatusApproved then "Approved"
    else if status.value == StatusClosed then "Closed"
    else if status.value == StatusOperating then "Operating"
    else "Unknown"
  }

  /** The status a name stands for. */
  function StatusOfName(name: string): Option<int> {
    if name == "Pending Review" then Some(StatusPending)
    else if name == "Approved" then Some(StatusApproved)
    else if name == "Closed" then Some(StatusClosed)
    else if name == "Operating" then Some(StatusOperating)
    else None
  }

  /** Distinct statuses get distinct names, so the name gives the status back. */
  lemma StatusNameRoundTrip(status: Option<int>)
    ensures StatusName(status) != "Unknown" ==> StatusOfName(StatusName(status)) == status
    ensures StatusName(status) == "Unknown" ==> StatusOfName(StatusName(status)) == None
  {
  }

  // ---------------------------------------------------------------- views

  /** RestaurantVO: the row with its photos as a list, its status by name,
    * its review count, its owner's name, its tables on the detail page, and
    * whether the asking diner has it among their favourites. */
  datatype RestaurantView = RestaurantView(
    restaurant: Restaurant, photos: seq<string>, status: string, reviewCount: nat,
    ownerName: Option<string>, tables: Option<seq<Table>>, isFavorite: bool)

  /** The NullPointerException of reading the name of an owner who is not
    * in the users table. */
  const MissingOwnerMessage: string :=
    "Cannot invoke " + Quote + "com.room.backend.entity.User.getName()" + Quote + " because the return value of "
    + Quote + "com.room.backend.mapper.UserMapper.selectById(java.io.Serializable)" + Quote + " is null"

  /** The NullPointerException of unboxing a null coordinate for
    * Double.valueOf. */
  function NullCoordinateMessage(getter: string): string {
    "Cannot invoke " + Quote + "java.lang.Double.doubleValue()" + Quote + " because the return value of "
    + Quote + "com.room.backend.entity.Restaurant." + getter + "()" + Quote + " is null"
  }
  const NullLongitudeMessage: string := NullCoordinateMessage("getLongitude")
  const NullLatitudeMessage: string := NullCoordinateMessage("getLatitude")

  /** A row convertToVO turns into a view: both coordinates present and the
    * owner a user. */
  predicate Convertible(r: Restaurant, users: seq<User>) {
    r.longitude.Some? && r.latitude.Some? && SelectById(users, UserId, r.ownerId).Some?
  }

  /** convertToVO: fails exactly when a coordinate is null or the owner is
    * not a user, with the exception of the first of these it meets. */
  function ToView(r: Restaurant, users: seq<User>, reviews: seq<Review>): (v: Except<RestaurantView>)
    ensures v.Throws? <==> !Convertible(r, users)
    ensures r.longitude.None? ==> v == Throws(NullLongitudeMessage)
    ensures r.longitude.Some? && r.latitude.None? ==> v == Throws(NullLatitudeMessage)
    ensures r.longitude.Some? && r.latitude.Some? && SelectById(users, UserId, r.ownerId).None? ==>
      v == Throws(MissingOwnerMessage)
    ensures v.Value? ==>
      && v.v.restaurant == r && v.v.photos == PipeList(r.photos) && v.v.status == StatusName(Some(r.status))
      && v.v.reviewCount == GetReviewCount(reviews, r.id) && !v.v.isFavorite && v.v.tables.None?
      && v.v.ownerName == SelectById(users, UserId, r.ownerId).value.name
  {
    if r.longitude.None? then Throws(NullLongitudeMessage)
    else if r.latitude.None? then Throws(NullLatitudeMessage)
    else match SelectById(users, UserId, r.ownerId)
    case None => Throws(MissingOwnerMessage)
    case Some(owner) =>
      Value(RestaurantView(r, PipeList(r.photos), StatusName(Some(r.status)), GetReviewCount(reviews, r.id),
                           owner.name, None, false))
  }

  /** The views of a page of rows in order, or the first failure. */
  function ToViews(rows: seq<Restaurant>, users: seq<User>, reviews: seq<Review>): (r: Except<seq<RestaurantView>>)
    ensures r.Value? ==> |r.v| == |rows| && forall i :: 0 <= i < |rows| ==> ToView(rows[i], users, reviews) == Value(r.v[i])
  {
    if rows == [] then Value([])
    else
      var n := |rows| - 1;
      var front := ToViews(rows[..n], users, reviews);
      if front.Throws? then front
      else match ToView(rows[n], users, reviews)
        case Throws(reason) => Throws(reason)
        case Value(v) =>
          assert forall i :: 0 <= i < n ==> rows[..n][i] == rows[i];
          Value(front.v + [v])
  }

  /** The page converts exactly when every row on it has both coordinates
    * and its owner. */
  lemma {:induction false} ToViewsSucceedsIff(rows: seq<Restaurant>, users: seq<User>, reviews: seq<Review>)
    ensures ToViews(rows, users, reviews).Value? <==> forall x :: x in rows ==> Convertible(x, users)
  {
    if rows != [] {
      var n := |rows| - 1;
      ToViewsSucceedsIff(rows[..n], users, reviews);
      assert forall x :: x in rows <==> x in rows[..n] || x == rows[n] by {
        assert rows == rows[..n] + [rows[n]];
      }
    }
  }

  /** A page that does not convert fails with the exception of its first
    * row that does not. */
  lemma {:induction false} ToViewsFirstFailure(rows: seq<Restaurant>, users: seq<User>, reviews: seq<Review>, j: nat)
    requires j < |rows| && !Convertible(rows[j], users)
    requires forall i :: 0 <= i < j ==> Convertible(rows[i], users)
    ensures ToViews(rows, users, reviews) == Throws(ToView(rows[j], users, reviews).reason)
  {
    var n := |rows| - 1;
    var front := rows[..n];
    if j == n {
      ToViewsSucceedsIff(front, users, reviews);
      assert forall x :: x in front ==> Convertible(x, users) by {
        forall x | x in front ensures Convertible(x, users) {
          var i :| 0 <= i < n && front[i] == x;
          assert rows[i] == x;
        }
      }
    } else {
      assert front[j] == rows[j];
      ToViewsFirstFailure(front, users, reviews, j);
    }
  }

  // ---------------------------------------------------------------- the list

  datatype RestaurantListing = RestaurantListing(total: int, list: seq<RestaurantView>)

  /** The list's WHERE: `status = s` when a status is given, `cuisine = c`
    * when the cuisine has text, and a keyword with text found in the name,
    * the address or the description. */
  function ListCondition(status: Option<int>, keyword: Option<string>, cuisine: Option<string>): Restaurant -> bool {
    (r: Restaurant) =>
      && (status.None? || r.status == status.value)
      && (!HasText(cuisine) || r.cuisine == cuisine)
      && (!HasText(keyword)
          || Contains(r.name, keyword.value) || Contains(r.address, keyword.value)
          || (r.description.Some? && Contains(r.description.value, keyword.value)))
  }

  /** The rows of selectPage(new Page<>(page, size), wrapper): no ORDER BY,
    * so table order, from the page's start. */
  function ListPage(restaurants: seq<Restaurant>, p: Restaurant -> bool, page: int, size: int): (rows: seq<Restaurant>)
    requires size >= 1
    ensures |rows| <= size
    ensures forall x :: x in rows ==> x in restaurants && p(x)
  {
    var matching := Where(restaurants, p);
    var rows := LimitOffset(matching, PageStart(page, size), size).v;
    assert forall i :: 0 <= i < |rows| ==> rows[i] in matching by {
      forall i | 0 <= i < |rows| ensures rows[i] in matching {
        assert rows[i] == matching[PageStart(page, size) + i];
      }
    }
    rows
  }

  /** getRestaurantList as the service answers it. */
  function RestaurantList(restaurants: seq<Restaurant>, users: seq<User>, reviews: seq<Review>,
                          page: Option<int>, pageSize: Option<int>, status: Option<int>,
                          keyword: Option<string>, cuisine: Option<string>): Response<RestaurantListing>
  {
    ListResponse(restaurants, users, reviews, ListCondition(status, keyword, cuisine), NormalisePage(page), NormalisePageSize(pageSize))
  }

  /** The answer for one page of the rows meeting p: its views and the count
    * of every matching row, or the conversion's failure as a 500. */
  function ListResponse(restaurants: seq<Restaurant>, users: seq<User>, reviews: seq<Review>,
                        p: Restaurant -> bool, page: int, size: int): Response<RestaurantListing>
    requires size >= 1
  {
    match ToViews(ListPage(restaurants, p, page, size), users, reviews)
    case Throws(reason) => Error(500, reason)
    case Value(views) => SuccessWith(Some(RestaurantListing(CountWhere(restaurants, p), views)), Retrieved)
  }

  /** The for-each loop of getRestaurantList: the rows turned into views
    * one by one; the first row that does not convert ends it with its
    * exception. */
  method ConvertPage(rows: seq<Restaurant>, users: seq<User>, reviews: seq<Review>)
    returns (r: Except<seq<RestaurantView>>)
    ensures r == ToViews(rows, users, reviews)
  {
    var views := [];
    var i := 0;
    while i < |rows|
      invariant 0 <= i <= |rows|
      invariant ToViews(rows[..i], users, reviews) == Value(views)
    {
      var v := ToView(rows[i], users, reviews);
      assert rows[..i + 1][..i] == rows[..i];
      if v.Throws? {
        ToViewsSucceedsIff(rows[..i], users, reviews);
        forall k | 0 <= k < i ensures Convertible(rows[k], users) {
          assert rows[..i][k] == rows[k] && rows[..i][k] in rows[..i];
        }
        ToViewsFirstFailure(rows, users, reviews, i);
        return Throws(v.reason);
      }
      views := views + [v.v];
      i := i + 1;
    }
    assert rows[..i] == rows;
    r := Value(views);
  }

  /** getRestaurantList: defaults for the page, the filtered page, its views
    * and the count of every matching row. */
  method GetRestaurantList(restaurants: seq<Restaurant>, users: seq<User>, reviews: seq<Review>,
                           page: Option<int>, pageSize: Option<int>, status: Option<int>,
                           keyword: Option<string>, cuisine: Option<string>)
    returns (res: Response<RestaurantListing>)
    ensures res == RestaurantList(restaurants, users, reviews, page, pageSize, status, keyword, cuisine)
  {
    var p := ListCondition(status, keyword, cuisine);
    var rows := ListPage(restaurants, p, NormalisePage(page), NormalisePageSize(pageSize));
    var views := ConvertPage(rows, users, reviews);
    if views.Throws? {
      return Error(500, views.reason);
    }
    res := SuccessWith(Some(RestaurantListing(CountWhere(restaurants, p), views.v)), Retrieved);
  }

  /** The list holds at most one page of matching rows, in table order, each
    * shown with its photos, status name and review count and not yet marked
    * as a favourite; total counts every matching row; the request fails
    * exactly when a row on the page has a null coordinate or no owner. */
  lemma RestaurantListSound(restaurants: seq<Restaurant>, users: seq<User>, reviews: seq<Review>,
                            page: Option<int>, pageSize: Option<int>, status: Option<int>,
                            keyword: Option<string>, cuisine: Option<string>)
    ensures var p := ListCondition(status, keyword, cuisine);
            var rows := ListPage(restaurants, p, NormalisePage(page), NormalisePageSize(pageSize));
            var res := RestaurantList(restaurants, users, reviews, page, pageSize, status, keyword, cuisine);
      && (IsSuccess(res) <==> forall x :: x in rows ==> Convertible(x, users))
      && (!IsSuccess(res) ==> res.code == Some(500))
      && (IsSuccess(res) ==>
            && res.data.Some? && res.data.value.total == CountWhere(restaurants, p)
            && |res.data.value.list| == |rows| <= NormalisePageSize(pageSize)
            && forall i :: 0 <= i < |rows| ==>
                 var v := res.data.value.list[i];
                 && v.restaurant == rows[i] && rows[i] in restaurants && p(rows[i])
                 && v.photos == PipeList(rows[i].photos) && v.status == StatusName(Some(rows[i].status))
                 && !v.isFavorite)
  {
    ListResponseSound(restaurants, users, reviews, ListCondition(status, keyword, cuisine),
                      NormalisePage(page), NormalisePageSize(pageSize));
  }

  /** The same for any condition p and page. */
  lemma ListResponseSound(restaurants: seq<Restaurant>, users: seq<User>, reviews: seq<Review>,
                          p: Restaurant -> bool, page: int, size: int)
    requires size >= 1
    ensures var rows := ListPage(restaurants, p, page, size);
            var res := ListResponse(restaurants, users, reviews, p, page, size);
      && (IsSuccess(res) <==> forall x :: x in rows ==> Convertible(x, users))
      && (!IsSuccess(res) ==> res.code == Some(500))
      && (IsSuccess(res) ==>
            && res.data.Some? && res.data.value.total == CountWhere(restaurants, p)
            && |res.data.value.list| == |rows| <= size
            && forall i :: 0 <= i < |rows| ==>
                 var v := res.data.value.list[i];
                 && v.restaurant == rows[i] && rows[i] in restaurants && p(rows[i])
                 && v.photos == PipeList(rows[i].photos) && v.status == StatusName(Some(rows[i].status))
                 && !v.isFavorite)
  {
    var rows := ListPage(restaurants, p, page, size);
    ToViewsSucceedsIff(rows, users, reviews);
    assert forall i :: 0 <= i < |rows| ==> rows[i] in rows;
  }

  /** The favourite marks getRestaurantListWithFavorite puts on a listing. */
  function MarkFavorites(res: Response<RestaurantListing>, userId: Option<int>, isFavorite: FavoriteCheck): Response<RestaurantListing> {
    if userId.Some? && res.code == Some(200) && res.data.Some? then
      res.(data := Some(res.data.value.(list := Marked(res.data.value.list, userId.value, isFavorite))))
    else res
  }

  /** Each view with the diner's favourite flag for its restaurant. */
  function Marked(list: seq<RestaurantView>, userId: int, isFavorite: FavoriteCheck): seq<RestaurantView> {
    seq(|list|, i requires 0 <= i < |list| => list[i].(isFavorite := isFavorite(userId, list[i].restaurant.id)))
  }

  /** The loop setting each view's favourite flag in turn. */
  method MarkList(list: seq<RestaurantView>, userId: int, isFavorite: FavoriteCheck) returns (marked: seq<RestaurantView>)
    ensures |marked| == |list|
    ensures forall k :: 0 <= k < |list| ==>
      marked[k].isFavorite == isFavorite(userId, list[k].restaurant.id) && marked[k].(isFavorite := list[k].isFavorite) == list[k]
    ensures marked == Marked(list, userId, isFavorite)
  {
    marked := list;
    var i := 0;
    while i < |list|
      invariant 0 <= i <= |list| && |marked| == |list|
      invariant forall k :: 0 <= k < i ==> marked[k] == list[k].(isFavorite := isFavorite(userId, list[k].restaurant.id))
      invariant forall k :: i <= k < |list| ==> marked[k] == list[k]
    {
      marked := marked[i := list[i].(isFavorite := isFavorite(userId, list[i].restaurant.id))];
      i := i + 1;
    }
  }

  /** getRestaurantListWithFavorite: the list, then a loop setting each
    * view's favourite flag when a diner is given and the list succeeded. */
  method GetRestaurantListWithFavorite(restaurants: seq<Restaurant>, users: seq<User>, reviews: seq<Review>,
                                       page: Option<int>, pageSize: Option<int>, status: Option<int>,
                                       keyword: Option<string>, cuisine: Option<string>,
                                       userId: Option<int>, isFavorite: FavoriteCheck)
    returns (res: Response<RestaurantListing>)
    ensures res == MarkFavorites(RestaurantList(restaurants, users, reviews, page, pageSize, status, keyword, cuisine),
                                 userId, isFavorite)
  {
    res := GetRestaurantList(restaurants, users, reviews, page, pageSize, status, keyword, cuisine);
    if userId.Some? && res.code == Some(200) && res.data.Some? {
      var marked := MarkList(res.data.value.list, userId.value, isFavorite);
      res := res.(data := Some(res.data.value.(list := marked)));
    }
  }

  /** Marking favourites changes the favourite flags and nothing else; with
    * a diner each flag is that diner's favourite relation, without one every
    * flag stays false. */
  lemma MarkFavoritesOnlyFlags(restaurants: seq<Restaurant>, users: seq<User>, reviews: seq<Review>,
                               page: Option<int>, pageSize: Option<int>, status: Option<int>,
                               keyword: Option<string>, cuisine: Option<string>,
                               userId: Option<int>, isFavorite: FavoriteCheck)
    ensures var base := RestaurantList(restaurants, users, reviews, page, pageSize, status, keyword, cuisine);
            var res := MarkFavorites(base, userId, isFavorite);
      && res.code == base.code && res.message == base.message && (res.data.Some? <==> base.data.Some?)
      && (res.data.Some? ==>
            && res.data.value.total == base.data.value.total
            && |res.data.value.list| == |base.data.value.list|
            && forall i :: 0 <= i < |res.data.value.list| ==>
                 var v := res.data.value.list[i];
                 && v.(isFavorite := false) == base.data.value.list[i]
                 && v.isFavorite == (userId.Some? && isFavorite(userId.value, v.restaurant.id)))
  {
    RestaurantListSound(restaurants, users, reviews, page, pageSize, status, keyword, cuisine);
  }

  // ---------------------------------------------------------------- cuisines

  /** The cuisine column of every row, blank ones left out, in table order. */
  function CuisinesWithText(restaurants: seq<Restaurant>): (r: seq<string>)
    ensures forall c :: c in r <==> exists x :: x in restaurants && x.cuisine == Some(c) && HasText(Some(c))
  {
    if restaurants == [] then []
    else
      var rest := CuisinesWithText(restaurants[1..]);
      assert forall x :: x in restaurants <==> x == restaurants[0] || x in restaurants[1..];
      if HasText(restaurants[0].cuisine) then [restaurants[0].cuisine.value] + rest else rest
  }

  /** getCuisineList. */
  function GetCuisineList(restaurants: seq<Restaurant>): Response<seq<string>> {
    SuccessWith(Some(Distinct(CuisinesWithText(restaurants))), Retrieved)
  }

  /** Every cuisine with text is listed once, and in the order of its first
    * appearance in the table. */
  lemma CuisineListOnceEach(restaurants: seq<Restaurant>)
    ensures var r := GetCuisineList(restaurants);
            var cuisines := CuisinesWithText(restaurants);
      && IsSuccess(r) && r.data.Some?
      && NoDuplicates(r.data.value)
      && (forall c :: c in r.data.value <==> exists x :: x in restaurants && x.cuisine == Some(c) && HasText(Some(c)))
      && (forall i, j :: 0 <= i < j < |r.data.value| ==>
            FirstIndex(cuisines, r.data.value[i]) < FirstIndex(cuisines, r.data.value[j]))
  {
    DistinctKeepsFirstAppearanceOrder(CuisinesWithText(restaurants));
  }

  // ---------------------------------------------------------------- details

  const DetailFailure: string := "Failed to retrieve restaurant details: "

  /** The detail view of the restaurant with that id, its tables attached. */
  function Detail(restaurants: seq<Restaurant>, users: seq<User>, reviews: seq<Review>, tables: seq<Table>,
                  id: int): Except<Response<RestaurantView>>
  {
    match SelectById(restaurants, RestaurantId, id)
    case None => Value(NotFound())
    case Some(r) =>
      match ToView(r, users, reviews)
      case Throws(reason) => Throws(reason)
      case Value(v) => Value(SuccessWith(Some(v.(tables := Some(GetRestaurantTables(tables, id)))), Retrieved))
  }

  /** getRestaurantDetail: a null id is a 400, an unknown one a 404, and an
    * exception a 500 carrying its message. */
  function GetRestaurantDetail(restaurants: seq<Restaurant>, users: seq<User>, reviews: seq<Review>, tables: seq<Table>,
                               id: Option<int>): (res: Response<RestaurantView>)
    ensures id.None? ==> res.code == Some(400)
    ensures id.Some? && SelectById(restaurants, RestaurantId, id.value).None? ==> res.code == Some(404)
    ensures id.Some? && SelectById(restaurants, RestaurantId, id.value).Some? ==>
      var r := SelectById(restaurants, RestaurantId, id.value).value;
      && (IsSuccess(res) <==> Convertible(r, users))
      && (!Convertible(r, users) ==> res == Error(500, DetailFailure + ToView(r, users, reviews).reason))
      && (Convertible(r, users) ==>
            && res.message == Retrieved
            && res.data == Some(ToView(r, users, reviews).v.(tables := Some(GetRestaurantTables(tables, id.value)))))
    ensures IsSuccess(res) ==>
      && id.Some? && res.data.Some?
      && Some(res.data.value.restaurant) == SelectById(restaurants, RestaurantId, id.value)
      && res.data.value.tables == Some(GetRestaurantTables(tables, id.value))
      && !res.data.value.isFavorite
  {
    if id.None? then ValidateFailed("Restaurant ID cannot be empty")
    else CatchAll(Detail(restaurants, users, reviews, tables, id.value), DetailFailure)
  }

  /** getRestaurantDetailWithFavorite: also refuses a null diner, and marks
    * whether the diner has the restaurant among their favourites. */
  function GetRestaurantDetailWithFavorite(restaurants: seq<Restaurant>, users: seq<User>, reviews: seq<Review>,
                                           tables: seq<Table>, id: Option<int>, userId: Option<int>,
                                           isFavorite: FavoriteCheck): Response<RestaurantView>
  {
    if id.None? then ValidateFailed("Restaurant ID cannot be empty")
    else if userId.None? then ValidateFailed("User ID cannot be empty")
    else
      var res := CatchAll(Detail(restaurants, users, reviews, tables, id.value), DetailFailure);
      if IsSuccess(res) && res.data.Some? then
        res.(data := Some(res.data.value.(isFavorite := isFavorite(userId.value, id.value))))
      else res
  }

  /** With a diner the favourite detail is the plain detail with the flag
    * set to the diner's favourite relation; without one it is refused with
    * a 400 even where the plain detail succeeds. */
  lemma DetailWithFavoriteAgrees(restaurants: seq<Restaurant>, users: seq<User>, reviews: seq<Review>,
                                 tables: seq<Table>, id: Option<int>, userId: Option<int>, isFavorite: FavoriteCheck)
    ensures var plain := GetRestaurantDetail(restaurants, users, reviews, tables, id);
            var marked := GetRestaurantDetailWithFavorite(restaurants, users, reviews, tables, id, userId, isFavorite);
      && (userId.None? ==> marked.code == Some(400) && !IsSuccess(marked))
      && (userId.Some? ==>
            && marked.code == plain.code && marked.message == plain.message
            && (IsSuccess(marked) <==> IsSuccess(plain))
            && (IsSuccess(plain) ==>
                  marked.data == Some(plain.data.value.(isFavorite := isFavorite(userId.value, id.value)))))
  {
  }
}
