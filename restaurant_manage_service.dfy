// Restaurant management in the back office: listing, adding, partial
// updates, deletion and status changes, each change allowed to an
// administrator on any restaurant and otherwise only to the owner; the
// manager-role check on the caller's token; the status labels; and the
// photo list stored as one "|"-joined column.

module RestaurantManageService {
  import opened Common
  import opened JavaText
  import opened Query
  import opened Entities
  import opened Auth

  // ---------------------------------------------------------------- messages

  const NoManagerId: string := "Restaurant manager ID cannot be empty"
  const ListFailed: string := "Failed to get restaurant list: "
  const ManagerListFailed: string := "Failed to get manager's restaurant list: "

  // ---------------------------------------------------------------- statuses

  const RestaurantPendingReview: int := 0
  const RestaurantApproved: int := 1
  const RestaurantClosed: int := 2
  const RestaurantOperating: int := 3

  /** getStatusText: the label of a restaurant status; null or any other
    * number is "Unknown". */
  function GetStatusText(status: Option<int>): (text: string)
    ensures text != "Unknown" <==> status.Some? && RestaurantPendingReview <= status.value <= RestaurantOperating
  {
    if status.None? then "Unknown"
    else if status.value == RestaurantPendingReview then "Pending Review"
    else if status.value == RestaurantApproved then "Approved"
    else if status.value == RestaurantClosed then "Closed"
    else if status.value == RestaurantOperating then "Operating"
    else "Unknown"
  }

  /** The status a label names, the inverse of GetStatusText on 0..3. */
  function StatusOfText(text: string): (s: Option<int>)
    ensures s.Some? ==> RestaurantPendingReview <= s.value <= RestaurantOperating
  {
    if text == "Pending Review" then Some(RestaurantPendingReview)
    else if text == "Approved" then Some(RestaurantApproved)
    else if text == "Closed" then Some(RestaurantClosed)
    else if text == "Operating" then Some(RestaurantOperating)
    else None
  }

  /** The four labels are distinct: a label determines its status. */
  lemma StatusTextRoundTrip(status: int)
    requires RestaurantPendingReview <= status <= RestaurantOperating
    ensures StatusOfText(GetStatusText(Some(status))) == Some(status)
  {
  }

  // ---------------------------------------------------------------- photos

  /** The photos column written from a submitted list: the list joined with
    * "|" when it is non-null and non-empty, otherwise the column as it was. */
  function PhotosColumn(photos: Option<seq<string>>, current: Option<string>): Option<string> {
    if photos.Some? && photos.value != [] then Some(Join(photos.value, '|')) else current
  }

  /** The photo list of a view: a non-empty column split on "|", otherwise
    * no list. */
  function PhotoList(column: Option<string>): Option<seq<string>> {
    if column.Some? && column.value != "" then Some(Split(column.value, '|')) else None
  }

  /** A non-empty list of non-empty photo names without "|" is read back as
    * written. */
  lemma PhotosRoundTrip(photos: seq<string>, current: Option<string>)
    requires photos != []
    requires forall i :: 0 <= i < |photos| ==> photos[i] != "" && '|' !in photos[i]
    ensures PhotoList(PhotosColumn(Some(photos), current)) == Some(photos)
  {
    var joined := Join(photos, '|');
    if |photos| > 1 {
      assert joined[0] == photos[0][0];
    }
    assert joined != "";
    SplitJoinRoundTrip(photos, '|');
  }

  /** A photo name holding "|" comes back as two names. */
  lemma PipeInPhotoNameSplits()
    ensures PhotoList(PhotosColumn(Some(["a|b"]), None)) == Some(["a", "b"])
  {
    var s := "a|b";
    assert Join(["a|b"], '|') == s;
    assert s[1] == '|';
    assert s[1..][1..] == "b";
    SplitAllNoSep("b", '|');
    assert SplitAll(s[1..], '|') == ["", "b"];
    assert s[0] == 'a' && s[0] != '|';
    assert ['a'] + "" == "a";
    assert SplitAll(s, '|') == [['a'] + SplitAll(s[1..], '|')[0]] + SplitAll(s[1..], '|')[1..];
    assert '|' in s;
    assert ["a", "b"][1] == "b" != [];
    assert DropTrailingEmpty(["a", "b"]) == ["a", "b"];
    assert Split(s, '|') == ["a", "b"];
  }

  // ---------------------------------------------------------------- views

  /** RestaurantVO: the row, its photo list and the owner's name. */
  datatype RestaurantView = RestaurantView(restaurant: Restaurant, photoList: Option<seq<string>>, ownerName: Option<string>)

  /** The name of the user with that id, if there is one. */
  function OwnerName(users: seq<User>, ownerId: int): Option<string> {
    match SelectById(users, UserId, ownerId)
    case None => None
    case Some(u) => u.name
  }

  /** convertToVO, with the owner's name looked up. */
  function ToView(r: Restaurant, users: seq<User>): (v: RestaurantView)
    ensures v.restaurant == r && v.photoList == PhotoList(r.photos)
    ensures v.ownerName.Some? ==> exists u :: u in users && u.id == r.ownerId && u.name == v.ownerName
    ensures (forall u :: u in users ==> u.id != r.ownerId) ==> v.ownerName.None?
  {
    RestaurantView(r, PhotoList(r.photos), OwnerName(users, r.ownerId))
  }

  // ---------------------------------------------------------------- listings

  datatype RestaurantListing = RestaurantListing(total: int, list: seq<RestaurantView>)

  /** The rows behind a list of views. */
  function RowsOfViews(views: seq<RestaurantView>): (rows: seq<Restaurant>)
    ensures |rows| == |views|
    ensures forall i :: 0 <= i < |views| ==> rows[i] == views[i].restaurant
  {
    seq(|views|, i requires 0 <= i < |views| => views[i].restaurant)
  }

  /** `status = s` when the status is non-null. */
  predicate StatusMatches(r: Restaurant, status: Option<int>) {
    status.None? || r.status == status.value
  }

  /** getRestaurantList's condition as its wrapper builds it:
    * `name LIKE %k% OR address LIKE %k% AND status = s`. AND binds tighter
    * than OR, so a restaurant whose name matches is listed whatever its
    * status. */
  function AdminListCondition(keyword: Option<string>, status: Option<int>): Restaurant -> bool {
    (r: Restaurant) => AdminListMatches(r, keyword, status)
  }
  predicate AdminListMatches(r: Restaurant, keyword: Option<string>, status: Option<int>) {
    if NullOrEmpty(keyword) then StatusMatches(r, status)
    else Contains(r.name, keyword.value) || (Contains(r.address, keyword.value) && StatusMatches(r, status))
  }

  /** The keyword and status filters with the keyword part grouped, as
    * getManagerRestaurantList builds it: `(name LIKE %k% OR address LIKE
    * %k%) AND status = s`. */
  function ListCondition(keyword: Option<string>, status: Option<int>): Restaurant -> bool {
    (r: Restaurant) =>
      (NullOrEmpty(keyword) || Contains(r.name, keyword.value) || Contains(r.address, keyword.value))
      && StatusMatches(r, status)
  }

  /** The grouped filter is the admin list's filter with the status test
    * applied to every row: the two agree whenever the keyword is empty or
    * no status is asked for. */
  lemma GroupedIsAdminConditionWithStatus(keyword: Option<string>, status: Option<int>, r: Restaurant)
    ensures ListCondition(keyword, status)(r) <==> AdminListCondition(keyword, status)(r) && StatusMatches(r, status)
    ensures NullOrEmpty(keyword) || status.None? ==>
      (ListCondition(keyword, status)(r) <==> AdminListCondition(keyword, status)(r))
  {
  }

  /** A pending restaurant whose name matches the keyword passes the admin
    * list's filter for approved restaurants. */
  lemma AdminListIgnoresStatusOnNameMatch()
    ensures var r := Restaurant(1, 1, "Pizza Place", None, "Main Street", None, None, None, None, None,
                                RestaurantPendingReview, None, None, 0, 0);
      && AdminListCondition(Some("Pizza"), Some(RestaurantApproved))(r)
      && !ListCondition(Some("Pizza"), Some(RestaurantApproved))(r)
  {
    var name := "Pizza Place";
    assert "Pizza" <= name[0..];
  }

  /** The grouped filter restricted to restaurants with owner_id = managerId. */
  function ManagerListCondition(managerId: int, keyword: Option<string>, status: Option<int>): Restaurant -> bool {
    (r: Restaurant) => r.ownerId == managerId && ListCondition(keyword, status)(r)
  }

  /** getRestaurantList: page and size normalised; the count of every match
    * and the page of matches, highest id first, each with its owner's name.
    * Only an int overflow of the offset makes the query fail. */
  method GetRestaurantList(restaurants: seq<Restaurant>, users: seq<User>, page: Option<int>, pageSize: Option<int>,
                           keyword: Option<string>, status: Option<int>)
    returns (res: Response<RestaurantListing>)
    ensures var size := NormalisePageSize(pageSize);
            var offset := Offset(NormalisePage(page), size);
            var cond := AdminListCondition(keyword, status);
      && (IsSuccess(res) <==> offset >= 0)
      && (!IsSuccess(res) ==> res == Error(500, ListFailed + NegativeOffset))
      && (IsSuccess(res) ==>
            && res.message == "Retrieved successfully" && res.data.Some?
            && res.data.value.total == CountWhere(restaurants, cond)
            && RowsOfViews(res.data.value.list) == SelectPageDesc(restaurants, cond, RestaurantId, offset, size).v
            && |res.data.value.list| <= size
            && forall v :: v in res.data.value.list ==>
                 v == ToView(v.restaurant, users) && v.restaurant in restaurants && cond(v.restaurant))
  {
    var size := NormalisePageSize(pageSize);
    var offset := Offset(NormalisePage(page), size);
    var cond := AdminListCondition(keyword, status);
    var total := CountWhere(restaurants, cond);
    var rows := SelectPageDesc(restaurants, cond, RestaurantId, offset, size);
    if rows.Throws? {
      return Error(500, ListFailed + rows.reason);
    }
    SelectPageDescRowsMatch(restaurants, cond, RestaurantId, offset, size);
    var view := (r: Restaurant) => ToView(r, users);
    var views := ConvertAll(rows.v, view);
    ViewsOfRows(rows.v, views, restaurants, view, cond);
    res := SuccessWith(Some(RestaurantListing(total, views)), "Retrieved successfully");
  }

  /** getManagerRestaurantList: as the full list with the grouped filter,
    * restricted to the manager's own restaurants; a null manager is refused.
    * Every view carries the manager's name. */
  method GetManagerRestaurantList(restaurants: seq<Restaurant>, users: seq<User>, page: Option<int>, pageSize: Option<int>,
                                  keyword: Option<string>, status: Option<int>, managerId: Option<int>)
    returns (res: Response<RestaurantListing>)
    ensures managerId.None? ==> res == ValidateFailed(NoManagerId)
    ensures managerId.Some? ==>
      var size := NormalisePageSize(pageSize);
      var offset := Offset(NormalisePage(page), size);
      var cond := ManagerListCondition(managerId.value, keyword, status);
      && (IsSuccess(res) <==> offset >= 0)
      && (!IsSuccess(res) ==> res == Error(500, ManagerListFailed + NegativeOffset))
      && (IsSuccess(res) ==>
            && res.message == "Retrieved successfully" && res.data.Some?
            && res.data.value.total == CountWhere(restaurants, cond)
            && RowsOfViews(res.data.value.list) == SelectPageDesc(restaurants, cond, RestaurantId, offset, size).v
            && |res.data.value.list| <= size
            && forall v :: v in res.data.value.list ==>
                 && v == ManagerView(v.restaurant, users, managerId.value)
                 && v.restaurant in restaurants && v.restaurant.ownerId == managerId.value
                 && ListCondition(keyword, status)(v.restaurant))
  {
    if managerId.None? {
      return ValidateFailed(NoManagerId);
    }
    var size := NormalisePageSize(pageSize);
    var offset := Offset(NormalisePage(page), size);
    var cond := ManagerListCondition(managerId.value, keyword, status);
    var total := CountWhere(restaurants, cond);
    var rows := SelectPageDesc(restaurants, cond, RestaurantId, offset, size);
    if rows.Throws? {
      return Error(500, ManagerListFailed + rows.reason);
    }
    SelectPageDescRowsMatch(restaurants, cond, RestaurantId, offset, size);
    var view := (r: Restaurant) => ManagerView(r, users, managerId.value);
    var views := ConvertAll(rows.v, view);
    ViewsOfRows(rows.v, views, restaurants, view, cond);
    res := SuccessWith(Some(RestaurantListing(total, views)), "Retrieved successfully");
  }

  /** `manager != null ? manager.getName() : ""`: the manager's name, which
    * may itself be null, or "" when there is no such user. */
  function ManagerName(users: seq<User>, managerId: int): (name: Option<string>)
    ensures SelectById(users, UserId, managerId).None? ==> name == Some("")
    ensures SelectById(users, UserId, managerId).Some? ==> name == SelectById(users, UserId, managerId).value.name
  {
    match SelectById(users, UserId, managerId)
    case None => Some("")
    case Some(u) => u.name
  }

  /** A manager-list view: convertToVO with the manager's name set. */
  function ManagerView(r: Restaurant, users: seq<User>, managerId: int): (v: RestaurantView)
    ensures v.restaurant == r && v.photoList == PhotoList(r.photos) && v.ownerName == ManagerName(users, managerId)
  {
    RestaurantView(r, PhotoList(r.photos), ManagerName(users, managerId))
  }

  /** The views of a page whose rows all satisfy p, one per row in order. */
  lemma ViewsOfRows(page: seq<Restaurant>, views: seq<RestaurantView>, restaurants: seq<Restaurant>,
                    view: Restaurant -> RestaurantView, p: Restaurant -> bool)
    requires |views| == |page| && forall i :: 0 <= i < |page| ==> views[i] == view(page[i])
    requires forall i :: 0 <= i < |page| ==> view(page[i]).restaurant == page[i]
    requires forall x :: x in page ==> x in restaurants && p(x)
    ensures RowsOfViews(views) == page
    ensures forall v :: v in views ==> v == view(v.restaurant) && v.restaurant in restaurants && p(v.restaurant)
  {
    assert RowsOfViews(views) == page;
    forall v | v in views ensures v == view(v.restaurant) && v.restaurant in restaurants && p(v.restaurant) {
      var i :| 0 <= i < |views| && views[i] == v;
      assert page[i] in page;
    }
  }

  /** getRestaurantDetail: a null id or an unknown restaurant is refused; a
    * known one is returned as its view, with its owner's name. */
  function GetRestaurantDetail(restaurants: seq<Restaurant>, users: seq<User>, id: Option<int>): (res: Response<RestaurantView>)
    ensures id.None? ==> res == ValidateFailed("Restaurant ID cannot be empty")
    ensures id.Some? && SelectById(restaurants, RestaurantId, id.value).None? ==> res == ValidateFailed("Restaurant not found")
    ensures id.Some? && SelectById(restaurants, RestaurantId, id.value).Some? ==>
      res == SuccessWith(Some(ToView(SelectById(restaurants, RestaurantId, id.value).value, users)), "Retrieved successfully")
    ensures IsSuccess(res) ==> res.data.Some? && res.data.value.restaurant in restaurants && res.data.value.restaurant.id == id.value
  {
    if id.None? then ValidateFailed("Restaurant ID cannot be empty")
    else match SelectById(restaurants, RestaurantId, id.value)
      case None => ValidateFailed("Restaurant not found")
      case Some(r) => SuccessWith(Some(ToView(r, users)), "Retrieved successfully")
  }

  // ---------------------------------------------------------------- changes

  /** The submitted RestaurantVO fields the service reads. */
  datatype RestaurantForm = RestaurantForm(
    name: Option<string>, description: Option<string>, address: Option<string>,
    longitude: Option<real>, latitude: Option<real>, phone: Option<string>,
    businessLicense: Option<string>, businessHours: Option<string>, cuisine: Option<string>,
    photos: Option<seq<string>>)

  /** `user.getRole() != 0 && !userId.equals(restaurant.getOwnerId())`, negated:
    * an administrator may change any restaurant, anyone else only their own. */
  predicate MayManage(user: User, restaurant: Restaurant) {
    user.role == RoleAdmin || user.id == restaurant.ownerId
  }

  /** The row addRestaurant inserts. */
  function NewRestaurant(form: RestaurantForm, id: int, ownerId: int, now: int): (r: Restaurant)
    requires form.name.Some? && form.address.Some?
    ensures r.id == id && r.ownerId == ownerId && r.status == RestaurantPendingReview
    ensures r.createdAt == now && r.updatedAt == now
    ensures r.name == form.name.value && r.address == form.address.value
    ensures r.longitude == form.longitude && r.latitude == form.latitude
    ensures r.photos == PhotosColumn(form.photos, None)
  {
    Restaurant(id, ownerId, form.name.value, form.description, form.address.value, form.longitude, form.latitude,
               form.phone, form.businessLicense, PhotosColumn(form.photos, None), RestaurantPendingReview,
               form.businessHours, form.cuisine, now, now)
  }

  /** addRestaurant: a name and an address are required and the caller must
    * exist; the new restaurant awaits review and belongs to the caller. */
  function AddRestaurant(restaurants: seq<Restaurant>, users: seq<User>, nextId: int, form: RestaurantForm,
                         userId: Option<int>, now: int): (Response<RestaurantView>, seq<Restaurant>)
  {
    if NullOrEmpty(form.name) || NullOrEmpty(form.address) then
      (ValidateFailed("Restaurant name and address cannot be empty"), restaurants)
    else if userId.None? || SelectById(users, UserId, userId.value).None? then
      (ValidateFailed("User not found"), restaurants)
    else
      var r := NewRestaurant(form, nextId, userId.value, now);
      (SuccessWith(Some(RestaurantView(r, PhotoList(r.photos), SelectById(users, UserId, userId.value).value.name)),
                   "Added successfully"),
       restaurants + [r])
  }

  /** The text fields updateRestaurant copies: only a non-empty value counts. */
  function Supplied(value: Option<string>, current: string): string {
    if NullOrEmpty(value) then current else value.value
  }
  function SuppliedOpt(value: Option<string>, current: Option<string>): Option<string> {
    if NullOrEmpty(value) then current else value
  }

  /** The row after updateRestaurant: each text field replaced when supplied
    * non-empty, the description whenever non-null, the photos when a
    * non-empty list is supplied; id, owner, status and creation time kept. */
  function Revised(r: Restaurant, form: RestaurantForm, now: int): (t: Restaurant)
    ensures t.id == r.id && t.ownerId == r.ownerId && t.status == r.status && t.createdAt == r.createdAt
    ensures t.updatedAt == now
    ensures !NullOrEmpty(form.name) ==> t.name == form.name.value
    ensures NullOrEmpty(form.name) ==> t.name == r.name
    ensures !NullOrEmpty(form.address) ==> t.address == form.address.value
    ensures NullOrEmpty(form.address) ==> t.address == r.address
    ensures form.description.Some? ==> t.description == form.description
    ensures form.description.None? ==> t.description == r.description
    ensures form.longitude.Some? ==> t.longitude == form.longitude
    ensures form.longitude.None? ==> t.longitude == r.longitude
    ensures form.latitude.Some? ==> t.latitude == form.latitude
    ensures form.latitude.None? ==> t.latitude == r.latitude
    ensures !NullOrEmpty(form.phone) ==> t.phone == form.phone
    ensures NullOrEmpty(form.phone) ==> t.phone == r.phone
    ensures !NullOrEmpty(form.businessLicense) ==> t.businessLicense == form.businessLicense
    ensures NullOrEmpty(form.businessLicense) ==> t.businessLicense == r.businessLicense
    ensures !NullOrEmpty(form.businessHours) ==> t.businessHours == form.businessHours
    ensures NullOrEmpty(form.businessHours) ==> t.businessHours == r.businessHours
    ensures !NullOrEmpty(form.cuisine) ==> t.cuisine == form.cuisine
    ensures NullOrEmpty(form.cuisine) ==> t.cuisine == r.cuisine
    ensures form.photos.Some? && form.photos.value != [] ==> t.photos == Some(Join(form.photos.value, '|'))
    ensures form.photos.None? || form.photos.value == [] ==> t.photos == r.photos
  {
    r.(name := Supplied(form.name, r.name),
       description := if form.description.Some? then form.description else r.description,
       address := Supplied(form.address, r.address),
       longitude := if form.longitude.Some? then form.longitude else r.longitude,
       latitude := if form.latitude.Some? then form.latitude else r.latitude,
       phone := SuppliedOpt(form.phone, r.phone),
       businessLicense := SuppliedOpt(form.businessLicense, r.businessLicense),
       businessHours := SuppliedOpt(form.businessHours, r.businessHours),
       cuisine := SuppliedOpt(form.cuisine, r.cuisine),
       photos := PhotosColumn(form.photos, r.photos),
       updatedAt := now)
  }

  /** The field-by-field copy of updateRestaurant. */
  method ApplyForm(r: Restaurant, form: RestaurantForm, now: int) returns (t: Restaurant)
    ensures t == Revised(r, form, now)
  {
    var name, description, address, longitude, latitude := r.name, r.description, r.address, r.longitude, r.latitude;
    var phone, license, hours, cuisine, photos := r.phone, r.businessLicense, r.businessHours, r.cuisine, r.photos;
    if !NullOrEmpty(form.name) { name := form.name.value; }
    if form.description.Some? { description := form.description; }
    if !NullOrEmpty(form.address) { address := form.address.value; }
    if form.longitude.Some? { longitude := form.longitude; }
    if form.latitude.Some? { latitude := form.latitude; }
    if !NullOrEmpty(form.phone) { phone := form.phone; }
    if !NullOrEmpty(form.businessLicense) { license := form.businessLicense; }
    if !NullOrEmpty(form.businessHours) { hours := form.businessHours; }
    if !NullOrEmpty(form.cuisine) { cuisine := form.cuisine; }
    if form.photos.Some? && form.photos.value != [] { photos := Some(Join(form.photos.value, '|')); }
    assert name == Supplied(form.name, r.name) && address == Supplied(form.address, r.address);
    assert phone == SuppliedOpt(form.phone, r.phone) && license == SuppliedOpt(form.businessLicense, r.businessLicense);
    assert hours == SuppliedOpt(form.businessHours, r.businessHours) && cuisine == SuppliedOpt(form.cuisine, r.cuisine);
    assert photos == PhotosColumn(form.photos, r.photos);
    t := r.(name := name, description := description, address := address, longitude := longitude, latitude := latitude,
            phone := phone,
            businessLicense := license, businessHours := hours, cuisine := cuisine, photos := photos,
            updatedAt := now);
  }

  /** An empty form changes nothing but the update time. */
  lemma EmptyFormOnlyStamps(r: Restaurant, now: int)
    ensures Revised(r, RestaurantForm(None, None, None, None, None, None, None, None, None, None), now) == r.(updatedAt := now)
  {
  }

  /** The checks shared by update, delete and status change, in their order:
    * a null id, an unknown restaurant, an unknown caller, and a caller who is
    * neither an administrator nor the owner. None means the change may go ahead. */
  function ChangeRefusal(restaurants: seq<Restaurant>, users: seq<User>, id: Option<int>, userId: Option<int>,
                         forbidden: string): (refusal: Option<Response<Void>>)
    ensures refusal.None? <==>
      && id.Some? && SelectById(restaurants, RestaurantId, id.value).Some?
      && userId.Some? && SelectById(users, UserId, userId.value).Some?
      && MayManage(SelectById(users, UserId, userId.value).value, SelectById(restaurants, RestaurantId, id.value).value)
    ensures refusal.Some? ==> !IsSuccess(refusal.value) && refusal.value.data.None?
  {
    if id.None? then Some(ValidateFailed("Restaurant ID cannot be empty"))
    else if SelectById(restaurants, RestaurantId, id.value).None? then Some(ValidateFailed("Restaurant not found"))
    else if userId.None? || SelectById(users, UserId, userId.value).None? then Some(ValidateFailed("User not found"))
    else if !MayManage(SelectById(users, UserId, userId.value).value, SelectById(restaurants, RestaurantId, id.value).value) then
      Some(ForbiddenWith(forbidden))
    else None
  }

  const UpdateForbidden: string := "No permission to modify restaurants created by others"
  const DeleteForbidden: string := "No permission to delete restaurants created by others"
  const StatusForbidden: string := "No permission to update status of restaurants created by others"

  /** updateRestaurant. */
  function UpdateRestaurant(restaurants: seq<Restaurant>, users: seq<User>, id: Option<int>, form: RestaurantForm,
                            userId: Option<int>, now: int): (Response<RestaurantView>, seq<Restaurant>)
  {
    match ChangeRefusal(restaurants, users, id, userId, UpdateForbidden)
    case Some(refusal) => (Retype(refusal), restaurants)
    case None =>
      var i := IndexOf(restaurants, RestaurantId, id.value).value;
      var t := Revised(restaurants[i], form, now);
      (SuccessWith(Some(ToView(t, users)), "Updated successfully"), restaurants[i := t])
  }

  /** deleteRestaurant. */
  function DeleteRestaurant(restaurants: seq<Restaurant>, users: seq<User>, id: Option<int>, userId: Option<int>)
    : (Response<Void>, seq<Restaurant>)
  {
    match ChangeRefusal(restaurants, users, id, userId, DeleteForbidden)
    case Some(refusal) => (refusal, restaurants)
    case None =>
      var i := IndexOf(restaurants, RestaurantId, id.value).value;
      (SuccessWith(None, "Deleted successfully"), restaurants[..i] + restaurants[i + 1..])
  }

  /** The data updateRestaurantStatus returns. */
  datatype StatusUpdate = StatusUpdate(id: int, status: int, statusText: string)

  /** updateRestaurantStatus: the status must be 0..3, checked before the
    * restaurant is looked up. */
  function UpdateRestaurantStatus(restaurants: seq<Restaurant>, users: seq<User>, id: Option<int>, status: Option<int>,
                                  userId: Option<int>, now: int): (Response<StatusUpdate>, seq<Restaurant>)
  {
    if id.None? then (ValidateFailed("Restaurant ID cannot be empty"), restaurants)
    else if status.None? || status.value < RestaurantPendingReview || status.value > RestaurantOperating then
      (ValidateFailed("Invalid restaurant status"), restaurants)
    else match ChangeRefusal(restaurants, users, id, userId, StatusForbidden)
      case Some(refusal) => (Retype(refusal), restaurants)
      case None =>
        var i := IndexOf(restaurants, RestaurantId, id.value).value;
        var t := restaurants[i].(status := status.value, updatedAt := now);
        (SuccessWith(Some(StatusUpdate(t.id, status.value, GetStatusText(status))), "Status updated successfully"),
         restaurants[i := t])
  }

  /** Only an administrator or the owner changes a restaurant: every refused
    * call leaves the table as it was, and a caller who is neither is told 403. */
  lemma {:induction false} OnlyOwnerOrAdminChanges(restaurants: seq<Restaurant>, users: seq<User>, k: nat,
                                                   form: RestaurantForm, status: Option<int>, u: nat, now: int)
    requires UniqueIds(restaurants, RestaurantId) && UniqueIds(users, UserId)
    requires k < |restaurants| && u < |users| && !MayManage(users[u], restaurants[k])
    ensures UpdateRestaurant(restaurants, users, Some(restaurants[k].id), form, Some(users[u].id), now)
            == (ForbiddenWith(UpdateForbidden), restaurants)
    ensures DeleteRestaurant(restaurants, users, Some(restaurants[k].id), Some(users[u].id))
            == (ForbiddenWith(DeleteForbidden), restaurants)
    ensures status.Some? && RestaurantPendingReview <= status.value <= RestaurantOperating ==>
      UpdateRestaurantStatus(restaurants, users, Some(restaurants[k].id), status, Some(users[u].id), now)
      == (ForbiddenWith(StatusForbidden), restaurants)
  {
    IndexOfUnique(restaurants, RestaurantId, restaurants[k].id, k);
    IndexOfUnique(users, UserId, users[u].id, u);
  }

  /** An administrator may update any restaurant, and the update keeps its
    * owner and status. */
  lemma {:induction false} AdminUpdatesAnyRestaurant(restaurants: seq<Restaurant>, users: seq<User>, k: nat,
                                                     form: RestaurantForm, u: nat, now: int)
    requires UniqueIds(restaurants, RestaurantId) && UniqueIds(users, UserId)
    requires k < |restaurants| && u < |users| && users[u].role == RoleAdmin
    ensures var (res, after) := UpdateRestaurant(restaurants, users, Some(restaurants[k].id), form, Some(users[u].id), now);
      && IsSuccess(res) && |after| == |restaurants|
      && after[k].ownerId == restaurants[k].ownerId && after[k].status == restaurants[k].status
      && forall j :: 0 <= j < |restaurants| && j != k ==> after[j] == restaurants[j]
  {
    IndexOfUnique(restaurants, RestaurantId, restaurants[k].id, k);
    IndexOfUnique(users, UserId, users[u].id, u);
  }

  /** A status outside 0..3 is refused before the lookup, whatever the id. */
  lemma StatusRangeCheckedFirst(restaurants: seq<Restaurant>, users: seq<User>, id: int, status: int,
                                userId: Option<int>, now: int)
    requires status < RestaurantPendingReview || status > RestaurantOperating
    ensures UpdateRestaurantStatus(restaurants, users, Some(id), Some(status), userId, now)
            == (ValidateFailed("Invalid restaurant status"), restaurants)
  {
  }

  /** A new restaurant awaits review, belongs to the caller and is appended. */
  lemma NewRestaurantPendingAndOwned(restaurants: seq<Restaurant>, users: seq<User>, nextId: int,
                                     form: RestaurantForm, userId: int, now: int)
    requires IsSuccess(AddRestaurant(restaurants, users, nextId, form, Some(userId), now).0)
    ensures var after := AddRestaurant(restaurants, users, nextId, form, Some(userId), now).1;
      && |after| == |restaurants| + 1 && after[..|restaurants|] == restaurants
      && after[|restaurants|].ownerId == userId && after[|restaurants|].status == RestaurantPendingReview
      && after[|restaurants|].id == nextId
      && form.name.Some? && form.name.value != "" && form.address.Some? && form.address.value != ""
  {
  }

  // ---------------------------------------------------------------- the store

  /** The restaurants table, written in place. */
  class RestaurantStore {
    var restaurants: seq<Restaurant>
    var nextId: int

    ghost predicate Valid()
      reads this
    {
      UniqueIds(restaurants, RestaurantId) && forall r :: r in restaurants ==> r.id < nextId
    }

    constructor()
      ensures Valid() && restaurants == [] && nextId == 1
    {
      restaurants := [];
      nextId := 1;
    }

    method Add(users: seq<User>, form: RestaurantForm, userId: Option<int>, now: int)
      returns (res: Response<RestaurantView>)
      requires Valid()
      modifies this
      ensures Valid()
      ensures (res, restaurants) == AddRestaurant(old(restaurants), users, old(nextId), form, userId, now)
      ensures nextId == if IsSuccess(res) then old(nextId) + 1 else old(nextId)
    {
      if NullOrEmpty(form.name) || NullOrEmpty(form.address) {
        return ValidateFailed("Restaurant name and address cannot be empty");
      }
      var user := if userId.None? then None else SelectById(users, UserId, userId.value);
      if user.None? {
        return ValidateFailed("User not found");
      }
      var r := NewRestaurant(form, nextId, userId.value, now);
      restaurants := restaurants + [r];
      nextId := nextId + 1;
      res := SuccessWith(Some(RestaurantView(r, PhotoList(r.photos), user.value.name)), "Added successfully");
    }

    method Update(users: seq<User>, id: Option<int>, form: RestaurantForm, userId: Option<int>, now: int)
      returns (res: Response<RestaurantView>)
      requires Valid()
      modifies this
      ensures Valid() && nextId == old(nextId)
      ensures (res, restaurants) == UpdateRestaurant(old(restaurants), users, id, form, userId, now)
    {
      var refusal := ChangeRefusal(restaurants, users, id, userId, UpdateForbidden);
      if refusal.Some? {
        return Retype(refusal.value);
      }
      var i := IndexOf(restaurants, RestaurantId, id.value).value;
      var r := ApplyForm(restaurants[i], form, now);
      restaurants := restaurants[i := r];
      assert forall x :: x in restaurants ==> x == r || x in old(restaurants);
      res := SuccessWith(Some(ToView(r, users)), "Updated successfully");
    }

    method Delete(users: seq<User>, id: Option<int>, userId: Option<int>)
      returns (res: Response<Void>)
      requires Valid()
      modifies this
      ensures Valid() && nextId == old(nextId)
      ensures (res, restaurants) == DeleteRestaurant(old(restaurants), users, id, userId)
    {
      var refusal := ChangeRefusal(restaurants, users, id, userId, DeleteForbidden);
      if refusal.Some? {
        return refusal.value;
      }
      var i := IndexOf(restaurants, RestaurantId, id.value).value;
      restaurants := restaurants[..i] + restaurants[i + 1..];
      assert forall x :: x in restaurants ==> x in old(restaurants);
      res := SuccessWith(None, "Deleted successfully");
    }

    method UpdateStatus(users: seq<User>, id: Option<int>, status: Option<int>, userId: Option<int>, now: int)
      returns (res: Response<StatusUpdate>)
      requires Valid()
      modifies this
      ensures Valid() && nextId == old(nextId)
      ensures (res, restaurants) == UpdateRestaurantStatus(old(restaurants), users, id, status, userId, now)
    {
      if id.None? {
        return ValidateFailed("Restaurant ID cannot be empty");
      }
      if status.None? || status.value < RestaurantPendingReview || status.value > RestaurantOperating {
        return ValidateFailed("Invalid restaurant status");
      }
      var refusal := ChangeRefusal(restaurants, users, id, userId, StatusForbidden);
      if refusal.Some? {
        return Retype(refusal.value);
      }
      var i := IndexOf(restaurants, RestaurantId, id.value).value;
      var r := restaurants[i];
      r := r.(status := status.value);
      r := r.(updatedAt := now);
      restaurants := restaurants[i := r];
      assert forall x :: x in restaurants ==> x == r || x in old(restaurants);
      res := SuccessWith(Some(StatusUpdate(r.id, status.value, GetStatusText(status))), "Status updated successfully");
    }
  }

  // ---------------------------------------------------------------- the caller

  const ManagementForbidden: string :=
    "No permission to access management interface, administrator or restaurant manager role required"

  /** checkManagerRole: an empty token is unauthorized, a role other than 0
    * or 1 forbidden, a missing user id or a token that does not parse
    * unauthorized; otherwise the caller's id and role. */
  function CheckManagerRole(token: Option<string>, parse: TokenParser): (r: Response<Claims>)
    ensures NullOrEmpty(token) ==> r == Unauthorized()
    ensures IsSuccess(r) <==>
      && !NullOrEmpty(token) && parse(token.value).Value? && parse(token.value).v.Some?
      && parse(token.value).v.value.userId.Some?
      && parse(token.value).v.value.role.Some?
      && (parse(token.value).v.value.role.value == RoleAdmin || parse(token.value).v.value.role.value == RoleManager)
    ensures IsSuccess(r) ==> r.data == parse(token.value).v
    ensures !IsSuccess(r) ==> r == Unauthorized() || r == ForbiddenWith(ManagementForbidden)
    ensures !NullOrEmpty(token) && parse(token.value).Value? && parse(token.value).v.Some?
            && parse(token.value).v.value.role.Some? && parse(token.value).v.value.role.value == RoleStaff ==>
      r == ForbiddenWith(ManagementForbidden)
  {
    if NullOrEmpty(token) then Unauthorized()
    else match parse(token.value)
      case Throws(_) => Unauthorized()
      case Value(None) => Unauthorized()
      case Value(Some(c)) =>
        if c.role.None? || (c.role.value != RoleAdmin && c.role.value != RoleManager) then ForbiddenWith(ManagementForbidden)
        else if c.userId.None? then Unauthorized()
        else Success(Some(Claims(c.userId, c.role)))
  }
}
