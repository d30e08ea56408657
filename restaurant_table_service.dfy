// Dining-table management: the permission rule (an administrator on any
// restaurant, a manager on their own, nobody else), the listings, and
// adding, updating and deleting a table behind that rule.

module RestaurantTableService {
  import opened Common
  import opened Query
  import opened Entities
  import opened Auth

  // ---------------------------------------------------------------- messages

  const NoUserId: string := "User ID cannot be empty"
  const NoRestaurantId: string := "Restaurant ID cannot be empty"
  const NoSuchUser: string := "User not found"
  const NoSuchRestaurant: string := "Restaurant not found"
  const Retrieved: string := "Retrieved successfully"
  const TableListFailed: string := "Failed to get table list: "
  const RestaurantTableListFailed: string := "Failed to get restaurant table list: "
  const ManagerTableListFailed: string := "Failed to get manager's table list: "
  const NoManagerId: string := "Manager ID cannot be empty"
  const ManagersOnly: string := "Only restaurant managers can use this interface"
  const NoTableId: string := "Table ID cannot be empty"
  const NoSuchTable: string := "Table not found"
  const IncompleteTable: string := "Table information is incomplete"
  const Added: string := "Added successfully"
  const Updated: string := "Updated successfully"
  const Deleted: string := "Deleted successfully"

  // ---------------------------------------------------------------- permission

  /** checkRestaurantPermission: both ids are required and both rows must
    * exist (400 otherwise); the answer is then true for an administrator
    * and for a manager who owns the restaurant, and false for everyone else. */
  function CheckRestaurantPermission(users: seq<User>, restaurants: seq<Restaurant>,
                                     userId: Option<int>, restaurantId: Option<int>): (r: Response<bool>)
    ensures userId.None? ==> r == ValidateFailed(NoUserId)
    ensures userId.Some? && restaurantId.None? ==> r == ValidateFailed(NoRestaurantId)
    ensures IsSuccess(r) <==>
      && userId.Some? && restaurantId.Some?
      && SelectById(users, UserId, userId.value).Some?
      && SelectById(restaurants, RestaurantId, restaurantId.value).Some?
    ensures !IsSuccess(r) ==> r.code == Some(400)
    ensures IsSuccess(r) ==>
      var u := SelectById(users, UserId, userId.value).value;
      var x := SelectById(restaurants, RestaurantId, restaurantId.value).value;
      && r.data.Some?
      && (r.data.value <==> u.role == RoleAdmin || (u.role == RoleManager && x.ownerId == userId.value))
  {
    if userId.None? then ValidateFailed(NoUserId)
    else if restaurantId.None? then ValidateFailed(NoRestaurantId)
    else match SelectById(users, UserId, userId.value)
      case None => ValidateFailed(NoSuchUser)
      case Some(u) =>
        match SelectById(restaurants, RestaurantId, restaurantId.value)
        case None => ValidateFailed(NoSuchRestaurant)
        case Some(x) =>
          if u.role == RoleAdmin then Success(Some(true))
          else if u.role == RoleManager && x.ownerId == userId.value then Success(Some(true))
          else Success(Some(false))
  }

  /** `permissionResult.isSuccess() && permissionResult.getData()`. */
  predicate Granted(users: seq<User>, restaurants: seq<Restaurant>, userId: Option<int>, restaurantId: Option<int>) {
    var r := CheckRestaurantPermission(users, restaurants, userId, restaurantId);
    IsSuccess(r) && r.data == Some(true)
  }

  /** A diner or a waiter is never granted a restaurant, even one whose
    * owner id is theirs. */
  lemma DinersAndWaitersNeverGranted(users: seq<User>, restaurants: seq<Restaurant>, userId: int, restaurantId: Option<int>)
    requires SelectById(users, UserId, userId).Some?
    requires SelectById(users, UserId, userId).value.role == RoleUser || SelectById(users, UserId, userId).value.role == RoleStaff
    ensures !Granted(users, restaurants, Some(userId), restaurantId)
  {
  }

  // ---------------------------------------------------------------- views

  /** A table row as the listings return it, with its restaurant's name
    * (null when the name map has none). */
  datatype TableView = TableView(table: Table, restaurantName: Option<string>)
  datatype TableListing = TableListing(total: int, list: seq<TableView>)

  /** The id-to-name map built by put over a restaurant list: a later row of
    * the same id overwrites an earlier one. */
  function NameMapOf(restaurants: seq<Restaurant>): map<int, string> {
    if restaurants == [] then map[]
    else
      var last := restaurants[|restaurants| - 1];
      NameMapOf(restaurants[..|restaurants| - 1])[last.id := last.name]
  }

  /** With unique ids, the map gives every restaurant its own name and knows
    * no other id. */
  lemma {:induction false} NameMapOfUnique(restaurants: seq<Restaurant>)
    requires UniqueIds(restaurants, RestaurantId)
    ensures forall id :: id in NameMapOf(restaurants) <==> exists r :: r in restaurants && r.id == id
    ensures forall r :: r in restaurants ==> NameMapOf(restaurants)[r.id] == r.name
  {
    if restaurants != [] {
      var init := restaurants[..|restaurants| - 1];
      var last := restaurants[|restaurants| - 1];
      assert UniqueIds(init, RestaurantId);
      NameMapOfUnique(init);
      assert forall r :: r in restaurants <==> r in init || r == last;
      forall r | r in init ensures r.id != last.id {
        var i :| 0 <= i < |init| && init[i] == r;
      }
    }
  }

  /** The for-each loop that fills restaurantNameMap. */
  method NameMap(restaurants: seq<Restaurant>) returns (m: map<int, string>)
    ensures m == NameMapOf(restaurants)
  {
    m := map[];
    var i := 0;
    while i < |restaurants|
      invariant 0 <= i <= |restaurants|
      invariant m == NameMapOf(restaurants[..i])
    {
      assert restaurants[..i + 1][..i] == restaurants[..i];
      m := m[restaurants[i].id := restaurants[i].name];
      i := i + 1;
    }
    assert restaurants[..|restaurants|] == restaurants;
  }

  /** `restaurantNameMap.get(id)`. */
  function NameIn(names: map<int, string>, id: int): Option<string> {
    if id in names then Some(names[id]) else None
  }

  /** The tables of the listed rows, in order, each with its name from the map. */
  method TableViews(page: seq<Table>, names: map<int, string>) returns (views: seq<TableView>)
    ensures |views| == |page|
    ensures forall i :: 0 <= i < |page| ==> views[i] == TableView(page[i], NameIn(names, page[i].restaurantId))
  {
    views := ConvertAll(page, (t: Table) => TableView(t, NameIn(names, t.restaurantId)));
  }

  // ---------------------------------------------------------------- listings

  /** `restaurant_id = restaurantId` when it is given. */
  function TableFilter(restaurantId: Option<int>): Table -> bool {
    (t: Table) => restaurantId.None? || t.restaurantId == restaurantId.value
  }

  /** getAllTables: the count and the page of matching tables, highest id
    * first, named after their restaurants. A page with no rows is reported
    * with total 0 whatever the count. */
  method GetAllTables(tables: seq<Table>, restaurants: seq<Restaurant>, page: Option<int>, pageSize: Option<int>,
                      restaurantId: Option<int>)
    returns (res: Response<TableListing>)
    requires UniqueIds(restaurants, RestaurantId)
    ensures var size := NormalisePageSize(pageSize);
            var offset := Offset(NormalisePage(page), size);
      && (IsSuccess(res) <==> offset >= 0)
      && (!IsSuccess(res) ==> res == Error(500, TableListFailed + NegativeOffset))
      && (IsSuccess(res) ==>
            && res.message == Retrieved && res.data.Some?
            && (if offset >= CountWhere(tables, TableFilter(restaurantId)) then res.data.value == TableListing(0, [])
                else res.data.value.total == CountWhere(tables, TableFilter(restaurantId)))
            && ViewsOfPage(res.data.value.list, tables, restaurants, TableFilter(restaurantId),
                           SelectPageDesc(tables, TableFilter(restaurantId), TableId, offset, size).v))
  {
    var size := NormalisePageSize(pageSize);
    var offset := Offset(NormalisePage(page), size);
    var cond := TableFilter(restaurantId);
    var total := CountWhere(tables, cond);
    var rows := SelectPageDesc(tables, cond, TableId, offset, size);
    if rows.Throws? {
      return Error(500, TableListFailed + rows.reason);
    }
    SelectPageDescRowsMatch(tables, cond, TableId, offset, size);
    SelectPageDescLength(tables, cond, TableId, offset, size);
    var listing := NamedListing(tables, restaurants, cond, rows.v, total, offset < total);
    res := SuccessWith(Some(listing), Retrieved);
  }

  /** The rest of getAllTables once the page is read: an empty page gives an
    * empty listing with total 0, otherwise the page's views and the total. */
  method NamedListing(tables: seq<Table>, restaurants: seq<Restaurant>, cond: Table -> bool, page: seq<Table>,
                      total: int, within: bool)
    returns (listing: TableListing)
    requires UniqueIds(restaurants, RestaurantId)
    requires forall t :: t in page ==> t in tables && cond(t)
    requires within <==> page != []
    ensures !within ==> listing == TableListing(0, [])
    ensures within ==> listing.total == total
    ensures ViewsOfPage(listing.list, tables, restaurants, cond, page)
  {
    var ids := Distinct(Map(page, (t: Table) => t.restaurantId));
    if ids == [] {
      assert page == [];
      assert ViewsOfPage([], tables, restaurants, cond, page);
      return TableListing(0, []);
    }
    assert page != [];
    var views := NamedViews(tables, restaurants, cond, page, ids);
    listing := TableListing(total, views);
  }

  /** `views` show exactly the rows of `page`, in order; each is a row of
    * the table meeting the condition and carries its restaurant's name. */
  predicate ViewsOfPage(views: seq<TableView>, tables: seq<Table>, restaurants: seq<Restaurant>, cond: Table -> bool,
                        page: seq<Table>)
  {
    && RowsOfTables(views) == page
    && forall v :: v in views ==>
         v.table in tables && cond(v.table) && v.restaurantName == NameOf(restaurants, v.table.restaurantId)
  }

  /** The page's views, named from the restaurants fetched by `id IN` the
    * page's distinct restaurant ids. */
  method NamedViews(tables: seq<Table>, restaurants: seq<Restaurant>, cond: Table -> bool, page: seq<Table>, ids: seq<int>)
    returns (views: seq<TableView>)
    requires UniqueIds(restaurants, RestaurantId)
    requires ids == Distinct(Map(page, (t: Table) => t.restaurantId))
    requires forall t :: t in page ==> t in tables && cond(t)
    ensures ViewsOfPage(views, tables, restaurants, cond, page)
  {
    var named := Where(restaurants, (x: Restaurant) => x.id in ids);
    var names := NameMap(named);
    views := TableViews(page, names);
    NamesOfListedRestaurants(restaurants, named, ids, page);
    ViewsOfListedTables(tables, restaurants, cond, page, names, views);
  }

  /** Views built row by row from a page of matching tables, with names that
    * agree with the restaurant table, are views of exactly that page. */
  lemma ViewsOfListedTables(tables: seq<Table>, restaurants: seq<Restaurant>, cond: Table -> bool, page: seq<Table>,
                            names: map<int, string>, views: seq<TableView>)
    requires forall t :: t in page ==> t in tables && cond(t)
    requires forall t :: t in page ==> NameIn(names, t.restaurantId) == NameOf(restaurants, t.restaurantId)
    requires |views| == |page|
    requires forall i :: 0 <= i < |page| ==> views[i] == TableView(page[i], NameIn(names, page[i].restaurantId))
    ensures RowsOfTables(views) == page
    ensures forall v :: v in views ==>
              v.table in tables && cond(v.table) && v.restaurantName == NameOf(restaurants, v.table.restaurantId)
  {
    forall i | 0 <= i < |views| ensures views[i].table == page[i] && page[i] in page {
    }
    assert RowsOfTables(views) == page;
  }

  /** The name of the restaurant with that id, if there is one. */
  function NameOf(restaurants: seq<Restaurant>, id: int): Option<string> {
    match SelectById(restaurants, RestaurantId, id)
    case None => None
    case Some(x) => Some(x.name)
  }

  function Map<A, B>(s: seq<A>, f: A -> B): (r: seq<B>)
    ensures |r| == |s| && forall i :: 0 <= i < |s| ==> r[i] == f(s[i])
  {
    if s == [] then [] else [f(s[0])] + Map(s[1..], f)
  }

  /** The rows behind a list of views. */
  function RowsOfTables(views: seq<TableView>): (rows: seq<Table>)
    ensures |rows| == |views| && forall i :: 0 <= i < |views| ==> rows[i] == views[i].table
  {
    if views == [] then [] else [views[0].table] + RowsOfTables(views[1..])
  }

  /** The restaurants fetched by `id IN (ids of the page)` name each row of
    * the page as the whole table would. */
  lemma NamesOfListedRestaurants(restaurants: seq<Restaurant>, named: seq<Restaurant>, ids: seq<int>, page: seq<Table>)
    requires UniqueIds(restaurants, RestaurantId)
    requires named == Where(restaurants, (x: Restaurant) => x.id in ids)
    requires ids == Distinct(Map(page, (t: Table) => t.restaurantId))
    ensures forall t :: t in page ==> NameIn(NameMapOf(named), t.restaurantId) == NameOf(restaurants, t.restaurantId)
  {
    WhereKeepsUniqueIds(restaurants, (x: Restaurant) => x.id in ids);
    NameMapOfUnique(named);
    forall t | t in page ensures NameIn(NameMapOf(named), t.restaurantId) == NameOf(restaurants, t.restaurantId) {
      var k :| 0 <= k < |page| && page[k] == t;
      assert Map(page, (t: Table) => t.restaurantId)[k] == t.restaurantId;
      assert t.restaurantId in ids;
      match SelectById(restaurants, RestaurantId, t.restaurantId)
      case None =>
        assert forall x :: x in named ==> x.id != t.restaurantId;
      case Some(x) =>
        var i := IndexOf(restaurants, RestaurantId, t.restaurantId).value;
        assert restaurants[i] == x && x in restaurants;
        assert x in named;
    }
  }

  /** A sub-list of a table with unique ids has unique ids. */
  lemma {:induction false} WhereKeepsUniqueIds(restaurants: seq<Restaurant>, p: Restaurant -> bool)
    requires UniqueIds(restaurants, RestaurantId)
    ensures UniqueIds(Where(restaurants, p), RestaurantId)
  {
    if restaurants != [] {
      assert UniqueIds(restaurants[1..], RestaurantId);
      WhereKeepsUniqueIds(restaurants[1..], p);
      forall x | x in Where(restaurants[1..], p) ensures x.id != restaurants[0].id {
        var i :| 0 <= i < |restaurants[1..]| && restaurants[1..][i] == x;
        assert restaurants[i + 1] == x;
      }
    }
  }

  const ViewForbidden: string := "No permission to view tables for this restaurant"

  /** getRestaurantTables: the tables of one restaurant the caller may
    * manage, with the restaurant's name. */
  method GetRestaurantTables(tables: seq<Table>, restaurants: seq<Restaurant>, users: seq<User>,
                             page: Option<int>, pageSize: Option<int>, restaurantId: Option<int>, managerId: Option<int>)
    returns (res: Response<TableListing>)
    ensures restaurantId.None? ==> res == ValidateFailed(NoRestaurantId)
    ensures restaurantId.Some? && !Granted(users, restaurants, managerId, restaurantId) ==> res == ForbiddenWith(ViewForbidden)
    ensures restaurantId.Some? && Granted(users, restaurants, managerId, restaurantId) ==>
      var size := NormalisePageSize(pageSize);
      var offset := Offset(NormalisePage(page), size);
      && (IsSuccess(res) <==> offset >= 0)
      && (!IsSuccess(res) ==> res == Error(500, RestaurantTableListFailed + NegativeOffset))
      && (IsSuccess(res) ==>
            && res.message == Retrieved && res.data.Some?
            && res.data.value.total == CountWhere(tables, TableFilter(restaurantId))
            && ViewsOfPage(res.data.value.list, tables, restaurants, TableFilter(restaurantId),
                           SelectPageDesc(tables, TableFilter(restaurantId), TableId, offset, size).v))
  {
    var size := NormalisePageSize(pageSize);
    if restaurantId.None? {
      return ValidateFailed(NoRestaurantId);
    }
    if !Granted(users, restaurants, managerId, restaurantId) {
      return ForbiddenWith(ViewForbidden);
    }
    var offset := Offset(NormalisePage(page), size);
    var cond := TableFilter(restaurantId);
    var total := CountWhere(tables, cond);
    var rows := SelectPageDesc(tables, cond, TableId, offset, size);
    if rows.Throws? {
      return Error(500, RestaurantTableListFailed + rows.reason);
    }
    SelectPageDescRowsMatch(tables, cond, TableId, offset, size);
    var name := SelectById(restaurants, RestaurantId, restaurantId.value).value.name;
    var views := ConvertAll(rows.v, (t: Table) => TableView(t, Some(name)));
    forall v | v in views
      ensures v.table in tables && cond(v.table) && v.restaurantName == NameOf(restaurants, v.table.restaurantId)
    {
      var i :| 0 <= i < |views| && views[i] == v;
      assert rows.v[i] in rows.v;
    }
    assert RowsOfTables(views) == rows.v;
    res := SuccessWith(Some(TableListing(total, views)), Retrieved);
  }

  /** getManagerAllTables: a known role-1 user sees the tables of every
    * restaurant they own, and nothing when they own none. */
  method GetManagerAllTables(tables: seq<Table>, restaurants: seq<Restaurant>, users: seq<User>,
                             page: Option<int>, pageSize: Option<int>, managerId: Option<int>)
    returns (res: Response<TableListing>)
    requires UniqueIds(restaurants, RestaurantId)
    ensures managerId.None? ==> res == ValidateFailed(NoManagerId)
    ensures managerId.Some? && SelectById(users, UserId, managerId.value).None? ==> res == ValidateFailed(NoSuchUser)
    ensures managerId.Some? && SelectById(users, UserId, managerId.value).Some?
            && SelectById(users, UserId, managerId.value).value.role != RoleManager ==>
      res == ForbiddenWith(ManagersOnly)
    ensures managerId.Some? && SelectById(users, UserId, managerId.value).Some?
            && SelectById(users, UserId, managerId.value).value.role == RoleManager
            && (forall x :: x in restaurants ==> x.ownerId != managerId.value) ==>
      res == SuccessWith(Some(TableListing(0, [])), Retrieved)
    ensures managerId.Some? && SelectById(users, UserId, managerId.value).Some?
            && SelectById(users, UserId, managerId.value).value.role == RoleManager
            && Where(restaurants, OwnedBy(managerId.value)) != [] ==>
      var size := NormalisePageSize(pageSize);
      var offset := Offset(NormalisePage(page), size);
      var cond := InRestaurants(Map(Where(restaurants, OwnedBy(managerId.value)), RestaurantId));
      && (IsSuccess(res) <==> offset >= 0)
      && (!IsSuccess(res) ==> res == Error(500, ManagerTableListFailed + NegativeOffset))
      && (IsSuccess(res) ==>
            && res.message == Retrieved && res.data.Some?
            && res.data.value.total == CountWhere(tables, cond)
            && RowsOfTables(res.data.value.list) == SelectPageDesc(tables, cond, TableId, offset, size).v)
    ensures IsSuccess(res) ==>
      && managerId.Some? && res.data.Some?
      && forall v :: v in res.data.value.list ==>
           && v.table in tables
           && (exists x :: x in restaurants && x.id == v.table.restaurantId && x.ownerId == managerId.value)
           && v.restaurantName == NameOf(restaurants, v.table.restaurantId)
  {
    var size := NormalisePageSize(pageSize);
    if managerId.None? {
      return ValidateFailed(NoManagerId);
    }
    var user := SelectById(users, UserId, managerId.value);
    if user.None? {
      return ValidateFailed(NoSuchUser);
    }
    if user.value.role != RoleManager {
      return ForbiddenWith(ManagersOnly);
    }
    var owned := Where(restaurants, OwnedBy(managerId.value));
    if owned == [] {
      return SuccessWith(Some(TableListing(0, [])), Retrieved);
    }
    assert owned[0] in owned;
    var ids := Map(owned, RestaurantId);
    var offset := Offset(NormalisePage(page), size);
    var cond := InRestaurants(ids);
    var total := CountWhere(tables, cond);
    var rows := SelectPageDesc(tables, cond, TableId, offset, size);
    if rows.Throws? {
      return Error(500, ManagerTableListFailed + rows.reason);
    }
    SelectPageDescRowsMatch(tables, cond, TableId, offset, size);
    var names := NameMap(owned);
    var views := TableViews(rows.v, names);
    OwnedTableViews(tables, restaurants, managerId.value, owned, rows.v, views);
    res := SuccessWith(Some(TableListing(total, views)), Retrieved);
  }

  /** `owner_id = managerId`. */
  function OwnedBy(managerId: int): Restaurant -> bool {
    (x: Restaurant) => x.ownerId == managerId
  }

  /** `restaurant_id IN ids`. */
  function InRestaurants(ids: seq<int>): Table -> bool {
    (t: Table) => t.restaurantId in ids
  }

  /** The views of a page of tables in a manager's restaurants, named from
    * the map of those restaurants, name each table after its restaurant. */
  lemma OwnedTableViews(tables: seq<Table>, restaurants: seq<Restaurant>, managerId: int, owned: seq<Restaurant>,
                        page: seq<Table>, views: seq<TableView>)
    requires UniqueIds(restaurants, RestaurantId)
    requires owned == Where(restaurants, OwnedBy(managerId))
    requires forall t :: t in page ==> t in tables && t.restaurantId in Map(owned, RestaurantId)
    requires |views| == |page|
    requires forall i :: 0 <= i < |page| ==> views[i] == TableView(page[i], NameIn(NameMapOf(owned), page[i].restaurantId))
    ensures RowsOfTables(views) == page
    ensures forall v :: v in views ==>
              && v.table in tables
              && (exists x :: x in restaurants && x.id == v.table.restaurantId && x.ownerId == managerId)
              && v.restaurantName == NameOf(restaurants, v.table.restaurantId)
  {
    var ids := Map(owned, RestaurantId);
    assert RowsOfTables(views) == page;
    WhereKeepsUniqueIds(restaurants, OwnedBy(managerId));
    NameMapOfUnique(owned);
    forall v | v in views
      ensures && v.table in tables
              && (exists x :: x in restaurants && x.id == v.table.restaurantId && x.ownerId == managerId)
              && v.restaurantName == NameOf(restaurants, v.table.restaurantId)
    {
      var i :| 0 <= i < |views| && views[i] == v;
      var t := page[i];
      assert t in page && t.restaurantId in ids;
      var k :| 0 <= k < |ids| && ids[k] == t.restaurantId;
      var x := owned[k];
      assert x in owned && x in restaurants && x.id == t.restaurantId;
      OwnNameIsTableName(restaurants, x);
    }
  }

  /** In a table with unique ids a row is the one its id selects. */
  lemma OwnNameIsTableName(restaurants: seq<Restaurant>, x: Restaurant)
    requires UniqueIds(restaurants, RestaurantId) && x in restaurants
    ensures NameOf(restaurants, x.id) == Some(x.name)
  {
    var k :| 0 <= k < |restaurants| && restaurants[k] == x;
    IndexOfUnique(restaurants, RestaurantId, x.id, k);
  }

  /** getTableDetail. */
  function GetTableDetail(tables: seq<Table>, id: Option<int>): (res: Response<Table>)
    ensures id.None? ==> res == ValidateFailed(NoTableId)
    ensures id.Some? && SelectById(tables, TableId, id.value).None? ==> res == ValidateFailed(NoSuchTable)
    ensures IsSuccess(res) <==> id.Some? && SelectById(tables, TableId, id.value).Some?
    ensures IsSuccess(res) ==> res.data.Some? && res.data.value in tables && res.data.value.id == id.value
  {
    if id.None? then ValidateFailed(NoTableId)
    else match SelectById(tables, TableId, id.value)
      case None => ValidateFailed(NoSuchTable)
      case Some(t) => SuccessWith(Some(t), Retrieved)
  }

  // ---------------------------------------------------------------- changes

  /** The submitted RestaurantTable fields the service reads. */
  datatype TableForm = TableForm(restaurantId: Option<int>, tableType: Option<string>, capacity: Option<int>)

  const AddForbidden: string := "No permission to add tables for this restaurant"
  const UpdateForbidden: string := "No permission to update tables for this restaurant"
  const DeleteForbidden: string := "No permission to delete tables for this restaurant"

  /** addTable: restaurant, type and capacity are required, the restaurant
    * must exist and the caller must be granted it; the new row is stamped
    * with one time for creation and update. */
  function AddTable(tables: seq<Table>, users: seq<User>, restaurants: seq<Restaurant>, nextId: int,
                    form: TableForm, userId: Option<int>, now: int): (Response<Table>, seq<Table>)
  {
    if form.restaurantId.None? || form.tableType.None? || form.capacity.None? then
      (ValidateFailed(IncompleteTable), tables)
    else if SelectById(restaurants, RestaurantId, form.restaurantId.value).None? then
      (ValidateFailed(NoSuchRestaurant), tables)
    else if !Granted(users, restaurants, userId, form.restaurantId) then
      (ForbiddenWith(AddForbidden), tables)
    else
      var t := Table(nextId, form.restaurantId.value, form.tableType.value, form.capacity.value, now, now);
      (SuccessWith(Some(t), Added), tables + [t])
  }

  /** The row after updateTable: type and capacity when supplied, a new
    * update time, everything else kept. */
  function Revised(t: Table, form: TableForm, now: int): Table {
    t.(tableType := if form.tableType.Some? then form.tableType.value else t.tableType,
       capacity := if form.capacity.Some? then form.capacity.value else t.capacity,
       updatedAt := now)
  }

  /** The lookup and permission steps shared by updateTable and deleteTable;
    * None lets the change go ahead. */
  function TableRefusal(tables: seq<Table>, users: seq<User>, restaurants: seq<Restaurant>, id: Option<int>,
                        userId: Option<int>, forbidden: string): (refusal: Option<Response<Void>>)
    ensures refusal.None? <==>
      id.Some? && SelectById(tables, TableId, id.value).Some?
      && Granted(users, restaurants, userId, Some(SelectById(tables, TableId, id.value).value.restaurantId))
    ensures refusal.Some? ==> refusal.value.data.None? && !IsSuccess(refusal.value)
  {
    if id.None? then Some(ValidateFailed(NoTableId))
    else match SelectById(tables, TableId, id.value)
      case None => Some(ValidateFailed(NoSuchTable))
      case Some(t) =>
        if !Granted(users, restaurants, userId, Some(t.restaurantId)) then Some(ForbiddenWith(forbidden)) else None
  }

  /** updateTable. */
  function UpdateTable(tables: seq<Table>, users: seq<User>, restaurants: seq<Restaurant>, id: Option<int>,
                       form: TableForm, userId: Option<int>, now: int): (Response<Table>, seq<Table>)
  {
    match TableRefusal(tables, users, restaurants, id, userId, UpdateForbidden)
    case Some(refusal) => (Retype(refusal), tables)
    case None =>
      var i := IndexOf(tables, TableId, id.value).value;
      var t := Revised(tables[i], form, now);
      (SuccessWith(Some(t), Updated), tables[i := t])
  }

  /** deleteTable. */
  function DeleteTable(tables: seq<Table>, users: seq<User>, restaurants: seq<Restaurant>, id: Option<int>,
                       userId: Option<int>): (Response<Void>, seq<Table>)
  {
    match TableRefusal(tables, users, restaurants, id, userId, DeleteForbidden)
    case Some(refusal) => (refusal, tables)
    case None =>
      var i := IndexOf(tables, TableId, id.value).value;
      (SuccessWith(None, Deleted), tables[..i] + tables[i + 1..])
  }

  /** Without permission, add, update and delete answer 403 and leave the
    * tables as they were. */
  lemma {:induction false} RefusedChangesNothing(tables: seq<Table>, users: seq<User>, restaurants: seq<Restaurant>,
                                                 nextId: int, form: TableForm, k: nat, userId: Option<int>, now: int)
    requires UniqueIds(tables, TableId) && k < |tables|
    requires !Granted(users, restaurants, userId, Some(tables[k].restaurantId))
    ensures UpdateTable(tables, users, restaurants, Some(tables[k].id), form, userId, now) == (ForbiddenWith(UpdateForbidden), tables)
    ensures DeleteTable(tables, users, restaurants, Some(tables[k].id), userId) == (ForbiddenWith(DeleteForbidden), tables)
    ensures form.restaurantId == Some(tables[k].restaurantId) && form.tableType.Some? && form.capacity.Some?
            && SelectById(restaurants, RestaurantId, tables[k].restaurantId).Some? ==>
      AddTable(tables, users, restaurants, nextId, form, userId, now) == (ForbiddenWith(AddForbidden), tables)
  {
    IndexOfUnique(tables, TableId, tables[k].id, k);
  }

  /** A granted update changes only the type, the capacity and the update
    * time of its own row; a table never moves to another restaurant. */
  lemma {:induction false} UpdateTouchesOnlyTypeAndCapacity(tables: seq<Table>, users: seq<User>, restaurants: seq<Restaurant>,
                                                            form: TableForm, k: nat, userId: Option<int>, now: int)
    requires UniqueIds(tables, TableId) && k < |tables|
    requires Granted(users, restaurants, userId, Some(tables[k].restaurantId))
    ensures var (res, after) := UpdateTable(tables, users, restaurants, Some(tables[k].id), form, userId, now);
      && IsSuccess(res) && |after| == |tables|
      && after[k].id == tables[k].id && after[k].restaurantId == tables[k].restaurantId
      && after[k].createdAt == tables[k].createdAt && after[k].updatedAt == now
      && (form.tableType.None? ==> after[k].tableType == tables[k].tableType)
      && (form.tableType.Some? ==> after[k].tableType == form.tableType.value)
      && (form.capacity.None? ==> after[k].capacity == tables[k].capacity)
      && (form.capacity.Some? ==> after[k].capacity == form.capacity.value)
      && forall j :: 0 <= j < |tables| && j != k ==> after[j] == tables[j]
  {
    IndexOfUnique(tables, TableId, tables[k].id, k);
  }

  /** A new table is created and updated at the same instant, in the
    * restaurant it names. */
  lemma NewTableStampedOnce(tables: seq<Table>, users: seq<User>, restaurants: seq<Restaurant>, nextId: int,
                            form: TableForm, userId: Option<int>, now: int)
    requires IsSuccess(AddTable(tables, users, restaurants, nextId, form, userId, now).0)
    ensures var (res, after) := AddTable(tables, users, restaurants, nextId, form, userId, now);
      && res.data.Some? && after == tables + [res.data.value]
      && res.data.value.createdAt == res.data.value.updatedAt == now
      && form.restaurantId == Some(res.data.value.restaurantId)
      && Granted(users, restaurants, userId, form.restaurantId)
  {
  }

  // ---------------------------------------------------------------- the store

  /** The restaurant_tables table, written in place. */
  class TableStore {
    var tables: seq<Table>
    var nextId: int

    ghost predicate Valid()
      reads this
    {
      UniqueIds(tables, TableId) && forall t :: t in tables ==> t.id < nextId
    }

    constructor()
      ensures Valid() && tables == [] && nextId == 1
    {
      tables := [];
      nextId := 1;
    }

    method Add(users: seq<User>, restaurants: seq<Restaurant>, form: TableForm, userId: Option<int>, now: int)
      returns (res: Response<Table>)
      requires Valid()
      modifies this
      ensures Valid()
      ensures (res, tables) == AddTable(old(tables), users, restaurants, old(nextId), form, userId, now)
    {
      if form.restaurantId.None? || form.tableType.None? || form.capacity.None? {
        return ValidateFailed(IncompleteTable);
      }
      if SelectById(restaurants, RestaurantId, form.restaurantId.value).None? {
        return ValidateFailed(NoSuchRestaurant);
      }
      if !Granted(users, restaurants, userId, form.restaurantId) {
        return ForbiddenWith(AddForbidden);
      }
      var t := Table(nextId, form.restaurantId.value, form.tableType.value, form.capacity.value, now, now);
      tables := tables + [t];
      nextId := nextId + 1;
      res := SuccessWith(Some(t), Added);
    }

    method Update(users: seq<User>, restaurants: seq<Restaurant>, id: Option<int>, form: TableForm,
                  userId: Option<int>, now: int)
      returns (res: Response<Table>)
      requires Valid()
      modifies this
      ensures Valid() && nextId == old(nextId)
      ensures (res, tables) == UpdateTable(old(tables), users, restaurants, id, form, userId, now)
    {
      var refusal := TableRefusal(tables, users, restaurants, id, userId, UpdateForbidden);
      if refusal.Some? {
        return Retype(refusal.value);
      }
      var i := IndexOf(tables, TableId, id.value).value;
      var t := tables[i];
      if form.tableType.Some? { t := t.(tableType := form.tableType.value); }
      if form.capacity.Some? { t := t.(capacity := form.capacity.value); }
      t := t.(updatedAt := now);
      tables := tables[i := t];
      assert forall x :: x in tables ==> x == t || x in old(tables);
      res := SuccessWith(Some(t), Updated);
    }

    method Delete(users: seq<User>, restaurants: seq<Restaurant>, id: Option<int>, userId: Option<int>)
      returns (res: Response<Void>)
      requires Valid()
      modifies this
      ensures Valid() && nextId == old(nextId)
      ensures (res, tables) == DeleteTable(old(tables), users, restaurants, id, userId)
    {
      var refusal := TableRefusal(tables, users, restaurants, id, userId, DeleteForbidden);
      if refusal.Some? {
        return refusal.value;
      }
      var i := IndexOf(tables, TableId, id.value).value;
      tables := tables[..i] + tables[i + 1..];
      assert forall x :: x in tables ==> x in old(tables);
      res := SuccessWith(None, Deleted);
    }
  }
}
