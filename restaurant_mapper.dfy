// The restaurant queries: tables of a restaurant, review and restaurant
// counts, and the staff scope join that decides which restaurants a waiter
// may see.

module RestaurantMapper {
  import opened Common
  import opened Query
  import opened Entities

  /** Some approved staff row makes staffUserId a waiter of the manager ownerId:
    * `JOIN staff s ON r.owner_id = s.manager_id WHERE s.user_id = ? AND s.status = 1`. */
  predicate ApprovedStaffOf(staff: seq<Staff>, staffUserId: int, ownerId: int) {
    exists s :: s in staff && s.userId == staffUserId && s.status == 1 && s.managerId == Some(ownerId)
  }

  /** The joined ids, in restaurant order, repeats included. */
  function JoinedIds(restaurants: seq<Restaurant>, staff: seq<Staff>, staffId: int): seq<int> {
    if restaurants == [] then []
    else
      var rest := JoinedIds(restaurants[1..], staff, staffId);
      if ApprovedStaffOf(staff, staffId, restaurants[0].ownerId) then [restaurants[0].id] + rest else rest
  }

  /** The join yields exactly the ids of restaurants whose owner approved the user. */
  lemma {:induction false} JoinedIdsMembers(restaurants: seq<Restaurant>, staff: seq<Staff>, staffId: int)
    ensures forall id :: id in JoinedIds(restaurants, staff, staffId) <==>
      exists r :: r in restaurants && r.id == id && ApprovedStaffOf(staff, staffId, r.ownerId)
  {
    if restaurants != [] {
      JoinedIdsMembers(restaurants[1..], staff, staffId);
      assert forall r :: r in restaurants <==> r == restaurants[0] || r in restaurants[1..];
    }
  }

  /** getRestaurantIdsByStaffId: the ids of the restaurants owned by a manager
    * who approved this user as staff, each once. The argument is a user id. */
  function GetRestaurantIdsByStaffId(restaurants: seq<Restaurant>, staff: seq<Staff>, staffId: int): (ids: seq<int>)
    ensures NoDuplicates(ids)
  {
    Distinct(JoinedIds(restaurants, staff, staffId))
  }

  /** The scope holds exactly the restaurants whose owner approved this user. */
  lemma StaffRestaurantIds(restaurants: seq<Restaurant>, staff: seq<Staff>, staffId: int)
    ensures forall id :: id in GetRestaurantIdsByStaffId(restaurants, staff, staffId) <==>
      exists r :: r in restaurants && r.id == id && ApprovedStaffOf(staff, staffId, r.ownerId)
  {
    JoinedIdsMembers(restaurants, staff, staffId);
  }

  /** An applicant whose rows are all pending (or who has none) sees no restaurant. */
  lemma UnapprovedStaffHasNoScope(restaurants: seq<Restaurant>, staff: seq<Staff>, staffId: int)
    requires forall s :: s in staff && s.userId == staffId ==> s.status != 1
    ensures GetRestaurantIdsByStaffId(restaurants, staff, staffId) == []
  {
    NoApprovalJoinsNothing(restaurants, staff, staffId);
  }

  lemma {:induction false} NoApprovalJoinsNothing(restaurants: seq<Restaurant>, staff: seq<Staff>, staffId: int)
    requires forall s :: s in staff && s.userId == staffId ==> s.status != 1
    ensures JoinedIds(restaurants, staff, staffId) == []
  {
    if restaurants != [] {
      NoApprovalJoinsNothing(restaurants[1..], staff, staffId);
    }
  }

  /** Approving a row for manager m brings every restaurant m owns into scope. */
  lemma ApprovalGrantsOwnersRestaurants(restaurants: seq<Restaurant>, staff: seq<Staff>, staffId: int, row: Staff, r: Restaurant)
    requires row in staff && row.userId == staffId && row.status == 1 && row.managerId == Some(r.ownerId)
    requires r in restaurants
    ensures r.id in GetRestaurantIdsByStaffId(restaurants, staff, staffId)
  {
    StaffRestaurantIds(restaurants, staff, staffId);
  }

  predicate OfRestaurant(t: Table, restaurantId: int) { t.restaurantId == restaurantId }

  /** getRestaurantTables: exactly the tables whose restaurant_id matches. */
  function GetRestaurantTables(tables: seq<Table>, restaurantId: int): (r: seq<Table>)
    ensures forall t :: t in r <==> t in tables && t.restaurantId == restaurantId
  {
    Where(tables, (t: Table) => OfRestaurant(t, restaurantId))
  }

  /** getReviewCount: reviews whose restaurant_id matches. */
  function GetReviewCount(reviews: seq<Review>, restaurantId: int): (n: nat)
    ensures n <= |reviews|
    ensures n == |Where(reviews, (v: Review) => v.restaurantId == restaurantId)|
  {
    CountIsWhereLength(reviews, (v: Review) => v.restaurantId == restaurantId);
    CountWhere(reviews, (v: Review) => v.restaurantId == restaurantId)
  }

  function CountTotalRestaurants(restaurants: seq<Restaurant>): nat {
    |restaurants|
  }

  /** countManagerRestaurants: restaurants whose owner_id is the user. */
  function CountManagerRestaurants(restaurants: seq<Restaurant>, userId: int): (n: nat)
    ensures n <= CountTotalRestaurants(restaurants)
    ensures n == |Where(restaurants, (r: Restaurant) => r.ownerId == userId)|
  {
    CountIsWhereLength(restaurants, (r: Restaurant) => r.ownerId == userId);
    CountWhere(restaurants, (r: Restaurant) => r.ownerId == userId)
  }
}
