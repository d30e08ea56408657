// The reservation queries of the mapper: each paged list is WHERE, ORDER BY
// created_at DESC, LIMIT/OFFSET over the reservations table, and each count
// applies the list's own condition without paging. Joins with the
// restaurants table go through the restaurant's primary key.

module ReservationMapper {
  import opened Common
  import opened Query
  import opened Entities

  /** `<if test='xs != null and xs.size() > 0'> AND col IN (...) </if>`: a null
    * or empty list imposes no condition. */
  predicate InListIfGiven(v: int, xs: Option<seq<int>>) {
    xs.None? || |xs.value| == 0 || v in xs.value
  }

  function CreatedAt(r: Reservation): int { r.createdAt }

  /** The condition of the administrator's list and count. */
  function AdminCondition(statusList: Option<seq<int>>, restaurantId: Option<int>): Reservation -> bool {
    (r: Reservation) => (restaurantId.None? || r.restaurantId == restaurantId.value) && InListIfGiven(r.status, statusList)
  }

  function GetAllReservationsWithPage(rows: seq<Reservation>, offset: int, pageSize: int,
                                      statusList: Option<seq<int>>, restaurantId: Option<int>): Except<seq<Reservation>> {
    SelectPageDesc(rows, AdminCondition(statusList, restaurantId), CreatedAt, offset, pageSize)
  }

  function CountAllReservations(rows: seq<Reservation>, statusList: Option<seq<int>>, restaurantId: Option<int>): nat {
    CountWhere(rows, AdminCondition(statusList, restaurantId))
  }

  /** The condition of the restaurant-scoped list and count. */
  function ManagerCondition(statusList: Option<seq<int>>, restaurantIds: Option<seq<int>>): Reservation -> bool {
    (r: Reservation) => InListIfGiven(r.restaurantId, restaurantIds) && InListIfGiven(r.status, statusList)
  }

  function GetManagerReservationsWithPage(rows: seq<Reservation>, offset: int, pageSize: int,
                                          statusList: Option<seq<int>>, restaurantIds: Option<seq<int>>): Except<seq<Reservation>> {
    SelectPageDesc(rows, ManagerCondition(statusList, restaurantIds), CreatedAt, offset, pageSize)
  }

  function CountManagerReservations(rows: seq<Reservation>, statusList: Option<seq<int>>, restaurantIds: Option<seq<int>>): nat {
    CountWhere(rows, ManagerCondition(statusList, restaurantIds))
  }

  /** A reservation the administrator's page returns matches both optional
    * filters, and the page is newest first. */
  lemma {:induction false} AdminPageMatchesFilters(rows: seq<Reservation>, offset: int, pageSize: int,
                                statusList: Option<seq<int>>, restaurantId: Option<int>)
    requires GetAllReservationsWithPage(rows, offset, pageSize, statusList, restaurantId).Value?
    ensures var page := GetAllReservationsWithPage(rows, offset, pageSize, statusList, restaurantId).v;
      && |page| <= pageSize
      && (forall r :: r in page ==>
            && r in rows
            && (restaurantId.Some? ==> r.restaurantId == restaurantId.value)
            && (statusList.Some? && |statusList.value| > 0 ==> r.status in statusList.value))
      && (forall i, j :: 0 <= i < j < |page| ==> page[i].createdAt >= page[j].createdAt)
  {
    var p := AdminCondition(statusList, restaurantId);
    SelectPageDescRowsMatch(rows, p, CreatedAt, offset, pageSize);
    SelectPageDescOrdered(rows, p, CreatedAt, offset, pageSize);
  }

  /** The same for the restaurant-scoped page. */
  lemma {:induction false} ManagerPageMatchesFilters(rows: seq<Reservation>, offset: int, pageSize: int,
                                  statusList: Option<seq<int>>, restaurantIds: Option<seq<int>>)
    requires GetManagerReservationsWithPage(rows, offset, pageSize, statusList, restaurantIds).Value?
    ensures var page := GetManagerReservationsWithPage(rows, offset, pageSize, statusList, restaurantIds).v;
      && |page| <= pageSize
      && (forall r :: r in page ==>
            && r in rows
            && (restaurantIds.Some? && |restaurantIds.value| > 0 ==> r.restaurantId in restaurantIds.value)
            && (statusList.Some? && |statusList.value| > 0 ==> r.status in statusList.value))
      && (forall i, j :: 0 <= i < j < |page| ==> page[i].createdAt >= page[j].createdAt)
  {
    var p := ManagerCondition(statusList, restaurantIds);
    SelectPageDescRowsMatch(rows, p, CreatedAt, offset, pageSize);
    SelectPageDescOrdered(rows, p, CreatedAt, offset, pageSize);
  }

  /** The count query is the size of the unpaged list: a page starting inside
    * the total is full or reaches the last matching row. */
  lemma {:induction false} AdminCountMatchesList(rows: seq<Reservation>, offset: int, pageSize: int,
                              statusList: Option<seq<int>>, restaurantId: Option<int>)
    requires GetAllReservationsWithPage(rows, offset, pageSize, statusList, restaurantId).Value?
    requires offset < CountAllReservations(rows, statusList, restaurantId)
    ensures |GetAllReservationsWithPage(rows, offset, pageSize, statusList, restaurantId).v|
      == Min(pageSize, CountAllReservations(rows, statusList, restaurantId) - offset)
  {
    SelectPageDescLength(rows, AdminCondition(statusList, restaurantId), CreatedAt, offset, pageSize);
  }

  /** A page starting at or past the count is empty. */
  lemma {:induction false} AdminPageBeyondCountEmpty(rows: seq<Reservation>, offset: int, pageSize: int,
                                  statusList: Option<seq<int>>, restaurantId: Option<int>)
    requires GetAllReservationsWithPage(rows, offset, pageSize, statusList, restaurantId).Value?
    requires offset >= CountAllReservations(rows, statusList, restaurantId)
    ensures GetAllReservationsWithPage(rows, offset, pageSize, statusList, restaurantId).v == []
  {
    SelectPageDescLength(rows, AdminCondition(statusList, restaurantId), CreatedAt, offset, pageSize);
  }

  /** An empty id or status list filters exactly like an absent one. */
  lemma EmptyListsImposeNothing(rows: seq<Reservation>, statusList: Option<seq<int>>, restaurantIds: Option<seq<int>>)
    ensures CountManagerReservations(rows, Some([]), restaurantIds) == CountManagerReservations(rows, None, restaurantIds)
    ensures CountManagerReservations(rows, statusList, Some([])) == CountManagerReservations(rows, statusList, None)
    ensures CountAllReservations(rows, Some([]), None) == |rows|
  {
    WhereExt(rows, ManagerCondition(Some([]), restaurantIds), ManagerCondition(None, restaurantIds));
    WhereExt(rows, ManagerCondition(statusList, Some([])), ManagerCondition(statusList, None));
    CountIsWhereLength(rows, ManagerCondition(Some([]), restaurantIds));
    CountIsWhereLength(rows, ManagerCondition(None, restaurantIds));
    CountIsWhereLength(rows, ManagerCondition(statusList, Some([])));
    CountIsWhereLength(rows, ManagerCondition(statusList, None));
    CountAll(rows, AdminCondition(Some([]), None));
  }

  function ReservationTime(r: Reservation): int { r.reservationTime }

  /** getFutureReservationsByTableId: that table's bookings at or after now
    * whose status is 0, 1 or 2, earliest first. */
  function GetFutureReservationsByTableId(rows: seq<Reservation>, tableId: int, now: int): (r: seq<Reservation>)
    ensures forall x :: x in r ==> x in rows && x.tableId == tableId && x.reservationTime >= now && 0 <= x.status <= 2
    ensures forall x :: x in rows && x.tableId == tableId && x.reservationTime >= now && 0 <= x.status <= 2 ==> x in r
    ensures forall i, j :: 0 <= i < j < |r| ==> r[i].reservationTime <= r[j].reservationTime
  {
    var matching := Where(rows, (x: Reservation) => x.tableId == tableId && x.reservationTime >= now && 0 <= x.status <= 2);
    var r := OrderBy(matching, ReservationTime);
    assert forall x :: x in r <==> x in matching by {
      forall x ensures x in r <==> x in matching {
        assert x in r <==> x in multiset(r);
      }
    }
    r
  }

  /** `JOIN restaurants res ON r.restaurant_id = res.id WHERE res.owner_id = userId`. */
  predicate OwnedBy(restaurants: seq<Restaurant>, restaurantId: int, userId: int) {
    exists res :: res in restaurants && res.id == restaurantId && res.ownerId == userId
  }

  function Pending(): Reservation -> bool { (r: Reservation) => r.status == 1 }
  function Owned(restaurants: seq<Restaurant>, userId: int): Reservation -> bool {
    (r: Reservation) => OwnedBy(restaurants, r.restaurantId, userId)
  }
  function OwnedPending(restaurants: seq<Restaurant>, userId: int): Reservation -> bool {
    (r: Reservation) => OwnedBy(restaurants, r.restaurantId, userId) && r.status == 1
  }
  /** `reservation_time BETWEEN start AND end`, both ends included. */
  function Within(start: int, end: int): Reservation -> bool {
    (r: Reservation) => start <= r.reservationTime <= end
  }
  function OwnedWithin(restaurants: seq<Restaurant>, userId: int, start: int, end: int): Reservation -> bool {
    (r: Reservation) => OwnedBy(restaurants, r.restaurantId, userId) && start <= r.reservationTime <= end
  }
  function Always(): Reservation -> bool { (r: Reservation) => true }

  function CountPendingReservations(rows: seq<Reservation>): nat {
    CountWhere(rows, Pending())
  }

  function CountManagerPendingReservations(rows: seq<Reservation>, restaurants: seq<Restaurant>, userId: int): nat {
    CountWhere(rows, OwnedPending(restaurants, userId))
  }

  function CountWeeklyReservations(rows: seq<Reservation>, start: int, end: int): nat {
    CountWhere(rows, Within(start, end))
  }

  function CountManagerWeeklyReservations(rows: seq<Reservation>, restaurants: seq<Restaurant>, userId: int, start: int, end: int): nat {
    CountWhere(rows, OwnedWithin(restaurants, userId, start, end))
  }

  function CountTotalReservations(rows: seq<Reservation>): nat {
    |rows|
  }

  function CountManagerTotalReservations(rows: seq<Reservation>, restaurants: seq<Restaurant>, userId: int): nat {
    CountWhere(rows, Owned(restaurants, userId))
  }

  /** A manager's counts are bounded by the unscoped counts, and pending by total. */
  lemma ManagerCountsBounded(rows: seq<Reservation>, restaurants: seq<Restaurant>, userId: int, start: int, end: int)
    ensures CountManagerPendingReservations(rows, restaurants, userId) <= CountPendingReservations(rows)
    ensures CountManagerPendingReservations(rows, restaurants, userId) <= CountManagerTotalReservations(rows, restaurants, userId)
    ensures CountManagerWeeklyReservations(rows, restaurants, userId, start, end) <= CountWeeklyReservations(rows, start, end)
    ensures CountManagerTotalReservations(rows, restaurants, userId) <= CountTotalReservations(rows)
    ensures CountPendingReservations(rows) <= CountTotalReservations(rows)
  {
    CountWhereMono(rows, OwnedPending(restaurants, userId), Pending());
    CountWhereMono(rows, OwnedPending(restaurants, userId), Owned(restaurants, userId));
    CountWhereMono(rows, OwnedWithin(restaurants, userId, start, end), Within(start, end));
    CountWhereMono(rows, Owned(restaurants, userId), Always());
    CountWhereMono(rows, Pending(), Always());
    CountAll(rows, Always());
  }
}
