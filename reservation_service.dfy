// The reservation lifecycle of the restaurant back office: the creation check
// chain, the five-status machine driven by cancel, confirm, reject and
// complete, the looser staff overwrite, and the role-scoped listings.
//
// Each state-changing operation is a pure function from the reservations
// table before the call to the response and the table after it; the
// ReservationStore class at the end performs the same steps in place and
// promises exactly that function's result.

module ReservationService {
  import opened Common
  import opened Auth
  import opened JavaText
  import opened Query
  import opened Entities
  import opened ReservationMapper
  import opened RestaurantMapper
  import opened ReviewMapper

  // ---------------------------------------------------------------- messages

  const NoReservationId := "Reservation ID cannot be empty"
  const NoReservation := "Reservation does not exist"
  const NoRejectionReason := "Rejection reason cannot be empty"
  const NotYourRestaurant := "No permission to handle this reservation"
  const NotCancellable := "Cannot cancel reservation in current status"
  const StaffListFailed := "Failed to get staff reservation list: "
  const RestaurantOutOfScope := "No permission to access reservation information for this restaurant"
  const ListFailed := "Failed to get reservation list: "
  const NoManagerId := "Restaurant manager ID cannot be empty"

  // ---------------------------------------------------------------- statuses

  const StatusCancelled: int := 0
  const StatusPending: int := 1
  const StatusConfirmed: int := 2
  const StatusCompleted: int := 3
  const StatusRejected: int := 4

  /** The restaurant status that accepts bookings (Operating). */
  const RestaurantOperating: int := 3

  /** getStatusName: the label of a reservation status; null or any other
    * number is "Unknown". */
  function GetStatusName(status: Option<int>): (name: string)
    ensures name != "Unknown" <==> status.Some? && StatusCancelled <= status.value <= StatusRejected
  {
    if status.None? then "Unknown"
    else if status.value == StatusCancelled then "Cancelled"
    else if status.value == StatusPending then "Pending"
    else if status.value == StatusConfirmed then "Confirmed"
    else if status.value == StatusCompleted then "Completed"
    else if status.value == StatusRejected then "Rejected"
    else "Unknown"
  }

  /** The status a label names, the inverse of GetStatusName on 0..4. */
  function StatusOfName(name: string): (s: Option<int>)
    ensures s.Some? ==> StatusCancelled <= s.value <= StatusRejected
  {
    if name == "Cancelled" then Some(StatusCancelled)
    else if name == "Pending" then Some(StatusPending)
    else if name == "Confirmed" then Some(StatusConfirmed)
    else if name == "Completed" then Some(StatusCompleted)
    else if name == "Rejected" then Some(StatusRejected)
    else None
  }

  /** The five labels are distinct: a label determines its status. */
  lemma StatusNameRoundTrip(status: int)
    requires StatusCancelled <= status <= StatusRejected
    ensures StatusOfName(GetStatusName(Some(status))) == Some(status)
  {
  }

  // ---------------------------------------------------------------- views

  /** ReservationVO: the row plus the restaurant name, the table type, the
    * status label and (for the listings that set it) the reviewed flag. */
  datatype ReservationView = ReservationView(
    reservation: Reservation, restaurantName: Option<string>, tableType: Option<string>,
    statusText: string, reviewed: Option<bool>)

  /** The listing record {total, list}. */
  datatype Listing = Listing(total: int, list: seq<ReservationView>)

  function NameOf(r: Option<Restaurant>): Option<string> {
    if r.Some? then Some(r.value.name) else None
  }

  function TypeOf(t: Option<Table>): Option<string> {
    if t.Some? then Some(t.value.tableType) else None
  }

  /** convertToReservationVO: reviewed is whether this user has reviewed this
    * restaurant at all, not whether this booking was reviewed. */
  function ToView(r: Reservation, restaurants: seq<Restaurant>, tables: seq<Table>, reviews: seq<Review>): ReservationView {
    ReservationView(r, NameOf(SelectById(restaurants, RestaurantId, r.restaurantId)),
                    TypeOf(SelectById(tables, TableId, r.tableId)),
                    GetStatusName(Some(r.status)),
                    Some(CheckReviewExistence(reviews, r.userId, r.restaurantId) > 0))
  }

  /** A booking's view carries the booking and its status label, a
    * restaurant name exactly when the restaurant exists, and whether the
    * diner reviewed that restaurant. */
  lemma ViewOfReservation(r: Reservation, restaurants: seq<Restaurant>, tables: seq<Table>, reviews: seq<Review>)
    ensures var v := ToView(r, restaurants, tables, reviews);
      && v.reservation == r && v.statusText == GetStatusName(Some(r.status))
      && (v.restaurantName.Some? <==> exists x :: x in restaurants && x.id == r.restaurantId)
      && v.reviewed == Some(exists x :: x in reviews && x.userId == r.userId && x.restaurantId == r.restaurantId)
  {
  }

  /** Once a user has reviewed a restaurant, every one of their bookings there
    * is shown as reviewed, whichever booking the review was written for. */
  lemma ReviewedIsPerUserAndRestaurant(a: Reservation, b: Reservation, restaurants: seq<Restaurant>,
                                       tables: seq<Table>, reviews: seq<Review>)
    requires a.userId == b.userId && a.restaurantId == b.restaurantId
    ensures ToView(a, restaurants, tables, reviews).reviewed == ToView(b, restaurants, tables, reviews).reviewed
  {
  }

  /** The rows behind a list of views. */
  function RowsOf(views: seq<ReservationView>): (rows: seq<Reservation>)
    ensures |rows| == |views|
    ensures forall i :: 0 <= i < |views| ==> rows[i] == views[i].reservation
  {
    seq(|views|, i requires 0 <= i < |views| => views[i].reservation)
  }

  // ---------------------------------------------------------------- creation

  /** ReservationDTO; `duration` is the field the source calls reservationDate. */
  datatype ReservationRequest = ReservationRequest(
    restaurantId: Option<int>, tableId: Option<int>, reservationTime: Option<int>,
    duration: Option<int>, personCount: Option<int>, remarks: Option<string>)

  /** createReservation's check chain: the message of the first failed check,
    * or None when the booking may be inserted. Times compare as instants; a
    * booking for exactly now is not in the past. */
  function CreateCheck(dto: Option<ReservationRequest>, restaurants: seq<Restaurant>, tables: seq<Table>, now: int): (msg: Option<string>)
    ensures msg.None? <==> CreateAllowed(dto, restaurants, tables, now)
  {
    if dto.None? then Some("Reservation information cannot be empty")
    else
      var d := dto.value;
      if d.restaurantId.None? then Some("Restaurant ID cannot be empty")
      else if d.tableId.None? then Some("Table ID cannot be empty")
      else if d.reservationTime.None? then Some("Reservation time cannot be empty")
      else if d.duration.None? || d.duration.value <= 0 then Some("Reservation duration must be greater than 0")
      else if d.personCount.None? || d.personCount.value <= 0 then Some("Number of people must be greater than 0")
      else match SelectById(restaurants, RestaurantId, d.restaurantId.value)
        case None => Some("Restaurant does not exist")
        case Some(restaurant) =>
          if restaurant.status != RestaurantOperating then Some("This restaurant is not available for reservations")
          else match SelectById(tables, TableId, d.tableId.value)
            case None => Some("Table does not exist")
            case Some(table) =>
              if table.restaurantId != d.restaurantId.value then Some("Table does not belong to this restaurant")
              else if d.reservationTime.value < now then Some("Cannot reserve past time")
              else None
  }

  /** Every requirement of a booking at once, independent of their order. */
  predicate CreateAllowed(dto: Option<ReservationRequest>, restaurants: seq<Restaurant>, tables: seq<Table>, now: int) {
    && dto.Some?
    && dto.value.restaurantId.Some? && dto.value.tableId.Some? && dto.value.reservationTime.Some?
    && dto.value.duration.Some? && dto.value.duration.value > 0
    && dto.value.personCount.Some? && dto.value.personCount.value > 0
    && SelectById(restaurants, RestaurantId, dto.value.restaurantId.value).Some?
    && SelectById(restaurants, RestaurantId, dto.value.restaurantId.value).value.status == RestaurantOperating
    && SelectById(tables, TableId, dto.value.tableId.value).Some?
    && SelectById(tables, TableId, dto.value.tableId.value).value.restaurantId == dto.value.restaurantId.value
    && dto.value.reservationTime.value >= now
  }

  /** The row inserted for an accepted request. */
  function NewReservation(d: ReservationRequest, id: int, userId: int, now: int): (r: Reservation)
    requires d.restaurantId.Some? && d.tableId.Some? && d.reservationTime.Some?
    requires d.duration.Some? && d.personCount.Some?
    ensures r.status == StatusPending && r.userId == userId
    ensures r.createdAt == now && r.updatedAt == now
    ensures r.restaurantId == d.restaurantId.value && r.tableId == d.tableId.value
    ensures r.reservationTime == d.reservationTime.value && r.duration == d.duration.value
    ensures r.personCount == d.personCount.value && r.remarks == d.remarks
    ensures r.reviewId.None? && r.cancelReason.None?
  {
    Reservation(id, d.restaurantId.value, userId, d.tableId.value, None, d.reservationTime.value,
                d.duration.value, d.personCount.value, d.remarks, StatusPending, None, now, now)
  }

  /** A booking starting exactly now passes the time check: isBefore is strict. */
  lemma BookingForNowIsNotPast(d: ReservationRequest, restaurants: seq<Restaurant>, tables: seq<Table>, now: int)
    requires CreateAllowed(Some(d.(reservationTime := Some(now + 1))), restaurants, tables, now)
    ensures CreateCheck(Some(d.(reservationTime := Some(now))), restaurants, tables, now).None?
  {
  }

  /** A request that passes every other check but starts before now is
    * refused with the past-time message, and only then. */
  lemma PastBookingRefused(d: ReservationRequest, restaurants: seq<Restaurant>, tables: seq<Table>, now: int, t: int)
    requires CreateAllowed(Some(d), restaurants, tables, now)
    requires t < now
    ensures CreateCheck(Some(d.(reservationTime := Some(t))), restaurants, tables, now) == Some("Cannot reserve past time")
  {
  }

  /** A table of another restaurant is refused even when everything else holds. */
  lemma ForeignTableRefused(d: ReservationRequest, restaurants: seq<Restaurant>, tables: seq<Table>, now: int)
    requires d.restaurantId.Some? && d.tableId.Some? && d.reservationTime.Some?
    requires d.duration.Some? && d.duration.value > 0 && d.personCount.Some? && d.personCount.value > 0
    requires SelectById(restaurants, RestaurantId, d.restaurantId.value).Some?
    requires SelectById(restaurants, RestaurantId, d.restaurantId.value).value.status == RestaurantOperating
    requires SelectById(tables, TableId, d.tableId.value).Some?
    requires SelectById(tables, TableId, d.tableId.value).value.restaurantId != d.restaurantId.value
    ensures CreateCheck(Some(d), restaurants, tables, now) == Some("Table does not belong to this restaurant")
  {
  }

  // ---------------------------------------------------------------- transitions

  /** The reservation-id/status/label/reason/updatedAt map returned on success. */
  datatype StatusChange = StatusChange(id: int, status: int, statusText: string, reason: Option<string>, updatedAt: int)

  /** The moves the four operations can make: cancel from Pending or
    * Confirmed, confirm and reject from Pending, complete from Confirmed. */
  predicate LegalTransition(from: int, to: int) {
    || (to == StatusCancelled && (from == StatusPending || from == StatusConfirmed))
    || (from == StatusPending && to == StatusConfirmed)
    || (from == StatusPending && to == StatusRejected)
    || (from == StatusConfirmed && to == StatusCompleted)
  }

  /** Cancelled, Completed and Rejected are never left by a legal move. */
  predicate Terminal(status: int) {
    status == StatusCancelled || status == StatusCompleted || status == StatusRejected
  }

  /** No legal move leaves a terminal status. */
  lemma TerminalHasNoLegalMove(from: int, to: int)
    requires Terminal(from)
    ensures !LegalTransition(from, to)
  {
  }

  /** The row updateById writes back: the new status and timestamp, and the
    * reason when one is given (updateById skips null fields, so a null
    * reason keeps the stored one). */
  function Transitioned(r: Reservation, status: int, reason: Option<string>, now: int): (t: Reservation)
    ensures t.id == r.id && t.status == status && t.updatedAt == now
    ensures t.cancelReason == (if reason.Some? then reason else r.cancelReason)
    ensures t.(status := r.status, cancelReason := r.cancelReason, updatedAt := r.updatedAt) == r
  {
    r.(status := status, cancelReason := if reason.Some? then reason else r.cancelReason, updatedAt := now)
  }

  /** `after` is `before` with only the lifecycle fields (status,
    * cancelReason, updatedAt) of row i changed. */
  predicate ChangesOnlyLifecycle(before: seq<Reservation>, after: seq<Reservation>, i: int) {
    && 0 <= i < |before| && |after| == |before|
    && (forall j :: 0 <= j < |before| && j != i ==> after[j] == before[j])
    && after[i].(status := before[i].status, cancelReason := before[i].cancelReason, updatedAt := before[i].updatedAt) == before[i]
  }

  /** cancelReservation: the booking's own diner may cancel a Pending or
    * Confirmed booking; the reason is stored. */
  function Cancel(rows: seq<Reservation>, reservationId: Option<int>, cancelReason: Option<string>,
                  userId: Option<int>, now: int): (Response<StatusChange>, seq<Reservation>)
  {
    if reservationId.None? then (ValidateFailed(NoReservationId), rows)
    else if userId.None? then (ValidateFailed("User ID cannot be empty"), rows)
    else match IndexOf(rows, ReservationId, reservationId.value)
      case None => (ValidateFailed(NoReservation), rows)
      case Some(i) =>
        if rows[i].userId != userId.value then (Forbidden(), rows)
        else if rows[i].status != StatusPending && rows[i].status != StatusConfirmed then
          (ValidateFailed(NotCancellable), rows)
        else
          var change := StatusChange(rows[i].id, StatusCancelled, GetStatusName(Some(StatusCancelled)), cancelReason, now);
          (SuccessWith(Some(change), "Cancelled successfully"),
           rows[i := Transitioned(rows[i], StatusCancelled, cancelReason, now)])
  }

  /** The three restaurant-side operations. */
  datatype Action = Confirm | Reject | Complete

  function From(a: Action): int {
    match a
    case Confirm => StatusPending
    case Reject => StatusPending
    case Complete => StatusConfirmed
  }

  function To(a: Action): int {
    match a
    case Confirm => StatusConfirmed
    case Reject => StatusRejected
    case Complete => StatusCompleted
  }

  function Verb(a: Action): string {
    match a
    case Confirm => "confirm"
    case Reject => "reject"
    case Complete => "complete"
  }

  function Done(a: Action): string {
    match a
    case Confirm => "Confirmed successfully"
    case Reject => "Rejected successfully"
    case Complete => "Completed successfully"
  }

  /** The reason an action stores: reject stores its reason, the others none. */
  function StoredReason(a: Action, reason: Option<string>): Option<string> {
    if a == Reject then reason else None
  }

  /** The message of the NullPointerException raised by unboxing a null role. */
  const NullRoleMessage: string := "Cannot invoke " + Quote + "java.lang.Integer.intValue()" + Quote + " because " + Quote + "role" + Quote + " is null"

  /** `selectCount(id = restaurantId AND owner_id = userId) > 0`; a null user
    * matches no owner. */
  predicate Owns(restaurants: seq<Restaurant>, restaurantId: int, userId: Option<int>) {
    userId.Some? && OwnedBy(restaurants, restaurantId, userId.value)
  }

  /** confirmReservation, rejectReservation and completeReservation: a
    * role-1 caller must own the booking's restaurant, every other role is
    * let through, and the booking must be in the action's source status.
    * Reject also needs a reason with text, checked before the lookup. */
  function Handle(a: Action, rows: seq<Reservation>, restaurants: seq<Restaurant>, reservationId: Option<int>,
                  reason: Option<string>, userId: Option<int>, role: Option<int>, now: int): (Response<StatusChange>, seq<Reservation>)
  {
    if reservationId.None? then (ValidateFailed(NoReservationId), rows)
    else if a == Reject && (reason.None? || Trim(reason.value) == "") then
      (ValidateFailed(NoRejectionReason), rows)
    else match IndexOf(rows, ReservationId, reservationId.value)
      case None => (ValidateFailed(NoReservation), rows)
      case Some(i) =>
        if role.None? then (Error(500, "Failed to " + Verb(a) + " reservation: " + NullRoleMessage), rows)
        else if role.value == RoleManager && !Owns(restaurants, rows[i].restaurantId, userId) then
          (ForbiddenWith(NotYourRestaurant), rows)
        else if rows[i].status != From(a) then
          (ValidateFailed("Cannot " + Verb(a) + " reservation in current status"), rows)
        else
          var change := StatusChange(rows[i].id, To(a), GetStatusName(Some(To(a))), StoredReason(a, reason), now);
          (SuccessWith(Some(change), Done(a)),
           rows[i := Transitioned(rows[i], To(a), StoredReason(a, reason), now)])
  }

  /** Every successful cancel is a legal move of exactly the addressed
    * booking that touches only its lifecycle fields; a failed one changes
    * nothing. */
  lemma CancelFollowsTable(rows: seq<Reservation>, reservationId: Option<int>, cancelReason: Option<string>,
                           userId: Option<int>, now: int)
    ensures !IsSuccess(Cancel(rows, reservationId, cancelReason, userId, now).0) ==>
      Cancel(rows, reservationId, cancelReason, userId, now).1 == rows
    ensures IsSuccess(Cancel(rows, reservationId, cancelReason, userId, now).0) ==>
      exists i :: 0 <= i < |rows| && Some(rows[i].id) == reservationId
        && LegalTransition(rows[i].status, StatusCancelled)
        && ChangesOnlyLifecycle(rows, Cancel(rows, reservationId, cancelReason, userId, now).1, i)
        && Cancel(rows, reservationId, cancelReason, userId, now).1[i].status == StatusCancelled
        && Cancel(rows, reservationId, cancelReason, userId, now).1[i].updatedAt == now
  {
    var out := Cancel(rows, reservationId, cancelReason, userId, now);
    if IsSuccess(out.0) {
      var i := IndexOf(rows, ReservationId, reservationId.value).value;
      assert ChangesOnlyLifecycle(rows, out.1, i);
    }
  }

  /** Every successful confirm, reject or complete moves the addressed
    * booking from the action's source to its target status, touching only
    * its lifecycle fields; a failed one changes nothing. */
  lemma HandleFollowsTable(a: Action, rows: seq<Reservation>, restaurants: seq<Restaurant>, reservationId: Option<int>,
                           reason: Option<string>, userId: Option<int>, role: Option<int>, now: int)
    ensures !IsSuccess(Handle(a, rows, restaurants, reservationId, reason, userId, role, now).0) ==>
      Handle(a, rows, restaurants, reservationId, reason, userId, role, now).1 == rows
    ensures IsSuccess(Handle(a, rows, restaurants, reservationId, reason, userId, role, now).0) ==>
      exists i :: 0 <= i < |rows| && Some(rows[i].id) == reservationId
        && rows[i].status == From(a) && LegalTransition(From(a), To(a))
        && ChangesOnlyLifecycle(rows, Handle(a, rows, restaurants, reservationId, reason, userId, role, now).1, i)
        && Handle(a, rows, restaurants, reservationId, reason, userId, role, now).1[i].status == To(a)
        && Handle(a, rows, restaurants, reservationId, reason, userId, role, now).1[i].updatedAt == now
  {
    var out := Handle(a, rows, restaurants, reservationId, reason, userId, role, now);
    if IsSuccess(out.0) {
      var i := IndexOf(rows, ReservationId, reservationId.value).value;
      var t := Transitioned(rows[i], To(a), StoredReason(a, reason), now);
      assert rows[i].status == From(a) && out.1 == rows[i := t];
      TransitionKeepsOthers(rows, i, t);
    }
  }

  /** Writing one booking back with only its lifecycle fields changed. */
  lemma TransitionKeepsOthers(rows: seq<Reservation>, i: int, t: Reservation)
    requires 0 <= i < |rows|
    requires t.(status := rows[i].status, cancelReason := rows[i].cancelReason, updatedAt := rows[i].updatedAt) == rows[i]
    ensures ChangesOnlyLifecycle(rows, rows[i := t], i)
  {
  }

  /** A booking in Cancelled, Completed or Rejected is never left through
    * these operations: each answers with a failure and the table is unchanged. */
  lemma {:induction false} TerminalStatusesAreFinal(rows: seq<Reservation>, k: nat, restaurants: seq<Restaurant>,
                                                    reason: Option<string>, userId: Option<int>, role: Option<int>, now: int)
    requires UniqueIds(rows, ReservationId)
    requires k < |rows| && Terminal(rows[k].status)
    ensures forall a: Action ::
      !IsSuccess(Handle(a, rows, restaurants, Some(rows[k].id), reason, userId, role, now).0)
      && Handle(a, rows, restaurants, Some(rows[k].id), reason, userId, role, now).1 == rows
    ensures !IsSuccess(Cancel(rows, Some(rows[k].id), reason, userId, now).0)
      && Cancel(rows, Some(rows[k].id), reason, userId, now).1 == rows
  {
    IndexOfUnique(rows, ReservationId, rows[k].id, k);
  }

  /** A diner other than the booking's own gets 403 and nothing changes,
    * whatever the booking's status. */
  lemma {:induction false} CancelByOtherUserForbidden(rows: seq<Reservation>, k: nat, reason: Option<string>, userId: int, now: int)
    requires UniqueIds(rows, ReservationId)
    requires k < |rows| && rows[k].userId != userId
    ensures Cancel(rows, Some(rows[k].id), reason, Some(userId), now) == (Forbidden(), rows)
  {
    IndexOfUnique(rows, ReservationId, rows[k].id, k);
  }

  /** The booking's own diner cancels any Pending or Confirmed booking. */
  lemma {:induction false} OwnerMayCancelOpenBooking(rows: seq<Reservation>, k: nat, reason: Option<string>, now: int)
    requires UniqueIds(rows, ReservationId)
    requires k < |rows| && (rows[k].status == StatusPending || rows[k].status == StatusConfirmed)
    ensures IsSuccess(Cancel(rows, Some(rows[k].id), reason, Some(rows[k].userId), now).0)
    ensures Cancel(rows, Some(rows[k].id), reason, Some(rows[k].userId), now).1[k].status == StatusCancelled
  {
    IndexOfUnique(rows, ReservationId, rows[k].id, k);
  }

  /** A null or blank rejection reason is refused before the booking is looked
    * up, so even an unknown id gets this message. */
  lemma BlankRejectionRefusedFirst(rows: seq<Reservation>, restaurants: seq<Restaurant>, reservationId: int,
                                   reason: Option<string>, userId: Option<int>, role: Option<int>, now: int)
    requires reason.None? || forall i :: 0 <= i < |reason.value| ==> TrimmedChar(reason.value[i])
    ensures Handle(Reject, rows, restaurants, Some(reservationId), reason, userId, role, now)
      == (ValidateFailed(NoRejectionReason), rows)
  {
    if reason.Some? {
      TrimEmptyIff(reason.value);
    }
  }

  /** A successful reject stores its reason as the booking's cancelReason. */
  lemma {:induction false} RejectStoresReason(rows: seq<Reservation>, restaurants: seq<Restaurant>, k: nat,
                                              reason: Option<string>, userId: Option<int>, role: Option<int>, now: int)
    requires UniqueIds(rows, ReservationId) && k < |rows|
    requires IsSuccess(Handle(Reject, rows, restaurants, Some(rows[k].id), reason, userId, role, now).0)
    ensures reason.Some? && Trim(reason.value) != ""
    ensures Handle(Reject, rows, restaurants, Some(rows[k].id), reason, userId, role, now).1[k].cancelReason == reason
  {
    IndexOfUnique(rows, ReservationId, rows[k].id, k);
  }

  /** A role-1 caller who does not own the booking's restaurant gets 403
    * whatever the booking's status: ownership is decided first. */
  lemma {:induction false} ManagerOwnershipCheckedBeforeStatus(a: Action, rows: seq<Reservation>, restaurants: seq<Restaurant>, k: nat,
                                                               reason: Option<string>, userId: Option<int>, now: int)
    requires UniqueIds(rows, ReservationId) && k < |rows|
    requires a == Reject ==> reason.Some? && Trim(reason.value) != ""
    requires !Owns(restaurants, rows[k].restaurantId, userId)
    ensures Handle(a, rows, restaurants, Some(rows[k].id), reason, userId, Some(RoleManager), now)
      == (ForbiddenWith(NotYourRestaurant), rows)
  {
    IndexOfUnique(rows, ReservationId, rows[k].id, k);
  }

  /** Any role other than 1 skips the ownership check: such a caller moves a
    * booking in the source status whoever owns the restaurant. */
  lemma {:induction false} OtherRolesSkipOwnership(a: Action, rows: seq<Reservation>, restaurants: seq<Restaurant>, k: nat,
                                                   reason: Option<string>, userId: Option<int>, role: int, now: int)
    requires UniqueIds(rows, ReservationId) && k < |rows|
    requires a == Reject ==> reason.Some? && Trim(reason.value) != ""
    requires role != RoleManager && rows[k].status == From(a)
    ensures IsSuccess(Handle(a, rows, restaurants, Some(rows[k].id), reason, userId, Some(role), now).0)
    ensures Handle(a, rows, restaurants, Some(rows[k].id), reason, userId, Some(role), now).1[k].status == To(a)
  {
    IndexOfUnique(rows, ReservationId, rows[k].id, k);
  }

  // ---------------------------------------------------------------- staff overwrite

  /** The restaurants a caller may act on as staff; a null caller id matches
    * no staff row. */
  function StaffScope(restaurants: seq<Restaurant>, staff: seq<Staff>, staffId: Option<int>): seq<int> {
    if staffId.None? then [] else GetRestaurantIdsByStaffId(restaurants, staff, staffId.value)
  }

  /** The scope holds exactly the restaurants whose owner approved the
    * waiter, and nothing for a null id. */
  lemma StaffScopeMembers(restaurants: seq<Restaurant>, staff: seq<Staff>, staffId: Option<int>)
    ensures forall id :: id in StaffScope(restaurants, staff, staffId) <==>
      staffId.Some? && exists r :: r in restaurants && r.id == id && ApprovedStaffOf(staff, staffId.value, r.ownerId)
  {
    if staffId.Some? {
      StaffRestaurantIds(restaurants, staff, staffId.value);
    }
  }

  /** updateStaffReservationStatus: the booking must exist and belong to a
    * restaurant in the caller's staff scope; the status is then written as
    * given, with no transition check and no new updatedAt. A null status is
    * skipped by updateById and leaves the row as it was; the controller's
    * required status parameter means no request reaches this case. The one-row check
    * after the update cannot fail once the row was found. */
  const StaffNotFound := "Failed to update reservation status: Reservation does not exist"
  const StaffNoPermission := "Failed to update reservation status: No permission to modify this reservation status"

  function StaffOverwrite(rows: seq<Reservation>, restaurants: seq<Restaurant>, staff: seq<Staff>,
                          staffId: Option<int>, reservationId: Option<int>, status: Option<int>): (Except<Reservation>, seq<Reservation>)
  {
    var found := if reservationId.None? then None else IndexOf(rows, ReservationId, reservationId.value);
    if found.None? then (Throws(StaffNotFound), rows)
    else
      var i := found.value;
      if rows[i].restaurantId !in StaffScope(restaurants, staff, staffId) then
        (Throws(StaffNoPermission), rows)
      else
        var updated := if status.Some? then rows[i].(status := status.value) else rows[i];
        (Value(updated), rows[i := updated])
  }

  /** The overwrite succeeds exactly for a booking in the caller's scope; it
    * then sets any requested status, even out of a terminal one, changes no
    * other field and no other row, and returns the row it wrote. */
  lemma {:induction false} StaffOverwriteWithinScope(rows: seq<Reservation>, restaurants: seq<Restaurant>, staff: seq<Staff>,
                                                     staffId: Option<int>, k: nat, status: Option<int>)
    requires UniqueIds(rows, ReservationId) && k < |rows|
    ensures StaffOverwrite(rows, restaurants, staff, staffId, Some(rows[k].id), status).0.Value?
      <==> rows[k].restaurantId in StaffScope(restaurants, staff, staffId)
    ensures StaffOverwrite(rows, restaurants, staff, staffId, Some(rows[k].id), status).0.Value? ==>
      && StaffOverwrite(rows, restaurants, staff, staffId, Some(rows[k].id), status).1
           == rows[k := rows[k].(status := if status.Some? then status.value else rows[k].status)]
      && StaffOverwrite(rows, restaurants, staff, staffId, Some(rows[k].id), status).0.v
           == StaffOverwrite(rows, restaurants, staff, staffId, Some(rows[k].id), status).1[k]
    ensures StaffOverwrite(rows, restaurants, staff, staffId, Some(rows[k].id), status).0.Throws? ==>
      StaffOverwrite(rows, restaurants, staff, staffId, Some(rows[k].id), status).1 == rows
  {
    IndexOfUnique(rows, ReservationId, rows[k].id, k);
  }

  /** A missing booking always throws and changes nothing. */
  lemma StaffOverwriteMissing(rows: seq<Reservation>, restaurants: seq<Restaurant>, staff: seq<Staff>,
                              staffId: Option<int>, reservationId: int, status: Option<int>)
    requires forall r :: r in rows ==> r.id != reservationId
    ensures StaffOverwrite(rows, restaurants, staff, staffId, Some(reservationId), status)
      == (Throws(StaffNotFound), rows)
  {
  }

  // ---------------------------------------------------------------- status lists

  /** The tokens of the `status` parameter: none for null or "", otherwise
    * the pieces of String.split(","). */
  function StatusTokens(status: Option<string>): seq<string> {
    if status.None? || status.value == "" then [] else Split(status.value, ',')
  }

  /** The token as parsed: trimmed first when `trim` is set. */
  function Token(t: string, trim: bool): string {
    if trim then Trim(t) else t
  }

  /** The lenient loops: each token that parses as an int is kept in order, the
    * others are dropped (logged as invalid). */
  function LenientStatuses(tokens: seq<string>, trim: bool): (r: seq<int>)
    ensures |r| <= |tokens|
  {
    if tokens == [] then []
    else
      var rest := LenientStatuses(tokens[..|tokens| - 1], trim);
      match ParseInt(Token(tokens[|tokens| - 1], trim))
      case None => rest
      case Some(v) => rest + [v]
  }

  /** The message of the NumberFormatException Integer.parseInt throws for a
    * token that is not an int. */
  function BadToken(t: string): string {
    "For input string: " + Quote + Trim(t) + Quote
  }

  /** A token as the strict loop parses it: trimmed, then Integer.parseInt. */
  function TokenInt(t: string): Option<int> {
    ParseInt(Trim(t))
  }

  /** A loop that parses every token with `parse` and throws `fail(t)` at the
    * first token t that `parse` refuses. */
  function ParseAll(tokens: seq<string>, parse: string -> Option<int>, fail: string -> string): (r: Except<seq<int>>)
    ensures r.Value? ==> |r.v| == |tokens|
  {
    if tokens == [] then Value([])
    else match ParseAll(tokens[..|tokens| - 1], parse, fail)
      case Throws(m) => Throws(m)
      case Value(rest) =>
        match parse(tokens[|tokens| - 1])
        case None => Throws(fail(tokens[|tokens| - 1]))
        case Some(v) => Value(rest + [v])
  }

  /** When every token parses, the loop succeeds with each token's value in
    * order. */
  lemma {:induction false} ParseAllSucceeds(tokens: seq<string>, parse: string -> Option<int>, fail: string -> string)
    requires forall i :: 0 <= i < |tokens| ==> parse(tokens[i]).Some?
    ensures ParseAll(tokens, parse, fail).Value?
    ensures forall i :: 0 <= i < |tokens| ==> Some(ParseAll(tokens, parse, fail).v[i]) == parse(tokens[i])
  {
    if tokens != [] {
      var n := |tokens| - 1;
      var prefix := tokens[..n];
      assert forall i :: 0 <= i < n ==> prefix[i] == tokens[i];
      ParseAllSucceeds(prefix, parse, fail);
      var before, last := ParseAll(prefix, parse, fail), parse(tokens[n]);
      var r := Value(before.v + [last.value]);
      assert ParseAll(tokens, parse, fail) == r;
      forall i | 0 <= i < |tokens| ensures Some(r.v[i]) == parse(tokens[i]) {
        if i < n {
          assert r.v[i] == before.v[i];
        }
      }
    }
  }

  /** Otherwise it throws the failure of the first token refused. */
  lemma {:induction false} ParseAllFirstBad(tokens: seq<string>, parse: string -> Option<int>, fail: string -> string, j: nat)
    requires j < |tokens| && parse(tokens[j]).None?
    requires forall i :: 0 <= i < j ==> parse(tokens[i]).Some?
    ensures ParseAll(tokens, parse, fail) == Throws(fail(tokens[j]))
  {
    var n := |tokens| - 1;
    var prefix := tokens[..n];
    assert forall i :: 0 <= i < n ==> prefix[i] == tokens[i];
    if j == n {
      ParseAllSucceeds(prefix, parse, fail);
    } else {
      ParseAllFirstBad(prefix, parse, fail, j);
      assert ParseAll(tokens, parse, fail) == ParseAll(prefix, parse, fail);
    }
  }

  /** A successful loop parsed every token, and holds their values in order. */
  lemma {:induction false} ParseAllValueParses(tokens: seq<string>, parse: string -> Option<int>, fail: string -> string)
    ensures ParseAll(tokens, parse, fail).Value? ==>
      forall i :: 0 <= i < |tokens| ==> Some(ParseAll(tokens, parse, fail).v[i]) == parse(tokens[i])
  {
    if tokens != [] && ParseAll(tokens, parse, fail).Value? {
      var n := |tokens| - 1;
      var prefix := tokens[..n];
      assert forall i :: 0 <= i < n ==> prefix[i] == tokens[i];
      ParseAllValueParses(prefix, parse, fail);
      var before := ParseAll(prefix, parse, fail);
      var r := ParseAll(tokens, parse, fail);
      assert before.Value? && parse(tokens[n]).Some? && r.v == before.v + [parse(tokens[n]).value];
      forall i | 0 <= i < |tokens| ensures Some(r.v[i]) == parse(tokens[i]) {
        if i < n {
          assert r.v[i] == before.v[i];
        }
      }
    }
  }

  /** The loop succeeds exactly when every token parses, with their values. */
  lemma ParseAllIff(tokens: seq<string>, parse: string -> Option<int>, fail: string -> string)
    ensures ParseAll(tokens, parse, fail).Value? <==> forall i :: 0 <= i < |tokens| ==> parse(tokens[i]).Some?
    ensures ParseAll(tokens, parse, fail).Value? ==>
      forall i :: 0 <= i < |tokens| ==> Some(ParseAll(tokens, parse, fail).v[i]) == parse(tokens[i])
  {
    ParseAllValueParses(tokens, parse, fail);
    if forall i :: 0 <= i < |tokens| ==> parse(tokens[i]).Some? {
      ParseAllSucceeds(tokens, parse, fail);
    }
  }

  /** Once a prefix throws, the whole token list throws with the same message. */
  lemma {:induction false} ParseAllStaysThrown(tokens: seq<string>, parse: string -> Option<int>, fail: string -> string, n: nat)
    requires n <= |tokens| && ParseAll(tokens[..n], parse, fail).Throws?
    ensures ParseAll(tokens, parse, fail) == ParseAll(tokens[..n], parse, fail)
    decreases |tokens| - n
  {
    if n < |tokens| {
      assert tokens[..n + 1][..n] == tokens[..n];
      ParseAllStaysThrown(tokens, parse, fail, n + 1);
    } else {
      assert tokens[..n] == tokens;
    }
  }

  /** The strict loop of the staff listing: every token is trimmed and parsed,
    * and the first token that is not an int makes the whole call throw. */
  function StrictStatuses(tokens: seq<string>): (r: Except<seq<int>>)
    ensures r.Value? <==> forall i :: 0 <= i < |tokens| ==> TokenInt(tokens[i]).Some?
    ensures r.Value? ==> |r.v| == |tokens| && forall i :: 0 <= i < |tokens| ==> Some(r.v[i]) == TokenInt(tokens[i])
  {
    ParseAllIff(tokens, TokenInt, BadToken);
    ParseAll(tokens, TokenInt, BadToken)
  }

  /** Otherwise it throws the NumberFormatException of the first token that is
    * not an int. */
  lemma StrictStatusesFirstBad(tokens: seq<string>, j: nat)
    requires j < |tokens| && TokenInt(tokens[j]).None?
    requires forall i :: 0 <= i < j ==> TokenInt(tokens[i]).Some?
    ensures StrictStatuses(tokens) == Throws(BadToken(tokens[j]))
  {
    ParseAllFirstBad(tokens, TokenInt, BadToken, j);
  }

  /** `statusList.isEmpty() ? null : statusList`: no valid token means no
    * status filter. */
  function StatusFilter(statusList: seq<int>): (f: Option<seq<int>>)
    ensures f.None? <==> statusList == []
    ensures f.Some? ==> f.value == statusList
  {
    if statusList == [] then None else Some(statusList)
  }

  /** The lenient status loop of the diner, administrator and manager
    * listings; the diner's trims each token, the other two do not. */
  method ParseStatusList(status: Option<string>, trim: bool) returns (statusList: seq<int>)
    ensures statusList == LenientStatuses(StatusTokens(status), trim)
  {
    statusList := [];
    var tokens := StatusTokens(status);
    var i := 0;
    while i < |tokens|
      invariant 0 <= i <= |tokens|
      invariant statusList == LenientStatuses(tokens[..i], trim)
    {
      LenientStep(tokens, trim, i);
      var parsed := ParseInt(Token(tokens[i], trim));
      if parsed.Some? {
        statusList := statusList + [parsed.value];
      }
      i := i + 1;
    }
    assert tokens[..|tokens|] == tokens;
  }

  /** The staff listing's status filter: none when no status was given,
    * otherwise every token parsed, or the exception of the first bad one. */
  function StrictStatusFilter(status: Option<string>): (r: Except<Option<seq<int>>>)
    ensures status.None? || status.value == "" ==> r == Value(None)
    ensures r.Throws? <==> StrictStatuses(StatusTokens(status)).Throws?
  {
    if status.None? || status.value == "" then Value(None)
    else match StrictStatuses(StatusTokens(status))
      case Throws(m) => Throws(m)
      case Value(xs) => Value(Some(xs))
  }

  /** The strict status loop of the staff listing. */
  method ParseStatusListStrict(status: Option<string>) returns (r: Except<Option<seq<int>>>)
    ensures r == StrictStatusFilter(status)
  {
    if status.None? || status.value == "" {
      return Value(None);
    }
    var tokens := StatusTokens(status);
    var statusList: seq<int> := [];
    var i := 0;
    while i < |tokens|
      invariant 0 <= i <= |tokens|
      invariant StrictStatuses(tokens[..i]) == Value(statusList)
    {
      StrictStep(tokens, i, statusList);
      var parsed := TokenInt(tokens[i]);
      if parsed.None? {
        var message := BadToken(tokens[i]);
        ParseAllStaysThrown(tokens, TokenInt, BadToken, i + 1);
        r := Throws(message);
        return;
      }
      statusList := statusList + [parsed.value];
      i := i + 1;
    }
    assert tokens[..|tokens|] == tokens;
    r := Value(Some(statusList));
  }

  /** One step of the strict loop: token i is appended when it is an int,
    * and otherwise its exception is thrown. */
  lemma StrictStep(tokens: seq<string>, i: nat, xs: seq<int>)
    requires i < |tokens| && StrictStatuses(tokens[..i]) == Value(xs)
    ensures TokenInt(tokens[i]).Some? ==> StrictStatuses(tokens[..i + 1]) == Value(xs + [TokenInt(tokens[i]).value])
    ensures TokenInt(tokens[i]).None? ==> StrictStatuses(tokens[..i + 1]) == Throws(BadToken(tokens[i]))
  {
    var prefix := tokens[..i + 1];
    assert prefix[..i] == tokens[..i];
    assert prefix[|prefix| - 1] == tokens[i];
  }

  /** The comma-separated text of a list of statuses, as a client sends it. */
  function StatusCsv(xs: seq<int>): string {
    Join(Printed(xs), ',')
  }

  function Printed(xs: seq<int>): (ps: seq<string>)
    ensures |ps| == |xs|
    ensures forall i :: 0 <= i < |xs| ==> ps[i] == IntToString(xs[i])
  {
    seq(|xs|, i requires 0 <= i < |xs| => IntToString(xs[i]))
  }

  lemma IntToStringShape(n: int)
    ensures |IntToString(n)| >= 1
    ensures forall i :: 0 <= i < |IntToString(n)| ==> IntToString(n)[i] == '-' || IsDigit(IntToString(n)[i])
  {
  }

  /** Printed numbers have nothing for trim to remove. */
  lemma TrimPrinted(n: int)
    ensures Trim(IntToString(n)) == IntToString(n)
  {
    IntToStringShape(n);
    var s := IntToString(n);
    assert !TrimmedChar(s[0]);
    assert TrimStart(s) == s;
    assert !TrimmedChar(s[|s| - 1]);
  }

  /** Splitting the printed list gives back the printed numbers. */
  lemma SplitStatusCsv(xs: seq<int>)
    requires |xs| >= 1
    ensures Split(StatusCsv(xs), ',') == Printed(xs)
  {
    var ps := Printed(xs);
    forall i | 0 <= i < |ps| ensures ps[i] != [] && ',' !in ps[i] {
      IntToStringShape(xs[i]);
    }
    SplitJoinRoundTrip(ps, ',');
  }

  /** Every printed int of the list is read back by the strict loop. */
  lemma StrictReadsPrinted(xs: seq<int>)
    requires forall i :: 0 <= i < |xs| ==> InInt32(xs[i])
    ensures StrictStatuses(Printed(xs)) == Value(xs)
  {
    var ps := Printed(xs);
    forall i | 0 <= i < |ps| ensures TokenInt(ps[i]) == Some(xs[i]) {
      ParseIntOfIntToString(xs[i]);
      TrimPrinted(xs[i]);
    }
    var r := StrictStatuses(ps).v;
    forall i | 0 <= i < |xs| ensures r[i] == xs[i] {
      assert Some(r[i]) == TokenInt(ps[i]) == Some(xs[i]);
    }
    assert |r| == |xs| && r == xs;
  }

  lemma {:induction false} LenientReadsPrinted(xs: seq<int>, trim: bool)
    requires forall i :: 0 <= i < |xs| ==> InInt32(xs[i])
    ensures LenientStatuses(Printed(xs), trim) == xs
  {
    if xs != [] {
      var n := |xs| - 1;
      var ps := Printed(xs);
      assert ps[..n] == Printed(xs[..n]);
      LenientReadsPrinted(xs[..n], trim);
      assert ps[n] == IntToString(xs[n]);
      TokenOfPrinted(xs[n], trim);
      LenientKeeps(ps, trim, xs[n]);
      DropLastAppend(xs);
    }
  }

  lemma DropLastAppend(xs: seq<int>)
    requires xs != []
    ensures xs[..|xs| - 1] + [xs[|xs| - 1]] == xs
  {
  }

  /** A last token that parses is appended to what the others give. */
  lemma LenientKeeps(tokens: seq<string>, trim: bool, v: int)
    requires tokens != [] && ParseInt(Token(tokens[|tokens| - 1], trim)) == Some(v)
    ensures LenientStatuses(tokens, trim) == LenientStatuses(tokens[..|tokens| - 1], trim) + [v]
  {
  }

  /** One step of the lenient loop: token i is appended when it parses and
    * dropped otherwise. */
  lemma LenientStep(tokens: seq<string>, trim: bool, i: nat)
    requires i < |tokens|
    ensures ParseInt(Token(tokens[i], trim)).Some? ==>
      LenientStatuses(tokens[..i + 1], trim) == LenientStatuses(tokens[..i], trim) + [ParseInt(Token(tokens[i], trim)).value]
    ensures ParseInt(Token(tokens[i], trim)).None? ==>
      LenientStatuses(tokens[..i + 1], trim) == LenientStatuses(tokens[..i], trim)
  {
    var prefix := tokens[..i + 1];
    assert prefix[..i] == tokens[..i];
    assert prefix[|prefix| - 1] == tokens[i];
  }

  /** A printed int, trimmed or not, parses back to itself. */
  lemma TokenOfPrinted(n: int, trim: bool)
    requires InInt32(n)
    ensures ParseInt(Token(IntToString(n), trim)) == Some(n)
  {
    ParseIntOfIntToString(n);
    TrimPrinted(n);
  }

  /** A comma-separated list of int statuses, as the client sends it, is read
    * back as exactly that list by every one of the three loops. */
  lemma StatusCsvRoundTrip(xs: seq<int>, trim: bool)
    requires |xs| >= 1
    requires forall i :: 0 <= i < |xs| ==> InInt32(xs[i])
    ensures LenientStatuses(StatusTokens(Some(StatusCsv(xs))), trim) == xs
    ensures StrictStatuses(StatusTokens(Some(StatusCsv(xs)))) == Value(xs)
  {
    SplitStatusCsv(xs);
    IntToStringShape(xs[0]);
    assert StatusCsv(xs) != "" by {
      if |xs| >= 2 { JoinHasSep(Printed(xs), ','); }
    }
    LenientReadsPrinted(xs, trim);
    StrictReadsPrinted(xs);
  }

  /** A text holding no int token imposes no status filter on the lenient
    * listings, while the staff listing throws on it. */
  lemma NoValidTokenNoFilter(status: string, trim: bool)
    requires status != ""
    requires forall t :: t in StatusTokens(Some(status)) ==> ParseInt(Token(t, trim)).None?
    ensures StatusFilter(LenientStatuses(StatusTokens(Some(status)), trim)).None?
    ensures trim && StatusTokens(Some(status)) != [] ==> StrictStatuses(StatusTokens(Some(status))).Throws?
  {
    NoTokenParses(StatusTokens(Some(status)), trim);
  }

  lemma {:induction false} NoTokenParses(tokens: seq<string>, trim: bool)
    requires forall t :: t in tokens ==> ParseInt(Token(t, trim)).None?
    ensures LenientStatuses(tokens, trim) == []
    ensures trim && tokens != [] ==> StrictStatuses(tokens).Throws?
  {
    if tokens != [] {
      var n := |tokens| - 1;
      assert forall t :: t in tokens[..n] ==> t in tokens;
      NoTokenParses(tokens[..n], trim);
      assert tokens[n] in tokens;
    }
  }

  // ---------------------------------------------------------------- listings

  /** The diner listing's view: reviewed is whether this booking carries a
    * review id. */
  function ToDinerView(r: Reservation, restaurants: seq<Restaurant>, tables: seq<Table>): (v: ReservationView)
    ensures v.reservation == r && v.statusText == GetStatusName(Some(r.status))
    ensures v.reviewed == Some(r.reviewId.Some?)
  {
    ReservationView(r, NameOf(SelectById(restaurants, RestaurantId, r.restaurantId)),
                    TypeOf(SelectById(tables, TableId, r.tableId)),
                    GetStatusName(Some(r.status)), Some(r.reviewId.Some?))
  }

  /** The diner listing's condition: own bookings, optionally by status. */
  function DinerCondition(userId: int, statuses: Option<seq<int>>): Reservation -> bool {
    (r: Reservation) => r.userId == userId && InListIfGiven(r.status, statuses)
  }

  /** The records of selectPage(new Page(page, pageSize), wrapper) ordered by
    * created_at descending, run without the pagination interceptor: every
    * matching booking, whatever the page. */
  function DinerPage(rows: seq<Reservation>, userId: int, statuses: Option<seq<int>>): seq<Reservation> {
    SelectPageUnintercepted(rows, DinerCondition(userId, statuses), CreatedAt).records
  }

  /** A diner's list holds exactly their own bookings with a requested
    * status, each as often as the table holds it, newest first. */
  lemma DinerSeesOwnBookingsOnly(rows: seq<Reservation>, userId: int, statuses: Option<seq<int>>)
    ensures var p := DinerPage(rows, userId, statuses);
      && (forall x :: x in p <==> x in rows && x.userId == userId && InListIfGiven(x.status, statuses))
      && |p| == CountWhere(rows, DinerCondition(userId, statuses))
      && forall i, j :: 0 <= i < j < |p| ==> p[i].createdAt >= p[j].createdAt
  {
    var cond := DinerCondition(userId, statuses);
    var p := DinerPage(rows, userId, statuses);
    forall x ensures x in p <==> x in rows && x.userId == userId && InListIfGiven(x.status, statuses) {
      assert x in p <==> x in rows && cond(x);
    }
  }

  /** As the application runs it, a diner with more matching bookings than
    * the page size asked for gets every one of them back, where the
    * intercepted query would report their count as the total. */
  lemma DinerListIgnoresPageSize(rows: seq<Reservation>, userId: int, statuses: Option<seq<int>>, page: int, pageSize: int)
    requires 0 <= pageSize < CountWhere(rows, DinerCondition(userId, statuses))
    ensures |DinerPage(rows, userId, statuses)| > pageSize
    ensures SelectPage(rows, DinerCondition(userId, statuses), CreatedAt, page, pageSize).total > 0
  {
    UninterceptedPageIgnoresSize(rows, DinerCondition(userId, statuses), CreatedAt, page, pageSize);
  }

  /** With the pagination interceptor attached, a diner's page would hold at
    * most pageSize of their own bookings with a requested status, newest
    * first, with the count of all of them as its total. */
  lemma InterceptedDinerPage(rows: seq<Reservation>, userId: int, statuses: Option<seq<int>>, page: int, pageSize: int)
    requires pageSize >= 0
    ensures var r := SelectPage(rows, DinerCondition(userId, statuses), CreatedAt, page, pageSize);
      && |r.records| <= pageSize
      && r.total == CountWhere(rows, DinerCondition(userId, statuses))
      && (forall x :: x in r.records ==> x in rows && x.userId == userId && InListIfGiven(x.status, statuses))
      && forall i, j :: 0 <= i < j < |r.records| ==> r.records[i].createdAt >= r.records[j].createdAt
  {
    var cond := DinerCondition(userId, statuses);
    var r := SelectPage(rows, cond, CreatedAt, page, pageSize);
    SelectPageSound(rows, cond, CreatedAt, page, pageSize);
    forall x | x in r.records ensures x in rows && x.userId == userId && InListIfGiven(x.status, statuses) {
      assert x in rows && cond(x);
    }
  }

  /** getUserReservations: a null user is refused; otherwise every booking
    * of the caller (statuses parsed leniently after trimming, none valid
    * meaning no filter), newest first, with a total of 0: selectPage runs
    * without the pagination interceptor, so page and pageSize have no
    * effect. */
  method GetUserReservations(rows: seq<Reservation>, restaurants: seq<Restaurant>, tables: seq<Table>,
                             page: int, pageSize: int, status: Option<string>, userId: Option<int>)
    returns (res: Response<Listing>)
    ensures userId.None? ==> res == ValidateFailed("用户ID不能为空")
    ensures userId.Some? ==> IsSuccess(res) && res.data.Some? && res.message == ""
    ensures userId.Some? ==>
      var statuses := StatusFilter(LenientStatuses(StatusTokens(status), true));
      && res.data.value.total == 0
      && RowsOf(res.data.value.list) == DinerPage(rows, userId.value, statuses)
      && forall v :: v in res.data.value.list ==> v == ToDinerView(v.reservation, restaurants, tables)
  {
    if userId.None? {
      return ValidateFailed("用户ID不能为空");
    }
    var statusList := ParseStatusList(status, true);
    var statuses := StatusFilter(statusList);
    var selected := SelectPageUnintercepted(rows, DinerCondition(userId.value, statuses), CreatedAt);
    var views := ConvertAll(selected.records, (x: Reservation) => ToDinerView(x, restaurants, tables));
    res := SuccessWith(Some(Listing(selected.total, views)), "");
  }

  /** getAllReservations: page and size normalised, statuses parsed leniently
    * without trimming, no valid status meaning no filter; the page is the
    * administrator's query and the total its count. Only an int overflow of
    * the offset can make the query fail. */
  method GetAllReservations(rows: seq<Reservation>, restaurants: seq<Restaurant>, tables: seq<Table>, reviews: seq<Review>,
                            page: Option<int>, pageSize: Option<int>, status: Option<string>, restaurantId: Option<int>)
    returns (r: Except<Listing>)
    ensures var statuses := StatusFilter(LenientStatuses(StatusTokens(status), false));
            var size := NormalisePageSize(pageSize);
            var offset := Offset(NormalisePage(page), size);
      && (r.Value? <==> offset >= 0)
      && (r.Value? ==>
            && r.v.total == CountAllReservations(rows, statuses, restaurantId)
            && RowsOf(r.v.list) == GetAllReservationsWithPage(rows, offset, size, statuses, restaurantId).v
            && |r.v.list| <= size
            && forall v :: v in r.v.list ==>
                 && v == ToView(v.reservation, restaurants, tables, reviews)
                 && v.reservation in rows
                 && (restaurantId.Some? ==> v.reservation.restaurantId == restaurantId.value)
                 && InListIfGiven(v.reservation.status, statuses))
  {
    var size := NormalisePageSize(pageSize);
    var statusList := ParseStatusList(status, false);
    var statuses := StatusFilter(statusList);
    var offset := Offset(NormalisePage(page), size);
    var pageRows := GetAllReservationsWithPage(rows, offset, size, statuses, restaurantId);
    if pageRows.Throws? {
      return Throws(ListFailed + pageRows.reason);
    }
    AdminPageMatchesFilters(rows, offset, size, statuses, restaurantId);
    var total := CountAllReservations(rows, statuses, restaurantId);
    var views := ConvertAll(pageRows.v, (x: Reservation) => ToView(x, restaurants, tables, reviews));
    r := Value(Listing(total, views));
  }

  /** The ids of selectList(owner_id = managerId [AND id = restaurantId]). */
  function OwnedIds(restaurants: seq<Restaurant>, managerId: int, restaurantId: Option<int>): (ids: seq<int>)
    ensures forall id :: id in ids <==> OwnedBy(restaurants, id, managerId) && (restaurantId.None? || id == restaurantId.value)
  {
    if restaurants == [] then []
    else
      var rest := OwnedIds(restaurants[1..], managerId, restaurantId);
      assert forall x :: x in restaurants <==> x == restaurants[0] || x in restaurants[1..];
      var head := restaurants[0];
      if head.ownerId == managerId && (restaurantId.None? || head.id == restaurantId.value) then [head.id] + rest else rest
  }

  /** The restaurant list the manager's query is restricted to. */
  function ManagerScope(restaurants: seq<Restaurant>, managerId: int, restaurantId: Option<int>): seq<int> {
    if restaurantId.Some? then [restaurantId.value] else OwnedIds(restaurants, managerId, None)
  }

  /** getManagerReservations: a null manager throws; a manager owning no
    * matching restaurant, in particular one asking for a restaurant they do
    * not own, gets total 0 and an empty list; otherwise only bookings of
    * their restaurants (of the requested one when given) are listed. */
  method GetManagerReservations(rows: seq<Reservation>, restaurants: seq<Restaurant>, tables: seq<Table>, reviews: seq<Review>,
                                page: Option<int>, pageSize: Option<int>, status: Option<string>,
                                restaurantId: Option<int>, managerId: Option<int>)
    returns (r: Except<Listing>)
    ensures managerId.None? ==> r == Throws(ListFailed + NoManagerId)
    ensures managerId.Some? && restaurantId.Some? && !OwnedBy(restaurants, restaurantId.value, managerId.value) ==>
      r == Value(Listing(0, []))
    ensures managerId.Some? && OwnedIds(restaurants, managerId.value, restaurantId) == [] ==> r == Value(Listing(0, []))
    ensures managerId.Some? && r.Value? ==>
      var statuses := StatusFilter(LenientStatuses(StatusTokens(status), false));
      && |r.v.list| <= NormalisePageSize(pageSize)
      && forall v :: v in r.v.list ==>
           && v == ToView(v.reservation, restaurants, tables, reviews)
           && v.reservation in rows
           && OwnedBy(restaurants, v.reservation.restaurantId, managerId.value)
           && (restaurantId.Some? ==> v.reservation.restaurantId == restaurantId.value)
           && InListIfGiven(v.reservation.status, statuses)
    ensures managerId.Some? && OwnedIds(restaurants, managerId.value, restaurantId) != [] ==>
      var statuses := StatusFilter(LenientStatuses(StatusTokens(status), false));
      var size := NormalisePageSize(pageSize);
      var offset := Offset(NormalisePage(page), size);
      var scope := Some(ManagerScope(restaurants, managerId.value, restaurantId));
      && (r.Value? <==> offset >= 0)
      && (r.Throws? ==> r == Throws(ListFailed + GetManagerReservationsWithPage(rows, offset, size, statuses, scope).reason))
      && (r.Value? ==>
            && r.v.total == CountManagerReservations(rows, statuses, scope)
            && RowsOf(r.v.list) == GetManagerReservationsWithPage(rows, offset, size, statuses, scope).v)
  {
    var size := NormalisePageSize(pageSize);
    if managerId.None? {
      return Throws(ListFailed + NoManagerId);
    }
    var owned := OwnedIds(restaurants, managerId.value, restaurantId);
    if owned == [] {
      return Value(Listing(0, []));
    }
    var statusList := ParseStatusList(status, false);
    var statuses := StatusFilter(statusList);
    var offset := Offset(NormalisePage(page), size);
    var scope := ManagerScope(restaurants, managerId.value, restaurantId);
    if restaurantId.Some? {
      assert owned[0] in owned;
      assert OwnedBy(restaurants, owned[0], managerId.value) && owned[0] == restaurantId.value;
      assert scope == [restaurantId.value];
    } else {
      assert scope == owned;
      assert forall id :: id in owned ==> OwnedBy(restaurants, id, managerId.value);
    }
    assert forall id :: id in scope ==> OwnedBy(restaurants, id, managerId.value);
    r := ScopedListing(rows, restaurants, tables, reviews, offset, size, statuses, scope, ListFailed);
  }

  /** The restaurant-scoped page and count shared by the manager and staff
    * listings: getManagerReservationsWithPage and countManagerReservations
    * over a non-empty restaurant list, each row turned into its view. */
  method ScopedListing(rows: seq<Reservation>, restaurants: seq<Restaurant>, tables: seq<Table>, reviews: seq<Review>,
                       offset: int, pageSize: int, statuses: Option<seq<int>>, ids: seq<int>, prefix: string)
    returns (r: Except<Listing>)
    requires ids != []
    ensures r.Value? <==> offset >= 0 && pageSize >= 0
    ensures r.Throws? ==> r == Throws(prefix + GetManagerReservationsWithPage(rows, offset, pageSize, statuses, Some(ids)).reason)
    ensures r.Value? ==>
      && r.v.total == CountManagerReservations(rows, statuses, Some(ids))
      && RowsOf(r.v.list) == GetManagerReservationsWithPage(rows, offset, pageSize, statuses, Some(ids)).v
      && |r.v.list| <= pageSize
      && forall v :: v in r.v.list ==>
           && v == ToView(v.reservation, restaurants, tables, reviews)
           && v.reservation in rows && v.reservation.restaurantId in ids
           && InListIfGiven(v.reservation.status, statuses)
  {
    var pageRows := GetManagerReservationsWithPage(rows, offset, pageSize, statuses, Some(ids));
    if pageRows.Throws? {
      return Throws(prefix + pageRows.reason);
    }
    ManagerPageMatchesFilters(rows, offset, pageSize, statuses, Some(ids));
    var total := CountManagerReservations(rows, statuses, Some(ids));
    var views := ConvertAll(pageRows.v, (x: Reservation) => ToView(x, restaurants, tables, reviews));
    ViewsOfPage(pageRows.v, views, rows, restaurants, tables, reviews,
                (x: Reservation) => x.restaurantId in ids && InListIfGiven(x.status, statuses));
    r := Value(Listing(total, views));
  }

  /** The views of a page whose rows all satisfy p. */
  lemma ViewsOfPage(page: seq<Reservation>, views: seq<ReservationView>, rows: seq<Reservation>,
                    restaurants: seq<Restaurant>, tables: seq<Table>, reviews: seq<Review>, p: Reservation -> bool)
    requires |views| == |page| && forall i :: 0 <= i < |page| ==> views[i] == ToView(page[i], restaurants, tables, reviews)
    requires forall x :: x in page ==> x in rows && p(x)
    ensures RowsOf(views) == page
    ensures forall v :: v in views ==> v == ToView(v.reservation, restaurants, tables, reviews) && v.reservation in rows && p(v.reservation)
  {
    assert RowsOf(views) == page;
    forall v | v in views ensures v == ToView(v.reservation, restaurants, tables, reviews) && v.reservation in rows && p(v.reservation) {
      var i :| 0 <= i < |views| && views[i] == v;
      assert page[i] in page;
    }
  }

  /** The restaurant list the staff query is restricted to. */
  function StaffListScope(scope: seq<int>, restaurantId: Option<int>): seq<int> {
    if restaurantId.Some? then [restaurantId.value] else scope
  }

  /** What getStaffReservations returns: for an empty staff scope total 0
    * and an empty list; for a requested restaurant outside the scope, or a
    * status token that is not an int, the exception with the listing's
    * prefix; otherwise the restaurant-scoped page (of the requested
    * restaurant when given) at offset (page - 1) * pageSize in int
    * arithmetic, and its count. */
  predicate StaffListingOutcome(r: Except<Listing>, rows: seq<Reservation>, restaurants: seq<Restaurant>, staff: seq<Staff>,
                                tables: seq<Table>, reviews: seq<Review>, staffId: Option<int>,
                                page: int, pageSize: int, status: Option<string>, restaurantId: Option<int>)
  {
    var scope := StaffScope(restaurants, staff, staffId);
    var inScope := restaurantId.None? || restaurantId.value in scope;
    var statuses := StrictStatusFilter(status);
    && (scope == [] ==> r == Value(Listing(0, [])))
    && (scope != [] && !inScope ==> r == Throws(StaffListFailed + RestaurantOutOfScope))
    && (scope != [] && inScope && statuses.Throws? ==> r == Throws(StaffListFailed + statuses.reason))
    && (scope != [] && inScope && statuses.Value? ==>
          var ids := Some(StaffListScope(scope, restaurantId));
          var offset := Offset(page, pageSize);
          && (r.Value? <==> offset >= 0 && pageSize >= 0)
          && (r.Value? ==>
                && r.v.total == CountManagerReservations(rows, statuses.v, ids)
                && RowsOf(r.v.list) == GetManagerReservationsWithPage(rows, offset, pageSize, statuses.v, ids).v)
          && (r.Throws? ==>
                r == Throws(StaffListFailed + GetManagerReservationsWithPage(rows, offset, pageSize, statuses.v, ids).reason)))
    && (r.Value? ==> forall v :: v in r.v.list ==>
          && v == ToView(v.reservation, restaurants, tables, reviews)
          && v.reservation in rows
          && v.reservation.restaurantId in scope
          && (restaurantId.Some? ==> v.reservation.restaurantId == restaurantId.value))
  }

  /** getStaffReservations, with page and pageSize used as given. */
  method GetStaffReservations(rows: seq<Reservation>, restaurants: seq<Restaurant>, staff: seq<Staff>,
                              tables: seq<Table>, reviews: seq<Review>, staffId: Option<int>,
                              page: int, pageSize: int, status: Option<string>, restaurantId: Option<int>)
    returns (r: Except<Listing>)
    ensures StaffListingOutcome(r, rows, restaurants, staff, tables, reviews, staffId, page, pageSize, status, restaurantId)
    ensures r.Value? && pageSize >= 0 ==> |r.v.list| <= pageSize
  {
    var scope := StaffScope(restaurants, staff, staffId);
    if scope == [] {
      return Value(Listing(0, []));
    }
    if restaurantId.Some? && restaurantId.value !in scope {
      return Throws(StaffListFailed + RestaurantOutOfScope);
    }
    var parsed := ParseStatusListStrict(status);
    if parsed.Throws? {
      return Throws(StaffListFailed + parsed.reason);
    }
    var statuses := parsed.v;
    var offset := Offset(page, pageSize);
    var ids := StaffListScope(scope, restaurantId);
    StaffListWithinScope(scope, restaurantId);
    r := ScopedListing(rows, restaurants, tables, reviews, offset, pageSize, statuses, ids, StaffListFailed);
    if r.Value? {
      forall v | v in r.v.list
        ensures v.reservation.restaurantId in scope && (restaurantId.Some? ==> v.reservation.restaurantId == restaurantId.value)
      {
        assert v.reservation.restaurantId in ids;
      }
    }
  }

  /** The listed restaurants lie in the scope, and are the requested one
    * when one is requested. */
  lemma StaffListWithinScope(scope: seq<int>, restaurantId: Option<int>)
    requires scope != [] && (restaurantId.Some? ==> restaurantId.value in scope)
    ensures StaffListScope(scope, restaurantId) != []
    ensures forall id :: id in StaffListScope(scope, restaurantId) ==>
      id in scope && (restaurantId.Some? ==> id == restaurantId.value)
  {
  }

  /** The view of a table's upcoming booking: the table's own type, no
    * reviewed flag. */
  function ToTableView(r: Reservation, restaurants: seq<Restaurant>, table: Table): (v: ReservationView)
    ensures v.reservation == r && v.tableType == Some(table.tableType) && v.reviewed.None?
  {
    ReservationView(r, NameOf(SelectById(restaurants, RestaurantId, r.restaurantId)), Some(table.tableType),
                    GetStatusName(Some(r.status)), None)
  }

  /** getTableFutureReservations: a null or unknown table is refused; otherwise
    * that table's live bookings from now on, earliest first. */
  method GetTableFutureReservations(rows: seq<Reservation>, restaurants: seq<Restaurant>, tables: seq<Table>,
                                    tableId: Option<int>, now: int)
    returns (res: Response<seq<ReservationView>>)
    ensures tableId.None? ==> res == ValidateFailed("Table ID cannot be empty")
    ensures tableId.Some? && SelectById(tables, TableId, tableId.value).None? ==> res == ValidateFailed("Table does not exist")
    ensures tableId.Some? && SelectById(tables, TableId, tableId.value).Some? ==>
      && IsSuccess(res) && res.message == "Retrieved successfully" && res.data.Some?
      && RowsOf(res.data.value) == GetFutureReservationsByTableId(rows, tableId.value, now)
      && forall v :: v in res.data.value ==>
           v.tableType == Some(SelectById(tables, TableId, tableId.value).value.tableType) && v.reviewed.None?
  {
    if tableId.None? {
      return ValidateFailed("Table ID cannot be empty");
    }
    var table := SelectById(tables, TableId, tableId.value);
    if table.None? {
      return ValidateFailed("Table does not exist");
    }
    var upcoming := GetFutureReservationsByTableId(rows, tableId.value, now);
    var views := ConvertAll(upcoming, (x: Reservation) => ToTableView(x, restaurants, table.value));
    res := SuccessWith(Some(views), "Retrieved successfully");
  }

  // ---------------------------------------------------------------- the store

  /** Overwriting one row with a row of the same id keeps the primary key
    * and keeps every id below the auto-increment counter. */
  lemma {:induction false} OverwriteKeepsIds(before: seq<Reservation>, i: nat, x: Reservation, bound: int)
    requires UniqueIds(before, ReservationId) && forall r :: r in before ==> r.id < bound
    requires i < |before| && x.id == before[i].id
    ensures UniqueIds(before[i := x], ReservationId)
    ensures forall r :: r in before[i := x] ==> r.id < bound
  {
    var after := before[i := x];
    forall j, k | 0 <= j < k < |after| ensures after[j].id != after[k].id {
      assert after[j].id == before[j].id && after[k].id == before[k].id;
    }
    forall r | r in after ensures r.id < bound {
      var j :| 0 <= j < |after| && after[j] == r;
      assert before[j] in before;
    }
  }

  /** The reservations table, written in place by the lifecycle operations. */
  class ReservationStore {
    var rows: seq<Reservation>
    /** The next auto-increment id. */
    var nextId: int

    ghost predicate Valid()
      reads this
    {
      UniqueIds(rows, ReservationId) && forall r :: r in rows ==> r.id < nextId
    }

    constructor()
      ensures Valid() && rows == [] && nextId == 1
    {
      rows := [];
      nextId := 1;
    }

    /** createReservation: a refused request changes nothing; an accepted
      * one appends a Pending booking of the caller under a fresh id and
      * returns its view. */
    method CreateReservation(dto: Option<ReservationRequest>, userId: int, restaurants: seq<Restaurant>,
                             tables: seq<Table>, now: int)
      returns (res: Response<ReservationView>)
      requires Valid()
      modifies this
      ensures Valid()
      ensures CreateCheck(dto, restaurants, tables, now).Some? ==>
        && res == ValidateFailed(CreateCheck(dto, restaurants, tables, now).value)
        && rows == old(rows) && nextId == old(nextId)
      ensures CreateCheck(dto, restaurants, tables, now).None? ==>
        && rows == old(rows) + [NewReservation(dto.value, old(nextId), userId, now)]
        && nextId == old(nextId) + 1
        && IsSuccess(res) && res.message == "Reservation created successfully"
        && res.data == Some(ReservationView(
             NewReservation(dto.value, old(nextId), userId, now),
             Some(SelectById(restaurants, RestaurantId, dto.value.restaurantId.value).value.name),
             Some(SelectById(tables, TableId, dto.value.tableId.value).value.tableType),
             "Pending", None))
    {
      var refusal := CreateCheck(dto, restaurants, tables, now);
      if refusal.Some? {
        return ValidateFailed(refusal.value);
      }
      var d := dto.value;
      var restaurant := SelectById(restaurants, RestaurantId, d.restaurantId.value).value;
      var table := SelectById(tables, TableId, d.tableId.value).value;
      var reservation := NewReservation(d, nextId, userId, now);
      rows := rows + [reservation];
      nextId := nextId + 1;
      res := SuccessWith(Some(ReservationView(reservation, Some(restaurant.name), Some(table.tableType),
                                              GetStatusName(Some(reservation.status)), None)),
                         "Reservation created successfully");
    }

    /** cancelReservation, in place. */
    method CancelReservation(reservationId: Option<int>, cancelReason: Option<string>, userId: Option<int>, now: int)
      returns (res: Response<StatusChange>)
      requires Valid()
      modifies this
      ensures Valid() && nextId == old(nextId)
      ensures (res, rows) == Cancel(old(rows), reservationId, cancelReason, userId, now)
    {
      if reservationId.None? {
        return ValidateFailed(NoReservationId);
      }
      if userId.None? {
        return ValidateFailed("User ID cannot be empty");
      }
      var found := IndexOf(rows, ReservationId, reservationId.value);
      if found.None? {
        return ValidateFailed(NoReservation);
      }
      var i := found.value;
      var reservation := rows[i];
      if reservation.userId != userId.value {
        return Forbidden();
      }
      if reservation.status != StatusPending && reservation.status != StatusConfirmed {
        return ValidateFailed(NotCancellable);
      }
      reservation := Transitioned(reservation, StatusCancelled, cancelReason, now);
      OverwriteKeepsIds(rows, i, reservation, nextId);
      rows := rows[i := reservation];
      res := SuccessWith(Some(StatusChange(reservation.id, StatusCancelled, GetStatusName(Some(StatusCancelled)),
                                           cancelReason, now)), "Cancelled successfully");
    }

    /** confirmReservation, rejectReservation and completeReservation, in place. */
    method HandleReservation(a: Action, restaurants: seq<Restaurant>, reservationId: Option<int>,
                             reason: Option<string>, userId: Option<int>, role: Option<int>, now: int)
      returns (res: Response<StatusChange>)
      requires Valid()
      modifies this
      ensures Valid() && nextId == old(nextId)
      ensures (res, rows) == Handle(a, old(rows), restaurants, reservationId, reason, userId, role, now)
    {
      if reservationId.None? {
        return ValidateFailed(NoReservationId);
      }
      if a == Reject && (reason.None? || Trim(reason.value) == "") {
        return ValidateFailed(NoRejectionReason);
      }
      var found := IndexOf(rows, ReservationId, reservationId.value);
      if found.None? {
        return ValidateFailed(NoReservation);
      }
      var i := found.value;
      var reservation := rows[i];
      if role.None? {
        return Error(500, "Failed to " + Verb(a) + " reservation: " + NullRoleMessage);
      }
      if role.value == RoleManager && !Owns(restaurants, reservation.restaurantId, userId) {
        return ForbiddenWith(NotYourRestaurant);
      }
      if reservation.status != From(a) {
        return ValidateFailed("Cannot " + Verb(a) + " reservation in current status");
      }
      reservation := Transitioned(reservation, To(a), StoredReason(a, reason), now);
      OverwriteKeepsIds(rows, i, reservation, nextId);
      rows := rows[i := reservation];
      res := SuccessWith(Some(StatusChange(reservation.id, To(a), GetStatusName(Some(To(a))),
                                           StoredReason(a, reason), now)), Done(a));
    }

    /** updateStaffReservationStatus, in place. */
    method UpdateStaffReservationStatus(restaurants: seq<Restaurant>, staff: seq<Staff>, staffId: Option<int>,
                                        reservationId: Option<int>, status: Option<int>)
      returns (r: Except<Reservation>)
      requires Valid()
      modifies this
      ensures Valid() && nextId == old(nextId)
      ensures (r, rows) == StaffOverwrite(old(rows), restaurants, staff, staffId, reservationId, status)
    {
      var found := if reservationId.None? then None else IndexOf(rows, ReservationId, reservationId.value);
      if found.None? {
        return Throws(StaffNotFound);
      }
      var i := found.value;
      var reservation := rows[i];
      var scope := StaffScope(restaurants, staff, staffId);
      if reservation.restaurantId !in scope {
        return Throws(StaffNoPermission);
      }
      var updated := if status.Some? then reservation.(status := status.value) else reservation;
      OverwriteKeepsIds(rows, i, updated, nextId);
      rows := rows[i := updated];
      r := Value(updated);
    }
  }
}
