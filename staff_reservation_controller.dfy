// The waiter endpoints: a role-3 gate in front of the staff listing and the
// staff status overwrite. Whatever the service throws, an out-of-scope
// restaurant or reservation included, reaches the client as a 500.

module StaffReservationController {
  import opened Common
  import opened Entities
  import opened Auth
  import opened Query
  import opened ReservationMapper
  import opened ReservationService

  const Unidentified: string := "Unauthorized or invalid token"
  const StaffOnly: string := "Insufficient permissions, only staff can access this interface"
  const StaffListFailed: string := "Failed to get staff reservation list: "
  const UpdateFailed: string := "Failed to update reservation status: "

  /** The opening of both endpoints, after the required Authorization header
    * is read: a token that does not parse is a 500 through the catch block,
    * null claims a 401, a null role a 500 (unboxing it throws) and any role
    * other than 3 a 403. */
  function StaffGate<T>(header: string, parse: TokenParser, prefix: string): (g: Gate<T>)
    ensures parse(header).Throws? ==> g == Stop(Error(500, prefix + parse(header).reason))
    ensures parse(header) == Value(None) ==> g == Stop(Error(401, Unidentified))
    ensures parse(header).Value? && parse(header).v.Some? && parse(header).v.value.role.None? ==>
      g.Stop? && g.response.code == Some(500)
    ensures parse(header).Value? && parse(header).v.Some? && parse(header).v.value.role.Some?
            && parse(header).v.value.role.value != RoleStaff ==>
      g == Stop(Error(403, StaffOnly))
    ensures g.Go? <==> parse(header).Value? && parse(header).v.Some? && parse(header).v.value.role == Some(RoleStaff)
    ensures g.Go? ==> g.claims == parse(header).v.value
    ensures g.Stop? ==> !IsSuccess(g.response) && g.response.data.None?
  {
    match parse(header)
    case Throws(reason) => Stop(Error(500, prefix + reason))
    case Value(None) => Stop(Error(401, Unidentified))
    case Value(Some(c)) =>
      if c.role.None? then Stop(Error(500, prefix + NullRoleMessage))
      else if c.role.value != RoleStaff then Stop(Error(403, StaffOnly))
      else Go(c)
  }

  /** The answer to a listing outcome: a success carrying it, or a 500 with
    * the endpoint's prefix before the exception's message. */
  function Served(r: Except<Listing>): (res: Response<Listing>)
    ensures r.Value? ==> IsSuccess(res) && res.data == Some(r.v) && res.message == "Retrieved successfully"
    ensures r.Throws? ==> res == Error(500, StaffListFailed + r.reason)
  {
    match r
    case Value(l) => SuccessWith(Some(l), "Retrieved successfully")
    case Throws(m) => Error(500, StaffListFailed + m)
  }

  /** GET /staff/reservations: the staff listing of the token's user. */
  method ListStaffReservations(header: string, parse: TokenParser,
                               rows: seq<Reservation>, restaurants: seq<Restaurant>, staff: seq<Staff>,
                               tables: seq<Table>, reviews: seq<Review>,
                               page: int, pageSize: int, status: Option<string>, restaurantId: Option<int>)
    returns (res: Response<Listing>)
    ensures StaffGate<Listing>(header, parse, StaffListFailed).Stop? ==>
      res == StaffGate<Listing>(header, parse, StaffListFailed).response
    ensures StaffGate<Listing>(header, parse, StaffListFailed).Go? ==>
      exists r ::
        && StaffListingOutcome(r, rows, restaurants, staff, tables, reviews,
                               StaffGate<Listing>(header, parse, StaffListFailed).claims.userId,
                               page, pageSize, status, restaurantId)
        && res == Served(r)
  {
    var gate: Gate<Listing> := StaffGate(header, parse, StaffListFailed);
    if gate.Stop? {
      return gate.response;
    }
    var userId := gate.claims.userId;
    var result := GetStaffReservations(rows, restaurants, staff, tables, reviews, userId,
                                       page, pageSize, status, restaurantId);
    res := Served(result);
  }

  /** PUT /staff/reservations/{id}/status: the staff overwrite with the
    * required status parameter, on behalf of the token's user. */
  method UpdateReservationStatus(store: ReservationStore, header: string, parse: TokenParser,
                                 restaurants: seq<Restaurant>, staff: seq<Staff>, reservationId: int, status: int)
    returns (res: Response<Reservation>)
    requires store.Valid()
    modifies store
    ensures store.Valid()
    ensures StaffGate<Reservation>(header, parse, UpdateFailed).Stop? ==>
      res == StaffGate<Reservation>(header, parse, UpdateFailed).response && store.rows == old(store.rows)
    ensures StaffGate<Reservation>(header, parse, UpdateFailed).Go? ==>
      var outcome := StaffOverwrite(old(store.rows), restaurants, staff,
                                    StaffGate<Reservation>(header, parse, UpdateFailed).claims.userId,
                                    Some(reservationId), Some(status));
      && store.rows == outcome.1
      && (outcome.0.Value? ==> res == SuccessWith(Some(outcome.0.v), "Updated successfully"))
      && (outcome.0.Throws? ==> res == Error(500, UpdateFailed + outcome.0.reason))
  {
    var gate: Gate<Reservation> := StaffGate(header, parse, UpdateFailed);
    if gate.Stop? {
      return gate.response;
    }
    var updated := store.UpdateStaffReservationStatus(restaurants, staff, gate.claims.userId, Some(reservationId), Some(status));
    if updated.Throws? {
      return Error(500, UpdateFailed + updated.reason);
    }
    res := SuccessWith(Some(updated.v), "Updated successfully");
  }
}
