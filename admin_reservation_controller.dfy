// The back-office reservation endpoints: every request must carry a Bearer
// token; the two listings are gated on the token's role, while confirm,
// reject and complete forward the token's user and role to the service
// and leave the role decision to it.

module AdminReservationController {
  import opened Common
  import opened Query
  import opened Entities
  import opened Auth
  import opened ReservationMapper
  import opened ReservationService

  const ListFailed: string := "Failed to get reservation list: "
  const AdminOnly: string := "No permission to access, this interface is for administrators only"
  const ManagerOnly: string := "No permission to access, this interface is for restaurant managers only"

  /** The message of the NullPointerException raised by reading a claim from
    * a null claims object. */
  const NullClaimsMessage: string := "Cannot invoke " + Quote + "io.jsonwebtoken.Claims.get(String, java.lang.Class)" + Quote + " because " + Quote + "claims" + Quote + " is null"

  /** The prefix of the 500 message of the transition endpoints. */
  function ActionFailed(a: Action): string {
    "Failed to " + Verb(a) + " reservation: "
  }

  /** The opening of every endpoint: a missing or non-Bearer header is
    * unauthorized; a token that does not parse, or parses to no claims,
    * lands in the endpoint's catch block as a 500. */
  function Authenticate<T>(header: Option<string>, parse: TokenParser, prefix: string): (g: Gate<T>)
    ensures !HasBearerPrefix(header) ==> g == Stop(Unauthorized())
    ensures HasBearerPrefix(header) && parse(header.value).Throws? ==>
      g == Stop(Error(500, prefix + parse(header.value).reason))
    ensures g.Go? <==> BearerClaims(header, parse).Some?
    ensures g.Go? ==> g.claims == BearerClaims(header, parse).value
    ensures g.Stop? ==> !IsSuccess(g.response) && g.response.data.None?
  {
    if !HasBearerPrefix(header) then Stop(Unauthorized())
    else match parse(header.value)
      case Throws(reason) => Stop(Error(500, prefix + reason))
      case Value(None) => Stop(Error(500, prefix + NullClaimsMessage))
      case Value(Some(c)) => Go(c)
  }

  /** GET /admin/reservations: only a role-0 caller reaches the service; page
    * and pageSize arrive with their defaults already applied. */
  method ListAllReservations(header: Option<string>, parse: TokenParser,
                             rows: seq<Reservation>, restaurants: seq<Restaurant>, tables: seq<Table>, reviews: seq<Review>,
                             page: int, pageSize: int, status: Option<string>, restaurantId: Option<int>)
    returns (res: Response<Listing>)
    ensures !HasBearerPrefix(header) ==> res == Unauthorized()
    ensures HasBearerPrefix(header) && parse(header.value).Throws? ==>
      res == Error(500, ListFailed + parse(header.value).reason)
    ensures BearerClaims(header, parse).Some? && BearerClaims(header, parse).value.role != Some(RoleAdmin) ==>
      res == ForbiddenWith(AdminOnly)
    ensures var size := NormalisePageSize(Some(pageSize));
            var offset := Offset(NormalisePage(Some(page)), size);
      IsSuccess(res) <==>
        BearerClaims(header, parse).Some? && BearerClaims(header, parse).value.role == Some(RoleAdmin) && offset >= 0
    ensures var statuses := StatusFilter(LenientStatuses(StatusTokens(status), false));
            var size := NormalisePageSize(Some(pageSize));
            var offset := Offset(NormalisePage(Some(page)), size);
      IsSuccess(res) ==>
        && res.message == "Retrieved successfully" && res.data.Some?
        && res.data.value.total == CountAllReservations(rows, statuses, restaurantId)
        && RowsOf(res.data.value.list) == GetAllReservationsWithPage(rows, offset, size, statuses, restaurantId).v
  {
    var gate: Gate<Listing> := Authenticate(header, parse, ListFailed);
    if gate.Stop? {
      return gate.response;
    }
    if gate.claims.role != Some(RoleAdmin) {
      return ForbiddenWith(AdminOnly);
    }
    var result := GetAllReservations(rows, restaurants, tables, reviews, Some(page), Some(pageSize), status, restaurantId);
    if result.Throws? {
      return Error(500, ListFailed + result.reason);
    }
    res := SuccessWith(Some(result.v), "Retrieved successfully");
  }

  /** GET /admin/reservations/manager: only a role-1 caller reaches the
    * service, which is scoped to the restaurants owned by the token's user. */
  method ListManagerReservations(header: Option<string>, parse: TokenParser,
                                 rows: seq<Reservation>, restaurants: seq<Restaurant>, tables: seq<Table>, reviews: seq<Review>,
                                 page: int, pageSize: int, status: Option<string>, restaurantId: Option<int>)
    returns (res: Response<Listing>)
    ensures !HasBearerPrefix(header) ==> res == Unauthorized()
    ensures HasBearerPrefix(header) && parse(header.value).Throws? ==>
      res == Error(500, ListFailed + parse(header.value).reason)
    ensures BearerClaims(header, parse).Some? && BearerClaims(header, parse).value.role != Some(RoleManager) ==>
      res == ForbiddenWith(ManagerOnly)
    ensures BearerClaims(header, parse) == Some(Claims(None, Some(RoleManager))) ==>
      res == Error(500, ListFailed + (ListFailed + NoManagerId))
    ensures BearerClaims(header, parse).Some? && BearerClaims(header, parse).value.role == Some(RoleManager)
            && BearerClaims(header, parse).value.userId.Some? ==>
      var managerId := BearerClaims(header, parse).value.userId.value;
      var statuses := StatusFilter(LenientStatuses(StatusTokens(status), false));
      var size := NormalisePageSize(Some(pageSize));
      var offset := Offset(NormalisePage(Some(page)), size);
      var scope := Some(ManagerScope(restaurants, managerId, restaurantId));
      var selected := GetManagerReservationsWithPage(rows, offset, size, statuses, scope);
      && (OwnedIds(restaurants, managerId, restaurantId) == [] ==>
            res == SuccessWith(Some(Listing(0, [])), "Retrieved successfully"))
      && (OwnedIds(restaurants, managerId, restaurantId) != [] ==>
            && (IsSuccess(res) <==> offset >= 0)
            && (!IsSuccess(res) ==> res == Error(500, ListFailed + (ListFailed + selected.reason)))
            && (IsSuccess(res) ==>
                  && res.message == "Retrieved successfully" && res.data.Some?
                  && res.data.value.total == CountManagerReservations(rows, statuses, scope)
                  && RowsOf(res.data.value.list) == selected.v))
    ensures IsSuccess(res) ==>
      && BearerClaims(header, parse).Some?
      && BearerClaims(header, parse).value.role == Some(RoleManager)
      && BearerClaims(header, parse).value.userId.Some?
      && res.message == "Retrieved successfully" && res.data.Some?
      && forall v :: v in res.data.value.list ==>
           v.reservation in rows
           && OwnedBy(restaurants, v.reservation.restaurantId, BearerClaims(header, parse).value.userId.value)
    ensures forall userId :: (BearerClaims(header, parse) == Some(Claims(Some(userId), Some(RoleManager)))
                              && restaurantId.Some? && !OwnedBy(restaurants, restaurantId.value, userId)) ==>
      res == SuccessWith(Some(Listing(0, [])), "Retrieved successfully")
  {
    var gate: Gate<Listing> := Authenticate(header, parse, ListFailed);
    if gate.Stop? {
      return gate.response;
    }
    if gate.claims.role != Some(RoleManager) {
      return ForbiddenWith(ManagerOnly);
    }
    res := ServeManagerListing(rows, restaurants, tables, reviews, page, pageSize, status, restaurantId, gate.claims.userId);
  }

  /** The manager listing past the role check: the service's listing for the
    * token's user id, its exception caught as a 500. */
  method ServeManagerListing(rows: seq<Reservation>, restaurants: seq<Restaurant>, tables: seq<Table>, reviews: seq<Review>,
                             page: int, pageSize: int, status: Option<string>, restaurantId: Option<int>,
                             managerId: Option<int>)
    returns (res: Response<Listing>)
    ensures managerId.None? ==> res == Error(500, ListFailed + (ListFailed + NoManagerId))
    ensures managerId.Some? ==>
      var statuses := StatusFilter(LenientStatuses(StatusTokens(status), false));
      var size := NormalisePageSize(Some(pageSize));
      var offset := Offset(NormalisePage(Some(page)), size);
      var scope := Some(ManagerScope(restaurants, managerId.value, restaurantId));
      var selected := GetManagerReservationsWithPage(rows, offset, size, statuses, scope);
      && (OwnedIds(restaurants, managerId.value, restaurantId) == [] ==>
            res == SuccessWith(Some(Listing(0, [])), "Retrieved successfully"))
      && (OwnedIds(restaurants, managerId.value, restaurantId) != [] ==>
            && (IsSuccess(res) <==> offset >= 0)
            && (!IsSuccess(res) ==> res == Error(500, ListFailed + (ListFailed + selected.reason)))
            && (IsSuccess(res) ==>
                  && res.message == "Retrieved successfully" && res.data.Some?
                  && res.data.value.total == CountManagerReservations(rows, statuses, scope)
                  && RowsOf(res.data.value.list) == selected.v))
    ensures IsSuccess(res) ==>
      && managerId.Some?
      && res.message == "Retrieved successfully" && res.data.Some?
      && forall v :: v in res.data.value.list ==>
           v.reservation in rows && OwnedBy(restaurants, v.reservation.restaurantId, managerId.value)
    ensures managerId.Some? && restaurantId.Some? && !OwnedBy(restaurants, restaurantId.value, managerId.value) ==>
      res == SuccessWith(Some(Listing(0, [])), "Retrieved successfully")
  {
    var result := GetManagerReservations(rows, restaurants, tables, reviews, Some(page), Some(pageSize), status,
                                         restaurantId, managerId);
    if result.Throws? {
      return Error(500, ListFailed + result.reason);
    }
    res := SuccessWith(Some(result.v), "Retrieved successfully");
  }

  /** PUT /admin/reservations/{id}/confirm, /reject and /complete: no role
    * check here; the token's user and role go to the service unchanged,
    * and reject forwards the body's "reason" entry. */
  method ActOnReservation(store: ReservationStore, a: Action, header: Option<string>, parse: TokenParser,
                          restaurants: seq<Restaurant>, reservationId: int, reason: Option<string>, now: int)
    returns (res: Response<StatusChange>)
    requires store.Valid()
    modifies store
    ensures store.Valid()
    ensures BearerClaims(header, parse).None? ==> store.rows == old(store.rows)
    ensures !HasBearerPrefix(header) ==> res == Unauthorized()
    ensures HasBearerPrefix(header) && parse(header.value).Throws? ==>
      res == Error(500, ActionFailed(a) + parse(header.value).reason)
    ensures BearerClaims(header, parse).Some? ==>
      var c := BearerClaims(header, parse).value;
      (res, store.rows) == Handle(a, old(store.rows), restaurants, Some(reservationId),
                                  if a == Reject then reason else None, c.userId, c.role, now)
  {
    var gate: Gate<StatusChange> := Authenticate(header, parse, ActionFailed(a));
    if gate.Stop? {
      return gate.response;
    }
    var forwarded := if a == Reject then reason else None;
    res := store.HandleReservation(a, restaurants, Some(reservationId), forwarded, gate.claims.userId, gate.claims.role, now);
  }
}
