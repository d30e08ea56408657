// The dashboard endpoints: any caller with a parsable token gets through
// the check, which puts no restriction on the role; a waiter (role 3) is
// then resolved to the manager who took them on, and the statistics are
// computed as for that manager.

module AdminStatisticsController {
  import opened Common
  import opened JavaText
  import opened Query
  import opened Entities
  import opened Auth
  import opened RestaurantMapper
  import opened ReservationService
  import opened AdminService

  const NoAdminAccess: string := "No permission to access administrator interface"
  const NotApplied: string := "You haven't applied for a manager yet"
  const NotApproved: string := "Your manager application hasn't been approved yet"

  /** The NullPointerException of `get("role").equals(3)` on a null role,
    * which the global handler turns into a 500. */
  const NullRoleEquals: string :=
    "Cannot invoke " + Quote + "Object.equals(Object)" + Quote + " because the return value of " + Quote + "java.util.Map.get(Object)" + Quote + " is null"

  /** checkAdminRole of this controller: a missing or empty token, a token
    * that does not parse and null claims are all unauthorized; otherwise the
    * token's role and user id, whatever the role. */
  function CheckAdminRole(header: Option<string>, parse: TokenParser): (r: Response<UserInfo>)
    ensures IsSuccess(r) <==> !NullOrEmpty(header) && parse(header.value).Value? && parse(header.value).v.Some?
    ensures !IsSuccess(r) ==> r == Unauthorized()
    ensures IsSuccess(r) ==>
      r.data == Some(UserInfo(parse(header.value).v.value.role, parse(header.value).v.value.userId))
  {
    if NullOrEmpty(header) then Unauthorized()
    else match parse(header.value)
      case Throws(_) => Unauthorized()
      case Value(None) => Unauthorized()
      case Value(Some(c)) => Success(Some(UserInfo(c.role, c.userId)))
  }

  /** `selectOne(user_id = userId)` on the staff table: no row is null, one
    * row is that row, more rows throw. `user_id = NULL` matches no row. */
  function SelectStaffByUser(staff: seq<Staff>, userId: Option<int>): (r: Except<Option<Staff>>)
    ensures r == Value(None) <==> userId.None? || forall s :: s in staff ==> s.userId != userId.value
    ensures r.Value? && r.v.Some? ==> r.v.value in staff && userId == Some(r.v.value.userId)
    ensures r.Throws? ==> userId.Some? && CountWhere(staff, (s: Staff) => s.userId == userId.value) >= 2
  {
    if userId.None? then Value(None)
    else SelectOne(staff, (s: Staff) => s.userId == userId.value)
  }

  /** The outcome of the opening shared by the three endpoints: a response
    * that ends the request, or the caller on whose behalf the statistics are
    * computed. */
  datatype Resolution<T> = Refused(response: Response<T>) | Resolved(info: UserInfo)

  /** The opening of the three endpoints, in order: a failed check is
    * answered 403, a null role 500; a waiter with no staff row, or a row
    * with no manager, is told 401 "not applied", a pending row 401
    * "not approved"; otherwise a waiter's user id becomes the row's manager id.
    * Every other caller keeps their own user id. */
  function Resolve<T>(header: Option<string>, parse: TokenParser, staff: seq<Staff>): (r: Resolution<T>)
  {
    var check := CheckAdminRole(header, parse);
    if !IsSuccess(check) then Refused(ForbiddenWith(NoAdminAccess))
    else
      var info := check.data.value;
      if info.role.None? then Refused(Error(500, NullRoleEquals))
      else if info.role.value != RoleStaff then Resolved(info)
      else match SelectStaffByUser(staff, info.userId)
        case Throws(m) => Refused(Error(500, m))
        case Value(None) => Refused(Error(401, NotApplied))
        case Value(Some(s)) =>
          if s.managerId.None? then Refused(Error(401, NotApplied))
          else if s.status == 0 then Refused(Error(401, NotApproved))
          else Resolved(info.(userId := s.managerId))
  }

  /** The opening as the endpoints run it, replacing the user id in place. */
  method ResolveCaller<T>(header: Option<string>, parse: TokenParser, staff: seq<Staff>) returns (r: Resolution<T>)
    ensures r == Resolve(header, parse, staff)
  {
    var check := CheckAdminRole(header, parse);
    if !IsSuccess(check) {
      return Refused(ForbiddenWith(NoAdminAccess));
    }
    var info := check.data.value;
    if info.role.None? {
      return Refused(Error(500, NullRoleEquals));
    }
    if info.role.value == RoleStaff {
      var row := SelectStaffByUser(staff, info.userId);
      if row.Throws? {
        return Refused(Error(500, row.reason));
      }
      if row.v.None? || row.v.value.managerId.None? {
        return Refused(Error(401, NotApplied));
      }
      if row.v.value.status == 0 {
        return Refused(Error(401, NotApproved));
      }
      info := info.(userId := row.v.value.managerId);
    }
    r := Resolved(info);
  }

  /** Any role may reach the statistics: the check refuses only a missing or
    * unreadable token, and every such refusal is a 403. */
  lemma {:induction false} NoRoleRestriction<T>(header: Option<string>, parse: TokenParser, staff: seq<Staff>)
    ensures (Resolve<T>(header, parse, staff).Refused? && Resolve<T>(header, parse, staff).response.code == Some(403))
            <==> !IsSuccess(CheckAdminRole(header, parse))
    ensures forall role, userId :: (!NullOrEmpty(header) && parse(header.value) == Value(Some(Claims(userId, Some(role))))
                                    && role != RoleStaff) ==>
      Resolve<T>(header, parse, staff) == Resolved(UserInfo(Some(role), userId))
  {
    var check := CheckAdminRole(header, parse);
    if IsSuccess(check) {
      var info := check.data.value;
      if info.role.Some? && info.role.value == RoleStaff {
        match SelectStaffByUser(staff, info.userId)
        case Throws(m) =>
        case Value(None) =>
        case Value(Some(s)) =>
      }
    }
  }

  /** A waiter whose only staff row is approved for manager m acts as m. */
  lemma StaffActsAsManager<T>(header: Option<string>, parse: TokenParser, staff: seq<Staff>, row: Staff, m: int)
    requires !NullOrEmpty(header) && parse(header.value) == Value(Some(Claims(Some(row.userId), Some(RoleStaff))))
    requires row in staff && forall s :: s in staff && s.userId == row.userId ==> s == row
    requires row.managerId == Some(m) && row.status != 0
    requires NoDuplicates(staff)
    ensures Resolve<T>(header, parse, staff) == Resolved(UserInfo(Some(RoleStaff), Some(m)))
  {
    var p := (s: Staff) => s.userId == row.userId;
    OneMatch(staff, p, row);
  }

  /** In a table without repeated rows, a condition only one row meets is met
    * once. */
  lemma {:induction false} OneMatch(staff: seq<Staff>, p: Staff -> bool, row: Staff)
    requires row in staff && p(row) && NoDuplicates(staff)
    requires forall s :: s in staff && p(s) ==> s == row
    ensures Where(staff, p) == [row]
  {
    if staff[0] == row {
      assert forall s :: s in staff[1..] ==> s != row by {
        forall s | s in staff[1..] ensures s != row {
          var k :| 0 <= k < |staff[1..]| && staff[1..][k] == s;
          assert staff[k + 1] == s;
        }
      }
      NoMatch(staff[1..], p);
    } else {
      assert forall s :: s in staff[1..] ==> s in staff;
      assert NoDuplicates(staff[1..]) by {
        forall i, j | 0 <= i < j < |staff[1..]| ensures staff[1..][i] != staff[1..][j] {
          assert staff[i + 1] != staff[j + 1];
        }
      }
      OneMatch(staff[1..], p, row);
    }
  }

  lemma {:induction false} NoMatch(staff: seq<Staff>, p: Staff -> bool)
    requires forall s :: s in staff ==> !p(s)
    ensures Where(staff, p) == []
  {
    if staff != [] {
      assert forall s :: s in staff[1..] ==> s in staff;
      NoMatch(staff[1..], p);
    }
  }

  /** A waiter whose application was turned down (status 2) has no
    * restaurant in their staff scope, yet the dashboard shows them the
    * statistics of the manager they applied to. */
  lemma RejectedStaffSeesManagerStatistics<T>(header: Option<string>, parse: TokenParser, restaurants: seq<Restaurant>,
                                              staff: seq<Staff>, row: Staff, m: int)
    requires !NullOrEmpty(header) && parse(header.value) == Value(Some(Claims(Some(row.userId), Some(RoleStaff))))
    requires row in staff && forall s :: s in staff && s.userId == row.userId ==> s == row
    requires row.managerId == Some(m) && row.status == 2
    requires NoDuplicates(staff)
    ensures Resolve<T>(header, parse, staff) == Resolved(UserInfo(Some(RoleStaff), Some(m)))
    ensures StaffScope(restaurants, staff, Some(row.userId)) == []
  {
    StaffActsAsManager<T>(header, parse, staff, row, m);
    UnapprovedStaffHasNoScope(restaurants, staff, row.userId);
  }

  /** GET /admin/statistics/overview. */
  method Overview(header: Option<string>, parse: TokenParser, staff: seq<Staff>,
                  restaurants: seq<Restaurant>, rows: seq<Reservation>, now: int)
    returns (res: Response<Statistics>)
    ensures Resolve<Statistics>(header, parse, staff).Refused? ==> res == Resolve<Statistics>(header, parse, staff).response
    ensures Resolve<Statistics>(header, parse, staff).Resolved? ==>
      res == GetStatistics(Resolve<Statistics>(header, parse, staff).info, restaurants, rows, now)
  {
    var r: Resolution<Statistics> := ResolveCaller(header, parse, staff);
    if r.Refused? {
      return r.response;
    }
    res := GetStatistics(r.info, restaurants, rows, now);
  }

  /** GET /admin/statistics/reservations. */
  method ReservationStatistics(header: Option<string>, parse: TokenParser, staff: seq<Staff>,
                               queries: AggregateQueries, now: int)
    returns (res: Response<PeriodStatistics>)
    ensures Resolve<PeriodStatistics>(header, parse, staff).Refused? ==>
      res == Resolve<PeriodStatistics>(header, parse, staff).response
    ensures Resolve<PeriodStatistics>(header, parse, staff).Resolved? ==>
      var info := Resolve<PeriodStatistics>(header, parse, staff).info;
      var agg := queries(ScopeOf(info), StartOfDay(DayOf(now) - 6), EndOfDay(DayOf(now)));
      && info.role.Some?
      && res == SuccessWith(Some(PeriodStatistics(Week(DayOf(now), agg, ReservationStatusName),
                                                  NameCounts(agg.byStatus, ReservationStatusName))),
                            "Retrieved successfully")
  {
    var r: Resolution<PeriodStatistics> := ResolveCaller(header, parse, staff);
    if r.Refused? {
      return r.response;
    }
    res := GetReservationStatistics(r.info, queries, now);
  }

  /** GET /admin/statistics/restaurants. */
  method RestaurantStatistics(header: Option<string>, parse: TokenParser, staff: seq<Staff>,
                              queries: AggregateQueries, now: int)
    returns (res: Response<PeriodStatistics>)
    ensures Resolve<PeriodStatistics>(header, parse, staff).Refused? ==>
      res == Resolve<PeriodStatistics>(header, parse, staff).response
    ensures Resolve<PeriodStatistics>(header, parse, staff).Resolved? ==>
      var info := Resolve<PeriodStatistics>(header, parse, staff).info;
      var agg := queries(ScopeOf(info), StartOfDay(DayOf(now) - 6), EndOfDay(DayOf(now)));
      && info.role.Some?
      && res == SuccessWith(Some(PeriodStatistics(Week(DayOf(now), agg, RestaurantStatusName),
                                                  NameCounts(agg.byStatus, RestaurantStatusName))),
                            "Retrieved successfully")
  {
    var r: Resolution<PeriodStatistics> := ResolveCaller(header, parse, staff);
    if r.Refused? {
      return r.response;
    }
    res := GetRestaurantStatistics(r.info, queries, now);
  }
}
