// The back-office statistics: the four dashboard counters over the current
// Monday-to-Sunday week, and the seven-day charts of reservations and of
// restaurants, each scoped to every restaurant for an administrator and to
// the caller's own restaurants for anyone else. Times are whole seconds
// since 1970-01-01 UTC and dates are day numbers since that day.

module AdminService {
  import opened Common
  import opened Query
  import opened Entities
  import opened Auth
  import opened ReservationMapper
  import opened RestaurantMapper
  import opened ReservationService
  import opened RestaurantManageService

  // ---------------------------------------------------------------- days

  const SecondsPerDay: int := 86400

  /** The UTC date of an instant. */
  function DayOf(t: int): int { t / SecondsPerDay }

  /** 0 for Monday up to 6 for Sunday; 1970-01-01 was a Thursday. */
  function DayOfWeek(d: int): (w: int)
    ensures 0 <= w < 7
  {
    (d + 3) % 7
  }

  /** previousOrSame(MONDAY) and nextOrSame(SUNDAY). */
  function WeekStart(today: int): int { today - DayOfWeek(today) }
  function WeekEnd(today: int): int { WeekStart(today) + 6 }

  /** atStartOfDay() and atTime(23, 59, 59). */
  function StartOfDay(d: int): int { d * SecondsPerDay }
  function EndOfDay(d: int): int { d * SecondsPerDay + SecondsPerDay - 1 }

  /** An instant lies between the start and the end of its own day. */
  lemma DayBounds(t: int)
    ensures StartOfDay(DayOf(t)) <= t <= EndOfDay(DayOf(t))
  {
  }

  /** The window from the start of day a to the end of day b holds exactly the
    * instants whose date is a..b. */
  lemma DayWindow(a: int, b: int, t: int)
    ensures StartOfDay(a) <= t <= EndOfDay(b) <==> a <= DayOf(t) <= b
  {
    DayBounds(t);
    if DayOf(t) < a {
      assert EndOfDay(DayOf(t)) <= EndOfDay(a - 1);
    }
    if DayOf(t) > b {
      assert StartOfDay(b + 1) <= StartOfDay(DayOf(t));
    }
  }

  /** The week of the dashboard runs from a Monday to a Sunday, holds today,
    * and its window holds exactly the instants dated in that week. */
  lemma WeekWindow(today: int, t: int)
    ensures DayOfWeek(WeekStart(today)) == 0 && DayOfWeek(WeekEnd(today)) == 6
    ensures WeekStart(today) <= today <= WeekEnd(today) && WeekEnd(today) - WeekStart(today) == 6
    ensures StartOfDay(WeekStart(today)) <= t <= EndOfDay(WeekEnd(today)) <==>
            WeekStart(today) <= DayOf(t) <= WeekEnd(today)
  {
    DayWindow(WeekStart(today), WeekEnd(today), t);
  }

  // ---------------------------------------------------------------- the counters

  /** The caller as the controllers hand it over: role and user id, either
    * possibly null. */
  datatype UserInfo = UserInfo(role: Option<int>, userId: Option<int>)

  /** StatisticsDTO. */
  datatype Statistics = Statistics(totalRestaurants: int, pendingReservations: int,
                                   weeklyReservations: int, totalReservations: int)

  /** The manager's counters; `owner_id = NULL` matches no row. */
  function ManagerStatistics(restaurants: seq<Restaurant>, rows: seq<Reservation>, userId: Option<int>,
                             start: int, end: int): Statistics {
    if userId.None? then Statistics(0, 0, 0, 0)
    else Statistics(CountManagerRestaurants(restaurants, userId.value),
                    CountManagerPendingReservations(rows, restaurants, userId.value),
                    CountManagerWeeklyReservations(rows, restaurants, userId.value, start, end),
                    CountManagerTotalReservations(rows, restaurants, userId.value))
  }

  const StatisticsFailed: string := "Failed to get statistics: "

  /** getStatistics: an administrator's counters cover every restaurant,
    * anyone else's only their own; a null role fails when it is compared
    * with 0. */
  function GetStatistics(info: UserInfo, restaurants: seq<Restaurant>, rows: seq<Reservation>, now: int)
    : (res: Response<Statistics>)
    ensures info.role.None? ==> res == Error(500, StatisticsFailed + NullRoleMessage)
    ensures info.role.Some? ==> res.message == "Retrieved successfully" && IsSuccess(res) && res.data.Some?
    ensures info.role == Some(RoleAdmin) ==>
      var s := res.data.value;
      && s.totalRestaurants == |restaurants| && s.totalReservations == |rows|
      && s.pendingReservations == CountWhere(rows, (r: Reservation) => r.status == StatusPending)
      && s.weeklyReservations ==
           CountWhere(rows, (r: Reservation) => WeekStart(DayOf(now)) <= DayOf(r.reservationTime) <= WeekEnd(DayOf(now)))
    ensures info.role.Some? && info.role.value != RoleAdmin && info.userId.None? ==>
      res.data == Some(Statistics(0, 0, 0, 0))
    ensures info.role.Some? && info.role.value != RoleAdmin && info.userId.Some? ==>
      var m := info.userId.value;
      var s := res.data.value;
      && s.totalRestaurants == CountWhere(restaurants, (x: Restaurant) => x.ownerId == m)
      && s.totalReservations == CountWhere(rows, (r: Reservation) => OwnedBy(restaurants, r.restaurantId, m))
      && s.pendingReservations ==
           CountWhere(rows, (r: Reservation) => OwnedBy(restaurants, r.restaurantId, m) && r.status == StatusPending)
      && s.weeklyReservations ==
           CountWhere(rows, (r: Reservation) => OwnedBy(restaurants, r.restaurantId, m)
                                                && WeekStart(DayOf(now)) <= DayOf(r.reservationTime) <= WeekEnd(DayOf(now)))
  {
    if info.role.None? then Error(500, StatisticsFailed + NullRoleMessage)
    else
      var today := DayOf(now);
      var start := StartOfDay(WeekStart(today));
      var end := EndOfDay(WeekEnd(today));
      if info.role.value == RoleAdmin then
        WeeklyCountIsByDate(rows, today);
        SuccessWith(Some(Statistics(CountTotalRestaurants(restaurants), CountPendingReservations(rows),
                                    CountWeeklyReservations(rows, start, end), CountTotalReservations(rows))),
                    "Retrieved successfully")
      else if info.userId.Some? then
        ManagerWeeklyCountIsByDate(rows, restaurants, info.userId.value, today);
        SuccessWith(Some(ManagerStatistics(restaurants, rows, info.userId, start, end)), "Retrieved successfully")
      else
        SuccessWith(Some(ManagerStatistics(restaurants, rows, info.userId, start, end)), "Retrieved successfully")
  }

  /** The BETWEEN of the weekly count selects by the reservation's date. */
  lemma WeeklyCountIsByDate(rows: seq<Reservation>, today: int)
    ensures CountWeeklyReservations(rows, StartOfDay(WeekStart(today)), EndOfDay(WeekEnd(today)))
         == CountWhere(rows, (r: Reservation) => WeekStart(today) <= DayOf(r.reservationTime) <= WeekEnd(today))
  {
    forall r: Reservation
      ensures Within(StartOfDay(WeekStart(today)), EndOfDay(WeekEnd(today)))(r)
              == (WeekStart(today) <= DayOf(r.reservationTime) <= WeekEnd(today))
    {
      WeekWindow(today, r.reservationTime);
    }
    var p := Within(StartOfDay(WeekStart(today)), EndOfDay(WeekEnd(today)));
    var q := (r: Reservation) => WeekStart(today) <= DayOf(r.reservationTime) <= WeekEnd(today);
    WhereExt(rows, p, q);
    CountIsWhereLength(rows, p);
    CountIsWhereLength(rows, q);
  }

  /** The same for a manager's weekly count. */
  lemma ManagerWeeklyCountIsByDate(rows: seq<Reservation>, restaurants: seq<Restaurant>, m: int, today: int)
    ensures CountManagerWeeklyReservations(rows, restaurants, m, StartOfDay(WeekStart(today)), EndOfDay(WeekEnd(today)))
         == CountWhere(rows, (r: Reservation) => OwnedBy(restaurants, r.restaurantId, m)
                                                 && WeekStart(today) <= DayOf(r.reservationTime) <= WeekEnd(today))
  {
    var p := OwnedWithin(restaurants, m, StartOfDay(WeekStart(today)), EndOfDay(WeekEnd(today)));
    var q := (r: Reservation) => OwnedBy(restaurants, r.restaurantId, m)
                                 && WeekStart(today) <= DayOf(r.reservationTime) <= WeekEnd(today);
    forall r: Reservation ensures p(r) == q(r) {
      WeekWindow(today, r.reservationTime);
    }
    WhereExt(rows, p, q);
    CountIsWhereLength(rows, p);
    CountIsWhereLength(rows, q);
  }

  /** Whatever the caller, a non-administrator's counters never exceed the
    * administrator's, and pending never exceeds total. */
  lemma ManagerStatisticsBounded(restaurants: seq<Restaurant>, rows: seq<Reservation>, userId: Option<int>, now: int)
    ensures var m := GetStatistics(UserInfo(Some(RoleManager), userId), restaurants, rows, now).data.value;
            var a := GetStatistics(UserInfo(Some(RoleAdmin), userId), restaurants, rows, now).data.value;
      && m.totalRestaurants <= a.totalRestaurants && m.pendingReservations <= a.pendingReservations
      && m.weeklyReservations <= a.weeklyReservations && m.totalReservations <= a.totalReservations
      && m.pendingReservations <= m.totalReservations
  {
    var today := DayOf(now);
    if userId.Some? {
      ManagerCountsBounded(rows, restaurants, userId.value, StartOfDay(WeekStart(today)), EndOfDay(WeekEnd(today)));
    }
  }

  // ---------------------------------------------------------------- grouped rows

  /** A row of `GROUP BY DATE(..)`, of `GROUP BY status` and of
    * `GROUP BY DATE(..), status`. */
  datatype DayCount = DayCount(day: int, count: int)
  datatype StatusCount = StatusCount(status: int, count: int)
  datatype DayStatusCount = DayStatusCount(day: int, status: int, count: int)

  /** The three grouped queries of one chart. */
  datatype Aggregates = Aggregates(daily: seq<DayCount>, byStatus: seq<StatusCount>, dailyByStatus: seq<DayStatusCount>)

  /** Which restaurants a chart covers: all of them, or those whose owner is
    * the given (possibly null) user. */
  datatype Scope = AllRestaurants | OwnerRestaurants(ownerId: Option<int>)

  /** The grouped queries, given the scope and the window's first and last
    * second. */
  type AggregateQueries = (Scope, int, int) -> Aggregates

  /** The count toMap keeps for a date: the first row of that date wins. */
  function FirstCount(daily: seq<DayCount>, d: int): Option<int> {
    if daily == [] then None
    else match FirstCount(daily[..|daily| - 1], d)
      case Some(c) => Some(c)
      case None => if daily[|daily| - 1].day == d then Some(daily[|daily| - 1].count) else None
  }

  lemma {:induction false} FirstCountIsFirst(daily: seq<DayCount>, d: int)
    ensures FirstCount(daily, d).None? <==> forall i :: 0 <= i < |daily| ==> daily[i].day != d
    ensures FirstCount(daily, d).Some? ==>
      exists i :: 0 <= i < |daily| && daily[i].day == d && daily[i].count == FirstCount(daily, d).value
                  && forall j :: 0 <= j < i ==> daily[j].day != d
  {
    if daily != [] {
      var init := daily[..|daily| - 1];
      FirstCountIsFirst(init, d);
      assert forall i :: 0 <= i < |init| ==> init[i] == daily[i];
      if FirstCount(init, d).Some? {
        var i :| 0 <= i < |init| && init[i].day == d && init[i].count == FirstCount(init, d).value
                 && forall j :: 0 <= j < i ==> init[j].day != d;
        assert daily[i].day == d;
      } else if daily[|daily| - 1].day == d {
        assert forall j :: 0 <= j < |daily| - 1 ==> daily[j].day != d;
      }
    }
  }

  /** The name-to-count map built by put: a later row of the same name
    * overwrites an earlier one. */
  function NameCounts(byStatus: seq<StatusCount>, names: int -> string): map<string, int> {
    if byStatus == [] then map[]
    else
      var last := byStatus[|byStatus| - 1];
      NameCounts(byStatus[..|byStatus| - 1], names)[names(last.status) := last.count]
  }

  lemma {:induction false} NameCountsIsLast(byStatus: seq<StatusCount>, names: int -> string, i: int)
    requires 0 <= i < |byStatus|
    requires forall j :: i < j < |byStatus| ==> names(byStatus[j].status) != names(byStatus[i].status)
    ensures names(byStatus[i].status) in NameCounts(byStatus, names)
    ensures NameCounts(byStatus, names)[names(byStatus[i].status)] == byStatus[i].count
  {
    var init := byStatus[..|byStatus| - 1];
    if i < |byStatus| - 1 {
      assert forall j :: 0 <= j < |init| ==> init[j] == byStatus[j];
      NameCountsIsLast(init, names, i);
    }
  }

  lemma {:induction false} NameCountsKeys(byStatus: seq<StatusCount>, names: int -> string, n: string)
    ensures n in NameCounts(byStatus, names) <==> exists i :: 0 <= i < |byStatus| && names(byStatus[i].status) == n
  {
    if byStatus != [] {
      var init := byStatus[..|byStatus| - 1];
      NameCountsKeys(init, names, n);
      assert forall j :: 0 <= j < |init| ==> init[j] == byStatus[j];
    }
  }

  /** Two statuses with no label both land on "Unknown", and only the later
    * count survives. */
  lemma UnknownStatusesOverwrite(a: int, b: int)
    requires a < 0 || a > StatusRejected
    requires b < 0 || b > StatusRejected
    ensures var names := (s: int) => GetStatusName(Some(s));
      NameCounts([StatusCount(a, 2), StatusCount(b, 3)], names) == map["Unknown" := 3]
  {
    var names := (s: int) => GetStatusName(Some(s));
    var s := [StatusCount(a, 2), StatusCount(b, 3)];
    assert s[..1][..0] == [];
    assert NameCounts(s[..1], names) == map["Unknown" := 2];
  }

  /** The name-to-count map of one date in the per-date, per-status rows. */
  function DayNameCounts(dailyByStatus: seq<DayStatusCount>, names: int -> string, d: int): map<string, int> {
    if dailyByStatus == [] then map[]
    else
      var last := dailyByStatus[|dailyByStatus| - 1];
      var before := DayNameCounts(dailyByStatus[..|dailyByStatus| - 1], names, d);
      if last.day == d then before[names(last.status) := last.count] else before
  }

  lemma {:induction false} DayNameCountsAbsent(dailyByStatus: seq<DayStatusCount>, names: int -> string, d: int)
    requires forall i :: 0 <= i < |dailyByStatus| ==> dailyByStatus[i].day != d
    ensures DayNameCounts(dailyByStatus, names, d) == map[]
  {
    if dailyByStatus != [] {
      DayNameCountsAbsent(dailyByStatus[..|dailyByStatus| - 1], names, d);
    }
  }

  // ---------------------------------------------------------------- the Java-side maps

  /** `Map.getOrDefault`. */
  function Lookup<K, V>(m: map<K, V>, k: K, default: V): V {
    if k in m then m[k] else default
  }

  /** dateCountMap: the daily rows collected by date, the first row of a
    * date winning. */
  method DateCountMap(daily: seq<DayCount>) returns (m: map<int, int>)
    ensures forall d :: d in m <==> FirstCount(daily, d).Some?
    ensures forall d :: d in m ==> m[d] == FirstCount(daily, d).value
  {
    m := map[];
    var i := 0;
    while i < |daily|
      invariant 0 <= i <= |daily|
      invariant forall d :: d in m <==> FirstCount(daily[..i], d).Some?
      invariant forall d :: d in m ==> m[d] == FirstCount(daily[..i], d).value
    {
      assert daily[..i + 1][..i] == daily[..i];
      if daily[i].day !in m {
        m := m[daily[i].day := daily[i].count];
      }
      i := i + 1;
    }
    assert daily[..|daily|] == daily;
  }

  /** statusCount: each status row put under its label. */
  method StatusCountMap(byStatus: seq<StatusCount>, names: int -> string) returns (m: map<string, int>)
    ensures m == NameCounts(byStatus, names)
  {
    m := map[];
    var i := 0;
    while i < |byStatus|
      invariant 0 <= i <= |byStatus|
      invariant m == NameCounts(byStatus[..i], names)
    {
      assert byStatus[..i + 1][..i] == byStatus[..i];
      m := m[names(byStatus[i].status) := byStatus[i].count];
      i := i + 1;
    }
    assert byStatus[..|byStatus|] == byStatus;
  }

  /** dateStatusMap: computeIfAbsent(date, new map) and then put under the
    * label, so a date is present exactly when some row has it. */
  method DateStatusMap(dailyByStatus: seq<DayStatusCount>, names: int -> string) returns (m: map<int, map<string, int>>)
    ensures forall d :: d in m <==> exists i :: 0 <= i < |dailyByStatus| && dailyByStatus[i].day == d
    ensures forall d :: Lookup(m, d, map[]) == DayNameCounts(dailyByStatus, names, d)
  {
    m := map[];
    var i := 0;
    while i < |dailyByStatus|
      invariant 0 <= i <= |dailyByStatus|
      invariant forall d :: d in m <==> exists j :: 0 <= j < i && dailyByStatus[j].day == d
      invariant forall d :: d in m ==> m[d] == DayNameCounts(dailyByStatus[..i], names, d)
      invariant forall d :: d !in m ==> DayNameCounts(dailyByStatus[..i], names, d) == map[]
    {
      var x := dailyByStatus[i];
      assert dailyByStatus[..i + 1][..i] == dailyByStatus[..i];
      assert dailyByStatus[..i + 1][i] == x;
      if x.day !in m {
        m := m[x.day := map[]];
      }
      m := m[x.day := m[x.day][names(x.status) := x.count]];
      i := i + 1;
    }
    assert dailyByStatus[..|dailyByStatus|] == dailyByStatus;
  }

  // ---------------------------------------------------------------- the seven days

  /** DailyStatisticsDTO. */
  datatype DailyStatistics = DailyStatistics(day: int, count: int, statusCount: map<string, int>)

  /** The chart: one entry per day and the label-to-count map. */
  datatype PeriodStatistics = PeriodStatistics(daily: seq<DailyStatistics>, statusCount: map<string, int>)

  /** The count a day gets: its first daily row, or 0. */
  function DayTotal(daily: seq<DayCount>, d: int): int {
    match FirstCount(daily, d)
    case None => 0
    case Some(c) => c
  }

  /** The entries of the seven days ending today, oldest first. */
  function Week(today: int, agg: Aggregates, names: int -> string): (w: seq<DailyStatistics>)
    ensures |w| == 7
    ensures forall i :: 0 <= i < 7 ==> w[i].day == today - 6 + i
  {
    seq(7, i => DailyStatistics(today - 6 + i, DayTotal(agg.daily, today - 6 + i),
                                DayNameCounts(agg.dailyByStatus, names, today - 6 + i)))
  }

  /** The loop over the seven days, reading the two maps with their defaults. */
  method SevenDays(today: int, counts: map<int, int>, byDay: map<int, map<string, int>>) returns (w: seq<DailyStatistics>)
    ensures |w| == 7
    ensures forall i :: 0 <= i < 7 ==>
      w[i] == DailyStatistics(today - 6 + i, Lookup(counts, today - 6 + i, 0), Lookup(byDay, today - 6 + i, map[]))
  {
    w := [];
    var i := 0;
    while i < 7
      invariant 0 <= i <= 7 && |w| == i
      invariant forall k :: 0 <= k < i ==>
        w[k] == DailyStatistics(today - 6 + k, Lookup(counts, today - 6 + k, 0), Lookup(byDay, today - 6 + k, map[]))
    {
      var d := today - 6 + i;
      w := w + [DailyStatistics(d, Lookup(counts, d, 0), Lookup(byDay, d, map[]))];
      i := i + 1;
    }
  }

  /** `GROUP BY DATE(..)` over the window: one row per date that has
    * matches, carrying f of that date. */
  predicate GroupedBy(daily: seq<DayCount>, f: int -> int, first: int, last: int) {
    && (forall i, j :: 0 <= i < j < |daily| ==> daily[i].day != daily[j].day)
    && (forall i :: 0 <= i < |daily| ==> first <= daily[i].day <= last && daily[i].count == f(daily[i].day))
    && (forall d :: first <= d <= last && f(d) != 0 ==> exists i :: 0 <= i < |daily| && daily[i].day == d)
  }

  /** When the daily rows are the grouped counts of f, every day of the chart
    * shows f of that day, 0 included. */
  lemma WeekShowsGroupedCounts(today: int, agg: Aggregates, names: int -> string, f: int -> int)
    requires GroupedBy(agg.daily, f, today - 6, today)
    ensures forall i :: 0 <= i < 7 ==> Week(today, agg, names)[i].count == f(today - 6 + i)
  {
    var w := Week(today, agg, names);
    forall i | 0 <= i < 7
      ensures w[i].count == f(today - 6 + i)
    {
      var d := today - 6 + i;
      assert w[i].count == DayTotal(agg.daily, d);
      GroupedDayTotal(agg.daily, f, today - 6, today, d);
    }
  }

  /** One day of the window: the grouped rows total f of that day. */
  lemma GroupedDayTotal(daily: seq<DayCount>, f: int -> int, first: int, last: int, d: int)
    requires GroupedBy(daily, f, first, last)
    requires first <= d <= last
    ensures DayTotal(daily, d) == f(d)
  {
    FirstCountIsFirst(daily, d);
    if FirstCount(daily, d).Some? {
      var k :| 0 <= k < |daily| && daily[k].day == d && daily[k].count == FirstCount(daily, d).value;
      assert daily[k].count == f(daily[k].day);
    } else if f(d) != 0 {
      assert false;
    }
  }

  /** An administrator's charts cover every restaurant, anyone else's the
    * restaurants of their user id. */
  function ScopeOf(info: UserInfo): Scope
    requires info.role.Some?
  {
    if info.role.value == RoleAdmin then AllRestaurants else OwnerRestaurants(info.userId)
  }

  /** The shared body of the two chart endpoints: the grouped queries over
    * the seven days ending today, turned into the chart. */
  method PeriodStatisticsOf(info: UserInfo, queries: AggregateQueries, names: int -> string, now: int, failed: string)
    returns (res: Response<PeriodStatistics>)
    ensures info.role.None? ==> res == Error(500, failed + NullRoleMessage)
    ensures info.role.Some? ==>
      var today := DayOf(now);
      var agg := queries(ScopeOf(info), StartOfDay(today - 6), EndOfDay(today));
      res == SuccessWith(Some(PeriodStatistics(Week(today, agg, names), NameCounts(agg.byStatus, names))),
                         "Retrieved successfully")
  {
    if info.role.None? {
      return Error(500, failed + NullRoleMessage);
    }
    var today := DayOf(now);
    var agg := queries(ScopeOf(info), StartOfDay(today - 6), EndOfDay(today));
    var counts := DateCountMap(agg.daily);
    var statusCount := StatusCountMap(agg.byStatus, names);
    var byDay := DateStatusMap(agg.dailyByStatus, names);
    var w := SevenDays(today, counts, byDay);
    forall i | 0 <= i < 7
      ensures w[i] == Week(today, agg, names)[i]
    {
      assert Lookup(counts, today - 6 + i, 0) == DayTotal(agg.daily, today - 6 + i);
    }
    assert w == Week(today, agg, names);
    res := SuccessWith(Some(PeriodStatistics(w, statusCount)), "Retrieved successfully");
  }

  function ReservationStatusName(s: int): string { GetStatusName(Some(s)) }
  function RestaurantStatusName(s: int): string { GetStatusText(Some(s)) }

  /** getReservationStatistics. */
  method GetReservationStatistics(info: UserInfo, queries: AggregateQueries, now: int)
    returns (res: Response<PeriodStatistics>)
    ensures info.role.None? ==> res == Error(500, "Failed to get reservation statistics: " + NullRoleMessage)
    ensures info.role.Some? ==>
      var agg := queries(ScopeOf(info), StartOfDay(DayOf(now) - 6), EndOfDay(DayOf(now)));
      res == SuccessWith(Some(PeriodStatistics(Week(DayOf(now), agg, ReservationStatusName),
                                               NameCounts(agg.byStatus, ReservationStatusName))),
                         "Retrieved successfully")
  {
    res := PeriodStatisticsOf(info, queries, ReservationStatusName, now, "Failed to get reservation statistics: ");
  }

  /** getRestaurantStatistics. */
  method GetRestaurantStatistics(info: UserInfo, queries: AggregateQueries, now: int)
    returns (res: Response<PeriodStatistics>)
    ensures info.role.None? ==> res == Error(500, "Failed to get restaurant statistics: " + NullRoleMessage)
    ensures info.role.Some? ==>
      var agg := queries(ScopeOf(info), StartOfDay(DayOf(now) - 6), EndOfDay(DayOf(now)));
      res == SuccessWith(Some(PeriodStatistics(Week(DayOf(now), agg, RestaurantStatusName),
                                               NameCounts(agg.byStatus, RestaurantStatusName))),
                         "Retrieved successfully")
  {
    res := PeriodStatisticsOf(info, queries, RestaurantStatusName, now, "Failed to get restaurant statistics: ");
  }
}
