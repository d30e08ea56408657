// Waiter applications: a user applies to one manager and waits (status 0);
// the manager approves (1), turns down or removes the application; and
// the directory of active managers a user may apply to.

module StaffService {
  import opened Common
  import opened JavaText
  import opened Query
  import opened Entities
  import opened Auth
  import opened UserMapper

  // ---------------------------------------------------------------- messages

  const Submitted: string := "Application submitted successfully, waiting for manager review"
  const ManagerListFailed: string := "Failed to get manager list: "

  const StaffPending: int := 0

  /** No user has two staff rows. */
  predicate OneRowPerUser(staff: seq<Staff>) {
    forall i, j :: 0 <= i < j < |staff| ==> staff[i].userId != staff[j].userId
  }

  /** Some staff row belongs to the user (`count(user_id = ?) > 0`). */
  predicate HasStaffRow(staff: seq<Staff>, userId: int) {
    exists s :: s in staff && s.userId == userId
  }

  // ---------------------------------------------------------------- applying

  /** applyForStaff: both ids are required, the applicant must exist and the
    * target must be an existing manager (400 otherwise); a user with any
    * staff row already, for any manager and in any status, is refused; the
    * new row is pending and stamped with one time. */
  function ApplyForStaff(staff: seq<Staff>, users: seq<User>, nextId: int, userId: Option<int>, managerId: Option<int>,
                         now: int): (Response<Staff>, seq<Staff>)
  {
    if userId.None? || managerId.None? then (ValidateFailed("User ID and Manager ID cannot be empty"), staff)
    else if SelectById(users, UserId, userId.value).None? then (ValidateFailed("User does not exist"), staff)
    else if SelectById(users, UserId, managerId.value).None? then (ValidateFailed("Manager does not exist"), staff)
    else if SelectById(users, UserId, managerId.value).value.role != RoleManager then
      (ValidateFailed("Specified user is not a restaurant manager"), staff)
    else if HasStaffRow(staff, userId.value) then
      (ValidateFailed("You are already an employee of another manager, cannot apply"), staff)
    else if exists s :: s in staff && s.userId == userId.value && s.managerId == managerId then
      (ValidateFailed("You have already submitted an application to this manager"), staff)
    else
      var row := Staff(nextId, managerId, userId.value, StaffPending, now, now);
      (SuccessWith(Some(row), Submitted), staff + [row])
  }

  /** The application succeeds exactly for an existing applicant with no
    * staff row and an existing manager target; the row it adds is pending. */
  lemma ApplyForStaffSucceeds(staff: seq<Staff>, users: seq<User>, nextId: int, userId: Option<int>, managerId: Option<int>, now: int)
    ensures var (res, after) := ApplyForStaff(staff, users, nextId, userId, managerId, now);
      && (IsSuccess(res) <==>
            && userId.Some? && managerId.Some?
            && SelectById(users, UserId, userId.value).Some?
            && SelectById(users, UserId, managerId.value).Some?
            && SelectById(users, UserId, managerId.value).value.role == RoleManager
            && !HasStaffRow(staff, userId.value))
      && (!IsSuccess(res) ==> res.code == Some(400) && after == staff)
      && (IsSuccess(res) ==>
            && after == staff + [res.data.value]
            && res.data.value == Staff(nextId, managerId, userId.value, StaffPending, now, now))
  {
    if userId.Some? && managerId.Some? && SelectById(users, UserId, userId.value).Some?
       && SelectById(users, UserId, managerId.value).Some?
       && SelectById(users, UserId, managerId.value).value.role == RoleManager {
      SameManagerCheckUnreachable(staff, userId.value, managerId);
      if !HasStaffRow(staff, userId.value) {
        var row := Staff(nextId, managerId, userId.value, StaffPending, now, now);
        assert ApplyForStaff(staff, users, nextId, userId, managerId, now) ==
          (SuccessWith(Some(row), Submitted), staff + [row]);
      }
    }
  }

  /** The check against the same manager never decides anything: whatever
    * it would refuse, the check against any manager has refused already. */
  lemma SameManagerCheckUnreachable(staff: seq<Staff>, userId: int, managerId: Option<int>)
    ensures (exists s :: s in staff && s.userId == userId && s.managerId == managerId) ==> HasStaffRow(staff, userId)
  {
  }

  /** Applying never gives a user a second staff row. */
  lemma ApplyKeepsOneRowPerUser(staff: seq<Staff>, users: seq<User>, nextId: int,
                                userId: Option<int>, managerId: Option<int>, now: int)
    requires OneRowPerUser(staff)
    ensures OneRowPerUser(ApplyForStaff(staff, users, nextId, userId, managerId, now).1)
  {
    ApplyForStaffSucceeds(staff, users, nextId, userId, managerId, now);
    var (res, after) := ApplyForStaff(staff, users, nextId, userId, managerId, now);
    if IsSuccess(res) {
      AppendKeepsOneRowPerUser(staff, res.data.value);
    }
  }

  /** A row for a user without one keeps one row per user. */
  lemma AppendKeepsOneRowPerUser(staff: seq<Staff>, row: Staff)
    requires OneRowPerUser(staff) && !HasStaffRow(staff, row.userId)
    ensures OneRowPerUser(staff + [row])
  {
    var after := staff + [row];
    forall i, j | 0 <= i < j < |after| ensures after[i].userId != after[j].userId {
      if j == |staff| {
        assert staff[i] in staff;
      }
    }
  }

  // ---------------------------------------------------------------- the manager's decisions

  /** `id = staffId AND manager_id = managerId`; a null id matches nothing. */
  predicate Matches(s: Staff, staffId: Option<int>, managerId: Option<int>) {
    staffId.Some? && managerId.Some? && s.id == staffId.value && s.managerId == managerId
  }

  const UpdateFailed: string := "Failed to update staff status"

  /** updateStaffStatus: the row with that id must belong to the manager,
    * otherwise the call throws; any status value is written, a null one is
    * skipped by updateById and leaves the row as it was. */
  function UpdateStaffStatus(staff: seq<Staff>, staffId: Option<int>, managerId: Option<int>, status: Option<int>)
    : (Except<bool>, seq<Staff>)
  {
    var found := if staffId.None? then None else IndexOf(staff, StaffId, staffId.value);
    if found.None? || !Matches(staff[found.value], staffId, managerId) then (Throws(UpdateFailed), staff)
    else
      var i := found.value;
      var row := if status.Some? then staff[i].(status := status.value) else staff[i];
      (Value(true), staff[i := row])
  }

  /** A manager changes the status of their own applicant to any value, out
    * of range included, and nothing else; anyone else's row is refused and
    * left alone. */
  lemma {:induction false} UpdateStaffStatusOwnRowOnly(staff: seq<Staff>, k: nat, managerId: Option<int>, status: int)
    requires UniqueIds(staff, StaffId) && k < |staff|
    ensures var (r, after) := UpdateStaffStatus(staff, Some(staff[k].id), managerId, Some(status));
      && (r.Value? <==> managerId.Some? && staff[k].managerId == managerId)
      && (r.Value? ==> after == staff[k := staff[k].(status := status)])
      && (r.Throws? ==> after == staff)
  {
    IndexOfUnique(staff, StaffId, staff[k].id, k);
  }

  /** deleteStaff: every row matching both ids is removed; the answer is
    * whether any was. */
  function DeleteStaff(staff: seq<Staff>, staffId: Option<int>, managerId: Option<int>): (Except<bool>, seq<Staff>) {
    var kept := Where(staff, (s: Staff) => !Matches(s, staffId, managerId));
    (Value(|kept| < |staff|), kept)
  }

  /** Deletion keeps exactly the rows not matching both ids, and reports
    * true exactly when some row matched. */
  lemma {:induction false} DeleteStaffOnlyMatching(staff: seq<Staff>, staffId: Option<int>, managerId: Option<int>)
    ensures var (r, after) := DeleteStaff(staff, staffId, managerId);
      && (forall s :: s in after <==> s in staff && !Matches(s, staffId, managerId))
      && (r == Value(true) <==> exists s :: s in staff && Matches(s, staffId, managerId))
  {
    var p := (s: Staff) => !Matches(s, staffId, managerId);
    if exists s :: s in staff && Matches(s, staffId, managerId) {
      var s :| s in staff && Matches(s, staffId, managerId);
      WhereDropsRow(staff, p, s);
    } else {
      CountAll(staff, p);
      CountIsWhereLength(staff, p);
    }
  }

  // ---------------------------------------------------------------- the manager directory

  /** ManagerVO. */
  datatype ManagerView = ManagerView(managerId: int, name: Option<string>, email: string, avatar: Option<string>, createdAt: int)
  datatype ManagerListing = ManagerListing(total: int, list: seq<ManagerView>)

  /** Active managers (role 1, status 1), matching the keyword in name or
    * email when it is non-null and not "". */
  function ManagerCondition(keyword: Option<string>): User -> bool {
    (u: User) => u.role == RoleManager && u.status == 1 && (NullOrEmpty(keyword) || KeywordMatches(u, keyword.value))
  }

  function CreatedAtOf(u: User): int { u.createdAt }

  function ToManagerView(u: User): ManagerView {
    ManagerView(u.id, u.name, u.email, u.avatar, u.createdAt)
  }

  /** getManagerList: the count of active matching managers and the page of
    * them, newest first; page and size are used as given, and a negative
    * offset or size makes the query fail. */
  method GetManagerList(users: seq<User>, page: int, pageSize: int, keyword: Option<string>)
    returns (r: Except<ManagerListing>)
    ensures r.Value? <==> Offset(page, pageSize) >= 0 && pageSize >= 0
    ensures r.Throws? ==>
      r == Throws(ManagerListFailed + if Offset(page, pageSize) < 0 then NegativeOffset else NegativeLimit)
    ensures r.Value? ==>
      var rows := SelectPageDesc(users, ManagerCondition(keyword), CreatedAtOf, Offset(page, pageSize), pageSize).v;
      && |r.v.list| == |rows|
      && forall i :: 0 <= i < |rows| ==> r.v.list[i] == ToManagerView(rows[i])
    ensures r.Value? ==>
      && r.v.total == CountWhere(users, ManagerCondition(keyword))
      && |r.v.list| <= pageSize
      && (forall i, j :: 0 <= i < j < |r.v.list| ==> r.v.list[i].createdAt >= r.v.list[j].createdAt)
      && forall v :: v in r.v.list ==>
           exists u :: u in users && v == ToManagerView(u) && u.role == RoleManager && u.status == 1
                       && (NullOrEmpty(keyword) || KeywordMatches(u, keyword.value))
  {
    var offset := Offset(page, pageSize);
    var cond := ManagerCondition(keyword);
    var total := CountWhere(users, cond);
    var rows := SelectPageDesc(users, cond, CreatedAtOf, offset, pageSize);
    if rows.Throws? {
      return Throws(ManagerListFailed + rows.reason);
    }
    SelectPageDescRowsMatch(users, cond, CreatedAtOf, offset, pageSize);
    SelectPageDescOrdered(users, cond, CreatedAtOf, offset, pageSize);
    var views := ConvertAll(rows.v, ToManagerView);
    forall v | v in views
      ensures exists u :: u in users && v == ToManagerView(u) && cond(u)
    {
      var i :| 0 <= i < |views| && views[i] == v;
      assert rows.v[i] in rows.v;
    }
    assert forall i :: 0 <= i < |views| ==> views[i].createdAt == CreatedAtOf(rows.v[i]);
    r := Value(ManagerListing(total, views));
  }

  // ---------------------------------------------------------------- the store

  /** The staff table, written in place. */
  class StaffStore {
    var staff: seq<Staff>
    var nextId: int

    ghost predicate Valid()
      reads this
    {
      UniqueIds(staff, StaffId) && OneRowPerUser(staff) && forall s :: s in staff ==> s.id < nextId
    }

    constructor()
      ensures Valid() && staff == [] && nextId == 1
    {
      staff := [];
      nextId := 1;
    }

    method Apply(users: seq<User>, userId: Option<int>, managerId: Option<int>, now: int) returns (res: Response<Staff>)
      requires Valid()
      modifies this
      ensures Valid()
      ensures (res, staff) == ApplyForStaff(old(staff), users, old(nextId), userId, managerId, now)
    {
      ApplyKeepsOneRowPerUser(staff, users, nextId, userId, managerId, now);
      ApplyKeepsIds(staff, users, nextId, userId, managerId, now);
      var (r, after) := ApplyForStaff(staff, users, nextId, userId, managerId, now);
      if IsSuccess(r) {
        nextId := nextId + 1;
      }
      staff := after;
      res := r;
    }

    method UpdateStatus(staffId: Option<int>, managerId: Option<int>, status: Option<int>) returns (r: Except<bool>)
      requires Valid()
      modifies this
      ensures Valid() && nextId == old(nextId)
      ensures (r, staff) == UpdateStaffStatus(old(staff), staffId, managerId, status)
    {
      var found := if staffId.None? then None else IndexOf(staff, StaffId, staffId.value);
      if found.None? || !Matches(staff[found.value], staffId, managerId) {
        return Throws(UpdateFailed);
      }
      var i := found.value;
      var row := staff[i];
      if status.Some? {
        row := row.(status := status.value);
      }
      staff := staff[i := row];
      assert forall s :: s in staff ==> s == row || s in old(staff);
      r := Value(true);
    }

    method Delete(staffId: Option<int>, managerId: Option<int>) returns (r: Except<bool>)
      requires Valid()
      modifies this
      ensures Valid() && nextId == old(nextId)
      ensures (r, staff) == DeleteStaff(old(staff), staffId, managerId)
    {
      var p := (s: Staff) => !Matches(s, staffId, managerId);
      var kept := Where(staff, p);
      WhereKeepsInvariants(staff, p);
      r := Value(|kept| < |staff|);
      staff := kept;
    }
  }

  /** An application adds at most one row, with the next id. */
  lemma ApplyKeepsIds(staff: seq<Staff>, users: seq<User>, nextId: int, userId: Option<int>, managerId: Option<int>, now: int)
    requires UniqueIds(staff, StaffId) && forall s :: s in staff ==> s.id < nextId
    ensures var after := ApplyForStaff(staff, users, nextId, userId, managerId, now).1;
      UniqueIds(after, StaffId) && forall s :: s in after ==> s.id < nextId + 1
  {
    ApplyForStaffSucceeds(staff, users, nextId, userId, managerId, now);
    var (res, after) := ApplyForStaff(staff, users, nextId, userId, managerId, now);
    if IsSuccess(res) {
      AppendFreshId(staff, res.data.value);
    }
  }

  /** A row whose id exceeds every stored one keeps ids unique. */
  lemma AppendFreshId(staff: seq<Staff>, row: Staff)
    requires UniqueIds(staff, StaffId) && forall s :: s in staff ==> s.id < row.id
    ensures UniqueIds(staff + [row], StaffId) && forall s :: s in staff + [row] ==> s.id < row.id + 1
  {
    var after := staff + [row];
    forall i, j | 0 <= i < j < |after| ensures after[i].id != after[j].id {
      if j == |staff| {
        assert staff[i] in staff;
      }
    }
  }

  /** Removing rows keeps ids unique and users to one row each. */
  lemma {:induction false} WhereKeepsInvariants(staff: seq<Staff>, p: Staff -> bool)
    requires UniqueIds(staff, StaffId) && OneRowPerUser(staff)
    ensures UniqueIds(Where(staff, p), StaffId) && OneRowPerUser(Where(staff, p))
  {
    if staff != [] {
      var rest := staff[1..];
      assert UniqueIds(rest, StaffId) && OneRowPerUser(rest);
      WhereKeepsInvariants(rest, p);
      var w := Where(rest, p);
      forall x | x in w ensures x.id != staff[0].id && x.userId != staff[0].userId {
        var i :| 0 <= i < |rest| && rest[i] == x;
        assert staff[i + 1] == x;
      }
      if p(staff[0]) {
        var r := [staff[0]] + w;
        forall i, j | 0 <= i < j < |r| ensures r[i].id != r[j].id && r[i].userId != r[j].userId {
          assert r[j] == w[j - 1] && w[j - 1] in w;
          if i > 0 {
            assert r[i] == w[i - 1];
          }
        }
      }
    }
  }
}
