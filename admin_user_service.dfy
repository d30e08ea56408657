// The administrator's user management: search, details, creation, editing,
// deletion, status and role changes, password reset, and the role check
// guarding all of them.

module AdminUserService {
  import opened Common
  import opened JavaText
  import opened Query
  import opened Entities
  import opened Auth
  import opened UserMapper

  // ---------------------------------------------------------------- e-mail format

  /** `[a-zA-Z0-9_-]`. */
  predicate EmailChar(c: char) {
    ('a' <= c <= 'z') || ('A' <= c <= 'Z') || ('0' <= c <= '9') || c == '_' || c == '-'
  }

  predicate EmailWord(w: string) {
    w != [] && forall i :: 0 <= i < |w| ==> EmailChar(w[i])
  }

  /** `[a-zA-Z0-9_-]+(\.[a-zA-Z0-9_-]+)+`: two or more words joined by dots. */
  predicate EmailDomain(d: string) {
    var labels := SplitAll(d, '.');
    |labels| >= 2 && forall i :: 0 <= i < |labels| ==> EmailWord(labels[i])
  }

  /** String.matches("^[a-zA-Z0-9_-]+@[a-zA-Z0-9_-]+(\\.[a-zA-Z0-9_-]+)+$"). */
  predicate ValidEmail(s: string) {
    exists i :: 0 <= i < |s| && s[i] == '@' && EmailWord(s[..i]) && EmailDomain(s[i + 1..])
  }

  /** A word, "@", and two or more words joined by dots is a valid address. */
  lemma EmailOfParts(local: string, labels: seq<string>)
    requires EmailWord(local) && |labels| >= 2
    requires forall i :: 0 <= i < |labels| ==> EmailWord(labels[i])
    ensures ValidEmail(local + "@" + Join(labels, '.'))
  {
    var s := local + "@" + Join(labels, '.');
    forall i | 0 <= i < |labels| ensures '.' !in labels[i] {
      assert EmailWord(labels[i]);
    }
    SplitAllJoin(labels, '.');
    assert s[|local|] == '@' && s[..|local|] == local && s[|local| + 1..] == Join(labels, '.');
  }

  /** A valid address has exactly one "@", and a dot after it. */
  lemma ValidEmailShape(s: string)
    requires ValidEmail(s)
    ensures exists i :: 0 <= i < |s| && s[i] == '@' && (forall j :: 0 <= j < |s| && j != i ==> s[j] != '@') && '.' in s[i + 1..]
  {
    var i :| 0 <= i < |s| && s[i] == '@' && EmailWord(s[..i]) && EmailDomain(s[i + 1..]);
    var d := s[i + 1..];
    NoAtInDomain(d);
    forall j | 0 <= j < |s| && j != i ensures s[j] != '@' {
      if j < i {
        assert s[..i][j] == s[j];
      } else {
        assert d[j - i - 1] == s[j];
      }
    }
    DotInDomain(d);
  }

  lemma {:induction false} NoAtInDomain(d: string)
    requires EmailDomain(d)
    ensures '@' !in d
  {
    if '@' in d {
      var k :| 0 <= k < |d| && d[k] == '@';
      AtInSomeLabel(d, k);
    }
  }

  /** A character other than the separator lies in some piece of SplitAll. */
  lemma {:induction false} AtInSomeLabel(d: string, k: nat)
    requires k < |d| && d[k] != '.'
    ensures exists l :: l in SplitAll(d, '.') && d[k] in l
  {
    var rest := SplitAll(d[1..], '.');
    if k == 0 {
      if d[0] != '.' {
        assert d[0] in ([d[0]] + rest[0]);
        assert ([d[0]] + rest[0]) in SplitAll(d, '.');
      }
    } else {
      AtInSomeLabel(d[1..], k - 1);
      var l :| l in rest && d[1..][k - 1] in l;
      if d[0] == '.' {
        assert l in SplitAll(d, '.');
      } else if l == rest[0] {
        assert d[k] in [d[0]] + rest[0];
        assert ([d[0]] + rest[0]) in SplitAll(d, '.');
      } else {
        var m :| 0 < m < |rest| && rest[m] == l;
        assert rest[1..][m - 1] == l;
        assert l in SplitAll(d, '.');
      }
    }
  }

  /** Two or more pieces means the separator occurs. */
  lemma {:induction false} DotInDomain(d: string)
    requires |SplitAll(d, '.')| >= 2
    ensures '.' in d
  {
    if '.' !in d {
      SplitAllNoSep(d, '.');
    }
  }

  // ---------------------------------------------------------------- views

  /** UserVO as the service fills it: the bean copy brings the stored
    * password hash along, and role and status appear twice. */
  datatype UserView = UserView(
    userId: int, name: Option<string>, email: string, password: string, role: int, roleValue: int,
    status: int, statusValue: int, avatar: Option<string>, createdAt: int, updatedAt: int)

  datatype UserListing = UserListing(total: int, list: seq<UserView>)

  function ToUserView(u: User): UserView {
    UserView(u.id, u.name, u.email, u.password, u.role, u.role, u.status, u.status, u.avatar, u.createdAt, u.updatedAt)
  }

  const UserListFailed: string := "Failed to get user list: "

  /** getUserList: page and size normalised, the mapper's search page with
    * its count; a failing query is a 500. */
  method GetUserList(users: seq<User>, page: Option<int>, pageSize: Option<int>,
                     keyword: Option<string>, role: Option<int>, status: Option<int>)
    returns (res: Response<UserListing>)
    ensures var size := NormalisePageSize(pageSize);
            var offset := Offset(NormalisePage(page), size);
      && (IsSuccess(res) <==> offset >= 0)
      && (!IsSuccess(res) ==> res == Error(500, UserListFailed + NegativeOffset))
      && (IsSuccess(res) ==>
            var rows := UserMapper.GetUserList(users, offset, size, keyword, role, status).v;
            && res.message == "Retrieved successfully" && res.data.Some?
            && res.data.value.total == CountUsers(users, keyword, role, status)
            && |res.data.value.list| == |rows|
            && (forall i :: 0 <= i < |rows| ==> res.data.value.list[i] == ToUserView(rows[i]))
            && |res.data.value.list| <= size
            && forall v :: v in res.data.value.list ==>
                 exists u :: u in users && v == ToUserView(u) && UserCondition(keyword, role, status)(u))
  {
    var size := NormalisePageSize(pageSize);
    var offset := Offset(NormalisePage(page), size);
    var rows := UserMapper.GetUserList(users, offset, size, keyword, role, status);
    if rows.Throws? {
      return Error(500, UserListFailed + rows.reason);
    }
    UserPageSound(users, offset, size, keyword, role, status);
    var views := ConvertAll(rows.v, ToUserView);
    forall v | v in views
      ensures exists u :: u in users && v == ToUserView(u) && UserCondition(keyword, role, status)(u)
    {
      var k :| 0 <= k < |views| && views[k] == v;
      assert rows.v[k] in rows.v;
    }
    res := SuccessWith(Some(UserListing(CountUsers(users, keyword, role, status), views)), "Retrieved successfully");
  }

  /** getUserInfo: a null id or an unknown user is a 400, each with its own
    * message; a known user's answer is that user's UserVO. */
  function GetUserInfo(users: seq<User>, userId: Option<int>): (r: Response<UserView>)
    ensures IsSuccess(r) <==> userId.Some? && SelectById(users, UserId, userId.value).Some?
    ensures userId.None? ==> r == ValidateFailed("User ID cannot be empty")
    ensures userId.Some? && SelectById(users, UserId, userId.value).None? ==> r == ValidateFailed("User not found")
    ensures IsSuccess(r) ==>
      && r.message == "Retrieved successfully"
      && r.data == Some(ToUserView(SelectById(users, UserId, userId.value).value))
      && r.data.value.userId == userId.value
  {
    if userId.None? then ValidateFailed("User ID cannot be empty")
    else match SelectById(users, UserId, userId.value)
      case None => ValidateFailed("User not found")
      case Some(u) => SuccessWith(Some(ToUserView(u)), "Retrieved successfully")
  }

  /** Under the primary key, every user on a page of the list is shown by
    * getUserInfo exactly as the list shows it. */
  lemma ListedUserInfoAgrees(users: seq<User>, offset: int, limit: int,
                             keyword: Option<string>, role: Option<int>, status: Option<int>, u: User)
    requires UniqueIds(users, UserId)
    requires UserMapper.GetUserList(users, offset, limit, keyword, role, status).Value?
    requires u in UserMapper.GetUserList(users, offset, limit, keyword, role, status).v
    ensures GetUserInfo(users, Some(u.id)) == SuccessWith(Some(ToUserView(u)), "Retrieved successfully")
  {
    UserPageSound(users, offset, limit, keyword, role, status);
    var k :| 0 <= k < |users| && users[k] == u;
    IndexOfUnique(users, UserId, u.id, k);
  }

  // ---------------------------------------------------------------- creating and editing

  /** The UserVO an administrator submits. */
  datatype UserForm = UserForm(
    name: Option<string>, email: Option<string>, password: Option<string>,
    roleValue: Option<int>, statusValue: Option<int>, avatar: Option<string>)

  /** No two users share an e-mail address. */
  predicate UniqueEmails(users: seq<User>) {
    forall i, j :: 0 <= i < j < |users| ==> users[i].email != users[j].email
  }

  function EmailTaken(users: seq<User>, email: string): bool {
    CountWhere(users, (u: User) => u.email == email) > 0
  }

  /** `selectCount(email = ?) > 0` is whether some user has that address. */
  lemma {:induction false} EmailTakenIff(users: seq<User>, email: string)
    ensures EmailTaken(users, email) <==> exists u :: u in users && u.email == email
  {
    var p := (u: User) => u.email == email;
    CountIsWhereLength(users, p);
    var w := Where(users, p);
    assert w != [] ==> w[0] in w;
  }

  /** addUser: an address and a password are required, the address must be
    * well formed and unused; the new user is role 2 and status 1 unless
    * the form says otherwise, with the password stored hashed. */
  function AddUser(users: seq<User>, nextId: int, form: UserForm, hashpw: PasswordHasher, now: int)
    : (Response<UserView>, seq<User>)
  {
    if NullOrEmpty(form.email) || NullOrEmpty(form.password) then (ValidateFailed("Email or password cannot be empty"), users)
    else if !ValidEmail(form.email.value) then (ValidateFailed("Invalid email format"), users)
    else if EmailTaken(users, form.email.value) then (ValidateFailed("Email already registered"), users)
    else
      var u := User(nextId, form.name, form.email.value, hashpw(form.password.value),
                    if form.roleValue.Some? then form.roleValue.value else RoleUser, form.avatar,
                    if form.statusValue.Some? then form.statusValue.value else 1, now, now);
      (SuccessWith(Some(ToUserView(u)), "Added successfully"), users + [u])
  }

  /** A user is added exactly for a non-empty, well-formed, unused address
    * and a non-empty password, as a diner in good standing unless told
    * otherwise; a refusal changes nothing; addresses stay unique. */
  lemma AddUserOutcome(users: seq<User>, nextId: int, form: UserForm, hashpw: PasswordHasher, now: int)
    requires UniqueEmails(users)
    ensures var (res, after) := AddUser(users, nextId, form, hashpw, now);
      && (IsSuccess(res) <==>
            && !NullOrEmpty(form.email) && !NullOrEmpty(form.password) && ValidEmail(form.email.value)
            && forall u :: u in users ==> u.email != form.email.value)
      && (!IsSuccess(res) ==> res.code == Some(400) && after == users)
      && (IsSuccess(res) ==>
            var u := after[|users|];
            && after == users + [u]
            && u.email == form.email.value && u.password == hashpw(form.password.value)
            && (form.roleValue.None? ==> u.role == RoleUser)
            && (form.statusValue.None? ==> u.status == 1)
            && UniqueEmails(after))
  {
    if !NullOrEmpty(form.email) {
      EmailTakenIff(users, form.email.value);
    }
    var (res, after) := AddUser(users, nextId, form, hashpw, now);
    if IsSuccess(res) {
      forall i, j | 0 <= i < j < |after| ensures after[i].email != after[j].email {
        if j == |users| {
          assert users[i] in users;
        }
      }
    }
  }

  /** `selectCount(email = ? AND id <> userId) > 0`. */
  function EmailTakenByOther(users: seq<User>, email: string, userId: int): bool {
    CountWhere(users, (u: User) => u.email == email && u.id != userId) > 0
  }

  lemma {:induction false} EmailTakenByOtherIff(users: seq<User>, email: string, userId: int)
    ensures EmailTakenByOther(users, email, userId) <==> exists u :: u in users && u.email == email && u.id != userId
  {
    var p := (u: User) => u.email == email && u.id != userId;
    CountIsWhereLength(users, p);
    var w := Where(users, p);
    assert w != [] ==> w[0] in w;
  }

  /** The refusal updateUser gives before it writes, if any. */
  function UpdateRefusal(users: seq<User>, userId: Option<int>, form: UserForm): Option<Response<UserView>> {
    if userId.None? then Some(ValidateFailed("User ID cannot be empty"))
    else match SelectById(users, UserId, userId.value)
      case None => Some(ValidateFailed("User not found"))
      case Some(u) =>
        if form.email.Some? && form.email.value != u.email then
          if !ValidEmail(form.email.value) then Some(ValidateFailed("Invalid email format"))
          else if EmailTakenByOther(users, form.email.value, userId.value) then
            Some(ValidateFailed("Email already used by another user"))
          else None
        else None
  }

  /** The user as updateUser leaves it: each field the form supplies
    * replaces the stored one, the password only when non-empty and then
    * hashed; the update time is now. */
  function Revised(u: User, form: UserForm, hashpw: PasswordHasher, now: int): (r: User)
    ensures r.id == u.id && r.createdAt == u.createdAt && r.updatedAt == now
    ensures r.email == (if form.email.Some? then form.email.value else u.email)
    ensures r.name == (if form.name.Some? then form.name else u.name)
    ensures r.avatar == (if form.avatar.Some? then form.avatar else u.avatar)
    ensures r.role == (if form.roleValue.Some? then form.roleValue.value else u.role)
    ensures r.status == (if form.statusValue.Some? then form.statusValue.value else u.status)
    ensures r.password == (if NullOrEmpty(form.password) then u.password else hashpw(form.password.value))
  {
    u.(email := if form.email.Some? then form.email.value else u.email,
       name := if form.name.Some? then form.name else u.name,
       avatar := if form.avatar.Some? then form.avatar else u.avatar,
       role := if form.roleValue.Some? then form.roleValue.value else u.role,
       status := if form.statusValue.Some? then form.statusValue.value else u.status,
       password := if NullOrEmpty(form.password) then u.password else hashpw(form.password.value),
       updatedAt := now)
  }

  /** The field-by-field setters of updateUser, applied to the fetched user. */
  method ApplyUserForm(u: User, form: UserForm, hashpw: PasswordHasher, now: int) returns (r: User)
    ensures r == Revised(u, form, hashpw, now)
  {
    r := u;
    if form.email.Some? && form.email.value != r.email {
      r := r.(email := form.email.value);
    }
    if form.name.Some? {
      r := r.(name := form.name);
    }
    if form.avatar.Some? {
      r := r.(avatar := form.avatar);
    }
    if form.roleValue.Some? {
      r := r.(role := form.roleValue.value);
    }
    if form.statusValue.Some? {
      r := r.(status := form.statusValue.value);
    }
    if form.password.Some? && form.password.value != [] {
      r := r.(password := hashpw(form.password.value));
    }
    r := r.(updatedAt := now);
  }

  /** updateUser. */
  function UpdateUser(users: seq<User>, userId: Option<int>, form: UserForm, hashpw: PasswordHasher, now: int)
    : (Response<UserView>, seq<User>)
  {
    match UpdateRefusal(users, userId, form)
    case Some(refusal) => (refusal, users)
    case None =>
      var k := IndexOf(users, UserId, userId.value).value;
      var r := Revised(users[k], form, hashpw, now);
      (SuccessWith(Some(ToUserView(r)), "Updated successfully"), users[k := r])
  }

  /** An update keeps addresses unique: a changed address is checked
    * against every other user. */
  lemma UpdateUserKeepsEmailsUnique(users: seq<User>, userId: Option<int>, form: UserForm, hashpw: PasswordHasher, now: int)
    requires UniqueIds(users, UserId) && UniqueEmails(users)
    ensures UniqueEmails(UpdateUser(users, userId, form, hashpw, now).1)
  {
    var (res, after) := UpdateUser(users, userId, form, hashpw, now);
    if UpdateRefusal(users, userId, form).None? {
      var k := IndexOf(users, UserId, userId.value).value;
      if form.email.Some? && form.email.value != users[k].email {
        EmailTakenByOtherIff(users, form.email.value, userId.value);
        forall i | 0 <= i < |users| && i != k ensures users[i].email != form.email.value {
          IndexOfUnique(users, UserId, users[i].id, i);
        }
      }
    }
  }

  /** A changed address that is malformed or held by another user is
    * refused, and an unchanged one is never checked. */
  lemma UpdateUserEmailRule(users: seq<User>, k: nat, form: UserForm, hashpw: PasswordHasher, now: int)
    requires UniqueIds(users, UserId) && k < |users|
    ensures var (res, after) := UpdateUser(users, Some(users[k].id), form, hashpw, now);
      && (form.email.None? || form.email.value == users[k].email ==> IsSuccess(res) && after == users[k := Revised(users[k], form, hashpw, now)])
      && (form.email.Some? && form.email.value != users[k].email ==>
            (IsSuccess(res) <==> ValidEmail(form.email.value)
                                 && forall u :: u in users && u.id != users[k].id ==> u.email != form.email.value))
  {
    IndexOfUnique(users, UserId, users[k].id, k);
    if form.email.Some? {
      EmailTakenByOtherIff(users, form.email.value, users[k].id);
    }
  }

  // ---------------------------------------------------------------- deletion, status, role, password

  /** deleteUser: a system administrator (role 0) is never deleted. */
  function DeleteUser(users: seq<User>, userId: Option<int>): (Response<Void>, seq<User>) {
    if userId.None? then (ValidateFailed("User ID cannot be empty"), users)
    else match SelectById(users, UserId, userId.value)
      case None => (ValidateFailed("User not found"), users)
      case Some(u) =>
        if u.role == RoleAdmin then (ValidateFailed("Cannot delete system administrator"), users)
        else (SuccessWith(None, "Deleted successfully"), Where(users, (x: User) => x.id != userId.value))
  }

  /** Deleting removes exactly the named non-administrator, and no
    * administrator ever disappears. */
  lemma DeleteUserOutcome(users: seq<User>, userId: Option<int>)
    requires UniqueIds(users, UserId)
    ensures var (res, after) := DeleteUser(users, userId);
      && (IsSuccess(res) <==> userId.Some? && SelectById(users, UserId, userId.value).Some?
                                           && SelectById(users, UserId, userId.value).value.role != RoleAdmin)
      && (IsSuccess(res) ==> forall u :: u in after <==> u in users && u.id != userId.value)
      && (!IsSuccess(res) ==> after == users)
      && (forall u :: u in users && u.role == RoleAdmin ==> u in after)
  {
    var (res, after) := DeleteUser(users, userId);
    if IsSuccess(res) {
      forall u | u in users && u.role == RoleAdmin ensures u.id != userId.value {
        var i :| 0 <= i < |users| && users[i] == u;
        IndexOfUnique(users, UserId, u.id, i);
      }
    }
  }

  /** The data the status and role updates answer with. */
  datatype StatusChange = StatusChange(userId: int, status: Option<int>, statusText: Option<int>)
  datatype RoleChange = RoleChange(userId: int, role: int, roleText: int)

  /** The NullPointerException of unboxing a null status. */
  const NullStatusMessage: string := "Cannot invoke " + Quote + "java.lang.Integer.intValue()" + Quote + " because " + Quote + "status" + Quote + " is null"

  /** updateUserStatus: status 0 on a system administrator is refused;
    * comparing a null status with 0 for an administrator throws; any other
    * value, null included, is written (a null one leaves the status). */
  function UpdateUserStatus(users: seq<User>, userId: Option<int>, status: Option<int>, now: int)
    : (Response<StatusChange>, seq<User>)
  {
    if userId.None? then (ValidateFailed("User ID cannot be empty"), users)
    else match IndexOf(users, UserId, userId.value)
      case None => (ValidateFailed("User not found"), users)
      case Some(k) =>
        var u := users[k];
        if u.role == RoleAdmin && status.None? then
          (Error(500, "Failed to update user status: " + NullStatusMessage), users)
        else if u.role == RoleAdmin && status.value == 0 then (ValidateFailed("Cannot disable system administrator"), users)
        else
          var r := u.(status := if status.Some? then status.value else u.status, updatedAt := now);
          (SuccessWith(Some(StatusChange(u.id, status, status)), "Status updated successfully"), users[k := r])
  }

  /** No status update ever disables a system administrator, and every other
    * request on an existing user is written as given. */
  lemma UpdateUserStatusNeverDisablesAdmin(users: seq<User>, userId: Option<int>, status: Option<int>, now: int)
    ensures var (res, after) := UpdateUserStatus(users, userId, status, now);
      && |after| == |users|
      && (forall i :: 0 <= i < |users| && users[i].role == RoleAdmin && users[i].status != 0 ==> after[i].status != 0)
      && (IsSuccess(res) <==>
            && userId.Some? && SelectById(users, UserId, userId.value).Some?
            && (SelectById(users, UserId, userId.value).value.role == RoleAdmin ==> status.Some? && status.value != 0))
  {
    if userId.Some? {
      match IndexOf(users, UserId, userId.value)
      case None =>
      case Some(k) =>
        var u := users[k];
        if !(u.role == RoleAdmin && (status.None? || status.value == 0)) {
          var r := u.(status := if status.Some? then status.value else u.status, updatedAt := now);
          assert UpdateUserStatus(users, userId, status, now).1 == users[k := r];
        }
    }
  }

  /** updateUserRole: only roles 0..3 are accepted, checked before the
    * user is looked up. */
  function UpdateUserRole(users: seq<User>, userId: Option<int>, role: Option<int>, now: int): (Response<RoleChange>, seq<User>) {
    if userId.None? then (ValidateFailed("User ID cannot be empty"), users)
    else if role.None? || role.value < 0 || role.value > 3 then (ValidateFailed("Invalid role parameter"), users)
    else match IndexOf(users, UserId, userId.value)
      case None => (ValidateFailed("User not found"), users)
      case Some(k) =>
        var r := users[k].(role := role.value, updatedAt := now);
        (SuccessWith(Some(RoleChange(r.id, role.value, role.value)), "Role updated successfully"), users[k := r])
  }

  /** Every role a user holds after a role update is one of the four, if it
    * was before. */
  lemma UpdateUserRoleInRange(users: seq<User>, userId: Option<int>, role: Option<int>, now: int)
    requires forall u :: u in users ==> 0 <= u.role <= 3
    ensures var (res, after) := UpdateUserRole(users, userId, role, now);
      && (forall u :: u in after ==> 0 <= u.role <= 3)
      && (IsSuccess(res) ==> role.Some? && 0 <= role.value <= 3)
      && (role.Some? && (role.value < 0 || role.value > 3) ==> after == users && res.code == Some(400))
  {
    var (res, after) := UpdateUserRole(users, userId, role, now);
    forall u | u in after ensures 0 <= u.role <= 3 {
      var i :| 0 <= i < |after| && after[i] == u;
      assert after[i] == users[i] || after[i].role == role.value;
    }
  }

  const DefaultPassword: string := "123456"

  /** resetUserPassword: the password becomes the hash of "123456". */
  function ResetUserPassword(users: seq<User>, userId: Option<int>, hashpw: PasswordHasher, now: int): (Response<Void>, seq<User>) {
    if userId.None? then (ValidateFailed("User ID cannot be empty"), users)
    else match IndexOf(users, UserId, userId.value)
      case None => (ValidateFailed("User not found"), users)
      case Some(k) =>
        (SuccessWith(None, "Password reset successfully, new password is: " + DefaultPassword),
         users[k := users[k].(password := hashpw(DefaultPassword), updatedAt := now)])
  }

  /** After a reset the user's password checks against "123456" with any
    * checker that accepts what the hasher produced. */
  lemma ResetPasswordChecks(users: seq<User>, k: nat, hashpw: PasswordHasher, checkpw: PasswordChecker, now: int)
    requires UniqueIds(users, UserId) && k < |users|
    requires forall p :: checkpw(p, hashpw(p))
    ensures var (res, after) := ResetUserPassword(users, Some(users[k].id), hashpw, now);
      IsSuccess(res) && checkpw(DefaultPassword, after[k].password)
      && forall i :: 0 <= i < |users| && i != k ==> after[i] == users[i]
  {
    IndexOfUnique(users, UserId, users[k].id, k);
  }

  // ---------------------------------------------------------------- the role check

  const AdminOnly: string := "No permission to access administrator interface"

  /** checkAdminRole: no token, an unreadable one or a token without a user
    * is 401; a role other than 0 is 403; otherwise the user id. */
  function CheckAdminRole(token: Option<string>, parse: TokenParser): (r: Response<int>)
    ensures IsSuccess(r) <==> token.Some? && token.value != "" && parse(token.value).Value? && parse(token.value).v.Some?
                              && parse(token.value).v.value.role == Some(RoleAdmin) && parse(token.value).v.value.userId.Some?
    ensures IsSuccess(r) ==> r.data == parse(token.value).v.value.userId
    ensures r.code == Some(403) <==> token.Some? && token.value != "" && parse(token.value).Value? && parse(token.value).v.Some?
                                     && parse(token.value).v.value.role != Some(RoleAdmin)
  {
    if token.None? || token.value == "" then Unauthorized()
    else match parse(token.value)
      case Throws(_) => Unauthorized()
      case Value(None) => Unauthorized()
      case Value(Some(c)) =>
        if c.role != Some(RoleAdmin) then ForbiddenWith(AdminOnly)
        else if c.userId.None? then Unauthorized()
        else Success(c.userId)
  }

  // ---------------------------------------------------------------- the store

  /** The users table, written in place by the administrator's operations. */
  class UserStore {
    var users: seq<User>
    var nextId: int

    ghost predicate Valid()
      reads this
    {
      UniqueIds(users, UserId) && UniqueEmails(users) && forall u :: u in users ==> u.id < nextId
    }

    constructor()
      ensures Valid() && users == [] && nextId == 1
    {
      users := [];
      nextId := 1;
    }

    method Add(form: UserForm, hashpw: PasswordHasher, now: int) returns (res: Response<UserView>)
      requires Valid()
      modifies this
      ensures Valid()
      ensures (res, users) == AddUser(old(users), old(nextId), form, hashpw, now)
    {
      AddUserOutcome(users, nextId, form, hashpw, now);
      var (r, after) := AddUser(users, nextId, form, hashpw, now);
      if IsSuccess(r) {
        forall i, j | 0 <= i < j < |after| ensures after[i].id != after[j].id {
          if j == |users| {
            assert users[i] in users;
          }
        }
        nextId := nextId + 1;
      }
      users := after;
      res := r;
    }

    /** updateUser: the fetched user is revised setter by setter and written
      * back. */
    method Update(userId: Option<int>, form: UserForm, hashpw: PasswordHasher, now: int) returns (res: Response<UserView>)
      requires Valid()
      modifies this
      ensures Valid() && nextId == old(nextId)
      ensures (res, users) == UpdateUser(old(users), userId, form, hashpw, now)
    {
      UpdateUserKeepsEmailsUnique(users, userId, form, hashpw, now);
      var refusal := UpdateRefusal(users, userId, form);
      if refusal.Some? {
        return refusal.value;
      }
      var k := IndexOf(users, UserId, userId.value).value;
      var r := ApplyUserForm(users[k], form, hashpw, now);
      users := users[k := r];
      assert forall u :: u in users ==> u == r || u in old(users);
      res := SuccessWith(Some(ToUserView(r)), "Updated successfully");
    }
  }
}
