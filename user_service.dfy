// A user's own account: login, registration, profile, profile update and
// password change, and the names of the four roles.

module UserService {
  import opened Common
  import opened JavaText
  import opened Query
  import opened Entities
  import opened Auth
  import opened AdminUserService

  // ---------------------------------------------------------------- messages

  const NoUserId: string := "User ID cannot be empty"
  const NoSuchUser: string := "User does not exist"
  const PasswordsDiffer: string := "Passwords do not match"
  const IncompletePasswordChange: string := "Updating password requires: old password, new password, and confirm password"
  const UpdatedMessage: string := "Updated successfully"
  const NoCredentials: string := "Email or password cannot be empty"
  const IncorrectOldPassword: string := "Incorrect old password"

  const StatusBanned: int := 0
  const StatusEnabled: int := 1

  /** JwtTokenUtil.generateToken(subject, claims). */
  type TokenIssuer = (string, Claims) -> string

  /** UserVO as login, registration and profile fill it: the bean copy with
    * the id and role set again, and the token after a login. */
  datatype ProfileView = ProfileView(
    userId: int, name: Option<string>, email: string, password: string, role: int, status: int,
    avatar: Option<string>, createdAt: int, updatedAt: int, token: Option<string>)

  function ToProfileView(u: User, token: Option<string>): ProfileView {
    ProfileView(u.id, u.name, u.email, u.password, u.role, u.status, u.avatar, u.createdAt, u.updatedAt, token)
  }

  // ---------------------------------------------------------------- roles

  /** getRoleName. */
  function GetRoleName(role: Option<int>): (name: string)
    ensures name != "Unknown" <==> role.Some? && RoleAdmin <= role.value <= RoleStaff
  {
    if role.None? then "Unknown"
    else if role.value == RoleAdmin then "Administrator"
    else if role.value == RoleManager then "Restaurant Manager"
    else if role.value == RoleUser then "User"
    else if role.value == RoleStaff then "Waiter"
    else "Unknown"
  }

  /** The role a name stands for. */
  function RoleOfName(name: string): Option<int> {
    if name == "Administrator" then Some(RoleAdmin)
    else if name == "Restaurant Manager" then Some(RoleManager)
    else if name == "User" then Some(RoleUser)
    else if name == "Waiter" then Some(RoleStaff)
    else None
  }

  /** Each of the four roles has its own name. */
  lemma RoleNameRoundTrip(role: Option<int>)
    ensures GetRoleName(role) != "Unknown" ==> RoleOfName(GetRoleName(role)) == role
    ensures GetRoleName(role) == "Unknown" ==> RoleOfName(GetRoleName(role)) == None
  {
  }

  // ---------------------------------------------------------------- login

  /** The claims a login puts in the token: exactly the id and the role. */
  function LoginClaims(u: User): Claims {
    Claims(Some(u.id), Some(u.role))
  }

  /** login: empty fields, then an unknown address, then a banned account,
    * and only then the password, each a 400. */
  function Login(users: seq<User>, email: Option<string>, password: Option<string>,
                 checkpw: PasswordChecker, issue: TokenIssuer): Response<ProfileView>
  {
    if NullOrEmpty(email) || NullOrEmpty(password) then ValidateFailed(NoCredentials)
    else match SelectOne(users, (u: User) => u.email == email.value)
      case Throws(reason) => Error(500, reason)
      case Value(None) => ValidateFailed(NoSuchUser)
      case Value(Some(u)) =>
        if u.status == StatusBanned then ValidateFailed("User is banned")
        else if !checkpw(password.value, u.password) then ValidateFailed("Incorrect password")
        else SuccessWith(Some(ToProfileView(u, Some(issue(u.email, LoginClaims(u))))), "Login successful")
  }

  /** With addresses unique, a login succeeds exactly for the address of an
    * account that is not banned and a password that checks against it;
    * the token carries that account's id and role. */
  lemma {:induction false} LoginOutcome(users: seq<User>, k: nat, password: Option<string>,
                                        checkpw: PasswordChecker, issue: TokenIssuer)
    requires UniqueEmails(users) && k < |users|
    ensures var u := users[k];
            var r := Login(users, Some(u.email), password, checkpw, issue);
      && (IsSuccess(r) <==>
            u.email != "" && !NullOrEmpty(password) && u.status != StatusBanned && checkpw(password.value, u.password))
      && (IsSuccess(r) ==> r.data == Some(ToProfileView(u, Some(issue(u.email, LoginClaims(u))))))
      && (u.email != "" && !NullOrEmpty(password) && u.status == StatusBanned ==> r == ValidateFailed("User is banned"))
      && (u.email != "" && !NullOrEmpty(password) && u.status != StatusBanned && !checkpw(password.value, u.password) ==>
            r == ValidateFailed("Incorrect password"))
  {
    var u := users[k];
    var p := (x: User) => x.email == u.email;
    forall i | 0 <= i < |users| && p(users[i]) ensures i == k {
    }
    SelectOneOfOnlyMatch(users, p, k);
  }

  /** An address no account has is told "User does not exist", before any
    * password is checked. */
  lemma LoginUnknownAddress(users: seq<User>, email: string, password: Option<string>,
                            checkpw: PasswordChecker, issue: TokenIssuer)
    requires email != "" && !NullOrEmpty(password)
    requires forall u :: u in users ==> u.email != email
    ensures Login(users, Some(email), password, checkpw, issue) == ValidateFailed(NoSuchUser)
  {
  }

  // ---------------------------------------------------------------- registration

  /** The UserVO a visitor registers with. */
  datatype RegisterForm = RegisterForm(
    name: Option<string>, email: Option<string>, password: Option<string>, confirmPassword: Option<string>)

  /** register: an address and a password are required, the confirmation
    * must equal the password, the address must be well formed and unused;
    * a new account is always a diner (role 2) in good standing. */
  function Register(users: seq<User>, nextId: int, form: RegisterForm, hashpw: PasswordHasher, now: int)
    : (Response<ProfileView>, seq<User>)
  {
    if NullOrEmpty(form.email) || NullOrEmpty(form.password) then (ValidateFailed(NoCredentials), users)
    else if form.confirmPassword != form.password then (ValidateFailed(PasswordsDiffer), users)
    else if !ValidEmail(form.email.value) then (ValidateFailed("Invalid email format"), users)
    else if EmailTaken(users, form.email.value) then (ValidateFailed("Email is already registered"), users)
    else
      var u := User(nextId, form.name, form.email.value, hashpw(form.password.value), RoleUser, None, StatusEnabled, now, now);
      (SuccessWith(Some(ToProfileView(u, None)), "Registration successful"), users + [u])
  }

  /** A registration is accepted exactly when the form is complete,
    * confirmed, well formed and new; it adds one diner and keeps addresses
    * unique; a refusal changes nothing. */
  lemma RegisterOutcome(users: seq<User>, nextId: int, form: RegisterForm, hashpw: PasswordHasher, now: int)
    requires UniqueEmails(users)
    ensures var (res, after) := Register(users, nextId, form, hashpw, now);
      && (IsSuccess(res) <==>
            && !NullOrEmpty(form.email) && !NullOrEmpty(form.password) && form.confirmPassword == form.password
            && ValidEmail(form.email.value) && forall u :: u in users ==> u.email != form.email.value)
      && (!IsSuccess(res) ==> res.code == Some(400) && after == users)
      && (IsSuccess(res) ==>
            && |after| == |users| + 1 && after[..|users|] == users
            && after[|users|].role == RoleUser && after[|users|].status == StatusEnabled
            && after[|users|].email == form.email.value
            && UniqueEmails(after))
  {
    if !NullOrEmpty(form.email) {
      EmailTakenIff(users, form.email.value);
    }
    var (res, after) := Register(users, nextId, form, hashpw, now);
    if IsSuccess(res) {
      forall i, j | 0 <= i < j < |after| ensures after[i].email != after[j].email {
        if j == |users| {
          assert users[i] in users;
        }
      }
    }
  }

  /** Whoever registers can log in with the same address and password, and
    * is issued a diner's token for the new id. */
  lemma RegisterThenLogin(users: seq<User>, nextId: int, form: RegisterForm, hashpw: PasswordHasher,
                          checkpw: PasswordChecker, issue: TokenIssuer, now: int)
    requires UniqueEmails(users)
    requires IsSuccess(Register(users, nextId, form, hashpw, now).0)
    requires checkpw(form.password.value, hashpw(form.password.value))
    ensures var after := Register(users, nextId, form, hashpw, now).1;
            var r := Login(after, form.email, form.password, checkpw, issue);
      IsSuccess(r) && r.data.value.token == Some(issue(form.email.value, Claims(Some(nextId), Some(RoleUser))))
  {
    RegisterOutcome(users, nextId, form, hashpw, now);
    var after := Register(users, nextId, form, hashpw, now).1;
    LoginOutcome(after, |users|, form.password, checkpw, issue);
  }

  // ---------------------------------------------------------------- the profile

  /** getUserInfo. */
  function GetUserInfo(users: seq<User>, userId: Option<int>): (r: Response<ProfileView>)
    ensures IsSuccess(r) <==> userId.Some? && SelectById(users, UserId, userId.value).Some?
    ensures IsSuccess(r) ==> r.data == Some(ToProfileView(SelectById(users, UserId, userId.value).value, None))
    ensures !IsSuccess(r) ==> r.code == Some(400)
  {
    if userId.None? then ValidateFailed(NoUserId)
    else match SelectById(users, UserId, userId.value)
      case None => ValidateFailed(NoSuchUser)
      case Some(u) => SuccessWith(Some(ToProfileView(u, None)), "Retrieved successfully")
  }

  /** UpdateUserDTO. */
  datatype ProfileForm = ProfileForm(
    name: Option<string>, avatar: Option<string>,
    oldPassword: Option<string>, newPassword: Option<string>, confirmPassword: Option<string>)

  predicate AllPasswordFields(f: ProfileForm) {
    HasText(f.oldPassword) && HasText(f.newPassword) && HasText(f.confirmPassword)
  }

  predicate AnyPasswordField(f: ProfileForm) {
    HasText(f.oldPassword) || HasText(f.newPassword) || HasText(f.confirmPassword)
  }

  /** Whether the form changes anything. */
  predicate ChangesSomething(f: ProfileForm) {
    HasText(f.name) || HasText(f.avatar) || AllPasswordFields(f)
  }

  /** The refusal the password fields earn, if any. */
  function PasswordRefusal(u: User, f: ProfileForm, checkpw: PasswordChecker): Option<string> {
    if AllPasswordFields(f) then
      if !checkpw(f.oldPassword.value, u.password) then Some(IncorrectOldPassword)
      else if f.newPassword != f.confirmPassword then Some(PasswordsDiffer)
      else None
    else if AnyPasswordField(f) then Some(IncompletePasswordChange)
    else None
  }

  /** The account after a profile update that went through. */
  function Edited(u: User, f: ProfileForm, hashpw: PasswordHasher, now: int): User {
    u.(name := if HasText(f.name) then f.name else u.name,
       avatar := if HasText(f.avatar) then f.avatar else u.avatar,
       password := if AllPasswordFields(f) then hashpw(f.newPassword.value) else u.password,
       updatedAt := if ChangesSomething(f) then now else u.updatedAt)
  }

  /** updateUserInfo: a name or avatar with text replaces the stored one;
    * the password changes only when all three password fields have text,
    * the old one checks and the new one is confirmed; a refusal writes
    * nothing, and the account is written and stamped only when something
    * changed. */
  function UpdateUserInfo(users: seq<User>, userId: Option<int>, f: ProfileForm,
                          checkpw: PasswordChecker, hashpw: PasswordHasher, now: int): (Response<ProfileView>, seq<User>)
  {
    if userId.None? then (ValidateFailed(NoUserId), users)
    else match IndexOf(users, UserId, userId.value)
      case None => (ValidateFailed(NoSuchUser), users)
      case Some(k) =>
        match PasswordRefusal(users[k], f, checkpw)
        case Some(message) => (ValidateFailed(message), users)
        case None =>
          var r := Edited(users[k], f, hashpw, now);
          (SuccessWith(Some(ToProfileView(r, None)), UpdatedMessage), if ChangesSomething(f) then users[k := r] else users)
  }

  /** The password rule of a profile update: a new password is stored
    * exactly when all three fields have text, the old one checks and the
    * new one is confirmed; a partial set is refused; any refusal leaves the
    * table as it was, supplied name and avatar included. */
  lemma UpdateUserInfoPasswordRule(users: seq<User>, k: nat, f: ProfileForm,
                                   checkpw: PasswordChecker, hashpw: PasswordHasher, now: int)
    requires UniqueIds(users, UserId) && k < |users|
    ensures var (res, after) := UpdateUserInfo(users, Some(users[k].id), f, checkpw, hashpw, now);
      && (IsSuccess(res) <==> PasswordRefusal(users[k], f, checkpw).None?)
      && (!IsSuccess(res) ==> res.code == Some(400) && after == users)
      && (AnyPasswordField(f) && !AllPasswordFields(f) ==> !IsSuccess(res))
      && (IsSuccess(res) && AllPasswordFields(f) ==>
            checkpw(f.oldPassword.value, users[k].password) && f.newPassword == f.confirmPassword
            && after[k].password == hashpw(f.newPassword.value))
      && (IsSuccess(res) && !AllPasswordFields(f) ==> after[k].password == users[k].password)
      && (IsSuccess(res) ==> (after == users <==> !ChangesSomething(f) || Edited(users[k], f, hashpw, now) == users[k]))
      && (IsSuccess(res) && ChangesSomething(f) ==> after[k].updatedAt == now)
  {
    IndexOfUnique(users, UserId, users[k].id, k);
    var (res, after) := UpdateUserInfo(users, Some(users[k].id), f, checkpw, hashpw, now);
    if IsSuccess(res) && ChangesSomething(f) && after == users {
      assert after[k] == Edited(users[k], f, hashpw, now);
    }
  }

  // ---------------------------------------------------------------- password change

  /** The NullPointerException of calling getPassword on no user. */
  const NoUserMessage: string := "Cannot invoke " + Quote + "com.room.hd.entity.User.getPassword()" + Quote + " because " + Quote + "user" + Quote + " is null"

  /** repassword as written: the stored hash is compared as text with the
    * old password, and the new hash is set on the fetched object but never
    * written back. */
  function RepasswordAsWritten(users: seq<User>, newPassword: Option<string>, oldPassword: Option<string>, userId: Option<int>)
    : (Except<Void>, seq<User>)
  {
    var found := if userId.None? then None else SelectById(users, UserId, userId.value);
    if found.None? then (Throws(NoUserMessage), users)
    else if oldPassword != Some(found.value.password) then (Throws(IncorrectOldPassword), users)
    else (Value(()), users)
  }

  /** As written, a password change never reaches the table, and the right
    * old password is refused whenever the stored text is a hash different
    * from it. */
  lemma RepasswordNeverChangesPassword(users: seq<User>, k: nat, newPassword: Option<string>, oldPassword: string,
                                       checkpw: PasswordChecker)
    requires UniqueIds(users, UserId) && k < |users|
    requires checkpw(oldPassword, users[k].password) && users[k].password != oldPassword
    ensures RepasswordAsWritten(users, newPassword, Some(oldPassword), Some(users[k].id)).1 == users
    ensures RepasswordAsWritten(users, newPassword, Some(oldPassword), Some(users[k].id)).0 == Throws(IncorrectOldPassword)
  {
    IndexOfUnique(users, UserId, users[k].id, k);
  }

  /** repassword as intended: the old password is checked against the
    * stored hash and the new one is stored hashed. */
  function Repassword(users: seq<User>, newPassword: Option<string>, oldPassword: Option<string>, userId: Option<int>,
                      checkpw: PasswordChecker, hashpw: PasswordHasher): (Except<Void>, seq<User>)
  {
    var found := if userId.None? then None else IndexOf(users, UserId, userId.value);
    if found.None? then (Throws(NoUserMessage), users)
    else
      var k := found.value;
      if oldPassword.None? || newPassword.None? || !checkpw(oldPassword.value, users[k].password) then
        (Throws(IncorrectOldPassword), users)
      else (Value(()), users[k := users[k].(password := hashpw(newPassword.value))])
  }

  /** After an accepted change the new password checks and the old one is
    * no longer needed; nothing else changes; a refused change writes
    * nothing. */
  lemma RepasswordTakesEffect(users: seq<User>, k: nat, newPassword: string, oldPassword: string,
                              checkpw: PasswordChecker, hashpw: PasswordHasher)
    requires UniqueIds(users, UserId) && k < |users|
    requires checkpw(newPassword, hashpw(newPassword))
    ensures var (r, after) := Repassword(users, Some(newPassword), Some(oldPassword), Some(users[k].id), checkpw, hashpw);
      && (r.Value? <==> checkpw(oldPassword, users[k].password))
      && (r.Value? ==> checkpw(newPassword, after[k].password)
                       && |after| == |users| && forall i :: 0 <= i < |users| && i != k ==> after[i] == users[i])
      && (r.Throws? ==> after == users)
  {
    IndexOfUnique(users, UserId, users[k].id, k);
  }

  // ---------------------------------------------------------------- the store

  /** The users table as a user's own requests write it. */
  class Accounts {
    var users: seq<User>
    var nextId: int

    ghost predicate Valid()
      reads this
    {
      UniqueIds(users, UserId) && UniqueEmails(users) && forall u :: u in users ==> u.id < nextId
    }

    constructor()
      ensures Valid() && users == [] && nextId == 1
    {
      users := [];
      nextId := 1;
    }

    method RegisterAccount(form: RegisterForm, hashpw: PasswordHasher, now: int) returns (res: Response<ProfileView>)
      requires Valid()
      modifies this
      ensures Valid()
      ensures (res, users) == Register(old(users), old(nextId), form, hashpw, now)
    {
      RegisterOutcome(users, nextId, form, hashpw, now);
      var (r, after) := Register(users, nextId, form, hashpw, now);
      if IsSuccess(r) {
        forall i, j | 0 <= i < j < |after| ensures after[i].id != after[j].id {
          if j == |users| {
            assert users[i] in users;
          }
        }
        nextId := nextId + 1;
      }
      users := after;
      res := r;
    }

    /** updateUserInfo: the fetched user and a hasUpdates flag are changed
      * field by field, and the user is written back only if the flag is
      * set. */
    method UpdateInfo(userId: Option<int>, f: ProfileForm, checkpw: PasswordChecker, hashpw: PasswordHasher, now: int)
      returns (res: Response<ProfileView>)
      requires Valid()
      modifies this
      ensures Valid() && nextId == old(nextId)
      ensures (res, users) == UpdateUserInfo(old(users), userId, f, checkpw, hashpw, now)
    {
      if userId.None? {
        return ValidateFailed(NoUserId);
      }
      var found := IndexOf(users, UserId, userId.value);
      if found.None? {
        return ValidateFailed(NoSuchUser);
      }
      var k := found.value;
      var u := users[k];
      var hasUpdates := false;
      if HasText(f.name) {
        u := u.(name := f.name);
        hasUpdates := true;
      }
      if HasText(f.avatar) {
        u := u.(avatar := f.avatar);
        hasUpdates := true;
      }
      if AllPasswordFields(f) {
        if !checkpw(f.oldPassword.value, u.password) {
          return ValidateFailed(IncorrectOldPassword);
        }
        if f.newPassword != f.confirmPassword {
          return ValidateFailed(PasswordsDiffer);
        }
        u := u.(password := hashpw(f.newPassword.value));
        hasUpdates := true;
      } else if AnyPasswordField(f) {
        return ValidateFailed(IncompletePasswordChange);
      }
      if hasUpdates {
        u := u.(updatedAt := now);
        users := users[k := u];
        assert forall x :: x in users ==> x == u || x in old(users);
      }
      res := SuccessWith(Some(ToProfileView(u, None)), UpdatedMessage);
    }
  }
}
