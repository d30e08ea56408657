// The administrator's user search: keyword, role and status filters, newest
// id first, with LIMIT/OFFSET, and its count twin.

module UserMapper {
  import opened Common
  import opened JavaText
  import opened Query
  import opened Entities

  /** `name LIKE %k% OR email LIKE %k%`; a null name matches nothing. */
  predicate KeywordMatches(u: User, keyword: string) {
    (u.name.Some? && Contains(u.name.value, keyword)) || Contains(u.email, keyword)
  }

  /** The keyword applies when non-null and not "", role and status when non-null. */
  function UserCondition(keyword: Option<string>, role: Option<int>, status: Option<int>): User -> bool {
    (u: User) => (keyword.None? || keyword.value == "" || KeywordMatches(u, keyword.value))
              && (role.None? || u.role == role.value)
              && (status.None? || u.status == status.value)
  }

  function GetUserList(users: seq<User>, offset: int, limit: int,
                       keyword: Option<string>, role: Option<int>, status: Option<int>): Except<seq<User>> {
    SelectPageDesc(users, UserCondition(keyword, role, status), UserId, offset, limit)
  }

  function CountUsers(users: seq<User>, keyword: Option<string>, role: Option<int>, status: Option<int>): nat {
    CountWhere(users, UserCondition(keyword, role, status))
  }

  /** A page of users holds at most limit users, each matching every supplied
    * filter, in descending id order. */
  lemma UserPageSound(users: seq<User>, offset: int, limit: int,
                      keyword: Option<string>, role: Option<int>, status: Option<int>)
    requires GetUserList(users, offset, limit, keyword, role, status).Value?
    ensures var page := GetUserList(users, offset, limit, keyword, role, status).v;
      && |page| <= limit
      && (forall u :: u in page ==>
            && u in users
            && (keyword.Some? && keyword.value != "" ==> KeywordMatches(u, keyword.value))
            && (role.Some? ==> u.role == role.value)
            && (status.Some? ==> u.status == status.value))
      && (forall i, j :: 0 <= i < j < |page| ==> page[i].id >= page[j].id)
  {
    var p := UserCondition(keyword, role, status);
    SelectPageDescRowsMatch(users, p, UserId, offset, limit);
    SelectPageDescOrdered(users, p, UserId, offset, limit);
  }

  /** With no filter (or an empty keyword) every user is counted. */
  lemma UnfilteredCountIsAllUsers(users: seq<User>, keyword: Option<string>)
    requires keyword.None? || keyword.value == ""
    ensures CountUsers(users, keyword, None, None) == |users|
  {
    CountAll(users, UserCondition(keyword, None, None));
  }
}
