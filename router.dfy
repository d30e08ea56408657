// The web client's route table and its beforeEach navigation guard: the page
// title it sets and the one `next` target it picks for a navigation.

module Router {
  import opened Common
  import opened JavaText

  // ---------------------------------------------------------------- route table

  /** A route record's meta: its page title and the two guard flags. */
  datatype Meta = Meta(title: Option<string>, requiresAuth: bool, adminOnly: bool)

  /** A nested route: its path is relative to the parent's. */
  datatype Child = Child(path: string, meta: Meta)

  /** A top-level route with its nested routes (only /admin has any). */
  datatype Record = Record(path: string, meta: Meta, children: seq<Child>)

  function Page(title: string): Meta { Meta(Some(title), true, false) }

  function AdminPage(title: string): Meta { Meta(Some(title), true, true) }

  /** The /admin record's own meta: no title, both flags. */
  const AdminMeta: Meta := Meta(None, true, true)

  /** The nested routes under /admin, in declaration order. "restaurants" and
    * "staff-apply" lack adminOnly, "staff" lacks requiresAuth. */
  const AdminChildren: seq<Child> := [
    Child("dashboard", AdminPage("Admin Console")),
    Child("restaurants", Page("Restaurant Management")),
    Child("tables", AdminPage("Table Management")),
    Child("users", AdminPage("User Management")),
    Child("reservations", AdminPage("Reservation Management")),
    Child("reviews", AdminPage("Review Management")),
    Child("staff", Meta(Some("Staff Review"), false, true)),
    Child("staff-apply", Page("Apply for Staff")),
    Child("settings", AdminPage("System Settings"))
  ]

  const Routes: seq<Record> := [
    Record("/login", Meta(Some("Login - Restaurant Reservation"), false, false), []),
    Record("/", Page("Home - Restaurant Reservation"), []),
    Record("/restaurant/:id", Page("Restaurant Detail"), []),
    Record("/profile", Page("My Profile"), []),
    Record("/reservations", Page("My Reservations"), []),
    Record("/explore", Page("Explore"), []),
    Record("/favorites", Page("My Favorites"), []),
    Record("/admin", AdminMeta, AdminChildren)
  ]

  // ---------------------------------------------------------------- matching

  /** A pattern segment ":name" matches any non-empty segment; any other
    * segment matches only itself. */
  predicate SegmentMatches(pattern: string, segment: string) {
    if |pattern| > 0 && pattern[0] == ':' then segment != [] else pattern == segment
  }

  predicate SegmentsMatch(pattern: seq<string>, path: seq<string>) {
    |pattern| == |path| && forall i :: 0 <= i < |pattern| ==> SegmentMatches(pattern[i], path[i])
  }

  predicate PathMatches(pattern: string, path: string) {
    SegmentsMatch(SplitAll(pattern, '/'), SplitAll(path, '/'))
  }

  /** A route the table resolves to: its full path pattern and the records
    * it matches, the parent before the child. */
  datatype Leaf = Leaf(pattern: string, matched: seq<Meta>)

  function ChildLeaves(parent: Record, children: seq<Child>): (r: seq<Leaf>)
    ensures |r| == |children|
    ensures forall i :: 0 <= i < |r| ==>
      r[i] == Leaf(parent.path + "/" + children[i].path, [parent.meta, children[i].meta])
  {
    if children == [] then []
    else
      [Leaf(parent.path + "/" + children[0].path, [parent.meta, children[0].meta])]
      + ChildLeaves(parent, children[1..])
  }

  /** Every record as a route of its own, each followed by its children. */
  function Leaves(records: seq<Record>): seq<Leaf> {
    if records == [] then []
    else
      [Leaf(records[0].path, [records[0].meta])]
      + ChildLeaves(records[0], records[0].children) + Leaves(records[1..])
  }

  /** The records of the first route whose pattern matches the path; none
    * when no route does. */
  function MatchIn(leaves: seq<Leaf>, path: string): (r: seq<Meta>)
    ensures r == [] || exists i :: 0 <= i < |leaves| && r == leaves[i].matched
  {
    if leaves == [] then []
    else if PathMatches(leaves[0].pattern, path) then leaves[0].matched
    else MatchIn(leaves[1..], path)
  }

  /** `to.matched` for a path. */
  function Resolve(path: string): seq<Meta> {
    MatchIn(Leaves(Routes), path)
  }

  // ---------------------------------------------------------------- title

  const DefaultTitle: string := "Restaurant Reservation"

  /** `to.meta.title`: the meta of the matched records merged parent first,
    * so the last record with a title wins. */
  function MergedTitle(matched: seq<Meta>): (t: Option<string>)
    ensures t.Some? <==> exists i :: 0 <= i < |matched| && matched[i].title.Some?
  {
    if matched == [] then None
    else if matched[|matched| - 1].title.Some? then matched[|matched| - 1].title
    else MergedTitle(matched[..|matched| - 1])
  }

  /** `to.meta.title || "Restaurant Reservation"`: a missing or empty title
    * gives the default. */
  function PageTitle(matched: seq<Meta>): string {
    var t := MergedTitle(matched);
    if t.Some? && t.value != "" then t.value else DefaultTitle
  }

  // ---------------------------------------------------------------- role

  /** What `userInfo?.role` holds: nothing, a number or a string. */
  datatype RoleValue = Absent | Number(n: int) | Text(s: string)

  /** The white space and line terminators parseInt skips first. */
  predicate JsSpace(c: char) {
    var n := c as int;
    n == 0x09 || n == 0x0A || n == 0x0B || n == 0x0C || n == 0x0D || n == 0x20
    || n == 0xA0 || n == 0x1680 || (0x2000 <= n <= 0x200A)
    || n == 0x2028 || n == 0x2029 || n == 0x202F || n == 0x205F
    || n == 0x3000 || n == 0xFEFF
  }

  function SkipSpace(s: string): (r: string)
    ensures |r| <= |s| && r == s[|s| - |r|..]
    ensures r == [] || !JsSpace(r[0])
  {
    if s != [] && JsSpace(s[0]) then SkipSpace(s[1..]) else s
  }

  predicate IsHexDigit(c: char) {
    IsDigit(c) || 'a' <= c <= 'f' || 'A' <= c <= 'F'
  }

  function HexDigitValue(c: char): (v: nat)
    requires IsHexDigit(c)
    ensures v < 16
  {
    if IsDigit(c) then (c - '0') as nat
    else if 'a' <= c <= 'f' then (c - 'a') as nat + 10
    else (c - 'A') as nat + 10
  }

  predicate DigitIn(c: char, hex: bool) {
    if hex then IsHexDigit(c) else IsDigit(c)
  }

  /** The longest prefix of decimal (or hexadecimal) digits. */
  function DigitPrefix(s: string, hex: bool): (r: string)
    ensures |r| <= |s| && r == s[..|r|]
    ensures forall i :: 0 <= i < |r| ==> DigitIn(r[i], hex)
    ensures |r| == |s| || !DigitIn(s[|r|], hex)
  {
    if s != [] && DigitIn(s[0], hex) then [s[0]] + DigitPrefix(s[1..], hex) else []
  }

  function HexValue(s: string): nat
    requires forall i :: 0 <= i < |s| ==> IsHexDigit(s[i])
  {
    if s == [] then 0 else HexValue(s[..|s| - 1]) * 16 + HexDigitValue(s[|s| - 1])
  }

  /** The digits' value in base 10 or 16; none is NaN (None). */
  function DigitsNumber(body: string, hex: bool): Option<nat> {
    var digits := DigitPrefix(body, hex);
    if digits == [] then None
    else if hex then Some(HexValue(digits))
    else Some(DigitsValue(digits))
  }

  predicate HexPrefix(u: string) {
    |u| >= 2 && u[0] == '0' && (u[1] == 'x' || u[1] == 'X')
  }

  /** After the sign: a "0x" or "0X" prefix switches to base 16. */
  function UnsignedNumber(u: string): Option<nat> {
    if HexPrefix(u) then DigitsNumber(u[2..], true) else DigitsNumber(u, false)
  }

  function SignedNumber(t: string): Option<int> {
    if t != [] && t[0] == '-' then
      var m := UnsignedNumber(t[1..]);
      if m.None? then None else Some(-(m.value as int))
    else if t != [] && t[0] == '+' then
      var m := UnsignedNumber(t[1..]);
      if m.None? then None else Some(m.value as int)
    else
      var m := UnsignedNumber(t);
      if m.None? then None else Some(m.value as int)
  }

  /** parseInt with no radix: leading white space skipped, an optional sign,
    * a "0x" or "0X" prefix switching to base 16, then the longest run of
    * digits; no digit at all is NaN (None). */
  function JsParseInt(s: string): Option<int> {
    SignedNumber(SkipSpace(s))
  }

  /** String(role): a number prints in decimal, a missing role as
    * "undefined". */
  function RoleText(role: RoleValue): string {
    match role
    case Absent => "undefined"
    case Number(n) => IntToString(n)
    case Text(s) => s
  }

  /** `parseInt(userRole) === 2`: the regular-user test. */
  predicate IsRegularUser(role: RoleValue) {
    JsParseInt(RoleText(role)) == Some(2)
  }

  // ---------------------------------------------------------------- guard

  /** The navigation target: `to.path` and `to.fullPath` (path, query and
    * hash). */
  datatype Target = Target(path: string, fullPath: string)

  /** What the guard passes to `next`: go on, or go elsewhere, possibly with
    * a `redirect` query. */
  datatype Next = Proceed | Redirect(path: string, redirect: Option<string>)

  /** The guard's effect: the page title it assigns and the `next` call. */
  datatype Decision = Decision(title: string, next: Next)

  const LoginPath: string := "/login"
  const HomePath: string := "/"
  const DashboardPath: string := "/admin/dashboard"

  /** beforeEach, given the token read from the cookie ("" when there is
    * none) and the role stored with the user's information. */
  function Guard(to: Target, token: string, role: RoleValue): Decision {
    var matched := Resolve(to.path);
    Decision(PageTitle(matched), GuardNext(to, matched, token, role))
  }

  function GuardNext(to: Target, matched: seq<Meta>, token: string, role: RoleValue): Next {
    if to.path == LoginPath then Proceed
    else if token == "" then
      if to.path == HomePath then Proceed else Redirect(LoginPath, Some(to.fullPath))
    else if to.path == HomePath then
      if IsRegularUser(role) then Proceed else Redirect(DashboardPath, None)
    else if exists i :: 0 <= i < |matched| && matched[i].requiresAuth then
      if (exists i :: 0 <= i < |matched| && matched[i].adminOnly) && IsRegularUser(role) then
        Redirect(HomePath, None)
      else Proceed
    else Proceed
  }

  // ---------------------------------------------------------------- resolving

  /** Matching skips routes whose pattern does not match. */
  lemma {:induction false} MatchInSkip(leaves: seq<Leaf>, path: string, n: nat)
    requires n <= |leaves|
    requires forall k :: 0 <= k < n ==> !PathMatches(leaves[k].pattern, path)
    ensures MatchIn(leaves, path) == MatchIn(leaves[n..], path)
  {
    if n > 0 {
      MatchInSkip(leaves[1..], path, n - 1);
      assert leaves[1..][n - 1..] == leaves[n..];
    }
  }

  /** The segments of "/a" and of "/a/b". */
  lemma Segments2(a: string)
    requires '/' !in a
    ensures SplitAll("/" + a, '/') == ["", a]
  {
    SplitAllPrefix("", '/', a);
    SplitAllNoSep(a, '/');
    assert "" + ['/'] + a == "/" + a;
  }

  lemma Segments3(a: string, b: string)
    requires '/' !in a && '/' !in b
    ensures SplitAll("/" + a + "/" + b, '/') == ["", a, b]
  {
    SplitAllPrefix("", '/', a + "/" + b);
    SplitAllPrefix(a, '/', b);
    SplitAllNoSep(b, '/');
    assert "" + ['/'] + (a + "/" + b) == "/" + a + "/" + b;
    assert a + ['/'] + b == a + "/" + b;
  }

  lemma {:induction false} LeavesConcat(a: seq<Record>, b: seq<Record>)
    ensures Leaves(a + b) == Leaves(a) + Leaves(b)
  {
    if a == [] {
      assert a + b == b;
    } else {
      assert (a + b)[0] == a[0] && (a + b)[1..] == a[1..] + b;
      LeavesConcat(a[1..], b);
    }
  }

  /** Records without children are one route each. */
  lemma {:induction false} LeavesOfChildless(rs: seq<Record>)
    requires forall k :: 0 <= k < |rs| ==> rs[k].children == []
    ensures |Leaves(rs)| == |rs|
    ensures forall k :: 0 <= k < |rs| ==> Leaves(rs)[k] == Leaf(rs[k].path, [rs[k].meta])
  {
    if rs != [] {
      LeavesOfChildless(rs[1..]);
    }
  }

  /** A table of childless records followed by one record with children
    * lists the childless ones, that record, then its children. */
  lemma RecordsLeaves(rs: seq<Record>, n: nat)
    requires |rs| == n + 1
    requires forall k :: 0 <= k < n ==> rs[k].children == []
    ensures |Leaves(rs)| == n + 1 + |rs[n].children|
    ensures forall k :: 0 <= k <= n ==> Leaves(rs)[k] == Leaf(rs[k].path, [rs[k].meta])
    ensures Leaves(rs)[n + 1..] == ChildLeaves(rs[n], rs[n].children)
  {
    var top := rs[..n];
    assert rs == top + rs[n..];
    LeavesOfChildless(top);
    LeavesConcat(top, rs[n..]);
    assert rs[n..][1..] == [];
    assert Leaves(rs[n..]) == [Leaf(rs[n].path, [rs[n].meta])] + ChildLeaves(rs[n], rs[n].children);
  }

  /** The table's routes: the seven top-level pages, then /admin, then its
    * children. */
  lemma RouteLeaves()
    ensures |Leaves(Routes)| == 8 + |AdminChildren|
    ensures forall k :: 0 <= k < 8 ==> Leaves(Routes)[k] == Leaf(Routes[k].path, [Routes[k].meta])
    ensures Leaves(Routes)[8..] == ChildLeaves(Routes[7], AdminChildren)
  {
    RecordsLeaves(Routes, 7);
  }

  /** "/" and a name without "/" splits into two segments. */
  lemma OneSegment(p: string, name: string)
    requires '/' !in name && p == "/" + name
    ensures |SplitAll(p, '/')| == 2
  {
    Segments2(name);
  }

  /** "/" and a name without "/". */
  lemma NamedPath(p: string, name: string)
    requires p == "/" + name && '/' !in name
    ensures p != [] && p == "/" + p[1..] && '/' !in p[1..]
  {
    assert p[1..] == name;
  }

  /** The first four top-level patterns but the detail one are "/" and a
    * name without "/". */
  lemma FirstPathsShape(k: nat)
    requires k < 4 && k != 2
    ensures Routes[k].path != [] && Routes[k].path == "/" + Routes[k].path[1..] && '/' !in Routes[k].path[1..]
  {
    var p := Routes[k].path;
    if k == 0 { NamedPath(p, "login"); }
    else if k == 1 { NamedPath(p, ""); }
    else { NamedPath(p, "profile"); }
  }

  /** So are the next three. */
  lemma LastPathsShape(k: nat)
    requires 4 <= k < 7
    ensures Routes[k].path != [] && Routes[k].path == "/" + Routes[k].path[1..] && '/' !in Routes[k].path[1..]
  {
    var p := Routes[k].path;
    if k == 4 { NamedPath(p, "reservations"); }
    else if k == 5 { NamedPath(p, "explore"); }
    else { NamedPath(p, "favorites"); }
  }

  /** And so is /admin. */
  lemma AdminPathShape()
    ensures Routes[7].path != [] && Routes[7].path == "/" + Routes[7].path[1..] && '/' !in Routes[7].path[1..]
  {
    AdminRecord();
    NamedPath(Routes[7].path, "admin");
  }

  /** The segments of a top-level pattern: two each, but three for
    * /restaurant/:id. */
  lemma TopPatternSegments(k: nat)
    requires k < 8
    ensures k != 2 ==> |SplitAll(Routes[k].path, '/')| == 2
    ensures k == 2 ==> SplitAll(Routes[k].path, '/') == ["", "restaurant", ":id"]
  {
    if k == 2 {
      assert Routes[2].path == "/" + "restaurant" + "/" + ":id";
      Segments3("restaurant", ":id");
    } else {
      if k < 4 { FirstPathsShape(k); } else if k < 7 { LastPathsShape(k); } else { AdminPathShape(); }
      OneSegment(Routes[k].path, Routes[k].path[1..]);
    }
  }

  /** The nested paths are single segments, none a parameter. */
  lemma AdminChildPaths()
    ensures forall i :: 0 <= i < |AdminChildren| ==>
      '/' !in AdminChildren[i].path && AdminChildren[i].path != [] && AdminChildren[i].path[0] != ':'
  {
  }

  /** No two nested paths are the same: they differ in length or in their
    * first letter. */
  lemma AdminChildPathsDistinct(j: nat, i: nat)
    requires j < i < |AdminChildren|
    ensures AdminChildren[j].path != AdminChildren[i].path
  {
    var a := AdminChildren[j].path;
    var b := AdminChildren[i].path;
    assert |a| != |b| || a[0] != b[0];
  }

  /** The path "/admin/" + c has the segments "", "admin" and c. */
  lemma AdminPathSegments(c: string)
    requires '/' !in c
    ensures SplitAll("/admin/" + c, '/') == ["", "admin", c]
  {
    assert "/admin/" + c == "/" + "admin" + "/" + c;
    Segments3("admin", c);
  }

  /** The /admin record. */
  lemma AdminRecord()
    ensures Routes[7].path == "/admin" && Routes[7].meta == AdminMeta
  {
  }

  lemma AdminSlash(d: string)
    ensures "/admin" + "/" + d == "/admin/" + d
  {
  }

  /** The route of the j-th child of /admin, as the table lists it. */
  lemma AdminChildEntry(j: nat)
    requires j < |AdminChildren|
    ensures 8 + j < |Leaves(Routes)|
    ensures Leaves(Routes)[8 + j] ==
      Leaf(Routes[7].path + "/" + AdminChildren[j].path, [Routes[7].meta, AdminChildren[j].meta])
  {
    RouteLeaves();
  }

  lemma AdminChildPath(j: nat)
    requires j < |AdminChildren|
    ensures '/' !in AdminChildren[j].path
  {
    AdminChildPaths();
  }

  /** The route of the j-th child of /admin. */
  lemma AdminChildLeaf(j: nat)
    requires j < |AdminChildren|
    ensures 8 + j < |Leaves(Routes)|
    ensures SplitAll(Leaves(Routes)[8 + j].pattern, '/') == ["", "admin", AdminChildren[j].path]
    ensures Leaves(Routes)[8 + j].matched == [AdminMeta, AdminChildren[j].meta]
  {
    var d := AdminChildren[j].path;
    AdminChildEntry(j);
    AdminRecord();
    AdminSlash(d);
    AdminChildPath(j);
    AdminPathSegments(d);
  }

  lemma TopEntry(k: nat)
    requires k < 8
    ensures k < |Leaves(Routes)| && Leaves(Routes)[k].pattern == Routes[k].path
    ensures Leaves(Routes)[k].matched == [Routes[k].meta]
  {
    RouteLeaves();
  }

  /** No top-level route matches a path below /admin. */
  lemma TopRouteMisses(k: nat, path: string, c: string)
    requires k < 8 && SplitAll(path, '/') == ["", "admin", c]
    ensures k < |Leaves(Routes)| && !PathMatches(Leaves(Routes)[k].pattern, path)
  {
    TopEntry(k);
    TopPatternSegments(k);
    var segs := SplitAll(Routes[k].path, '/');
    if k == 2 {
      assert !SegmentMatches(segs[1], "admin");
    }
  }

  /** An earlier child of /admin does not match a later child's path. */
  lemma EarlierChildMisses(j: nat, i: nat, path: string)
    requires j < i < |AdminChildren|
    requires SplitAll(path, '/') == ["", "admin", AdminChildren[i].path]
    ensures 8 + j < |Leaves(Routes)| && !PathMatches(Leaves(Routes)[8 + j].pattern, path)
  {
    AdminChildLeaf(j);
    AdminChildPathsDistinct(j, i);
    var d := AdminChildren[j].path;
    assert !SegmentMatches(d, AdminChildren[i].path);
    var ps := SplitAll(Leaves(Routes)[8 + j].pattern, '/');
    assert ps[2] == d;
  }

  /** Every path under /admin naming one of its children resolves to the
    * /admin record and that child, in that order. */
  lemma ResolveAdminChild(i: nat)
    requires i < |AdminChildren|
    ensures Resolve("/admin/" + AdminChildren[i].path) == [AdminMeta, AdminChildren[i].meta]
  {
    var c := AdminChildren[i].path;
    var path := "/admin/" + c;
    var leaves := Leaves(Routes);
    AdminChildPath(i);
    AdminPathSegments(c);
    AdminChildLeaf(i);
    forall k | 0 <= k < 8 + i ensures !PathMatches(leaves[k].pattern, path) {
      if k < 8 {
        TopRouteMisses(k, path, c);
      } else {
        EarlierChildMisses(k - 8, i, path);
      }
    }
    MatchInSkip(leaves, path, 8 + i);
  }

  /** The detail route matches "/restaurant/" and any non-empty id. */
  lemma DetailRouteMatches(id: string)
    requires id != [] && '/' !in id
    ensures 2 < |Leaves(Routes)| && PathMatches(Leaves(Routes)[2].pattern, "/restaurant/" + id)
    ensures SplitAll("/restaurant/" + id, '/') == ["", "restaurant", id]
  {
    assert "/restaurant/" + id == "/" + "restaurant" + "/" + id;
    Segments3("restaurant", id);
    TopEntry(2);
    TopPatternSegments(2);
    assert SegmentMatches(":id", id);
  }

  /** A restaurant page: "/restaurant/" and a non-empty id without "/"
    * resolves to the detail route alone. */
  lemma ResolveRestaurantDetail(id: string)
    requires id != [] && '/' !in id
    ensures Resolve("/restaurant/" + id) == [Meta(Some("Restaurant Detail"), true, false)]
  {
    var path := "/restaurant/" + id;
    var leaves := Leaves(Routes);
    DetailRouteMatches(id);
    TopEntry(2);
    forall k | 0 <= k < 2 ensures !PathMatches(leaves[k].pattern, path) {
      TopEntry(k);
      TopPatternSegments(k);
    }
    MatchInSkip(leaves, path, 2);
  }

  // ---------------------------------------------------------------- parseInt

  lemma {:induction false} SkipSpacePrefix(w: string, t: string)
    requires forall i :: 0 <= i < |w| ==> JsSpace(w[i])
    requires t == [] || !JsSpace(t[0])
    ensures SkipSpace(w + t) == t
  {
    if w != [] {
      assert (w + t)[0] == w[0] && (w + t)[1..] == w[1..] + t;
      SkipSpacePrefix(w[1..], t);
    } else {
      assert w + t == t;
    }
  }

  lemma {:induction false} DigitPrefixOf(digits: string, rest: string, hex: bool)
    requires forall i :: 0 <= i < |digits| ==> DigitIn(digits[i], hex)
    requires rest == [] || !DigitIn(rest[0], hex)
    ensures DigitPrefix(digits + rest, hex) == digits
  {
    if digits != [] {
      assert (digits + rest)[0] == digits[0] && (digits + rest)[1..] == digits[1..] + rest;
      DigitPrefixOf(digits[1..], rest, hex);
      assert [digits[0]] + digits[1..] == digits;
    } else {
      assert digits + rest == rest;
    }
  }

  /** Decimal digits, then something that is not one. */
  lemma DecimalDigits(digits: string, rest: string)
    requires digits != [] && AllDigits(digits)
    requires rest == [] || !IsDigit(rest[0])
    ensures DigitsNumber(digits + rest, false) == Some(DigitsValue(digits))
  {
    DigitPrefixOf(digits, rest, false);
  }

  /** Decimal digits without a "0x" prefix are read in base 10. */
  lemma DecimalUnsigned(digits: string, rest: string)
    requires digits != [] && AllDigits(digits)
    requires rest == [] || !IsDigit(rest[0])
    requires digits == "0" ==> rest == [] || (rest[0] != 'x' && rest[0] != 'X')
    ensures UnsignedNumber(digits + rest) == Some(DigitsValue(digits))
  {
    var u := digits + rest;
    assert u[0] == digits[0];
    if |u| >= 2 && u[0] == '0' {
      if |digits| >= 2 {
        assert u[1] == digits[1];
      } else {
        assert digits == "0" && u[1] == rest[0];
      }
    }
    DecimalDigits(digits, rest);
  }

  /** Text starting with a digit has no sign. */
  lemma UnsignedText(t: string, v: nat)
    requires t != [] && IsDigit(t[0]) && UnsignedNumber(t) == Some(v)
    ensures SignedNumber(t) == Some(v)
  {
  }

  /** After a minus sign the number is negated. */
  lemma NegativeText(t: string, v: nat)
    requires t != [] && t[0] == '-' && UnsignedNumber(t[1..]) == Some(v)
    ensures SignedNumber(t) == Some(-(v as int))
  {
  }

  /** parseInt reads the decimal digits after leading white space and stops
    * at the first other char. */
  lemma ParseIntLeadingDigits(w: string, digits: string, rest: string)
    requires forall i :: 0 <= i < |w| ==> JsSpace(w[i])
    requires digits != [] && AllDigits(digits)
    requires rest == [] || !IsDigit(rest[0])
    requires digits == "0" ==> rest == [] || (rest[0] != 'x' && rest[0] != 'X')
    ensures JsParseInt(w + digits + rest) == Some(DigitsValue(digits))
  {
    var t := digits + rest;
    assert t[0] == digits[0];
    assert w + digits + rest == w + t;
    SkipSpacePrefix(w, t);
    DecimalUnsigned(digits, rest);
    UnsignedText(t, DigitsValue(digits));
  }

  /** parseInt reads back the text of a negative number. */
  lemma ParseNegativeText(m: nat)
    ensures JsParseInt("-" + NatToString(m)) == Some(-(m as int))
  {
    var digits := NatToString(m);
    var s := "-" + digits;
    DigitsValueOfNatToString(m);
    SkipSpacePrefix("", s);
    assert "" + s == s;
    assert s[1..] == digits;
    DecimalUnsigned(digits, "");
    assert digits + "" == digits;
    NegativeText(s, m);
  }

  /** parseInt reads back the text of a non-negative number. */
  lemma ParseNaturalText(m: nat)
    ensures JsParseInt(NatToString(m)) == Some(m)
  {
    DigitsValueOfNatToString(m);
    ParseIntLeadingDigits("", NatToString(m), "");
    assert "" + NatToString(m) + "" == NatToString(m);
  }

  /** parseInt reads back a number's decimal text. */
  lemma ParseIntOfNumber(n: int)
    ensures JsParseInt(IntToString(n)) == Some(n)
  {
    if n < 0 {
      ParseNegativeText(-n);
    } else {
      ParseNaturalText(n);
    }
  }

  /** A numeric role is a regular user's exactly when it is 2. */
  lemma RegularUserNumber(n: int)
    ensures IsRegularUser(Number(n)) <==> n == 2
  {
    ParseIntOfNumber(n);
  }

  /** A missing role parses to NaN: it is never a regular user's. */
  lemma AbsentRoleNotRegular()
    ensures !IsRegularUser(Absent)
  {
    var t := "undefined";
    assert !JsSpace(t[0]);
    assert SkipSpace(t) == t;
    assert DigitPrefix(t, false) == [];
  }

  /** No digit at all is NaN. */
  lemma NonNumericTexts()
    ensures !IsRegularUser(Text("")) && !IsRegularUser(Text("user"))
  {
    SkipSpacePrefix("", "user");
    assert "" + "user" == "user";
    assert DigitPrefix("user", false) == [];
  }

  // ---------------------------------------------------------------- the guard's promises

  /** The login page is always reachable, and its title set. */
  lemma LoginAlwaysAllowed(fullPath: string, token: string, role: RoleValue)
    ensures Guard(Target(LoginPath, fullPath), token, role).next == Proceed
  {
  }

  /** Without a token only the login page and the home page are reachable;
    * every other path goes to /login carrying the target as `redirect`. */
  lemma SignedOutOnlyHome(to: Target, role: RoleValue)
    ensures Guard(to, "", role).next ==
      if to.path == LoginPath || to.path == HomePath then Proceed
      else Redirect(LoginPath, Some(to.fullPath))
  {
  }

  /** With a token, the home page keeps a regular user and sends every other
    * role to the admin dashboard. */
  lemma HomeByRole(fullPath: string, token: string, role: RoleValue)
    requires token != ""
    ensures Guard(Target(HomePath, fullPath), token, role).next ==
      if IsRegularUser(role) then Proceed else Redirect(DashboardPath, None)
  {
  }

  /** A signed-in user with no role, or with role 0, 1 or 3, is sent from the
    * home page to the dashboard; role 2 stays. */
  lemma HomeByNumericRole(fullPath: string, token: string, n: int)
    requires token != ""
    ensures Guard(Target(HomePath, fullPath), token, Absent).next == Redirect(DashboardPath, None)
    ensures Guard(Target(HomePath, fullPath), token, Number(n)).next ==
      if n == 2 then Proceed else Redirect(DashboardPath, None)
  {
    AbsentRoleNotRegular();
    RegularUserNumber(n);
  }

  /** With a token, any role but a regular user's passes every page but
    * home. */
  lemma OtherRolesPass(to: Target, token: string, role: RoleValue)
    requires token != "" && to.path != HomePath && !IsRegularUser(role)
    ensures Guard(to, token, role).next == Proceed
  {
  }

  /** Where the guard redirects, and when: to /login only without a token,
    * to / only a signed-in regular user, to the dashboard only from home. */
  lemma RedirectTargets(to: Target, token: string, role: RoleValue)
    ensures var n := Guard(to, token, role).next;
      && (n.Redirect? ==> n.path in [LoginPath, HomePath, DashboardPath])
      && (n.Redirect? && n.path == LoginPath <==>
          token == "" && to.path != LoginPath && to.path != HomePath)
      && (n.Redirect? && n.path == HomePath ==> token != "" && IsRegularUser(role))
      && (n.Redirect? && n.path == DashboardPath <==>
          token != "" && to.path == HomePath && !IsRegularUser(role))
  {
  }

  /** The title of a path no route matches is the default one. */
  lemma UnmatchedTitle(to: Target, token: string, role: RoleValue)
    requires Resolve(to.path) == []
    ensures Guard(to, token, role).title == DefaultTitle
  {
  }

  /** Every child of /admin has a non-empty title of its own. */
  lemma AdminChildTitle(i: nat)
    requires i < |AdminChildren|
    ensures AdminChildren[i].meta.title.Some? && AdminChildren[i].meta.title.value != ""
  {
  }

  lemma GuardOfMatched(to: Target, token: string, role: RoleValue, matched: seq<Meta>)
    requires matched == Resolve(to.path)
    ensures Guard(to, token, role) == Decision(PageTitle(matched), GuardNext(to, matched, token, role))
  {
  }

  /** Below a record with both flags and a titled child, a signed-in regular
    * user goes home and anyone else proceeds; the child's title is set. */
  lemma GuardBelowAdmin(to: Target, token: string, role: RoleValue, child: Meta)
    requires Resolve(to.path) == [AdminMeta, child]
    requires token != "" && to.path != LoginPath && to.path != HomePath
    requires child.title.Some? && child.title.value != ""
    ensures Guard(to, token, role) ==
      Decision(child.title.value, if IsRegularUser(role) then Redirect(HomePath, None) else Proceed)
  {
    var matched := [AdminMeta, child];
    GuardOfMatched(to, token, role, matched);
    assert matched[0].requiresAuth && matched[0].adminOnly;
  }

  lemma AdminChildPathIsNotHome(i: nat)
    requires i < |AdminChildren|
    ensures "/admin/" + AdminChildren[i].path != LoginPath
    ensures "/admin/" + AdminChildren[i].path != HomePath
  {
    var path := "/admin/" + AdminChildren[i].path;
    assert path[1] == 'a' && LoginPath[1] == 'l';
    assert |path| > 1;
  }

  /** A signed-in regular user is sent home from every page under /admin,
    * also from those whose own record lacks adminOnly or requiresAuth,
    * because the /admin record carries both; the title is still the
    * child's. */
  lemma AdminChildrenClosedToRegularUsers(c: Child, fullPath: string, token: string, role: RoleValue)
    requires c in AdminChildren && token != "" && IsRegularUser(role)
    ensures Guard(Target("/admin/" + c.path, fullPath), token, role).next == Redirect(HomePath, None)
    ensures Some(Guard(Target("/admin/" + c.path, fullPath), token, role).title) == c.meta.title
  {
    var i :| 0 <= i < |AdminChildren| && AdminChildren[i] == c;
    ResolveAdminChild(i);
    AdminChildTitle(i);
    AdminChildPathIsNotHome(i);
    GuardBelowAdmin(Target("/admin/" + c.path, fullPath), token, role, c.meta);
  }

  /** Any other signed-in role reaches every page under /admin. */
  lemma AdminChildrenOpenToOthers(c: Child, fullPath: string, token: string, role: RoleValue)
    requires c in AdminChildren && token != "" && !IsRegularUser(role)
    ensures Guard(Target("/admin/" + c.path, fullPath), token, role).next == Proceed
    ensures Some(Guard(Target("/admin/" + c.path, fullPath), token, role).title) == c.meta.title
  {
    var i :| 0 <= i < |AdminChildren| && AdminChildren[i] == c;
    ResolveAdminChild(i);
    AdminChildTitle(i);
    AdminChildPathIsNotHome(i);
    GuardBelowAdmin(Target("/admin/" + c.path, fullPath), token, role, c.meta);
  }
}
