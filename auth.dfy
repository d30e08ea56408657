// Who a request comes from: the two claims a JSON Web Token (RFC 7519)
// carries and the Bearer scheme of section 2.1 of RFC 6750. Signing,
// expiry and the token format are not modelled: the parser is a parameter.

module Auth {
  import opened Common

  /** The role values stored in users.role and carried in the token. */
  const RoleAdmin: int := 0
  const RoleManager: int := 1
  const RoleUser: int := 2
  const RoleStaff: int := 3

  /** The claims the login issues: the user's id and role, either of which a
    * token may lack. */
  datatype Claims = Claims(userId: Option<int>, role: Option<int>)

  /** getAllClaimsFromToken applied to an Authorization header: it strips a
    * leading "Bearer " itself and throws when the token does not verify;
    * Value(None) stands for a null claims object. */
  type TokenParser = string -> Except<Option<Claims>>

  const BearerPrefix: string := "Bearer "

  /** `token != null && token.startsWith("Bearer ")`. */
  predicate HasBearerPrefix(header: Option<string>) {
    header.Some? && BearerPrefix <= header.value
  }

  /** The claims of a header that carries a Bearer token the parser accepts. */
  function BearerClaims(header: Option<string>, parse: TokenParser): Option<Claims> {
    if HasBearerPrefix(header) && parse(header.value).Value? then parse(header.value).v else None
  }

  /** A controller's verdict on a request's credentials: answer with this
    * response, or go on with these claims. */
  datatype Gate<T> = Stop(response: Response<T>) | Go(claims: Claims)

  /** BCrypt.hashpw under the salt the caller drew: the stored form of a
    * password. */
  type PasswordHasher = string -> string

  /** BCrypt.checkpw(plain, stored). */
  type PasswordChecker = (string, string) -> bool
}
