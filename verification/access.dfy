/**
 * The access-control helpers: the claims and lifetime `generateToken` signs,
 * and the middleware decisions `isAuth`, `isAdmin` and `authorizeRoles`.
 * JWT signing and verification are not modelled: `verify` stands for
 * `jwt.verify` with the server's key, answering the claims of a good,
 * unexpired token and None otherwise.
 */
module Access {
  import opened Basics
  import opened Schema

  /** The payload `generateToken` signs. */
  datatype Claims = Claims(
    id: Id,
    firstName: string,
    lastName: string,
    image: Option<string>,
    email: string,
    isAdmin: bool,
    role: Role)

  /** What `generateToken` hands to `jwt.sign`: the payload and its lifetime. */
  datatype TokenRequest = TokenRequest(claims: Claims, expiresIn: string)

  /** `generateToken(user)`: admins get a 2-hour token, everyone else a 24-hour one. */
  function GenerateToken(u: UserRow): (t: TokenRequest)
    ensures t.expiresIn == "2h" <==> u.isAdmin
    ensures t.expiresIn == "24h" <==> !u.isAdmin
    ensures t.claims.id == u.id && t.claims.email == u.email && t.claims.role == u.role
    ensures t.claims.isAdmin == u.isAdmin && t.claims.image == u.image
    ensures t.claims.firstName == u.firstName && t.claims.lastName == u.lastName
  {
    TokenRequest(Claims(u.id, u.firstName, u.lastName, u.image, u.email, u.isAdmin, u.role),
                 if u.isAdmin then "2h" else "24h")
  }

  /** `req.user`, as `isAuth` builds it from the stored record. */
  datatype Identity = Identity(
    id: Id,
    firstName: string,
    lastName: string,
    email: string,
    image: Option<string>,
    isAdmin: bool,
    role: Role,
    isBlocked: bool,
    isAccountVerified: bool)

  function IdentityOf(u: UserRow): Identity
  {
    Identity(u.id, u.firstName, u.lastName, u.email, u.image, u.isAdmin, u.role, u.isBlocked, u.isAccountVerified)
  }

  /** The ways `isAuth` ends. */
  datatype AuthOutcome =
    | NoToken                        // 401 "No token provided"
    | BadToken                       // 401 "Invalid or expired token"
    | UnknownUser                    // 404 "User not found"
    | Authenticated(user: Identity)  // next(), with req.user set

  /** `authorization.slice(7)`: the header without its first seven characters, whatever they are. */
  function TokenOf(header: string): (token: string)
    ensures |header| <= 7 ==> token == ""
    ensures |header| > 7 ==> header == header[..7] + token
  {
    if |header| <= 7 then "" else header[7..]
  }

  /** `isAuth`: a header, a token the key verifies, and a stored user with the token's id. */
  function IsAuth(header: Option<string>, verify: string -> Option<Claims>, rows: map<Id, UserRow>): (r: AuthOutcome)
    ensures r == NoToken <==> header.None? || header.value == ""
    ensures r == BadToken <==> header.Some? && header.value != "" && verify(TokenOf(header.value)).None?
    ensures r == UnknownUser <==>
      header.Some? && header.value != "" && verify(TokenOf(header.value)).Some? &&
      verify(TokenOf(header.value)).value.id !in rows
    ensures r.Authenticated? ==>
      var id := verify(TokenOf(header.value)).value.id;
      id in rows && r.user == IdentityOf(rows[id])
  {
    if header.None? || header.value == "" then NoToken
    else
      var claims := verify(TokenOf(header.value));
      if claims.None? then BadToken
      else if claims.value.id !in rows then UnknownUser
      else Authenticated(IdentityOf(rows[claims.value.id]))
  }

  /** The "Bearer " prefix is never checked: any seven characters in front of the token do the same. */
  lemma PrefixNotChecked(prefix: string, token: string, verify: string -> Option<Claims>, rows: map<Id, UserRow>)
    requires |prefix| == 7
    ensures IsAuth(Some(prefix + token), verify, rows) == IsAuth(Some("Bearer " + token), verify, rows)
  {
    if token != [] {
      assert TokenOf(prefix + token) == token;
      assert TokenOf("Bearer " + token) == token;
    }
  }

  /**
   * A token issued to u authenticates as the record stored under u's id now,
   * not as the claims it carries; if that record is gone the answer is 404.
   */
  lemma IdentityComesFromStore(u: UserRow, header: string, verify: string -> Option<Claims>, rows: map<Id, UserRow>)
    requires header != "" && verify(TokenOf(header)) == Some(GenerateToken(u).claims)
    ensures u.id in rows ==> IsAuth(Some(header), verify, rows) == Authenticated(IdentityOf(rows[u.id]))
    ensures u.id !in rows ==> IsAuth(Some(header), verify, rows) == UnknownUser
  {
  }

  /** `isAuth` lets blocked and unverified users through; only the routes that check those flags refuse them. */
  lemma FlagsNotChecked(header: string, verify: string -> Option<Claims>, rows: map<Id, UserRow>, id: Id)
    requires header != "" && verify(TokenOf(header)).Some? && verify(TokenOf(header)).value.id == id
    requires id in rows
    ensures IsAuth(Some(header), verify, rows).Authenticated?
    ensures IsAuth(Some(header), verify, rows).user.isBlocked == rows[id].isBlocked
    ensures IsAuth(Some(header), verify, rows).user.isAccountVerified == rows[id].isAccountVerified
  {
  }

  /** `isAdmin`: passes iff a user is attached and flagged admin. */
  predicate IsAdmin(user: Option<Identity>)
    ensures user.None? ==> !IsAdmin(user)
  {
    user.Some? && user.value.isAdmin
  }

  /**
   * The two checks look at different columns: `isAdmin` at the flag whatever
   * the role, `authorizeRoles` at the role whatever the flag; listing more
   * roles never shuts a user out.
   */
  lemma {:induction false} FlagAndRoleIndependent(u: Identity, role: Role, flag: bool, allowed: seq<string>, more: seq<string>)
    ensures IsAdmin(Some(u.(role := role))) == IsAdmin(Some(u))
    ensures AuthorizeRoles(allowed, Some(u.(isAdmin := flag))) == AuthorizeRoles(allowed, Some(u))
    ensures AuthorizeRoles(allowed, Some(u)) ==> AuthorizeRoles(allowed + more, Some(u)) && AuthorizeRoles(more + allowed, Some(u))
  {
  }

  /** `authorizeRoles(...allowed)`: passes iff a user is attached and its role is listed. */
  predicate AuthorizeRoles(allowed: seq<string>, user: Option<Identity>)
    ensures user.None? || allowed == [] ==> !AuthorizeRoles(allowed, user)
  {
    user.Some? && RoleName(user.value.role) in allowed
  }

  /** The end of a middleware chain: the handler runs for `user`, or the chain answers `status`. */
  datatype Gate = Pass(user: Identity) | Reject(status: int)

  /** The status `isAuth` answers with, or the user it attaches. */
  function AuthGate(header: Option<string>, verify: string -> Option<Claims>, rows: map<Id, UserRow>): (g: Gate)
    ensures g.Reject? ==> g.status in {401, 404}
    ensures g.Pass? <==> IsAuth(header, verify, rows).Authenticated?
    ensures g.Reject? && g.status == 404 <==> IsAuth(header, verify, rows) == UnknownUser
  {
    match IsAuth(header, verify, rows)
    case NoToken => Reject(401)
    case BadToken => Reject(401)
    case UnknownUser => Reject(404)
    case Authenticated(user) => Pass(user)
  }

  /** `isAuth, isAdmin`: the chain in front of every admin route. */
  function AdminGate(header: Option<string>, verify: string -> Option<Claims>, rows: map<Id, UserRow>): (g: Gate)
    ensures g.Pass? <==> AuthGate(header, verify, rows).Pass? && IsAdmin(Some(AuthGate(header, verify, rows).user))
    ensures g.Pass? ==> g == AuthGate(header, verify, rows)
    ensures g.Reject? ==> g.status in {401, 403, 404}
    ensures AuthGate(header, verify, rows).Reject? ==> g == AuthGate(header, verify, rows)
    ensures AuthGate(header, verify, rows).Pass? && !IsAdmin(Some(AuthGate(header, verify, rows).user)) ==>
      g == Reject(403)
  {
    var g := AuthGate(header, verify, rows);
    if g.Reject? then g
    else if IsAdmin(Some(g.user)) then g
    else Reject(403)
  }

  /** `GET /` on users: `isAuth, isAdmin, authorizeRoles("admin", "teacher")`. */
  function ListUsersGate(header: Option<string>, verify: string -> Option<Claims>, rows: map<Id, UserRow>): (g: Gate)
    ensures g.Reject? ==> g.status in {401, 403, 404}
    ensures AdminGate(header, verify, rows).Reject? ==> g == AdminGate(header, verify, rows)
    ensures AdminGate(header, verify, rows).Pass? ==>
      g == if AuthorizeRoles(["admin", "teacher"], Some(AdminGate(header, verify, rows).user))
           then AdminGate(header, verify, rows) else Reject(403)
  {
    var g := AdminGate(header, verify, rows);
    if g.Reject? then g
    else if AuthorizeRoles(["admin", "teacher"], Some(g.user)) then g
    else Reject(403)
  }

  /** The user list is served only to an authenticated caller whose stored record is an admin with role admin or teacher. */
  lemma ListUsersGateExact(header: Option<string>, verify: string -> Option<Claims>, rows: map<Id, UserRow>)
    ensures ListUsersGate(header, verify, rows).Pass? <==>
      && IsAuth(header, verify, rows).Authenticated?
      && IsAuth(header, verify, rows).user.isAdmin
      && IsAuth(header, verify, rows).user.role in {Admin, Teacher}
    ensures ListUsersGate(header, verify, rows).Pass? ==>
      ListUsersGate(header, verify, rows).user == IsAuth(header, verify, rows).user
  {
    var a := IsAuth(header, verify, rows);
    if a.Authenticated? {
      assert RoleName(a.user.role) in ["admin", "teacher"] <==> a.user.role in {Admin, Teacher};
    }
  }
}
