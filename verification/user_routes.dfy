/**
 * The guard sequences of the account routes: each handler checks its input
 * in a fixed order, answers with a status code at the first failed check,
 * and otherwise changes the users table through `Users`. bcrypt is the pair
 * `hash`/`compare`, SHA-256 is `sha256`, and whether the outgoing e-mail was
 * accepted is `mailSent`.
 */
module UserRoutes {
  import opened Basics
  import opened Text
  import opened Schema
  import opened Slugs
  import opened UserStore
  import opened Access

  /** The body of a signup request (`/admin/signup`, `/signup`, `/add-user`). */
  datatype SignupBody = SignupBody(firstName: string, lastName: string, email: string, password: string, role: Option<string>)

  /** The role and admin flag `/admin/signup` gives the account it creates. */
  function AdminSignupRole(tableEmpty: bool, requested: Option<string>): (choice: (string, bool))
    ensures tableEmpty ==> choice == ("admin", true)
    ensures !tableEmpty ==> choice.0 == Fallback(requested, "user")
    ensures choice.1 <==> choice.0 == "admin"
  {
    var role := if tableEmpty then "admin" else Fallback(requested, "user");
    (role, tableEmpty || role == "admin")
  }

  /** The first account is always an admin; later ones are admins exactly when they ask for the admin role. */
  lemma FirstAccountIsAdmin(tableEmpty: bool, requested: Option<string>)
    ensures AdminSignupRole(tableEmpty, requested).1 <==> tableEmpty || requested == Some("admin")
  {
  }

  /** The insert `/admin/signup` asks for. */
  function AdminSignupData(body: SignupBody, tableEmpty: bool, hash: string -> string): (data: NewUser)
    ensures data.email == body.email && data.password == hash(body.password)
    ensures NewUserRow("", data, "").Ok? <==> RoleFromName(AdminSignupRole(tableEmpty, body.role).0).Some?
    ensures NewUserRow("", data, "").Ok? ==> var u := NewUserRow("", data, "").value;
      && RoleName(u.role) == AdminSignupRole(tableEmpty, body.role).0
      && u.isAdmin == AdminSignupRole(tableEmpty, body.role).1
      && !u.isBlocked && !u.isAccountVerified
  {
    var choice := AdminSignupRole(tableEmpty, body.role);
    NewUser(body.firstName, body.lastName, body.email, hash(body.password), Some(choice.0), Some(choice.1), None, None)
  }

  /** The insert `/signup` asks for: a plain, unblocked, unverified user whatever the body says. */
  function SignupData(body: SignupBody, hash: string -> string): (data: NewUser)
    ensures NewUserRow("", data, "").Ok?
    ensures var u := NewUserRow("", data, "").value;
      u.role == User && !u.isAdmin && !u.isBlocked && !u.isAccountVerified
  {
    NewUser(body.firstName, body.lastName, body.email, hash(body.password), Some("user"), Some(false), Some(false), Some(false))
  }

  /** The insert `/add-user` asks for: the requested role, every flag left to its column default. */
  function AddUserData(body: SignupBody, hash: string -> string): (data: NewUser)
    ensures NewUserRow("", data, "").Ok? <==> body.role.None? || RoleFromName(body.role.value).Some?
    ensures NewUserRow("", data, "").Ok? ==> var u := NewUserRow("", data, "").value;
      !u.isAdmin && !u.isBlocked && !u.isAccountVerified && RoleName(u.role) == OrDefault(body.role, "user")
  {
    NewUser(body.firstName, body.lastName, body.email, hash(body.password), body.role, None, None, None)
  }

  /**
   * What a successful `create` leaves in the table: the inserted row under
   * `id`, with the body's names and the slug the probe chose for them, and
   * every earlier row as it was.
   */
  ghost predicate CreatedFrom(before: map<Id, UserRow>, after: map<Id, UserRow>, id: Id, data: NewUser,
                              slugify: string -> string)
  {
    && var inserted := InsertUser(before, id, data, slugify(data.firstName + " " + data.lastName));
    && inserted.Ok?
    && after == SlugAssigned(inserted.value, id, Normalize(data.firstName + " " + data.lastName))
    && id !in before && id in after
    && after.Keys == before.Keys + {id}
    && (forall k | k in before :: after[k] == before[k])
    && after[id].firstName == data.firstName && after[id].lastName == data.lastName
    && after[id].slug == Some(ChosenSlug(SlugsOf(inserted.value), Normalize(data.firstName + " " + data.lastName)))
    && after[id].email == data.email && after[id].password == data.password
    && RoleName(after[id].role) == OrDefault(data.role, "user")
    && after[id].isAdmin == OrDefault(data.isAdmin, false)
    && after[id].isBlocked == OrDefault(data.isBlocked, false)
    && after[id].isAccountVerified == OrDefault(data.isAccountVerified, false)
  }

  /**
   * The shared tail of the three signup routes: refuse an existing e-mail
   * with 400, else create the account (201), any thrown error giving 500.
   */
  method SignupWith(users: Users, data: NewUser, id: Id, slugify: string -> string) returns (status: int)
    requires users.Valid()
    modifies users
    ensures users.Valid()
    ensures data.email == "" ==> status == 500 && users.rows == old(users.rows)
    ensures data.email != "" && EmailTaken(old(users.rows), data.email) ==> status == 400 && users.rows == old(users.rows)
    ensures status in {201, 400, 500}
    ensures status == 201 ==> CreatedFrom(old(users.rows), users.rows, id, data, slugify)
    ensures status == 400 <==> data.email != "" && EmailTaken(old(users.rows), data.email)
    ensures status == 201 <==>
      data.email != "" && InsertUser(old(users.rows), id, data, slugify(data.firstName + " " + data.lastName)).Ok?
    ensures status != 201 ==> users.rows == old(users.rows)
  {
    var existing := FindByEmail(users.rows, data.email);
    if existing.Err? {
      return 500;
    }
    if existing.value.Some? {
      return 400;
    }
    var created := users.Create(data, id, slugify);
    if created.Err? {
      return 500;
    }
    status := 201;
  }

  /** `POST /admin/signup`: the status and the new table; the reply's body is not part of the result. */
  method AdminSignup(users: Users, body: SignupBody, id: Id, hash: string -> string, slugify: string -> string)
    returns (status: int)
    requires users.Valid()
    modifies users
    ensures users.Valid()
    ensures body.email != "" && EmailTaken(old(users.rows), body.email) ==> status == 400 && users.rows == old(users.rows)
    ensures status in {201, 400, 500}
    ensures status == 400 <==> body.email != "" && EmailTaken(old(users.rows), body.email)
    ensures var data := AdminSignupData(body, |old(users.rows)| == 0, hash);
      status == 201 <==>
        body.email != "" && InsertUser(old(users.rows), id, data, slugify(data.firstName + " " + data.lastName)).Ok?
    ensures status != 201 ==> users.rows == old(users.rows)
    ensures status == 201 ==>
      CreatedFrom(old(users.rows), users.rows, id, AdminSignupData(body, |old(users.rows)| == 0, hash), slugify)
  {
    var tableEmpty := |users.rows| == 0;
    status := SignupWith(users, AdminSignupData(body, tableEmpty, hash), id, slugify);
  }

  /** `POST /signup`. */
  method Signup(users: Users, body: SignupBody, id: Id, hash: string -> string, slugify: string -> string)
    returns (status: int)
    requires users.Valid()
    modifies users
    ensures users.Valid()
    ensures body.email != "" && EmailTaken(old(users.rows), body.email) ==> status == 400 && users.rows == old(users.rows)
    ensures status in {201, 400, 500}
    ensures status == 400 <==> body.email != "" && EmailTaken(old(users.rows), body.email)
    ensures var data := SignupData(body, hash);
      status == 201 <==>
        body.email != "" && InsertUser(old(users.rows), id, data, slugify(data.firstName + " " + data.lastName)).Ok?
    ensures status != 201 ==> users.rows == old(users.rows)
    ensures status == 201 ==> CreatedFrom(old(users.rows), users.rows, id, SignupData(body, hash), slugify)
    ensures status == 201 ==> users.rows[id].role == User && !users.rows[id].isAdmin && !users.rows[id].isAccountVerified
  {
    status := SignupWith(users, SignupData(body, hash), id, slugify);
  }

  /**
   * `POST /add-user`: admins only. The e-mail lookup runs outside the
   * handler's try, so an empty e-mail reaches Express's error handler (500).
   * After the account is created a verification code is issued and mailed;
   * a mail failure answers 500 but keeps the account and the code.
   */
  method AddUser(users: Users, header: Option<string>, verify: string -> Option<Claims>, body: SignupBody,
                 id: Id, now: int, hash: string -> string, slugify: string -> string, mailSent: bool)
    returns (status: int)
    requires users.Valid()
    modifies users
    ensures users.Valid()
    ensures AdminGate(header, verify, old(users.rows)).Reject? ==>
      status == AdminGate(header, verify, old(users.rows)).status && users.rows == old(users.rows)
    ensures AdminGate(header, verify, old(users.rows)).Pass? && body.email != "" && EmailTaken(old(users.rows), body.email) ==>
      status == 400 && users.rows == old(users.rows)
    ensures AdminGate(header, verify, old(users.rows)).Pass? && body.email == "" ==>
      status == 500 && users.rows == old(users.rows)
    ensures AdminGate(header, verify, old(users.rows)).Pass? ==>
      var data := AddUserData(body, hash);
      var created := body.email != "" && InsertUser(old(users.rows), id, data, slugify(data.firstName + " " + data.lastName)).Ok?;
      && (!created ==> status in {400, 500} && users.rows == old(users.rows))
      && (status == 400 <==> body.email != "" && EmailTaken(old(users.rows), body.email))
      && (created ==>
            && status == (if mailSent then 201 else 500)
            && exists after, code | CreatedFrom(old(users.rows), after, id, data, slugify) ::
                 && |code| == 6 && IsDigitString(code)
                 && users.rows == after[id := WithOtp(after[id], code, now)])
  {
    var gate := AdminGate(header, verify, users.rows);
    if gate.Reject? {
      return gate.status;
    }
    var data := AddUserData(body, hash);
    status := SignupWith(users, data, id, slugify);
    if status != 201 {
      return;
    }
    ghost var after := users.rows;
    var code := users.CreateAccountVerificationOtp(id, now);
    status := if mailSent then 201 else 500;
  }

  /** How `/signin` and `/admin/signin` end. */
  datatype SigninOutcome = SignedIn(user: UserRow, token: TokenRequest) | Refused(status: int)

  /**
   * `POST /signin` and `POST /admin/signin` (the same checks): unknown
   * e-mail 401, blocked 403, unverified 401, wrong password 401, then the
   * token. An empty e-mail makes the lookup throw (500).
   */
  function Signin(rows: map<Id, UserRow>, email: string, password: string, compare: (string, string) -> bool): (r: SigninOutcome)
    requires UsersValid(rows)
    ensures r.Refused? ==> r.status in {401, 403, 500}
    ensures email == "" ==> r == Refused(500)
    ensures email != "" && !EmailTaken(rows, email) ==> r == Refused(401)
    ensures forall id | id in rows && rows[id].email == email && email != "" ::
      r == (if rows[id].isBlocked then Refused(403)
            else if !rows[id].isAccountVerified then Refused(401)
            else if !compare(password, rows[id].password) then Refused(401)
            else SignedIn(rows[id], GenerateToken(rows[id])))
    ensures r.SignedIn? <==>
      && email != "" && EmailTaken(rows, email)
      && exists id | id in rows && rows[id].email == email ::
           !rows[id].isBlocked && rows[id].isAccountVerified && compare(password, rows[id].password)
    ensures r.SignedIn? ==> r.user.email == email && r.user.id in rows && rows[r.user.id] == r.user
    ensures r.SignedIn? ==> r.token == GenerateToken(r.user)
  {
    var found := FindByEmail(rows, email);
    if found.Err? then Refused(500)
    else if found.value.None? then Refused(401)
    else
      var u := found.value.value;
      if u.isBlocked then Refused(403)
      else if !u.isAccountVerified then Refused(401)
      else if !compare(password, u.password) then Refused(401)
      else SignedIn(u, GenerateToken(u))
  }

  /** The blocked and unverified checks come before the password: their answer does not depend on it. */
  lemma SigninFlagsBeforePassword(rows: map<Id, UserRow>, id: Id, password: string, compare: (string, string) -> bool)
    requires UsersValid(rows) && id in rows && rows[id].email != ""
    ensures rows[id].isBlocked ==> Signin(rows, rows[id].email, password, compare) == Refused(403)
    ensures !rows[id].isBlocked && !rows[id].isAccountVerified ==>
      Signin(rows, rows[id].email, password, compare) == Refused(401)
  {
    var found := FindByEmail(rows, rows[id].email);
    assert found.value.value == rows[id];
  }

  /**
   * `POST /otp-verification`: 400 unless the e-mail looks like `\S+@\S+\.\S+`
   * and belongs to a user; then a new code is stored and mailed (200), a
   * mail failure answering 500 with the code already stored.
   */
  method RequestOtp(users: Users, email: string, now: int, mailSent: bool) returns (status: int)
    requires users.Valid()
    modifies users
    ensures users.Valid()
    ensures !EmailShaped(email) || !EmailTaken(old(users.rows), email) ==> status == 400 && users.rows == old(users.rows)
    ensures EmailShaped(email) && EmailTaken(old(users.rows), email) ==>
      && status == (if mailSent then 200 else 500)
      && exists id, code | id in old(users.rows) && old(users.rows)[id].email == email ::
           && |code| == 6 && IsDigitString(code)
           && users.rows == old(users.rows)[id := WithOtp(old(users.rows)[id], code, now)]
  {
    if email == "" || !EmailShaped(email) {
      return 400;
    }
    var found := FindByEmail(users.rows, email);
    if found.Err? || found.value.None? {
      return 400;
    }
    var user := found.value.value;
    var code := users.CreateAccountVerificationOtp(user.id, now);
    status := if mailSent then 200 else 500;
  }

  /** `/^\d+$/` with length 6: the only codes `/verify-otp` looks up. */
  predicate OtpFormatOk(otp: string)
    ensures OtpFormatOk(otp) <==> |otp| == 6 && forall i | 0 <= i < 6 :: '0' <= otp[i] <= '9'
  {
    otp != "" && |otp| == 6 && IsDigitString(otp)
  }

  /**
   * `PUT /verify-otp`: 400 for a malformed code, 400 when no user holds it
   * unexpired, else that user is verified and the code cleared (200).
   */
  method VerifyOtp(users: Users, otp: string, now: int) returns (status: int)
    requires users.Valid()
    modifies users
    ensures users.Valid()
    ensures !OtpFormatOk(otp) ==> status == 400 && users.rows == old(users.rows)
    ensures OtpFormatOk(otp) && (forall id | id in old(users.rows) :: !OtpMatches(old(users.rows)[id], otp, now)) ==>
      status == 400 && users.rows == old(users.rows)
    ensures status == 200 <==> OtpFormatOk(otp) && exists id | id in old(users.rows) :: OtpMatches(old(users.rows)[id], otp, now)
    ensures status == 200 ==> exists id | id in old(users.rows) && OtpMatches(old(users.rows)[id], otp, now) ::
      users.rows == old(users.rows)[id := Verified(old(users.rows)[id])]
  {
    if !OtpFormatOk(otp) {
      return 400;
    }
    var found := users.FindUserByOtp(otp, now);
    if found.None? {
      return 400;
    }
    users.VerifyUserAccount(found.value.id);
    status := 200;
  }

  /**
   * A code verifies once: it matches until its stored expiry, which is within
   * half a second of 10 minutes after issue, and never after verification.
   */
  lemma OtpSingleUse(u: UserRow, code: string, issued: int, t: int)
    ensures OtpMatches(WithOtp(u, code, issued), code, t) <==> t < StoredTime(issued + OtpLifetime)
    ensures t < issued + OtpLifetime - 500 ==> OtpMatches(WithOtp(u, code, issued), code, t)
    ensures t >= issued + OtpLifetime + 500 ==> !OtpMatches(WithOtp(u, code, issued), code, t)
    ensures !OtpMatches(Verified(WithOtp(u, code, issued)), code, t)
  {
  }

  /** How `/password-token` answers: a status, or the error object sent by its catch (status 200). */
  datatype Answer = Status(code: int) | CaughtError

  /**
   * `POST /password-token`: 400 for an unknown e-mail, else a reset token is
   * stored (as its hash) and mailed, answering 200. Errors thrown inside the
   * handler, an empty e-mail or a mail failure, are sent back as the body of
   * a 200 reply.
   */
  method RequestPasswordReset(users: Users, email: string, now: int, sha256: string -> string, mailSent: bool)
    returns (answer: Answer)
    requires users.Valid()
    modifies users
    ensures users.Valid()
    ensures email == "" ==> answer == CaughtError && users.rows == old(users.rows)
    ensures email != "" && !EmailTaken(old(users.rows), email) ==> answer == Status(400) && users.rows == old(users.rows)
    ensures email != "" && EmailTaken(old(users.rows), email) ==>
      && answer == (if mailSent then Status(200) else CaughtError)
      && exists id, token | id in old(users.rows) && old(users.rows)[id].email == email ::
           && |token| == 64
           && users.rows == old(users.rows)[id := WithResetToken(old(users.rows)[id], sha256(token), now)]
  {
    var found := FindByEmail(users.rows, email);
    if found.Err? {
      return CaughtError;
    }
    if found.value.None? {
      return Status(400);
    }
    var token := users.CreatePasswordResetToken(email, now, sha256);
    answer := if mailSent then Status(200) else CaughtError;
  }

  /**
   * `PUT /:id/reset-password` (the id in the path is not used): 400 when no
   * user holds the token's hash unexpired, 400 when the new password matches
   * the old one, else the password is replaced and the reset fields cleared
   * (200, or 500 when the confirmation mail fails).
   */
  method ResetPassword(users: Users, token: string, password: string, now: int, sha256: string -> string,
                       hash: string -> string, compare: (string, string) -> bool, mailSent: bool)
    returns (status: int)
    requires users.Valid()
    modifies users
    ensures users.Valid()
    ensures (forall id | id in old(users.rows) :: !ResetMatches(old(users.rows)[id], sha256(token), now)) ==>
      status == 400 && users.rows == old(users.rows)
    ensures status == 400 ==> users.rows == old(users.rows)
    ensures status == 400 ==>
      || (forall id | id in old(users.rows) :: !ResetMatches(old(users.rows)[id], sha256(token), now))
      || exists id | id in old(users.rows) && ResetMatches(old(users.rows)[id], sha256(token), now) ::
           compare(password, old(users.rows)[id].password)
    ensures (exists id | id in old(users.rows) :: ResetMatches(old(users.rows)[id], sha256(token), now)) &&
            (forall id | id in old(users.rows) && ResetMatches(old(users.rows)[id], sha256(token), now) ::
               !compare(password, old(users.rows)[id].password)) ==>
      status == (if mailSent then 200 else 500)
    ensures status != 400 ==>
      && status == (if mailSent then 200 else 500)
      && exists id | id in old(users.rows) && ResetMatches(old(users.rows)[id], sha256(token), now) ::
           && !compare(password, old(users.rows)[id].password)
           && users.rows == old(users.rows)[id := WithPassword(old(users.rows)[id], hash(password))]
  {
    var hashed := sha256(token);
    var found := users.FindUserByResetToken(hashed, now);
    if found.None? {
      return 400;
    }
    var user := found.value;
    if compare(password, user.password) {
      return 400;
    }
    users.UpdatePassword(user.id, hash(password));
    status := if mailSent then 200 else 500;
  }

  /**
   * A reset token works until its stored expiry, which is within half a
   * second of an hour after issue, and never after the password is replaced.
   */
  lemma ResetTokenSingleUse(u: UserRow, hashed: string, issued: int, t: int, password: string)
    ensures ResetMatches(WithResetToken(u, hashed, issued), hashed, t) <==> t < StoredTime(issued + ResetLifetime)
    ensures t < issued + ResetLifetime - 500 ==> ResetMatches(WithResetToken(u, hashed, issued), hashed, t)
    ensures t >= issued + ResetLifetime + 500 ==> !ResetMatches(WithResetToken(u, hashed, issued), hashed, t)
    ensures !ResetMatches(WithPassword(WithResetToken(u, hashed, issued), password), hashed, t)
  {
  }
}
