/**
 * `UserModel`: the `users` table as a map from id to row, the lookups the
 * routes use, unique-slug allocation, the verification-code lifecycle and the
 * password-reset lifecycle. SHA-256 and slugify are parameters; the clock is
 * the `now` argument (milliseconds); `Math.random` and `crypto.randomBytes`
 * are nondeterministic choices within their ranges.
 */
module UserStore {
  import opened Basics
  import opened Text
  import opened Schema
  import opened Slugs

  /** A verification code lives 10 minutes (10 * 60 * 1000 ms). */
  const OtpLifetime: int := 600000
  /** A reset token lives one hour. */
  const ResetLifetime: int := 3600000

  /** The errors `UserModel` throws. */
  datatype StoreError =
    | InvalidEmailFormat                 // findByEmail: "Invalid email format."
    | UserNotFound                       // createPasswordResetToken: "User not found"
    | Rejected(db: DbError)              // the insert broke a constraint
    | CreateFailed(cause: StoreError)    // create: "Failed to create user: ..."

  /** `findByEmail`: throws on an empty (or missing) email, else the row with that email, if any. */
  function FindByEmail(rows: map<Id, UserRow>, email: string): (r: Result<Option<UserRow>, StoreError>)
    requires UsersValid(rows)
    ensures r.Err? <==> email == ""
    ensures r.Err? ==> r.error == InvalidEmailFormat
    ensures r.Ok? ==> (r.value.Some? <==> EmailTaken(rows, email))
    ensures r.Ok? && r.value.Some? ==>
      r.value.value.id in rows && rows[r.value.value.id] == r.value.value && r.value.value.email == email
  {
    if email == "" then Err(InvalidEmailFormat)
    else if EmailTaken(rows, email) then
      var id :| id in rows && rows[id].email == email;
      Ok(Some(rows[id]))
    else Ok(None)
  }

  /** `findById`: the row with that id, if any. */
  function FindById(rows: map<Id, UserRow>, id: Id): (r: Option<UserRow>)
    ensures r.Some? <==> id in rows
    ensures r.Some? ==> r.value == rows[id]
  {
    if id in rows then Some(rows[id]) else None
  }

  /** The stored verification code equals `otp` and has not expired at `now`. */
  predicate OtpMatches(u: UserRow, otp: string, now: int)
  {
    u.accountVerificationOtp == Some(otp) &&
    u.accountVerificationOtpExpires.Some? && u.accountVerificationOtpExpires.value > now
  }

  /** The stored reset-token hash equals `hashed` and has not expired at `now`. */
  predicate ResetMatches(u: UserRow, hashed: string, now: int)
  {
    u.resetPasswordToken == Some(hashed) &&
    u.resetPasswordExpires.Some? && u.resetPasswordExpires.value > now
  }

  /**
   * The row after a code is issued at `now`: only that code matches, and only
   * before now + 10 minutes as the column stores it, rounded to the second.
   */
  function WithOtp(u: UserRow, code: string, now: int): (r: UserRow)
    ensures forall otp, t :: OtpMatches(r, otp, t) <==> otp == code && t < StoredTime(now + OtpLifetime)
    ensures r.(accountVerificationOtp := u.accountVerificationOtp,
               accountVerificationOtpExpires := u.accountVerificationOtpExpires) == u
  {
    u.(accountVerificationOtp := Some(code), accountVerificationOtpExpires := Some(StoredTime(now + OtpLifetime)))
  }

  /** The row after verification: verified, and no code matches any more. */
  function Verified(u: UserRow): (r: UserRow)
    ensures r.isAccountVerified
    ensures forall otp, t :: !OtpMatches(r, otp, t)
    ensures r.(isAccountVerified := u.isAccountVerified,
               accountVerificationOtp := u.accountVerificationOtp,
               accountVerificationOtpExpires := u.accountVerificationOtpExpires) == u
  {
    u.(isAccountVerified := true, accountVerificationOtp := None, accountVerificationOtpExpires := None)
  }

  /**
   * The row after a reset is requested at `now`: only `hashed` matches, and
   * only before now + 1 hour as the column stores it, rounded to the second.
   */
  function WithResetToken(u: UserRow, hashed: string, now: int): (r: UserRow)
    ensures forall h, t :: ResetMatches(r, h, t) <==> h == hashed && t < StoredTime(now + ResetLifetime)
    ensures r.(resetPasswordToken := u.resetPasswordToken, resetPasswordExpires := u.resetPasswordExpires) == u
  {
    u.(resetPasswordToken := Some(hashed), resetPasswordExpires := Some(StoredTime(now + ResetLifetime)))
  }

  /** The row after `updatePassword`: the new password, and no reset token matches any more. */
  function WithPassword(u: UserRow, password: string): (r: UserRow)
    ensures r.password == password
    ensures forall h, t :: !ResetMatches(r, h, t)
    ensures r.(password := u.password, resetPasswordToken := u.resetPasswordToken,
               resetPasswordExpires := u.resetPasswordExpires) == u
  {
    u.(password := password, resetPasswordToken := None, resetPasswordExpires := None)
  }

  /** The table after `generateUniqueSlug(id, ...)` with base slug `base`: only row id's slug changes. */
  function SlugAssigned(rows: map<Id, UserRow>, id: Id, base: string): (r: map<Id, UserRow>)
    ensures r.Keys == rows.Keys
    ensures forall k | k in rows && k != id :: r[k] == rows[k]
    ensures id in rows ==> r[id].(slug := rows[id].slug) == rows[id]
    ensures id in rows ==> r[id].slug == Some(ChosenSlug(SlugsOf(rows), base))
  {
    if id in rows then rows[id := rows[id].(slug := Some(ChosenSlug(SlugsOf(rows), base)))] else rows
  }

  /** Assigning a slug keeps ids, emails and non-NULL slugs unique. */
  lemma SlugAssignedKeepsValid(rows: map<Id, UserRow>, id: Id, base: string)
    requires UsersValid(rows)
    ensures UsersValid(SlugAssigned(rows, id, base))
  {
    assert forall k | k in rows && rows[k].slug.Some? :: rows[k].slug.value in SlugsOf(rows);
  }

  /**
   * The quirk of `create`: the row is inserted with its slug already set, and
   * the existence check does not leave that row out, so a row whose inserted
   * slug equals the base never keeps the base.
   */
  lemma OwnRowCountsAsCollision(rows: map<Id, UserRow>, id: Id, base: string)
    requires id in rows && rows[id].slug == Some(base)
    ensures SlugAssigned(rows, id, base)[id].slug != Some(base)
    ensures exists n: nat :: 1 <= n && SlugAssigned(rows, id, base)[id].slug == Some(Suffixed(base, n))
  {
    assert base in SlugsOf(rows);
    TakenBaseGetsSuffix(SlugsOf(rows), base);
    ChosenSlugIsSmallestFree(SlugsOf(rows), base);
  }

  /** The `users` table. */
  class Users {
    var rows: map<Id, UserRow>

    ghost predicate Valid()
      reads this
    {
      UsersValid(rows)
    }

    constructor ()
      ensures Valid() && rows == map[]
    {
      rows := map[];
    }

    /**
     * `create(userData)`: insert with `slugify("first last")` as slug, read
     * the row back by email, then run `generateUniqueSlug`. The row returned
     * is the one read back, so it carries the slug it was inserted with.
     */
    method Create(data: NewUser, id: Id, slugify: string -> string) returns (r: Result<UserRow, StoreError>)
      requires Valid()
      modifies this
      ensures Valid()
      ensures var ins := InsertUser(old(rows), id, data, slugify(data.firstName + " " + data.lastName));
        && (ins.Err? ==> r == Err(CreateFailed(Rejected(ins.error))) && rows == old(rows))
        && (ins.Ok? && data.email == "" ==> r == Err(CreateFailed(InvalidEmailFormat)) && rows == ins.value)
        && (ins.Ok? && data.email != "" ==>
              && r == Ok(ins.value[id])
              && rows == SlugAssigned(ins.value, id, Normalize(data.firstName + " " + data.lastName)))
    {
      var slug := slugify(data.firstName + " " + data.lastName);
      var ins := InsertUser(rows, id, data, slug);
      if ins.Err? {
        return Err(CreateFailed(Rejected(ins.error)));
      }
      rows := ins.value;
      var found := FindByEmail(rows, data.email);
      if found.Err? {
        return Err(CreateFailed(found.error));
      }
      assert rows[id].email == data.email;
      var user := found.value.value;
      GenerateUniqueSlug(user.id, user.firstName, user.lastName);
      r := Ok(user);
    }

    /**
     * `generateUniqueSlug(id, firstName, lastName)`: the base if no row holds
     * it, else `base-N` for the first N >= 1 no row holds. Every row counts,
     * the row being assigned included.
     */
    method GenerateUniqueSlug(id: Id, firstName: string, lastName: string)
      requires Valid()
      modifies this
      ensures Valid()
      ensures rows == SlugAssigned(old(rows), id, Normalize(firstName + " " + lastName))
    {
      var baseSlug := Normalize(firstName + " " + lastName);
      if baseSlug in SlugsOf(rows) {
        var counter: nat := 1;
        while Suffixed(baseSlug, counter) in SlugsOf(rows)
          invariant rows == old(rows)
          invariant 1 <= counter
          invariant forall j :: 1 <= j < counter ==> Suffixed(baseSlug, j) in SlugsOf(rows)
          decreases PendingCandidates(SlugsOf(rows), baseSlug, counter)
        {
          ProbeShrinks(SlugsOf(rows), baseSlug, counter);
          counter := counter + 1;
        }
        SmallestFreeSuffixUnique(SlugsOf(rows), baseSlug, 1, counter);
        SlugAssignedKeepsValid(rows, id, baseSlug);
        if id in rows {
          rows := rows[id := rows[id].(slug := Some(Suffixed(baseSlug, counter)))];
        }
      } else {
        SlugAssignedKeepsValid(rows, id, baseSlug);
        if id in rows {
          rows := rows[id := rows[id].(slug := Some(baseSlug))];
        }
      }
    }

    /**
     * `createAccountVerificationOtp(id)`: a code drawn from [100000, 999999],
     * stored with expiry now + 10 minutes over any earlier code, and returned.
     */
    method CreateAccountVerificationOtp(id: Id, now: int) returns (code: string)
      requires Valid()
      modifies this
      ensures Valid()
      ensures |code| == 6 && IsDigitString(code) && 100000 <= DecimalValue(code) <= 999999
      ensures rows == if id in old(rows) then old(rows)[id := WithOtp(old(rows)[id], code, now)] else old(rows)
    {
      // Math.floor(100000 + Math.random() * 900000) with Math.random() in [0, 1)
      var n: nat :| 100000 <= n <= 999999;
      code := NatToString(n);
      assert Pow10(5) == 100000 && Pow10(6) == 1000000;
      NatToStringLength(n, 5);
      DecimalRoundTrip(n);
      if id in rows {
        rows := rows[id := WithOtp(rows[id], code, now)];
      }
    }

    /** `findUserByOtp(otp)`: some row whose code is `otp` and still unexpired at `now`, if there is one. */
    method FindUserByOtp(otp: string, now: int) returns (r: Option<UserRow>)
      requires Valid()
      ensures r.Some? ==> r.value.id in rows && rows[r.value.id] == r.value && OtpMatches(r.value, otp, now)
      ensures r.None? <==> forall id | id in rows :: !OtpMatches(rows[id], otp, now)
    {
      if exists id | id in rows :: OtpMatches(rows[id], otp, now) {
        var id :| id in rows && OtpMatches(rows[id], otp, now);
        r := Some(rows[id]);
      } else {
        r := None;
      }
    }

    /** `verifyUserAccount(id)`: mark verified and clear both code fields. */
    method VerifyUserAccount(id: Id)
      requires Valid()
      modifies this
      ensures Valid()
      ensures rows == if id in old(rows) then old(rows)[id := Verified(old(rows)[id])] else old(rows)
    {
      if id in rows {
        rows := rows[id := Verified(rows[id])];
      }
    }

    /**
     * `createPasswordResetToken(email)`: a random 32-byte token as 64 hex
     * digits; the row keeps only its hash, with expiry now + 1 hour, and the
     * plaintext is returned.
     */
    method CreatePasswordResetToken(email: string, now: int, sha256: string -> string) returns (r: Result<string, StoreError>)
      requires Valid()
      modifies this
      ensures Valid()
      ensures email == "" ==> r == Err(InvalidEmailFormat) && rows == old(rows)
      ensures email != "" && !EmailTaken(old(rows), email) ==> r == Err(UserNotFound) && rows == old(rows)
      ensures email != "" && EmailTaken(old(rows), email) ==>
        && r.Ok? && |r.value| == 64 && (forall i :: 0 <= i < 64 ==> IsLowerHex(r.value[i]))
        && exists id | id in old(rows) && old(rows)[id].email == email ::
             rows == old(rows)[id := WithResetToken(old(rows)[id], sha256(r.value), now)]
    {
      var found := FindByEmail(rows, email);
      if found.Err? {
        return Err(found.error);
      }
      if found.value.None? {
        return Err(UserNotFound);
      }
      var user := found.value.value;
      assert |seq(32, _ => 0 as bv8)| == 32;
      var bytes: seq<bv8> :| |bytes| == 32;
      var token := HexEncode(bytes);
      rows := rows[user.id := WithResetToken(user, sha256(token), now)];
      r := Ok(token);
    }

    /** `findUserByResetToken(hashedToken)`: some row holding that hash, still unexpired at `now`. */
    method FindUserByResetToken(hashed: string, now: int) returns (r: Option<UserRow>)
      requires Valid()
      ensures r.Some? ==> r.value.id in rows && rows[r.value.id] == r.value && ResetMatches(r.value, hashed, now)
      ensures r.None? <==> forall id | id in rows :: !ResetMatches(rows[id], hashed, now)
    {
      if exists id | id in rows :: ResetMatches(rows[id], hashed, now) {
        var id :| id in rows && ResetMatches(rows[id], hashed, now);
        r := Some(rows[id]);
      } else {
        r := None;
      }
    }

    /** `updatePassword(id, newPassword)`: set the password and clear both reset fields. */
    method UpdatePassword(id: Id, password: string)
      requires Valid()
      modifies this
      ensures Valid()
      ensures rows == if id in old(rows) then old(rows)[id := WithPassword(old(rows)[id], password)] else old(rows)
    {
      if id in rows {
        rows := rows[id := WithPassword(rows[id], password)];
      }
    }
  }
}
