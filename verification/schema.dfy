/**
 * The two tables created by the migrations: `users` and `reports`. Column
 * enums are datatypes; the columns the operations may leave NULL are
 * Options, while `role` and the three user flags, which have defaults but no
 * NOT NULL, are always set here; the unique indexes, the
 * enum checks and the foreign key become the predicates an insert must pass
 * and the invariants the stores keep. Timestamps are milliseconds.
 */
module Schema {
  import opened Basics

  type Id = string

  /** `users.role`: enum("user", "admin", "teacher", "student"), default "user". */
  datatype Role = User | Admin | Teacher | Student

  function RoleName(r: Role): string
  {
    match r
    case User => "user"
    case Admin => "admin"
    case Teacher => "teacher"
    case Student => "student"
  }

  /** The enum check MySQL applies (strict mode) to a string written to `role`. */
  function RoleFromName(s: string): (r: Option<Role>)
    ensures r.Some? <==> s in {"user", "admin", "teacher", "student"}
    ensures r.Some? ==> RoleName(r.value) == s
  {
    if s == "user" then Some(User)
    else if s == "admin" then Some(Admin)
    else if s == "teacher" then Some(Teacher)
    else if s == "student" then Some(Student)
    else None
  }

  lemma RoleNameRoundTrip(r: Role)
    ensures RoleFromName(RoleName(r)) == Some(r)
  {
  }

  /** `reports.status`: enum("pending", "approved", "disapproved"), default "pending". */
  datatype ReportStatus = Pending | Approved | Disapproved

  function StatusName(s: ReportStatus): string
  {
    match s
    case Pending => "pending"
    case Approved => "approved"
    case Disapproved => "disapproved"
  }

  function StatusFromName(s: string): (r: Option<ReportStatus>)
    ensures r.Some? <==> s in {"pending", "approved", "disapproved"}
    ensures r.Some? ==> StatusName(r.value) == s
  {
    if s == "pending" then Some(Pending)
    else if s == "approved" then Some(Approved)
    else if s == "disapproved" then Some(Disapproved)
    else None
  }

  /** `reports.privacyPreference`: enum("public", "anonymous"), default "public". */
  datatype Privacy = Public | Anonymous

  function PrivacyName(p: Privacy): string
  {
    match p
    case Public => "public"
    case Anonymous => "anonymous"
  }

  function PrivacyFromName(s: string): (r: Option<Privacy>)
    ensures r.Some? <==> s in {"public", "anonymous"}
    ensures r.Some? ==> PrivacyName(r.value) == s
  {
    if s == "public" then Some(Public)
    else if s == "anonymous" then Some(Anonymous)
    else None
  }

  /** Why the database refuses an insert or an update. */
  datatype DbError = DuplicateEntry | NotInEnum | MissingOwner

  /**
   * A `timestamp` column keeps whole seconds: a time given in milliseconds is
   * stored rounded to the nearest second, a half second rounding up.
   */
  function StoredTime(ms: int): (stored: int)
    ensures stored % 1000 == 0
    ensures ms - 500 < stored <= ms + 500
  {
    ((ms + 500) / 1000) * 1000
  }

  /** A row of `users` (the columns the account logic reads or writes); times are milliseconds. */
  datatype UserRow = UserRow(
    id: Id,
    firstName: string,
    lastName: string,
    image: Option<string>,
    email: string,
    slug: Option<string>,
    isAdmin: bool,
    isBlocked: bool,
    password: string,
    role: Role,
    resetPasswordToken: Option<string>,
    resetPasswordExpires: Option<int>,
    accountVerificationOtp: Option<string>,
    accountVerificationOtpExpires: Option<int>,
    isAccountVerified: bool)

  /** The object handed to `UserModel.create`; absent fields take the column default. */
  datatype NewUser = NewUser(
    firstName: string,
    lastName: string,
    email: string,
    password: string,
    role: Option<string>,
    isAdmin: Option<bool>,
    isBlocked: Option<bool>,
    isAccountVerified: Option<bool>)

  function OrDefault<T>(o: Option<T>, d: T): T { if o.Some? then o.value else d }

  /** The row the database stores for an insert of `data` with slug `slug`. */
  function NewUserRow(id: Id, data: NewUser, slug: string): (r: Result<UserRow, DbError>)
    ensures r.Err? <==> data.role.Some? && RoleFromName(data.role.value).None?
    ensures r.Ok? ==> var u := r.value;
      && u.id == id && u.email == data.email && u.slug == Some(slug)
      && u.firstName == data.firstName && u.lastName == data.lastName
      && u.password == data.password
      && RoleName(u.role) == OrDefault(data.role, "user")
      && u.isAdmin == OrDefault(data.isAdmin, false)
      && u.isBlocked == OrDefault(data.isBlocked, false)
      && u.isAccountVerified == OrDefault(data.isAccountVerified, false)
      && u.image.None?
      && u.resetPasswordToken.None? && u.resetPasswordExpires.None?
      && u.accountVerificationOtp.None? && u.accountVerificationOtpExpires.None?
  {
    var role := if data.role.None? then Some(User) else RoleFromName(data.role.value);
    if role.None? then Err(NotInEnum)
    else Ok(UserRow(id, data.firstName, data.lastName, None, data.email, Some(slug),
                    OrDefault(data.isAdmin, false), OrDefault(data.isBlocked, false),
                    data.password, role.value, None, None, None, None,
                    OrDefault(data.isAccountVerified, false)))
  }

  /** The slugs held by users; a NULL slug holds nothing. */
  function SlugsOf(rows: map<Id, UserRow>): set<string>
  {
    set id | id in rows && rows[id].slug.Some? :: rows[id].slug.value
  }

  predicate EmailTaken(rows: map<Id, UserRow>, email: string)
  {
    exists id | id in rows :: rows[id].email == email
  }

  /**
   * What the table guarantees: rows are keyed by their id, `email` is
   * unique, and `slug` is unique among non-NULL values.
   */
  ghost predicate UsersValid(rows: map<Id, UserRow>)
  {
    && (forall id | id in rows :: rows[id].id == id)
    && (forall i, j | i in rows && j in rows && rows[i].email == rows[j].email :: i == j)
    && (forall i, j | i in rows && j in rows && rows[i].slug.Some? && rows[i].slug == rows[j].slug :: i == j)
  }

  /** `insert` into `users`: refused on a duplicate id, email or slug, or a role outside the enum. */
  function InsertUser(rows: map<Id, UserRow>, id: Id, data: NewUser, slug: string): (r: Result<map<Id, UserRow>, DbError>)
    ensures r.Ok? <==>
      && id !in rows && !EmailTaken(rows, data.email) && slug !in SlugsOf(rows)
      && NewUserRow(id, data, slug).Ok?
    ensures r.Ok? ==> r.value == rows[id := NewUserRow(id, data, slug).value]
    ensures r.Ok? && UsersValid(rows) ==> UsersValid(r.value)
  {
    var row := NewUserRow(id, data, slug);
    if id in rows || EmailTaken(rows, data.email) || slug in SlugsOf(rows) then Err(DuplicateEntry)
    else if row.Err? then Err(row.error)
    else
      var rows' := rows[id := row.value];
      assert UsersValid(rows) ==> UsersValid(rows') by {
        assert forall k | k in rows && rows[k].slug.Some? :: rows[k].slug.value in SlugsOf(rows);
      }
      Ok(rows')
  }

  /** A row of `reports`. */
  datatype ReportRow = ReportRow(
    id: Id,
    schoolName: string,
    slug: string,
    images: string,
    video: Option<string>,
    status: ReportStatus,
    schoolLocation: Option<string>,
    issueType: string,
    description: Option<string>,
    comment: Option<string>,
    userId: Option<Id>,
    privacyPreference: Privacy,
    createdAt: int)

  /** `reports.id` is the primary key and `reports.slug` is unique. */
  ghost predicate ReportsValid(rows: seq<ReportRow>)
  {
    forall i, j | 0 <= i < j < |rows| :: rows[i].id != rows[j].id && rows[i].slug != rows[j].slug
  }

  /** Every report owner exists among the users (`userId` references `users.id`). */
  ghost predicate OwnersExist(rows: seq<ReportRow>, users: set<Id>)
  {
    forall i | 0 <= i < |rows| :: rows[i].userId.Some? ==> rows[i].userId.value in users
  }

  /** `onDelete("CASCADE")`: deleting user `uid` deletes the reports it owns, in table order. */
  function CascadeDelete(rows: seq<ReportRow>, uid: Id): (kept: seq<ReportRow>)
    ensures forall r | r in kept :: r in rows && r.userId != Some(uid)
    ensures forall r | r in rows && r.userId != Some(uid) :: r in kept
    ensures |kept| <= |rows|
  {
    if rows == [] then []
    else if rows[0].userId == Some(uid) then CascadeDelete(rows[1..], uid)
    else [rows[0]] + CascadeDelete(rows[1..], uid)
  }

  /** Deleting a user with its reports keeps the reports table free of dangling owners and duplicates. */
  lemma {:induction false} CascadeKeepsIntegrity(rows: seq<ReportRow>, users: set<Id>, uid: Id)
    requires ReportsValid(rows) && OwnersExist(rows, users)
    ensures ReportsValid(CascadeDelete(rows, uid))
    ensures OwnersExist(CascadeDelete(rows, uid), users - {uid})
    decreases |rows|
  {
    if rows != [] {
      var tail := rows[1..];
      assert ReportsValid(tail) by {
        forall i, j | 0 <= i < j < |tail| ensures tail[i].id != tail[j].id && tail[i].slug != tail[j].slug {
          assert tail[i] == rows[i + 1] && tail[j] == rows[j + 1];
        }
      }
      assert OwnersExist(tail, users) by {
        forall i | 0 <= i < |tail| ensures tail[i].userId.Some? ==> tail[i].userId.value in users {
          assert tail[i] == rows[i + 1];
        }
      }
      CascadeKeepsIntegrity(tail, users, uid);
      var rest := CascadeDelete(tail, uid);
      if rows[0].userId != Some(uid) {
        var kept := [rows[0]] + rest;
        forall j | 0 < j < |kept| ensures rows[0].id != kept[j].id && rows[0].slug != kept[j].slug {
          assert kept[j] in tail;
          var k :| 0 <= k < |tail| && tail[k] == kept[j];
          assert rows[k + 1] == kept[j];
        }
      }
    }
  }
}
