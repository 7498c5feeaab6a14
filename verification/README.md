# School-report bookkeeping, modelled in Dafny

This project models the account and report bookkeeping of a school-issue reporting backend. It is an Express and Knex service over MySQL.

- **Users.** Users sign up and sign in. They verify their account with a six-digit code sent by mail, and reset forgotten passwords with a mailed token.
- **Reports.** Verified users file reports about a school. Each report gets a unique slug. Administrators approve or disapprove reports one at a time or in bulk.
- **Listing.** Anyone can list the latest reports or a filtered, paginated selection. Administrators can export a selection.

The model has these layers:

- **Record schemas** (`schema.dfy`). These come from the users and reports migrations:
  - the role, status and privacy enums with their string names;
  - the column defaults;
  - the constraints the database enforces on insert: primary key, unique email, unique slug, enum membership and the report-owner foreign key;
  - the `ON DELETE CASCADE` of reports.
- **Slug allocation** (`slugs.dfy`):
  - the name normaliser of the users' `generateUniqueSlug`;
  - a reference definition of "the smallest free numeric suffix", which the probe loops of both stores are proved to compute.
- **The account store** (`user_store.dfy`). A class `Users` holds the users table as a map from id to record. It has these operations:
  - `create` and the slug probe loop;
  - the verification-code lifecycle: issue, look up while unexpired, then verify and clear;
  - the password-reset lifecycle: store only the hash with a one-hour expiry, look up while unexpired, then replace the password and clear.
- **The report store** (`report_store.dfy`, `report_queries.dfy`). A class `Reports` holds the reports table as a sequence in insertion order. It has these operations:
  - creation defaults and the slug probe loop;
  - the bulk status update and the single-report write-back.

  Beside it are pure models of:
  - the filter predicate;
  - the newest-first ordering;
  - `getLatestReports`;
  - the offset and page-count arithmetic of `filterReports`.
- **Access control** (`access.dfy`):
  - the token claims and lifetime of `generateToken`;
  - the outcome sequence of `isAuth`;
  - `isAdmin` and `authorizeRoles`, composed into the middleware chains the routes use.
- **Route guards** (`user_routes.dfy`, `report_routes.dfy`). These are the ordered checks of each route and the status code or store change each one ends in.

Foreign primitives are parameters of the operations that use them:

- `slugify`, SHA-256, bcrypt's `hash` and `compare`, and `jwt.verify`;
- the row ids that uuid or MySQL's `UUID()` would produce;
- the clock (`now`, in milliseconds);
- whether the mail transport succeeded (`mailSent`).

`Math.random` and `crypto.randomBytes` are nondeterministic choices within their documented ranges. A missing or non-string email, which `findByEmail` rejects, is represented by the empty string.

## Model

| member | source | states |
|---|---|---|
| Basics.Fallback | backend/models/reportModel.js:25 | `value \|\| fallback` on a string: a missing or empty value gives the fallback, any other value is kept |
| Text.NatToString | backend/models/userModel.js:156-158 | the decimal rendering is non-empty, all digits, and without a leading zero unless it is "0" |
| Text.DecimalRoundTrip | backend/models/userModel.js:156-158 | reading back the decimal rendering of n gives n |
| Text.NatToStringInjective | backend/models/userModel.js:135 | distinct numbers have distinct renderings, so distinct counters probe distinct slugs |
| Text.NatToStringLength | backend/models/userModel.js:156-158 | a number in [10^k, 10^(k+1)) has k+1 digits, so every verification code has six |
| Text.SuffixedInjective | backend/models/userModel.js:135 | `${base}-${n}` determines n |
| Text.Split | backend/models/reportModel.js:121 | `split(",")` yields at least one part, and no part contains the separator |
| Text.SplitWithoutSeparator | backend/models/reportModel.js:121 | splitting a string without the separator yields that string alone |
| Text.SplitAtFirstSeparator | backend/models/reportModel.js:121 | splitting at the first separator yields the head followed by the split of the rest |
| Text.SplitJoin | backend/models/reportModel.js:23 | splitting a comma-joined non-empty list whose elements contain no comma recovers the list |
| Text.HexEncode | backend/models/userModel.js:85 | hex encoding gives two lower-case hex characters per byte |
| Text.EmailShapedBounds | backend/routes/userRoutes.js:488 | a string passing the `\S+@\S+\.\S+` test has at least five characters and an '@', and stays passing with text appended, since the pattern is unanchored |
| Text.EmailShapedExamples | backend/routes/userRoutes.js:488 | "a@b.c" passes; "a@b c.d" (a space in the domain) and "@bc.d" (nothing before the '@') do not |
| Schema.RoleFromName | backend/migrations/20250115185159_create_users_table.js:26-28 | a role name is accepted iff it is one of user, admin, teacher, student, and it maps back to the same name |
| Schema.RoleNameRoundTrip | backend/migrations/20250115185159_create_users_table.js:26-28 | every role survives being stored as its name and read back |
| Schema.StatusFromName | backend/migrations/20250116094930_create_reports_table.js:8-10 | a status is accepted iff it is pending, approved or disapproved, and it maps back to the same name |
| Schema.PrivacyFromName | backend/migrations/20250116094930_create_reports_table.js:16 | a privacy setting is accepted iff it is public or anonymous, and it maps back to the same name |
| Schema.StoredTime | backend/migrations/20250115185159_create_users_table.js:36-38 | a `timestamp` column holds a whole number of seconds, within half a second of the millisecond time written to it |
| Schema.NewUserRow | backend/migrations/20250115185159_create_users_table.js:1-48 | an insert fails iff the role is outside the enum; otherwise role defaults to user, admin/blocked/verified default to false, and image, token and code fields are null |
| Schema.InsertUser | backend/migrations/20250115185159_create_users_table.js:3-21 | an insert succeeds iff id, email and slug are all unused and the row is well-typed; it adds exactly that row and keeps ids, emails and non-null slugs unique |
| Schema.CascadeDelete | backend/migrations/20250116094930_create_reports_table.js:15 | deleting a user keeps exactly the reports not owned by that user |
| Schema.CascadeKeepsIntegrity | backend/migrations/20250116094930_create_reports_table.js:3-15 | after the cascade, report ids and slugs stay unique and every remaining owner still exists |
| Slugs.LowerAscii | backend/models/userModel.js:125 | `toLowerCase` on ASCII maps A-Z to a-z and leaves every other character alone |
| Slugs.Normalize | backend/models/userModel.js:123-127 | the base slug is no longer than the name and contains only a-z, 0-9, `_` and `-`; the empty name gives the empty slug and a one-character name the normal form of that character |
| Slugs.NormalizeChar | backend/models/userModel.js:124-127 | a space becomes `-`, an upper-case letter its lower-case form, a slug character itself, and any other character outside `[\w-]` nothing |
| Slugs.NormalizeAppend | backend/models/userModel.js:124-127 | the normaliser works character by character: normalising a concatenation concatenates the normal forms |
| Slugs.FullNameSlug | backend/models/userModel.js:123-127 | the base slug of "first last" is the first name's slug, `-`, then the last name's slug |
| Slugs.NormalizeKeepsSlugs | backend/models/userModel.js:123-127 | a string already made of slug characters is its own base slug |
| Slugs.NormalizeIdempotent | backend/models/userModel.js:123-127 | normalising twice is normalising once |
| Slugs.ProbeShrinks | backend/models/userModel.js:133-139 | each taken probe shrinks the finite set of remaining candidates, so the probe loop terminates |
| Slugs.SmallestFreeSuffix | backend/models/userModel.js:131-139 | the counter reached is free, and every counter from the start up to it is taken |
| Slugs.SmallestFreeSuffixUnique | backend/models/userModel.js:131-139 | the smallest free counter is unique: any free counter with all earlier ones taken is that one |
| Slugs.ChosenSlug | backend/models/userModel.js:129-150 | the chosen slug is never taken, and it is the base itself whenever the base is free |
| Slugs.ChosenSlugIsSmallestFree | backend/models/userModel.js:131-145 | when the base is taken, the chosen slug is base-N with N >= 1 the smallest free counter |
| Slugs.TakenBaseGetsSuffix | backend/models/userModel.js:129-145 | a taken base is never chosen |
| UserStore.FindByEmail | backend/models/userModel.js:43-50 | an empty email is rejected before any lookup; otherwise a record is found iff one has that email, and it is the stored record |
| UserStore.FindById | backend/models/userModel.js:57-60 | a record is found iff one is stored under that id, and it is that record |
| UserStore.WithOtp | backend/models/userModel.js:154-169 | after issuing, exactly the issued code matches, and only strictly before now + 600000 ms rounded to the whole second the column keeps; no other field changes |
| UserStore.Verified | backend/models/userModel.js:180-186 | verifying sets the verified flag and clears the code so that no code matches any more; no other field changes |
| UserStore.WithResetToken | backend/models/userModel.js:91-98 | after issuing, exactly the stored hash matches, and only strictly before now + 3600000 ms rounded to the whole second the column keeps; no other field changes |
| UserStore.WithPassword | backend/models/userModel.js:113-119 | the password is replaced and the reset fields are cleared so that no token matches; no other field changes |
| UserStore.SlugAssigned | backend/models/userModel.js:129-150 | slug assignment keeps every other row and every other field of the target row, and gives the target the chosen slug |
| UserStore.SlugAssignedKeepsValid | backend/models/userModel.js:141-149 | slug assignment keeps non-null slugs and emails unique |
| UserStore.OwnRowCountsAsCollision | backend/models/userModel.js:9-18 | a row inserted with its base slug counts as its own collision and ends up with base-N, N >= 1 |
| UserStore.Users.constructor | backend/migrations/20250115185159_create_users_table.js:2 | the table starts empty |
| UserStore.Users.Create | backend/models/userModel.js:7-37 | an insert rejected by a constraint changes nothing; an empty email leaves the row inserted and fails; otherwise the inserted row is returned as first stored, and the table then holds it with its probed slug |
| UserStore.Users.GenerateUniqueSlug | backend/models/userModel.js:122-151 | the probe loop leaves the table as the slug-assignment specification says, with the smallest free suffix of the normalised name |
| UserStore.Users.CreateAccountVerificationOtp | backend/models/userModel.js:154-170 | the returned code is six digits with value in [100000, 999999], and it is stored with its expiry on that user only |
| UserStore.Users.FindUserByOtp | backend/models/userModel.js:172-178 | a stored record is found whose code equals the input and whose expiry is after now; none is found iff no record matches |
| UserStore.Users.VerifyUserAccount | backend/models/userModel.js:180-186 | only that user changes, to verified with the code cleared |
| UserStore.Users.CreatePasswordResetToken | backend/models/userModel.js:78-101 | an empty or unknown email fails with nothing changed; otherwise a 64-character lower-hex token is returned and only its hash is stored, with an expiry an hour ahead, on the user with that email |
| UserStore.Users.FindUserByResetToken | backend/models/userModel.js:104-110 | a stored record is found whose token hash equals the input and whose expiry is after now; none is found iff no record matches |
| UserStore.Users.UpdatePassword | backend/models/userModel.js:113-119 | only that user changes, to the new password with the reset fields cleared |
| ReportStore.NewReportRow | backend/models/reportModel.js:7-32 | creation fails iff school name, images or issue types are missing or the status or privacy is outside its enum; otherwise status defaults to pending, privacy to public, and images and issue types are stored comma-joined |
| ReportStore.ImagesRoundTrip | backend/models/reportModel.js:23 | the stored image list splits back into the submitted one when no URL contains a comma |
| ReportStore.InsertReport | backend/migrations/20250116094930_create_reports_table.js:3-15 | an insert succeeds iff the id and slug are unused and the owner exists; it appends exactly that row and keeps ids and slugs unique and owners present |
| ReportStore.WithSlug | backend/models/reportModel.js:71-80 | only the slug of rows with the given id changes |
| ReportStore.ReportSlugAssignedKeepsValid | backend/models/reportModel.js:55-82 | report slug assignment keeps ids and slugs unique and owners present |
| ReportStore.InsertedRowNeverKeepsBase | backend/models/reportModel.js:19-45 | a report inserted with its base slug always ends up with base-N, N >= 1, and otherwise unchanged |
| ReportStore.WithStatus | backend/models/reportModel.js:85-88 | every listed report gets the new status and every other report is unchanged |
| ReportStore.Listed | backend/models/reportModel.js:90 | the re-read holds exactly the rows whose id is listed |
| ReportStore.StatusUpdateOutcome | backend/models/reportModel.js:85-91 | after a bulk update every re-read row has the new status, unlisted rows are untouched, and validity is kept |
| ReportStore.StatusUpdateIdempotent | backend/models/reportModel.js:85-88 | applying the same bulk update twice is applying it once |
| ReportStore.FindReport | backend/models/reportModel.js:168-175 | a report is found iff one has that id, and it is a stored row with that id |
| ReportStore.Replace | backend/models/reportModel.js:188-191 | the rows with the given id become the new row and every other row is unchanged |
| ReportStore.ReplaceKeepsValid | backend/models/reportModel.js:188-196 | a write-back that clashes with no other row keeps ids and slugs unique and owners present |
| ReportStore.Reports.constructor | backend/migrations/20250116094930_create_reports_table.js:2 | the table starts empty |
| ReportStore.Reports.CreateReport | backend/models/reportModel.js:7-52 | bad input or a constraint violation changes nothing; otherwise the created row is returned as first read and the table gains exactly that row, with its slug suffixed by some N >= 1 |
| ReportStore.Reports.GenerateUniqueSlug | backend/models/reportModel.js:55-82 | the probe loop leaves the table as the slug-assignment specification says, with the smallest free suffix of slugify(schoolName) |
| ReportStore.Reports.UpdateStatus | backend/models/reportModel.js:85-95 | "approve" approves every listed report, any other action disapproves them; the result is the listed rows after the update |
| ReportStore.Reports.UpdateReport | backend/models/reportModel.js:188-196 | an unknown id changes nothing and returns nothing; a clashing write fails; otherwise the row is replaced and re-read |
| ReportQueries.Select | backend/models/reportModel.js:114-128 | the selection keeps exactly the rows matching the filters, and no more rows than the table |
| ReportQueries.Matches | backend/models/reportModel.js:117-128 | with every filter missing or "all", every row passes |
| ReportQueries.FilterOffWidens | backend/models/reportModel.js:117-128 | switching any one filter to "all" never loses a row that passed |
| ReportQueries.NoFiltersSelectEverything | backend/models/reportModel.js:117-128 | with every filter "all", nothing is filtered out |
| ReportQueries.StatusFilterByList | backend/models/reportModel.js:120-122 | an active status filter keeps a row iff its status is one of the comma-separated names |
| ReportQueries.InsertByAge | backend/models/reportModel.js:114 | inserting into a newest-first list keeps it newest first and adds exactly that row |
| ReportQueries.NewestFirst | backend/models/reportModel.js:114 | `orderBy created_at desc` yields a newest-first permutation of its input |
| ReportQueries.NewestFirstUnique | backend/models/reportModel.js:114 | two newest-first arrangements of the same rows, no two sharing a timestamp, are equal |
| ReportQueries.SortedSelectionDetermined | backend/models/reportModel.js:114-128 | when no two reports share a timestamp, every newest-first arrangement of the matching reports the database could return is the model's sorted selection |
| ReportQueries.PrefixIsNewest | backend/models/reportModel.js:100-103 | in a newest-first list, every row of a prefix is at least as new as every row after it |
| ReportQueries.LatestReports | backend/models/reportModel.js:98-109 | the latest reports are min(10, n) rows, newest first, drawn from the table, and none left out is newer than one kept |
| ReportQueries.FilterReports | backend/models/reportModel.js:112-165 | a negative page offset or limit fails; otherwise the page is the window at (page-1)*limit of the sorted selection, at most limit rows that all match, with the full match count and pages = ceil(count/limit) |
| ReportQueries.SortedSelectionMatches | backend/models/reportModel.js:114-131 | every row of the sorted selection is a table row that matches the filters |
| ReportQueries.Window | backend/models/reportModel.js:131 | `limit(limit).offset(offset)` takes at most limit rows, in order, starting at the offset |
| ReportQueries.PageCount | backend/models/reportModel.js:159 | the page count is the least number of pages of the given size that hold every match |
| ReportQueries.EveryMatchIsOnAPage | backend/models/reportModel.js:130-131 | the match at sorted position q*limit+m is row m of page q+1 |
| ReportQueries.WindowPosition | backend/models/reportModel.js:131 | position m of a page is position offset+m of the sorted selection |
| ReportQueries.NonEmptyPageIsCounted | backend/models/reportModel.js:156-159 | every page that holds a match is within the reported page count |
| ReportQueries.PagePosition | backend/models/reportModel.js:159 | a position below the count lies on a page below the page count |
| ReportQueries.ExportReturnsEverything | backend/routes/reportRoutes.js:140 | with no filters, page 1 and limit 10000, a table of at most 10000 reports comes back whole |
| Access.GenerateToken | backend/utils.js:5-21 | the lifetime is 2h iff the user is an admin and 24h otherwise; the claims are the record's id, names, image, email, admin flag and role |
| Access.TokenOf | backend/utils.js:27 | the token is the header minus its first seven characters, and empty for shorter headers |
| Access.IsAuth | backend/utils.js:24-66 | no header gives NoToken, a token the key rejects gives BadToken, an unknown id gives UnknownUser, and success carries the stored record |
| Access.PrefixNotChecked | backend/utils.js:27 | any seven characters before the token work like "Bearer " |
| Access.IdentityComesFromStore | backend/utils.js:39-55 | a token authenticates as the record stored now under its id, not as its claims |
| Access.FlagsNotChecked | backend/utils.js:39-55 | blocked and unverified users pass `isAuth` |
| Access.IsAdmin | backend/utils.js:69-77 | a request with no user attached never passes |
| Access.AuthorizeRoles | backend/utils.js:80-91 | a request with no user attached, or an empty role list, never passes |
| Access.FlagAndRoleIndependent | backend/utils.js:69-91 | `isAdmin` depends on the admin flag and not the role, `authorizeRoles` on the role and not the flag, and listing more roles never refuses a user who passed |
| Access.AuthGate | backend/utils.js:24-66 | `isAuth` answers 401 or 404, and lets the request through iff it authenticates |
| Access.AdminGate | backend/utils.js:69-77 | `isAuth`'s refusal passes through unchanged, an authenticated non-admin gets exactly 403, and the chain passes iff `isAuth` passes and the stored user is an admin |
| Access.ListUsersGate | backend/routes/userRoutes.js:748-752 | the admin chain's refusal passes through unchanged; past it, the caller passes iff the role is admin or teacher, else exactly 403 |
| Access.ListUsersGateExact | backend/utils.js:80-91 | the user list is served iff the caller authenticates, is an admin, and has role admin or teacher |
| UserRoutes.AdminSignupRole | backend/routes/userRoutes.js:30-35 | the first account becomes an admin; later ones take the requested role or user, and are admins iff that role is admin |
| UserRoutes.FirstAccountIsAdmin | backend/routes/userRoutes.js:30-35 | admin signup makes an admin iff the table is empty or admin was requested |
| UserRoutes.AdminSignupData | backend/routes/userRoutes.js:28-45 | the admin-signup record has the body's email and the hashed password; it is accepted iff the chosen role is in the enum, and is then stored with the chosen role and admin flag, not blocked and not verified |
| UserRoutes.SignupData | backend/routes/userRoutes.js:143-152 | public signup always creates a plain user: role user, not admin, not blocked, not verified |
| UserRoutes.AddUserData | backend/routes/userRoutes.js:243-258 | for a role that is absent or a string, an added user is accepted iff the role is absent or in the enum, and is not an admin, not blocked and not verified (a JSON null role is under "Left out") |
| UserRoutes.SignupWith | backend/routes/userRoutes.js:127-174 | an empty email gives 500; 400 iff the email is taken; 201 iff the insert succeeds, and then the table holds the inserted row with its probed slug and nothing else changed; a rejected insert gives 500; any answer but 201 leaves the table unchanged |
| UserRoutes.AdminSignup | backend/routes/userRoutes.js:14-64 | 400 iff the email is taken; 201 iff the insert succeeds, and then the user was created with the admin-signup role choice and its probed slug; otherwise 500; anything but 201 changes nothing |
| UserRoutes.Signup | backend/routes/userRoutes.js:127-174 | 400 iff the email is taken; 201 iff the insert succeeds, and then a plain, unverified user was created with its probed slug; otherwise 500; anything but 201 changes nothing |
| UserRoutes.AddUser | backend/routes/userRoutes.js:234-470 | the admin chain's refusal passes through with no change; past it, 400 iff the email is taken, and an empty email or a rejected insert gives 500, all with no change; otherwise the table gains the user built from the body (requested role, hashed password, probed slug) carrying a six-digit code, and the answer is 201 iff the mail was sent, else 500 |
| UserRoutes.Signin | backend/routes/userRoutes.js:178-229 | an empty email gives 500 and an unknown one 401; for the user with that email, 403 if blocked, else 401 if unverified, else 401 on a wrong password, else success with generateToken of the stored record. The same checks serve /admin/signin (lines 69-122) |
| UserRoutes.SigninFlagsBeforePassword | backend/routes/userRoutes.js:185-223 | a blocked user gets 403 and an unverified one 401 whatever the password |
| UserRoutes.RequestOtp | backend/routes/userRoutes.js:476-706 | a malformed or unknown email gives 400 with no change; otherwise a fresh six-digit code is stored for that user, 200 or 500 depending on the mail |
| UserRoutes.VerifyOtp | backend/routes/userRoutes.js:711-743 | a code that is not six digits, or matches no unexpired code, gives 400 with no change; 200 iff one matches, and then that user is verified |
| UserRoutes.OtpFormatOk | backend/routes/userRoutes.js:718 | a code is well-formed iff it is exactly six ASCII digits |
| UserRoutes.OtpSingleUse | backend/models/userModel.js:154-186 | an issued code matches exactly until its stored expiry: always until half a second before ten minutes are up, never from half a second after, and never again once the account is verified |
| UserRoutes.RequestPasswordReset | backend/routes/userRoutes.js:865-1080 | an unknown email gives 400 with no change; a known one stores the hash of a fresh 64-character token, 200 or the error path depending on the mail |
| UserRoutes.ResetPassword | backend/routes/userRoutes.js:1085-1318 | no unexpired token hash gives 400 with no change; 400 otherwise only when a matching user's current password is the new one; when no matching user's password is, the reset succeeds with 200, or 500 if the mail fails, and only that user's password is replaced and the reset cleared |
| UserRoutes.ResetTokenSingleUse | backend/models/userModel.js:91-119 | a reset token matches exactly until its stored expiry: always until half a second before the hour is up, never from half a second after, and never again once the password is replaced |
| ReportRoutes.CreateReportRoute | backend/routes/reportRoutes.js:11-38 | the auth refusal passes through and an unverified user gets 403, both with no change; for a verified caller, 201 iff the report is well-formed and the insert succeeds, and then the table is the old one plus that report, owned by the caller, with its probed slug; every other answer is 500 with no change |
| ReportRoutes.ReportData | backend/routes/reportRoutes.js:24-28 | the stored body is the request body with the caller as owner and privacy defaulted to "public", and nothing else changed |
| ReportRoutes.PrivacyDefaultOnce | backend/routes/reportRoutes.js:27 | the route's privacy default and the model's agree, and neither is empty |
| ReportRoutes.BulkRequestCheck | backend/routes/reportRoutes.js:50-60 | the request passes iff the ids are an array and the action is approve or disapprove; otherwise 400 |
| ReportRoutes.UpdateStatusRoute | backend/routes/reportRoutes.js:43-74 | admins only; a malformed request gives 400 with no change; otherwise every listed report gets the action's status whatever it had, and the count of listed rows is returned |
| ReportRoutes.StatusChange | backend/routes/reportRoutes.js:221-236 | an unknown report gives 404, one already in the target status 400, otherwise the report with only its status changed |
| ReportRoutes.SetReportStatus | backend/routes/reportRoutes.js:215-272 | admins only; 404 and 400 change nothing; otherwise the report is written back with the target status and 200 |
| ReportRoutes.WriteBackAccepted | backend/routes/reportRoutes.js:228-231 | writing back a stored report with another status clashes with no constraint |
| ReportRoutes.StatusChangeIsLocal | backend/routes/reportRoutes.js:252-263 | approve or disapprove changes that report's status only |
| ReportRoutes.FiltersOf | backend/routes/reportRoutes.js:99-104 | each filter is the query value when present and non-empty, else "all" |
| ReportRoutes.NumberOr | backend/routes/reportRoutes.js:105-106 | a NaN or zero page or limit takes its default, any other number is kept |
| ReportRoutes.FiltersRoute | backend/routes/reportRoutes.js:94-120 | 500 iff the defaulted page or limit is negative; otherwise exactly the `filterReports` page for the defaulted filters, page and limit: the window at (page-1)*limit of the newest-first matches, with their full count; with no page or limit, page 1 of at most 10 reports |
| ReportRoutes.ExportRoute | backend/routes/reportRoutes.js:125-147 | admins only; otherwise the first min(10000, matches) reports of the newest-first selection, all of them matching the filters |
| ReportRoutes.ExportWithoutFiltersIsComplete | backend/routes/reportRoutes.js:125-147 | an unfiltered export of at most 10000 reports holds every report |

## Left out

- Integer widths: ids, counters, timestamps and counts are unbounded integers. No overflow can occur at the table sizes involved.
- `slugify` is a parameter. Only the slug of the first insert goes through it; the users' probe uses the normaliser written out in `userModel.js`.
- The normaliser models `toLowerCase` on ASCII only. Other characters are neither lower-cased nor expanded.
- `\w` is the ASCII word class, as in JavaScript regular expressions without the `u` flag.
- MySQL compares strings case- and accent-insensitively under its default collation (`utf8mb4_0900_ai_ci`), so "José@x.y" and "jose@x.y" clash on the unique email index. The model compares exactly, for emails, slugs, statuses and the `LIKE` search.
- Schema.RoleFromName, Schema.StatusFromName and Schema.PrivacyFromName accept only the lower-case names. MySQL's `enum` columns accept any letter case and store the canonical name, so a request with role "Admin" is a 500 in the model where the database would store role admin (and `/admin/signup` would then leave is_admin false).
- ReportQueries.NewestFirst keeps rows with the same `created_at` in table order. The database may return such rows in any order, and `created_at` has whole-second precision. ReportQueries.SortedSelectionDetermined shows that the order is fixed when no two reports share a timestamp.
- ReportQueries.EveryMatchIsOnAPage speaks of the model's tie order. With repeated timestamps, separate page queries may order ties differently, so the database may repeat or skip a match across pages.
- `LIKE` wildcards `%` and `_` inside the search text are not interpreted.
- ReportQueries.FilterReports: only a single issue-type value is modelled, so the filter requires one without a comma. How a list binds to the one `FIND_IN_SET` placeholder is library-defined.
- ReportQueries.FilterReports: a limit of 0 is excluded. The route turns 0 into 10, and JavaScript's division by zero would give Infinity pages.
- ReportRoutes.FiltersRoute and ReportRoutes.ExportRoute take the issue-type filter's no-comma requirement from ReportQueries.FilterReports.
- The route receives what `parseInt` made of the page and limit as an optional integer. The digit scanning itself is not modelled.
- The insert-then-probe race between concurrent requests is not modelled, because the model is sequential. The unique index on `slug` is the real backstop.
- Failures of the database connection are not modelled, and neither are the 500 answers they cause. Only constraint violations fail an insert or update.
- Mail bodies, HTML templates and the SMTP transport are left out. A mail send is the boolean `mailSent`.
- Uploads, the general and email routes, and the server wiring are not part of this model. So is the uploads migration.
- The user columns that no core operation reads are not part of the user record: middle_name, phone, gender, dob, address, city, state, the parent fields, last_login and deleted_at.
- Times are integers in milliseconds. The two expiry columns store whole seconds, rounded (Schema.StoredTime). The reports' `created_at` is the database clock at insert, passed in as `now`. Time zones are not modelled. Neither are users' `created_at` and `updated_at`, which no core operation reads.
- bcrypt's salted hashing is a deterministic function `hash`, checked with `compare`. SHA-256 and JWT signing and verification are uninterpreted functions. A token's expiry is folded into `verify`.
- The `"somethingsecret"` fallback key and Express route-matching order are configuration, not logic.
- Logging of passwords and tokens is not modelled.
- `getReportBySlug`, `updateReport` as its own route, `deleteReport`, and the user profile, lookup, list and delete handlers are not part of this model. `GET /` on users is modelled only through its middleware chain.
- `findOne`, `findAll`, `updateUser` and `isPasswordMatch` appear only as the table reads and the `compare` parameter the routes use.
- `/:id/reset-password` ignores its `:id`. The model's `ResetPassword` has no id parameter for that reason.
- A missing first or last name is not modelled, because those columns are non-null. Names are plain strings.
- A missing or non-string email is the empty string.
- UserRoutes.AddUser: a JSON `null` role is not modelled. The `role` column has a default but no NOT NULL, so `/add-user` with `"role": null` stores a user whose role is NULL; the model's role is always one of the four names, and the same holds for the three user flags.
- ReportRoutes.FiltersRoute and ReportRoutes.ExportRoute: a repeated query key, such as `?status=a&status=b`, arrives as an array; `split` then throws and the service answers 500. The model's query values are single strings.
- UserRoutes.AdminSignup and UserRoutes.Signup: the reply body, a token from `generateToken` of the created row, is not returned by the model, which states the status and the new table. Sign-in's token is modelled in UserRoutes.Signin.
- A missing or non-string `password` is not modelled: passwords are strings. In the service, bcrypt's `hash` or `compare` then throws and the answer is 500, on /signup, /admin/signup, /signin, /add-user and /:id/reset-password.
- A missing reset `token` is not modelled: tokens are strings. In the service, hashing `undefined` throws outside the handler's try and the answer is 500.
- Column lengths are not modelled. Every `string` column is `varchar(255)`, so a longer name, email or school name makes the insert fail with a 500, while Schema.InsertUser and ReportStore.InsertReport accept any length.
- Access.IsAuth: for a header of at most seven characters the token is empty, and the outcome is whatever `verify("")` gives. The model leaves `verify` unconstrained there; jsonwebtoken refuses an empty token, which gives 401.
- UserRoutes.AddUser: the mail text is not modelled. A failed send answers 500 after the user and code are stored, as in the route.
- UserRoutes.ResetPassword: `.first()` takes one of the rows holding the unexpired token hash, in an order the database leaves unspecified. The contract holds for any pick, so when several rows match it does not say which one changes.
