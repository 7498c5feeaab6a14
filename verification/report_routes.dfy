/**
 * The guard sequences of the report routes: report creation, the bulk status
 * update, approve and disapprove, and the parameter defaults of `/filters`
 * and `/export`. The callers' identities come from the `Access` gates over
 * the users table `users`; the ids of its rows are the owners a report may
 * reference.
 */
module ReportRoutes {
  import opened Basics
  import opened Text
  import opened Schema
  import opened Access
  import opened ReportStore
  import opened ReportQueries

  /**
   * `POST /`: any authenticated user; 403 unless the account is verified.
   * The report is owned by the caller, privacy defaults to "public", and
   * every other field, status included, is taken from the body. A thrown
   * error answers 500.
   */
  method CreateReportRoute(reports: Reports, users: map<Id, UserRow>, header: Option<string>,
                           verify: string -> Option<Claims>, body: NewReport, id: Id, now: int,
                           slugify: string -> string)
    returns (status: int)
    requires reports.Valid()
    modifies reports
    ensures reports.Valid()
    ensures OwnersExist(old(reports.rows), users.Keys) ==> OwnersExist(reports.rows, users.Keys)
    ensures AuthGate(header, verify, users).Reject? ==>
      status == AuthGate(header, verify, users).status && reports.rows == old(reports.rows)
    ensures AuthGate(header, verify, users).Pass? && !AuthGate(header, verify, users).user.isAccountVerified ==>
      status == 403 && reports.rows == old(reports.rows)
    ensures status == 201 ==>
      && AuthGate(header, verify, users).Pass?
      && |reports.rows| == |old(reports.rows)| + 1
      && var row := reports.rows[|old(reports.rows)|];
         && row.userId == Some(AuthGate(header, verify, users).user.id)
         && StatusName(row.status) == Fallback(body.status, "pending")
         && PrivacyName(row.privacyPreference) == Fallback(body.privacyPreference, "public")
    ensures status in {201, 401, 403, 404, 500}
    ensures AuthGate(header, verify, users).Pass? && AuthGate(header, verify, users).user.isAccountVerified ==>
      var made := NewReportRow(id, ReportData(body, AuthGate(header, verify, users).user.id), now, slugify);
      && (status == 201 <==> made.Ok? && InsertReport(old(reports.rows), made.value, users.Keys).Ok?)
      && (status == 201 ==> reports.rows == ReportSlugAssigned(old(reports.rows) + [made.value], id, made.value.slug))
      && (status != 201 ==> status == 500 && reports.rows == old(reports.rows))
  {
    var gate := AuthGate(header, verify, users);
    if gate.Reject? {
      return gate.status;
    }
    if !gate.user.isAccountVerified {
      return 403;
    }
    var data := ReportData(body, gate.user.id);
    var created := reports.CreateReport(data, id, now, users.Keys, slugify);
    if created.Err? {
      return 500;
    }
    status := 201;
  }

  /** The body as the route hands it on: owned by the caller, privacy defaulted to "public", the rest untouched. */
  function ReportData(body: NewReport, owner: Id): (data: NewReport)
    ensures data.userId == Some(owner)
    ensures data.privacyPreference == Some(Fallback(body.privacyPreference, "public"))
    ensures data.(userId := body.userId, privacyPreference := body.privacyPreference) == body
  {
    body.(userId := Some(owner), privacyPreference := Some(Fallback(body.privacyPreference, "public")))
  }

  /** The route's privacy default and the model's agree: applying both is applying one. */
  lemma PrivacyDefaultOnce(p: Option<string>)
    ensures Fallback(Some(Fallback(p, "public")), "public") == Fallback(p, "public")
    ensures Fallback(p, "public") != ""
  {
  }

  /** `req.body.reportIds`: absent, present but not an array, or an array. */
  datatype IdsField = Missing | NotArray | IdArray(ids: seq<Id>)

  /** The checks of `/update-status` before the update: ids an array, an action, and one of the two actions. */
  function BulkRequestCheck(ids: IdsField, action: Option<string>): (r: Option<int>)
    ensures r.Some? ==> r.value == 400
    ensures r.None? <==> ids.IdArray? && action.Some? && action.value in {"approve", "disapprove"}
  {
    if !ids.IdArray? || action.None? || action.value == "" then Some(400)
    else if action.value !in {"approve", "disapprove"} then Some(400)
    else None
  }

  /**
   * `PUT /update-status`: admins only; 400 for a malformed request, else
   * every listed report gets the action's status, whatever it had (200 and
   * the number of reports found).
   */
  method UpdateStatusRoute(reports: Reports, users: map<Id, UserRow>, header: Option<string>,
                           verify: string -> Option<Claims>, ids: IdsField, action: Option<string>)
    returns (status: int, count: nat)
    requires reports.Valid()
    modifies reports
    ensures reports.Valid()
    ensures AdminGate(header, verify, users).Reject? ==>
      status == AdminGate(header, verify, users).status && reports.rows == old(reports.rows)
    ensures AdminGate(header, verify, users).Pass? && BulkRequestCheck(ids, action).Some? ==>
      status == 400 && reports.rows == old(reports.rows)
    ensures AdminGate(header, verify, users).Pass? && BulkRequestCheck(ids, action).None? ==>
      && status == 200
      && reports.rows == WithStatus(old(reports.rows), ids.ids, if action.value == "approve" then Approved else Disapproved)
      && count == |Listed(reports.rows, ids.ids)|
  {
    count := 0;
    var gate := AdminGate(header, verify, users);
    if gate.Reject? {
      return gate.status, 0;
    }
    var invalid := BulkRequestCheck(ids, action);
    if invalid.Some? {
      return invalid.value, 0;
    }
    var updated := reports.UpdateStatus(ids.ids, action.value);
    status, count := 200, |updated|;
  }

  /** The single-report transition of `/:id/approve` and `/:id/disapprove`. */
  function StatusChange(current: Option<ReportRow>, target: ReportStatus): (r: Result<ReportRow, int>)
    ensures current.None? ==> r == Err(404)
    ensures current.Some? && current.value.status == target ==> r == Err(400)
    ensures current.Some? && current.value.status != target ==> r == Ok(current.value.(status := target))
  {
    if current.None? then Err(404)
    else if current.value.status == target then Err(400)
    else Ok(current.value.(status := target))
  }

  /**
   * `PUT /:id/approve` (target Approved) and `PUT /:id/disapprove` (target
   * Disapproved): admins only; 404 for an unknown report, 400 when it already
   * has the target status, else the report is written back with only its
   * status changed (200).
   */
  method SetReportStatus(reports: Reports, users: map<Id, UserRow>, header: Option<string>,
                         verify: string -> Option<Claims>, id: Id, target: ReportStatus)
    returns (status: int)
    requires reports.Valid() && OwnersExist(reports.rows, users.Keys)
    requires target != Pending
    modifies reports
    ensures reports.Valid() && OwnersExist(reports.rows, users.Keys)
    ensures AdminGate(header, verify, users).Reject? ==>
      status == AdminGate(header, verify, users).status && reports.rows == old(reports.rows)
    ensures AdminGate(header, verify, users).Pass? ==>
      var change := StatusChange(FindReport(old(reports.rows), id), target);
      && (change.Err? ==> status == change.error && reports.rows == old(reports.rows))
      && (change.Ok? ==> status == 200 && reports.rows == Replace(old(reports.rows), id, change.value))
  {
    var gate := AdminGate(header, verify, users);
    if gate.Reject? {
      return gate.status;
    }
    var current := FindReport(reports.rows, id);
    var change := StatusChange(current, target);
    if change.Err? {
      return change.error;
    }
    WriteBackAccepted(reports.rows, id, change.value, users.Keys);
    var written := reports.UpdateReport(id, change.value, users.Keys);
    status := 200;
  }

  /** Writing back a stored report with a new status conflicts with nothing in a valid table. */
  lemma WriteBackAccepted(rows: seq<ReportRow>, id: Id, row: ReportRow, owners: set<Id>)
    requires ReportsValid(rows) && OwnersExist(rows, owners)
    requires FindReport(rows, id).Some? && row == FindReport(rows, id).value.(status := row.status)
    ensures IdTaken(rows, id) && !UpdateConflicts(rows, id, row, owners)
  {
    var stored := FindReport(rows, id).value;
    var k :| 0 <= k < |rows| && rows[k] == stored;
    assert stored.userId.Some? ==> stored.userId.value in owners;
  }

  /** An approve or disapprove changes the status of that one report and nothing else. */
  lemma StatusChangeIsLocal(rows: seq<ReportRow>, id: Id, target: ReportStatus)
    requires ReportsValid(rows)
    requires StatusChange(FindReport(rows, id), target).Ok?
    ensures var after := Replace(rows, id, StatusChange(FindReport(rows, id), target).value);
      && |after| == |rows|
      && (forall i | 0 <= i < |rows| :: after[i].(status := rows[i].status) == rows[i])
      && (forall i | 0 <= i < |rows| && rows[i].id != id :: after[i] == rows[i])
      && (forall i | 0 <= i < |rows| && rows[i].id == id :: after[i].status == target)
  {
    var stored := FindReport(rows, id).value;
    forall i | 0 <= i < |rows| && rows[i].id == id ensures rows[i] == stored {
      var k :| 0 <= k < |rows| && rows[k] == stored;
      assert rows[k].id == rows[i].id;
    }
  }

  /** The query string of `/filters` and `/export`; `page` and `limit` are what `parseInt` made of them (None for NaN). */
  datatype FilterQuery = FilterQuery(
    searchQuery: Option<string>,
    status: Option<string>,
    issueType: Option<string>,
    privacyPreference: Option<string>,
    page: Option<int>,
    limit: Option<int>)

  /** `query.x || "all"` for each filter. */
  function FiltersOf(q: FilterQuery): (f: Filters)
    ensures Active(f.searchQuery) <==> Active(Fallback(q.searchQuery, "all"))
    ensures f.searchQuery != "" && f.status != "" && f.issueType != "" && f.privacyPreference != ""
    ensures f.searchQuery == (if q.searchQuery.Some? && q.searchQuery.value != "" then q.searchQuery.value else "all")
    ensures f.status == (if q.status.Some? && q.status.value != "" then q.status.value else "all")
    ensures f.issueType == (if q.issueType.Some? && q.issueType.value != "" then q.issueType.value else "all")
    ensures f.privacyPreference ==
      (if q.privacyPreference.Some? && q.privacyPreference.value != "" then q.privacyPreference.value else "all")
  {
    Filters(Fallback(q.searchQuery, "all"), Fallback(q.status, "all"),
            Fallback(q.issueType, "all"), Fallback(q.privacyPreference, "all"))
  }

  /** `parseInt(x) || fallback`: NaN and 0 both take the fallback. */
  function NumberOr(n: Option<int>, fallback: int): (r: int)
    ensures r != 0 || fallback == 0
    ensures n.Some? && n.value != 0 ==> r == n.value
    ensures n.None? || n.value == 0 ==> r == fallback
  {
    if n.Some? && n.value != 0 then n.value else fallback
  }

  /** `GET /filters`: the defaulted parameters handed to `filterReports`; an error from it answers 500. */
  function FiltersRoute(rows: seq<ReportRow>, q: FilterQuery): (r: Result<Page, int>)
    requires Active(Fallback(q.issueType, "all")) ==> ',' !in Fallback(q.issueType, "all")
    ensures r.Err? <==> NumberOr(q.page, 1) < 0 || NumberOr(q.limit, 10) < 0
    ensures r.Err? ==> r.error == 500
    ensures q.page.None? && q.limit.None? ==> r.Ok? && r.value.page == 1 && |r.value.reports| <= 10
    ensures r.Ok? ==>
      && r.value == FilterReports(rows, FiltersOf(q), NumberOr(q.page, 1), NumberOr(q.limit, 10)).value
      && r.value.countReports == |Select(rows, FiltersOf(q))|
      && PageHolds(r.value.reports, NewestFirst(Select(rows, FiltersOf(q))),
                   Offset(NumberOr(q.page, 1), NumberOr(q.limit, 10)), NumberOr(q.limit, 10))
  {
    var page := NumberOr(q.page, 1);
    var limit := NumberOr(q.limit, 10);
    var result := FilterReports(rows, FiltersOf(q), page, limit);
    if result.Err? then Err(500) else Ok(result.value)
  }

  /** `GET /export`: admins only; the first 10000 matching reports, newest first. */
  function ExportRoute(rows: seq<ReportRow>, users: map<Id, UserRow>, header: Option<string>,
                       verify: string -> Option<Claims>, q: FilterQuery): (r: Result<seq<ReportRow>, int>)
    requires Active(Fallback(q.issueType, "all")) ==> ',' !in Fallback(q.issueType, "all")
    ensures AdminGate(header, verify, users).Reject? ==> r == Err(AdminGate(header, verify, users).status)
    ensures AdminGate(header, verify, users).Pass? ==> r.Ok? && |r.value| <= 10000
    ensures r.Ok? ==> forall x | x in r.value :: x in rows && Matches(x, FiltersOf(q))
    ensures r.Ok? ==> NewestFirstOrder(r.value) && PageHolds(r.value, NewestFirst(Select(rows, FiltersOf(q))), 0, 10000)
  {
    var gate := AdminGate(header, verify, users);
    if gate.Reject? then Err(gate.status)
    else
      assert Offset(1, 10000) == 0;
      Ok(FilterReports(rows, FiltersOf(q), 1, 10000).value.reports)
  }

  /** With no filter parameters and at most 10000 reports, the export holds every report. */
  lemma ExportWithoutFiltersIsComplete(rows: seq<ReportRow>, users: map<Id, UserRow>, header: Option<string>,
                                       verify: string -> Option<Claims>)
    requires |rows| <= 10000 && AdminGate(header, verify, users).Pass?
    ensures var q := FilterQuery(None, None, None, None, None, None);
      multiset(ExportRoute(rows, users, header, verify, q).value) == multiset(rows)
  {
    assert FiltersOf(FilterQuery(None, None, None, None, None, None)) == NoFilters;
    ExportReturnsEverything(rows);
  }
}
