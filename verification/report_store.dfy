/**
 * `ReportModel`'s writes: the `reports` table as a sequence of rows in scan
 * order, report creation with its column defaults, the unique-slug probe
 * loop, the bulk status update, and the lookup and write-back the approve and
 * disapprove routes use. slugify is a parameter, the insert time is `now`,
 * and the ids of existing users (for the foreign key) are `owners`.
 */
module ReportStore {
  import opened Basics
  import opened Text
  import opened Schema
  import opened Slugs

  /** The object handed to `createReport`; an absent field is None. */
  datatype NewReport = NewReport(
    schoolName: Option<string>,
    images: Option<seq<string>>,
    video: Option<string>,
    status: Option<string>,
    schoolLocation: Option<string>,
    issueType: Option<seq<string>>,
    description: Option<string>,
    comment: Option<string>,
    userId: Option<Id>,
    privacyPreference: Option<string>)

  /** Why `createReport` throws. */
  datatype ReportError =
    | BadInput             // slugify or `.join` applied to a missing field
    | Rejected(db: DbError)

  /** The row `createReport` inserts for `data`, or why it cannot be built or is refused by an enum column. */
  function NewReportRow(id: Id, data: NewReport, now: int, slugify: string -> string): (r: Result<ReportRow, ReportError>)
    ensures r == Err(BadInput) <==> data.schoolName.None? || data.images.None? || data.issueType.None?
    ensures r.Err? && r.error != BadInput ==> r.error == Rejected(NotInEnum)
    ensures r.Err? <==>
      || data.schoolName.None? || data.images.None? || data.issueType.None?
      || StatusFromName(Fallback(data.status, "pending")).None?
      || PrivacyFromName(Fallback(data.privacyPreference, "public")).None?
    ensures r.Ok? ==> var row := r.value;
      && row.id == id && row.schoolName == data.schoolName.value
      && row.slug == slugify(data.schoolName.value)
      && row.images == Join(data.images.value, ',')
      && row.issueType == Join(data.issueType.value, ',')
      && StatusName(row.status) == Fallback(data.status, "pending")
      && PrivacyName(row.privacyPreference) == Fallback(data.privacyPreference, "public")
      && row.video == data.video && row.schoolLocation == data.schoolLocation
      && row.description == data.description && row.comment == data.comment
      && row.userId == data.userId && row.createdAt == now
  {
    if data.schoolName.None? || data.images.None? || data.issueType.None? then Err(BadInput)
    else
      var status := StatusFromName(Fallback(data.status, "pending"));
      var privacy := PrivacyFromName(Fallback(data.privacyPreference, "public"));
      if status.None? || privacy.None? then Err(Rejected(NotInEnum))
      else Ok(ReportRow(id, data.schoolName.value, slugify(data.schoolName.value),
                        Join(data.images.value, ','), data.video, status.value, data.schoolLocation,
                        Join(data.issueType.value, ','), data.description, data.comment,
                        data.userId, privacy.value, now))
  }

  /** The stored `images` column splits back into the submitted list when no URL holds a comma. */
  lemma ImagesRoundTrip(id: Id, data: NewReport, now: int, slugify: string -> string)
    requires NewReportRow(id, data, now, slugify).Ok?
    requires |data.images.value| >= 1
    requires forall i :: 0 <= i < |data.images.value| ==> ',' !in data.images.value[i]
    ensures Split(NewReportRow(id, data, now, slugify).value.images, ',') == data.images.value
  {
    SplitJoin(data.images.value, ',');
  }

  /** The slugs held by reports. */
  function ReportSlugs(rows: seq<ReportRow>): set<string>
  {
    set i | 0 <= i < |rows| :: rows[i].slug
  }

  predicate IdTaken(rows: seq<ReportRow>, id: Id)
  {
    exists i | 0 <= i < |rows| :: rows[i].id == id
  }

  /** `insert` into `reports`: refused on a duplicate id or slug, or an owner that is not a user. */
  function InsertReport(rows: seq<ReportRow>, row: ReportRow, owners: set<Id>): (r: Result<seq<ReportRow>, DbError>)
    ensures r.Ok? <==>
      !IdTaken(rows, row.id) && row.slug !in ReportSlugs(rows) && (row.userId.Some? ==> row.userId.value in owners)
    ensures r.Ok? ==> r.value == rows + [row]
    ensures r.Ok? && ReportsValid(rows) ==> ReportsValid(r.value)
    ensures r.Ok? && OwnersExist(rows, owners) ==> OwnersExist(r.value, owners)
  {
    if IdTaken(rows, row.id) || row.slug in ReportSlugs(rows) then Err(DuplicateEntry)
    else if row.userId.Some? && row.userId.value !in owners then Err(MissingOwner)
    else
      assert forall k | 0 <= k < |rows| :: rows[k].slug in ReportSlugs(rows);
      Ok(rows + [row])
  }

  /** `update({ slug: s })` on the row(s) with id `id`. */
  function WithSlug(rows: seq<ReportRow>, id: Id, s: string): (r: seq<ReportRow>)
    ensures |r| == |rows|
    ensures forall i | 0 <= i < |rows| :: r[i] == if rows[i].id == id then rows[i].(slug := s) else rows[i]
  {
    seq(|rows|, i requires 0 <= i < |rows| => if rows[i].id == id then rows[i].(slug := s) else rows[i])
  }

  /** The table after `generateUniqueSlug(id, ...)` with base slug `base`. */
  function ReportSlugAssigned(rows: seq<ReportRow>, id: Id, base: string): seq<ReportRow>
  {
    WithSlug(rows, id, ChosenSlug(ReportSlugs(rows), base))
  }

  /** Slug assignment keeps ids and slugs unique and every owner reference intact. */
  lemma ReportSlugAssignedKeepsValid(rows: seq<ReportRow>, id: Id, base: string, owners: set<Id>)
    requires ReportsValid(rows)
    ensures ReportsValid(ReportSlugAssigned(rows, id, base))
    ensures OwnersExist(rows, owners) ==> OwnersExist(ReportSlugAssigned(rows, id, base), owners)
  {
    assert forall k | 0 <= k < |rows| :: rows[k].slug in ReportSlugs(rows);
  }

  /**
   * The quirk of `createReport`: the row is inserted with the base slug, so
   * the probe always finds it and the stored slug becomes `base-N`.
   */
  lemma InsertedRowNeverKeepsBase(rows: seq<ReportRow>, row: ReportRow)
    ensures var after := ReportSlugAssigned(rows + [row], row.id, row.slug);
      exists n: nat :: 1 <= n && after[|rows|] == row.(slug := Suffixed(row.slug, n))
  {
    var taken := ReportSlugs(rows + [row]);
    assert (rows + [row])[|rows|] == row;
    assert row.slug in taken;
    ChosenSlugIsSmallestFree(taken, row.slug);
  }

  /** `update({ status })` on every row whose id is listed. */
  function WithStatus(rows: seq<ReportRow>, ids: seq<Id>, status: ReportStatus): (r: seq<ReportRow>)
    ensures |r| == |rows|
    ensures forall i | 0 <= i < |rows| :: r[i] == if rows[i].id in ids then rows[i].(status := status) else rows[i]
  {
    seq(|rows|, i requires 0 <= i < |rows| => if rows[i].id in ids then rows[i].(status := status) else rows[i])
  }

  /** `whereIn("id", ids)`: the listed rows, in table order. */
  function Listed(rows: seq<ReportRow>, ids: seq<Id>): (r: seq<ReportRow>)
    ensures forall x :: x in r <==> x in rows && x.id in ids
    ensures |r| <= |rows|
  {
    if rows == [] then []
    else if rows[0].id in ids then [rows[0]] + Listed(rows[1..], ids)
    else Listed(rows[1..], ids)
  }

  /** After a bulk update, every row returned carries the new status and no other row changed. */
  lemma StatusUpdateOutcome(rows: seq<ReportRow>, ids: seq<Id>, status: ReportStatus)
    ensures forall x | x in Listed(WithStatus(rows, ids, status), ids) :: x.status == status
    ensures forall i | 0 <= i < |rows| && rows[i].id !in ids :: WithStatus(rows, ids, status)[i] == rows[i]
    ensures ReportsValid(rows) ==> ReportsValid(WithStatus(rows, ids, status))
  {
    var after := WithStatus(rows, ids, status);
    forall x | x in Listed(after, ids) ensures x.status == status {
      var i :| 0 <= i < |after| && after[i] == x;
    }
  }

  /** Applying the same bulk update twice changes nothing more. */
  lemma StatusUpdateIdempotent(rows: seq<ReportRow>, ids: seq<Id>, status: ReportStatus)
    ensures WithStatus(WithStatus(rows, ids, status), ids, status) == WithStatus(rows, ids, status)
  {
  }

  /** `getReportById`: the first row with that id, if any. */
  function FindReport(rows: seq<ReportRow>, id: Id): (r: Option<ReportRow>)
    ensures r.Some? <==> IdTaken(rows, id)
    ensures r.Some? ==> r.value in rows && r.value.id == id
  {
    if rows == [] then None
    else if rows[0].id == id then Some(rows[0])
    else
      var rest := FindReport(rows[1..], id);
      assert IdTaken(rows, id) <==> IdTaken(rows[1..], id) by {
        if IdTaken(rows, id) {
          var i :| 0 <= i < |rows| && rows[i].id == id;
          assert rows[1..][i - 1] == rows[i];
        }
        if IdTaken(rows[1..], id) {
          var i :| 0 <= i < |rows[1..]| && rows[1..][i].id == id;
          assert rows[i + 1] == rows[1..][i];
        }
      }
      rest
  }

  /** `update(row)` on the row(s) with id `id`: every column is overwritten. */
  function Replace(rows: seq<ReportRow>, id: Id, row: ReportRow): (r: seq<ReportRow>)
    ensures |r| == |rows|
    ensures forall i | 0 <= i < |rows| :: r[i] == if rows[i].id == id then row else rows[i]
  {
    seq(|rows|, i requires 0 <= i < |rows| => if rows[i].id == id then row else rows[i])
  }

  /** The write `updateReport(id, row)` would make clashes with another row's id or slug, or names no user. */
  predicate UpdateConflicts(rows: seq<ReportRow>, id: Id, row: ReportRow, owners: set<Id>)
  {
    || (exists i | 0 <= i < |rows| && rows[i].id != id :: rows[i].id == row.id || rows[i].slug == row.slug)
    || (row.userId.Some? && row.userId.value !in owners)
  }

  /** A write-back that the table accepts keeps it valid. */
  lemma ReplaceKeepsValid(rows: seq<ReportRow>, id: Id, row: ReportRow, owners: set<Id>)
    requires ReportsValid(rows) && !UpdateConflicts(rows, id, row, owners)
    ensures ReportsValid(Replace(rows, id, row))
    ensures OwnersExist(rows, owners) ==> OwnersExist(Replace(rows, id, row), owners)
  {
    var r := Replace(rows, id, row);
    forall i, j | 0 <= i < j < |r| ensures r[i].id != r[j].id && r[i].slug != r[j].slug {
      if rows[i].id == id && rows[j].id == id {
        assert false;
      }
    }
  }

  /** The `reports` table. */
  class Reports {
    var rows: seq<ReportRow>

    ghost predicate Valid()
      reads this
    {
      ReportsValid(rows)
    }

    constructor ()
      ensures Valid() && rows == []
    {
      rows := [];
    }

    /**
     * `createReport(reportData)`: build and insert the row with the slugified
     * school name as slug, then run `generateUniqueSlug`. The row returned is
     * the one read back after the insert, so its slug is the base while the
     * stored slug is `base-N`.
     */
    method CreateReport(data: NewReport, id: Id, now: int, owners: set<Id>, slugify: string -> string)
      returns (r: Result<ReportRow, ReportError>)
      requires Valid()
      modifies this
      ensures Valid()
      ensures OwnersExist(old(rows), owners) ==> OwnersExist(rows, owners)
      ensures var made := NewReportRow(id, data, now, slugify);
        && (made.Err? ==> r == Err(made.error) && rows == old(rows))
        && (made.Ok? && InsertReport(old(rows), made.value, owners).Err? ==>
              r == Err(Rejected(InsertReport(old(rows), made.value, owners).error)) && rows == old(rows))
        && (made.Ok? && InsertReport(old(rows), made.value, owners).Ok? ==>
              && r == Ok(made.value)
              && rows == ReportSlugAssigned(old(rows) + [made.value], id, made.value.slug))
      ensures r.Ok? ==> |rows| == |old(rows)| + 1 && rows[..|old(rows)|] == old(rows)
      ensures r.Ok? ==> exists n: nat :: 1 <= n && rows[|old(rows)|] == r.value.(slug := Suffixed(r.value.slug, n))
    {
      var made := NewReportRow(id, data, now, slugify);
      if made.Err? {
        return Err(made.error);
      }
      var ins := InsertReport(rows, made.value, owners);
      if ins.Err? {
        return Err(Rejected(ins.error));
      }
      ghost var before := rows;
      rows := ins.value;
      InsertedRowNeverKeepsBase(before, made.value);
      ReportSlugAssignedKeepsValid(rows, id, made.value.slug, owners);
      GenerateUniqueSlug(id, made.value.schoolName, slugify);
      r := Ok(made.value);
    }

    /**
     * `generateUniqueSlug(id, schoolName)`: the base if no report holds it,
     * else `base-N` for the first N >= 1 no report holds.
     */
    method GenerateUniqueSlug(id: Id, schoolName: string, slugify: string -> string)
      requires Valid()
      modifies this
      ensures Valid()
      ensures rows == ReportSlugAssigned(old(rows), id, slugify(schoolName))
    {
      var baseSlug := slugify(schoolName);
      ReportSlugAssignedKeepsValid(rows, id, baseSlug, {});
      if baseSlug in ReportSlugs(rows) {
        var counter: nat := 1;
        while Suffixed(baseSlug, counter) in ReportSlugs(rows)
          invariant rows == old(rows)
          invariant 1 <= counter
          invariant forall j :: 1 <= j < counter ==> Suffixed(baseSlug, j) in ReportSlugs(rows)
          decreases PendingCandidates(ReportSlugs(rows), baseSlug, counter)
        {
          ProbeShrinks(ReportSlugs(rows), baseSlug, counter);
          counter := counter + 1;
        }
        SmallestFreeSuffixUnique(ReportSlugs(rows), baseSlug, 1, counter);
        rows := WithSlug(rows, id, Suffixed(baseSlug, counter));
      } else {
        rows := WithSlug(rows, id, baseSlug);
      }
    }

    /**
     * `updateStatus(reportIds, action)`: "approve" approves every listed
     * report, any other action disapproves them; the listed rows are returned.
     */
    method UpdateStatus(ids: seq<Id>, action: string) returns (updated: seq<ReportRow>)
      requires Valid()
      modifies this
      ensures Valid()
      ensures rows == WithStatus(old(rows), ids, if action == "approve" then Approved else Disapproved)
      ensures updated == Listed(rows, ids)
    {
      var status := if action == "approve" then Approved else Disapproved;
      StatusUpdateOutcome(rows, ids, status);
      rows := WithStatus(rows, ids, status);
      updated := Listed(rows, ids);
    }

    /**
     * `updateReport(id, row)` followed by the read-back by `id`. A write the
     * table refuses changes nothing.
     */
    method UpdateReport(id: Id, row: ReportRow, owners: set<Id>) returns (r: Result<Option<ReportRow>, DbError>)
      requires Valid()
      modifies this
      ensures Valid()
      ensures !IdTaken(old(rows), id) ==> r == Ok(None) && rows == old(rows)
      ensures IdTaken(old(rows), id) && UpdateConflicts(old(rows), id, row, owners) ==>
        r.Err? && rows == old(rows)
      ensures IdTaken(old(rows), id) && !UpdateConflicts(old(rows), id, row, owners) ==>
        && rows == Replace(old(rows), id, row)
        && r == Ok(FindReport(rows, id))
      ensures OwnersExist(old(rows), owners) ==> OwnersExist(rows, owners)
    {
      if !IdTaken(rows, id) {
        return Ok(None);
      }
      if UpdateConflicts(rows, id, row, owners) {
        if row.userId.Some? && row.userId.value !in owners {
          return Err(MissingOwner);
        }
        return Err(DuplicateEntry);
      }
      ReplaceKeepsValid(rows, id, row, owners);
      rows := Replace(rows, id, row);
      r := Ok(FindReport(rows, id));
    }
  }
}
