/**
 * `ReportModel`'s reads: the filter `filterReports` builds from its query
 * parameters, the newest-first order both listings use, `getLatestReports`,
 * and the offset and page-count arithmetic of `filterReports`.
 */
module ReportQueries {
  import opened Basics
  import opened Text
  import opened Schema

  /** The four filters; the routes pass "all" for a parameter that was not given. */
  datatype Filters = Filters(searchQuery: string, status: string, issueType: string, privacyPreference: string)

  /** `filters.x && filters.x !== "all"`: the filter applies. */
  predicate Active(v: string) { v != "" && v != "all" }

  /**
   * The WHERE clause: the school name contains the search text (`LIKE
   * '%q%'`), the status and the privacy setting are in their comma-separated
   * lists (`whereIn` on `split(",")`), and the issue type is one of the
   * row's comma-separated issue types (`FIND_IN_SET`).
   */
  predicate Matches(row: ReportRow, f: Filters)
    ensures !Active(f.searchQuery) && !Active(f.status) && !Active(f.issueType) && !Active(f.privacyPreference) ==>
      Matches(row, f)
  {
    && (Active(f.searchQuery) ==> Contains(row.schoolName, f.searchQuery))
    && (Active(f.status) ==> StatusName(row.status) in Split(f.status, ','))
    && (Active(f.issueType) ==> f.issueType in Split(row.issueType, ','))
    && (Active(f.privacyPreference) ==> PrivacyName(row.privacyPreference) in Split(f.privacyPreference, ','))
  }

  /** Switching one filter off never loses a row. */
  lemma FilterOffWidens(row: ReportRow, f: Filters)
    requires Matches(row, f)
    ensures Matches(row, f.(searchQuery := "all")) && Matches(row, f.(status := "all"))
    ensures Matches(row, f.(issueType := "all")) && Matches(row, f.(privacyPreference := "all"))
  {
  }

  /** The rows the WHERE clause keeps, in table order. */
  function Select(rows: seq<ReportRow>, f: Filters): (r: seq<ReportRow>)
    ensures forall x :: x in r <==> x in rows && Matches(x, f)
    ensures |r| <= |rows|
    ensures multiset(r) <= multiset(rows)
  {
    if rows == [] then []
    else
      assert rows == [rows[0]] + rows[1..];
      if Matches(rows[0], f) then [rows[0]] + Select(rows[1..], f) else Select(rows[1..], f)
  }

  /** The filters the routes build when no query parameter is given. */
  const NoFilters := Filters("all", "all", "all", "all")

  lemma {:induction false} NoFiltersSelectEverything(rows: seq<ReportRow>)
    ensures Select(rows, NoFilters) == rows
    decreases |rows|
  {
    if rows != [] {
      NoFiltersSelectEverything(rows[1..]);
      assert [rows[0]] + rows[1..] == rows;
    }
  }

  /** A status filter written as a list of names keeps exactly the rows whose status is one of them. */
  lemma StatusFilterByList(row: ReportRow, f: Filters, names: seq<string>)
    requires |names| >= 1 && forall i :: 0 <= i < |names| ==> ',' !in names[i]
    requires f.status == Join(names, ',') && Active(f.status)
    ensures Matches(row, f) ==> StatusName(row.status) in names
    ensures StatusName(row.status) in names && Matches(row, f.(status := "all")) ==> Matches(row, f)
  {
    SplitJoin(names, ',');
  }

  /** `created_at` never increases along s. */
  predicate NewestFirstOrder(s: seq<ReportRow>)
  {
    forall i, j | 0 <= i < j < |s| :: s[i].createdAt >= s[j].createdAt
  }

  /** Place x after every row at least as new, keeping the order of s. */
  function InsertByAge(s: seq<ReportRow>, x: ReportRow): (r: seq<ReportRow>)
    requires NewestFirstOrder(s)
    ensures NewestFirstOrder(r)
    ensures multiset(r) == multiset(s) + multiset{x}
    ensures |r| == |s| + 1
    ensures forall y | y in r :: y in s || y == x
  {
    if s == [] then [x]
    else if s[0].createdAt >= x.createdAt then
      var rest := InsertByAge(s[1..], x);
      assert s == [s[0]] + s[1..];
      HeadIsNewest(s, x, rest);
      ConsKeepsOrder(s[0], rest);
      [s[0]] + rest
    else
      assert forall j | 0 <= j < |s| :: x.createdAt > s[j].createdAt by {
        forall j | 0 <= j < |s| ensures x.createdAt > s[j].createdAt {
          if j > 0 { assert s[0].createdAt >= s[j].createdAt; }
        }
      }
      ConsKeepsOrder(x, s);
      [x] + s
  }

  /** The head of a newest-first s is at least as new as x and every other row of s. */
  lemma HeadIsNewest(s: seq<ReportRow>, x: ReportRow, rest: seq<ReportRow>)
    requires NewestFirstOrder(s) && s != [] && s[0].createdAt >= x.createdAt
    requires forall y | y in rest :: y in s[1..] || y == x
    ensures forall y | y in rest :: s[0].createdAt >= y.createdAt
  {
    forall y | y in rest ensures s[0].createdAt >= y.createdAt {
      if y != x {
        var j :| 0 <= j < |s[1..]| && s[1..][j] == y;
        assert s[j + 1] == y;
      }
    }
  }

  /** A row at least as new as every row of a newest-first s can go in front of it. */
  lemma ConsKeepsOrder(h: ReportRow, s: seq<ReportRow>)
    requires NewestFirstOrder(s)
    requires forall y | y in s :: h.createdAt >= y.createdAt
    ensures NewestFirstOrder([h] + s)
  {
    var r := [h] + s;
    forall i, j | 0 <= i < j < |r| ensures r[i].createdAt >= r[j].createdAt {
      assert r[j] == s[j - 1];
      if i > 0 { assert r[i] == s[i - 1]; }
    }
  }

  /**
   * `orderBy("created_at", "desc")`. The database leaves the order of rows
   * with equal timestamps unspecified; this definition keeps them in scan
   * order, one admissible choice (see `NewestFirstUnique` for when the
   * choice does not matter).
   */
  function NewestFirst(rows: seq<ReportRow>): (r: seq<ReportRow>)
    ensures NewestFirstOrder(r)
    ensures multiset(r) == multiset(rows)
    ensures |r| == |rows|
  {
    if rows == [] then []
    else
      assert rows == rows[..|rows| - 1] + [rows[|rows| - 1]];
      InsertByAge(NewestFirst(rows[..|rows| - 1]), rows[|rows| - 1])
  }

  /** No two different rows of s share a `created_at`. */
  predicate DistinctTimes(s: seq<ReportRow>)
  {
    forall x, y | x in s && y in s && x.createdAt == y.createdAt :: x == y
  }

  /** Among rows with distinct timestamps there is only one newest-first arrangement. */
  lemma {:induction false} NewestFirstUnique(a: seq<ReportRow>, b: seq<ReportRow>)
    requires NewestFirstOrder(a) && NewestFirstOrder(b)
    requires multiset(a) == multiset(b) && DistinctTimes(a)
    ensures a == b
    decreases |a|
  {
    SameSize(a, b);
    if a != [] {
      SameHead(a, b);
      DropHead(a);
      DropHead(b);
      NewestFirstUnique(a[1..], b[1..]);
      HeadAndTail(a, b);
    }
  }

  /** Two newest-first arrangements of the same rows, distinct in time, start with the same row. */
  lemma SameHead(a: seq<ReportRow>, b: seq<ReportRow>)
    requires NewestFirstOrder(a) && NewestFirstOrder(b) && a != [] && b != []
    requires multiset(a) == multiset(b) && DistinctTimes(a)
    ensures a[0] == b[0]
  {
    assert a[0] in multiset(b) && b[0] in multiset(a);
    var k :| 0 <= k < |b| && b[k] == a[0];
    var m :| 0 <= m < |a| && a[m] == b[0];
    assert b[0].createdAt >= b[k].createdAt;
    assert a[0].createdAt >= a[m].createdAt;
  }

  /** Sequences with the same multiset have the same length. */
  lemma SameSize(a: seq<ReportRow>, b: seq<ReportRow>)
    requires multiset(a) == multiset(b)
    ensures |a| == |b|
  {
    assert |a| == |multiset(a)| && |b| == |multiset(b)|;
  }

  /** Sequences that agree on head and tail are equal. */
  lemma HeadAndTail(a: seq<ReportRow>, b: seq<ReportRow>)
    requires a != [] && b != [] && a[0] == b[0] && a[1..] == b[1..]
    ensures a == b
  {
    assert a == [a[0]] + a[1..] && b == [b[0]] + b[1..];
  }

  /** Dropping the head of s takes one copy of it out of the multiset and keeps order and distinctness. */
  lemma DropHead(s: seq<ReportRow>)
    requires s != []
    ensures multiset(s[1..]) == multiset(s) - multiset{s[0]}
    ensures NewestFirstOrder(s) ==> NewestFirstOrder(s[1..])
    ensures DistinctTimes(s) ==> DistinctTimes(s[1..])
  {
    assert s == [s[0]] + s[1..];
    assert forall x | x in s[1..] :: x in s;
  }

  /**
   * When no two reports share a timestamp, every newest-first arrangement of
   * the matching reports is the model's: the pages do not depend on how the
   * database breaks ties.
   */
  lemma SortedSelectionDetermined(rows: seq<ReportRow>, f: Filters, s: seq<ReportRow>)
    requires DistinctTimes(rows)
    requires NewestFirstOrder(s) && multiset(s) == multiset(Select(rows, f))
    ensures s == NewestFirst(Select(rows, f))
  {
    var selected := Select(rows, f);
    assert DistinctTimes(s) by {
      forall x | x in s ensures x in rows {
        assert x in multiset(selected);
      }
    }
    NewestFirstUnique(s, NewestFirst(selected));
  }

  /** In a newest-first sequence, the first k rows are at least as new as all the rest. */
  lemma PrefixIsNewest(s: seq<ReportRow>, k: nat)
    requires NewestFirstOrder(s) && k <= |s|
    ensures multiset(s) - multiset(s[..k]) == multiset(s[k..])
    ensures multiset(s[..k]) <= multiset(s)
    ensures forall x, y | x in multiset(s[k..]) && y in s[..k] :: y.createdAt >= x.createdAt
  {
    PrefixSplit(s, k);
    forall x, y | x in multiset(s[k..]) && y in s[..k] ensures y.createdAt >= x.createdAt {
      var i :| 0 <= i < k && s[..k][i] == y;
      var j :| 0 <= j < |s| - k && s[k..][j] == x;
      assert s[i] == y && s[k + j] == x;
    }
  }

  /** Cutting s at k splits its multiset in two. */
  lemma PrefixSplit(s: seq<ReportRow>, k: nat)
    requires k <= |s|
    ensures multiset(s) == multiset(s[..k]) + multiset(s[k..])
  {
    assert s == s[..k] + s[k..];
  }

  /** `getLatestReports`: the 10 newest reports, newest first. */
  function LatestReports(rows: seq<ReportRow>): (r: seq<ReportRow>)
    ensures |r| == Min(10, |rows|)
    ensures NewestFirstOrder(r)
    ensures multiset(r) <= multiset(rows)
    ensures forall x, y | x in multiset(rows) - multiset(r) && y in r :: y.createdAt >= x.createdAt
  {
    var sorted := NewestFirst(rows);
    var k := Min(10, |rows|);
    PrefixIsNewest(sorted, k);
    sorted[..k]
  }

  /** The response of `filterReports`. */
  datatype Page = Page(reports: seq<ReportRow>, countReports: nat, page: int, pages: nat)

  /** A negative `limit` or `offset` reaches the database, which refuses the query. */
  datatype QueryError = NegativeBound

  /**
   * `filterReports(filters, page, limit)`: the matching rows newest first,
   * skipping (page - 1) * limit of them and keeping at most `limit`; the
   * count of all matching rows; and ceil(count / limit) pages.
   */
  function FilterReports(rows: seq<ReportRow>, f: Filters, page: int, limit: int): (r: Result<Page, QueryError>)
    requires limit != 0
    requires Active(f.issueType) ==> ',' !in f.issueType
    ensures r.Err? <==> limit < 0 || page < 1
    ensures r.Ok? ==> r.value.page == page && r.value.countReports == |Select(rows, f)|
    ensures r.Ok? ==> |r.value.reports| <= limit && NewestFirstOrder(r.value.reports)
    ensures r.Ok? ==> forall x | x in r.value.reports :: x in rows && Matches(x, f)
    ensures r.Ok? ==> PageHolds(r.value.reports, NewestFirst(Select(rows, f)), Offset(page, limit), limit)
    ensures r.Ok? ==> PageCountHolds(r.value.countReports, r.value.pages, limit)
  {
    if limit < 0 || page < 1 then Err(NegativeBound)
    else
      var matching := NewestFirst(Select(rows, f));
      SortedSelectionMatches(rows, f);
      var reports := Window(matching, Offset(page, limit), limit);
      Ok(Page(reports, |matching|, page, PageCount(|matching|, limit)))
  }

  /** Sorting the selected rows brings in no row that does not match. */
  lemma SortedSelectionMatches(rows: seq<ReportRow>, f: Filters)
    ensures forall x | x in NewestFirst(Select(rows, f)) :: x in rows && Matches(x, f)
  {
    var selected := Select(rows, f);
    forall x | x in NewestFirst(selected) ensures x in rows && Matches(x, f) {
      assert x in multiset(NewestFirst(selected));
      assert x in multiset(selected);
    }
  }

  /** `(page - 1) * limit`, the rows the requested page skips. */
  function Offset(page: int, limit: int): (offset: nat)
    requires page >= 1 && limit >= 0
  {
    MulMonotone(0, page - 1, limit);
    (page - 1) * limit
  }

  /** `reports` is the window of `limit` rows of `all` starting at `offset`, cut short only at the end of `all`. */
  predicate PageHolds(reports: seq<ReportRow>, all: seq<ReportRow>, offset: int, limit: int)
  {
    && 0 <= offset
    && (forall i | 0 <= i < |reports| :: offset + i < |all| && reports[i] == all[offset + i])
    && (offset < |all| ==> |reports| == Min(limit, |all| - offset))
    && (offset >= |all| ==> reports == [])
  }

  /** `pages` is the least number of `limit`-row pages that hold `count` rows. */
  predicate PageCountHolds(count: nat, pages: nat, limit: int)
  {
    && (count == 0 <==> pages == 0)
    && (count > 0 ==> (pages - 1) * limit < count <= pages * limit)
  }

  /** `.limit(limit).offset(offset)`: at most `limit` rows of s, starting at position `offset`. */
  function Window(s: seq<ReportRow>, offset: nat, limit: nat): (w: seq<ReportRow>)
    ensures |w| <= limit
    ensures PageHolds(w, s, offset, limit)
    ensures forall x | x in w :: x in s
    ensures NewestFirstOrder(s) ==> NewestFirstOrder(w)
  {
    if offset >= |s| then [] else s[offset..Min(offset + limit, |s|)]
  }

  /** `Math.ceil(count / limit)` for a positive limit. */
  function PageCount(count: nat, limit: nat): (pages: nat)
    requires limit > 0
    ensures PageCountHolds(count, pages, limit)
  {
    var pages := (count + limit - 1) / limit;
    DivBounds(count + limit - 1, limit);
    pages
  }

  lemma DivBounds(n: nat, d: nat)
    requires d > 0
    ensures (n / d) * d <= n < (n / d + 1) * d
  {
  }

  lemma MulMonotone(a: int, b: int, c: nat)
    requires a <= b
    ensures a * c <= b * c
  {
  }

  /**
   * The row at position q * limit + m of the sorted matches (0 <= m < limit)
   * is row m of page q + 1.
   */
  lemma EveryMatchIsOnAPage(rows: seq<ReportRow>, f: Filters, limit: int, q: nat, m: nat)
    requires limit > 0 && m < limit
    requires Active(f.issueType) ==> ',' !in f.issueType
    requires q * limit + m < |Select(rows, f)|
    ensures var r := FilterReports(rows, f, q + 1, limit);
      && r.Ok? && m < |r.value.reports|
      && r.value.reports[m] == NewestFirst(Select(rows, f))[q * limit + m]
  {
    var all := NewestFirst(Select(rows, f));
    var r := FilterReports(rows, f, q + 1, limit);
    NextPageOffset(q, limit);
    WindowPosition(r.value.reports, all, q * limit, limit, m);
  }

  /** Page q + 1 starts q pages in. */
  lemma NextPageOffset(q: nat, limit: nat)
    ensures Offset(q + 1, limit) == q * limit
  {
  }

  lemma WindowPosition(reports: seq<ReportRow>, all: seq<ReportRow>, offset: int, limit: int, m: nat)
    requires PageHolds(reports, all, offset, limit)
    requires m < limit && offset + m < |all|
    ensures m < |reports| && reports[m] == all[offset + m]
  {
  }

  /** A page that holds a matching row is within the page count `filterReports` reports. */
  lemma NonEmptyPageIsCounted(rows: seq<ReportRow>, f: Filters, limit: int, q: nat, m: nat)
    requires limit > 0 && m < limit
    requires Active(f.issueType) ==> ',' !in f.issueType
    requires q * limit + m < |Select(rows, f)|
    ensures FilterReports(rows, f, q + 1, limit).Ok? && q + 1 <= FilterReports(rows, f, q + 1, limit).value.pages
  {
    var r := FilterReports(rows, f, q + 1, limit);
    PagePosition(|Select(rows, f)|, r.value.pages, limit, q, m);
  }

  /** A position q * limit + m below `count` lies on one of the `pages` pages. */
  lemma PagePosition(count: nat, pages: nat, limit: nat, q: nat, m: nat)
    requires limit > 0 && q * limit + m < count && PageCountHolds(count, pages, limit)
    ensures q < pages
  {
    if q >= pages {
      MulMonotone(pages, q, limit);
    }
  }

  /** `/export` asks for page 1 of 10000: with no filters and at most 10000 reports, that is every report. */
  lemma ExportReturnsEverything(rows: seq<ReportRow>)
    requires |rows| <= 10000
    ensures var r := FilterReports(rows, NoFilters, 1, 10000);
      r.Ok? && multiset(r.value.reports) == multiset(rows) && r.value.countReports == |rows|
  {
    NoFiltersSelectEverything(rows);
    var matching := NewestFirst(Select(rows, NoFilters));
    assert matching[0..Min(10000, |matching|)] == matching;
  }
}
