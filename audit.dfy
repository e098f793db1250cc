/** The audit log page: the three-way filter over the log records, the
    pagination of the filtered list in pages of ten, the footer and page
    buttons, the CSV text of the export, and the page state the filter
    inputs and buttons update. */
module Audit {
  import opened Seqs
  import opened Text

  /** `AuditLog`; `trainId` and `sectionId` are optional. */
  datatype AuditLog = AuditLog(
    id: string,
    timestamp: string,
    event: string,
    trainId: Option<string>,
    sectionId: Option<string>,
    user: string,
    action: string,
    details: string)

  /** The three filter inputs: the search box and the event and user selects. */
  datatype Query = Query(searchTerm: string, eventFilter: string, userFilter: string)

  /** The value of a select that filters nothing. */
  const AllFilter := "all"

  /** The inputs the page starts with and Clear Filters restores. */
  const Cleared := Query("", AllFilter, AllFilter)

  // ---------------------------------------------------------------- filter

  /** `matchesSearch`: an empty term matches everything; otherwise the lowered
      term must occur in the lowered `event`, `details` or `trainId`. */
  predicate MatchesSearch(log: AuditLog, term: string) {
    var needle := Lower(term);
    term == ""
    || Contains(Lower(log.event), needle)
    || Contains(Lower(log.details), needle)
    || (log.trainId.Some? && Contains(Lower(log.trainId.value), needle))
  }

  /** `matchesEvent`: exact, case-sensitive comparison unless the filter is `all`. */
  predicate MatchesEvent(log: AuditLog, filter: string) {
    filter == AllFilter || log.event == filter
  }

  /** `matchesUser`: exact, case-sensitive comparison unless the filter is `all`. */
  predicate MatchesUser(log: AuditLog, filter: string) {
    filter == AllFilter || log.user == filter
  }

  predicate Matches(log: AuditLog, q: Query) {
    MatchesSearch(log, q.searchTerm) && MatchesEvent(log, q.eventFilter) && MatchesUser(log, q.userFilter)
  }

  /** `all` passes every log; any other event filter compares the event
      exactly, case included. */
  lemma EventFilterIsExact(log: AuditLog, filter: string)
    ensures MatchesEvent(log, AllFilter)
    ensures filter != AllFilter ==> (MatchesEvent(log, filter) <==> log.event == filter)
  {
  }

  /** `all` passes every log; any other user filter compares the user
      exactly, case included. */
  lemma UserFilterIsExact(log: AuditLog, filter: string)
    ensures MatchesUser(log, AllFilter)
    ensures filter != AllFilter ==> (MatchesUser(log, filter) <==> log.user == filter)
  {
  }

  /** The search folds case and the event filter does not: the term
      `Signal Changed` finds the event `signal changed`, and the filter
      `Signal Changed` rejects it. */
  lemma SearchFoldsCaseFilterDoesNot(log: AuditLog)
    requires log.event == "signal changed"
    ensures MatchesSearch(log, "Signal Changed")
    ensures !MatchesEvent(log, "Signal Changed")
  {
    var needle := Lower("Signal Changed");
    assert needle[0] == 's' && needle[7] == 'c';
    assert needle == "signal changed";
    assert Lower(log.event) == "signal changed";
    assert OccursAt(Lower(log.event), needle, 0);
  }

  /** The callback handed to `filter`. */
  function Keeps(q: Query): AuditLog -> bool {
    log => Matches(log, q)
  }

  /** `filteredLogs`: the logs that pass all three filters. */
  function FilteredLogs(logs: seq<AuditLog>, q: Query): (r: seq<AuditLog>)
    ensures |r| <= |logs|
    ensures forall log :: log in r <==> log in logs && Matches(log, q)
    ensures q.eventFilter != AllFilter ==> forall log :: log in r ==> log.event == q.eventFilter
    ensures q.userFilter != AllFilter ==> forall log :: log in r ==> log.user == q.userFilter
  {
    FilterMembers(Keeps(q), logs);
    Filter(Keeps(q), logs)
  }

  /** The positions of the logs that `FilteredLogs` keeps. */
  ghost function KeptPositions(logs: seq<AuditLog>, q: Query): seq<nat> {
    KeptIndices(Keeps(q), logs)
  }

  /** The filtered list is an order-preserving subsequence of the logs: its
      k-th entry is the log at the k-th kept position, the kept positions
      increase, and a position is kept exactly when its log matches. */
  lemma {:induction false} FilteredInOrder(logs: seq<AuditLog>, q: Query)
    ensures var r, idx := FilteredLogs(logs, q), KeptPositions(logs, q);
      && |idx| == |r|
      && (forall k :: 0 <= k < |idx| ==> idx[k] < |logs| && r[k] == logs[idx[k]])
      && (forall k, m :: 0 <= k < m < |idx| ==> idx[k] < idx[m])
      && (forall i :: 0 <= i < |logs| ==> (Matches(logs[i], q) <==> i in idx))
  {
    KeptIndicesSelect(Keeps(q), logs);
    KeptIndicesIncrease(Keeps(q), logs);
    KeptIndicesExactly(Keeps(q), logs);
  }

  /** With the inputs Clear Filters restores, every log is kept, in order. */
  lemma {:induction false} ClearedQueryKeepsAll(logs: seq<AuditLog>)
    ensures FilteredLogs(logs, Cleared) == logs
  {
    FilterKeepsAll(Keeps(Cleared), logs);
  }

  /** Search looks at `event`, `details` and `trainId` only: two logs that
      agree on those match the same terms, whatever their `sectionId`,
      `user`, `action`, `timestamp` or `id`. */
  lemma SearchReadsThreeFields(log: AuditLog, other: AuditLog, term: string)
    requires other.event == log.event && other.details == log.details && other.trainId == log.trainId
    ensures MatchesSearch(other, term) <==> MatchesSearch(log, term)
  {
  }

  /** A log without `trainId` matches a non-empty term only through `event`
      or `details`. */
  lemma SearchWithoutTrainId(log: AuditLog, term: string)
    requires log.trainId.None? && term != ""
    ensures MatchesSearch(log, term) <==>
      Contains(Lower(log.event), Lower(term)) || Contains(Lower(log.details), Lower(term))
  {
  }

  /** The case of the term does not matter. */
  lemma SearchIgnoresCase(log: AuditLog, term: string)
    ensures MatchesSearch(log, Lower(term)) <==> MatchesSearch(log, term)
  {
    LowerIdempotent(term);
    assert |Lower(term)| == |term|;
  }

  /** A term that occurs verbatim in `event`, `details` or `trainId` is found. */
  lemma SearchFindsSubstring(log: AuditLog, term: string)
    requires || Contains(log.event, term)
             || Contains(log.details, term)
             || (log.trainId.Some? && Contains(log.trainId.value, term))
    ensures MatchesSearch(log, term)
  {
    if Contains(log.event, term) {
      LowerKeepsContains(log.event, term);
    } else if Contains(log.details, term) {
      LowerKeepsContains(log.details, term);
    } else {
      LowerKeepsContains(log.trainId.value, term);
    }
  }

  // ------------------------------------------------------------ pagination

  /** `logsPerPage`. */
  const LogsPerPage := 10

  function Min(a: int, b: int): int {
    if a <= b then a else b
  }

  /** `Math.ceil(n / logsPerPage)`: the fewest pages of ten that hold `n` entries. */
  function TotalPages(n: nat): (r: nat)
    ensures r * LogsPerPage >= n
    ensures r == 0 || (r - 1) * LogsPerPage < n
  {
    (n + LogsPerPage - 1) / LogsPerPage
  }

  /** `startIndex` of a page. */
  function StartIndex(page: int): int {
    (page - 1) * LogsPerPage
  }

  /** Where `Array.prototype.slice` starts or stops for argument `i`: a
      negative argument counts from the end; the result is clamped to the
      sequence (section 23.1.3.28 of ECMA-262). */
  function SliceIndex(i: int, len: nat): (r: nat)
    ensures r <= len
    ensures 0 <= i <= len ==> r == i
    ensures i >= len ==> r == len
    ensures i + len <= 0 ==> r == 0
    ensures i < 0 && 0 < i + len ==> r == len + i
  {
    if i < 0 then (if len + i < 0 then 0 else len + i) else Min(i, len)
  }

  /** `s.slice(start, end)`. */
  function Slice<T>(s: seq<T>, start: int, end: int): (r: seq<T>)
    ensures |r| <= |s|
    ensures forall x :: x in r ==> x in s
    ensures 0 <= start <= end <= |s| ==> r == s[start..end]
  {
    var from, to := SliceIndex(start, |s|), SliceIndex(end, |s|);
    if from < to then s[from..to] else []
  }

  /** `currentLogs`: the entries shown on page `page`. */
  function Page<T>(s: seq<T>, page: int): (r: seq<T>)
    ensures |r| <= LogsPerPage
    ensures forall x :: x in r ==> x in s
    ensures page >= 1 ==> r == s[Min(StartIndex(page), |s|)..Min(StartIndex(page) + LogsPerPage, |s|)]
  {
    Slice(s, StartIndex(page), StartIndex(page) + LogsPerPage)
  }

  /** Pages 1 to `k`, one after the other. */
  function PagesUpTo<T>(s: seq<T>, k: nat): seq<T> {
    if k == 0 then [] else PagesUpTo(s, k - 1) + Page(s, k)
  }

  lemma {:induction false} PagesUpToIsPrefix<T>(s: seq<T>, k: nat)
    ensures PagesUpTo(s, k) == s[..Min(k * LogsPerPage, |s|)]
    decreases k
  {
    if k > 0 {
      PagesUpToIsPrefix(s, k - 1);
      var a, b := Min((k - 1) * LogsPerPage, |s|), Min(k * LogsPerPage, |s|);
      assert Page(s, k) == s[a..b];
      assert s[..a] + s[a..b] == s[..b];
    }
  }

  /** Pages 1 to `TotalPages(|s|)` partition the list in order: laid end to
      end they give back exactly `s`. */
  lemma PagesPartition<T>(s: seq<T>)
    ensures PagesUpTo(s, TotalPages(|s|)) == s
  {
    PagesUpToIsPrefix(s, TotalPages(|s|));
    assert s[..|s|] == s;
  }

  /** A page at or after page 1 shows something exactly when it is at most
      `TotalPages`. */
  lemma PageNonEmptyInRange<T>(s: seq<T>, page: int)
    requires page >= 1
    ensures Page(s, page) != [] <==> page <= TotalPages(|s|)
  {
  }

  /** Entry `k` of the list is shown on page `k / 10 + 1`, which is in range. */
  lemma EntryOnItsPage<T>(s: seq<T>, k: nat)
    requires k < |s|
    ensures 1 <= k / LogsPerPage + 1 <= TotalPages(|s|)
    ensures s[k] in Page(s, k / LogsPerPage + 1)
  {
    var page := k / LogsPerPage + 1;
    var a, b := Min(StartIndex(page), |s|), Min(StartIndex(page) + LogsPerPage, |s|);
    assert a <= k < b;
    assert s[a..b][k - a] == s[k];
  }

  /** The footer "Showing `from` to `to` of `total` entries". */
  datatype Footer = Footer(from: int, to: int, total: nat)

  function FooterOf(page: int, n: nat): Footer {
    Footer(StartIndex(page) + 1, Min(StartIndex(page) + LogsPerPage, n), n)
  }

  /** On a page in range the footer names exactly the entries shown, by
      their 1-based positions in the filtered list. */
  lemma FooterDescribesPage<T>(s: seq<T>, page: int)
    requires 1 <= page <= TotalPages(|s|)
    ensures var f := FooterOf(page, |s|);
      && 1 <= f.from <= f.to <= |s| && f.total == |s|
      && Page(s, page) == s[f.from - 1..f.to]
  {
  }

  /** The pagination block is rendered only when there is more than one page. */
  predicate ControlsShown(totalPages: nat) {
    totalPages > 1
  }

  /** Previous is clickable when shown and not on page 1. */
  predicate PreviousEnabled(page: int, totalPages: nat) {
    ControlsShown(totalPages) && page != 1
  }

  /** Next is clickable when shown and not on page `totalPages`. */
  predicate NextEnabled(page: int, totalPages: nat) {
    ControlsShown(totalPages) && page != totalPages
  }

  /** From a page in range, each enabled button leads to a page in range. */
  lemma ButtonsStayInRange(page: int, totalPages: nat)
    requires 1 <= page <= totalPages
    ensures PreviousEnabled(page, totalPages) ==> 1 <= page - 1 <= totalPages
    ensures NextEnabled(page, totalPages) ==> 1 <= page + 1 <= totalPages
  {
  }

  /** From a page past the last one, with the controls shown, Next stays
      enabled and leads further away. */
  lemma NextEnabledPastLastPage(page: int, totalPages: nat)
    requires page > totalPages > 1
    ensures NextEnabled(page, totalPages) && page + 1 > totalPages
  {
  }

  /** Changing a filter keeps the page number. With ten logs by `System`
      followed by one by `Controller A`, the cleared filters show the
      eleventh log on page 2; selecting the user `Controller A` there leaves
      page 2 of a one-entry list, which is empty, and hides the pagination
      controls, so the one matching log cannot be reached. */
  lemma {:induction false} StaleFilterHidesEntries(other: AuditLog, last: AuditLog)
    requires other.user == "System" && last.user == "Controller A"
    ensures var logs := seq(10, _ => other) + [last];
      var q := Query("", AllFilter, "Controller A");
      && Page(FilteredLogs(logs, Cleared), 2) == [last]
      && FilteredLogs(logs, q) == [last]
      && Page(FilteredLogs(logs, q), 2) == []
      && !ControlsShown(TotalPages(|FilteredLogs(logs, q)|))
  {
    var front := seq(10, _ => other);
    var logs := front + [last];
    var q := Query("", AllFilter, "Controller A");
    ClearedQueryKeepsAll(logs);
    assert Page(logs, 2) == logs[10..11] == [last];
    FilterAppend(Keeps(q), front, [last]);
    FilterKeepsNone(Keeps(q), front);
    assert Keeps(q)(last);
    assert Filter(Keeps(q), [last]) == [last] by {
      assert [last][..0] == [];
    }
  }

  /** With the corrected handler, the same filter change returns to page 1,
      which shows the log that stayed hidden on page 2. */
  lemma CorrectedChangeShowsEntry(other: AuditLog, last: AuditLog)
    requires other.user == "System" && last.user == "Controller A"
    ensures var logs := seq(10, _ => other) + [last];
      var q := Query("", AllFilter, "Controller A");
      && Page(FilteredLogs(logs, q), 1) == [last]
      && !ControlsShown(TotalPages(|FilteredLogs(logs, q)|))
  {
    StaleFilterHidesEntries(other, last);
    assert [last][0..1] == [last];
  }

  // ---------------------------------------------------------------- export

  /** The column names of the export, one per field of a row. */
  const CsvColumns := ["Timestamp", "Event", "Train ID", "Section ID", "User", "Action", "Details"]

  /** The first line of the export, `Timestamp,Event,Train ID,Section ID,User,Action,Details`. */
  const CsvHeader := Join(CsvColumns, ',')

  /** `value || ''` on an optional field. */
  function OrEmpty(o: Option<string>): string {
    if o.Some? then o.value else ""
  }

  /** The template literal of one row: six bare fields and the details in
      double quotes, none of them escaped. */
  function CsvRow(log: AuditLog): string {
    log.timestamp + "," + log.event + "," + OrEmpty(log.trainId) + "," + OrEmpty(log.sectionId)
      + "," + log.user + "," + log.action + ",\"" + log.details + "\""
  }

  /** `filteredLogs.map(...)`. */
  function CsvRows(logs: seq<AuditLog>): (rows: seq<string>)
    ensures |rows| == |logs|
  {
    seq(|logs|, i requires 0 <= i < |logs| => CsvRow(logs[i]))
  }

  /** `csvContent`: the header and the rows, joined by newlines. */
  function ExportCsv(logs: seq<AuditLog>): (r: string)
    ensures CsvHeader <= r
    ensures logs == [] ==> r == CsvHeader
  {
    Join([CsvHeader] + CsvRows(logs), '\n')
  }

  /** What one row carries: the missing optional fields come back empty. */
  datatype CsvRecord = CsvRecord(
    timestamp: string,
    event: string,
    trainId: string,
    sectionId: string,
    user: string,
    action: string,
    details: string)

  function Exported(log: AuditLog): CsvRecord {
    CsvRecord(log.timestamp, log.event, OrEmpty(log.trainId), OrEmpty(log.sectionId), log.user, log.action, log.details)
  }

  /** The exported records of the logs, in order. */
  function Records(logs: seq<AuditLog>): (r: seq<CsvRecord>)
    ensures |r| == |logs|
  {
    seq(|logs|, i requires 0 <= i < |logs| => Exported(logs[i]))
  }

  /** The text between a leading and a trailing double quote. */
  function Unquote(q: string): string {
    if |q| >= 2 && q[0] == '"' && q[|q| - 1] == '"' then q[1..|q| - 1] else q
  }

  /** Reads one row: six comma-separated fields, then the quoted details,
      which may themselves hold commas. */
  function ParseRow(line: string): Option<CsvRecord> {
    var f := Split(line, ',');
    if |f| < 7 then None
    else Some(CsvRecord(f[0], f[1], f[2], f[3], f[4], f[5], Unquote(Join(f[6..], ','))))
  }

  function ParseRows(lines: seq<string>): Option<seq<CsvRecord>> {
    if lines == [] then Some([])
    else
      match ParseRow(lines[0])
      case None => None
      case Some(r) =>
        match ParseRows(lines[1..])
        case None => None
        case Some(rs) => Some([r] + rs)
  }

  /** Reads an export: the header line, then one record per line. */
  function ParseCsv(text: string): Option<seq<CsvRecord>> {
    var lines := Split(text, '\n');
    if lines[0] != CsvHeader then None else ParseRows(lines[1..])
  }

  /** The six unquoted fields of a row hold no comma. */
  predicate PlainFields(log: AuditLog) {
    && ',' !in log.timestamp && ',' !in log.event && ',' !in OrEmpty(log.trainId)
    && ',' !in OrEmpty(log.sectionId) && ',' !in log.user && ',' !in log.action
  }

  /** No exported field holds a newline. */
  predicate SingleLine(log: AuditLog) {
    && '\n' !in log.timestamp && '\n' !in log.event && '\n' !in OrEmpty(log.trainId)
    && '\n' !in OrEmpty(log.sectionId) && '\n' !in log.user && '\n' !in log.action
    && '\n' !in log.details
  }

  /** The row is the comma-join of its seven fields. */
  lemma {:induction false} RowIsJoin(log: AuditLog)
    ensures CsvRow(log) == Join(RowFields(log), ',')
  {
    var f := RowFields(log);
    var c := ",";
    assert f[6..] == [f[6]];
    var j6 := Join(f[6..], ',');
    assert f[5..][1..] == f[6..];
    var j5 := Join(f[5..], ',');
    assert j5 == f[5] + c + j6;
    assert f[4..][1..] == f[5..];
    var j4 := Join(f[4..], ',');
    assert j4 == f[4] + c + j5;
    assert f[3..][1..] == f[4..];
    var j3 := Join(f[3..], ',');
    assert j3 == f[3] + c + j4;
    assert f[2..][1..] == f[3..];
    var j2 := Join(f[2..], ',');
    assert j2 == f[2] + c + j3;
    var j1 := Join(f[1..], ',');
    assert j1 == f[1] + c + j2;
    assert Join(f, ',') == f[0] + c + j1;
  }

  function RowFields(log: AuditLog): seq<string> {
    [log.timestamp, log.event, OrEmpty(log.trainId), OrEmpty(log.sectionId), log.user, log.action,
     "\"" + log.details + "\""]
  }

  /** The header names seven columns, one per field of a row. */
  lemma HeaderNamesEachField(log: AuditLog)
    ensures Split(CsvHeader, ',') == CsvColumns
    ensures |CsvColumns| == |RowFields(log)|
  {
    SplitJoinPlain(CsvColumns, ',');
  }

  /** A row reads back as the record it was written from, whatever its
      details hold, when the six bare fields hold no comma. */
  lemma {:induction false} RowReadsBack(log: AuditLog)
    requires PlainFields(log)
    ensures ParseRow(CsvRow(log)) == Some(Exported(log))
  {
    var parts := RowFields(log);
    var quoted := parts[6];
    RowIsJoin(log);
    SplitJoin(parts, ',');
    var f := Split(CsvRow(log), ',');
    assert f == parts[..6] + Split(quoted, ',');
    assert f[6..] == Split(quoted, ',');
    JoinSplit(quoted, ',');
    assert quoted[1..|quoted| - 1] == log.details;
  }

  /** A row of a log without newlines is one line. */
  lemma {:induction false} RowIsOneLine(log: AuditLog)
    requires SingleLine(log)
    ensures '\n' !in CsvRow(log)
  {
  }

  /** With no newline in any field, the export has one line for the header
      and then exactly one line per log, in order. */
  lemma {:induction false} ExportLines(logs: seq<AuditLog>)
    requires forall log :: log in logs ==> SingleLine(log)
    ensures Split(ExportCsv(logs), '\n') == [CsvHeader] + CsvRows(logs)
    ensures |Split(ExportCsv(logs), '\n')| == 1 + |logs|
  {
    var rows := CsvRows(logs);
    var lines := [CsvHeader] + rows;
    JoinAvoids(CsvColumns, ',', '\n');
    forall i | 0 <= i < |rows|
      ensures '\n' !in rows[i]
    {
      assert logs[i] in logs;
      RowIsOneLine(logs[i]);
    }
    forall i | 0 <= i < |lines|
      ensures '\n' !in lines[i]
    {
      if i > 0 {
        assert lines[i] == rows[i - 1];
      }
    }
    SplitJoinPlain(lines, '\n');
  }

  lemma {:induction false} RowsReadBack(logs: seq<AuditLog>)
    requires forall log :: log in logs ==> PlainFields(log)
    ensures ParseRows(CsvRows(logs)) == Some(Records(logs))
    decreases |logs|
  {
    if logs != [] {
      assert logs[0] in logs;
      RowReadsBack(logs[0]);
      RowsReadBack(logs[1..]);
      assert CsvRows(logs)[0] == CsvRow(logs[0]);
      assert CsvRows(logs)[1..] == CsvRows(logs[1..]);
      assert Records(logs) == [Exported(logs[0])] + Records(logs[1..]);
    }
  }

  /** The export reads back as the exported records of the filtered logs,
      in order, when no field holds a newline and the six bare fields hold
      no comma. */
  lemma {:induction false} ExportReadsBack(logs: seq<AuditLog>)
    requires forall log :: log in logs ==> SingleLine(log) && PlainFields(log)
    ensures ParseCsv(ExportCsv(logs)) == Some(Records(logs))
  {
    ExportLines(logs);
    RowsReadBack(logs);
  }

  // ----------------------------------------------------------- classifiers

  /** The icons `getEventIcon` chooses between. */
  datatype EventIcon = MapPinIcon | TrainIcon | UserIcon | ClockIcon | FileTextIcon

  /** `getEventIcon`: a switch on the lowered event name. */
  function EventIconFor(event: string): EventIcon {
    var e := Lower(event);
    if e == "signal changed" || e == "signal override" then MapPinIcon
    else if e == "train rerouted" || e == "train departed" then TrainIcon
    else if e == "user login" then UserIcon
    else if e == "track maintenance" then ClockIcon
    else FileTextIcon
  }

  /** The badges `getActionBadge` chooses between. */
  datatype ActionBadge = ManualBadge | AutoBadge | StatusUpdateBadge | AuthBadge | SystemBadge

  /** `getActionBadge`: a switch on the lowered action name. */
  function ActionBadgeFor(action: string): ActionBadge {
    var a := Lower(action);
    if a == "manual override" then ManualBadge
    else if a == "automatic reroute" || a == "automatic adjustment" then AutoBadge
    else if a == "status update" then StatusUpdateBadge
    else if a == "authentication" then AuthBadge
    else SystemBadge
  }

  /** The icon ignores the case of the event name. */
  lemma EventIconIgnoresCase(s: string)
    ensures EventIconFor(Lower(s)) == EventIconFor(s)
  {
    LowerIdempotent(s);
  }

  /** The badge ignores the case of the action name. */
  lemma ActionBadgeIgnoresCase(s: string)
    ensures ActionBadgeFor(Lower(s)) == ActionBadgeFor(s)
  {
    LowerIdempotent(s);
  }

  // ------------------------------------------------------------ page state

  /** The page's state: the three filter inputs and the current page. */
  class AuditPage {
    const logs: seq<AuditLog>
    var searchTerm: string
    var eventFilter: string
    var userFilter: string
    var currentPage: int

    /** Page numbers start at 1, and no button goes below it. */
    ghost predicate Valid()
      reads this
    {
      currentPage >= 1
    }

    constructor(logs: seq<AuditLog>)
      ensures this.logs == logs && CurrentQuery() == Cleared && currentPage == 1
      ensures Valid() && PageInRange()
    {
      this.logs := logs;
      searchTerm := "";
      eventFilter := AllFilter;
      userFilter := AllFilter;
      currentPage := 1;
    }

    function CurrentQuery(): Query
      reads this
    {
      Query(searchTerm, eventFilter, userFilter)
    }

    function Filtered(): seq<AuditLog>
      reads this
    {
      FilteredLogs(logs, CurrentQuery())
    }

    function PageCount(): nat
      reads this
    {
      TotalPages(|Filtered()|)
    }

    /** The rows of the table: at most ten logs, each one that matches. */
    function CurrentLogs(): (r: seq<AuditLog>)
      reads this
      ensures |r| <= LogsPerPage
      ensures forall log :: log in r ==> log in logs && Matches(log, CurrentQuery())
    {
      Page(Filtered(), currentPage)
    }

    /** The current page is one the buttons can reach: page 1 when nothing
        matches, otherwise a page up to the last. */
    ghost predicate PageInRange()
      reads this
    {
      1 <= currentPage && (currentPage == 1 || currentPage <= PageCount())
    }

    /** The search box's `onChange`; the page number is kept. */
    method SetSearchTerm(term: string)
      modifies this
      ensures CurrentQuery() == old(CurrentQuery()).(searchTerm := term)
      ensures currentPage == old(currentPage)
    {
      searchTerm := term;
    }

    /** The event select's `onValueChange`; the page number is kept. */
    method SetEventFilter(filter: string)
      modifies this
      ensures CurrentQuery() == old(CurrentQuery()).(eventFilter := filter)
      ensures currentPage == old(currentPage)
    {
      eventFilter := filter;
    }

    /** The user select's `onValueChange`; the page number is kept. */
    method SetUserFilter(filter: string)
      modifies this
      ensures CurrentQuery() == old(CurrentQuery()).(userFilter := filter)
      ensures currentPage == old(currentPage)
    {
      userFilter := filter;
    }

    /** Clear Filters: every log is listed again; the page number is kept. */
    method ClearFilters()
      modifies this
      ensures CurrentQuery() == Cleared && currentPage == old(currentPage)
      ensures Filtered() == logs
    {
      searchTerm := "";
      eventFilter := AllFilter;
      userFilter := AllFilter;
      ClearedQueryKeepsAll(logs);
    }

    /** A filter change that also returns to page 1, so that the page is in
        range and every matching log can be reached with the buttons. */
    method ChangeFilters(q: Query)
      modifies this
      ensures CurrentQuery() == q && currentPage == 1
      ensures Valid() && PageInRange()
    {
      searchTerm, eventFilter, userFilter := q.searchTerm, q.eventFilter, q.userFilter;
      currentPage := 1;
    }

    /** The Previous button, clickable only when enabled. */
    method PreviousPage()
      requires Valid() && PreviousEnabled(currentPage, PageCount())
      modifies this
      ensures CurrentQuery() == old(CurrentQuery()) && currentPage == old(currentPage) - 1
      ensures Valid()
      ensures old(PageInRange()) ==> PageInRange()
    {
      currentPage := currentPage - 1;
    }

    /** The Next button, clickable only when enabled. */
    method NextPage()
      requires Valid() && NextEnabled(currentPage, PageCount())
      modifies this
      ensures CurrentQuery() == old(CurrentQuery()) && currentPage == old(currentPage) + 1
      ensures Valid()
      ensures old(PageInRange()) ==> PageInRange()
    {
      currentPage := currentPage + 1;
    }
  }
}
