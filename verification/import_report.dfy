/** The report of a bulk import: outcome totals, and one reason for every row that did not import. */
module ImportReport {
  import opened Wrappers
  import opened Sequences
  import opened ImportRows
  import opened ImportCommit

  datatype Outcome = WillCreate | DidCreate | HeldDuplicate | DidFail

  datatype ResultRow = ResultRow(rowNumber: nat, outcome: Outcome, errors: seq<string>, hasWarnings: bool)

  datatype ReasonCount = ReasonCount(reason: string, count: nat)

  datatype Report = Report(
    rows: seq<ResultRow>,
    toCreate: nat,
    created: nat,
    possibleDuplicate: nat,
    failed: nat,
    warnings: nat,
    failureBreakdown: seq<ReasonCount>)

  const POSSIBLE_DUPLICATE_REASON := "possible-duplicate"

  const BATCH_ROLLED_BACK_REASON := "batch-rolled-back"

  const MAX_SAFE_INTEGER: nat := 9007199254740991

  const TEMPLATE_COLUMNS: seq<string> := [
    "traderName", "traderType", "additionalTraderTypes", "country", "region", "district", "marketLocation", "sex",
    "position", "capacityTons", "technicalSupport", "phone", "email", "gpsLatitude", "gpsLongitude", "cropSorghum",
    "cropCommonBean", "cropGroundnut", "consentStatus", "consentMethod", "consentObtainedAt", "consentReference",
    "contactPerson", "otherCrops"]

  function ToRowResult(commit: bool, row: WorkRow): ResultRow {
    var outcome := match row.state
      case CandidateRow => if commit then DidCreate else WillCreate
      case Created => DidCreate
      case PossibleDuplicate => HeldDuplicate
      case Failed => DidFail;
    ResultRow(row.rowNumber, outcome, row.errors, row.warnings != [])
  }

  function Results(commit: bool, rows: seq<WorkRow>): (r: seq<ResultRow>)
    ensures |r| == |rows| && forall i | 0 <= i < |rows| :: r[i] == ToRowResult(commit, rows[i])
  {
    seq(|rows|, i requires 0 <= i < |rows| => ToRowResult(commit, rows[i]))
  }

  function CountWhere(rows: seq<ResultRow>, keep: ResultRow -> bool): nat {
    if rows == [] then 0
    else CountWhere(rows[..|rows| - 1], keep) + if keep(rows[|rows| - 1]) then 1 else 0
  }

  function Has(outcome: Outcome): ResultRow -> bool {
    (r: ResultRow) => r.outcome == outcome
  }

  lemma {:induction false} OutcomesCoverRows(rows: seq<ResultRow>)
    ensures CountWhere(rows, Has(WillCreate)) + CountWhere(rows, Has(DidCreate)) + CountWhere(rows, Has(HeldDuplicate))
            + CountWhere(rows, Has(DidFail)) == |rows|
  {
    if rows != [] {
      OutcomesCoverRows(rows[..|rows| - 1]);
    }
  }

  lemma {:induction false} NoneWhere(rows: seq<ResultRow>, keep: ResultRow -> bool)
    requires forall i | 0 <= i < |rows| :: !keep(rows[i])
    ensures CountWhere(rows, keep) == 0
  {
    if rows != [] {
      NoneWhere(rows[..|rows| - 1], keep);
    }
  }

  // ---- one reason a row -----------------------------------------------------------------

  /** The first position of a field in the template, or a number past every position. */
  function IndexIn(columns: seq<string>, field: string): (k: nat)
    ensures k < |columns| <==> field in columns
    ensures k < |columns| ==> columns[k] == field
  {
    if columns == [] || columns[0] == field then 0
    else
      assert columns == [columns[0]] + columns[1..];
      1 + IndexIn(columns[1..], field)
  }

  /** Unknown fields come last. */
  function ColumnIndex(columns: seq<string>): string -> nat {
    (field: string) =>
      var k := IndexIn(columns, field);
      if k < |columns| then k else MAX_SAFE_INTEGER
  }

  function FailureReasonFor(row: ResultRow): Option<string> {
    if row.outcome == HeldDuplicate then Some(POSSIBLE_DUPLICATE_REASON)
    else if row.outcome != DidFail then None
    else Some(ReasonOf(TEMPLATE_COLUMNS, row.errors))
  }

  /** The template-first error names the row; the batch marker and an empty list read as a rolled-back batch. */
  function ReasonOf(columns: seq<string>, errors: seq<string>): string {
    var sorted := SortBy(errors, ByRank(ColumnIndex(columns)));
    if sorted == [] || sorted[0] == ROW_LEVEL_ERROR_FIELD then BATCH_ROLLED_BACK_REASON else sorted[0]
  }

  predicate InVocabulary(columns: seq<string>, reason: string) {
    reason in columns || reason == POSSIBLE_DUPLICATE_REASON || reason == BATCH_ROLLED_BACK_REASON
  }

  /**
   * The reasons are promised to be template columns or one of the two literals. A failed row breaks
   * that exactly when it has errors, none of them on a template column, and the one recorded first
   * is neither the batch marker nor a literal itself.
   */
  lemma {:induction false} ReasonIsInVocabularyExactlyWhen(columns: seq<string>, errors: seq<string>)
    requires |columns| <= MAX_SAFE_INTEGER
    ensures InVocabulary(columns, ReasonOf(columns, errors))
            <==> || errors == []
                 || (exists e :: e in errors && e in columns)
                 || errors[0] == ROW_LEVEL_ERROR_FIELD || InVocabulary(columns, errors[0])
  {
    var rank := ColumnIndex(columns);
    if errors != [] {
      var k := LeastComesFirst(errors, rank);
      var first := rank(errors[0]);
      if e :| e in errors && e in columns {
        var j :| 0 <= j < |errors| && errors[j] == e;
        assert rank(errors[k]) <= rank(errors[j]) < |columns|;
      } else {
        forall j | 0 <= j < |errors| ensures rank(errors[j]) == MAX_SAFE_INTEGER {
          assert errors[j] in errors;
        }
        assert first == MAX_SAFE_INTEGER && k == 0;
      }
    }
  }

  /** A row that fails several columns is named by the leftmost of them, whatever order they were found in. */
  lemma {:induction false} LeftmostColumnNamesRow(columns: seq<string>, errors: seq<string>, k: nat)
    requires |columns| <= MAX_SAFE_INTEGER && ROW_LEVEL_ERROR_FIELD !in columns
    requires k < |columns| && columns[k] in errors
    requires forall j | 0 <= j < k :: columns[j] !in errors && columns[j] != columns[k]
    ensures ReasonOf(columns, errors) == columns[k]
  {
    var rank := ColumnIndex(columns);
    var m := LeastComesFirst(errors, rank);
    FirstPosition(columns, k);
    var at :| 0 <= at < |errors| && errors[at] == columns[k];
    assert rank(errors[m]) <= rank(errors[at]) == k;
    assert errors[m] in errors;
  }

  /** A row with no error on a template column is named by its first error, unless that is the batch marker. */
  lemma {:induction false} FirstErrorNamesRow(columns: seq<string>, errors: seq<string>)
    requires forall e | e in errors :: e !in columns
    ensures ReasonOf(columns, errors) == if errors == [] || errors[0] == "_row" then "batch-rolled-back" else errors[0]
  {
    if errors != [] {
      var rank := ColumnIndex(columns);
      var k := LeastComesFirst(errors, rank);
      var first := rank(errors[0]);
      forall j | 0 <= j < |errors| ensures rank(errors[j]) == MAX_SAFE_INTEGER {
        assert errors[j] in errors;
      }
    }
  }

  lemma {:induction false} FirstPosition(columns: seq<string>, k: nat)
    requires k < |columns| && forall j | 0 <= j < k :: columns[j] != columns[k]
    ensures IndexIn(columns, columns[k]) == k
  {
    if k > 0 {
      FirstPosition(columns[1..], k - 1);
    }
  }

  /** The crop requirement is reported on a field that is no template column, so a row failing it alone is such a row. */
  lemma {:induction false} MissingCropsReasonIsNoColumn()
    ensures !InVocabulary(TEMPLATE_COLUMNS, ReasonOf(TEMPLATE_COLUMNS, ["crops"]))
  {
    CropsIsNoColumn();
    ReasonIsInVocabularyExactlyWhen(TEMPLATE_COLUMNS, ["crops"]);
  }

  lemma {:induction false} CropsIsNoColumn()
    ensures !InVocabulary(TEMPLATE_COLUMNS, "crops") && "crops" != ROW_LEVEL_ERROR_FIELD
  {
    assert |"crops"| == 5 && "crops"[0] == 'c';
    assert |POSSIBLE_DUPLICATE_REASON| == 18 && |BATCH_ROLLED_BACK_REASON| == 17 && |ROW_LEVEL_ERROR_FIELD| == 4;
    forall i | 0 <= i < |TEMPLATE_COLUMNS| ensures |TEMPLATE_COLUMNS[i]| != 5 || TEMPLATE_COLUMNS[i][0] != 'c' {
    }
  }

  // ---- the breakdown -----------------------------------------------------------------------

  /** `counts.set(reason, (counts.get(reason) ?? 0) + 1)`, first-come order. */
  function Bump(counts: seq<ReasonCount>, reason: string): seq<ReasonCount> {
    if counts == [] then [ReasonCount(reason, 1)]
    else if counts[0].reason == reason then [ReasonCount(reason, counts[0].count + 1)] + counts[1..]
    else [counts[0]] + Bump(counts[1..], reason)
  }

  function Tally(rows: seq<ResultRow>): seq<ReasonCount> {
    if rows == [] then []
    else
      var earlier, reason := Tally(rows[..|rows| - 1]), FailureReasonFor(rows[|rows| - 1]);
      if reason.Some? then Bump(earlier, reason.value) else earlier
  }

  /** `<` on strings: code unit by code unit. */
  predicate TextBefore(a: string, b: string) {
    b != "" && (a == "" || a[0] < b[0] || (a[0] == b[0] && TextBefore(a[1..], b[1..])))
  }

  /** The first place where two texts differ. */
  predicate FirstDifference(a: string, b: string, k: nat) {
    k <= |a| && k <= |b| && a[..k] == b[..k] && (k == |a| || k == |b| || a[k] != b[k])
  }

  /** A text comes first if the first unit that differs is smaller, or if it ends there and the other goes on. */
  lemma {:induction false} TextBeforeExactlyWhen(a: string, b: string, k: nat)
    requires FirstDifference(a, b, k)
    ensures TextBefore(a, b) <==> k < |b| && (k == |a| || a[k] < b[k])
  {
    if k > 0 {
      assert a[0] == a[..k][0] == b[..k][0] == b[0];
      assert a[..k][1..] == a[1..][..k - 1] && b[..k][1..] == b[1..][..k - 1];
      TextBeforeExactlyWhen(a[1..], b[1..], k - 1);
    }
  }

  lemma {:induction false} TextIsLinear(a: string, b: string, c: string)
    ensures TextBefore(a, b) ==> !TextBefore(b, a)
    ensures a != b ==> TextBefore(a, b) || TextBefore(b, a)
    ensures TextBefore(a, b) && TextBefore(b, c) ==> TextBefore(a, c)
    decreases |a| + |b| + |c|
  {
    if a != "" && b != "" {
      assert a == [a[0]] + a[1..] && b == [b[0]] + b[1..];
      TextIsLinear(a[1..], b[1..], if c != "" then c[1..] else c);
    }
  }

  function MoreFrequent(): (ReasonCount, ReasonCount) -> bool {
    (a: ReasonCount, b: ReasonCount) => a.count > b.count || (a.count == b.count && TextBefore(a.reason, b.reason))
  }

  function Breakdown(rows: seq<ResultRow>): seq<ReasonCount> {
    SortBy(Tally(rows), MoreFrequent())
  }

  method BuildFailureBreakdown(rows: seq<ResultRow>) returns (r: seq<ReasonCount>)
    ensures r == Breakdown(rows)
  {
    var counts: seq<ReasonCount> := [];
    for i := 0 to |rows|
      invariant counts == Tally(rows[..i])
    {
      assert rows[..i + 1][..i] == rows[..i];
      var reason := FailureReasonFor(rows[i]);
      if reason.Some? {
        counts := Bump(counts, reason.value);
      }
    }
    assert rows[..|rows|] == rows;
    r := SortBy(counts, MoreFrequent());
  }

  predicate DistinctReasons(counts: seq<ReasonCount>) {
    forall i, j | 0 <= i < j < |counts| :: counts[i].reason != counts[j].reason
  }

  function Sum(counts: seq<ReasonCount>): nat {
    if counts == [] then 0 else counts[0].count + Sum(counts[1..])
  }

  /** The count these entries give a reason: zero when none names it. */
  function CountFor(counts: seq<ReasonCount>, reason: string): nat {
    if counts == [] then 0
    else (if counts[0].reason == reason then counts[0].count else 0) + CountFor(counts[1..], reason)
  }

  function BecauseOf(reason: string): ResultRow -> bool {
    (r: ResultRow) => FailureReasonFor(r) == Some(reason)
  }

  lemma {:induction false} BumpAddsOne(counts: seq<ReasonCount>, reason: string, other: string)
    requires DistinctReasons(counts)
    ensures DistinctReasons(Bump(counts, reason)) && Sum(Bump(counts, reason)) == Sum(counts) + 1
    ensures CountFor(Bump(counts, reason), other) == CountFor(counts, other) + if other == reason then 1 else 0
    ensures forall i | 0 <= i < |Bump(counts, reason)| ::
              Bump(counts, reason)[i].reason == reason
              || exists j :: 0 <= j < |counts| && counts[j].reason == Bump(counts, reason)[i].reason
  {
    if counts != [] && counts[0].reason != reason {
      BumpAddsOne(counts[1..], reason, other);
      var rest := Bump(counts[1..], reason);
      forall i | 0 <= i < |rest|
        ensures rest[i].reason == reason || exists j :: 0 <= j < |counts| && counts[j].reason == rest[i].reason
        ensures rest[i].reason != counts[0].reason
      {
        if rest[i].reason != reason {
          var j :| 0 <= j < |counts[1..]| && counts[1..][j].reason == rest[i].reason;
          assert counts[j + 1].reason == rest[i].reason;
        }
      }
    } else if counts != [] {
      assert Bump(counts, reason)[1..] == counts[1..];
    }
  }

  lemma {:induction false} TallyMeaning(rows: seq<ResultRow>, reason: string)
    ensures DistinctReasons(Tally(rows))
    ensures CountFor(Tally(rows), reason) == CountWhere(rows, BecauseOf(reason))
    ensures Sum(Tally(rows)) == CountWhere(rows, Has(DidFail)) + CountWhere(rows, Has(HeldDuplicate))
  {
    if rows != [] {
      var n := |rows| - 1;
      TallyMeaning(rows[..n], reason);
      var why := FailureReasonFor(rows[n]);
      if why.Some? {
        BumpAddsOne(Tally(rows[..n]), why.value, reason);
      }
    }
  }

  lemma {:induction false} InsertKeepsCounts(x: ReasonCount, s: seq<ReasonCount>, reason: string)
    ensures Sum(Insert(x, s, MoreFrequent())) == x.count + Sum(s)
    ensures CountFor(Insert(x, s, MoreFrequent()), reason) == CountFor([x], reason) + CountFor(s, reason)
  {
    if s != [] && !MoreFrequent()(x, s[0]) {
      InsertKeepsCounts(x, s[1..], reason);
    }
  }

  lemma {:induction false} LastCount(s: seq<ReasonCount>, reason: string)
    requires s != []
    ensures Sum(s) == Sum(s[..|s| - 1]) + s[|s| - 1].count
    ensures CountFor(s, reason) == CountFor(s[..|s| - 1], reason) + CountFor([s[|s| - 1]], reason)
  {
    if |s| > 1 {
      LastCount(s[1..], reason);
      assert s[1..][..|s| - 2] == s[..|s| - 1][1..];
    }
  }

  lemma {:induction false} SortKeepsCounts(s: seq<ReasonCount>, reason: string)
    ensures Sum(SortBy(s, MoreFrequent())) == Sum(s)
    ensures CountFor(SortBy(s, MoreFrequent()), reason) == CountFor(s, reason)
  {
    if s != [] {
      var n := |s| - 1;
      SortKeepsCounts(s[..n], reason);
      InsertKeepsCounts(s[n], SortBy(s[..n], MoreFrequent()), reason);
      LastCount(s, reason);
    }
  }

  lemma {:induction false} FrequencyIsLinear(counts: seq<ReasonCount>)
    requires DistinctReasons(counts)
    ensures Linear(MoreFrequent(), Elements(counts)) && NoRepeat(counts)
  {
    forall a, b | a in Elements(counts) && b in Elements(counts)
      ensures MoreFrequent()(a, b) ==> !MoreFrequent()(b, a)
      ensures a != b ==> MoreFrequent()(a, b) || MoreFrequent()(b, a)
    {
      TextIsLinear(a.reason, b.reason, "");
    }
    forall a, b, c | a in Elements(counts) && b in Elements(counts) && c in Elements(counts)
      ensures MoreFrequent()(a, b) && MoreFrequent()(b, c) ==> MoreFrequent()(a, c)
    {
      TextIsLinear(a.reason, b.reason, c.reason);
    }
  }

  /**
   * The breakdown balances: every reason once, the count of each the number of rows that did not
   * import because of it, the counts together the rows that failed or were held, most frequent
   * first and alphabetical among equals.
   */
  lemma {:induction false} BreakdownMeaning(rows: seq<ResultRow>, reason: string)
    ensures var b := Breakdown(rows);
            && DistinctReasons(b) && Ordered(b, MoreFrequent())
            && CountFor(b, reason) == CountWhere(rows, BecauseOf(reason))
            && Sum(b) == CountWhere(rows, Has(DidFail)) + CountWhere(rows, Has(HeldDuplicate))
  {
    var t, b := Tally(rows), Breakdown(rows);
    TallyMeaning(rows, reason);
    FrequencyIsLinear(t);
    SortIsOrdered(t, MoreFrequent());
    SortHasSameElements(t, MoreFrequent());
    SortKeepsCounts(t, reason);
    forall i, j | 0 <= i < j < |b| ensures b[i].reason != b[j].reason {
      assert b[i] in t && b[j] in t && MoreFrequent()(b[i], b[j]);
      TextIsLinear(b[i].reason, b[j].reason, "");
    }
  }

  // ---- the report, read off the working rows ------------------------------------------------

  function CountState(rows: seq<WorkRow>, state: RowState): nat {
    if rows == [] then 0
    else CountState(rows[..|rows| - 1], state) + if rows[|rows| - 1].state == state then 1 else 0
  }

  function CountWarned(rows: seq<WorkRow>): nat {
    if rows == [] then 0 else CountWarned(rows[..|rows| - 1]) + if rows[|rows| - 1].warnings != [] then 1 else 0
  }

  /** A held row is counted under its own literal, a failed one under the column or literal its errors give. */
  predicate NamedBy(row: WorkRow, reason: string) {
    || (row.state == PossibleDuplicate && reason == "possible-duplicate")
    || (row.state == Failed && reason == ReasonOf(TEMPLATE_COLUMNS, row.errors))
  }

  function CountNamed(rows: seq<WorkRow>, reason: string): nat {
    if rows == [] then 0
    else CountNamed(rows[..|rows| - 1], reason) + if NamedBy(rows[|rows| - 1], reason) then 1 else 0
  }

  /** What a report says of one row. */
  predicate ReportsRow(r: ResultRow, commit: bool, row: WorkRow) {
    && r.rowNumber == row.rowNumber && r.errors == row.errors && (r.hasWarnings <==> row.warnings != [])
    && (r.outcome == HeldDuplicate <==> row.state == PossibleDuplicate)
    && (r.outcome == DidFail <==> row.state == Failed)
    && (r.outcome == DidCreate <==> row.state == Created || (commit && row.state == CandidateRow))
    && (r.outcome == WillCreate <==> !commit && row.state == CandidateRow)
  }

  /** More rows first, then the smaller text. */
  predicate ReasonsOrdered(counts: seq<ReasonCount>) {
    forall i, j :: 0 <= i < j < |counts| ==>
                     || counts[i].count > counts[j].count
                     || (counts[i].count == counts[j].count && TextBefore(counts[i].reason, counts[j].reason))
  }

  /** Each row under the outcome of its state, each total the number of rows in a state, each reason its rows. */
  ghost predicate Reports(report: Report, commit: bool, rows: seq<WorkRow>) {
    && |report.rows| == |rows| && (forall i :: 0 <= i < |rows| ==> ReportsRow(report.rows[i], commit, rows[i]))
    && report.possibleDuplicate == CountState(rows, PossibleDuplicate)
    && report.failed == CountState(rows, Failed)
    && report.warnings == CountWarned(rows)
    && report.created == (if commit then CountState(rows, Created) + CountState(rows, CandidateRow) else 0)
    && report.toCreate == (if commit then report.created else CountState(rows, CandidateRow))
    && (forall reason :: CountFor(report.failureBreakdown, reason) == CountNamed(rows, reason))
    && DistinctReasons(report.failureBreakdown) && ReasonsOrdered(report.failureBreakdown)
    && forall i :: 0 <= i < |report.failureBreakdown| ==> report.failureBreakdown[i].count > 0
  }

  lemma {:induction false} ResultsPrefix(commit: bool, rows: seq<WorkRow>)
    requires rows != []
    ensures Results(commit, rows)[..|rows| - 1] == Results(commit, rows[..|rows| - 1])
    ensures Results(commit, rows)[|rows| - 1] == ToRowResult(commit, rows[|rows| - 1])
  {
  }

  lemma {:induction false} OutcomesCountStates(commit: bool, rows: seq<WorkRow>)
    ensures var r := Results(commit, rows);
            && CountWhere(r, Has(HeldDuplicate)) == CountState(rows, PossibleDuplicate)
            && CountWhere(r, Has(DidFail)) == CountState(rows, Failed)
            && CountWhere(r, Has(DidCreate))
               == CountState(rows, Created) + (if commit then CountState(rows, CandidateRow) else 0)
            && CountWhere(r, Has(WillCreate)) == (if commit then 0 else CountState(rows, CandidateRow))
  {
    if rows != [] {
      ResultsPrefix(commit, rows);
      OutcomesCountStates(commit, rows[..|rows| - 1]);
    }
  }

  lemma {:induction false} WarningsCountRows(commit: bool, rows: seq<WorkRow>, warned: ResultRow -> bool)
    requires forall r :: warned(r) == r.hasWarnings
    ensures CountWhere(Results(commit, rows), warned) == CountWarned(rows)
  {
    if rows != [] {
      ResultsPrefix(commit, rows);
      WarningsCountRows(commit, rows[..|rows| - 1], warned);
    }
  }

  lemma {:induction false} ReasonsCountRows(commit: bool, rows: seq<WorkRow>, reason: string)
    ensures CountWhere(Results(commit, rows), BecauseOf(reason)) == CountNamed(rows, reason)
  {
    if rows != [] {
      ResultsPrefix(commit, rows);
      ReasonsCountRows(commit, rows[..|rows| - 1], reason);
    }
  }

  lemma {:induction false} TallyIsPositive(rows: seq<ResultRow>)
    ensures forall i | 0 <= i < |Tally(rows)| :: Tally(rows)[i].count > 0
  {
    if rows != [] {
      TallyIsPositive(rows[..|rows| - 1]);
      var reason := FailureReasonFor(rows[|rows| - 1]);
      if reason.Some? {
        BumpIsPositive(Tally(rows[..|rows| - 1]), reason.value);
      }
    }
  }

  lemma {:induction false} BumpIsPositive(counts: seq<ReasonCount>, reason: string)
    requires forall i | 0 <= i < |counts| :: counts[i].count > 0
    ensures forall i | 0 <= i < |Bump(counts, reason)| :: Bump(counts, reason)[i].count > 0
  {
    if counts != [] && counts[0].reason != reason {
      BumpIsPositive(counts[1..], reason);
    }
  }

  lemma {:induction false} BreakdownOfRows(commit: bool, rows: seq<WorkRow>)
    ensures var b := Breakdown(Results(commit, rows));
            && (forall reason :: CountFor(b, reason) == CountNamed(rows, reason))
            && DistinctReasons(b) && ReasonsOrdered(b)
            && forall i :: 0 <= i < |b| ==> b[i].count > 0
  {
    var results := Results(commit, rows);
    var t, b := Tally(results), Breakdown(results);
    forall reason ensures CountFor(b, reason) == CountNamed(rows, reason) {
      BreakdownMeaning(results, reason);
      ReasonsCountRows(commit, rows, reason);
    }
    BreakdownMeaning(results, "");
    TallyIsPositive(results);
    SortHasSameElements(t, MoreFrequent());
    forall i, j | 0 <= i < j < |b|
      ensures b[i].count > b[j].count || (b[i].count == b[j].count && TextBefore(b[i].reason, b[j].reason))
    {
      assert MoreFrequent()(b[i], b[j]);
    }
    forall i | 0 <= i < |b| ensures b[i].count > 0 {
      assert b[i] in b;
    }
  }

  lemma {:induction false} TotalsReport(report: Report, commit: bool, rows: seq<WorkRow>, warned: ResultRow -> bool)
    requires report.rows == Results(commit, rows) && forall r :: warned(r) == r.hasWarnings
    requires report.possibleDuplicate == CountWhere(report.rows, Has(HeldDuplicate))
    requires report.failed == CountWhere(report.rows, Has(DidFail)) && report.warnings == CountWhere(report.rows, warned)
    requires report.created == if commit then CountWhere(report.rows, Has(DidCreate)) else 0
    requires report.toCreate == if commit then report.created else CountWhere(report.rows, Has(WillCreate))
    requires report.failureBreakdown == Breakdown(report.rows)
    ensures Reports(report, commit, rows)
  {
    OutcomesCountStates(commit, rows);
    WarningsCountRows(commit, rows, warned);
    BreakdownOfRows(commit, rows);
  }

  // ---- the report ------------------------------------------------------------------------------

  method BuildReport(commit: bool, rows: seq<WorkRow>) returns (report: Report)
    ensures Reports(report, commit, rows)
    ensures report.rows == Results(commit, rows)
    ensures report.possibleDuplicate == CountWhere(report.rows, Has(HeldDuplicate))
    ensures report.failed == CountWhere(report.rows, Has(DidFail))
    ensures report.warnings == CountWhere(report.rows, (r: ResultRow) => r.hasWarnings)
    ensures report.failureBreakdown == Breakdown(report.rows)
    ensures Sum(report.failureBreakdown) == report.failed + report.possibleDuplicate
    ensures commit ==> report.toCreate == report.created
    ensures !commit ==> report.created == 0
    ensures (commit || forall i | 0 <= i < |rows| :: rows[i].state != Created) ==>
              report.toCreate + report.possibleDuplicate + report.failed == |rows|
  {
    var results, warned := Results(commit, rows), (r: ResultRow) => r.hasWarnings;
    var created := CountWhere(results, Has(DidCreate));
    var toCreate := if commit then created else CountWhere(results, Has(WillCreate));
    var breakdown := BuildFailureBreakdown(results);
    report := Report(results, toCreate, if commit then created else 0,
                     CountWhere(results, Has(HeldDuplicate)), CountWhere(results, Has(DidFail)),
                     CountWhere(results, warned), breakdown);
    BreakdownMeaning(results, "");
    TotalsReport(report, commit, rows, warned);
    OutcomesCoverRows(results);
    NoneWhere(results, if commit then Has(WillCreate) else (r: ResultRow) => false);
    if !commit && forall i | 0 <= i < |rows| :: rows[i].state != Created {
      NoneWhere(results, Has(DidCreate));
    }
  }
}
