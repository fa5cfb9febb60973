/**
 Reading a reviewer report: the outcome of every reviewer check, and every reason the report is
 not usable.  A report is either full (cases with checks) or a compact baseline.
 */
module ReviewReports {
  import opened Lists
  import opened Ordering
  import opened Documents

  /** A required combination of protocol version and transport. */
  datatype Place = Place(mode: string, transport: string)

  datatype CheckId = CheckId(mode: string, transport: string, name: string)

  datatype ReviewCheck = NotACheck | ReviewCheck(name: Field, success: Option<bool>)

  datatype ReviewCase =
    | NotACase
    | ReviewCase(mode: Field, transport: Field, checks: Option<seq<ReviewCheck>>, success: Option<bool>)

  datatype CaseRecord = NotACaseRecord | CaseRecord(mode: Field, transport: Field)

  datatype CheckRecord = NotACheckRecord | CheckRecord(mode: Field, transport: Field, checkId: Field)

  datatype ReviewChecks = ReviewChecks(passing: Option<seq<CheckRecord>>, failing: Option<seq<CheckRecord>>)

  datatype Totals = Totals(passed: int, failed: int, total: int, casesPassed: int, casesTotal: int)

  datatype ReviewReport = ReviewReport(schemaVersion: int, reviewer: Field, baselineKind: Option<string>,
                                       modes: seq<string>, requiredModes: seq<string>,
                                       requiredCases: Option<seq<CaseRecord>>, checks: Option<ReviewChecks>,
                                       cases: Option<seq<ReviewCase>>, summary: Option<Totals>, success: Option<bool>)

  /** The protocol versions and cases a reviewer run must cover. */
  datatype Suite = Suite(modes: seq<string>, cases: set<Place>)

  const SCHEMA_VERSION := 1
  const REVIEWER := "codex-mcp-regression-suite"
  const COMPACT_KIND := "mcp-review-regression-baseline-v1"
  const PREFIX := "review/"

  datatype ReviewIssue =
    | WrongSchema | WrongReviewer | WrongModes | UnsupportedFormat | NoRequiredCases | NoIdentities | NoCases
    | MalformedCase | DuplicateCase | UnexpectedCaseListed | NoBucket(success: bool) | MalformedRecord(success: bool)
    | DuplicateCheck | MalformedCheck | NoChecks(place: Place) | InconsistentCase(place: Place)
    | MissingCase(place: Place) | UnexpectedCase(place: Place) | InconsistentTotals | InconsistentSuccess

  /** What has been read so far. */
  datatype Reading = Reading(places: set<Place>, outcomes: map<CheckId, bool>, issues: seq<ReviewIssue>)

  function Flag(rd: Reading, issue: ReviewIssue): Reading {
    rd.(issues := rd.issues + [issue])
  }

  predicate WellFormed(suite: Suite, id: CheckId) {
    PREFIX <= id.name && Place(id.mode, id.transport) in suite.cases
  }

  // ----- Compact baselines -----

  function ToCaseRecord(place: Place): CaseRecord {
    CaseRecord(Text(place.mode), Text(place.transport))
  }

  function ToCheckRecord(id: CheckId): CheckRecord {
    CheckRecord(Text(id.mode), Text(id.transport), Text(id.name))
  }

  function AddCaseRecord(rd: Reading, record: CaseRecord): Reading {
    if record.NotACaseRecord? || !record.mode.Text? || !record.transport.Text? then Flag(rd, MalformedCase)
    else
      var place := Place(record.mode.text, record.transport.text);
      if place in rd.places then Flag(rd, DuplicateCase) else rd.(places := rd.places + {place})
  }

  function AddCheckRecord(suite: Suite, success: bool, rd: Reading, record: CheckRecord): Reading {
    if record.NotACheckRecord? || !record.mode.Text? || !record.transport.Text? || !record.checkId.Text? then
      Flag(rd, MalformedRecord(success))
    else
      var id := CheckId(record.mode.text, record.transport.text, record.checkId.text);
      if !WellFormed(suite, id) then Flag(rd, MalformedRecord(success))
      else if id in rd.outcomes then Flag(rd, DuplicateCheck)
      else rd.(outcomes := rd.outcomes[id := success])
  }

  ghost function AddCaseRecords(rd: Reading, records: seq<CaseRecord>): Reading {
    Fold((t, record) => AddCaseRecord(t, record), rd, records)
  }

  ghost function AddCheckRecords(suite: Suite, success: bool, rd: Reading, records: seq<CheckRecord>): Reading {
    Fold((t, record) => AddCheckRecord(suite, success, t, record), rd, records)
  }

  ghost function AddBucket(suite: Suite, success: bool, rd: Reading, records: Option<seq<CheckRecord>>): Reading {
    if records.None? then Flag(rd, NoBucket(success)) else AddCheckRecords(suite, success, rd, records.value)
  }

  ghost function ReadCompact(suite: Suite, r: ReviewReport, rd: Reading): Reading {
    var kind := if r.baselineKind != Some(COMPACT_KIND) then Flag(rd, UnsupportedFormat) else rd;
    var cases := if r.requiredCases.None? then Flag(kind, NoRequiredCases) else AddCaseRecords(kind, r.requiredCases.value);
    if r.checks.None? then Flag(Flag(Flag(cases, NoIdentities), NoBucket(true)), NoBucket(false))
    else AddBucket(suite, false, AddBucket(suite, true, cases, r.checks.value.passing), r.checks.value.failing)
  }

  // ----- Full reports -----

  datatype CaseReading = CaseReading(reading: Reading, success: bool)

  function AddCheck(place: Place, cr: CaseReading, check: ReviewCheck): CaseReading {
    if check.NotACheck? || !check.name.Text? || !(PREFIX <= check.name.text) || check.success.None? then
      cr.(reading := Flag(cr.reading, MalformedCheck))
    else
      var id := CheckId(place.mode, place.transport, check.name.text);
      if id in cr.reading.outcomes then cr.(reading := Flag(cr.reading, DuplicateCheck))
      else CaseReading(cr.reading.(outcomes := cr.reading.outcomes[id := check.success.value]),
                       cr.success && check.success.value)
  }

  ghost function AddChecks(place: Place, rd: Reading, checks: seq<ReviewCheck>): CaseReading {
    Fold((t, check) => AddCheck(place, t, check), CaseReading(rd, true), checks)
  }

  ghost function AddCase(suite: Suite, rd: Reading, case_: ReviewCase): Reading {
    if case_.NotACase? then Flag(rd, MalformedCase)
    else if !case_.mode.Text? || !case_.transport.Text? || Place(case_.mode.text, case_.transport.text) !in suite.cases then
      Flag(rd, UnexpectedCaseListed)
    else
      var place := Place(case_.mode.text, case_.transport.text);
      if place in rd.places then Flag(rd, DuplicateCase)
      else
        var placed := rd.(places := rd.places + {place});
        if case_.checks.None? || case_.checks.value == [] then Flag(placed, NoChecks(place))
        else
          var cr := AddChecks(place, placed, case_.checks.value);
          if case_.success != Some(cr.success) then Flag(cr.reading, InconsistentCase(place)) else cr.reading
  }

  ghost function AddCases(suite: Suite, rd: Reading, cases: seq<ReviewCase>): Reading {
    Fold((t, case_) => AddCase(suite, t, case_), rd, cases)
  }

  ghost function ReadFull(suite: Suite, r: ReviewReport, rd: Reading): Reading {
    if r.cases.None? then Flag(rd, NoCases) else AddCases(suite, rd, r.cases.value)
  }

  // ----- A whole report -----

  function HeaderIssues(suite: Suite, r: ReviewReport): seq<ReviewIssue> {
    (if r.schemaVersion != SCHEMA_VERSION then [WrongSchema] else [])
    + (if r.reviewer != Text(REVIEWER) then [WrongReviewer] else [])
    + (if (if r.baselineKind.Some? then r.requiredModes else r.modes) != suite.modes then [WrongModes] else [])
  }

  ghost function Read(suite: Suite, r: ReviewReport): Reading {
    var rd := Reading({}, map[], HeaderIssues(suite, r));
    if r.baselineKind.Some? then ReadCompact(suite, r, rd) else ReadFull(suite, r, rd)
  }

  predicate At(id: CheckId, place: Place) {
    id.mode == place.mode && id.transport == place.transport
  }

  /** All checks of the case passed, and it has some. */
  predicate CasePassed(outcomes: map<CheckId, bool>, place: Place) {
    (forall id | id in outcomes :: At(id, place) ==> outcomes[id]) && exists id | id in outcomes :: At(id, place)
  }

  function TotalsOf(places: set<Place>, outcomes: map<CheckId, bool>): Totals {
    var passed := |set id | id in outcomes && outcomes[id]|;
    Totals(passed, |outcomes| - passed, |outcomes|, |set p | p in places && CasePassed(outcomes, p)|, |places|)
  }

  function PlaceKey(place: Place): seq<string> {
    [place.mode, place.transport]
  }

  lemma PlaceKeyInjective()
    ensures Injective(PlaceKey)
  {
    forall x: Place, y: Place | PlaceKey(x) == PlaceKey(y)
      ensures x == y
    {
      assert PlaceKey(x)[0] == PlaceKey(y)[0] && PlaceKey(x)[1] == PlaceKey(y)[1];
    }
  }

  ghost function SortedPlaces(places: set<Place>): (r: seq<Place>)
    ensures Ascending(PlaceKey, r) && Elements(r) == places
  {
    PlaceKeyInjective();
    Listing(PlaceKey, places)
  }

  function MissingCases(places: seq<Place>): (r: seq<ReviewIssue>)
    ensures |r| == |places|
  {
    seq(|places|, i requires 0 <= i < |places| => MissingCase(places[i]))
  }

  function UnexpectedCases(places: seq<Place>): (r: seq<ReviewIssue>)
    ensures |r| == |places|
  {
    seq(|places|, i requires 0 <= i < |places| => UnexpectedCase(places[i]))
  }

  function ClosingIssues(r: ReviewReport, places: set<Place>, outcomes: map<CheckId, bool>): seq<ReviewIssue> {
    var totals := TotalsOf(places, outcomes);
    (if r.summary != Some(totals) then [InconsistentTotals] else [])
    + (if r.baselineKind.None? && r.success != Some(places != {} && totals.failed == 0) then [InconsistentSuccess] else [])
  }

  ghost function IssuesIn(suite: Suite, r: ReviewReport): seq<ReviewIssue> {
    var rd := Read(suite, r);
    rd.issues
    + MissingCases(SortedPlaces(suite.cases - rd.places))
    + UnexpectedCases(SortedPlaces(rd.places - suite.cases))
    + ClosingIssues(r, rd.places, rd.outcomes)
  }

  // ----- The reader, step by step -----

  method ReadCheckRecords(suite: Suite, success: bool, rd0: Reading, records: seq<CheckRecord>) returns (rd: Reading)
    ensures rd == AddCheckRecords(suite, success, rd0, records)
  {
    rd := rd0;
    ghost var f := (t: Reading, record: CheckRecord) => AddCheckRecord(suite, success, t, record);
    for i := 0 to |records|
      invariant rd == AddCheckRecords(suite, success, rd0, records[..i])
    {
      FoldNext(f, rd0, records, i);
      var record := records[i];
      if record.NotACheckRecord? || !record.mode.Text? || !record.transport.Text? || !record.checkId.Text? {
        rd := Flag(rd, MalformedRecord(success));
      } else {
        var id := CheckId(record.mode.text, record.transport.text, record.checkId.text);
        if !WellFormed(suite, id) {
          rd := Flag(rd, MalformedRecord(success));
        } else if id in rd.outcomes {
          rd := Flag(rd, DuplicateCheck);
        } else {
          rd := rd.(outcomes := rd.outcomes[id := success]);
        }
      }
    }
    assert records[..|records|] == records;
  }

  method ReadCaseRecords(rd0: Reading, records: seq<CaseRecord>) returns (rd: Reading)
    ensures rd == AddCaseRecords(rd0, records)
  {
    rd := rd0;
    for i := 0 to |records|
      invariant rd == AddCaseRecords(rd0, records[..i])
    {
      FoldNext((t: Reading, record: CaseRecord) => AddCaseRecord(t, record), rd0, records, i);
      var record := records[i];
      if record.NotACaseRecord? || !record.mode.Text? || !record.transport.Text? {
        rd := Flag(rd, MalformedCase);
      } else if Place(record.mode.text, record.transport.text) in rd.places {
        rd := Flag(rd, DuplicateCase);
      } else {
        rd := rd.(places := rd.places + {Place(record.mode.text, record.transport.text)});
      }
    }
    assert records[..|records|] == records;
  }

  method ReadChecks(place: Place, rd0: Reading, checks: seq<ReviewCheck>) returns (cr: CaseReading)
    ensures cr == AddChecks(place, rd0, checks)
  {
    cr := CaseReading(rd0, true);
    for i := 0 to |checks|
      invariant cr == AddChecks(place, rd0, checks[..i])
    {
      FoldNext((t: CaseReading, check: ReviewCheck) => AddCheck(place, t, check), CaseReading(rd0, true), checks, i);
      var check, rd, success := checks[i], cr.reading, cr.success;
      if check.NotACheck? || !check.name.Text? || !(PREFIX <= check.name.text) || check.success.None? {
        rd := Flag(rd, MalformedCheck);
      } else {
        var id := CheckId(place.mode, place.transport, check.name.text);
        if id in rd.outcomes {
          rd := Flag(rd, DuplicateCheck);
        } else {
          rd := rd.(outcomes := rd.outcomes[id := check.success.value]);
          success := success && check.success.value;
        }
      }
      cr := CaseReading(rd, success);
    }
    assert checks[..|checks|] == checks;
  }

  method ReadCase(suite: Suite, rd0: Reading, case_: ReviewCase) returns (rd: Reading)
    ensures rd == AddCase(suite, rd0, case_)
  {
    if case_.NotACase? {
      return Flag(rd0, MalformedCase);
    }
    if !case_.mode.Text? || !case_.transport.Text? || Place(case_.mode.text, case_.transport.text) !in suite.cases {
      return Flag(rd0, UnexpectedCaseListed);
    }
    var place := Place(case_.mode.text, case_.transport.text);
    if place in rd0.places {
      return Flag(rd0, DuplicateCase);
    }
    rd := rd0.(places := rd0.places + {place});
    if case_.checks.None? || case_.checks.value == [] {
      return Flag(rd, NoChecks(place));
    }
    var cr := ReadChecks(place, rd, case_.checks.value);
    rd := cr.reading;
    if case_.success != Some(cr.success) {
      rd := Flag(rd, InconsistentCase(place));
    }
  }

  method ReadCases(suite: Suite, rd0: Reading, cases: seq<ReviewCase>) returns (rd: Reading)
    ensures rd == AddCases(suite, rd0, cases)
  {
    rd := rd0;
    for i := 0 to |cases|
      invariant rd == AddCases(suite, rd0, cases[..i])
    {
      FoldNext((t: Reading, case_: ReviewCase) => AddCase(suite, t, case_), rd0, cases, i);
      rd := ReadCase(suite, rd, cases[i]);
    }
    assert cases[..|cases|] == cases;
  }

  method ReadReport(suite: Suite, r: ReviewReport) returns (rd: Reading)
    ensures rd == Read(suite, r)
  {
    rd := Reading({}, map[], HeaderIssues(suite, r));
    if r.baselineKind.None? {
      if r.cases.None? {
        rd := Flag(rd, NoCases);
      } else {
        rd := ReadCases(suite, rd, r.cases.value);
      }
      return;
    }
    if r.baselineKind != Some(COMPACT_KIND) {
      rd := Flag(rd, UnsupportedFormat);
    }
    if r.requiredCases.None? {
      rd := Flag(rd, NoRequiredCases);
    } else {
      rd := ReadCaseRecords(rd, r.requiredCases.value);
    }
    if r.checks.None? {
      rd := Flag(Flag(Flag(rd, NoIdentities), NoBucket(true)), NoBucket(false));
      return;
    }
    rd := ReadBucket(suite, true, rd, r.checks.value.passing);
    rd := ReadBucket(suite, false, rd, r.checks.value.failing);
  }

  method ReadBucket(suite: Suite, success: bool, rd0: Reading, records: Option<seq<CheckRecord>>) returns (rd: Reading)
    ensures rd == AddBucket(suite, success, rd0, records)
  {
    if records.None? {
      rd := Flag(rd0, NoBucket(success));
    } else {
      rd := ReadCheckRecords(suite, success, rd0, records.value);
    }
  }
}
