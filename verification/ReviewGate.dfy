/**
 The reviewer regression gate and the compaction of its baseline.  Compaction is lossless: the
 compact form reads back to the same outcomes and totals, so every verdict is unchanged.
 */
module ReviewGate {
  import opened Lists
  import opened Ordering
  import opened Documents
  import opened ReviewReports
  import opened ReviewMeaning

  // ----- Sorted lists of checks -----

  function CheckKey(id: CheckId): seq<string> {
    [id.mode, id.transport, id.name]
  }

  lemma CheckKeyInjective()
    ensures Injective(CheckKey)
  {
    forall x: CheckId, y: CheckId | CheckKey(x) == CheckKey(y)
      ensures x == y
    {
      assert CheckKey(x)[0] == CheckKey(y)[0] && CheckKey(x)[1] == CheckKey(y)[1] && CheckKey(x)[2] == CheckKey(y)[2];
    }
  }

  ghost function Sorted(ids: set<CheckId>): (r: seq<CheckId>)
    ensures Ascending(CheckKey, r) && Elements(r) == ids
  {
    CheckKeyInjective();
    Listing(CheckKey, ids)
  }

  function Passed(outcomes: map<CheckId, bool>): set<CheckId> {
    set id | id in outcomes && outcomes[id]
  }

  function Failed(outcomes: map<CheckId, bool>): set<CheckId> {
    set id | id in outcomes && !outcomes[id]
  }

  // ----- What was read is well formed -----

  ghost predicate Sound(suite: Suite, rd: Reading) {
    forall id | id in rd.outcomes :: WellFormed(suite, id)
  }

  lemma BucketSound(suite: Suite, success: bool, rd: Reading, records: Option<seq<CheckRecord>>)
    requires Sound(suite, rd)
    ensures Sound(suite, AddBucket(suite, success, rd, records))
  {
    if records.Some? {
      FoldKeeps(t => Sound(suite, t), (t: Reading, record: CheckRecord) => AddCheckRecord(suite, success, t, record),
                rd, records.value);
    }
  }

  lemma CaseRecordsSound(suite: Suite, rd: Reading, records: seq<CaseRecord>)
    requires Sound(suite, rd)
    ensures Sound(suite, AddCaseRecords(rd, records))
  {
    FoldKeeps(t => Sound(suite, t), (t: Reading, record: CaseRecord) => AddCaseRecord(t, record), rd, records);
  }

  lemma ChecksSound(suite: Suite, place: Place, rd: Reading, checks: seq<ReviewCheck>)
    requires Sound(suite, rd) && place in suite.cases
    ensures Sound(suite, AddChecks(place, rd, checks).reading)
  {
    FoldKeeps((t: CaseReading) => Sound(suite, t.reading), (t: CaseReading, check: ReviewCheck) => AddCheck(place, t, check),
              CaseReading(rd, true), checks);
  }

  lemma CaseSound(suite: Suite, rd: Reading, case_: ReviewCase)
    requires Sound(suite, rd)
    ensures Sound(suite, AddCase(suite, rd, case_))
  {
    if case_.ReviewCase? && case_.mode.Text? && case_.transport.Text? && case_.checks.Some? {
      var place := Place(case_.mode.text, case_.transport.text);
      if place in suite.cases {
        ChecksSound(suite, place, rd.(places := rd.places + {place}), case_.checks.value);
      }
    }
  }

  lemma CasesSound(suite: Suite, rd: Reading, cases: seq<ReviewCase>)
    requires Sound(suite, rd)
    ensures Sound(suite, AddCases(suite, rd, cases))
  {
    forall t, case_ | Sound(suite, t)
      ensures Sound(suite, AddCase(suite, t, case_))
    {
      CaseSound(suite, t, case_);
    }
    FoldKeeps(t => Sound(suite, t), (t: Reading, case_: ReviewCase) => AddCase(suite, t, case_), rd, cases);
  }

  lemma ReadSound(suite: Suite, r: ReviewReport)
    ensures Sound(suite, Read(suite, r))
  {
    var rd := Reading({}, map[], HeaderIssues(suite, r));
    if r.baselineKind.None? {
      if r.cases.Some? { CasesSound(suite, rd, r.cases.value); }
    } else {
      var kind := if r.baselineKind != Some(COMPACT_KIND) then Flag(rd, UnsupportedFormat) else rd;
      if r.requiredCases.Some? { CaseRecordsSound(suite, kind, r.requiredCases.value); }
      var cases := if r.requiredCases.None? then Flag(kind, NoRequiredCases) else AddCaseRecords(kind, r.requiredCases.value);
      if r.checks.Some? {
        BucketSound(suite, true, cases, r.checks.value.passing);
        BucketSound(suite, false, AddBucket(suite, true, cases, r.checks.value.passing), r.checks.value.failing);
      }
    }
  }

  // ----- Compaction -----

  function ToCaseRecords(places: seq<Place>): (records: seq<CaseRecord>)
    ensures |records| == |places|
    ensures forall i :: 0 <= i < |places| ==> records[i] == ToCaseRecord(places[i])
  {
    seq(|places|, i requires 0 <= i < |places| => ToCaseRecord(places[i]))
  }

  function ToCheckRecords(ids: seq<CheckId>): (records: seq<CheckRecord>)
    ensures |records| == |ids|
    ensures forall i :: 0 <= i < |ids| ==> records[i] == ToCheckRecord(ids[i])
  {
    seq(|ids|, i requires 0 <= i < |ids| => ToCheckRecord(ids[i]))
  }

  function CompactReport(suite: Suite, summary: Option<Totals>, places: seq<Place>, passing: seq<CheckId>,
                         failing: seq<CheckId>): ReviewReport
  {
    ReviewReport(SCHEMA_VERSION, Text(REVIEWER), Some(COMPACT_KIND), [], suite.modes, Some(ToCaseRecords(places)),
                 Some(ReviewChecks(Some(ToCheckRecords(passing)), Some(ToCheckRecords(failing)))), None, summary, None)
  }

  ghost function Compact(suite: Suite, r: ReviewReport): Result<ReviewReport, seq<ReviewIssue>> {
    if IssuesIn(suite, r) != [] then Err(IssuesIn(suite, r))
    else
      var outcomes := Read(suite, r).outcomes;
      Ok(CompactReport(suite, r.summary, SortedPlaces(suite.cases), Sorted(Passed(outcomes)), Sorted(Failed(outcomes))))
  }

  // ----- Reading back what compaction wrote -----

  lemma {:induction false} PlacesReadBack(rd: Reading, places: seq<Place>)
    requires Distinct(places) && forall p | p in places :: p !in rd.places
    ensures AddCaseRecords(rd, ToCaseRecords(places)) == rd.(places := rd.places + Elements(places))
  {
    if places == [] {
      assert rd.places + Elements(places) == rd.places;
    } else {
      var n := |places| - 1;
      assert places == places[..n] + [places[n]];
      PlacesReadBack(rd, places[..n]);
      assert ToCaseRecords(places)[..n] == ToCaseRecords(places[..n]);
      assert places[n] !in places[..n];
      FoldNext((t: Reading, record: CaseRecord) => AddCaseRecord(t, record), rd, ToCaseRecords(places), n);
      assert ToCaseRecords(places)[..n + 1] == ToCaseRecords(places);
      assert rd.places + Elements(places) == rd.places + Elements(places[..n]) + {places[n]};
    }
  }

  ghost function WithAll(outcomes: map<CheckId, bool>, ids: set<CheckId>, success: bool): map<CheckId, bool> {
    map id | id in outcomes.Keys + ids :: if id in ids then success else outcomes[id]
  }

  lemma WithAllNext(outcomes: map<CheckId, bool>, ids: set<CheckId>, id: CheckId, success: bool)
    ensures WithAll(outcomes, ids + {id}, success) == WithAll(outcomes, ids, success)[id := success]
  {}

  lemma OneReadBack(suite: Suite, success: bool, rd: Reading, id: CheckId)
    requires WellFormed(suite, id) && id !in rd.outcomes
    ensures AddCheckRecord(suite, success, rd, ToCheckRecord(id)) == rd.(outcomes := rd.outcomes[id := success])
  {}

  lemma ReadOneMore(suite: Suite, success: bool, rd: Reading, records: seq<CheckRecord>)
    requires records != []
    ensures var n := |records| - 1;
            AddCheckRecords(suite, success, rd, records) ==
            AddCheckRecord(suite, success, AddCheckRecords(suite, success, rd, records[..n]), records[n])
  {
    var n := |records| - 1;
    FoldNext((t: Reading, record: CheckRecord) => AddCheckRecord(suite, success, t, record), rd, records, n);
    assert records[..n + 1] == records;
  }

  lemma NextReadBack(suite: Suite, success: bool, rd: Reading, ids: set<CheckId>, id: CheckId)
    requires WellFormed(suite, id) && id !in rd.outcomes && id !in ids
    ensures AddCheckRecord(suite, success, rd.(outcomes := WithAll(rd.outcomes, ids, success)), ToCheckRecord(id)) ==
            rd.(outcomes := WithAll(rd.outcomes, ids + {id}, success))
  {
    OneReadBack(suite, success, rd.(outcomes := WithAll(rd.outcomes, ids, success)), id);
    WithAllNext(rd.outcomes, ids, id, success);
  }

  lemma LastElement(ids: seq<CheckId>)
    requires ids != [] && Distinct(ids)
    ensures var n := |ids| - 1;
            ids[n] !in Elements(ids[..n]) && Elements(ids) == Elements(ids[..n]) + {ids[n]} && Distinct(ids[..n])
  {
    var n := |ids| - 1;
    assert ids == ids[..n] + [ids[n]];
  }

  lemma {:induction false} ChecksReadBack(suite: Suite, success: bool, rd: Reading, ids: seq<CheckId>)
    requires Distinct(ids) && forall id | id in ids :: WellFormed(suite, id) && id !in rd.outcomes
    ensures AddCheckRecords(suite, success, rd, ToCheckRecords(ids)) ==
            rd.(outcomes := WithAll(rd.outcomes, Elements(ids), success))
  {
    if ids == [] {
      assert WithAll(rd.outcomes, Elements(ids), success) == rd.outcomes;
    } else {
      var n := |ids| - 1;
      LastElement(ids);
      ChecksReadBack(suite, success, rd, ids[..n]);
      ReadOneMore(suite, success, rd, ToCheckRecords(ids));
      assert ToCheckRecords(ids)[..n] == ToCheckRecords(ids[..n]);
      NextReadBack(suite, success, rd, Elements(ids[..n]), ids[n]);
    }
  }

  lemma SortedReadBack(suite: Suite, success: bool, rd: Reading, ids: set<CheckId>)
    requires forall id | id in ids :: WellFormed(suite, id) && id !in rd.outcomes
    ensures AddBucket(suite, success, rd, Some(ToCheckRecords(Sorted(ids)))) ==
            rd.(outcomes := WithAll(rd.outcomes, ids, success))
  {
    AscendingDistinct(CheckKey, Sorted(ids));
    forall id | id in Sorted(ids)
      ensures id in ids
    {
      assert id in Elements(Sorted(ids));
    }
    ChecksReadBack(suite, success, rd, Sorted(ids));
  }

  lemma PassedThenFailed(outcomes: map<CheckId, bool>)
    ensures WithAll(WithAll(map[], Passed(outcomes), true), Failed(outcomes), false) == outcomes
  {}

  lemma BucketsReadBack(suite: Suite, placed: Reading, outcomes: map<CheckId, bool>)
    requires placed.outcomes == map[] && forall id | id in outcomes :: WellFormed(suite, id)
    ensures AddBucket(suite, false, AddBucket(suite, true, placed, Some(ToCheckRecords(Sorted(Passed(outcomes))))),
                      Some(ToCheckRecords(Sorted(Failed(outcomes))))) == placed.(outcomes := outcomes)
  {
    SortedReadBack(suite, true, placed, Passed(outcomes));
    var half := placed.(outcomes := WithAll(map[], Passed(outcomes), true));
    SortedReadBack(suite, false, half, Failed(outcomes));
    PassedThenFailed(outcomes);
  }

  lemma CompactReadBack(suite: Suite, summary: Option<Totals>, outcomes: map<CheckId, bool>)
    requires forall id | id in outcomes :: WellFormed(suite, id)
    ensures var c := CompactReport(suite, summary, SortedPlaces(suite.cases), Sorted(Passed(outcomes)), Sorted(Failed(outcomes)));
            Read(suite, c) == Reading(suite.cases, outcomes, [])
  {
    var places := SortedPlaces(suite.cases);
    var c := CompactReport(suite, summary, places, Sorted(Passed(outcomes)), Sorted(Failed(outcomes)));
    var start := Reading({}, map[], []);
    assert HeaderIssues(suite, c) == [];
    AscendingDistinct(PlaceKey, places);
    PlacesReadBack(start, places);
    assert {} + suite.cases == suite.cases;
    BucketsReadBack(suite, Reading(suite.cases, map[], []), outcomes);
  }

  lemma NoIssuesMeans(suite: Suite, r: ReviewReport)
    requires IssuesIn(suite, r) == []
    ensures var rd := Read(suite, r);
            rd.places == suite.cases && r.summary == Some(TotalsOf(rd.places, rd.outcomes))
  {
    var rd := Read(suite, r);
    assert |rd.issues| == 0 && |MissingCases(SortedPlaces(suite.cases - rd.places))| == 0
           && |UnexpectedCases(SortedPlaces(rd.places - suite.cases))| == 0
           && |ClosingIssues(r, rd.places, rd.outcomes)| == 0 by {
      assert |IssuesIn(suite, r)| == 0;
    }
    assert Elements(SortedPlaces(suite.cases - rd.places)) == {} && Elements(SortedPlaces(rd.places - suite.cases)) == {};
  }

  lemma NoIssuesIf(suite: Suite, r: ReviewReport, outcomes: map<CheckId, bool>)
    requires Read(suite, r) == Reading(suite.cases, outcomes, [])
    requires r.baselineKind.Some? && r.summary == Some(TotalsOf(suite.cases, outcomes))
    ensures IssuesIn(suite, r) == []
  {
    PlaceKeyInjective();
    ListingEmpty(PlaceKey, suite.cases - suite.cases);
  }

  /** The compact form of a usable report is usable and reads back to exactly the same outcomes. */
  lemma CompactionIsLossless(suite: Suite, r: ReviewReport)
    requires Compact(suite, r).Ok?
    ensures var c := Compact(suite, r).value;
            && IssuesIn(suite, c) == []
            && Read(suite, c).outcomes == Read(suite, r).outcomes
            && Read(suite, c).places == Read(suite, r).places
            && c.summary == r.summary == Some(TotalsOf(suite.cases, Read(suite, r).outcomes))
  {
    var outcomes, c := Read(suite, r).outcomes, Compact(suite, r).value;
    assert IssuesIn(suite, r) == [];
    ReadSound(suite, r);
    NoIssuesMeans(suite, r);
    CompactReadBack(suite, r.summary, outcomes);
    NoIssuesIf(suite, c, outcomes);
  }

  /** The records list exactly the checks with the outcome, in order. */
  ghost predicate ListsOutcome(records: Option<seq<CheckRecord>>, outcomes: map<CheckId, bool>, success: bool) {
    && records.Some?
    && exists ids :: Ascending(CheckKey, ids) && |ids| == |records.value|
                     && (forall i :: 0 <= i < |ids| ==> records.value[i] == ToCheckRecord(ids[i]))
                     && forall id :: id in ids <==> Has(outcomes, id, success)
  }

  ghost predicate ListsPlaces(records: Option<seq<CaseRecord>>, places: set<Place>) {
    && records.Some?
    && exists listed :: Ascending(PlaceKey, listed) && |listed| == |records.value|
                        && (forall i :: 0 <= i < |listed| ==> records.value[i] == ToCaseRecord(listed[i]))
                        && forall place :: place in listed <==> place in places
  }

  lemma ListedOutcome(outcomes: map<CheckId, bool>, success: bool)
    ensures ListsOutcome(Some(ToCheckRecords(Sorted(if success then Passed(outcomes) else Failed(outcomes)))), outcomes, success)
  {
    var with := if success then Passed(outcomes) else Failed(outcomes);
    var ids := Sorted(with);
    forall id
      ensures id in ids <==> Has(outcomes, id, success)
    {
      InSorted(with, id);
    }
  }

  lemma ListedPlaces(places: set<Place>)
    ensures ListsPlaces(Some(ToCaseRecords(SortedPlaces(places))), places)
  {
    var listed := SortedPlaces(places);
    forall place
      ensures place in listed <==> place in places
    {
      assert place in Elements(listed) <==> place in places;
    }
  }

  /** Compaction refuses a report with its issues, and otherwise writes the sorted cases and checks and the totals. */
  lemma CompactedSays(suite: Suite, r: ReviewReport)
    ensures Compact(suite, r).Err? <==> IssuesIn(suite, r) != []
    ensures Compact(suite, r).Err? ==> Compact(suite, r).error == IssuesIn(suite, r)
    ensures Compact(suite, r).Ok? ==>
              var c, outcomes := Compact(suite, r).value, Read(suite, r).outcomes;
              && c.baselineKind == Some("mcp-review-regression-baseline-v1") && c.summary == r.summary
              && c.cases == None && c.success == None && HeaderRight(suite, c) && ListsPlaces(c.requiredCases, suite.cases)
              && c.checks.Some? && ListsOutcome(c.checks.value.passing, outcomes, true)
              && ListsOutcome(c.checks.value.failing, outcomes, false)
  {
    ListedPlaces(suite.cases);
    ListedOutcome(Read(suite, r).outcomes, true);
    ListedOutcome(Read(suite, r).outcomes, false);
  }

  /** Compacting a compact baseline changes nothing. */
  lemma CompactionIsIdempotent(suite: Suite, r: ReviewReport)
    requires Compact(suite, r).Ok?
    ensures Compact(suite, Compact(suite, r).value) == Compact(suite, r)
  {
    CompactionIsLossless(suite, r);
  }

  // ----- The gate -----

  datatype GateResult = GateResult(baselineIssues: seq<ReviewIssue>, candidateIssues: seq<ReviewIssue>,
                                   knownFailures: seq<CheckId>, newFailures: seq<CheckId>,
                                   missingChecks: seq<CheckId>, fixedChecks: seq<CheckId>)
  {
    predicate Success() {
      baselineIssues == [] && candidateIssues == [] && newFailures == [] && missingChecks == []
    }
  }

  ghost function Gate(suite: Suite, candidate: ReviewReport, baseline: ReviewReport): GateResult {
    var b, c := Read(suite, baseline).outcomes, Read(suite, candidate).outcomes;
    GateResult(IssuesIn(suite, baseline), IssuesIn(suite, candidate),
               Sorted(Failed(c) * Failed(b)), Sorted(Failed(c) - Failed(b)),
               Sorted(b.Keys - c.Keys), Sorted(Failed(b) * Passed(c)))
  }

  /** Every candidate gets the same result against a baseline and against its compact form. */
  lemma CompactionKeepsVerdicts(suite: Suite, r: ReviewReport, candidate: ReviewReport)
    requires Compact(suite, r).Ok?
    ensures Gate(suite, candidate, Compact(suite, r).value) == Gate(suite, candidate, r)
  {
    CompactionIsLossless(suite, r);
  }

  lemma InSorted(ids: set<CheckId>, id: CheckId)
    ensures id in Sorted(ids) <==> id in ids
  {
    assert id in Elements(Sorted(ids)) <==> id in ids;
  }

  /** Each list of the result holds exactly the checks it is named after, in order and without repetition. */
  lemma ListsSay(suite: Suite, candidate: ReviewReport, baseline: ReviewReport, id: CheckId)
    ensures var g := Gate(suite, candidate, baseline);
            var b, c := Read(suite, baseline).outcomes, Read(suite, candidate).outcomes;
            && (id in g.knownFailures <==> Has(c, id, false) && Has(b, id, false))
            && (id in g.newFailures <==> Has(c, id, false) && !Has(b, id, false))
            && (id in g.missingChecks <==> id in b && id !in c)
            && (id in g.fixedChecks <==> Has(b, id, false) && Has(c, id, true))
            && Ascending(CheckKey, g.knownFailures) && Ascending(CheckKey, g.newFailures)
            && Ascending(CheckKey, g.missingChecks) && Ascending(CheckKey, g.fixedChecks)
  {
    var b, c := Read(suite, baseline).outcomes, Read(suite, candidate).outcomes;
    InSorted(Failed(c) * Failed(b), id);
    InSorted(Failed(c) - Failed(b), id);
    InSorted(b.Keys - c.Keys, id);
    InSorted(Failed(b) * Passed(c), id);
  }

  ghost predicate NoRegression(suite: Suite, candidate: ReviewReport, baseline: ReviewReport) {
    var b, c := Read(suite, baseline).outcomes, Read(suite, candidate).outcomes;
    && IssuesIn(suite, baseline) == [] && IssuesIn(suite, candidate) == []
    && (forall id | id in b :: id in c)
    && (forall id | id in c && !c[id] :: id in b && !b[id])
  }

  lemma SortedEmpty(ids: set<CheckId>)
    ensures Sorted(ids) == [] <==> ids == {}
  {
    CheckKeyInjective();
    ListingEmpty(CheckKey, ids);
  }

  lemma NothingNew(b: map<CheckId, bool>, c: map<CheckId, bool>)
    ensures Failed(c) - Failed(b) == {} <==> forall id | id in c && !c[id] :: id in b && !b[id]
  {
    var added := Failed(c) - Failed(b);
    if added == {} {
      forall id | id in c && !c[id]
        ensures id in b && !b[id]
      {
        assert id in Failed(c) && id !in added;
      }
    }
  }

  lemma NothingMissing(b: map<CheckId, bool>, c: map<CheckId, bool>)
    ensures b.Keys - c.Keys == {} <==> forall id | id in b :: id in c
  {
    var missing := b.Keys - c.Keys;
    assert forall id :: id in missing <==> id in b && id !in c;
  }

  lemma SuccessIff(suite: Suite, candidate: ReviewReport, baseline: ReviewReport)
    ensures Gate(suite, candidate, baseline).Success() <==> NoRegression(suite, candidate, baseline)
  {
    var b, c := Read(suite, baseline).outcomes, Read(suite, candidate).outcomes;
    SortedEmpty(Failed(c) - Failed(b));
    SortedEmpty(b.Keys - c.Keys);
    NothingNew(b, c);
    NothingMissing(b, c);
  }

  /** A report passes against itself exactly when it is usable as a baseline. */
  lemma GateIsReflexiveIff(suite: Suite, r: ReviewReport)
    ensures Gate(suite, r, r).Success() <==> Compact(suite, r).Ok?
  {
    SuccessIff(suite, r, r);
  }

  lemma GateIsTransitive(suite: Suite, r0: ReviewReport, r1: ReviewReport, r2: ReviewReport)
    requires Gate(suite, r1, r0).Success() && Gate(suite, r2, r1).Success()
    ensures Gate(suite, r2, r0).Success()
  {
    SuccessIff(suite, r1, r0);
    SuccessIff(suite, r2, r1);
    SuccessIff(suite, r2, r0);
  }

  // ----- The operations, step by step -----

  method SortIds(ids: set<CheckId>) returns (r: seq<CheckId>)
    ensures r == Sorted(ids)
  {
    CheckKeyInjective();
    r := SortSet(CheckKey, ids);
    AscendingUnique(CheckKey, r, Sorted(ids));
  }

  method CompactReviewRegressionBaseline(suite: Suite, r: ReviewReport) returns (result: Result<ReviewReport, seq<ReviewIssue>>)
    ensures result == Compact(suite, r)
  {
    var outcomes, issues := RequiredReviewChecks(suite, r);
    if issues != [] {
      return Err(issues);
    }
    PlaceKeyInjective();
    var places := SortSet(PlaceKey, suite.cases);
    AscendingUnique(PlaceKey, places, SortedPlaces(suite.cases));
    var passing := SortIds(Passed(outcomes));
    var failing := SortIds(Failed(outcomes));
    result := Ok(CompactReport(suite, r.summary, places, passing, failing));
  }

  lemma KeepIsSorted(s: seq<CheckId>, kept: set<CheckId>)
    requires Ascending(CheckKey, s) && kept <= Elements(s)
    ensures Keep(s, kept) == Sorted(kept)
  {
    CheckKeyInjective();
    KeepIsListing(CheckKey, s, kept);
  }

  method EvaluateReviewRegressionGate(suite: Suite, candidate: ReviewReport, baseline: ReviewReport) returns (g: GateResult)
    ensures g == Gate(suite, candidate, baseline)
  {
    var b, baselineIssues := RequiredReviewChecks(suite, baseline);
    var c, candidateIssues := RequiredReviewChecks(suite, candidate);
    var known, added := CompareFailures(c, b);
    var missing, fixed := CompareBaseline(c, b);
    g := GateResult(baselineIssues, candidateIssues, known, added, missing, fixed);
  }

  method CompareFailures(c: map<CheckId, bool>, b: map<CheckId, bool>) returns (known: seq<CheckId>, added: seq<CheckId>)
    ensures known == Sorted(Failed(c) * Failed(b)) && added == Sorted(Failed(c) - Failed(b))
  {
    var sorted := SortIds(c.Keys);
    known, added := [], [];
    for i := 0 to |sorted|
      invariant known == Keep(sorted[..i], Failed(c) * Failed(b))
      invariant added == Keep(sorted[..i], Failed(c) - Failed(b))
    {
      var id := sorted[i];
      assert id in Elements(sorted);
      KeepNext(sorted, Failed(c) * Failed(b), i);
      KeepNext(sorted, Failed(c) - Failed(b), i);
      if !c[id] {
        if id in b && !b[id] {
          known := known + [id];
        } else {
          added := added + [id];
        }
      }
    }
    assert sorted[..|sorted|] == sorted;
    KeepIsSorted(sorted, Failed(c) * Failed(b));
    KeepIsSorted(sorted, Failed(c) - Failed(b));
  }

  method CompareBaseline(c: map<CheckId, bool>, b: map<CheckId, bool>) returns (missing: seq<CheckId>, fixed: seq<CheckId>)
    ensures missing == Sorted(b.Keys - c.Keys) && fixed == Sorted(Failed(b) * Passed(c))
  {
    var sorted := SortIds(b.Keys);
    missing, fixed := [], [];
    for i := 0 to |sorted|
      invariant missing == Keep(sorted[..i], b.Keys - c.Keys)
      invariant fixed == Keep(sorted[..i], Failed(b) * Passed(c))
    {
      var id := sorted[i];
      assert id in Elements(sorted);
      KeepNext(sorted, b.Keys - c.Keys, i);
      KeepNext(sorted, Failed(b) * Passed(c), i);
      if id !in c {
        missing := missing + [id];
      } else if !b[id] && c[id] {
        fixed := fixed + [id];
      }
    }
    assert sorted[..|sorted|] == sorted;
    KeepIsSorted(sorted, b.Keys - c.Keys);
    KeepIsSorted(sorted, Failed(b) * Passed(c));
  }
}
