/**
 What a review report says, in terms of its own fields: the outcome of every check it reports, and
 exactly when it is usable.
 */
module ReviewMeaning {
  import opened Lists
  import opened Documents
  import opened Ordering
  import opened ReviewReports

  // ----- The checks of one case -----

  predicate Says(check: ReviewCheck, name: string, success: bool) {
    check == ReviewCheck(Text(name), Some(success))
  }

  predicate CheckRight(check: ReviewCheck) {
    check.ReviewCheck? && check.name.Text? && PREFIX <= check.name.text && check.success.Some?
  }

  /** Every check has a name of its own and an outcome. */
  ghost predicate ChecksRight(checks: seq<ReviewCheck>) {
    && (forall i :: 0 <= i < |checks| ==> CheckRight(checks[i]))
    && (forall i, j :: 0 <= i < j < |checks| ==> checks[i].name != checks[j].name)
  }

  ghost predicate AllPass(checks: seq<ReviewCheck>) {
    forall i :: 0 <= i < |checks| ==> checks[i].ReviewCheck? && checks[i].success == Some(true)
  }

  ghost predicate SaidBy(checks: seq<ReviewCheck>, name: string, success: bool) {
    exists i :: 0 <= i < |checks| && Says(checks[i], name, success)
  }

  /** The outcome is recorded. */
  predicate Has(outcomes: map<CheckId, bool>, id: CheckId, success: bool) {
    id in outcomes && outcomes[id] == success
  }

  lemma ReadOneMoreCheck(place: Place, rd: Reading, checks: seq<ReviewCheck>)
    requires checks != []
    ensures var n := |checks| - 1;
            AddChecks(place, rd, checks) == AddCheck(place, AddChecks(place, rd, checks[..n]), checks[n])
  {
    var n := |checks| - 1;
    FoldNext((t: CaseReading, check: ReviewCheck) => AddCheck(place, t, check), CaseReading(rd, true), checks, n);
    assert checks[..n + 1] == checks;
  }

  ghost predicate NothingAt(outcomes: map<CheckId, bool>, place: Place) {
    forall id | id in outcomes :: !At(id, place)
  }

  /** The reading after the checks of a case: flagged unless they are right, and then it has what they say. */
  ghost predicate ChecksRead(place: Place, rd: Reading, checks: seq<ReviewCheck>, cr: CaseReading) {
    && rd.issues <= cr.reading.issues && cr.reading.places == rd.places
    && (cr.reading.issues == rd.issues <==> ChecksRight(checks))
    && (ChecksRight(checks) ==>
          && (cr.success <==> AllPass(checks))
          && forall id, b :: Has(cr.reading.outcomes, id, b) <==>
               Has(rd.outcomes, id, b) || (At(id, place) && SaidBy(checks, id.name, b)))
  }

  lemma ChecksRightInit(checks: seq<ReviewCheck>)
    requires checks != []
    ensures var n := |checks| - 1;
            && (ChecksRight(checks) <==>
                && ChecksRight(checks[..n]) && CheckRight(checks[n])
                && forall i :: 0 <= i < n ==> checks[i].name != checks[n].name)
            && (AllPass(checks) <==> AllPass(checks[..n]) && checks[n].ReviewCheck? && checks[n].success == Some(true))
            && forall name, b :: SaidBy(checks, name, b) <==> SaidBy(checks[..n], name, b) || Says(checks[n], name, b)
  {
    var n := |checks| - 1;
    assert forall i :: 0 <= i < n ==> checks[..n][i] == checks[i];
    forall name, b | SaidBy(checks[..n], name, b) || Says(checks[n], name, b)
      ensures SaidBy(checks, name, b)
    {
      if SaidBy(checks[..n], name, b) {
        var i :| 0 <= i < n && Says(checks[..n][i], name, b);
        assert Says(checks[i], name, b);
      }
    }
  }

  lemma {:induction false} ChecksAreRead(place: Place, rd: Reading, checks: seq<ReviewCheck>)
    requires NothingAt(rd.outcomes, place)
    ensures ChecksRead(place, rd, checks, AddChecks(place, rd, checks))
  {
    if checks != [] {
      var n := |checks| - 1;
      ChecksAreRead(place, rd, checks[..n]);
      ReadOneMoreCheck(place, rd, checks);
      ChecksRightInit(checks);
      if ChecksRight(checks[..n]) && CheckRight(checks[n]) {
        NameTaken(place, rd, checks[..n], AddChecks(place, rd, checks[..n]), checks[n]);
      }
    }
  }

  /** A check is a repetition exactly when an earlier check of the case has its name. */
  lemma NameTaken(place: Place, rd: Reading, checks: seq<ReviewCheck>, cr: CaseReading, check: ReviewCheck)
    requires NothingAt(rd.outcomes, place) && ChecksRead(place, rd, checks, cr) && ChecksRight(checks) && CheckRight(check)
    ensures CheckId(place.mode, place.transport, check.name.text) in cr.reading.outcomes <==>
            exists i :: 0 <= i < |checks| && checks[i].name == check.name
  {
    var id := CheckId(place.mode, place.transport, check.name.text);
    if id in cr.reading.outcomes {
      assert Has(cr.reading.outcomes, id, cr.reading.outcomes[id]);
      var i :| 0 <= i < |checks| && Says(checks[i], id.name, cr.reading.outcomes[id]);
    }
    if i :| 0 <= i < |checks| && checks[i].name == check.name {
      assert CheckRight(checks[i]) && Says(checks[i], id.name, checks[i].success.value);
      assert Has(cr.reading.outcomes, id, checks[i].success.value);
    }
  }

  // ----- The cases of a full report -----

  predicate CaseAt(case_: ReviewCase, place: Place) {
    case_.ReviewCase? && case_.mode == Text(place.mode) && case_.transport == Text(place.transport)
  }

  /** The case has checks, they are right, and its own outcome is that all of them passed. */
  ghost predicate CaseRight(case_: ReviewCase) {
    && case_.ReviewCase? && case_.checks.Some? && case_.checks.value != [] && ChecksRight(case_.checks.value)
    && case_.success.Some? && (case_.success.value <==> AllPass(case_.checks.value))
  }

  ghost predicate SaidIn(case_: ReviewCase, id: CheckId, success: bool) {
    && CaseAt(case_, Place(id.mode, id.transport)) && case_.checks.Some?
    && SaidBy(case_.checks.value, id.name, success)
  }

  /** Checks are recorded for places already seen only. */
  ghost predicate Tidy(rd: Reading) {
    forall id | id in rd.outcomes :: Place(id.mode, id.transport) in rd.places
  }

  ghost predicate AddsCase(suite: Suite, rd: Reading, case_: ReviewCase) {
    exists place :: CaseAt(case_, place) && place in suite.cases && place !in rd.places && CaseRight(case_)
  }

  lemma CaseIsRead(suite: Suite, rd: Reading, case_: ReviewCase)
    requires Tidy(rd)
    ensures var rd' := AddCase(suite, rd, case_);
            && rd.issues <= rd'.issues && (rd'.issues == rd.issues <==> AddsCase(suite, rd, case_))
            && (AddsCase(suite, rd, case_) ==>
                  && (forall place :: place in rd'.places <==> place in rd.places || CaseAt(case_, place))
                  && (forall id, b :: Has(rd'.outcomes, id, b) <==> Has(rd.outcomes, id, b) || SaidIn(case_, id, b)))
  {
    if case_.ReviewCase? && case_.mode.Text? && case_.transport.Text? {
      var place := Place(case_.mode.text, case_.transport.text);
      assert forall p :: CaseAt(case_, p) <==> p == place;
      if case_.checks.Some? && place !in rd.places {
        ChecksAreRead(place, rd.(places := rd.places + {place}), case_.checks.value);
      }
    }
  }

  ghost predicate ReportedIn(cases: seq<ReviewCase>, id: CheckId, success: bool) {
    exists i :: 0 <= i < |cases| && SaidIn(cases[i], id, success)
  }

  ghost predicate PlaceIn(cases: seq<ReviewCase>, place: Place) {
    exists i :: 0 <= i < |cases| && CaseAt(cases[i], place)
  }

  /** Every case is right and stands at a required place of its own. */
  ghost predicate CasesRight(suite: Suite, cases: seq<ReviewCase>) {
    && (forall i :: 0 <= i < |cases| ==> CaseRight(cases[i]) && exists place :: CaseAt(cases[i], place) && place in suite.cases)
    && (forall i, j, place :: 0 <= i < j < |cases| ==> !(CaseAt(cases[i], place) && CaseAt(cases[j], place)))
  }

  ghost predicate CasesRead(suite: Suite, issues: seq<ReviewIssue>, cases: seq<ReviewCase>, rd: Reading) {
    && issues <= rd.issues && (rd.issues == issues <==> CasesRight(suite, cases))
    && (CasesRight(suite, cases) ==>
          && (forall place :: place in rd.places <==> PlaceIn(cases, place))
          && (forall id, b :: Has(rd.outcomes, id, b) <==> ReportedIn(cases, id, b)))
  }

  lemma CasesRightInit(suite: Suite, cases: seq<ReviewCase>)
    requires cases != []
    ensures var n := |cases| - 1;
            && (CasesRight(suite, cases) <==>
                && CasesRight(suite, cases[..n]) && CaseRight(cases[n])
                && exists place :: CaseAt(cases[n], place) && place in suite.cases && !PlaceIn(cases[..n], place))
            && (forall place :: PlaceIn(cases, place) <==> PlaceIn(cases[..n], place) || CaseAt(cases[n], place))
            && (forall id, b :: ReportedIn(cases, id, b) <==> ReportedIn(cases[..n], id, b) || SaidIn(cases[n], id, b))
  {
    var n := |cases| - 1;
    var init := cases[..n];
    assert forall i :: 0 <= i < n ==> init[i] == cases[i];
    forall place | PlaceIn(init, place) || CaseAt(cases[n], place)
      ensures PlaceIn(cases, place)
    {
      if PlaceIn(init, place) {
        var i :| 0 <= i < n && CaseAt(init[i], place);
        assert CaseAt(cases[i], place);
      }
    }
    forall id, b | ReportedIn(init, id, b) || SaidIn(cases[n], id, b)
      ensures ReportedIn(cases, id, b)
    {
      if ReportedIn(init, id, b) {
        var i :| 0 <= i < n && SaidIn(init[i], id, b);
        assert SaidIn(cases[i], id, b);
      }
    }
    assert forall place, place' :: CaseAt(cases[n], place) && CaseAt(cases[n], place') ==> place == place';
  }

  lemma ReadOneMoreCase(suite: Suite, rd: Reading, cases: seq<ReviewCase>)
    requires cases != []
    ensures var n := |cases| - 1;
            AddCases(suite, rd, cases) == AddCase(suite, AddCases(suite, rd, cases[..n]), cases[n])
  {
    var n := |cases| - 1;
    FoldNext((t: Reading, case_: ReviewCase) => AddCase(suite, t, case_), rd, cases, n);
    assert cases[..n + 1] == cases;
  }

  lemma TidyAfter(suite: Suite, issues: seq<ReviewIssue>, cases: seq<ReviewCase>, rd: Reading)
    requires CasesRead(suite, issues, cases, rd) && CasesRight(suite, cases)
    ensures Tidy(rd)
  {
    forall id | id in rd.outcomes
      ensures Place(id.mode, id.transport) in rd.places
    {
      assert Has(rd.outcomes, id, rd.outcomes[id]);
      var i :| 0 <= i < |cases| && SaidIn(cases[i], id, rd.outcomes[id]);
      assert CaseAt(cases[i], Place(id.mode, id.transport));
    }
  }

  lemma IssuesOnlyGrow(suite: Suite, rd: Reading, case_: ReviewCase)
    ensures rd.issues <= AddCase(suite, rd, case_).issues
  {
    if case_.ReviewCase? && case_.mode.Text? && case_.transport.Text? && case_.checks.Some? {
      var place := Place(case_.mode.text, case_.transport.text);
      CheckIssuesOnlyGrow(place, rd.(places := rd.places + {place}), case_.checks.value);
    }
  }

  lemma {:induction false} CheckIssuesOnlyGrow(place: Place, rd: Reading, checks: seq<ReviewCheck>)
    ensures rd.issues <= AddChecks(place, rd, checks).reading.issues
  {
    if checks != [] {
      CheckIssuesOnlyGrow(place, rd, checks[..|checks| - 1]);
      ReadOneMoreCheck(place, rd, checks);
    }
  }

  lemma {:induction false} CasesAreRead(suite: Suite, issues: seq<ReviewIssue>, cases: seq<ReviewCase>)
    ensures CasesRead(suite, issues, cases, AddCases(suite, Reading({}, map[], issues), cases))
  {
    var rd0 := Reading({}, map[], issues);
    if cases != [] {
      var n := |cases| - 1;
      var rd := AddCases(suite, rd0, cases[..n]);
      CasesAreRead(suite, issues, cases[..n]);
      ReadOneMoreCase(suite, rd0, cases);
      CasesRightInit(suite, cases);
      if CasesRight(suite, cases[..n]) {
        TidyAfter(suite, issues, cases[..n], rd);
        CaseIsRead(suite, rd, cases[n]);
      } else {
        IssuesOnlyGrow(suite, rd, cases[n]);
      }
    }
  }

  // ----- Totals -----

  function Passes(checks: seq<ReviewCheck>): nat {
    if checks == [] then 0
    else
      var n := |checks| - 1;
      Passes(checks[..n]) + if checks[n].ReviewCheck? && checks[n].success == Some(true) then 1 else 0
  }

  function ChecksOf(case_: ReviewCase): seq<ReviewCheck> {
    if case_.ReviewCase? && case_.checks.Some? then case_.checks.value else []
  }

  /** The numbers of checks, passed checks and passed cases, counted in the cases themselves. */
  datatype Counts = Counts(checks: nat, passed: nat, casesPassed: nat)

  function Count(cases: seq<ReviewCase>): Counts {
    if cases == [] then Counts(0, 0, 0)
    else
      var n := |cases| - 1;
      var before, last := Count(cases[..n]), cases[n];
      Counts(before.checks + |ChecksOf(last)|, before.passed + Passes(ChecksOf(last)),
             before.casesPassed + if last.ReviewCase? && last.success == Some(true) then 1 else 0)
  }

  ghost function PassedIds(outcomes: map<CheckId, bool>): set<CheckId> {
    set id | id in outcomes && outcomes[id]
  }

  ghost function PassedPlaces(places: set<Place>, outcomes: map<CheckId, bool>): set<Place> {
    set place | place in places && CasePassed(outcomes, place)
  }

  lemma {:induction false} ChecksAreCounted(place: Place, rd: Reading, checks: seq<ReviewCheck>)
    requires NothingAt(rd.outcomes, place) && ChecksRight(checks)
    ensures var after := AddChecks(place, rd, checks).reading.outcomes;
            |after| == |rd.outcomes| + |checks| && |PassedIds(after)| == |PassedIds(rd.outcomes)| + Passes(checks)
  {
    if checks != [] {
      var n := |checks| - 1;
      ChecksRightInit(checks);
      ChecksAreCounted(place, rd, checks[..n]);
      ChecksAreRead(place, rd, checks[..n]);
      ReadOneMoreCheck(place, rd, checks);
      NameTaken(place, rd, checks[..n], AddChecks(place, rd, checks[..n]), checks[n]);
      var before := AddChecks(place, rd, checks[..n]).reading.outcomes;
      OneMoreOutcome(before, CheckId(place.mode, place.transport, checks[n].name.text), checks[n].success.value);
    }
  }

  lemma OneMoreOutcome(outcomes: map<CheckId, bool>, id: CheckId, success: bool)
    requires id !in outcomes
    ensures |outcomes[id := success]| == |outcomes| + 1
    ensures |PassedIds(outcomes[id := success])| == |PassedIds(outcomes)| + if success then 1 else 0
  {
    var after := outcomes[id := success];
    assert |after| == |outcomes| + 1 by { assert after.Keys == outcomes.Keys + {id}; }
    if success {
      assert PassedIds(after) == PassedIds(outcomes) + {id};
    } else {
      assert PassedIds(after) == PassedIds(outcomes);
    }
  }

  lemma PassedPlacesNext(rd: Reading, rd': Reading, case_: ReviewCase, place: Place)
    requires Tidy(rd) && place !in rd.places && rd'.places == rd.places + {place}
    requires CaseAt(case_, place) && CaseRight(case_)
    requires forall id, b :: Has(rd'.outcomes, id, b) <==> Has(rd.outcomes, id, b) || SaidIn(case_, id, b)
    ensures PassedPlaces(rd'.places, rd'.outcomes) ==
            PassedPlaces(rd.places, rd.outcomes) + if case_.success == Some(true) then {place} else {}
  {
    forall p | p in rd'.places
      ensures CasePassed(rd'.outcomes, p) <==> if p == place then case_.success == Some(true) else CasePassed(rd.outcomes, p)
    {
      if p == place {
        NewPlacePassed(rd, rd', case_, place);
      } else {
        OldPlacePassed(rd, rd', case_, place, p);
      }
    }
  }

  lemma OldPlacePassed(rd: Reading, rd': Reading, case_: ReviewCase, place: Place, p: Place)
    requires CaseAt(case_, place) && p != place
    requires forall id, b :: Has(rd'.outcomes, id, b) <==> Has(rd.outcomes, id, b) || SaidIn(case_, id, b)
    ensures CasePassed(rd'.outcomes, p) <==> CasePassed(rd.outcomes, p)
  {
    forall id | At(id, p)
      ensures id in rd'.outcomes <==> id in rd.outcomes
      ensures id in rd.outcomes ==> id in rd'.outcomes && rd'.outcomes[id] == rd.outcomes[id]
    {
      if id in rd.outcomes {
        assert Has(rd.outcomes, id, rd.outcomes[id]);
        assert Has(rd'.outcomes, id, rd.outcomes[id]);
      }
      if id in rd'.outcomes {
        assert Has(rd'.outcomes, id, rd'.outcomes[id]);
      }
    }
  }

  lemma NewPlacePassed(rd: Reading, rd': Reading, case_: ReviewCase, place: Place)
    requires Tidy(rd) && place !in rd.places && CaseAt(case_, place) && CaseRight(case_)
    requires forall id, b :: Has(rd'.outcomes, id, b) <==> Has(rd.outcomes, id, b) || SaidIn(case_, id, b)
    ensures CasePassed(rd'.outcomes, place) <==> case_.success == Some(true)
  {
    var checks := case_.checks.value;
    if AllPass(checks) {
      CheckIsRecorded(rd, rd', case_, place, 0);
      forall id | id in rd'.outcomes && At(id, place)
        ensures rd'.outcomes[id]
      {
        assert Has(rd'.outcomes, id, rd'.outcomes[id]);
        var i :| 0 <= i < |checks| && Says(checks[i], id.name, rd'.outcomes[id]);
      }
    } else {
      var i :| 0 <= i < |checks| && !(checks[i].ReviewCheck? && checks[i].success == Some(true));
      CheckIsRecorded(rd, rd', case_, place, i);
    }
  }

  lemma CheckIsRecorded(rd: Reading, rd': Reading, case_: ReviewCase, place: Place, i: nat)
    requires CaseAt(case_, place) && CaseRight(case_) && i < |case_.checks.value|
    requires forall id, b :: Has(rd'.outcomes, id, b) <==> Has(rd.outcomes, id, b) || SaidIn(case_, id, b)
    ensures CheckRight(case_.checks.value[i])
    ensures var check := case_.checks.value[i];
            var id := CheckId(place.mode, place.transport, check.name.text);
            At(id, place) && Has(rd'.outcomes, id, check.success.value)
  {
    var check := case_.checks.value[i];
    assert CheckRight(check) && Says(check, check.name.text, check.success.value);
    assert SaidIn(case_, CheckId(place.mode, place.transport, check.name.text), check.success.value);
  }

  lemma {:induction false} CasesAreCounted(suite: Suite, issues: seq<ReviewIssue>, cases: seq<ReviewCase>)
    requires CasesRight(suite, cases)
    ensures var rd := AddCases(suite, Reading({}, map[], issues), cases);
            && |rd.outcomes| == Count(cases).checks && |PassedIds(rd.outcomes)| == Count(cases).passed
            && |rd.places| == |cases| && |PassedPlaces(rd.places, rd.outcomes)| == Count(cases).casesPassed
  {
    if cases != [] {
      var n := |cases| - 1;
      var rd0 := Reading({}, map[], issues);
      var rd := AddCases(suite, rd0, cases[..n]);
      CasesRightInit(suite, cases);
      CasesAreCounted(suite, issues, cases[..n]);
      CasesAreRead(suite, issues, cases[..n]);
      TidyAfter(suite, issues, cases[..n], rd);
      ReadOneMoreCase(suite, rd0, cases);
      CaseIsCounted(suite, rd, cases[n]);
    }
  }

  lemma CaseIsCounted(suite: Suite, rd: Reading, case_: ReviewCase)
    requires Tidy(rd) && AddsCase(suite, rd, case_)
    ensures var rd' := AddCase(suite, rd, case_);
            && |rd'.outcomes| == |rd.outcomes| + |ChecksOf(case_)|
            && |PassedIds(rd'.outcomes)| == |PassedIds(rd.outcomes)| + Passes(ChecksOf(case_))
            && |rd'.places| == |rd.places| + 1
            && (|PassedPlaces(rd'.places, rd'.outcomes)| ==
                |PassedPlaces(rd.places, rd.outcomes)| + if case_.success == Some(true) then 1 else 0)
  {
    var place := Place(case_.mode.text, case_.transport.text);
    var rd' := AddCase(suite, rd, case_);
    CaseIsRead(suite, rd, case_);
    ChecksAreCounted(place, rd.(places := rd.places + {place}), case_.checks.value);
    ChecksAreRead(place, rd.(places := rd.places + {place}), case_.checks.value);
    assert rd'.places == rd.places + {place};
    PassedPlacesNext(rd, rd', case_, place);
  }

  // ----- When a full report is usable -----

  predicate HeaderRight(suite: Suite, r: ReviewReport) {
    && r.schemaVersion == SCHEMA_VERSION && r.reviewer == Text(REVIEWER)
    && (if r.baselineKind.Some? then r.requiredModes else r.modes) == suite.modes
  }

  function CountedTotals(cases: seq<ReviewCase>): Totals {
    var c := Count(cases);
    Totals(c.passed, c.checks - c.passed, c.checks, c.casesPassed, |cases|)
  }

  /** Each required case is reported once and rightly, and the totals and the overall outcome agree. */
  ghost predicate FullReportRight(suite: Suite, r: ReviewReport) {
    && HeaderRight(suite, r) && r.cases.Some? && CasesRight(suite, r.cases.value)
    && (forall place :: place in suite.cases ==> PlaceIn(r.cases.value, place))
    && r.summary == Some(CountedTotals(r.cases.value))
    && r.success == Some(r.cases.value != [] && CountedTotals(r.cases.value).failed == 0)
  }

  lemma NoPlaces(places: set<Place>)
    ensures |SortedPlaces(places)| == 0 <==> places == {}
  {
    if SortedPlaces(places) != [] {
      assert SortedPlaces(places)[0] in Elements(SortedPlaces(places));
    }
  }

  lemma NoIssuesIff(suite: Suite, r: ReviewReport)
    ensures var rd := Read(suite, r);
            IssuesIn(suite, r) == [] <==>
            rd.issues == [] && rd.places == suite.cases && ClosingIssues(r, rd.places, rd.outcomes) == []
  {
    var rd := Read(suite, r);
    NoPlaces(suite.cases - rd.places);
    NoPlaces(rd.places - suite.cases);
    assert |IssuesIn(suite, r)| == |rd.issues| + |SortedPlaces(suite.cases - rd.places)|
                                   + |SortedPlaces(rd.places - suite.cases)| + |ClosingIssues(r, rd.places, rd.outcomes)|;
  }

  lemma TotalsAreCounted(suite: Suite, r: ReviewReport)
    requires r.baselineKind.None? && r.cases.Some? && CasesRight(suite, r.cases.value)
    ensures var rd := Read(suite, r);
            && TotalsOf(rd.places, rd.outcomes) == CountedTotals(r.cases.value)
            && (rd.places != {} <==> r.cases.value != [])
  {
    CasesAreCounted(suite, HeaderIssues(suite, r), r.cases.value);
    var rd := Read(suite, r);
    assert (set id | id in rd.outcomes && rd.outcomes[id]) == PassedIds(rd.outcomes);
    assert (set p | p in rd.places && CasePassed(rd.outcomes, p)) == PassedPlaces(rd.places, rd.outcomes);
  }

  lemma HeaderIff(suite: Suite, r: ReviewReport)
    ensures HeaderIssues(suite, r) == [] <==> HeaderRight(suite, r)
  {}

  /** A full report has no issue exactly when everything in it is right. */
  lemma FullReportUsableIff(suite: Suite, r: ReviewReport)
    requires r.baselineKind.None?
    ensures IssuesIn(suite, r) == [] <==> FullReportRight(suite, r)
  {
    NoIssuesIff(suite, r);
    HeaderIff(suite, r);
    if r.cases.Some? {
      var cases := r.cases.value;
      CasesAreRead(suite, HeaderIssues(suite, r), cases);
      if CasesRight(suite, cases) {
        TotalsAreCounted(suite, r);
        RequiredPlacesIff(suite, cases, Read(suite, r).places);
      }
    }
  }

  lemma RequiredPlacesIff(suite: Suite, cases: seq<ReviewCase>, places: set<Place>)
    requires CasesRight(suite, cases) && forall place :: place in places <==> PlaceIn(cases, place)
    ensures places == suite.cases <==> forall place :: place in suite.cases ==> PlaceIn(cases, place)
  {
    forall place | place in places
      ensures place in suite.cases
    {
      var i :| 0 <= i < |cases| && CaseAt(cases[i], place);
      var p :| CaseAt(cases[i], p) && p in suite.cases;
      assert p == place;
    }
  }

  /** A usable full report has exactly the outcomes that the checks of its cases say. */
  lemma FullReportSays(suite: Suite, r: ReviewReport, id: CheckId, success: bool)
    requires r.baselineKind.None? && IssuesIn(suite, r) == []
    ensures r.cases.Some?
    ensures Has(Read(suite, r).outcomes, id, success) <==> ReportedIn(r.cases.value, id, success)
  {
    FullReportUsableIff(suite, r);
    CasesAreRead(suite, HeaderIssues(suite, r), r.cases.value);
  }

  // ----- Compact baselines -----

  ghost predicate CaseRecordsRight(records: seq<CaseRecord>) {
    Distinct(records) && forall record :: record in records ==> exists place :: record == ToCaseRecord(place)
  }

  lemma ReadOneMoreCaseRecord(rd: Reading, records: seq<CaseRecord>)
    requires records != []
    ensures var n := |records| - 1;
            AddCaseRecords(rd, records) == AddCaseRecord(AddCaseRecords(rd, records[..n]), records[n])
  {
    var n := |records| - 1;
    FoldNext((t: Reading, record: CaseRecord) => AddCaseRecord(t, record), rd, records, n);
    assert records[..n + 1] == records;
  }

  lemma LastRecord<T>(records: seq<T>)
    requires records != []
    ensures var n := |records| - 1;
            && (Distinct(records) <==> Distinct(records[..n]) && records[n] !in records[..n])
            && forall record :: record in records <==> record in records[..n] || record == records[n]
  {
    var n := |records| - 1;
    assert records == records[..n] + [records[n]];
  }

  lemma {:induction false} CaseRecordsAreRead(rd: Reading, records: seq<CaseRecord>)
    requires rd.places == {}
    ensures var rd' := AddCaseRecords(rd, records);
            && rd.issues <= rd'.issues && rd'.outcomes == rd.outcomes
            && (rd'.issues == rd.issues <==> CaseRecordsRight(records))
            && (CaseRecordsRight(records) ==> forall place :: place in rd'.places <==> ToCaseRecord(place) in records)
  {
    if records != [] {
      var n := |records| - 1;
      CaseRecordsAreRead(rd, records[..n]);
      ReadOneMoreCaseRecord(rd, records);
      LastRecord(records);
      var last := records[n];
      if last.CaseRecord? && last.mode.Text? && last.transport.Text? {
        assert last == ToCaseRecord(Place(last.mode.text, last.transport.text));
      }
    }
  }

  ghost predicate CheckRecordRight(suite: Suite, record: CheckRecord) {
    exists id :: WellFormed(suite, id) && record == ToCheckRecord(id)
  }

  /** The records list well-formed checks, each once and none that has an outcome already. */
  ghost predicate BucketRight(suite: Suite, outcomes: map<CheckId, bool>, records: seq<CheckRecord>) {
    && Distinct(records) && (forall record :: record in records ==> CheckRecordRight(suite, record))
    && forall id :: id in outcomes ==> ToCheckRecord(id) !in records
  }

  lemma ReadOneMoreRecord(suite: Suite, success: bool, rd: Reading, records: seq<CheckRecord>)
    requires records != []
    ensures var n := |records| - 1;
            AddCheckRecords(suite, success, rd, records) ==
            AddCheckRecord(suite, success, AddCheckRecords(suite, success, rd, records[..n]), records[n])
  {
    var n := |records| - 1;
    FoldNext((t: Reading, record: CheckRecord) => AddCheckRecord(suite, success, t, record), rd, records, n);
    assert records[..n + 1] == records;
  }

  ghost predicate BucketRead(suite: Suite, success: bool, rd: Reading, records: seq<CheckRecord>, rd': Reading) {
    && rd.issues <= rd'.issues && rd'.places == rd.places
    && (rd'.issues == rd.issues <==> BucketRight(suite, rd.outcomes, records))
    && (BucketRight(suite, rd.outcomes, records) ==>
          forall id, b :: Has(rd'.outcomes, id, b) <==>
            Has(rd.outcomes, id, b) || (b == success && WellFormed(suite, id) && ToCheckRecord(id) in records))
  }

  lemma {:induction false} BucketIsRead(suite: Suite, success: bool, rd: Reading, records: seq<CheckRecord>)
    ensures BucketRead(suite, success, rd, records, AddCheckRecords(suite, success, rd, records))
  {
    if records != [] {
      var n := |records| - 1;
      var mid := AddCheckRecords(suite, success, rd, records[..n]);
      BucketIsRead(suite, success, rd, records[..n]);
      ReadOneMoreRecord(suite, success, rd, records);
      LastRecord(records);
      RecordIsRead(suite, success, mid, records[n]);
      if BucketRight(suite, rd.outcomes, records[..n]) && CheckRecordRight(suite, records[n]) {
        RecordTaken(suite, success, rd, records[..n], mid, records[n]);
      }
    }
  }

  lemma RecordIsRead(suite: Suite, success: bool, rd: Reading, record: CheckRecord)
    ensures var rd' := AddCheckRecord(suite, success, rd, record);
            && rd.issues <= rd'.issues && rd'.places == rd.places
            && (rd'.issues == rd.issues <==>
                exists id :: WellFormed(suite, id) && record == ToCheckRecord(id) && id !in rd.outcomes)
            && (rd'.issues == rd.issues ==>
                  forall id, b :: Has(rd'.outcomes, id, b) <==>
                                  Has(rd.outcomes, id, b) || (b == success && record == ToCheckRecord(id)))
  {
    if record.CheckRecord? && record.mode.Text? && record.transport.Text? && record.checkId.Text? {
      assert record == ToCheckRecord(CheckId(record.mode.text, record.transport.text, record.checkId.text));
    }
  }

  lemma RecordTaken(suite: Suite, success: bool, rd: Reading, records: seq<CheckRecord>, mid: Reading, record: CheckRecord)
    requires BucketRead(suite, success, rd, records, mid) && BucketRight(suite, rd.outcomes, records)
    requires CheckRecordRight(suite, record)
    ensures (exists id :: WellFormed(suite, id) && record == ToCheckRecord(id) && id !in mid.outcomes) <==>
            record !in records && forall id :: id in rd.outcomes ==> ToCheckRecord(id) != record
  {
    var id :| WellFormed(suite, id) && record == ToCheckRecord(id);
    assert forall id' :: record == ToCheckRecord(id') ==> id' == id;
    if id in mid.outcomes {
      assert Has(mid.outcomes, id, mid.outcomes[id]);
    }
    if id in rd.outcomes {
      assert Has(mid.outcomes, id, rd.outcomes[id]);
    }
    if record in records {
      assert Has(mid.outcomes, id, success);
    }
  }

  lemma {:induction false} BucketIsCounted(suite: Suite, success: bool, rd: Reading, records: seq<CheckRecord>)
    requires BucketRight(suite, rd.outcomes, records)
    ensures var after := AddCheckRecords(suite, success, rd, records).outcomes;
            && |after| == |rd.outcomes| + |records|
            && |PassedIds(after)| == |PassedIds(rd.outcomes)| + if success then |records| else 0
  {
    if records != [] {
      var n := |records| - 1;
      LastRecord(records);
      var mid := AddCheckRecords(suite, success, rd, records[..n]);
      BucketIsCounted(suite, success, rd, records[..n]);
      BucketIsRead(suite, success, rd, records[..n]);
      ReadOneMoreRecord(suite, success, rd, records);
      RecordTaken(suite, success, rd, records[..n], mid, records[n]);
      var id :| WellFormed(suite, id) && records[n] == ToCheckRecord(id) && id !in mid.outcomes;
      OneMoreOutcome(mid.outcomes, id, success);
    }
  }

  /** Both buckets list well-formed checks, and no check is listed twice. */
  ghost predicate BucketsRight(suite: Suite, passing: seq<CheckRecord>, failing: seq<CheckRecord>) {
    && (forall record :: record in passing || record in failing ==> CheckRecordRight(suite, record))
    && Distinct(passing) && Distinct(failing) && forall record :: record in passing ==> record !in failing
  }

  ghost predicate ListedAt(suite: Suite, records: seq<CheckRecord>, place: Place) {
    exists id :: WellFormed(suite, id) && At(id, place) && ToCheckRecord(id) in records
  }

  /** The totals of a baseline, counted in its buckets: a case passes when it is listed as passing only. */
  ghost function ListedTotals(suite: Suite, passing: seq<CheckRecord>, failing: seq<CheckRecord>): Totals {
    var passed := set place | place in suite.cases && ListedAt(suite, passing, place) && !ListedAt(suite, failing, place);
    Totals(|passing|, |failing|, |passing| + |failing|, |passed|, |suite.cases|)
  }

  ghost function ReadBuckets(suite: Suite, rd: Reading, passing: seq<CheckRecord>, failing: seq<CheckRecord>): Reading {
    AddCheckRecords(suite, false, AddCheckRecords(suite, true, rd, passing), failing)
  }

  lemma BucketsAreRead(suite: Suite, rd: Reading, passing: seq<CheckRecord>, failing: seq<CheckRecord>)
    requires rd.outcomes == map[]
    ensures var rd' := ReadBuckets(suite, rd, passing, failing);
            && rd.issues <= rd'.issues && rd'.places == rd.places
            && (rd'.issues == rd.issues <==> BucketsRight(suite, passing, failing))
            && (BucketsRight(suite, passing, failing) ==>
                  forall id, b :: Has(rd'.outcomes, id, b) <==>
                    WellFormed(suite, id) && ToCheckRecord(id) in if b then passing else failing)
  {
    var mid := AddCheckRecords(suite, true, rd, passing);
    BucketIsRead(suite, true, rd, passing);
    BucketIsRead(suite, false, mid, failing);
    if BucketRight(suite, rd.outcomes, passing) {
      BothBucketsIff(suite, rd, passing, failing, mid);
    }
  }

  lemma BothBucketsIff(suite: Suite, rd: Reading, passing: seq<CheckRecord>, failing: seq<CheckRecord>, mid: Reading)
    requires rd.outcomes == map[] && BucketRead(suite, true, rd, passing, mid) && BucketRight(suite, rd.outcomes, passing)
    ensures BucketRight(suite, mid.outcomes, failing) <==> BucketsRight(suite, passing, failing)
  {
    forall record | record in passing
      ensures exists id :: id in mid.outcomes && record == ToCheckRecord(id)
    {
      var id :| WellFormed(suite, id) && record == ToCheckRecord(id);
      assert Has(mid.outcomes, id, true);
    }
    forall id | id in mid.outcomes
      ensures ToCheckRecord(id) in passing
    {
      assert Has(mid.outcomes, id, mid.outcomes[id]);
    }
  }

  lemma BucketsAreCounted(suite: Suite, rd: Reading, passing: seq<CheckRecord>, failing: seq<CheckRecord>)
    requires rd.outcomes == map[] && BucketsRight(suite, passing, failing)
    ensures var rd' := ReadBuckets(suite, rd, passing, failing);
            TotalsOf(suite.cases, rd'.outcomes) == ListedTotals(suite, passing, failing)
  {
    var mid := AddCheckRecords(suite, true, rd, passing);
    BucketIsRead(suite, true, rd, passing);
    BothBucketsIff(suite, rd, passing, failing, mid);
    BucketIsCounted(suite, true, rd, passing);
    BucketIsCounted(suite, false, mid, failing);
    BucketsAreRead(suite, rd, passing, failing);
    var outcomes := ReadBuckets(suite, rd, passing, failing).outcomes;
    forall place
      ensures CasePassed(outcomes, place) <==> ListedAt(suite, passing, place) && !ListedAt(suite, failing, place)
    {
      ListedCasePassed(suite, outcomes, passing, failing, place);
    }
    assert (set id | id in outcomes && outcomes[id]) == PassedIds(outcomes);
    assert (set p | p in suite.cases && CasePassed(outcomes, p)) ==
           set place | place in suite.cases && ListedAt(suite, passing, place) && !ListedAt(suite, failing, place);
  }

  lemma ListedCasePassed(suite: Suite, outcomes: map<CheckId, bool>, passing: seq<CheckRecord>, failing: seq<CheckRecord>,
                         place: Place)
    requires forall id, b :: Has(outcomes, id, b) <==>
                             WellFormed(suite, id) && ToCheckRecord(id) in if b then passing else failing
    ensures CasePassed(outcomes, place) <==> ListedAt(suite, passing, place) && !ListedAt(suite, failing, place)
  {
    if id :| WellFormed(suite, id) && At(id, place) && ToCheckRecord(id) in failing {
      assert Has(outcomes, id, false);
    }
    if id :| WellFormed(suite, id) && At(id, place) && ToCheckRecord(id) in passing {
      assert Has(outcomes, id, true);
    }
    forall id | id in outcomes && At(id, place)
      ensures if outcomes[id] then ListedAt(suite, passing, place) else ListedAt(suite, failing, place)
    {
      assert Has(outcomes, id, outcomes[id]);
    }
  }

  ghost predicate CompactReportRight(suite: Suite, r: ReviewReport) {
    && HeaderRight(suite, r) && r.baselineKind == Some(COMPACT_KIND)
    && r.requiredCases.Some? && CaseRecordsRight(r.requiredCases.value)
    && (forall place :: place in suite.cases <==> ToCaseRecord(place) in r.requiredCases.value)
    && r.checks.Some? && r.checks.value.passing.Some? && r.checks.value.failing.Some?
    && var passing, failing := r.checks.value.passing.value, r.checks.value.failing.value;
       BucketsRight(suite, passing, failing) && r.summary == Some(ListedTotals(suite, passing, failing))
  }

  /** All the lists of a baseline are there. */
  predicate Complete(r: ReviewReport) {
    && r.baselineKind == Some(COMPACT_KIND) && r.requiredCases.Some?
    && r.checks.Some? && r.checks.value.passing.Some? && r.checks.value.failing.Some?
  }

  lemma {:induction false} RecordIssuesOnlyGrow(suite: Suite, success: bool, rd: Reading, records: seq<CheckRecord>)
    ensures rd.issues <= AddCheckRecords(suite, success, rd, records).issues
  {
    BucketIsRead(suite, success, rd, records);
  }

  lemma IncompleteIsFlagged(suite: Suite, r: ReviewReport)
    requires r.baselineKind.Some? && !Complete(r)
    ensures Read(suite, r).issues != []
  {
    var rd := Reading({}, map[], HeaderIssues(suite, r));
    var kind := if r.baselineKind != Some(COMPACT_KIND) then Flag(rd, UnsupportedFormat) else rd;
    if r.requiredCases.Some? {
      CaseRecordsAreRead(kind, r.requiredCases.value);
    }
    var cases := if r.requiredCases.None? then Flag(kind, NoRequiredCases) else AddCaseRecords(kind, r.requiredCases.value);
    if r.checks.Some? {
      var passing, failing := r.checks.value.passing, r.checks.value.failing;
      if passing.Some? {
        RecordIssuesOnlyGrow(suite, true, cases, passing.value);
      }
      var mid := AddBucket(suite, true, cases, passing);
      if failing.Some? {
        RecordIssuesOnlyGrow(suite, false, mid, failing.value);
      }
    }
  }

  lemma CompleteIsRead(suite: Suite, r: ReviewReport)
    requires Complete(r)
    ensures var rd := Read(suite, r);
            var passing, failing := r.checks.value.passing.value, r.checks.value.failing.value;
            && (rd.issues == [] <==>
                HeaderRight(suite, r) && CaseRecordsRight(r.requiredCases.value) && BucketsRight(suite, passing, failing))
            && (rd.issues == [] ==>
                && (forall place :: place in rd.places <==> ToCaseRecord(place) in r.requiredCases.value)
                && (forall id, b :: Has(rd.outcomes, id, b) <==>
                      WellFormed(suite, id) && ToCheckRecord(id) in if b then passing else failing)
                && TotalsOf(suite.cases, rd.outcomes) == ListedTotals(suite, passing, failing))
  {
    var rd0 := Reading({}, map[], HeaderIssues(suite, r));
    var passing, failing := r.checks.value.passing.value, r.checks.value.failing.value;
    var cases := AddCaseRecords(rd0, r.requiredCases.value);
    HeaderIff(suite, r);
    CaseRecordsAreRead(rd0, r.requiredCases.value);
    BucketsAreRead(suite, cases, passing, failing);
    if BucketsRight(suite, passing, failing) {
      BucketsAreCounted(suite, cases, passing, failing);
    }
  }

  /** A report that calls itself a baseline is usable exactly when everything in it is right. */
  lemma CompactReportUsableIff(suite: Suite, r: ReviewReport)
    requires r.baselineKind.Some?
    ensures IssuesIn(suite, r) == [] <==> CompactReportRight(suite, r)
  {
    NoIssuesIff(suite, r);
    if Complete(r) {
      CompleteIsRead(suite, r);
      var places := Read(suite, r).places;
      if Read(suite, r).issues == [] {
        assert places == suite.cases <==>
               forall place :: place in suite.cases <==> ToCaseRecord(place) in r.requiredCases.value;
      }
    } else {
      IncompleteIsFlagged(suite, r);
    }
  }

  /** A usable baseline has exactly the outcomes that its two buckets list. */
  lemma CompactReportSays(suite: Suite, r: ReviewReport, id: CheckId, success: bool)
    requires r.baselineKind.Some? && IssuesIn(suite, r) == []
    ensures CompactReportRight(suite, r)
    ensures var checks := r.checks.value;
            Has(Read(suite, r).outcomes, id, success) <==>
            WellFormed(suite, id) && ToCheckRecord(id) in if success then checks.passing.value else checks.failing.value
  {
    CompactReportUsableIff(suite, r);
    NoIssuesIff(suite, r);
    CompleteIsRead(suite, r);
  }

  // ----- Any report -----

  ghost predicate ReportRight(suite: Suite, r: ReviewReport) {
    if r.baselineKind.None? then FullReportRight(suite, r) else CompactReportRight(suite, r)
  }

  /** The report's own fields give the check this outcome. */
  ghost predicate ReportSays(suite: Suite, r: ReviewReport, id: CheckId, success: bool) {
    if r.baselineKind.None? then r.cases.Some? && ReportedIn(r.cases.value, id, success)
    else
      && r.checks.Some? && r.checks.value.passing.Some? && r.checks.value.failing.Some? && WellFormed(suite, id)
      && ToCheckRecord(id) in if success then r.checks.value.passing.value else r.checks.value.failing.value
  }

  lemma UsableIff(suite: Suite, r: ReviewReport)
    ensures IssuesIn(suite, r) == [] <==> ReportRight(suite, r)
    ensures IssuesIn(suite, r) == [] ==>
              forall id, b :: Has(Read(suite, r).outcomes, id, b) <==> ReportSays(suite, r, id, b)
  {
    if r.baselineKind.None? {
      FullReportUsableIff(suite, r);
    } else {
      CompactReportUsableIff(suite, r);
    }
    if IssuesIn(suite, r) == [] {
      forall id, b
        ensures Has(Read(suite, r).outcomes, id, b) <==> ReportSays(suite, r, id, b)
      {
        if r.baselineKind.None? {
          FullReportSays(suite, r, id, b);
        } else {
          CompactReportSays(suite, r, id, b);
        }
      }
    }
  }

  method RequiredReviewChecks(suite: Suite, r: ReviewReport) returns (outcomes: map<CheckId, bool>, issues: seq<ReviewIssue>)
    ensures outcomes == Read(suite, r).outcomes && issues == IssuesIn(suite, r)
    ensures issues == [] <==> ReportRight(suite, r)
    ensures issues == [] ==> forall id, b :: Has(outcomes, id, b) <==> ReportSays(suite, r, id, b)
  {
    UsableIff(suite, r);
    var rd := ReadReport(suite, r);
    outcomes := rd.outcomes;
    PlaceKeyInjective();
    var missing := SortSet(PlaceKey, suite.cases - rd.places);
    AscendingUnique(PlaceKey, missing, SortedPlaces(suite.cases - rd.places));
    var unexpected := SortSet(PlaceKey, rd.places - suite.cases);
    AscendingUnique(PlaceKey, unexpected, SortedPlaces(rd.places - suite.cases));
    issues := rd.issues + MissingCases(missing) + UnexpectedCases(unexpected) + ClosingIssues(r, rd.places, outcomes);
  }
}
