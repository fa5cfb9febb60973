/** Which issues a compliance report has: each stands for one thing that is wrong with its fields. */
module ComplianceIssues {
  import opened Lists
  import opened Documents
  import opened ComplianceReports
  import opened ComplianceMeaning
  import opened Ordering
  import opened ComplianceGate

  // ----- The header -----

  ghost predicate OfficialShows(official: Option<Official>, issue: Issue) {
    match issue
    case NoOfficial => official.None?
    case WrongRepository => official.Some? && official.value.repository != Text("modelcontextprotocol/conformance")
    case WrongRevision => official.Some? && official.value.gitRef != Text("49103de6ed70804e940637bf3e9e29e4a3f54e64")
    case NoAuthScenarios => official.Some? && !official.value.authenticationIncluded
    case NoCatalog => official.Some? && official.value.scenarios.None?
    case _ => false
  }

  ghost predicate HeaderShows(r: Report, issue: Issue) {
    || (issue == WrongSchema && r.schemaVersion != 4) || (issue == NoVersionCheck && !r.versionCheckPassed)
    || (issue == ModernDisabled && !r.modernEnabled) || OfficialShows(r.official, issue)
  }

  lemma OfficialIssueIff(official: Option<Official>, issue: Issue)
    ensures issue in OfficialIssues(official) <==> OfficialShows(official, issue)
  {}

  lemma HeaderIssueIff(r: Report, issue: Issue)
    ensures issue in HeaderIssues(r) <==> HeaderShows(r, issue)
  {
    OfficialIssueIff(r.official, issue);
    InFour(if r.schemaVersion != SCHEMA_VERSION then [WrongSchema] else [],
           if !r.versionCheckPassed then [NoVersionCheck] else [],
           if !r.modernEnabled then [ModernDisabled] else [], OfficialIssues(r.official), issue);
  }

  // ----- The cases of a full report -----

  predicate OfRequiredMode(cat: Catalog, case_: Case) {
    case_.Case? && case_.mode.Text? && case_.mode.text in cat.modes
  }

  ghost predicate Repeated(cases: seq<Case>, mode: string, transport: string) {
    exists i, j :: 0 <= i < j < |cases| && CaseAt(cases[i], mode, transport) && CaseAt(cases[j], mode, transport)
  }

  ghost predicate CasesShow(cat: Catalog, cases: seq<Case>, issue: Issue) {
    match issue
    case MalformedCase => exists case_ :: case_ in cases && case_.NotACase?
    case MalformedRequiredCase => exists case_ :: case_ in cases && OfRequiredMode(cat, case_) && !case_.transport.Text?
    case DuplicateCase(mode, transport) => mode in cat.modes && Repeated(cases, mode, transport)
    case _ => false
  }

  lemma RepeatedInit(cases: seq<Case>, mode: string, transport: string)
    requires cases != []
    ensures var n := |cases| - 1;
            Repeated(cases, mode, transport) <==>
            || Repeated(cases[..n], mode, transport)
            || (CaseAt(cases[n], mode, transport) && exists i :: 0 <= i < n && CaseAt(cases[i], mode, transport))
  {
    var n := |cases| - 1;
    assert forall i :: 0 <= i < n ==> cases[..n][i] == cases[i];
  }

  lemma SomeCaseIsFirst(cat: Catalog, cases: seq<Case>, mode: string, transport: string)
    requires mode in cat.modes
    ensures (mode, transport) in CasesOf(cat, cases) <==> exists i :: 0 <= i < |cases| && CaseAt(cases[i], mode, transport)
  {
    CasesOfIff(cat, cases, mode, transport);
    if i :| 0 <= i < |cases| && CaseAt(cases[i], mode, transport) {
      var first := FindFirst(cases, mode, transport, i);
    }
  }

  lemma LastCaseShows(cat: Catalog, cases: seq<Case>, issue: Issue)
    requires cases != []
    ensures var n := |cases| - 1;
            CasesShow(cat, cases, issue) <==>
            || CasesShow(cat, cases[..n], issue)
            || match issue
               case MalformedCase => cases[n].NotACase?
               case MalformedRequiredCase => OfRequiredMode(cat, cases[n]) && !cases[n].transport.Text?
               case DuplicateCase(mode, transport) =>
                 && mode in cat.modes && CaseAt(cases[n], mode, transport)
                 && (mode, transport) in CasesOf(cat, cases[..n])
               case _ => false
  {
    var n := |cases| - 1;
    assert cases == cases[..n] + [cases[n]];
    if issue.DuplicateCase? && issue.mode in cat.modes {
      RepeatedInit(cases, issue.mode, issue.transport);
      SomeCaseIsFirst(cat, cases[..n], issue.mode, issue.transport);
    }
  }

  lemma {:induction false} CaseIssueIff(cat: Catalog, cases: seq<Case>, issue: Issue)
    ensures issue in CaseIssues(cat, cases) <==> CasesShow(cat, cases, issue)
  {
    if cases != [] {
      CaseIssueIff(cat, cases[..|cases| - 1], issue);
      LastCaseShows(cat, cases, issue);
    }
  }

  // ----- One required place of a full report -----

  /** The scenarios of the catalog that the case does not report. */
  ghost predicate Lacks(cat: Catalog, case_: Case, mode: string, scenarios: set<string>) {
    forall x :: x in scenarios <==> Pinned(cat, mode, x) && !Reports(case_, mode, x)
  }

  /** The scenarios that the case reports and the catalog does not have. */
  ghost predicate Exceeds(cat: Catalog, case_: Case, mode: string, scenarios: set<string>) {
    forall x :: x in scenarios <==> Reports(case_, mode, x) && !Pinned(cat, mode, x)
  }

  ghost predicate PlaceShows(cat: Catalog, cases: seq<Case>, mode: string, transport: string, issue: Issue) {
    match issue
    case MissingCase(m, t) => m == mode && t == transport && forall i :: !FirstCase(cases, mode, transport, i)
    case NoChecks(m, t) =>
      m == mode && t == transport
      && exists i :: FirstCase(cases, mode, transport, i) && (cases[i].checks.None? || cases[i].checks.value == [])
    case MalformedCheck(m, t) =>
      m == mode && t == transport && exists i :: FirstCase(cases, mode, transport, i) && HasMalformed(cases[i], mode, transport)
    case MissingScenarios(m, scenarios) =>
      m == mode && transport == HTTP && scenarios != {}
      && exists i :: FirstCase(cases, mode, HTTP, i) && HasChecks(cases[i]) && Lacks(cat, cases[i], mode, scenarios)
    case UnexpectedScenarios(m, scenarios) =>
      m == mode && transport == HTTP && scenarios != {}
      && exists i :: FirstCase(cases, mode, HTTP, i) && HasChecks(cases[i]) && Exceeds(cat, cases[i], mode, scenarios)
    case _ => false
  }

  predicate HasChecks(case_: Case) {
    case_.Case? && case_.checks.Some? && case_.checks.value != []
  }

  ghost predicate HasMalformed(case_: Case, mode: string, transport: string) {
    HasChecks(case_) && exists check :: check in case_.checks.value && forall s :: !Observes(mode, transport, check, s)
  }

  lemma CheckIssueIff(mode: string, transport: string, checks: seq<Check>, issue: Issue)
    ensures issue in CheckIssues(mode, transport, checks) <==>
            && issue == MalformedCheck(mode, transport)
            && exists check :: check in checks && forall s :: !Observes(mode, transport, check, s)
  {
    var f := (check: Check) => if ReadCheck(mode, transport, check).None? then [MalformedCheck(mode, transport)] else [];
    GatherMember(f, checks, issue);
    forall check
      ensures ReadCheck(mode, transport, check).Some? <==> exists s :: Observes(mode, transport, check, s)
    {
      ObservesSome(mode, transport, check);
    }
  }

  lemma ScenarioIssueIff(cat: Catalog, mode: string, observed: set<string>, issue: Issue)
    ensures issue in ScenarioIssues(cat, mode, observed) <==>
            match issue
            case MissingScenarios(m, scenarios) =>
              m == mode && scenarios != {} && forall x :: x in scenarios <==> Pinned(cat, mode, x) && x !in observed
            case UnexpectedScenarios(m, scenarios) =>
              m == mode && scenarios != {} && forall x :: x in scenarios <==> x in observed && !Pinned(cat, mode, x)
            case _ => false
  {
    var expected := set x | x in Expected(cat, mode);
    assert forall x :: x in expected <==> Pinned(cat, mode, x);
    match issue
    case MissingScenarios(m, scenarios) =>
      assert scenarios == expected - observed <==> forall x :: x in scenarios <==> Pinned(cat, mode, x) && x !in observed;
    case UnexpectedScenarios(m, scenarios) =>
      assert scenarios == observed - expected <==> forall x :: x in scenarios <==> x in observed && !Pinned(cat, mode, x);
    case _ =>
  }

  lemma ReportedScenarios(case_: Case, mode: string, x: string)
    requires case_.Case? && case_.checks.Some?
    ensures x in Scenarios(CaseSeen(mode, HTTP, case_.checks.value), mode) <==> Reports(case_, mode, x)
  {
    var seen := CaseSeen(mode, HTTP, case_.checks.value);
    forall s
      ensures s in seen <==> ObservedIn(case_, mode, HTTP, s)
    {
      CaseSeenIff(mode, HTTP, case_.checks.value, s);
    }
    ScenarioObserved(seen, mode, case_, x);
  }

  lemma CaseScenarioIssueIff(cat: Catalog, case_: Case, mode: string, issue: Issue)
    requires case_.Case? && case_.checks.Some?
    ensures issue in ScenarioIssues(cat, mode, Scenarios(CaseSeen(mode, HTTP, case_.checks.value), mode)) <==>
            match issue
            case MissingScenarios(m, scenarios) => m == mode && scenarios != {} && Lacks(cat, case_, mode, scenarios)
            case UnexpectedScenarios(m, scenarios) => m == mode && scenarios != {} && Exceeds(cat, case_, mode, scenarios)
            case _ => false
  {
    var observed := Scenarios(CaseSeen(mode, HTTP, case_.checks.value), mode);
    ScenarioIssueIff(cat, mode, observed, issue);
    forall x
      ensures x in observed <==> Reports(case_, mode, x)
    {
      ReportedScenarios(case_, mode, x);
    }
  }

  lemma OnlyFirst(cases: seq<Case>, mode: string, transport: string, i: int)
    requires FirstCase(cases, mode, transport, i)
    ensures forall j :: FirstCase(cases, mode, transport, j) ==> j == i
  {}

  lemma TransportIssueIff(cat: Catalog, cases: seq<Case>, mode: string, transport: string, issue: Issue)
    requires mode in cat.modes
    ensures issue in TransportIssues(cat, CasesOf(cat, cases), mode, transport) <==>
            PlaceShows(cat, cases, mode, transport, issue)
  {
    CasesOfIff(cat, cases, mode, transport);
    if i :| FirstCase(cases, mode, transport, i) {
      OnlyFirst(cases, mode, transport, i);
      if HasChecks(cases[i]) {
        CheckIssueIff(mode, transport, cases[i].checks.value, issue);
        CaseScenarioIssueIff(cat, cases[i], mode, issue);
      }
    }
  }

  // ----- A full report -----

  predicate CatalogShows(cat: Catalog, r: Report, mode: string, issue: Issue) {
    issue == IncompleteCatalog(mode) && !CatalogRight(cat, Selected(r), mode)
  }

  ghost predicate FullShows(cat: Catalog, r: Report, issue: Issue) {
    var cases := if r.cases.Some? then r.cases.value else [];
    || (issue == NoCases && r.cases.None?)
    || CasesShow(cat, cases, issue)
    || exists mode :: mode in cat.modes && FullModeShows(cat, r, cases, mode, issue)
  }

  ghost predicate FullModeShows(cat: Catalog, r: Report, cases: seq<Case>, mode: string, issue: Issue) {
    || CatalogShows(cat, r, mode, issue)
    || PlaceShows(cat, cases, mode, STDIO, issue) || PlaceShows(cat, cases, mode, HTTP, issue)
  }

  lemma FullModeIssueIff(cat: Catalog, r: Report, cases: seq<Case>, mode: string, issue: Issue)
    requires mode in cat.modes
    ensures issue in FullModeIssues(cat, Selected(r), CasesOf(cat, cases), mode) <==> FullModeShows(cat, r, cases, mode, issue)
  {
    TransportIssueIff(cat, cases, mode, STDIO, issue);
    TransportIssueIff(cat, cases, mode, HTTP, issue);
  }

  lemma FullModesIssueIff(cat: Catalog, r: Report, cases: seq<Case>, issue: Issue)
    ensures issue in FullModesIssues(cat, Selected(r), CasesOf(cat, cases), cat.modes) <==>
            exists mode :: mode in cat.modes && FullModeShows(cat, r, cases, mode, issue)
  {
    GatherMember(mode => FullModeIssues(cat, Selected(r), CasesOf(cat, cases), mode), cat.modes, issue);
    forall mode | mode in cat.modes
      ensures issue in FullModeIssues(cat, Selected(r), CasesOf(cat, cases), mode) <==> FullModeShows(cat, r, cases, mode, issue)
    {
      FullModeIssueIff(cat, r, cases, mode, issue);
    }
  }

  lemma FullIssueIff(cat: Catalog, r: Report, issue: Issue)
    requires r.baselineKind.None?
    ensures issue in IssuesIn(cat, r) <==> HeaderShows(r, issue) || FullShows(cat, r, issue)
  {
    var cases := if r.cases.Some? then r.cases.value else [];
    HeaderIssueIff(r, issue);
    CaseIssueIff(cat, cases, issue);
    FullModesIssueIff(cat, r, cases, issue);
  }

  // ----- A compact baseline -----

  ghost predicate ListShows(cat: Catalog, status: CheckStatus, records: Option<seq<Record>>, issue: Issue) {
    if records.None? then issue == NoBucket(status)
    else
      || (issue == MalformedRecord(status) && exists record :: record in records.value && !RecordRight(cat, record))
      || (issue == DuplicateRecord(status)
          && exists i, j :: 0 <= i < j < |records.value| && records.value[i] == records.value[j]
                            && RecordRight(cat, records.value[j]))
  }

  lemma {:induction false} BucketIssueIff(cat: Catalog, status: CheckStatus, records: seq<Record>, issue: Issue)
    ensures issue in BucketIssues(cat, status, records) <==> ListShows(cat, status, Some(records), issue)
  {
    if records != [] {
      var n := |records| - 1;
      BucketIssueIff(cat, status, records[..n], issue);
      assert records == records[..n] + [records[n]];
      ReadableIff(cat, records[n]);
      var id := ReadRecord(cat, records[n]);
      if id.Some? {
        ReadRecordIff(cat, records[n], id.value);
        RecordIdsIff(cat, records[..n], id.value);
      }
      RepeatedRecordInit(cat, records);
    }
  }

  ghost predicate RepeatsRecord(cat: Catalog, records: seq<Record>) {
    exists i, j :: 0 <= i < j < |records| && records[i] == records[j] && RecordRight(cat, records[j])
  }

  lemma RepeatedRecordInit(cat: Catalog, records: seq<Record>)
    requires records != []
    ensures var n := |records| - 1;
            RepeatsRecord(cat, records) <==>
            RepeatsRecord(cat, records[..n]) || (records[n] in records[..n] && RecordRight(cat, records[n]))
  {
    var n := |records| - 1;
    assert forall i :: 0 <= i < n ==> records[..n][i] == records[i];
  }

  lemma OptionalBucketIssueIff(cat: Catalog, status: CheckStatus, records: Option<seq<Record>>, issue: Issue)
    ensures issue in OptionalBucketIssues(cat, status, records) <==> ListShows(cat, status, records, issue)
  {
    if records.Some? {
      BucketIssueIff(cat, status, records.value, issue);
    }
  }

  ghost predicate ListedScenario(cat: Catalog, r: Report, mode: string, x: string) {
    exists s :: ReportSays(cat, r, s) && OfficialOverHttp(s.id, mode) && s.id.scenario == x
  }

  /** No record lists a check at the place. */
  ghost predicate Unlisted(cat: Catalog, r: Report, mode: string, transport: string) {
    forall s :: ReportSays(cat, r, s) ==> !At(s.id, mode, transport)
  }

  ghost predicate ListedScenariosShow(cat: Catalog, r: Report, mode: string, issue: Issue) {
    match issue
    case MissingScenarios(m, scenarios) =>
      && m == mode && scenarios != {}
      && forall x :: x in scenarios <==> Pinned(cat, mode, x) && !ListedScenario(cat, r, mode, x)
    case UnexpectedScenarios(m, scenarios) =>
      && m == mode && scenarios != {}
      && forall x :: x in scenarios <==> ListedScenario(cat, r, mode, x) && !Pinned(cat, mode, x)
    case _ => false
  }

  ghost predicate ListedModeShows(cat: Catalog, r: Report, mode: string, issue: Issue) {
    || CatalogShows(cat, r, mode, issue)
    || (issue == MissingCase(mode, STDIO) && Unlisted(cat, r, mode, STDIO))
    || (issue == MissingCase(mode, HTTP) && Unlisted(cat, r, mode, HTTP))
    || ListedScenariosShow(cat, r, mode, issue)
  }

  lemma SeenScenario(cat: Catalog, r: Report, mode: string, x: string)
    ensures x in Scenarios(SeenIn(cat, r), mode) <==> ListedScenario(cat, r, mode, x)
  {
    forall s
      ensures s in SeenIn(cat, r) <==> ReportSays(cat, r, s)
    {
      SeenIff(cat, r, s);
    }
    forall s: Seen
      ensures OfficialOverHttp(s.id, mode) <==> OverHttp(s.id, mode)
    {
      OverHttpIff(s.id, mode);
    }
  }

  lemma SeenCase(cat: Catalog, r: Report, mode: string, transport: string)
    ensures CaseMissing(SeenIn(cat, r), mode, transport) ==
            if Unlisted(cat, r, mode, transport) then [MissingCase(mode, transport)] else []
  {
    forall s
      ensures s in SeenIn(cat, r) <==> ReportSays(cat, r, s)
    {
      SeenIff(cat, r, s);
    }
  }

  lemma ListedScenarioIssueIff(cat: Catalog, r: Report, mode: string, issue: Issue)
    ensures issue in ScenarioIssues(cat, mode, Scenarios(SeenIn(cat, r), mode)) <==>
            ListedScenariosShow(cat, r, mode, issue)
  {
    ScenarioIssueIff(cat, mode, Scenarios(SeenIn(cat, r), mode), issue);
    forall x
      ensures x in Scenarios(SeenIn(cat, r), mode) <==> ListedScenario(cat, r, mode, x)
    {
      SeenScenario(cat, r, mode, x);
    }
  }

  lemma InFour(a: seq<Issue>, b: seq<Issue>, c: seq<Issue>, d: seq<Issue>, issue: Issue)
    ensures issue in a + b + c + d <==> issue in a || issue in b || issue in c || issue in d
  {}

  lemma ListedModeIssueIff(cat: Catalog, r: Report, mode: string, issue: Issue)
    ensures issue in CompactModeIssues(cat, Selected(r), SeenIn(cat, r), mode) <==> ListedModeShows(cat, r, mode, issue)
  {
    SeenCase(cat, r, mode, STDIO);
    SeenCase(cat, r, mode, HTTP);
    ListedScenarioIssueIff(cat, r, mode, issue);
    InFour(CatalogIssues(cat, Selected(r), mode), CaseMissing(SeenIn(cat, r), mode, STDIO),
           CaseMissing(SeenIn(cat, r), mode, HTTP), ScenarioIssues(cat, mode, Scenarios(SeenIn(cat, r), mode)), issue);
  }

  lemma ListedModesIssueIff(cat: Catalog, r: Report, issue: Issue)
    ensures issue in CompactModesIssues(cat, Selected(r), SeenIn(cat, r), cat.modes) <==>
            exists mode :: mode in cat.modes && ListedModeShows(cat, r, mode, issue)
  {
    GatherMember(mode => CompactModeIssues(cat, Selected(r), SeenIn(cat, r), mode), cat.modes, issue);
    forall mode | mode in cat.modes
      ensures issue in CompactModeIssues(cat, Selected(r), SeenIn(cat, r), mode) <==> ListedModeShows(cat, r, mode, issue)
    {
      ListedModeIssueIff(cat, r, mode, issue);
    }
  }

  ghost predicate CompactHeaderShows(cat: Catalog, r: Report, issue: Issue) {
    || (issue == WrongModes && r.requiredModes != cat.modes)
    || (issue == WrongTransports && r.transports !in [Some(["stdio", "official-http"]), Some(["official-http", "stdio"])])
  }

  ghost predicate ListsShow(cat: Catalog, r: Report, checks: CompactChecks, issue: Issue) {
    || ListShows(cat, Pass, checks.passing, issue) || ListShows(cat, Fail, checks.failing, issue)
    || exists mode :: mode in cat.modes && ListedModeShows(cat, r, mode, issue)
  }

  ghost predicate CompactShows(cat: Catalog, r: Report, issue: Issue) {
    || CompactHeaderShows(cat, r, issue)
    || if r.checks.None? then issue == NoIdentities else ListsShow(cat, r, r.checks.value, issue)
  }

  lemma CompactHeaderIssueIff(cat: Catalog, r: Report, issue: Issue)
    ensures issue in CompactHeaderIssues(cat, r) <==> CompactHeaderShows(cat, r, issue)
  {}

  ghost function ListIssues(cat: Catalog, r: Report, checks: CompactChecks): seq<Issue> {
    OptionalBucketIssues(cat, Pass, checks.passing) + OptionalBucketIssues(cat, Fail, checks.failing)
    + CompactModesIssues(cat, Selected(r), SeenIn(cat, r), cat.modes)
  }

  lemma ListIssueIff(cat: Catalog, r: Report, checks: CompactChecks, issue: Issue)
    ensures issue in ListIssues(cat, r, checks) <==> ListsShow(cat, r, checks, issue)
  {
    OptionalBucketIssueIff(cat, Pass, checks.passing, issue);
    OptionalBucketIssueIff(cat, Fail, checks.failing, issue);
    ListedModesIssueIff(cat, r, issue);
  }

  lemma CompactIssues(cat: Catalog, r: Report)
    requires r.baselineKind == Some(COMPACT_KIND)
    ensures IssuesIn(cat, r) ==
            HeaderIssues(r)
            + (CompactHeaderIssues(cat, r) + if r.checks.None? then [NoIdentities] else ListIssues(cat, r, r.checks.value))
  {}

  lemma CompactIssueIff(cat: Catalog, r: Report, issue: Issue)
    requires r.baselineKind == Some(COMPACT_KIND)
    ensures issue in IssuesIn(cat, r) <==> HeaderShows(r, issue) || CompactShows(cat, r, issue)
  {
    CompactIssues(cat, r);
    HeaderIssueIff(r, issue);
    CompactHeaderIssueIff(cat, r, issue);
    if r.checks.Some? {
      ListIssueIff(cat, r, r.checks.value, issue);
    }
  }

  // ----- Any report -----

  /** What is wrong with the report, issue by issue. */
  ghost predicate Shows(cat: Catalog, r: Report, issue: Issue) {
    || HeaderShows(r, issue)
    || match r.baselineKind
       case None => FullShows(cat, r, issue)
       case Some(kind) =>
         if kind == "mcp-conformance-regression-baseline-v1" then CompactShows(cat, r, issue) else issue == UnsupportedFormat
  }

  /** A report has exactly the issues that its fields show. */
  lemma IssueIff(cat: Catalog, r: Report, issue: Issue)
    ensures issue in IssuesIn(cat, r) <==> Shows(cat, r, issue)
  {
    if r.baselineKind.None? {
      FullIssueIff(cat, r, issue);
    } else if r.baselineKind.value == COMPACT_KIND {
      CompactIssueIff(cat, r, issue);
    } else {
      HeaderIssueIff(r, issue);
    }
  }

  // ----- The gate and compaction -----

  ghost predicate FailsInShipping(cat: Catalog, r: Report, name: string) {
    exists id :: ReportSays(cat, r, Seen(id, Fail)) && id.mode == cat.shipping && id.checkId == name
  }

  ghost predicate GateShows(cat: Catalog, candidate: Report, baseline: Report, issue: GateIssue) {
    match issue
    case InBaseline(i) => Shows(cat, baseline, i)
    case InCandidate(i) => Shows(cat, candidate, i)
    case NoAuthPolicy => baseline.automaticAuth.None? || candidate.automaticAuth.None?
    case DifferentAuthPolicies =>
      baseline.automaticAuth.Some? && candidate.automaticAuth.Some? && baseline.automaticAuth != candidate.automaticAuth
    case ShippingFails(name) => FailsInShipping(cat, candidate, name)
    case BaselineShippingFails(name) => FailsInShipping(cat, baseline, name)
  }

  lemma ReportedIssues(issues: seq<Issue>, issue: GateIssue)
    ensures issue in BaselineIssues(issues) <==> issue.InBaseline? && issue.issue in issues
    ensures issue in CandidateIssues(issues) <==> issue.InCandidate? && issue.issue in issues
  {
    forall i | 0 <= i < |issues|
      ensures BaselineIssues(issues)[i] == InBaseline(issues[i]) && CandidateIssues(issues)[i] == InCandidate(issues[i])
    {}
  }

  lemma FailingInShipping(cat: Catalog, r: Report, issue: GateIssue)
    ensures var ids := Sorted(InMode(Failing(SeenIn(cat, r)), cat.shipping));
            && (issue in ShippingIssues(ids) <==> issue.ShippingFails? && FailsInShipping(cat, r, issue.checkId))
            && (issue in BaselineShippingIssues(ids) <==>
                issue.BaselineShippingFails? && FailsInShipping(cat, r, issue.checkId))
  {
    var failing := InMode(Failing(SeenIn(cat, r)), cat.shipping);
    var ids := Sorted(failing);
    forall id
      ensures id in ids <==> ReportSays(cat, r, Seen(id, Fail)) && id.mode == cat.shipping
    {
      SeenIff(cat, r, Seen(id, Fail));
      InSorted(failing, id);
    }
    forall name
      ensures FailsInShipping(cat, r, name) <==> exists i :: 0 <= i < |ids| && ids[i].checkId == name
    {
      if id :| ReportSays(cat, r, Seen(id, Fail)) && id.mode == cat.shipping && id.checkId == name {
        assert id in ids;
      }
      if i :| 0 <= i < |ids| && ids[i].checkId == name {
        assert ids[i] in ids;
      }
    }
    forall i | 0 <= i < |ids|
      ensures ShippingIssues(ids)[i] == ShippingFails(ids[i].checkId)
      ensures BaselineShippingIssues(ids)[i] == BaselineShippingFails(ids[i].checkId)
    {}
  }

  lemma AuthIssueIff(baseline: Option<bool>, candidate: Option<bool>, issue: GateIssue)
    ensures issue in AuthIssues(baseline, candidate) <==>
            || (issue == NoAuthPolicy && (baseline.None? || candidate.None?))
            || (issue == DifferentAuthPolicies && baseline.Some? && candidate.Some? && baseline != candidate)
  {}

  lemma InFive(a: seq<GateIssue>, b: seq<GateIssue>, c: seq<GateIssue>, d: seq<GateIssue>, e: seq<GateIssue>, issue: GateIssue)
    ensures issue in a + b + c + d + e <==> issue in a || issue in b || issue in c || issue in d || issue in e
  {}

  lemma GateIssueParts(cat: Catalog, candidate: Report, baseline: Report, issue: GateIssue)
    ensures issue in Gate(cat, candidate, baseline).issues <==>
            || (issue.InBaseline? && issue.issue in IssuesIn(cat, baseline))
            || (issue.InCandidate? && issue.issue in IssuesIn(cat, candidate))
            || issue in AuthIssues(baseline.automaticAuth, candidate.automaticAuth)
            || (issue.ShippingFails? && FailsInShipping(cat, candidate, issue.checkId))
            || (issue.BaselineShippingFails? && FailsInShipping(cat, baseline, issue.checkId))
  {
    ReportedIssues(IssuesIn(cat, baseline), issue);
    ReportedIssues(IssuesIn(cat, candidate), issue);
    FailingInShipping(cat, candidate, issue);
    FailingInShipping(cat, baseline, issue);
    InFive(BaselineIssues(IssuesIn(cat, baseline)), CandidateIssues(IssuesIn(cat, candidate)),
           AuthIssues(baseline.automaticAuth, candidate.automaticAuth),
           ShippingIssues(Sorted(InMode(Failing(SeenIn(cat, candidate)), cat.shipping))),
           BaselineShippingIssues(Sorted(InMode(Failing(SeenIn(cat, baseline)), cat.shipping))), issue);
  }

  /** The gate reports exactly the errors that the two reports show. */
  lemma GateIssueIff(cat: Catalog, candidate: Report, baseline: Report, issue: GateIssue)
    ensures issue in Gate(cat, candidate, baseline).issues <==> GateShows(cat, candidate, baseline, issue)
  {
    GateIssueParts(cat, candidate, baseline, issue);
    AuthIssueIff(baseline.automaticAuth, candidate.automaticAuth, issue);
    match issue
    case InBaseline(i) => IssueIff(cat, baseline, i);
    case InCandidate(i) => IssueIff(cat, candidate, i);
    case _ =>
  }

  ghost predicate CompactionShows(cat: Catalog, r: Report, issue: GateIssue) {
    match issue
    case InBaseline(i) => Shows(cat, r, i)
    case NoAuthPolicy => r.automaticAuth.None?
    case BaselineShippingFails(name) => name == "" && exists name' :: FailsInShipping(cat, r, name')
    case _ => false
  }

  lemma SomeFailInShipping(cat: Catalog, r: Report)
    ensures InMode(Failing(SeenIn(cat, r)), cat.shipping) != {} <==> exists name :: FailsInShipping(cat, r, name)
  {
    var failing := InMode(Failing(SeenIn(cat, r)), cat.shipping);
    forall id
      ensures id in failing <==> ReportSays(cat, r, Seen(id, Fail)) && id.mode == cat.shipping
    {
      SeenIff(cat, r, Seen(id, Fail));
    }
    if id :| id in failing {
      assert FailsInShipping(cat, r, id.checkId);
    }
  }

  /** Compaction refuses a report exactly for the errors that it shows. */
  lemma CompactionIssueIff(cat: Catalog, r: Report, issue: GateIssue)
    ensures issue in CompactionIssues(cat, r) <==> CompactionShows(cat, r, issue)
    ensures Compact(cat, r).Err? ==> Compact(cat, r).error == CompactionIssues(cat, r) != []
    ensures Compact(cat, r).Ok? <==> CompactionIssues(cat, r) == []
  {
    ReportedIssues(IssuesIn(cat, r), issue);
    SomeFailInShipping(cat, r);
    if issue.InBaseline? {
      IssueIff(cat, r, issue.issue);
    }
  }

  /** The list names exactly the checks seen with the outcome, in order. */
  ghost predicate ListsOutcome(cat: Catalog, r: Report, status: CheckStatus, records: Option<seq<Record>>) {
    && records.Some?
    && exists ids :: Ascending(IdentityKey, ids) && |ids| == |records.value|
                     && (forall i :: 0 <= i < |ids| ==> records.value[i] == RecordFor(ids[i]))
                     && forall id :: id in ids <==> ReportSays(cat, r, Seen(id, status))
  }

  lemma ListedWith(cat: Catalog, r: Report, status: CheckStatus)
    ensures ListsOutcome(cat, r, status, Some(ToRecords(Sorted(With(SeenIn(cat, r), status)))))
  {
    var ids := Sorted(With(SeenIn(cat, r), status));
    forall id
      ensures id in ids <==> ReportSays(cat, r, Seen(id, status))
    {
      SeenIff(cat, r, Seen(id, status));
      InSorted(With(SeenIn(cat, r), status), id);
    }
  }

  lemma CompactedHeader(cat: Catalog, r: Report)
    requires Compact(cat, r).Ok?
    ensures var c := Compact(cat, r).value;
            && c.automaticAuth == r.automaticAuth && c.baselineKind == Some("mcp-conformance-regression-baseline-v1")
            && c.requiredModes == cat.modes && c.transports == Some(["stdio", "official-http"]) && c.cases == None
            && HeaderRight(c) && (forall mode :: mode in cat.modes ==> CatalogRight(cat, Selected(c), mode))
  {
    assert |BaselineIssues(IssuesIn(cat, r))| == |IssuesIn(cat, r)|;
    UsableIff(cat, r);
  }

  /** What compaction writes: the authentication policy, the pinned scenarios and the two sorted lists. */
  lemma CompactedSays(cat: Catalog, r: Report)
    requires Compact(cat, r).Ok?
    ensures var c := Compact(cat, r).value;
            && c.automaticAuth == r.automaticAuth && c.baselineKind == Some("mcp-conformance-regression-baseline-v1")
            && c.requiredModes == cat.modes && c.transports == Some(["stdio", "official-http"]) && c.cases == None
            && HeaderRight(c) && (forall mode :: mode in cat.modes ==> CatalogRight(cat, Selected(c), mode))
            && c.checks.Some? && ListsOutcome(cat, r, Pass, c.checks.value.passing)
            && ListsOutcome(cat, r, Fail, c.checks.value.failing)
  {
    CompactedHeader(cat, r);
    ListedWith(cat, r, Pass);
    ListedWith(cat, r, Fail);
  }
}
