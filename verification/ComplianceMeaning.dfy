/**
 What a compliance report says, in terms of its own fields: which outcomes it reports for which
 checks, and exactly when it is usable.
 */
module ComplianceMeaning {
  import opened Lists
  import opened Documents
  import opened ComplianceReports

  // ----- The catalog -----

  /** The scenario is pinned for the mode. */
  predicate Pinned(cat: Catalog, mode: string, scenario: string) {
    mode in cat.scenarios && scenario in cat.scenarios[mode]
  }

  /** An identity that a baseline may list. */
  predicate Listable(cat: Catalog, id: Identity) {
    && id.mode in cat.modes && id.transport in ["stdio", "official-http"]
    && id.source in ["official", "harness", "supplemental"] && id.checkId != ""
  }

  /** Observed over HTTP by the official suite or its harness. */
  predicate OfficialOverHttp(id: Identity, mode: string) {
    id.mode == mode && id.transport == "official-http" && id.source in ["official", "harness"]
  }

  lemma ListableIff(cat: Catalog, id: Identity)
    ensures Listable(cat, id) <==> WellFormedId(cat, id)
  {}

  lemma OverHttpIff(id: Identity, mode: string)
    ensures OfficialOverHttp(id, mode) <==> OverHttp(id, mode)
  {}

  // ----- One check -----

  function StatusText(status: CheckStatus): string {
    match status case Pass => "PASS" case Fail => "FAIL" case Skip => "SKIP"
  }

  /** The check goes by its own id or, without one, by its name without an arrival number. */
  ghost predicate GoesBy(name: string, checkId: Field, id: string) {
    match checkId
    case Text(given) => id == given != ""
    case Absent => NumberedAs(name, id) || (id == name && forall stem :: !NumberedAs(name, stem))
    case NotText => false
  }

  /** The fields of a check report this outcome for this identity. */
  ghost predicate Observes(mode: string, transport: string, check: Check, s: Seen) {
    && check.Check? && s.id.mode == mode && s.id.transport == transport
    && s.id.source in ["official", "harness", "supplemental"] && check.source == Text(s.id.source)
    && check.scenario == (if s.id.scenario == "" then Absent else Text(s.id.scenario))
    && check.name.Text? && check.name.text != "" && GoesBy(check.name.text, check.checkId, s.id.checkId)
    && check.status == Text(StatusText(s.status)) && check.success == Some(s.status != Fail)
  }

  lemma IdentityIff(mode: string, transport: string, check: Check, id: Identity)
    requires check.Check?
    ensures CheckIdentity(mode, transport, check) == Some(id) <==>
            && id.mode == mode && id.transport == transport
            && id.source in ["official", "harness", "supplemental"] && check.source == Text(id.source)
            && check.scenario == (if id.scenario == "" then Absent else Text(id.scenario))
            && check.name.Text? && check.name.text != "" && GoesBy(check.name.text, check.checkId, id.checkId)
  {
    if check.name.Text? {
      StableNameIff(check.name.text, id.checkId);
    }
  }

  lemma ReadStatusIff(field: Field, status: CheckStatus)
    ensures ReadStatus(field) == Some(status) <==> field == Text(StatusText(status))
  {
    assert "PASS"[0] == 'P' && "FAIL"[0] == 'F' && "SKIP"[0] == 'S';
  }

  /** A check counts, with its identity and outcome, exactly when its fields say so. */
  lemma ReadCheckIff(mode: string, transport: string, check: Check, s: Seen)
    ensures ReadCheck(mode, transport, check) == Some(s) <==> Observes(mode, transport, check, s)
  {
    if check.Check? {
      IdentityIff(mode, transport, check, s.id);
      ReadStatusIff(check.status, s.status);
    }
  }

  // ----- The cases of a full report -----

  predicate CaseAt(case_: Case, mode: string, transport: string) {
    case_.Case? && case_.mode == Text(mode) && case_.transport == Text(transport)
  }

  /** The first case at its place, which is the one that counts. */
  ghost predicate FirstCase(cases: seq<Case>, mode: string, transport: string, i: int) {
    && 0 <= i < |cases| && CaseAt(cases[i], mode, transport)
    && forall j :: 0 <= j < i ==> !CaseAt(cases[j], mode, transport)
  }

  lemma {:induction false} CasesOfIff(cat: Catalog, cases: seq<Case>, mode: string, transport: string)
    requires mode in cat.modes
    ensures (mode, transport) in CasesOf(cat, cases) <==> exists i :: FirstCase(cases, mode, transport, i)
    ensures forall i :: FirstCase(cases, mode, transport, i) ==>
              (mode, transport) in CasesOf(cat, cases) && CasesOf(cat, cases)[(mode, transport)] == cases[i].checks
  {
    if cases != [] {
      var n := |cases| - 1;
      var init := cases[..n];
      CasesOfIff(cat, init, mode, transport);
      FirstCaseInit(cases, mode, transport);
      if CaseAt(cases[n], mode, transport) && forall i :: !FirstCase(init, mode, transport, i) {
        assert FirstCase(cases, mode, transport, n);
      }
      assert forall i :: FirstCase(init, mode, transport, i) ==> FirstCase(cases, mode, transport, i);
    }
  }

  lemma FirstCaseInit(cases: seq<Case>, mode: string, transport: string)
    requires cases != []
    ensures var n := |cases| - 1;
            forall i :: FirstCase(cases, mode, transport, i) <==>
                  FirstCase(cases[..n], mode, transport, i)
                  || (i == n && CaseAt(cases[n], mode, transport) && forall j :: !FirstCase(cases[..n], mode, transport, j))
  {
    var n := |cases| - 1;
    var init := cases[..n];
    assert forall i :: 0 <= i < n ==> init[i] == cases[i];
    if i :| 0 <= i < n && CaseAt(init[i], mode, transport) {
      var first := FindFirst(init, mode, transport, i);
    }
  }

  lemma {:induction false} FindFirst(cases: seq<Case>, mode: string, transport: string, i: nat) returns (first: nat)
    requires i < |cases| && CaseAt(cases[i], mode, transport)
    ensures FirstCase(cases, mode, transport, first)
  {
    if j :| 0 <= j < i && CaseAt(cases[j], mode, transport) {
      first := FindFirst(cases, mode, transport, j);
    } else {
      first := i;
    }
  }

  ghost predicate ObservedIn(case_: Case, mode: string, transport: string, s: Seen) {
    case_.Case? && case_.checks.Some? && exists check :: check in case_.checks.value && Observes(mode, transport, check, s)
  }

  lemma CaseSeenIff(mode: string, transport: string, checks: seq<Check>, s: Seen)
    ensures s in CaseSeen(mode, transport, checks) <==> exists check :: check in checks && Observes(mode, transport, check, s)
  {
    forall check
      ensures ReadCheck(mode, transport, check) == Some(s) <==> Observes(mode, transport, check, s)
    {
      ReadCheckIff(mode, transport, check, s);
    }
  }

  predicate RequiredPlace(cat: Catalog, mode: string, transport: string) {
    mode in cat.modes && transport in ["stdio", "official-http"]
  }

  lemma TransportSeenIff(cat: Catalog, cases: seq<Case>, mode: string, transport: string, s: Seen)
    requires mode in cat.modes
    ensures s in TransportSeen(CasesOf(cat, cases), mode, transport) <==>
            exists i :: FirstCase(cases, mode, transport, i) && ObservedIn(cases[i], mode, transport, s)
  {
    CasesOfIff(cat, cases, mode, transport);
    if i :| FirstCase(cases, mode, transport, i) {
      if cases[i].checks.Some? {
        CaseSeenIff(mode, transport, cases[i].checks.value, s);
      }
    }
  }

  /** A full report is taken to report exactly what the first case at each required place reports. */
  lemma FullReportSays(cat: Catalog, r: Report, s: Seen)
    requires r.baselineKind.None?
    ensures s in SeenIn(cat, r) <==>
            && r.cases.Some? && RequiredPlace(cat, s.id.mode, s.id.transport)
            && exists i :: FirstCase(r.cases.value, s.id.mode, s.id.transport, i)
                           && ObservedIn(r.cases.value[i], s.id.mode, s.id.transport, s)
  {
    var cases := if r.cases.Some? then r.cases.value else [];
    if s.id.mode in cat.modes {
      TransportSeenIff(cat, cases, s.id.mode, STDIO, s);
      TransportSeenIff(cat, cases, s.id.mode, HTTP, s);
    }
  }

  // ----- When a full report is usable -----

  predicate HeaderRight(r: Report) {
    && r.schemaVersion == 4 && r.versionCheckPassed && r.modernEnabled && r.official.Some?
    && r.official.value.repository == Text("modelcontextprotocol/conformance")
    && r.official.value.gitRef == Text("49103de6ed70804e940637bf3e9e29e4a3f54e64")
    && r.official.value.authenticationIncluded && r.official.value.scenarios.Some?
  }

  /** Every case is one, and those of required modes name their transport and differ in place. */
  ghost predicate CasesRight(cat: Catalog, cases: seq<Case>) {
    && (forall i :: 0 <= i < |cases| ==> CaseRight(cat, cases[i]))
    && (forall i, j, mode, transport :: 0 <= i < j < |cases| && mode in cat.modes ==>
          !(CaseAt(cases[i], mode, transport) && CaseAt(cases[j], mode, transport)))
  }

  predicate CaseRight(cat: Catalog, case_: Case) {
    case_.Case? && (case_.mode.Text? && case_.mode.text in cat.modes ==> case_.transport.Text?)
  }

  lemma {:induction false} CaseIssuesIff(cat: Catalog, cases: seq<Case>)
    ensures CaseIssues(cat, cases) == [] <==> CasesRight(cat, cases)
  {
    if cases != [] {
      var n := |cases| - 1;
      var init, last := cases[..n], cases[n];
      CaseIssuesIff(cat, init);
      CasesRightInit(cat, cases);
      if CaseRight(cat, last) && last.mode.Text? && last.mode.text in cat.modes {
        CasesOfIff(cat, init, last.mode.text, last.transport.text);
        if i :| 0 <= i < n && CaseAt(init[i], last.mode.text, last.transport.text) {
          var first := FindFirst(init, last.mode.text, last.transport.text, i);
        }
      }
    }
  }

  lemma CasesRightInit(cat: Catalog, cases: seq<Case>)
    requires cases != []
    ensures var n := |cases| - 1;
            CasesRight(cat, cases) <==>
            && CasesRight(cat, cases[..n]) && CaseRight(cat, cases[n])
            && forall i, mode, transport :: 0 <= i < n && mode in cat.modes ==>
                 !(CaseAt(cases[i], mode, transport) && CaseAt(cases[n], mode, transport))
  {
    var n := |cases| - 1;
    assert forall i :: 0 <= i < n ==> cases[..n][i] == cases[i];
  }

  /** The case has checks, and the fields of each report an outcome. */
  ghost predicate ChecksRight(case_: Case, mode: string, transport: string) {
    && case_.Case? && case_.checks.Some? && case_.checks.value != []
    && forall check :: check in case_.checks.value ==> exists s :: Observes(mode, transport, check, s)
  }

  /** The official suite or its harness reports the scenario over HTTP. */
  ghost predicate Reports(case_: Case, mode: string, scenario: string) {
    exists s :: ObservedIn(case_, mode, HTTP, s) && s.id.source != "supplemental" && s.id.scenario == scenario
  }

  ghost predicate ScenariosRight(cat: Catalog, case_: Case, mode: string) {
    forall scenario :: Pinned(cat, mode, scenario) <==> Reports(case_, mode, scenario)
  }

  ghost predicate PlaceRight(cat: Catalog, cases: seq<Case>, mode: string, transport: string) {
    exists i ::
      && FirstCase(cases, mode, transport, i) && ChecksRight(cases[i], mode, transport)
      && (transport == HTTP ==> ScenariosRight(cat, cases[i], mode))
  }

  predicate CatalogRight(cat: Catalog, selected: map<string, seq<string>>, mode: string) {
    mode in selected && selected[mode] == if mode in cat.scenarios then cat.scenarios[mode] else []
  }

  ghost predicate FullReportRight(cat: Catalog, r: Report) {
    && HeaderRight(r) && r.cases.Some? && CasesRight(cat, r.cases.value)
    && forall mode :: mode in cat.modes ==>
         && CatalogRight(cat, Selected(r), mode)
         && PlaceRight(cat, r.cases.value, mode, STDIO) && PlaceRight(cat, r.cases.value, mode, HTTP)
  }

  lemma CheckIssuesIff(mode: string, transport: string, checks: seq<Check>)
    ensures CheckIssues(mode, transport, checks) == [] <==>
            forall check :: check in checks ==> exists s :: Observes(mode, transport, check, s)
  {
    GatherNothing(check => if ReadCheck(mode, transport, check).None? then [MalformedCheck(mode, transport)] else [], checks);
    forall check
      ensures ReadCheck(mode, transport, check).Some? <==> exists s :: Observes(mode, transport, check, s)
    {
      ObservesSome(mode, transport, check);
    }
  }

  lemma ObservesSome(mode: string, transport: string, check: Check)
    ensures ReadCheck(mode, transport, check).Some? <==> exists s :: Observes(mode, transport, check, s)
  {
    forall s
      ensures ReadCheck(mode, transport, check) == Some(s) <==> Observes(mode, transport, check, s)
    {
      ReadCheckIff(mode, transport, check, s);
    }
  }

  lemma SetIssuesIff(cat: Catalog, mode: string, observed: set<string>)
    ensures ScenarioIssues(cat, mode, observed) == [] <==>
            forall scenario :: Pinned(cat, mode, scenario) <==> scenario in observed
  {
    var expected := set x | x in Expected(cat, mode);
    assert ScenarioIssues(cat, mode, observed) == [] <==> expected == observed;
  }

  lemma ScenarioIssuesIff(cat: Catalog, case_: Case, mode: string)
    requires case_.Case? && case_.checks.Some?
    ensures ScenarioIssues(cat, mode, Scenarios(CaseSeen(mode, HTTP, case_.checks.value), mode)) == [] <==>
            ScenariosRight(cat, case_, mode)
  {
    var seen := CaseSeen(mode, HTTP, case_.checks.value);
    forall s
      ensures s in seen <==> ObservedIn(case_, mode, HTTP, s)
    {
      CaseSeenIff(mode, HTTP, case_.checks.value, s);
    }
    forall scenario
      ensures scenario in Scenarios(seen, mode) <==> Reports(case_, mode, scenario)
    {
      ScenarioObserved(seen, mode, case_, scenario);
    }
    SetIssuesIff(cat, mode, Scenarios(seen, mode));
  }

  lemma ScenarioObserved(seen: set<Seen>, mode: string, case_: Case, scenario: string)
    requires forall s :: s in seen <==> ObservedIn(case_, mode, HTTP, s)
    ensures scenario in Scenarios(seen, mode) <==> Reports(case_, mode, scenario)
  {
    assert "official"[0] == 'o' && "harness"[0] == 'h' && "supplemental"[0] == 's';
    if s :| ObservedIn(case_, mode, HTTP, s) && s.id.source != "supplemental" && s.id.scenario == scenario {
      assert s in seen && OverHttp(s.id, mode);
    }
  }

  lemma TransportIssuesIff(cat: Catalog, cases: seq<Case>, mode: string, transport: string)
    requires mode in cat.modes
    ensures TransportIssues(cat, CasesOf(cat, cases), mode, transport) == [] <==> PlaceRight(cat, cases, mode, transport)
  {
    CasesOfIff(cat, cases, mode, transport);
    if i :| FirstCase(cases, mode, transport, i) {
      var checks := cases[i].checks;
      if checks.Some? && checks.value != [] {
        CheckIssuesIff(mode, transport, checks.value);
        ScenarioIssuesIff(cat, cases[i], mode);
      }
      assert forall j :: FirstCase(cases, mode, transport, j) ==> j == i;
    }
  }

  lemma FullModesIff(cat: Catalog, selected: map<string, seq<string>>, cases: seq<Case>)
    ensures FullModesIssues(cat, selected, CasesOf(cat, cases), cat.modes) == [] <==>
            forall mode :: mode in cat.modes ==>
              && CatalogRight(cat, selected, mode)
              && PlaceRight(cat, cases, mode, STDIO) && PlaceRight(cat, cases, mode, HTTP)
  {
    GatherNothing(mode => FullModeIssues(cat, selected, CasesOf(cat, cases), mode), cat.modes);
    forall mode | mode in cat.modes
      ensures FullModeIssues(cat, selected, CasesOf(cat, cases), mode) == [] <==>
              && CatalogRight(cat, selected, mode)
              && PlaceRight(cat, cases, mode, STDIO) && PlaceRight(cat, cases, mode, HTTP)
    {
      TransportIssuesIff(cat, cases, mode, STDIO);
      TransportIssuesIff(cat, cases, mode, HTTP);
    }
  }

  lemma HeaderIff(r: Report)
    ensures HeaderIssues(r) == [] <==> HeaderRight(r)
  {}

  /** A full report has no issue exactly when its header, its cases and their checks are right. */
  lemma FullReportUsableIff(cat: Catalog, r: Report)
    requires r.baselineKind.None?
    ensures IssuesIn(cat, r) == [] <==> FullReportRight(cat, r)
  {
    HeaderIff(r);
    if r.cases.Some? {
      CaseIssuesIff(cat, r.cases.value);
      FullModesIff(cat, Selected(r), r.cases.value);
    }
  }

  // ----- Compact baselines -----

  /** The record that lists an identity. */
  function RecordFor(id: Identity): Record {
    Record(Text(id.mode), Text(id.transport), Text(id.source), Text(id.scenario), Text(id.checkId))
  }

  ghost predicate Listed(cat: Catalog, records: Option<seq<Record>>, id: Identity) {
    records.Some? && Listable(cat, id) && RecordFor(id) in records.value
  }

  lemma ReadRecordIff(cat: Catalog, record: Record, id: Identity)
    ensures ReadRecord(cat, record) == Some(id) <==> Listable(cat, id) && record == RecordFor(id)
  {
    ListableIff(cat, id);
  }

  lemma RecordIdsIff(cat: Catalog, records: seq<Record>, id: Identity)
    ensures id in RecordIds(cat, records) <==> Listable(cat, id) && RecordFor(id) in records
  {
    forall record
      ensures ReadRecord(cat, record) == Some(id) <==> Listable(cat, id) && record == RecordFor(id)
    {
      ReadRecordIff(cat, record, id);
    }
    if Listable(cat, id) && RecordFor(id) in records {
      assert ReadRecord(cat, RecordFor(id)) == Some(id);
    }
  }

  lemma BucketSeenIff(cat: Catalog, status: CheckStatus, records: Option<seq<Record>>, s: Seen)
    ensures s in BucketSeen(cat, status, records) <==> s.status == status && Listed(cat, records, s.id)
  {
    if records.Some? {
      RecordIdsIff(cat, records.value, s.id);
    }
  }

  /** A compact baseline says exactly that the listed identities passed or failed. */
  lemma CompactReportSays(cat: Catalog, r: Report, s: Seen)
    requires r.baselineKind == Some(COMPACT_KIND)
    ensures s in SeenIn(cat, r) <==>
            && r.checks.Some? && !s.status.Skip?
            && Listed(cat, if s.status.Pass? then r.checks.value.passing else r.checks.value.failing, s.id)
  {
    if r.checks.Some? {
      BucketSeenIff(cat, Pass, r.checks.value.passing, s);
      BucketSeenIff(cat, Fail, r.checks.value.failing, s);
    }
  }

  ghost predicate RecordRight(cat: Catalog, record: Record) {
    exists id :: Listable(cat, id) && record == RecordFor(id)
  }

  /** Every record lists a well-formed identity, none twice. */
  ghost predicate BucketRight(cat: Catalog, records: Option<seq<Record>>) {
    records.Some? && Distinct(records.value) && forall record :: record in records.value ==> RecordRight(cat, record)
  }

  lemma ReadableIff(cat: Catalog, record: Record)
    ensures ReadRecord(cat, record).Some? <==> RecordRight(cat, record)
  {
    forall id
      ensures ReadRecord(cat, record) == Some(id) <==> Listable(cat, id) && record == RecordFor(id)
    {
      ReadRecordIff(cat, record, id);
    }
  }

  lemma BucketRightInit(cat: Catalog, records: seq<Record>)
    requires records != []
    ensures var n := |records| - 1;
            BucketRight(cat, Some(records)) <==>
            BucketRight(cat, Some(records[..n])) && records[n] !in records[..n] && RecordRight(cat, records[n])
  {
    var n := |records| - 1;
    assert records == records[..n] + [records[n]];
    assert Distinct(records) <==> Distinct(records[..n]) && records[n] !in records[..n];
  }

  lemma {:induction false} BucketIssuesIff(cat: Catalog, status: CheckStatus, records: seq<Record>)
    ensures BucketIssues(cat, status, records) == [] <==> BucketRight(cat, Some(records))
  {
    if records != [] {
      var n := |records| - 1;
      BucketIssuesIff(cat, status, records[..n]);
      BucketRightInit(cat, records);
      ReadableIff(cat, records[n]);
      var id := ReadRecord(cat, records[n]);
      if id.Some? {
        ReadRecordIff(cat, records[n], id.value);
        RecordIdsIff(cat, records[..n], id.value);
      }
    }
  }

  lemma OptionalBucketIff(cat: Catalog, status: CheckStatus, records: Option<seq<Record>>)
    ensures OptionalBucketIssues(cat, status, records) == [] <==> BucketRight(cat, records)
  {
    if records.Some? {
      BucketIssuesIff(cat, status, records.value);
    }
  }

  /** Both transports are listed and the pinned scenarios are exactly those listed over HTTP. */
  ghost predicate ListedRight(cat: Catalog, seen: set<Seen>, mode: string) {
    && (exists s :: s in seen && At(s.id, mode, STDIO)) && (exists s :: s in seen && At(s.id, mode, HTTP))
    && forall scenario ::
         Pinned(cat, mode, scenario) <==> exists s :: s in seen && OfficialOverHttp(s.id, mode) && s.id.scenario == scenario
  }

  lemma CompactModeIff(cat: Catalog, selected: map<string, seq<string>>, seen: set<Seen>, mode: string)
    ensures CompactModeIssues(cat, selected, seen, mode) == [] <==>
            CatalogRight(cat, selected, mode) && ListedRight(cat, seen, mode)
  {
    SetIssuesIff(cat, mode, Scenarios(seen, mode));
    forall s: Seen
      ensures OfficialOverHttp(s.id, mode) <==> OverHttp(s.id, mode)
    {
      OverHttpIff(s.id, mode);
    }
    assert forall scenario :: scenario in Scenarios(seen, mode) <==>
             exists s :: s in seen && OfficialOverHttp(s.id, mode) && s.id.scenario == scenario;
  }

  lemma CompactModesIff(cat: Catalog, selected: map<string, seq<string>>, seen: set<Seen>)
    ensures CompactModesIssues(cat, selected, seen, cat.modes) == [] <==>
            forall mode :: mode in cat.modes ==> CatalogRight(cat, selected, mode) && ListedRight(cat, seen, mode)
  {
    GatherNothing(mode => CompactModeIssues(cat, selected, seen, mode), cat.modes);
    forall mode | mode in cat.modes
      ensures CompactModeIssues(cat, selected, seen, mode) == [] <==>
              CatalogRight(cat, selected, mode) && ListedRight(cat, seen, mode)
    {
      CompactModeIff(cat, selected, seen, mode);
    }
  }

  ghost predicate CompactReportRight(cat: Catalog, r: Report) {
    && HeaderRight(r) && r.requiredModes == cat.modes
    && r.transports in [Some(["stdio", "official-http"]), Some(["official-http", "stdio"])]
    && r.checks.Some? && BucketRight(cat, r.checks.value.passing) && BucketRight(cat, r.checks.value.failing)
    && forall mode :: mode in cat.modes ==> CatalogRight(cat, Selected(r), mode) && ListedRight(cat, SeenIn(cat, r), mode)
  }

  /** A report that calls itself a baseline is usable exactly when it is a right one of the known kind. */
  lemma CompactReportUsableIff(cat: Catalog, r: Report)
    requires r.baselineKind.Some?
    ensures IssuesIn(cat, r) == [] <==> r.baselineKind.value == COMPACT_KIND && CompactReportRight(cat, r)
  {
    HeaderIff(r);
    if r.checks.Some? {
      OptionalBucketIff(cat, Pass, r.checks.value.passing);
      OptionalBucketIff(cat, Fail, r.checks.value.failing);
      CompactModesIff(cat, Selected(r), SeenIn(cat, r));
    }
  }

  // ----- Any report -----

  ghost predicate ReportRight(cat: Catalog, r: Report) {
    if r.baselineKind.None? then FullReportRight(cat, r)
    else r.baselineKind.value == COMPACT_KIND && CompactReportRight(cat, r)
  }

  /** The report's own fields say that the check was seen with the outcome. */
  ghost predicate ReportSays(cat: Catalog, r: Report, s: Seen) {
    if r.baselineKind.None? then
      && r.cases.Some? && RequiredPlace(cat, s.id.mode, s.id.transport)
      && exists i :: FirstCase(r.cases.value, s.id.mode, s.id.transport, i)
                     && ObservedIn(r.cases.value[i], s.id.mode, s.id.transport, s)
    else
      && r.baselineKind.value == COMPACT_KIND && r.checks.Some? && !s.status.Skip?
      && Listed(cat, if s.status.Pass? then r.checks.value.passing else r.checks.value.failing, s.id)
  }

  lemma UsableIff(cat: Catalog, r: Report)
    ensures IssuesIn(cat, r) == [] <==> ReportRight(cat, r)
  {
    if r.baselineKind.None? {
      FullReportUsableIff(cat, r);
    } else {
      CompactReportUsableIff(cat, r);
    }
  }

  lemma SeenIff(cat: Catalog, r: Report, s: Seen)
    ensures s in SeenIn(cat, r) <==> ReportSays(cat, r, s)
  {
    if r.baselineKind.None? {
      FullReportSays(cat, r, s);
    } else if r.baselineKind.value == COMPACT_KIND {
      CompactReportSays(cat, r, s);
    }
  }

  /** The map holds exactly the outcomes that the report says, for every check. */
  ghost predicate Holds(cat: Catalog, r: Report, ids: map<Identity, set<CheckStatus>>) {
    && (forall id, status :: id in ids && status in ids[id] <==> ReportSays(cat, r, Seen(id, status)))
    && forall id | id in ids :: ids[id] != {}
  }

  lemma GroupedHolds(cat: Catalog, r: Report)
    ensures Holds(cat, r, Grouped(SeenIn(cat, r)))
  {
    var seen := SeenIn(cat, r);
    forall id, status
      ensures id in Grouped(seen) && status in Grouped(seen)[id] <==> ReportSays(cat, r, Seen(id, status))
    {
      GroupedMembers(seen, id, status);
      SeenIff(cat, r, Seen(id, status));
    }
    forall id | id in Grouped(seen)
      ensures Grouped(seen)[id] != {}
    {
      var s :| s in seen && s.id == id;
      assert s.status in StatusesOf(seen, id);
    }
  }
}
