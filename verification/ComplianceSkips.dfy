/**
 Reports whose required cases rest on skipped checks: compaction accepts them and leaves a baseline
 against which they fail themselves.  There is such a report for every catalog.
 */
module ComplianceSkips {
  import opened Lists
  import opened Documents
  import opened ComplianceReports
  import opened ComplianceMeaning
  import opened ComplianceGate
  import opened ComplianceCompaction

  const SKIPPED := Check(Text("supplemental"), Absent, Text("n"), Absent, Text("SKIP"), Some(true))

  function Passed(scenario: string): Check {
    Check(Text("official"), if scenario == "" then Absent else Text(scenario), Text("n"), Absent, Text("PASS"), Some(true))
  }

  function PassedAll(scenarios: seq<string>): seq<Check> {
    seq(|scenarios|, i requires 0 <= i < |scenarios| => Passed(scenarios[i]))
  }

  function StdioCase(mode: string): Case {
    Case(Text(mode), Text(STDIO), Some([SKIPPED]))
  }

  function StdioCases(modes: seq<string>): seq<Case> {
    seq(|modes|, i requires 0 <= i < |modes| => StdioCase(modes[i]))
  }

  function HttpCase(cat: Catalog, mode: string): Case {
    Case(Text(mode), Text(HTTP), Some([SKIPPED] + PassedAll(Expected(cat, mode))))
  }

  function HttpCases(cat: Catalog, modes: seq<string>): seq<Case> {
    seq(|modes|, i requires 0 <= i < |modes| => HttpCase(cat, modes[i]))
  }

  /** A full run of the catalog in which every stdio check is skipped and every scenario passes over HTTP. */
  function SkippingReport(cat: Catalog): Report {
    Report(SCHEMA_VERSION, true, true, Some(true),
           Some(Official(Text(REPOSITORY), Text(GIT_REF), true, Some(map mode | mode in cat.modes :: Expected(cat, mode)))),
           None, [], None, None, Some(StdioCases(cat.modes) + HttpCases(cat, cat.modes)))
  }

  lemma PlainName(name: string)
    requires |name| == 1
    ensures GoesBy(name, Absent, name)
  {}

  lemma SkippedObserves(mode: string, transport: string, s: Seen)
    ensures Observes(mode, transport, SKIPPED, s) <==> s == Seen(Identity(mode, transport, "supplemental", "", "n"), Skip)
  {
    PlainName("n");
    assert "PASS"[0] == 'P' && "FAIL"[0] == 'F' && "SKIP"[0] == 'S';
  }

  lemma PassedObserves(mode: string, scenario: string, s: Seen)
    ensures Observes(mode, HTTP, Passed(scenario), s) <==> s == Seen(Identity(mode, HTTP, "official", scenario, "n"), Pass)
  {
    PlainName("n");
    assert "PASS"[0] == 'P' && "FAIL"[0] == 'F' && "SKIP"[0] == 'S';
  }

  lemma StdioRight(mode: string)
    ensures ChecksRight(StdioCase(mode), mode, STDIO)
  {
    SkippedObserves(mode, STDIO, Seen(Identity(mode, STDIO, "supplemental", "", "n"), Skip));
  }

  lemma HttpRight(cat: Catalog, mode: string)
    ensures ChecksRight(HttpCase(cat, mode), mode, HTTP) && ScenariosRight(cat, HttpCase(cat, mode), mode)
  {
    var expected := Expected(cat, mode);
    var checks := [SKIPPED] + PassedAll(expected);
    forall check | check in checks
      ensures exists s :: Observes(mode, HTTP, check, s)
    {
      if check == SKIPPED {
        SkippedObserves(mode, HTTP, Seen(Identity(mode, HTTP, "supplemental", "", "n"), Skip));
      } else {
        var i :| 0 <= i < |expected| && check == Passed(expected[i]);
        PassedObserves(mode, expected[i], Seen(Identity(mode, HTTP, "official", expected[i], "n"), Pass));
      }
    }
    forall scenario
      ensures scenario in expected <==> Reports(HttpCase(cat, mode), mode, scenario)
    {
      HttpReports(cat, mode, scenario);
    }
  }

  lemma PassedScenarioIsReported(cat: Catalog, mode: string, i: nat)
    requires i < |Expected(cat, mode)|
    ensures Reports(HttpCase(cat, mode), mode, Expected(cat, mode)[i])
  {
    var scenario, checks := Expected(cat, mode)[i], [SKIPPED] + PassedAll(Expected(cat, mode));
    var s := Seen(Identity(mode, HTTP, "official", scenario, "n"), Pass);
    PassedObserves(mode, scenario, s);
    assert checks[i + 1] == Passed(scenario);
    assert ObservedIn(HttpCase(cat, mode), mode, HTTP, s);
    assert "official"[0] == 'o' && "supplemental"[0] == 's';
  }

  lemma ReportedScenarioIsExpected(cat: Catalog, mode: string, s: Seen)
    requires ObservedIn(HttpCase(cat, mode), mode, HTTP, s) && s.id.source != "supplemental"
    ensures s.id.scenario in Expected(cat, mode)
  {
    var expected := Expected(cat, mode);
    var checks := [SKIPPED] + PassedAll(expected);
    var check :| check in checks && Observes(mode, HTTP, check, s);
    SkippedObserves(mode, HTTP, s);
    var i :| 0 <= i < |expected| && check == Passed(expected[i]);
    PassedObserves(mode, expected[i], s);
  }

  lemma HttpReports(cat: Catalog, mode: string, scenario: string)
    ensures scenario in Expected(cat, mode) <==> Reports(HttpCase(cat, mode), mode, scenario)
  {
    if scenario in Expected(cat, mode) {
      var i :| 0 <= i < |Expected(cat, mode)| && Expected(cat, mode)[i] == scenario;
      PassedScenarioIsReported(cat, mode, i);
    }
    if s :| ObservedIn(HttpCase(cat, mode), mode, HTTP, s) && s.id.source != "supplemental" && s.id.scenario == scenario {
      ReportedScenarioIsExpected(cat, mode, s);
    }
  }

  lemma SkippingCasesRight(cat: Catalog)
    requires Distinct(cat.modes)
    ensures CasesRight(cat, StdioCases(cat.modes) + HttpCases(cat, cat.modes))
  {
    var n, cases := |cat.modes|, StdioCases(cat.modes) + HttpCases(cat, cat.modes);
    assert STDIO[0] == 's' && HTTP[0] == 'o';
    forall i, j, mode, transport | 0 <= i < j < |cases| && mode in cat.modes
      ensures !(CaseAt(cases[i], mode, transport) && CaseAt(cases[j], mode, transport))
    {
      assert cases[i].mode == Text(cat.modes[if i < n then i else i - n]);
      assert cases[j].mode == Text(cat.modes[if j < n then j else j - n]);
      assert cases[i].transport == Text(if i < n then STDIO else HTTP);
      assert cases[j].transport == Text(if j < n then STDIO else HTTP);
    }
  }

  lemma SkippingPlaceRight(cat: Catalog, k: nat)
    requires Distinct(cat.modes) && k < |cat.modes|
    ensures var cases := StdioCases(cat.modes) + HttpCases(cat, cat.modes);
            && FirstCase(cases, cat.modes[k], STDIO, k)
            && PlaceRight(cat, cases, cat.modes[k], STDIO) && PlaceRight(cat, cases, cat.modes[k], HTTP)
  {
    var n, mode, cases := |cat.modes|, cat.modes[k], StdioCases(cat.modes) + HttpCases(cat, cat.modes);
    assert STDIO[0] == 's' && HTTP[0] == 'o';
    SkippingCasesRight(cat);
    assert cases[k] == StdioCase(mode);
    assert cases[n + k] == HttpCase(cat, mode);
    StdioRight(mode);
    HttpRight(cat, mode);
    assert FirstCase(cases, mode, STDIO, k) && FirstCase(cases, mode, HTTP, n + k);
  }

  lemma SkippingHeader(cat: Catalog)
    ensures var r := SkippingReport(cat);
            HeaderRight(r) && forall mode :: mode in cat.modes ==> CatalogRight(cat, Selected(r), mode)
  {}

  lemma SkippingReportRight(cat: Catalog)
    requires Distinct(cat.modes)
    ensures FullReportRight(cat, SkippingReport(cat))
  {
    var cases := StdioCases(cat.modes) + HttpCases(cat, cat.modes);
    SkippingHeader(cat);
    SkippingCasesRight(cat);
    forall mode | mode in cat.modes
      ensures PlaceRight(cat, cases, mode, STDIO) && PlaceRight(cat, cases, mode, HTTP)
    {
      var k :| 0 <= k < |cat.modes| && cat.modes[k] == mode;
      SkippingPlaceRight(cat, k);
    }
  }

  lemma CheckNeverFails(cat: Catalog, i: nat, check: Check, s: Seen)
    requires i < 2 * |cat.modes|
    requires var case_ := (StdioCases(cat.modes) + HttpCases(cat, cat.modes))[i];
             && check in case_.checks.value && Observes(s.id.mode, s.id.transport, check, s)
             && CaseAt(case_, s.id.mode, s.id.transport)
    ensures !s.status.Fail? && (s.id.transport == STDIO ==> s.status == Skip)
  {
    assert "PASS"[0] == 'P' && "FAIL"[0] == 'F' && "SKIP"[0] == 'S';
    assert STDIO[0] == 's' && HTTP[0] == 'o';
    if i >= |cat.modes| {
      assert (StdioCases(cat.modes) + HttpCases(cat, cat.modes))[i] == HttpCase(cat, cat.modes[i - |cat.modes|]);
    }
  }

  lemma SkippingReportNeverFails(cat: Catalog, s: Seen)
    requires s in SeenIn(cat, SkippingReport(cat))
    ensures !s.status.Fail? && (s.id.transport == STDIO ==> s.status == Skip)
  {
    var cases := StdioCases(cat.modes) + HttpCases(cat, cat.modes);
    FullReportSays(cat, SkippingReport(cat), s);
    var i :| FirstCase(cases, s.id.mode, s.id.transport, i) && ObservedIn(cases[i], s.id.mode, s.id.transport, s);
    var check :| check in cases[i].checks.value && Observes(s.id.mode, s.id.transport, check, s);
    CheckNeverFails(cat, i, check, s);
  }

  /**
   Under every catalog of distinct modes there is a usable report, accepted by compaction and
   passing against itself, whose required case rests on skipped checks alone: it fails against its
   own compact form.
   */
  lemma CompactionCanLoseVerdicts(cat: Catalog, mode: string)
    requires Distinct(cat.modes) && mode in cat.modes
    ensures var r := SkippingReport(cat);
            && Compact(cat, r).Ok? && Gate(cat, r, r).Success()
            && !CaseCovered(SeenIn(cat, r), mode, STDIO)
            && !Gate(cat, r, Compact(cat, r).value).Success()
  {
    var r := SkippingReport(cat);
    SkippingReportRight(cat);
    FullReportUsableIff(cat, r);
    forall s | s in SeenIn(cat, r)
      ensures !s.status.Fail? && (s.id.transport == STDIO ==> s.status == Skip)
    {
      SkippingReportNeverFails(cat, s);
    }
    CompactionIssuesNone(cat, r);
    GateIsReflexiveIff(cat, r);
    CompactedIsRead(cat, r);
    SuccessIff(cat, r, Compact(cat, r).value);
  }
}
