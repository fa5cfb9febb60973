/**
 Reading a compliance report: which checks it observed with which outcome, and every reason it is
 not a usable report.  A report is either full (transport cases with checks) or a compact
 baseline (two lists of check identities).
 */
module ComplianceReports {
  import opened Lists
  import opened Documents
  import opened Unicode

  datatype CheckStatus = Pass | Fail | Skip

  datatype Identity = Identity(mode: string, transport: string, source: string, scenario: string, checkId: string)

  /** One check with one outcome.  A check may be seen with several outcomes. */
  datatype Seen = Seen(id: Identity, status: CheckStatus)

  datatype Check =
    | NotACheck
    | Check(source: Field, scenario: Field, name: Field, checkId: Field, status: Field, success: Option<bool>)

  datatype Case = NotACase | Case(mode: Field, transport: Field, checks: Option<seq<Check>>)

  datatype Record =
    | NotARecord
    | Record(mode: Field, transport: Field, source: Field, scenario: Field, checkId: Field)

  datatype CompactChecks = CompactChecks(passing: Option<seq<Record>>, failing: Option<seq<Record>>)

  datatype Official = Official(repository: Field, gitRef: Field, authenticationIncluded: bool,
                               scenarios: Option<map<string, seq<string>>>)

  datatype Report = Report(schemaVersion: int, versionCheckPassed: bool, modernEnabled: bool,
                           automaticAuth: Option<bool>, official: Option<Official>, baselineKind: Option<string>,
                           requiredModes: seq<string>, transports: Option<seq<string>>,
                           checks: Option<CompactChecks>, cases: Option<seq<Case>>)

  /** The required protocol versions, the shipping one among them, and the scenarios pinned for each. */
  datatype Catalog = Catalog(modes: seq<string>, shipping: string, scenarios: map<string, seq<string>>)

  const SCHEMA_VERSION := 4
  const COMPACT_KIND := "mcp-conformance-regression-baseline-v1"
  const REPOSITORY := "modelcontextprotocol/conformance"
  const GIT_REF := "49103de6ed70804e940637bf3e9e29e4a3f54e64"
  const STDIO := "stdio"
  const HTTP := "official-http"

  datatype Issue =
    | WrongSchema | NoVersionCheck | ModernDisabled | NoOfficial | WrongRepository | WrongRevision
    | NoAuthScenarios | NoCatalog | UnsupportedFormat | WrongModes | WrongTransports | NoIdentities
    | NoBucket(status: CheckStatus) | MalformedRecord(status: CheckStatus) | DuplicateRecord(status: CheckStatus)
    | IncompleteCatalog(mode: string) | MissingCase(mode: string, transport: string)
    | MissingScenarios(mode: string, scenarios: set<string>) | UnexpectedScenarios(mode: string, scenarios: set<string>)
    | NoCases | MalformedCase | MalformedRequiredCase | DuplicateCase(mode: string, transport: string)
    | NoChecks(mode: string, transport: string) | MalformedCheck(mode: string, transport: string)

  // ----- Check identities -----

  predicate KnownSource(source: Field) {
    source == Text("official") || source == Text("harness") || source == Text("supplemental")
  }

  predicate IsDecimal(s: string) {
    s != [] && forall i :: 0 <= i < |s| ==> IsDecimalDigit(s[i])
  }

  function LastHash(s: string): (i: int)
    ensures -1 <= i < |s|
    ensures i >= 0 ==> s[i] == '#'
    ensures forall k :: i < k < |s| ==> s[k] != '#'
  {
    if s == [] then -1
    else if s[|s| - 1] == '#' then |s| - 1
    else LastHash(s[..|s| - 1])
  }

  /** A name without the trailing arrival number of a repeated observation. */
  function StableName(name: string): (stable: string)
    ensures name != [] ==> stable != []
    ensures stable <= name
  {
    var i := LastHash(name);
    if i > 0 && IsDecimal(name[i + 1..]) then name[..i] else name
  }

  /** The name is the stem followed by an arrival number. */
  ghost predicate NumberedAs(name: string, stem: string) {
    stem != [] && |stem| < |name| && name[..|stem|] == stem && name[|stem|] == '#' && IsDecimal(name[|stem| + 1..])
  }

  lemma NumberAfterLastHash(name: string, stem: string)
    requires NumberedAs(name, stem)
    ensures LastHash(name) == |stem|
  {
    var number := name[|stem| + 1..];
    forall k | |stem| < k < |name|
      ensures name[k] != '#'
    {
      assert name[k] == number[k - |stem| - 1];
    }
  }

  lemma NumberIsDropped(name: string, stem: string)
    requires NumberedAs(name, stem)
    ensures StableName(name) == stem
  {
    NumberAfterLastHash(name, stem);
  }

  lemma OnlyANumberIsDropped(name: string)
    requires StableName(name) != name
    ensures NumberedAs(name, StableName(name))
  {}

  /** Exactly the arrival number of a repeated observation is dropped; other names are kept whole. */
  lemma StableNameIff(name: string, stem: string)
    ensures StableName(name) == stem <==>
            NumberedAs(name, stem) || (stem == name && forall s :: !NumberedAs(name, s))
  {
    forall s | NumberedAs(name, s)
      ensures StableName(name) == s != name
    {
      NumberIsDropped(name, s);
    }
    if StableName(name) != name {
      OnlyANumberIsDropped(name);
    }
  }

  function CheckIdentity(mode: string, transport: string, check: Check): (id: Option<Identity>)
    requires check.Check?
    ensures id.Some? ==> id.value.mode == mode && id.value.transport == transport
    ensures id.Some? ==> KnownSource(Text(id.value.source)) && id.value.checkId != ""
  {
    if !KnownSource(check.source) then None
    else if !check.name.Text? || check.name.text == "" then None
    else if check.scenario.NotText? || check.scenario == Text("") then None
    else if check.checkId.NotText? || check.checkId == Text("") then None
    else Some(Identity(mode, transport, check.source.text,
                       if check.scenario.Text? then check.scenario.text else "",
                       if check.checkId.Text? then check.checkId.text else StableName(check.name.text)))
  }

  function ReadStatus(status: Field): Option<CheckStatus> {
    if status == Text("PASS") then Some(Pass)
    else if status == Text("FAIL") then Some(Fail)
    else if status == Text("SKIP") then Some(Skip)
    else None
  }

  function ReadCheck(mode: string, transport: string, check: Check): (seen: Option<Seen>)
    ensures seen.Some? ==> seen.value.id.mode == mode && seen.value.id.transport == transport
    ensures seen.Some? ==> KnownSource(Text(seen.value.id.source)) && seen.value.id.checkId != ""
  {
    if check.NotACheck? then None
    else
      var id := CheckIdentity(mode, transport, check);
      var status := ReadStatus(check.status);
      if id.None? || status.None? || check.success.None? || check.success.value != (status.value != Fail) then None
      else Some(Seen(id.value, status.value))
  }

  // ----- Grouping outcomes by check -----

  ghost function IdsOf(seen: set<Seen>): set<Identity> {
    set s | s in seen :: s.id
  }

  ghost function StatusesOf(seen: set<Seen>, id: Identity): set<CheckStatus> {
    set s | s in seen && s.id == id :: s.status
  }

  ghost function Grouped(seen: set<Seen>): map<Identity, set<CheckStatus>> {
    map id | id in IdsOf(seen) :: StatusesOf(seen, id)
  }

  function AddStatus(ids: map<Identity, set<CheckStatus>>, s: Seen): map<Identity, set<CheckStatus>> {
    ids[s.id := (if s.id in ids then ids[s.id] else {}) + {s.status}]
  }

  lemma GroupedMembers(seen: set<Seen>, id: Identity, status: CheckStatus)
    ensures Seen(id, status) in seen <==> id in Grouped(seen) && status in Grouped(seen)[id]
  {
    if Seen(id, status) in seen {
      assert Seen(id, status).id in IdsOf(seen);
      assert Seen(id, status).status in StatusesOf(seen, id);
    }
  }

  lemma GroupedAdd(seen: set<Seen>, s: Seen)
    ensures Grouped(seen + {s}) == AddStatus(Grouped(seen), s)
  {
    var all := seen + {s};
    assert IdsOf(all) == IdsOf(seen) + {s.id};
    forall id | id in IdsOf(all)
      ensures StatusesOf(all, id) == AddStatus(Grouped(seen), s)[id]
    {
      if id == s.id {
        assert StatusesOf(all, id) == StatusesOf(seen, id) + {s.status};
        assert id !in IdsOf(seen) ==> StatusesOf(seen, id) == {};
      } else {
        assert StatusesOf(all, id) == StatusesOf(seen, id);
      }
    }
  }

  // ----- What every report must say about itself -----

  function HeaderIssues(r: Report): seq<Issue> {
    (if r.schemaVersion != SCHEMA_VERSION then [WrongSchema] else [])
    + (if !r.versionCheckPassed then [NoVersionCheck] else [])
    + (if !r.modernEnabled then [ModernDisabled] else [])
    + OfficialIssues(r.official)
  }

  function OfficialIssues(official: Option<Official>): seq<Issue> {
    if official.None? then [NoOfficial]
    else
      (if official.value.repository != Text(REPOSITORY) then [WrongRepository] else [])
      + (if official.value.gitRef != Text(GIT_REF) then [WrongRevision] else [])
      + (if !official.value.authenticationIncluded then [NoAuthScenarios] else [])
      + (if official.value.scenarios.None? then [NoCatalog] else [])
  }

  function Selected(r: Report): map<string, seq<string>> {
    if r.official.Some? && r.official.value.scenarios.Some? then r.official.value.scenarios.value else map[]
  }

  function Expected(cat: Catalog, mode: string): seq<string> {
    if mode in cat.scenarios then cat.scenarios[mode] else []
  }

  function CatalogIssues(cat: Catalog, selected: map<string, seq<string>>, mode: string): seq<Issue> {
    if mode !in selected || selected[mode] != Expected(cat, mode) then [IncompleteCatalog(mode)] else []
  }

  /** The scenarios observed over HTTP by the official suite or its harness. */
  ghost function Scenarios(seen: set<Seen>, mode: string): set<string> {
    set s | s in seen && OverHttp(s.id, mode) :: s.id.scenario
  }

  predicate OverHttp(id: Identity, mode: string) {
    id.mode == mode && id.transport == HTTP && (id.source == "official" || id.source == "harness")
  }

  function ScenarioIssues(cat: Catalog, mode: string, observed: set<string>): seq<Issue> {
    var expected := set x | x in Expected(cat, mode);
    (if expected - observed != {} then [MissingScenarios(mode, expected - observed)] else [])
    + (if observed - expected != {} then [UnexpectedScenarios(mode, observed - expected)] else [])
  }

  // ----- Compact baselines -----

  function ReadRecord(cat: Catalog, record: Record): (id: Option<Identity>)
    ensures id.Some? ==> WellFormedId(cat, id.value)
  {
    if || record.NotARecord?
       || !record.mode.Text? || record.mode.text !in cat.modes
       || !(record.transport == Text(STDIO) || record.transport == Text(HTTP))
       || !KnownSource(record.source)
       || !record.scenario.Text? || !record.checkId.Text? || record.checkId.text == ""
    then None
    else Some(Identity(record.mode.text, record.transport.text, record.source.text,
                       record.scenario.text, record.checkId.text))
  }

  predicate WellFormedId(cat: Catalog, id: Identity) {
    && id.mode in cat.modes && (id.transport == STDIO || id.transport == HTTP)
    && KnownSource(Text(id.source)) && id.checkId != ""
  }

  ghost function RecordIds(cat: Catalog, records: seq<Record>): set<Identity> {
    set record | record in records && ReadRecord(cat, record).Some? :: ReadRecord(cat, record).value
  }

  ghost function BucketIssues(cat: Catalog, status: CheckStatus, records: seq<Record>): seq<Issue> {
    if records == [] then []
    else
      var init, id := records[..|records| - 1], ReadRecord(cat, records[|records| - 1]);
      BucketIssues(cat, status, init) +
      if id.None? then [MalformedRecord(status)]
      else if id.value in RecordIds(cat, init) then [DuplicateRecord(status)]
      else []
  }

  ghost function BucketSeen(cat: Catalog, status: CheckStatus, records: Option<seq<Record>>): set<Seen> {
    if records.None? then {} else set id | id in RecordIds(cat, records.value) :: Seen(id, status)
  }

  ghost function CompactSeen(cat: Catalog, checks: CompactChecks): set<Seen> {
    BucketSeen(cat, Pass, checks.passing) + BucketSeen(cat, Fail, checks.failing)
  }

  ghost function OptionalBucketIssues(cat: Catalog, status: CheckStatus, records: Option<seq<Record>>): seq<Issue> {
    if records.None? then [NoBucket(status)] else BucketIssues(cat, status, records.value)
  }

  predicate ListsBothTransports(transports: Option<seq<string>>) {
    transports == Some([STDIO, HTTP]) || transports == Some([HTTP, STDIO])
  }

  function CompactHeaderIssues(cat: Catalog, r: Report): seq<Issue> {
    (if r.requiredModes != cat.modes then [WrongModes] else [])
    + (if !ListsBothTransports(r.transports) then [WrongTransports] else [])
  }

  predicate At(id: Identity, mode: string, transport: string) {
    id.mode == mode && id.transport == transport
  }

  ghost function CaseMissing(seen: set<Seen>, mode: string, transport: string): seq<Issue> {
    if exists s :: s in seen && At(s.id, mode, transport) then [] else [MissingCase(mode, transport)]
  }

  ghost function CompactModeIssues(cat: Catalog, selected: map<string, seq<string>>, seen: set<Seen>, mode: string)
    : seq<Issue>
  {
    CatalogIssues(cat, selected, mode)
    + CaseMissing(seen, mode, STDIO) + CaseMissing(seen, mode, HTTP)
    + ScenarioIssues(cat, mode, Scenarios(seen, mode))
  }

  ghost function CompactModesIssues(cat: Catalog, selected: map<string, seq<string>>, seen: set<Seen>, modes: seq<string>)
    : seq<Issue>
  {
    Gather(mode => CompactModeIssues(cat, selected, seen, mode), modes)
  }

  // ----- Full reports -----

  datatype CaseKind = BadCase | OtherMode | BadRequiredCase | RequiredCase(mode: string, transport: string)

  function Classify(cat: Catalog, case_: Case): CaseKind {
    if case_.NotACase? then BadCase
    else if !case_.mode.Text? || case_.mode.text !in cat.modes then OtherMode
    else if !case_.transport.Text? then BadRequiredCase
    else RequiredCase(case_.mode.text, case_.transport.text)
  }

  type CaseKey = (string, string)

  /** The first case reported for each required mode and transport. */
  function CasesOf(cat: Catalog, cases: seq<Case>): map<CaseKey, Option<seq<Check>>> {
    if cases == [] then map[]
    else
      var rest, last := CasesOf(cat, cases[..|cases| - 1]), cases[|cases| - 1];
      match Classify(cat, last)
      case RequiredCase(mode, transport) => if (mode, transport) in rest then rest else rest[(mode, transport) := last.checks]
      case _ => rest
  }

  function CaseIssues(cat: Catalog, cases: seq<Case>): seq<Issue> {
    if cases == [] then []
    else
      var init, last := cases[..|cases| - 1], cases[|cases| - 1];
      CaseIssues(cat, init) +
      match Classify(cat, last)
      case BadCase => [MalformedCase]
      case OtherMode => []
      case BadRequiredCase => [MalformedRequiredCase]
      case RequiredCase(mode, transport) =>
        if (mode, transport) in CasesOf(cat, init) then [DuplicateCase(mode, transport)] else []
  }

  ghost function CaseSeen(mode: string, transport: string, checks: seq<Check>): (seen: set<Seen>)
    ensures forall s | s in seen :: At(s.id, mode, transport) && KnownSource(Text(s.id.source)) && s.id.checkId != ""
  {
    set check | check in checks && ReadCheck(mode, transport, check).Some? :: ReadCheck(mode, transport, check).value
  }

  ghost function CheckIssues(mode: string, transport: string, checks: seq<Check>): seq<Issue> {
    Gather(check => if ReadCheck(mode, transport, check).None? then [MalformedCheck(mode, transport)] else [], checks)
  }

  ghost function TransportSeen(cases: map<CaseKey, Option<seq<Check>>>, mode: string, transport: string): (seen: set<Seen>)
    ensures forall s | s in seen :: At(s.id, mode, transport) && KnownSource(Text(s.id.source)) && s.id.checkId != ""
  {
    if (mode, transport) in cases && cases[(mode, transport)].Some?
    then CaseSeen(mode, transport, cases[(mode, transport)].value) else {}
  }

  ghost function TransportIssues(cat: Catalog, cases: map<CaseKey, Option<seq<Check>>>, mode: string, transport: string)
    : seq<Issue>
  {
    if (mode, transport) !in cases then [MissingCase(mode, transport)]
    else
      var checks := cases[(mode, transport)];
      if checks.None? || checks.value == [] then [NoChecks(mode, transport)]
      else CheckIssues(mode, transport, checks.value)
           + if transport == HTTP
             then ScenarioIssues(cat, mode, Scenarios(CaseSeen(mode, transport, checks.value), mode)) else []
  }

  ghost function ModeSeen(cases: map<CaseKey, Option<seq<Check>>>, mode: string): set<Seen> {
    TransportSeen(cases, mode, STDIO) + TransportSeen(cases, mode, HTTP)
  }

  ghost function FullModeIssues(cat: Catalog, selected: map<string, seq<string>>,
                                cases: map<CaseKey, Option<seq<Check>>>, mode: string): seq<Issue>
  {
    CatalogIssues(cat, selected, mode)
    + TransportIssues(cat, cases, mode, STDIO) + TransportIssues(cat, cases, mode, HTTP)
  }

  ghost function FullSeen(cases: map<CaseKey, Option<seq<Check>>>, modes: seq<string>): (seen: set<Seen>)
    ensures forall s :: s in seen <==> s.id.mode in modes && s in ModeSeen(cases, s.id.mode)
  {
    set mode, s | mode in modes && s in ModeSeen(cases, mode) :: s
  }

  ghost function FullModesIssues(cat: Catalog, selected: map<string, seq<string>>,
                                 cases: map<CaseKey, Option<seq<Check>>>, modes: seq<string>): seq<Issue>
  {
    Gather(mode => FullModeIssues(cat, selected, cases, mode), modes)
  }

  function ReportedCases(cat: Catalog, r: Report): map<CaseKey, Option<seq<Check>>> {
    CasesOf(cat, if r.cases.Some? then r.cases.value else [])
  }

  // ----- A whole report -----

  /** The checks a report is taken to have observed. */
  ghost function SeenIn(cat: Catalog, r: Report): set<Seen> {
    if r.baselineKind.None? then FullSeen(ReportedCases(cat, r), cat.modes)
    else if r.baselineKind.value != COMPACT_KIND || r.checks.None? then {}
    else CompactSeen(cat, r.checks.value)
  }

  /** Everything wrong with a report, in the order it is found. */
  ghost function IssuesIn(cat: Catalog, r: Report): seq<Issue> {
    HeaderIssues(r) +
    if r.baselineKind.None? then
      (if r.cases.None? then [NoCases] else CaseIssues(cat, r.cases.value))
      + FullModesIssues(cat, Selected(r), ReportedCases(cat, r), cat.modes)
    else if r.baselineKind.value != COMPACT_KIND then [UnsupportedFormat]
    else
      CompactHeaderIssues(cat, r) +
      if r.checks.None? then [NoIdentities]
      else OptionalBucketIssues(cat, Pass, r.checks.value.passing)
           + OptionalBucketIssues(cat, Fail, r.checks.value.failing)
           + CompactModesIssues(cat, Selected(r), SeenIn(cat, r), cat.modes)
  }
}
