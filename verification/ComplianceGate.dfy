/**
 The no-new-regressions gate between two compliance reports, and the compaction of a report into
 a baseline.  The gate is a preorder on usable reports; compaction keeps its verdicts exactly when
 no required case or scenario rests on skipped checks alone.
 */
module ComplianceGate {
  import opened Lists
  import opened Documents
  import opened Ordering
  import opened ComplianceReports

  // ----- Sorted lists of checks -----

  function IdentityKey(id: Identity): seq<string> {
    [id.mode, id.transport, id.source, id.scenario, id.checkId]
  }

  lemma IdentityKeyInjective()
    ensures Injective(IdentityKey)
  {
    forall x: Identity, y: Identity | IdentityKey(x) == IdentityKey(y)
      ensures x == y
    {
      assert forall i :: 0 <= i < 5 ==> IdentityKey(x)[i] == IdentityKey(y)[i];
    }
  }

  ghost function Sorted(ids: set<Identity>): (r: seq<Identity>)
    ensures Ascending(IdentityKey, r) && Elements(r) == ids
  {
    IdentityKeyInjective();
    Listing(IdentityKey, ids)
  }

  lemma SortedEmpty(ids: set<Identity>)
    ensures Sorted(ids) == [] <==> ids == {}
  {
    if Sorted(ids) != [] {
      assert Sorted(ids)[0] in Elements(Sorted(ids));
    }
  }

  lemma KeepIsSorted(s: seq<Identity>, kept: set<Identity>)
    requires Ascending(IdentityKey, s) && kept <= Elements(s)
    ensures Keep(s, kept) == Sorted(kept)
  {
    IdentityKeyInjective();
    KeepIsListing(IdentityKey, s, kept);
  }

  // ----- The gate -----

  ghost function With(seen: set<Seen>, status: CheckStatus): (ids: set<Identity>)
    ensures forall id :: id in ids <==> Seen(id, status) in seen
  {
    var ids := set s | s in seen && s.status == status :: s.id;
    assert forall id :: Seen(id, status) in seen ==> Seen(id, status).id in ids;
    ids
  }

  ghost function Failing(seen: set<Seen>): set<Identity> { With(seen, Fail) }

  ghost function Passing(seen: set<Seen>): set<Identity> { With(seen, Pass) }

  ghost function InMode(ids: set<Identity>, mode: string): set<Identity> {
    set id | id in ids && id.mode == mode
  }

  datatype GateIssue =
    | InBaseline(issue: Issue)
    | InCandidate(issue: Issue)
    | NoAuthPolicy
    | DifferentAuthPolicies
    | ShippingFails(checkId: string)
    | BaselineShippingFails(checkId: string)

  datatype GateResult = GateResult(issues: seq<GateIssue>, newFailures: seq<Identity>, missingChecks: seq<Identity>,
                                   knownFailures: seq<Identity>, fixedChecks: seq<Identity>)
  {
    predicate Success() {
      issues == [] && newFailures == [] && missingChecks == []
    }
  }

  function AuthIssues(baseline: Option<bool>, candidate: Option<bool>): seq<GateIssue> {
    if baseline.None? || candidate.None? then [NoAuthPolicy]
    else if baseline.value != candidate.value then [DifferentAuthPolicies] else []
  }

  function BaselineIssues(issues: seq<Issue>): (r: seq<GateIssue>)
    ensures |r| == |issues|
  {
    seq(|issues|, i requires 0 <= i < |issues| => InBaseline(issues[i]))
  }

  function CandidateIssues(issues: seq<Issue>): (r: seq<GateIssue>)
    ensures |r| == |issues|
  {
    seq(|issues|, i requires 0 <= i < |issues| => InCandidate(issues[i]))
  }

  function ShippingIssues(ids: seq<Identity>): (r: seq<GateIssue>)
    ensures |r| == |ids|
  {
    seq(|ids|, i requires 0 <= i < |ids| => ShippingFails(ids[i].checkId))
  }

  function BaselineShippingIssues(ids: seq<Identity>): (r: seq<GateIssue>)
    ensures |r| == |ids|
  {
    seq(|ids|, i requires 0 <= i < |ids| => BaselineShippingFails(ids[i].checkId))
  }

  /** The part of the gate's configuration errors that the two reports share. */
  ghost function GateIssues(cat: Catalog, candidate: Report, baseline: Report): seq<GateIssue> {
    BaselineIssues(IssuesIn(cat, baseline)) + CandidateIssues(IssuesIn(cat, candidate))
    + AuthIssues(baseline.automaticAuth, candidate.automaticAuth)
    + ShippingIssues(Sorted(InMode(Failing(SeenIn(cat, candidate)), cat.shipping)))
    + BaselineShippingIssues(Sorted(InMode(Failing(SeenIn(cat, baseline)), cat.shipping)))
  }

  /** The gate on what the two reports observed. */
  ghost function Gate(cat: Catalog, candidate: Report, baseline: Report): GateResult {
    var b, c := SeenIn(cat, baseline), SeenIn(cat, candidate);
    GateResult(
      GateIssues(cat, candidate, baseline),
      Sorted(Failing(c) - Failing(b)),
      Sorted((Passing(b) - Passing(c)) + (Failing(b) - Failing(c) - Passing(c))),
      Sorted(Failing(c) * Failing(b)),
      Sorted((Failing(b) - Failing(c)) * Passing(c)))
  }

  /** Each list of the result holds exactly the checks it is named after, in order and without repetition. */
  lemma ListsSay(cat: Catalog, candidate: Report, baseline: Report, id: Identity)
    ensures var g, b, c := Gate(cat, candidate, baseline), SeenIn(cat, baseline), SeenIn(cat, candidate);
            && (id in g.newFailures <==> Seen(id, Fail) in c && Seen(id, Fail) !in b)
            && (id in g.knownFailures <==> Seen(id, Fail) in c && Seen(id, Fail) in b)
            && (id in g.missingChecks <==>
                || (Seen(id, Pass) in b && Seen(id, Pass) !in c)
                || (Seen(id, Fail) in b && Seen(id, Fail) !in c && Seen(id, Pass) !in c))
            && (id in g.fixedChecks <==> Seen(id, Fail) in b && Seen(id, Fail) !in c && Seen(id, Pass) in c)
    ensures var g := Gate(cat, candidate, baseline);
            && Ascending(IdentityKey, g.newFailures) && Ascending(IdentityKey, g.knownFailures)
            && Ascending(IdentityKey, g.missingChecks) && Ascending(IdentityKey, g.fixedChecks)
  {
    var b, c := SeenIn(cat, baseline), SeenIn(cat, candidate);
    InSorted(Failing(c) - Failing(b), id);
    InSorted(Failing(c) * Failing(b), id);
    InSorted((Passing(b) - Passing(c)) + (Failing(b) - Failing(c) - Passing(c)), id);
    InSorted((Failing(b) - Failing(c)) * Passing(c), id);
  }

  lemma InSorted(ids: set<Identity>, id: Identity)
    ensures id in Sorted(ids) <==> id in ids
  {
    assert id in Elements(Sorted(ids)) <==> id in ids;
  }

  /** What passing means, check by check. */
  ghost predicate NoRegression(cat: Catalog, candidate: Report, baseline: Report) {
    var b, c := SeenIn(cat, baseline), SeenIn(cat, candidate);
    && IssuesIn(cat, baseline) == [] && IssuesIn(cat, candidate) == []
    && baseline.automaticAuth.Some? && baseline.automaticAuth == candidate.automaticAuth
    && (forall id :: Seen(id, Fail) in c ==> Seen(id, Fail) in b && id.mode != cat.shipping)
    && (forall id :: Seen(id, Pass) in b ==> Seen(id, Pass) in c)
    && (forall id :: Seen(id, Fail) in b ==> (Seen(id, Fail) in c || Seen(id, Pass) in c) && id.mode != cat.shipping)
  }

  lemma NoneInMode(seen: set<Seen>, mode: string)
    ensures Sorted(InMode(Failing(seen), mode)) == [] <==> forall id :: Seen(id, Fail) in seen ==> id.mode != mode
  {
    var ids := InMode(Failing(seen), mode);
    assert forall id :: id in ids <==> Seen(id, Fail) in seen && id.mode == mode;
    SortedEmpty(ids);
  }

  lemma GateIssuesNone(cat: Catalog, candidate: Report, baseline: Report)
    ensures GateIssues(cat, candidate, baseline) == [] <==>
            && IssuesIn(cat, baseline) == [] && IssuesIn(cat, candidate) == []
            && baseline.automaticAuth.Some? && baseline.automaticAuth == candidate.automaticAuth
            && (forall id :: Seen(id, Fail) in SeenIn(cat, candidate) ==> id.mode != cat.shipping)
            && (forall id :: Seen(id, Fail) in SeenIn(cat, baseline) ==> id.mode != cat.shipping)
  {
    NoneInMode(SeenIn(cat, candidate), cat.shipping);
    NoneInMode(SeenIn(cat, baseline), cat.shipping);
    EmptyParts(BaselineIssues(IssuesIn(cat, baseline)), CandidateIssues(IssuesIn(cat, candidate)),
               AuthIssues(baseline.automaticAuth, candidate.automaticAuth),
               ShippingIssues(Sorted(InMode(Failing(SeenIn(cat, candidate)), cat.shipping))),
               BaselineShippingIssues(Sorted(InMode(Failing(SeenIn(cat, baseline)), cat.shipping))));
  }

  lemma EmptyParts<T>(a: seq<T>, b: seq<T>, c: seq<T>, d: seq<T>, e: seq<T>)
    ensures a + b + c + d + e == [] <==> |a| == 0 && |b| == 0 && |c| == 0 && |d| == 0 && |e| == 0
  {
    assert |a + b + c + d + e| == |a| + |b| + |c| + |d| + |e|;
  }

  lemma NewNone(b: set<Seen>, c: set<Seen>)
    ensures Failing(c) - Failing(b) == {} <==> forall id :: Seen(id, Fail) in c ==> Seen(id, Fail) in b
  {
    var added := Failing(c) - Failing(b);
    assert forall id :: id in added <==> Seen(id, Fail) in c && Seen(id, Fail) !in b;
  }

  lemma SuccessIff(cat: Catalog, candidate: Report, baseline: Report)
    ensures Gate(cat, candidate, baseline).Success() <==> NoRegression(cat, candidate, baseline)
  {
    var b, c := SeenIn(cat, baseline), SeenIn(cat, candidate);
    GateIssuesNone(cat, candidate, baseline);
    SortedEmpty(Failing(c) - Failing(b));
    SortedEmpty((Passing(b) - Passing(c)) + (Failing(b) - Failing(c) - Passing(c)));
    NewNone(b, c);
    MissingNone(b, c);
  }

  lemma MissingNone(b: set<Seen>, c: set<Seen>)
    ensures (Passing(b) - Passing(c)) + (Failing(b) - Failing(c) - Passing(c)) == {} <==>
            && (forall id :: Seen(id, Pass) in b ==> Seen(id, Pass) in c)
            && (forall id :: Seen(id, Fail) in b ==> Seen(id, Fail) in c || Seen(id, Pass) in c)
  {
    var missing := (Passing(b) - Passing(c)) + (Failing(b) - Failing(c) - Passing(c));
    assert forall id :: id in missing <==>
             || (Seen(id, Pass) in b && Seen(id, Pass) !in c)
             || (Seen(id, Fail) in b && Seen(id, Fail) !in c && Seen(id, Pass) !in c);
  }

  // ----- The gate is a preorder -----

  lemma GateIsTransitive(cat: Catalog, r0: Report, r1: Report, r2: Report)
    requires Gate(cat, r1, r0).Success() && Gate(cat, r2, r1).Success()
    ensures Gate(cat, r2, r0).Success()
  {
    SuccessIff(cat, r1, r0);
    SuccessIff(cat, r2, r1);
    SuccessIff(cat, r2, r0);
  }

  // ----- Compaction -----

  ghost function CompactionIssues(cat: Catalog, r: Report): seq<GateIssue> {
    BaselineIssues(IssuesIn(cat, r))
    + (if r.automaticAuth.None? then [NoAuthPolicy] else [])
    + (if InMode(Failing(SeenIn(cat, r)), cat.shipping) != {} then [BaselineShippingFails("")] else [])
  }

  function ToRecord(id: Identity): Record {
    Record(Text(id.mode), Text(id.transport), Text(id.source), Text(id.scenario), Text(id.checkId))
  }

  function ToRecords(ids: seq<Identity>): (records: seq<Record>)
    ensures |records| == |ids|
    ensures forall i :: 0 <= i < |ids| ==> records[i] == ToRecord(ids[i])
  {
    seq(|ids|, i requires 0 <= i < |ids| => ToRecord(ids[i]))
  }

  function PinnedScenarios(cat: Catalog, r: Report): map<string, seq<string>> {
    map mode | mode in cat.modes && mode in Selected(r) :: Selected(r)[mode]
  }

  function CompactReport(cat: Catalog, auth: bool, scenarios: map<string, seq<string>>,
                         passing: seq<Identity>, failing: seq<Identity>): Report
  {
    Report(SCHEMA_VERSION, true, true, Some(auth),
           Some(Official(Text(REPOSITORY), Text(GIT_REF), true, Some(scenarios))),
           Some(COMPACT_KIND), cat.modes, Some([STDIO, HTTP]),
           Some(CompactChecks(Some(ToRecords(passing)), Some(ToRecords(failing)))), None)
  }

  ghost function Compact(cat: Catalog, r: Report): Result<Report, seq<GateIssue>> {
    if CompactionIssues(cat, r) != [] then Err(CompactionIssues(cat, r))
    else
      var seen := SeenIn(cat, r);
      Ok(CompactReport(cat, r.automaticAuth.value, PinnedScenarios(cat, r), Sorted(Passing(seen)), Sorted(Failing(seen))))
  }

  /** A report passes against itself exactly when it can be compacted into a baseline. */
  lemma GateIsReflexiveIff(cat: Catalog, r: Report)
    ensures Gate(cat, r, r).Success() <==> Compact(cat, r).Ok?
  {
    SuccessIff(cat, r, r);
    var shipping := InMode(Failing(SeenIn(cat, r)), cat.shipping);
    assert shipping == {} <==> forall id :: Seen(id, Fail) in SeenIn(cat, r) ==> id.mode != cat.shipping by {
      assert forall id :: id in shipping <==> Seen(id, Fail) in SeenIn(cat, r) && id.mode == cat.shipping;
    }
  }

  // ----- What an accepted report looks like -----

  ghost predicate WellFormed(cat: Catalog, seen: set<Seen>) {
    forall s | s in seen :: WellFormedId(cat, s.id)
  }

  ghost predicate HasCase(seen: set<Seen>, mode: string, transport: string) {
    exists s :: s in seen && At(s.id, mode, transport)
  }

  /** Every required case was observed, and exactly the pinned scenarios. */
  ghost predicate Shape(cat: Catalog, seen: set<Seen>) {
    forall mode | mode in cat.modes ::
      && HasCase(seen, mode, STDIO) && HasCase(seen, mode, HTTP)
      && Scenarios(seen, mode) == set x | x in Expected(cat, mode)
  }

  lemma ScenarioIssuesNone(cat: Catalog, mode: string, observed: set<string>)
    ensures ScenarioIssues(cat, mode, observed) == [] <==> observed == set x | x in Expected(cat, mode)
  {}

  lemma CompactModesNone(cat: Catalog, selected: map<string, seq<string>>, seen: set<Seen>, modes: seq<string>)
    ensures CompactModesIssues(cat, selected, seen, modes) == [] <==>
            forall mode | mode in modes :: CompactModeIssues(cat, selected, seen, mode) == []
  {
    GatherNothing(mode => CompactModeIssues(cat, selected, seen, mode), modes);
  }

  lemma CompactModeNone(cat: Catalog, selected: map<string, seq<string>>, seen: set<Seen>, mode: string)
    ensures CompactModeIssues(cat, selected, seen, mode) == [] <==>
            && CatalogIssues(cat, selected, mode) == []
            && HasCase(seen, mode, STDIO) && HasCase(seen, mode, HTTP)
            && Scenarios(seen, mode) == set x | x in Expected(cat, mode)
  {
    ScenarioIssuesNone(cat, mode, Scenarios(seen, mode));
  }

  lemma FullModesNone(cat: Catalog, selected: map<string, seq<string>>,
                      cases: map<CaseKey, Option<seq<Check>>>, modes: seq<string>)
    requires FullModesIssues(cat, selected, cases, modes) == []
    ensures forall mode | mode in modes :: FullModeIssues(cat, selected, cases, mode) == []
  {
    GatherNothing(mode => FullModeIssues(cat, selected, cases, mode), modes);
  }

  lemma AllChecksRead(mode: string, transport: string, checks: seq<Check>)
    requires CheckIssues(mode, transport, checks) == []
    ensures forall check | check in checks :: ReadCheck(mode, transport, check).Some?
  {
    GatherNothing(check => if ReadCheck(mode, transport, check).None? then [MalformedCheck(mode, transport)] else [], checks);
  }

  lemma TransportObserved(cat: Catalog, cases: map<CaseKey, Option<seq<Check>>>, mode: string, transport: string)
    requires TransportIssues(cat, cases, mode, transport) == []
    ensures HasCase(TransportSeen(cases, mode, transport), mode, transport)
    ensures transport == HTTP ==> Scenarios(TransportSeen(cases, mode, transport), mode) == set x | x in Expected(cat, mode)
  {
    var checks := cases[(mode, transport)].value;
    AllChecksRead(mode, transport, checks);
    assert checks[0] in checks;
    var seen := TransportSeen(cases, mode, transport);
    assert ReadCheck(mode, transport, checks[0]).value in seen;
    if transport == HTTP {
      ScenarioIssuesNone(cat, mode, Scenarios(seen, mode));
    }
  }

  lemma HttpScenarios(cases: map<CaseKey, Option<seq<Check>>>, modes: seq<string>, mode: string)
    requires mode in modes
    ensures Scenarios(FullSeen(cases, modes), mode) == Scenarios(TransportSeen(cases, mode, HTTP), mode)
  {
    var seen, http := FullSeen(cases, modes), TransportSeen(cases, mode, HTTP);
    assert STDIO[0] != HTTP[0];
    assert forall s :: s in seen && OverHttp(s.id, mode) <==> s in http && OverHttp(s.id, mode);
  }

  lemma FullModeShape(cat: Catalog, selected: map<string, seq<string>>, cases: map<CaseKey, Option<seq<Check>>>, mode: string)
    requires mode in cat.modes && FullModeIssues(cat, selected, cases, mode) == []
    ensures var seen := FullSeen(cases, cat.modes);
            && HasCase(seen, mode, STDIO) && HasCase(seen, mode, HTTP)
            && Scenarios(seen, mode) == set x | x in Expected(cat, mode)
    ensures CatalogIssues(cat, selected, mode) == []
  {
    var seen := FullSeen(cases, cat.modes);
    TransportObserved(cat, cases, mode, STDIO);
    TransportObserved(cat, cases, mode, HTTP);
    var s :| s in TransportSeen(cases, mode, STDIO) && At(s.id, mode, STDIO);
    assert s in seen;
    var t :| t in TransportSeen(cases, mode, HTTP) && At(t.id, mode, HTTP);
    assert t in seen;
    HttpScenarios(cases, cat.modes, mode);
  }

  lemma FullWellFormed(cat: Catalog, cases: map<CaseKey, Option<seq<Check>>>)
    ensures WellFormed(cat, FullSeen(cases, cat.modes))
  {
    forall s | s in FullSeen(cases, cat.modes)
      ensures WellFormedId(cat, s.id)
    {
      assert s in TransportSeen(cases, s.id.mode, STDIO) || s in TransportSeen(cases, s.id.mode, HTTP);
    }
  }

  lemma FullShape(cat: Catalog, selected: map<string, seq<string>>, cases: map<CaseKey, Option<seq<Check>>>, seen: set<Seen>)
    requires FullModesIssues(cat, selected, cases, cat.modes) == []
    requires seen == FullSeen(cases, cat.modes)
    ensures Shape(cat, seen)
    ensures forall mode | mode in cat.modes :: CatalogIssues(cat, selected, mode) == []
  {
    FullModesNone(cat, selected, cases, cat.modes);
    forall mode | mode in cat.modes
      ensures HasCase(seen, mode, STDIO) && HasCase(seen, mode, HTTP)
      ensures Scenarios(seen, mode) == set x | x in Expected(cat, mode)
      ensures CatalogIssues(cat, selected, mode) == []
    {
      FullModeShape(cat, selected, cases, mode);
    }
  }

  lemma CompactShape(cat: Catalog, selected: map<string, seq<string>>, checks: CompactChecks)
    requires CompactModesIssues(cat, selected, CompactSeen(cat, checks), cat.modes) == []
    ensures Shape(cat, CompactSeen(cat, checks)) && WellFormed(cat, CompactSeen(cat, checks))
    ensures forall mode | mode in cat.modes :: CatalogIssues(cat, selected, mode) == []
  {
    var seen := CompactSeen(cat, checks);
    CompactModesNone(cat, selected, seen, cat.modes);
    forall mode | mode in cat.modes
      ensures HasCase(seen, mode, STDIO) && HasCase(seen, mode, HTTP)
      ensures Scenarios(seen, mode) == set x | x in Expected(cat, mode)
      ensures CatalogIssues(cat, selected, mode) == []
    {
      CompactModeNone(cat, selected, seen, mode);
    }
  }

  /** The parts of a report's issues that its checks decide are empty. */
  ghost predicate ChecksFine(cat: Catalog, r: Report) {
    if r.baselineKind.None? then FullModesIssues(cat, Selected(r), ReportedCases(cat, r), cat.modes) == []
    else && r.baselineKind.value == COMPACT_KIND && r.checks.Some?
         && CompactModesIssues(cat, Selected(r), CompactSeen(cat, r.checks.value), cat.modes) == []
  }

  lemma NoIssuesParts(cat: Catalog, r: Report)
    requires IssuesIn(cat, r) == []
    ensures ChecksFine(cat, r)
  {}

  lemma FineShape(cat: Catalog, r: Report)
    requires ChecksFine(cat, r)
    ensures Shape(cat, SeenIn(cat, r)) && WellFormed(cat, SeenIn(cat, r))
    ensures forall mode | mode in cat.modes :: CatalogIssues(cat, Selected(r), mode) == []
  {
    if r.baselineKind.None? {
      FullShape(cat, Selected(r), ReportedCases(cat, r), SeenIn(cat, r));
      FullWellFormed(cat, ReportedCases(cat, r));
    } else {
      CompactShape(cat, Selected(r), r.checks.value);
    }
  }

  /** A report without issues observed every required case and exactly the pinned scenarios. */
  lemma AcceptedShape(cat: Catalog, r: Report)
    requires IssuesIn(cat, r) == []
    ensures Shape(cat, SeenIn(cat, r)) && WellFormed(cat, SeenIn(cat, r))
    ensures forall mode | mode in cat.modes :: mode in Selected(r) && Selected(r)[mode] == Expected(cat, mode)
  {
    NoIssuesParts(cat, r);
    FineShape(cat, r);
    forall mode | mode in cat.modes
      ensures mode in Selected(r) && Selected(r)[mode] == Expected(cat, mode)
    {
      assert CatalogIssues(cat, Selected(r), mode) == [];
    }
  }
}
