/** Baseline compaction and the gate, step by step, and what compaction does to the gate's verdicts. */
module ComplianceCompaction {
  import opened Lists
  import opened Ordering
  import opened ComplianceReports
  import opened ComplianceReader
  import opened ComplianceGate

  // ----- Reading back what compaction wrote -----

  ghost function NonSkip(seen: set<Seen>): set<Seen> {
    set s | s in seen && s.status != Skip
  }

  lemma ReadBack(cat: Catalog, id: Identity)
    requires WellFormedId(cat, id)
    ensures ReadRecord(cat, ToRecord(id)) == Some(id)
  {}

  lemma {:induction false} ReadBackAll(cat: Catalog, status: CheckStatus, ids: seq<Identity>)
    requires Distinct(ids) && forall id | id in ids :: WellFormedId(cat, id)
    ensures RecordIds(cat, ToRecords(ids)) == Elements(ids)
    ensures BucketIssues(cat, status, ToRecords(ids)) == []
  {
    if ids != [] {
      var n := |ids| - 1;
      assert ids == ids[..n] + [ids[n]];
      assert ToRecords(ids)[..n] == ToRecords(ids[..n]);
      ReadBackAll(cat, status, ids[..n]);
      ReadBack(cat, ids[n]);
      assert ids[n] !in ids[..n];
      RecordIdsNext(cat, ToRecords(ids), n);
      assert ToRecords(ids)[..n + 1] == ToRecords(ids);
    }
  }

  lemma BucketReadBack(cat: Catalog, status: CheckStatus, ids: set<Identity>)
    requires forall id | id in ids :: WellFormedId(cat, id)
    ensures BucketSeen(cat, status, Some(ToRecords(Sorted(ids)))) == set id | id in ids :: Seen(id, status)
    ensures OptionalBucketIssues(cat, status, Some(ToRecords(Sorted(ids)))) == []
  {
    AscendingDistinct(IdentityKey, Sorted(ids));
    forall id | id in Sorted(ids)
      ensures WellFormedId(cat, id)
    {
      assert id in Elements(Sorted(ids));
    }
    ReadBackAll(cat, status, Sorted(ids));
  }

  lemma CompactSeenIsNonSkip(cat: Catalog, seen: set<Seen>, checks: CompactChecks)
    requires WellFormed(cat, seen)
    requires checks == CompactChecks(Some(ToRecords(Sorted(Passing(seen)))), Some(ToRecords(Sorted(Failing(seen)))))
    ensures CompactSeen(cat, checks) == NonSkip(seen)
    ensures OptionalBucketIssues(cat, Pass, checks.passing) == [] && OptionalBucketIssues(cat, Fail, checks.failing) == []
  {
    WellFormedWith(cat, seen, Pass);
    WellFormedWith(cat, seen, Fail);
    BucketReadBack(cat, Pass, Passing(seen));
    BucketReadBack(cat, Fail, Failing(seen));
    forall s: Seen
      ensures s in CompactSeen(cat, checks) <==> s in NonSkip(seen)
    {
      assert s == Seen(s.id, s.status);
    }
  }

  lemma WellFormedWith(cat: Catalog, seen: set<Seen>, status: CheckStatus)
    requires WellFormed(cat, seen)
    ensures forall id | id in With(seen, status) :: WellFormedId(cat, id)
  {
    forall id | id in With(seen, status)
      ensures WellFormedId(cat, id)
    {
      assert Seen(id, status) in seen;
    }
  }

  /** Every required case and every pinned scenario has a check that was not skipped. */
  ghost predicate Covered(cat: Catalog, seen: set<Seen>) {
    forall mode | mode in cat.modes ::
      && CaseCovered(seen, mode, STDIO) && CaseCovered(seen, mode, HTTP)
      && forall scenario | scenario in Expected(cat, mode) :: ScenarioCovered(seen, mode, scenario)
  }

  ghost predicate CaseCovered(seen: set<Seen>, mode: string, transport: string) {
    exists s :: s in seen && At(s.id, mode, transport) && s.status != Skip
  }

  ghost predicate ScenarioCovered(seen: set<Seen>, mode: string, scenario: string) {
    exists s :: s in seen && OverHttp(s.id, mode) && s.id.scenario == scenario && s.status != Skip
  }

  lemma CoveredCase(seen: set<Seen>, mode: string, transport: string)
    ensures HasCase(NonSkip(seen), mode, transport) <==> CaseCovered(seen, mode, transport)
  {
    if CaseCovered(seen, mode, transport) {
      var s :| s in seen && At(s.id, mode, transport) && s.status != Skip;
      assert s in NonSkip(seen);
    }
    if HasCase(NonSkip(seen), mode, transport) {
      var s :| s in NonSkip(seen) && At(s.id, mode, transport);
      assert s in seen;
    }
  }

  lemma CoveredScenarios(cat: Catalog, seen: set<Seen>, mode: string)
    requires Scenarios(seen, mode) == set x | x in Expected(cat, mode)
    ensures Scenarios(NonSkip(seen), mode) == (set x | x in Expected(cat, mode)) <==>
            forall scenario | scenario in Expected(cat, mode) :: ScenarioCovered(seen, mode, scenario)
  {
    var expected := set x | x in Expected(cat, mode);
    var left := Scenarios(NonSkip(seen), mode);
    forall scenario
      ensures scenario in left <==> ScenarioCovered(seen, mode, scenario)
    {
      if ScenarioCovered(seen, mode, scenario) {
        var s :| s in seen && OverHttp(s.id, mode) && s.id.scenario == scenario && s.status != Skip;
        assert s in NonSkip(seen);
      }
      if scenario in left {
        var s :| s in NonSkip(seen) && OverHttp(s.id, mode) && s.id.scenario == scenario;
        assert s in seen;
      }
    }
    assert left <= expected by {
      forall scenario | scenario in left
        ensures scenario in Scenarios(seen, mode)
      {
        var s :| s in NonSkip(seen) && OverHttp(s.id, mode) && s.id.scenario == scenario;
        assert s in seen;
      }
    }
    assert left == expected <==> forall scenario | scenario in expected :: scenario in left;
  }

  lemma CoveredMode(cat: Catalog, selected: map<string, seq<string>>, seen: set<Seen>, mode: string)
    requires Scenarios(seen, mode) == set x | x in Expected(cat, mode)
    requires mode in selected && selected[mode] == Expected(cat, mode)
    ensures CompactModeIssues(cat, selected, NonSkip(seen), mode) == [] <==>
            && CaseCovered(seen, mode, STDIO) && CaseCovered(seen, mode, HTTP)
            && forall scenario | scenario in Expected(cat, mode) :: ScenarioCovered(seen, mode, scenario)
  {
    CompactModeNone(cat, selected, NonSkip(seen), mode);
    CoveredCase(seen, mode, STDIO);
    CoveredCase(seen, mode, HTTP);
    CoveredScenarios(cat, seen, mode);
  }

  lemma CoveredModes(cat: Catalog, selected: map<string, seq<string>>, seen: set<Seen>)
    requires Shape(cat, seen)
    requires forall mode | mode in cat.modes :: mode in selected && selected[mode] == Expected(cat, mode)
    ensures CompactModesIssues(cat, selected, NonSkip(seen), cat.modes) == [] <==> Covered(cat, seen)
  {
    CompactModesNone(cat, selected, NonSkip(seen), cat.modes);
    forall mode | mode in cat.modes
      ensures CompactModeIssues(cat, selected, NonSkip(seen), mode) == [] <==>
              && CaseCovered(seen, mode, STDIO) && CaseCovered(seen, mode, HTTP)
              && forall scenario | scenario in Expected(cat, mode) :: ScenarioCovered(seen, mode, scenario)
    {
      CoveredMode(cat, selected, seen, mode);
    }
  }

  lemma CompactReportIssues(cat: Catalog, auth: bool, scenarios: map<string, seq<string>>,
                            passing: seq<Identity>, failing: seq<Identity>)
    ensures var c := CompactReport(cat, auth, scenarios, passing, failing);
            && Selected(c) == scenarios
            && SeenIn(cat, c) == CompactSeen(cat, c.checks.value)
            && IssuesIn(cat, c) == OptionalBucketIssues(cat, Pass, c.checks.value.passing)
                                   + OptionalBucketIssues(cat, Fail, c.checks.value.failing)
                                   + CompactModesIssues(cat, scenarios, CompactSeen(cat, c.checks.value), cat.modes)
  {
    var c := CompactReport(cat, auth, scenarios, passing, failing);
    assert HeaderIssues(c) == [] && CompactHeaderIssues(cat, c) == [];
  }

  /** A compacted baseline lists what was seen passing or failing, and is usable exactly when covered. */
  lemma CompactedIsRead(cat: Catalog, r: Report)
    requires Compact(cat, r).Ok?
    ensures var c := Compact(cat, r).value;
            && SeenIn(cat, c) == NonSkip(SeenIn(cat, r))
            && Selected(c) == PinnedScenarios(cat, r)
            && (IssuesIn(cat, c) == [] <==> Covered(cat, SeenIn(cat, r)))
  {
    var seen, c := SeenIn(cat, r), Compact(cat, r).value;
    assert IssuesIn(cat, r) == [];
    AcceptedShape(cat, r);
    CompactReportIssues(cat, r.automaticAuth.value, PinnedScenarios(cat, r), Sorted(Passing(seen)), Sorted(Failing(seen)));
    CompactSeenIsNonSkip(cat, seen, c.checks.value);
    CoveredModes(cat, PinnedScenarios(cat, r), seen);
  }

  lemma NonSkipKeepsOutcomes(seen: set<Seen>)
    ensures Passing(NonSkip(seen)) == Passing(seen) && Failing(NonSkip(seen)) == Failing(seen)
  {}

  // ----- Compaction and the gate -----

  lemma CoveredKeepsVerdict(cat: Catalog, r: Report, candidate: Report)
    requires Compact(cat, r).Ok? && Covered(cat, SeenIn(cat, r))
    ensures Gate(cat, candidate, Compact(cat, r).value) == Gate(cat, candidate, r)
  {
    CompactedIsRead(cat, r);
    NonSkipKeepsOutcomes(SeenIn(cat, r));
    assert IssuesIn(cat, r) == [];
  }

  /**
   Gating against a compacted baseline gives every candidate the same errors, lists and verdict as
   gating against the original, exactly when no required case or scenario rests on skips alone.
   */
  lemma CompactionKeepsVerdictsIff(cat: Catalog, r: Report)
    requires Compact(cat, r).Ok?
    ensures (forall candidate :: Gate(cat, candidate, Compact(cat, r).value) == Gate(cat, candidate, r)) <==>
            Covered(cat, SeenIn(cat, r))
  {
    var c := Compact(cat, r).value;
    if Covered(cat, SeenIn(cat, r)) {
      forall candidate
        ensures Gate(cat, candidate, c) == Gate(cat, candidate, r)
      {
        CoveredKeepsVerdict(cat, r, candidate);
      }
    } else {
      CompactedIsRead(cat, r);
      GateIsReflexiveIff(cat, r);
      GateIssuesNone(cat, r, c);
      assert Gate(cat, r, c) != Gate(cat, r, r);
    }
  }

  lemma CompactionIssuesNone(cat: Catalog, r: Report)
    ensures CompactionIssues(cat, r) == [] <==>
            && IssuesIn(cat, r) == [] && r.automaticAuth.Some?
            && InMode(Failing(SeenIn(cat, r)), cat.shipping) == {}
  {
    assert |BaselineIssues(IssuesIn(cat, r))| == |IssuesIn(cat, r)|;
  }

  /** A compacted baseline compacts to itself when it compacts at all, which is when it is covered. */
  lemma CompactionIsIdempotent(cat: Catalog, r: Report)
    requires Compact(cat, r).Ok?
    ensures var c := Compact(cat, r).value;
            && (Compact(cat, c).Ok? <==> Covered(cat, SeenIn(cat, r)))
            && (Compact(cat, c).Ok? ==> Compact(cat, c).value == c)
  {
    var c := Compact(cat, r).value;
    CompactedIsRead(cat, r);
    NonSkipKeepsOutcomes(SeenIn(cat, r));
    CompactionIssuesNone(cat, r);
    CompactionIssuesNone(cat, c);
    assert PinnedScenarios(cat, c) == PinnedScenarios(cat, r);
  }

  // ----- The operations, step by step -----

  /** What keeps a report from becoming a baseline. */
  method CompactionErrors(cat: Catalog, r: Report, ids: Outcomes, issues: seq<Issue>) returns (errors: seq<GateIssue>)
    requires ids == Grouped(SeenIn(cat, r)) && issues == IssuesIn(cat, r)
    ensures errors == CompactionIssues(cat, r)
  {
    errors := BaselineIssues(issues);
    if r.automaticAuth.None? {
      errors := errors + [NoAuthPolicy];
    }
    ShippingByIds(cat, SeenIn(cat, r));
    if exists id | id in ids :: id.mode == cat.shipping && Fail in ids[id] {
      errors := errors + [BaselineShippingFails("")];
    }
  }

  method CompactRegressionBaseline(cat: Catalog, r: Report) returns (result: Result<Report, seq<GateIssue>>)
    ensures result == Compact(cat, r)
  {
    var ids, issues := RequiredRegressionChecks(cat, r);
    ghost var seen := SeenIn(cat, r);
    var errors := CompactionErrors(cat, r, ids, issues);
    if errors != [] {
      return Err(errors);
    }
    StatusMembers(seen);
    var passing := SortWith(ids, Pass, seen);
    var failing := SortWith(ids, Fail, seen);
    result := Ok(CompactReport(cat, r.automaticAuth.value, PinnedScenarios(cat, r), passing, failing));
  }

  lemma StatusMembers(seen: set<Seen>)
    ensures forall id :: id in Grouped(seen) && Pass in Grouped(seen)[id] <==> id in Passing(seen)
    ensures forall id :: id in Grouped(seen) && Fail in Grouped(seen)[id] <==> id in Failing(seen)
  {
    forall id
      ensures id in Grouped(seen) && Pass in Grouped(seen)[id] <==> id in Passing(seen)
      ensures id in Grouped(seen) && Fail in Grouped(seen)[id] <==> id in Failing(seen)
    {
      GroupedMembers(seen, id, Pass);
      GroupedMembers(seen, id, Fail);
    }
  }

  lemma ShippingByIds(cat: Catalog, seen: set<Seen>)
    ensures InMode(Failing(seen), cat.shipping) != {} <==>
            exists id | id in Grouped(seen) :: id.mode == cat.shipping && Fail in Grouped(seen)[id]
  {
    StatusMembers(seen);
    var shipping := InMode(Failing(seen), cat.shipping);
    if shipping != {} {
      var id :| id in shipping;
      assert id in Grouped(seen);
    }
    if exists id | id in Grouped(seen) :: id.mode == cat.shipping && Fail in Grouped(seen)[id] {
      var id :| id in Grouped(seen) && id.mode == cat.shipping && Fail in Grouped(seen)[id];
      assert id in shipping;
    }
  }

  /** The checks seen with a status, sorted. */
  method SortWith(ids: Outcomes, status: CheckStatus, ghost seen: set<Seen>) returns (r: seq<Identity>)
    requires ids == Grouped(seen)
    ensures r == Sorted(With(seen, status))
  {
    IdentityKeyInjective();
    var kept := set id | id in ids && status in ids[id];
    forall id
      ensures id in kept <==> id in With(seen, status)
    {
      GroupedMembers(seen, id, status);
    }
    r := SortSet(IdentityKey, kept);
    AscendingUnique(IdentityKey, r, Sorted(With(seen, status)));
  }

  lemma StatusOf(seen: set<Seen>, id: Identity)
    ensures id in Grouped(seen) && Pass in Grouped(seen)[id] <==> id in Passing(seen)
    ensures id in Grouped(seen) && Fail in Grouped(seen)[id] <==> id in Failing(seen)
  {
    GroupedMembers(seen, id, Pass);
    GroupedMembers(seen, id, Fail);
  }

  lemma OutcomesAreIds(seen: set<Seen>)
    ensures Passing(seen) <= IdsOf(seen) && Failing(seen) <= IdsOf(seen)
  {
    forall id | id in Passing(seen)
      ensures id in IdsOf(seen)
    {
      assert Seen(id, Pass).id in IdsOf(seen);
    }
    forall id | id in Failing(seen)
      ensures id in IdsOf(seen)
    {
      assert Seen(id, Fail).id in IdsOf(seen);
    }
  }

  /** The pass over the candidate's checks: failures, split by whether the baseline knows them. */
  method CompareFailures(cat: Catalog, sorted: seq<Identity>, candidate: Outcomes, baseline: Outcomes,
                         ghost c: set<Seen>, ghost b: set<Seen>)
    returns (shipping: seq<GateIssue>, added: seq<Identity>, known: seq<Identity>)
    requires candidate == Grouped(c) && baseline == Grouped(b)
    requires Ascending(IdentityKey, sorted) && Elements(sorted) == IdsOf(c)
    ensures shipping == ShippingIssues(Sorted(InMode(Failing(c), cat.shipping)))
    ensures added == Sorted(Failing(c) - Failing(b)) && known == Sorted(Failing(c) * Failing(b))
  {
    shipping, added, known := [], [], [];
    ghost var inShipping := InMode(Failing(c), cat.shipping);
    for i := 0 to |sorted|
      invariant shipping == ShippingIssues(Keep(sorted[..i], inShipping))
      invariant added == Keep(sorted[..i], Failing(c) - Failing(b))
      invariant known == Keep(sorted[..i], Failing(c) * Failing(b))
    {
      var id := sorted[i];
      assert id in Elements(sorted);
      GroupedKeys(c);
      StatusOf(c, id);
      StatusOf(b, id);
      KeepNext(sorted, inShipping, i);
      ShippingIssuesNext(Keep(sorted[..i], inShipping), id);
      KeepNext(sorted, Failing(c) - Failing(b), i);
      KeepNext(sorted, Failing(c) * Failing(b), i);
      if Fail in candidate[id] {
        if id.mode == cat.shipping {
          shipping := shipping + [ShippingFails(id.checkId)];
        }
        if id in baseline && Fail in baseline[id] {
          known := known + [id];
        } else {
          added := added + [id];
        }
      }
    }
    assert sorted[..|sorted|] == sorted;
    OutcomesAreIds(c);
    KeepIsSorted(sorted, inShipping);
    KeepIsSorted(sorted, Failing(c) - Failing(b));
    KeepIsSorted(sorted, Failing(c) * Failing(b));
  }

  ghost function Missing(b: set<Seen>, c: set<Seen>): set<Identity> {
    (Passing(b) - Passing(c)) + (Failing(b) - Failing(c) - Passing(c))
  }

  lemma ShippingIssuesNext(ids: seq<Identity>, id: Identity)
    ensures ShippingIssues(ids + [id]) == ShippingIssues(ids) + [ShippingFails(id.checkId)]
    ensures BaselineShippingIssues(ids + [id]) == BaselineShippingIssues(ids) + [BaselineShippingFails(id.checkId)]
  {}

  datatype Fate = Held | Lost | Repaired

  /** What became of a baseline check, given its outcomes then and now. */
  function FateOf(before: set<CheckStatus>, now: set<CheckStatus>): Fate {
    if Pass in before && Pass !in now then Lost
    else if Fail in before && Fail !in now && Pass !in now then Lost
    else if Fail in before && Fail !in now then Repaired
    else Held
  }

  lemma FateIff(b: set<Seen>, c: set<Seen>, id: Identity)
    requires id in Grouped(b)
    ensures var fate := FateOf(Grouped(b)[id], if id in Grouped(c) then Grouped(c)[id] else {});
            && (fate == Lost <==> id in Missing(b, c))
            && (fate == Repaired <==> id in (Failing(b) - Failing(c)) * Passing(c))
  {
    StatusOf(b, id);
    StatusOf(c, id);
  }

  /** The pass over the baseline's checks: what the candidate lost and what it fixed. */
  method CompareBaseline(cat: Catalog, sorted: seq<Identity>, candidate: Outcomes, baseline: Outcomes,
                         ghost c: set<Seen>, ghost b: set<Seen>)
    returns (shipping: seq<GateIssue>, missing: seq<Identity>, fixed: seq<Identity>)
    requires candidate == Grouped(c) && baseline == Grouped(b)
    requires Ascending(IdentityKey, sorted) && Elements(sorted) == IdsOf(b)
    ensures shipping == BaselineShippingIssues(Sorted(InMode(Failing(b), cat.shipping)))
    ensures missing == Sorted(Missing(b, c)) && fixed == Sorted((Failing(b) - Failing(c)) * Passing(c))
  {
    shipping, missing, fixed := [], [], [];
    ghost var inShipping := InMode(Failing(b), cat.shipping);
    ghost var lost, repaired := Missing(b, c), (Failing(b) - Failing(c)) * Passing(c);
    for i := 0 to |sorted|
      invariant shipping == BaselineShippingIssues(Keep(sorted[..i], inShipping))
      invariant missing == Keep(sorted[..i], lost)
      invariant fixed == Keep(sorted[..i], repaired)
    {
      var id := sorted[i];
      assert id in Elements(sorted);
      GroupedKeys(b);
      StatusOf(b, id);
      FateIff(b, c, id);
      KeepNext(sorted, inShipping, i);
      ShippingIssuesNext(Keep(sorted[..i], inShipping), id);
      KeepNext(sorted, lost, i);
      KeepNext(sorted, repaired, i);
      if id.mode == cat.shipping && Fail in baseline[id] {
        shipping := shipping + [BaselineShippingFails(id.checkId)];
      }
      match FateOf(baseline[id], if id in candidate then candidate[id] else {}) {
        case Lost => missing := missing + [id];
        case Repaired => fixed := fixed + [id];
        case Held =>
      }
    }
    assert sorted[..|sorted|] == sorted;
    OutcomesAreIds(b);
    KeepIsSorted(sorted, inShipping);
    KeepIsSorted(sorted, lost);
    KeepIsSorted(sorted, repaired);
  }

  method EvaluateRegressionGate(cat: Catalog, candidate: Report, baseline: Report) returns (g: GateResult)
    ensures g == Gate(cat, candidate, baseline)
  {
    var baselineChecks, baselineIssues := RequiredRegressionChecks(cat, baseline);
    var candidateChecks, candidateIssues := RequiredRegressionChecks(cat, candidate);
    ghost var b, c := SeenIn(cat, baseline), SeenIn(cat, candidate);
    var errors := BaselineIssues(baselineIssues) + CandidateIssues(candidateIssues)
                  + AuthIssues(baseline.automaticAuth, candidate.automaticAuth);
    IdentityKeyInjective();
    GroupedKeys(b);
    GroupedKeys(c);
    var sorted := SortSet(IdentityKey, candidateChecks.Keys);
    var shipping, added, known := CompareFailures(cat, sorted, candidateChecks, baselineChecks, c, b);
    sorted := SortSet(IdentityKey, baselineChecks.Keys);
    var baselineShipping, missing, fixed := CompareBaseline(cat, sorted, candidateChecks, baselineChecks, c, b);
    g := GateResult(errors + shipping + baselineShipping, added, missing, known, fixed);
  }
}
