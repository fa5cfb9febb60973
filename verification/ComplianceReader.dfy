/** The report reader, step by step: it fills the map of check outcomes and appends what is wrong. */
module ComplianceReader {
  import opened Lists
  import opened ComplianceReports
  import opened ComplianceMeaning

  type Outcomes = map<Identity, set<CheckStatus>>

  // ----- Compact baselines -----

  lemma RecordIdsNext(cat: Catalog, records: seq<Record>, i: nat)
    requires i < |records|
    ensures RecordIds(cat, records[..i + 1]) ==
            RecordIds(cat, records[..i]) + if ReadRecord(cat, records[i]).Some? then {ReadRecord(cat, records[i]).value} else {}
  {
    assert records[..i + 1] == records[..i] + [records[i]];
  }

  lemma BucketIssuesNext(cat: Catalog, status: CheckStatus, records: seq<Record>, i: nat)
    requires i < |records|
    ensures var id := ReadRecord(cat, records[i]);
            BucketIssues(cat, status, records[..i + 1]) ==
            BucketIssues(cat, status, records[..i]) +
            if id.None? then [MalformedRecord(status)]
            else if id.value in RecordIds(cat, records[..i]) then [DuplicateRecord(status)]
            else []
  {
    assert records[..i + 1][..i] == records[..i];
  }

  ghost function SeenAs(ids: set<Identity>, status: CheckStatus): set<Seen> {
    set id | id in ids :: Seen(id, status)
  }

  lemma SeenAsOneMore(seen0: set<Seen>, ids: set<Identity>, id: Identity, status: CheckStatus)
    ensures Grouped(seen0 + SeenAs(ids + {id}, status)) == AddStatus(Grouped(seen0 + SeenAs(ids, status)), Seen(id, status))
  {
    assert seen0 + SeenAs(ids + {id}, status) == seen0 + SeenAs(ids, status) + {Seen(id, status)};
    GroupedAdd(seen0 + SeenAs(ids, status), Seen(id, status));
  }

  method ReadBucket(cat: Catalog, status: CheckStatus, records: Option<seq<Record>>, ids0: Outcomes, ghost seen0: set<Seen>)
    returns (ids: Outcomes, issues: seq<Issue>)
    requires ids0 == Grouped(seen0)
    ensures ids == Grouped(seen0 + BucketSeen(cat, status, records))
    ensures issues == OptionalBucketIssues(cat, status, records)
  {
    if records.None? {
      assert seen0 + {} == seen0;
      return ids0, [NoBucket(status)];
    }
    ids, issues := ReadRecords(cat, status, records.value, ids0, seen0);
    assert BucketSeen(cat, status, records) == SeenAs(RecordIds(cat, records.value), status);
  }

  method ReadRecords(cat: Catalog, status: CheckStatus, records: seq<Record>, ids0: Outcomes, ghost seen0: set<Seen>)
    returns (ids: Outcomes, issues: seq<Issue>)
    requires ids0 == Grouped(seen0)
    ensures ids == Grouped(seen0 + SeenAs(RecordIds(cat, records), status))
    ensures issues == BucketIssues(cat, status, records)
  {
    ids, issues := ids0, [];
    var seen := {};
    assert seen0 + SeenAs({}, status) == seen0;
    for i := 0 to |records|
      invariant seen == RecordIds(cat, records[..i])
      invariant ids == Grouped(seen0 + SeenAs(seen, status))
      invariant issues == BucketIssues(cat, status, records[..i])
    {
      RecordIdsNext(cat, records, i);
      BucketIssuesNext(cat, status, records, i);
      var id := ReadRecord(cat, records[i]);
      if id.None? {
        issues := issues + [MalformedRecord(status)];
      } else if id.value in seen {
        issues := issues + [DuplicateRecord(status)];
        assert seen + {id.value} == seen;
      } else {
        SeenAsOneMore(seen0, seen, id.value, status);
        seen := seen + {id.value};
        ids := AddStatus(ids, Seen(id.value, status));
      }
    }
    assert records[..|records|] == records;
  }

  lemma GroupedKeys(seen: set<Seen>)
    ensures Grouped(seen).Keys == IdsOf(seen)
    ensures forall s | s in seen :: s.id in Grouped(seen)
  {
    forall s | s in seen
      ensures s.id in IdsOf(seen)
    {}
  }

  lemma ScenariosOfIds(seen: set<Seen>, mode: string)
    ensures Scenarios(seen, mode) == set id | id in Grouped(seen) && OverHttp(id, mode) :: id.scenario
  {
    GroupedKeys(seen);
    forall x | x in Scenarios(seen, mode)
      ensures x in set id | id in Grouped(seen) && OverHttp(id, mode) :: id.scenario
    {
      var s :| s in seen && OverHttp(s.id, mode) && s.id.scenario == x;
      assert s.id in Grouped(seen);
    }
  }

  lemma CaseMissingByIds(seen: set<Seen>, mode: string, transport: string)
    ensures CaseMissing(seen, mode, transport) ==
            if exists id | id in Grouped(seen) :: At(id, mode, transport) then [] else [MissingCase(mode, transport)]
  {
    GroupedKeys(seen);
    if exists s :: s in seen && At(s.id, mode, transport) {
      var s :| s in seen && At(s.id, mode, transport);
      assert s.id in Grouped(seen);
    }
  }

  lemma CompactModesNext(cat: Catalog, selected: map<string, seq<string>>, seen: set<Seen>, i: nat)
    requires i < |cat.modes|
    ensures CompactModesIssues(cat, selected, seen, cat.modes[..i + 1]) ==
            CompactModesIssues(cat, selected, seen, cat.modes[..i]) + CompactModeIssues(cat, selected, seen, cat.modes[i])
  {
    GatherNext(mode => CompactModeIssues(cat, selected, seen, mode), cat.modes, i);
  }

  method CheckCompactModes(cat: Catalog, selected: map<string, seq<string>>, ids: Outcomes, ghost seen: set<Seen>)
    returns (issues: seq<Issue>)
    requires ids == Grouped(seen)
    ensures issues == CompactModesIssues(cat, selected, seen, cat.modes)
  {
    issues := [];
    for i := 0 to |cat.modes|
      invariant issues == CompactModesIssues(cat, selected, seen, cat.modes[..i])
    {
      var found := CheckCompactMode(cat, selected, ids, seen, cat.modes[i]);
      CompactModesNext(cat, selected, seen, i);
      issues := issues + found;
    }
    assert cat.modes[..|cat.modes|] == cat.modes;
  }

  method CheckCompactMode(cat: Catalog, selected: map<string, seq<string>>, ids: Outcomes, ghost seen: set<Seen>, mode: string)
    returns (issues: seq<Issue>)
    requires ids == Grouped(seen)
    ensures issues == CompactModeIssues(cat, selected, seen, mode)
  {
    CaseMissingByIds(seen, mode, STDIO);
    CaseMissingByIds(seen, mode, HTTP);
    ScenariosOfIds(seen, mode);
    issues := CatalogIssues(cat, selected, mode);
    if !exists id | id in ids :: At(id, mode, STDIO) {
      issues := issues + [MissingCase(mode, STDIO)];
    }
    if !exists id | id in ids :: At(id, mode, HTTP) {
      issues := issues + [MissingCase(mode, HTTP)];
    }
    var observed := set id | id in ids && OverHttp(id, mode) :: id.scenario;
    issues := issues + ScenarioIssues(cat, mode, observed);
  }

  // ----- Full reports -----

  method CollectCases(cat: Catalog, cases: seq<Case>) returns (collected: map<CaseKey, Option<seq<Check>>>, issues: seq<Issue>)
    ensures collected == CasesOf(cat, cases) && issues == CaseIssues(cat, cases)
  {
    collected, issues := map[], [];
    for i := 0 to |cases|
      invariant collected == CasesOf(cat, cases[..i]) && issues == CaseIssues(cat, cases[..i])
    {
      assert cases[..i + 1][..i] == cases[..i];
      match Classify(cat, cases[i]) {
        case BadCase => issues := issues + [MalformedCase];
        case OtherMode =>
        case BadRequiredCase => issues := issues + [MalformedRequiredCase];
        case RequiredCase(mode, transport) =>
          if (mode, transport) in collected {
            issues := issues + [DuplicateCase(mode, transport)];
          } else {
            collected := collected[(mode, transport) := cases[i].checks];
          }
      }
    }
    assert cases[..|cases|] == cases;
  }

  lemma CaseSeenNext(mode: string, transport: string, checks: seq<Check>, i: nat)
    requires i < |checks|
    ensures CaseSeen(mode, transport, checks[..i + 1]) ==
            CaseSeen(mode, transport, checks[..i])
            + if ReadCheck(mode, transport, checks[i]).Some? then {ReadCheck(mode, transport, checks[i]).value} else {}
    ensures CheckIssues(mode, transport, checks[..i + 1]) ==
            CheckIssues(mode, transport, checks[..i])
            + if ReadCheck(mode, transport, checks[i]).None? then [MalformedCheck(mode, transport)] else []
  {
    assert checks[..i + 1] == checks[..i] + [checks[i]];
    GatherNext(check => if ReadCheck(mode, transport, check).None? then [MalformedCheck(mode, transport)] else [], checks, i);
  }

  lemma ScenariosNext(seen: set<Seen>, s: Seen, mode: string)
    ensures Scenarios(seen + {s}, mode) == Scenarios(seen, mode) + if OverHttp(s.id, mode) then {s.id.scenario} else {}
  {
    var more := seen + {s};
    forall x | x in Scenarios(seen, mode)
      ensures x in Scenarios(more, mode)
    {
      var t :| t in seen && OverHttp(t.id, mode) && t.id.scenario == x;
      assert t in more;
    }
    if OverHttp(s.id, mode) {
      assert s in more;
    }
  }

  lemma ReadCheckStep(mode: string, transport: string, checks: seq<Check>, i: nat, seen0: set<Seen>)
    requires i < |checks|
    ensures var read := ReadCheck(mode, transport, checks[i]);
            var before, after := CaseSeen(mode, transport, checks[..i]), CaseSeen(mode, transport, checks[..i + 1]);
            && (read.None? ==> after == before)
            && (read.Some? ==> Grouped(seen0 + after) == AddStatus(Grouped(seen0 + before), read.value))
            && (read.Some? ==>
                  (Scenarios(after, mode) ==
                   Scenarios(before, mode) + if OverHttp(read.value.id, mode) then {read.value.id.scenario} else {}))
  {
    CaseSeenNext(mode, transport, checks, i);
    var read := ReadCheck(mode, transport, checks[i]);
    var before := CaseSeen(mode, transport, checks[..i]);
    if read.Some? {
      GroupedAdd(seen0 + before, read.value);
      assert seen0 + before + {read.value} == seen0 + (before + {read.value});
      ScenariosNext(before, read.value, mode);
    }
  }

  method ReadChecks(mode: string, transport: string, checks: seq<Check>, ids0: Outcomes, ghost seen0: set<Seen>)
    returns (ids: Outcomes, issues: seq<Issue>, observed: set<string>)
    requires ids0 == Grouped(seen0)
    ensures ids == Grouped(seen0 + CaseSeen(mode, transport, checks))
    ensures issues == CheckIssues(mode, transport, checks)
    ensures observed == Scenarios(CaseSeen(mode, transport, checks), mode)
  {
    ids, issues, observed := ids0, [], {};
    assert seen0 + CaseSeen(mode, transport, []) == seen0;
    ghost var seen := {};
    for i := 0 to |checks|
      invariant seen == CaseSeen(mode, transport, checks[..i])
      invariant ids == Grouped(seen0 + seen)
      invariant issues == CheckIssues(mode, transport, checks[..i])
      invariant observed == Scenarios(seen, mode)
    {
      ReadCheckStep(mode, transport, checks, i, seen0);
      CaseSeenNext(mode, transport, checks, i);
      seen := CaseSeen(mode, transport, checks[..i + 1]);
      var read := ReadCheck(mode, transport, checks[i]);
      if read.None? {
        issues := issues + [MalformedCheck(mode, transport)];
      } else {
        var s := read.value;
        ids := AddStatus(ids, s);
        if transport == HTTP && (s.id.source == "official" || s.id.source == "harness") {
          observed := observed + {s.id.scenario};
        }
      }
    }
    assert checks[..|checks|] == checks;
  }

  method ReadTransport(cat: Catalog, cases: map<CaseKey, Option<seq<Check>>>, mode: string, transport: string,
                       ids0: Outcomes, ghost seen0: set<Seen>)
    returns (ids: Outcomes, issues: seq<Issue>)
    requires ids0 == Grouped(seen0)
    ensures ids == Grouped(seen0 + TransportSeen(cases, mode, transport))
    ensures issues == TransportIssues(cat, cases, mode, transport)
  {
    ids := ids0;
    if (mode, transport) !in cases {
      assert seen0 + {} == seen0;
      return ids, [MissingCase(mode, transport)];
    }
    var checks := cases[(mode, transport)];
    if checks.None? || checks.value == [] {
      assert seen0 + TransportSeen(cases, mode, transport) == seen0;
      return ids, [NoChecks(mode, transport)];
    }
    var observed;
    ids, issues, observed := ReadChecks(mode, transport, checks.value, ids, seen0);
    if transport == HTTP {
      issues := issues + ScenarioIssues(cat, mode, observed);
    }
  }

  lemma FullSeenNext(cases: map<CaseKey, Option<seq<Check>>>, modes: seq<string>, i: nat)
    requires i < |modes|
    ensures FullSeen(cases, modes[..i + 1]) ==
            FullSeen(cases, modes[..i]) + TransportSeen(cases, modes[i], STDIO) + TransportSeen(cases, modes[i], HTTP)
  {
    assert modes[..i + 1] == modes[..i] + [modes[i]];
  }

  lemma FullModesNext(cat: Catalog, selected: map<string, seq<string>>, cases: map<CaseKey, Option<seq<Check>>>, i: nat)
    requires i < |cat.modes|
    ensures FullModesIssues(cat, selected, cases, cat.modes[..i + 1]) ==
            FullModesIssues(cat, selected, cases, cat.modes[..i]) + FullModeIssues(cat, selected, cases, cat.modes[i])
  {
    GatherNext(mode => FullModeIssues(cat, selected, cases, mode), cat.modes, i);
  }

  method ReadModes(cat: Catalog, selected: map<string, seq<string>>, cases: map<CaseKey, Option<seq<Check>>>)
    returns (ids: Outcomes, issues: seq<Issue>)
    ensures ids == Grouped(FullSeen(cases, cat.modes))
    ensures issues == FullModesIssues(cat, selected, cases, cat.modes)
  {
    ids, issues := map[], [];
    for i := 0 to |cat.modes|
      invariant ids == Grouped(FullSeen(cases, cat.modes[..i]))
      invariant issues == FullModesIssues(cat, selected, cases, cat.modes[..i])
    {
      var mode := cat.modes[i];
      FullModesNext(cat, selected, cases, i);
      FullSeenNext(cases, cat.modes, i);
      ghost var seen := FullSeen(cases, cat.modes[..i]);
      var stdioIssues, httpIssues;
      ids, stdioIssues := ReadTransport(cat, cases, mode, STDIO, ids, seen);
      ids, httpIssues := ReadTransport(cat, cases, mode, HTTP, ids, seen + TransportSeen(cases, mode, STDIO));
      issues := issues + (CatalogIssues(cat, selected, mode) + stdioIssues + httpIssues);
    }
    assert cat.modes[..|cat.modes|] == cat.modes;
  }

  // ----- A whole report -----

  method RequiredRegressionChecks(cat: Catalog, r: Report) returns (ids: Outcomes, issues: seq<Issue>)
    ensures ids == Grouped(SeenIn(cat, r)) && Holds(cat, r, ids)
    ensures issues == IssuesIn(cat, r) && (issues == [] <==> ReportRight(cat, r))
  {
    UsableIff(cat, r);
    GroupedHolds(cat, r);
    issues := HeaderIssues(r);
    ids := map[];
    var body;
    if r.baselineKind.None? {
      ids, body := ReadFull(cat, r);
    } else if r.baselineKind.value != COMPACT_KIND {
      body := [UnsupportedFormat];
    } else if r.checks.None? {
      body := CompactHeaderIssues(cat, r) + [NoIdentities];
    } else {
      ids, body := ReadCompact(cat, r);
      body := CompactHeaderIssues(cat, r) + body;
    }
    issues := issues + body;
  }

  method ReadFull(cat: Catalog, r: Report) returns (ids: Outcomes, issues: seq<Issue>)
    requires r.baselineKind.None?
    ensures ids == Grouped(SeenIn(cat, r))
    ensures issues == (if r.cases.None? then [NoCases] else CaseIssues(cat, r.cases.value))
                      + FullModesIssues(cat, Selected(r), ReportedCases(cat, r), cat.modes)
  {
    var cases, caseIssues := CollectCases(cat, if r.cases.Some? then r.cases.value else []);
    if r.cases.None? {
      caseIssues := [NoCases];
    }
    var modeIssues;
    ids, modeIssues := ReadModes(cat, Selected(r), cases);
    issues := caseIssues + modeIssues;
  }

  method ReadCompact(cat: Catalog, r: Report) returns (ids: Outcomes, issues: seq<Issue>)
    requires r.baselineKind == Some(COMPACT_KIND) && r.checks.Some?
    ensures ids == Grouped(SeenIn(cat, r))
    ensures issues == OptionalBucketIssues(cat, Pass, r.checks.value.passing)
                      + OptionalBucketIssues(cat, Fail, r.checks.value.failing)
                      + CompactModesIssues(cat, Selected(r), SeenIn(cat, r), cat.modes)
  {
    var checks := r.checks.value;
    var passing, failing, modes;
    ids, passing := ReadBucket(cat, Pass, checks.passing, map[], {});
    assert {} + BucketSeen(cat, Pass, checks.passing) == BucketSeen(cat, Pass, checks.passing);
    ids, failing := ReadBucket(cat, Fail, checks.failing, ids, BucketSeen(cat, Pass, checks.passing));
    modes := CheckCompactModes(cat, Selected(r), ids, SeenIn(cat, r));
    issues := passing + failing + modes;
  }
}
