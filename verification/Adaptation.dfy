/**
 Adapting a saved workflow to a new task may change its wording only.  An accepted adaptation
 schedules the same, costs the same, and on the same answers runs the same, step by step.
 */
module Adaptation {
  import opened Lists
  import opened Graphs
  import opened PhasePrograms
  import opened Compiler
  import opened PhaseRuntime

  datatype AdaptationError =
    | PhaseCountChanged
    | ArrowsChanged
    | IdentityChanged
    | StructureChanged
    | NothingChanged

  /** A phase without its human-readable wording. */
  function Wordless(phase: Phase): Phase {
    match phase
    case Work(_, _, _, _, _, _) => phase.(name := "", goal := "")
    case Checkpoint(_, _, _, _) => phase.(name := "", question := "")
    case Verify(_, _, _, _, _) => phase.(name := "", criteria := "")
    case Command(_, _, _, _, _, _, _) => phase.(name := "")
  }

  function ChangedIds(source: seq<Phase>, candidate: seq<Phase>): seq<string>
    requires |source| == |candidate|
  {
    if source == [] then []
    else
      var n := |source| - 1;
      ChangedIds(source[..n], candidate[..n]) + if source[n] != candidate[n] then [source[n].id] else []
  }

  /** The phases are of one kind and agree in every field but their wording. */
  predicate SameFields(before: Phase, after: Phase) {
    && before.id == after.id && before.position == after.position
    && match before
       case Work(_, _, _, scope, effort, _) => after.Work? && after.scope == scope && after.effort == effort
       case Checkpoint(_, _, _, _) => after.Checkpoint?
       case Verify(_, _, _, maxRepairs, _) => after.Verify? && after.maxRepairs == maxRepairs
       case Command(_, _, stepType, command, expectedExitCode, stopOnFailure, _) =>
         && after.Command? && after.stepType == stepType && after.command == command
         && after.expectedExitCode == expectedExitCode && after.stopOnFailure == stopOnFailure
  }

  // ----- The fields as they are compared, key by key -----

  datatype Value =
    | Words(text: string)
    | Breadth(scope: Scope)
    | Depth(effort: Effort)
    | Step(stepType: StepType)
    | Number(value: int)
    | Switch(on: bool)
    | Spot(position: Option<Position>)

  /** The structural keys. */
  datatype Key =
    | IdKey | KindKey | ScopeKey | EffortKey | MaxRepairsKey | StepTypeKey | CommandKey | ExitCodeKey | StopKey | PositionKey

  /** The value of a phase under a key; a phase of another kind has none. */
  function Get(phase: Phase, key: Key): Option<Value> {
    match key
    case IdKey => Some(Words(phase.id))
    case KindKey => Some(Words(KindName(phase)))
    case PositionKey => Some(Spot(phase.position))
    case ScopeKey => if phase.Work? then Some(Breadth(phase.scope)) else None
    case EffortKey => if phase.Work? then Some(Depth(phase.effort)) else None
    case MaxRepairsKey => if phase.Verify? then Some(Number(phase.maxRepairs)) else None
    case StepTypeKey => if phase.Command? then Some(Step(phase.stepType)) else None
    case CommandKey => if phase.Command? then Some(Words(phase.command)) else None
    case ExitCodeKey => if phase.Command? then Some(Number(phase.expectedExitCode)) else None
    case StopKey => if phase.Command? then Some(Switch(phase.stopOnFailure)) else None
  }

  predicate SameKeys(before: Phase, after: Phase) {
    forall key: Key :: Get(before, key) == Get(after, key)
  }

  lemma SameKindIff(before: Phase, after: Phase)
    ensures KindName(before) == KindName(after) <==>
            || (before.Work? && after.Work?) || (before.Checkpoint? && after.Checkpoint?)
            || (before.Verify? && after.Verify?) || (before.Command? && after.Command?)
  {
    assert "work"[0] == 'w' && "checkpoint"[1] == 'h' && "verify"[0] == 'v' && "command"[1] == 'o';
  }

  /** Comparing the structural keys compares every field but the wording. */
  lemma SameKeysIff(before: Phase, after: Phase)
    ensures SameKeys(before, after) <==> SameFields(before, after)
  {
    SameKindIff(before, after);
    if SameKeys(before, after) {
      assert Get(before, IdKey) == Get(after, IdKey) && Get(before, KindKey) == Get(after, KindKey);
      assert Get(before, ScopeKey) == Get(after, ScopeKey) && Get(before, EffortKey) == Get(after, EffortKey);
      assert Get(before, MaxRepairsKey) == Get(after, MaxRepairsKey);
      assert Get(before, StepTypeKey) == Get(after, StepTypeKey) && Get(before, CommandKey) == Get(after, CommandKey);
      assert Get(before, ExitCodeKey) == Get(after, ExitCodeKey) && Get(before, StopKey) == Get(after, StopKey);
      assert Get(before, PositionKey) == Get(after, PositionKey);
    }
  }

  lemma WordlessIff(before: Phase, after: Phase)
    ensures Wordless(before) == Wordless(after) <==> SameFields(before, after)
  {}

  ghost predicate SameStructure(source: Program, candidate: Program) {
    && |source.phases| == |candidate.phases|
    && source.edges == candidate.edges
    && forall i :: 0 <= i < |source.phases| ==> SameFields(source.phases[i], candidate.phases[i])
  }

  lemma SameStructureIff(source: Program, candidate: Program)
    ensures SameStructure(source, candidate) <==>
            && |source.phases| == |candidate.phases| && source.edges == candidate.edges
            && WordlessAll(source.phases) == WordlessAll(candidate.phases)
  {
    if |source.phases| == |candidate.phases| {
      var a, b := WordlessAll(source.phases), WordlessAll(candidate.phases);
      forall i | 0 <= i < |source.phases|
        ensures a[i] == b[i] <==> SameFields(source.phases[i], candidate.phases[i])
      {
        WordlessIff(source.phases[i], candidate.phases[i]);
      }
      assert a == b <==> forall i :: 0 <= i < |a| ==> a[i] == b[i];
    }
  }

  lemma {:induction false} NoChangedIds(source: seq<Phase>, candidate: seq<Phase>)
    requires |source| == |candidate|
    ensures ChangedIds(source, candidate) == [] <==> source == candidate
  {
    if source != [] {
      var n := |source| - 1;
      NoChangedIds(source[..n], candidate[..n]);
      assert source == source[..n] + [source[n]] && candidate == candidate[..n] + [candidate[n]];
    }
  }

  /** Exactly the phases that differ are listed. */
  lemma {:induction false} ChangedIdsIff(source: seq<Phase>, candidate: seq<Phase>, id: string)
    requires |source| == |candidate|
    ensures id in ChangedIds(source, candidate) <==>
            exists i :: 0 <= i < |source| && source[i].id == id && source[i] != candidate[i]
  {
    if source != [] {
      var n := |source| - 1;
      ChangedIdsIff(source[..n], candidate[..n], id);
      if i :| 0 <= i < n && source[..n][i].id == id && source[..n][i] != candidate[..n][i] {
        assert source[i].id == id && source[i] != candidate[i];
      }
      if i :| 0 <= i < n && source[i].id == id && source[i] != candidate[i] {
        assert source[..n][i].id == id && source[..n][i] != candidate[..n][i];
      }
    }
  }

  /** The places of the phases that differ, in order. */
  ghost predicate Differing(source: seq<Phase>, candidate: seq<Phase>, places: seq<nat>)
    requires |source| == |candidate|
  {
    && (forall i, j :: 0 <= i < j < |places| ==> places[i] < places[j])
    && (forall i :: 0 <= i < |source| ==> (i in places <==> source[i] != candidate[i]))
    && (forall k :: 0 <= k < |places| ==> places[k] < |source|)
  }

  lemma DifferingMore(source: seq<Phase>, candidate: seq<Phase>, places: seq<nat>)
    requires |source| == |candidate| && source != []
    requires var n := |source| - 1; Differing(source[..n], candidate[..n], places)
    ensures var n := |source| - 1;
            Differing(source, candidate, places + if source[n] != candidate[n] then [n] else [])
  {
    var n := |source| - 1;
    var more := places + if source[n] != candidate[n] then [n] else [];
    forall i | 0 <= i < |source|
      ensures i in more <==> source[i] != candidate[i]
    {
      if i < n {
        assert source[..n][i] == source[i] && candidate[..n][i] == candidate[i];
      } else {
        assert n !in places;
      }
    }
  }

  /** The list gives the ids of exactly the phases that differ, once each and in the order of the program. */
  lemma {:induction false} ChangedInOrder(source: seq<Phase>, candidate: seq<Phase>) returns (places: seq<nat>)
    requires |source| == |candidate|
    ensures Differing(source, candidate, places) && |ChangedIds(source, candidate)| == |places|
    ensures forall k :: 0 <= k < |places| ==> ChangedIds(source, candidate)[k] == source[places[k]].id
  {
    if source == [] {
      places := [];
    } else {
      var n := |source| - 1;
      var before := ChangedInOrder(source[..n], candidate[..n]);
      DifferingMore(source, candidate, before);
      places := before + if source[n] != candidate[n] then [n] else [];
    }
  }

  /** The first phase whose structure differs. */
  ghost predicate FirstChange(source: seq<Phase>, candidate: seq<Phase>, i: int) {
    && 0 <= i < |source| == |candidate| && !SameFields(source[i], candidate[i])
    && forall j :: 0 <= j < i ==> SameFields(source[j], candidate[j])
  }

  predicate SameIdentity(before: Phase, after: Phase) {
    && before.id == after.id
    && match before
       case Work(_, _, _, _, _, _) => after.Work?
       case Checkpoint(_, _, _, _) => after.Checkpoint?
       case Verify(_, _, _, _, _) => after.Verify?
       case Command(_, _, _, _, _, _, _) => after.Command?
  }

  /** The complaint about the first change: its id and kind are looked at before its other fields. */
  ghost predicate Complains(source: seq<Phase>, candidate: seq<Phase>, error: AdaptationError) {
    exists i ::
      && FirstChange(source, candidate, i)
      && error == if SameIdentity(source[i], candidate[i]) then StructureChanged else IdentityChanged
  }

  lemma ChangedNext(source: seq<Phase>, candidate: seq<Phase>, i: nat)
    requires |source| == |candidate| && i < |source|
    ensures ChangedIds(source[..i + 1], candidate[..i + 1]) ==
            ChangedIds(source[..i], candidate[..i]) + if source[i] != candidate[i] then [source[i].id] else []
  {
    assert source[..i + 1][..i] == source[..i] && candidate[..i + 1][..i] == candidate[..i];
  }

  method ComparePhases(source: seq<Phase>, candidate: seq<Phase>)
    returns (r: Result<seq<string>, AdaptationError>)
    requires |source| == |candidate|
    ensures r.Ok? ==> r.value == ChangedIds(source, candidate)
    ensures r.Ok? ==> forall i :: 0 <= i < |source| ==> SameFields(source[i], candidate[i])
    ensures r.Err? ==> Complains(source, candidate, r.error)
  {
    var changed := [];
    for i := 0 to |source|
      invariant forall j :: 0 <= j < i ==> SameFields(source[j], candidate[j])
      invariant changed == ChangedIds(source[..i], candidate[..i])
    {
      var before, after := source[i], candidate[i];
      if before.id != after.id || KindName(before) != KindName(after) {
        SameKindIff(before, after);
        assert FirstChange(source, candidate, i);
        return Err(IdentityChanged);
      }
      SameKeysIff(before, after);
      if !SameKeys(before, after) {
        assert FirstChange(source, candidate, i);
        return Err(StructureChanged);
      }
      ChangedNext(source, candidate, i);
      if before != after {
        changed := changed + [before.id];
      }
    }
    assert source[..|source|] == source && candidate[..|candidate|] == candidate;
    r := Ok(changed);
  }

  method ValidateGoalOnlyAdaptation(source: Program, candidate: Program)
    returns (r: Result<seq<string>, AdaptationError>)
    ensures r.Ok? <==> SameStructure(source, candidate) && source.phases != candidate.phases
    ensures r.Ok? ==> r.value == ChangedIds(source.phases, candidate.phases)
    ensures r == Err(PhaseCountChanged) <==> |source.phases| != |candidate.phases|
    ensures r == Err(ArrowsChanged) <==> |source.phases| == |candidate.phases| && source.edges != candidate.edges
    ensures r == Err(NothingChanged) <==> source == candidate
    ensures r == Err(IdentityChanged) || r == Err(StructureChanged) ==>
              Complains(source.phases, candidate.phases, r.error)
  {
    if |source.phases| != |candidate.phases| {
      return Err(PhaseCountChanged);
    }
    if source.edges != candidate.edges {
      return Err(ArrowsChanged);
    }
    r := ComparePhases(source.phases, candidate.phases);
    NoChangedIds(source.phases, candidate.phases);
    if r == Ok([]) {
      return Err(NothingChanged);
    }
  }

  // ----- Wording does not matter for scheduling -----

  function WordlessAll(phases: seq<Phase>): (bare: seq<Phase>)
    ensures |bare| == |phases|
    ensures forall i :: 0 <= i < |phases| ==> bare[i] == Wordless(phases[i])
  {
    seq(|phases|, i requires 0 <= i < |phases| => Wordless(phases[i]))
  }

  lemma WordlessIds(phases: seq<Phase>)
    ensures Ids(WordlessAll(phases)) == Ids(phases)
  {}

  lemma WordlessSelect(phases: seq<Phase>, order: seq<string>)
    requires forall id | id in order :: id in Ids(phases)
    ensures Ids(WordlessAll(phases)) == Ids(phases)
    ensures Select(WordlessAll(phases), order) == WordlessAll(Select(phases, order))
  {
    WordlessIds(phases);
  }

  lemma WordlessOrder(p: Program)
    requires Distinct(Ids(p.phases))
    ensures Distinct(Ids(WordlessAll(p.phases)))
    ensures Order(p.(phases := WordlessAll(p.phases))) ==
            match Order(p) case Ok(order) => Ok(WordlessAll(order)) case Err(e) => Err(e)
  {
    WordlessIds(p.phases);
    KahnNames(Ids(p.phases), p.edges);
    if Order(p).Ok? && p.edges != [] {
      WordlessSelect(p.phases, Kahn(Ids(p.phases), p.edges));
    }
  }

  lemma {:induction false} WordlessCost(phases: seq<Phase>)
    ensures TotalCost(WordlessAll(phases)) == TotalCost(phases)
  {
    if phases != [] {
      var n := |phases| - 1;
      assert WordlessAll(phases)[..n] == WordlessAll(phases[..n]);
      WordlessCost(phases[..n]);
    }
  }

  lemma SameBareOrder(source: Program, candidate: Program)
    requires SameStructure(source, candidate) && Distinct(Ids(source.phases)) && Order(source).Ok?
    ensures Distinct(Ids(candidate.phases)) && Order(candidate).Ok?
    ensures WordlessAll(Order(source).value) == WordlessAll(Order(candidate).value)
  {
    SameStructureIff(source, candidate);
    WordlessIds(source.phases);
    WordlessIds(candidate.phases);
    WordlessOrder(source);
    WordlessOrder(candidate);
    assert source.(phases := WordlessAll(source.phases)) == candidate.(phases := WordlessAll(candidate.phases));
  }

  lemma SameBarePhases(source: seq<Phase>, candidate: seq<Phase>)
    requires WordlessAll(source) == WordlessAll(candidate)
    ensures Ids(source) == Ids(candidate) && TotalCost(source) == TotalCost(candidate)
  {
    WordlessIds(source);
    WordlessIds(candidate);
    WordlessCost(source);
    WordlessCost(candidate);
  }

  /** The checks on a program beyond its graph look at the kinds of its phases only. */
  lemma SameBareKinds(source: seq<Phase>, candidate: seq<Phase>)
    requires WordlessAll(source) == WordlessAll(candidate)
    ensures |source| == |candidate|
    ensures source != [] ==> (source[0].Work? <==> candidate[0].Work?)
    ensures NoAdjacentCheckpoints(source) <==> NoAdjacentCheckpoints(candidate)
    ensures (exists phase | phase in source :: phase.Work?) ==> exists phase | phase in candidate :: phase.Work?
  {
    forall i | 0 <= i < |source|
      ensures source[i].Work? <==> candidate[i].Work?
      ensures source[i].Checkpoint? <==> candidate[i].Checkpoint?
    {
      assert Wordless(source[i]) == WordlessAll(source)[i] == Wordless(candidate[i]);
    }
    if phase :| phase in source && phase.Work? {
      var i :| 0 <= i < |source| && source[i] == phase;
      assert candidate[i] in candidate;
    }
  }

  lemma AdaptedProgramIsValid(source: Program, candidate: Program)
    requires Valid(source) && SameStructure(source, candidate)
    ensures Valid(candidate)
    ensures WordlessAll(RunOrder(candidate)) == WordlessAll(RunOrder(source))
  {
    SameBareOrder(source, candidate);
    SameStructureIff(source, candidate);
    SameBareKinds(source.phases, candidate.phases);
    SameBareKinds(Order(source).value, Order(candidate).value);
  }

  /** An adaptation of a valid program is valid, and has its execution order, arrows and turn budget. */
  lemma AdaptedProgramSchedulesAlike(source: Program, candidate: Program)
    requires Valid(source) && SameStructure(source, candidate)
    ensures Valid(candidate)
    ensures Ids(RunOrder(candidate)) == Ids(RunOrder(source))
    ensures WordlessAll(RunOrder(candidate)) == WordlessAll(RunOrder(source))
    ensures candidate.edges == source.edges
    ensures TotalCost(candidate.phases) == TotalCost(source.phases)
  {
    AdaptedProgramIsValid(source, candidate);
    SameStructureIff(source, candidate);
    SameBarePhases(source.phases, candidate.phases);
    SameBarePhases(RunOrder(source), RunOrder(candidate));
  }

  // ----- Wording does not matter for running -----

  function BarePrompt(prompt: Prompt): Prompt {
    match prompt
    case WorkPrompt(_, _, _, _, _, _, _) => prompt.(name := "", goal := "")
    case CommandPrompt(_, _, _, _, _) => prompt.(name := "")
    case VerifyPrompt(_, _, _, _) => prompt.(criteria := "")
  }

  function BareStep(step: Step): Step {
    match step
    case Asked(_, _, _) => step.(question := "")
    case Sent(prompt) => Sent(BarePrompt(prompt))
  }

  function BareTrace(trace: seq<Step>): (bare: seq<Step>)
    ensures |bare| == |trace|
  {
    seq(|trace|, i requires 0 <= i < |trace| => BareStep(trace[i]))
  }

  function BareExecutions(executions: seq<Execution>): (bare: seq<Execution>)
    ensures |bare| == |executions|
  {
    seq(|executions|, i requires 0 <= i < |executions| => executions[i].(name := ""))
  }

  /** A run without the wording it shows or sends. */
  function BareRun(run: Run): Run {
    run.(executions := BareExecutions(run.executions), trace := BareTrace(run.trace))
  }

  function BareNext(next: Next): Next {
    match next
    case Continue(run) => Continue(BareRun(run))
    case Halt(run) => Halt(BareRun(run))
    case Raise(run) => Raise(BareRun(run))
  }

  function BareOutcome(outcome: Outcome): Outcome {
    match outcome
    case Finished(run) => Finished(BareRun(run))
    case Raised(run) => Raised(BareRun(run))
  }

  lemma BareSend(run: Run, prompt: Prompt)
    ensures BareRun(Send(run, prompt)) == Send(BareRun(run), BarePrompt(prompt))
  {
    assert BareTrace(run.trace + [Sent(prompt)]) == BareTrace(run.trace) + [Sent(BarePrompt(prompt))];
  }

  lemma BareLog(run: Run, execution: Execution)
    ensures BareRun(Log(run, execution)) == Log(BareRun(run), execution.(name := ""))
  {
    assert BareExecutions(run.executions + [execution]) == BareExecutions(run.executions) + [execution.(name := "")];
  }

  lemma BareAsk(run: Run, step: Step)
    ensures BareTrace(run.trace + [step]) == BareTrace(run.trace) + [BareStep(step)]
  {}

  lemma BareWork(s: Setup, w: World, phase: Phase, run: Run)
    requires phase.Work?
    ensures RunWork(s, w, Wordless(phase), BareRun(run)) == BareNext(RunWork(s, w, phase, run))
  {
    var prompt := WorkPromptFor(s, phase, run);
    BareSend(run, prompt);
    assert WorkPromptFor(s, Wordless(phase), BareRun(run)) == BarePrompt(prompt);
    var sent := Send(run, prompt).(workCount := run.workCount + 1);
    if NextTurn(w, run).Some? {
      var turn := NextTurn(w, run).value;
      BareLog(Record(sent, turn).(feedback := "", answer := turn.response),
              Execution(phase.id, phase.name, "work", [turn.id],
                        if turn.status == "completed" then "pass" else "stopped", Scoped(phase.scope)));
    }
  }

  lemma BareCheckpoint(w: World, phase: Phase, run: Run)
    requires phase.Checkpoint?
    ensures RunCheckpoint(w, Wordless(phase), BareRun(run)) == BareNext(RunCheckpoint(w, phase, run))
  {
    var resolution := NextResolution(w, run);
    BareAsk(run, Asked(phase.id, phase.question, resolution));
    BareLog(run.(trace := run.trace + [Asked(phase.id, phase.question, resolution)],
                 checkpoints := run.checkpoints + [CheckpointRecord(phase.id, resolution)]),
            Execution(phase.id, phase.name, "checkpoint", [], if Accepted(resolution.decision) then "pass" else "stopped",
                      Decided(resolution.decision, resolution.feedback)));
  }

  lemma BareCommand(w: World, phase: Phase, run: Run)
    requires phase.Command?
    ensures RunCommand(w, Wordless(phase), BareRun(run)) == BareNext(RunCommand(w, phase, run))
  {
    var prompt := CommandPrompt(phase.id, phase.name, phase.stepType, phase.command, phase.expectedExitCode);
    BareSend(run, prompt);
    if NextTurn(w, run).Some? {
      var turn := NextTurn(w, run).value;
      var recorded := Record(Send(run, prompt), turn);
      BareLog(recorded, CommandExecution(phase, turn, "stopped", Observation(false, None, 0)));
      var observation := Observe(turn.events, phase.command, phase.expectedExitCode);
      BareLog(recorded, CommandExecution(phase, turn, "pass", observation));
      BareLog(recorded, CommandExecution(phase, turn, "fail", observation));
    }
  }

  lemma {:induction false} BareAttempts(w: World, phase: Phase, run: Run, attempt: nat, turnIds: seq<string>,
                                        issues: Option<seq<string>>)
    requires phase.Verify? && attempt <= phase.maxRepairs
    ensures RunAttempts(w, Wordless(phase), BareRun(run), attempt, turnIds, issues) ==
            BareNext(RunAttempts(w, phase, run, attempt, turnIds, issues))
    decreases phase.maxRepairs - attempt
  {
    var prompt := VerifyPrompt(phase.id, phase.criteria, run.answer, run.feedback);
    BareSend(run, prompt);
    if NextTurn(w, run).Some? {
      var turn := NextTurn(w, run).value;
      var recorded := Record(Send(run, prompt), turn).(feedback := "");
      BareLog(recorded, VerifyExecution(phase, turnIds + [turn.id], "stopped", issues));
      if turn.verdict.Some? {
        var verdict := turn.verdict.value;
        var judged := Judge(recorded, phase.id, attempt, verdict);
        BareLog(judged, VerifyExecution(phase, turnIds + [turn.id], verdict.status, Some(verdict.issues)));
        if attempt < phase.maxRepairs {
          BareAttempts(w, phase, judged, attempt + 1, turnIds + [turn.id], Some(verdict.issues));
        }
      }
    }
  }

  lemma BarePhase(s: Setup, w: World, phase: Phase, run: Run)
    ensures RunPhase(s, w, Wordless(phase), BareRun(run)) == BareNext(RunPhase(s, w, phase, run))
  {
    match phase
    case Work(_, _, _, _, _, _) => BareWork(s, w, phase, run);
    case Checkpoint(_, _, _, _) => BareCheckpoint(w, phase, run);
    case Command(_, _, _, _, _, _, _) => BareCommand(w, phase, run);
    case Verify(_, _, _, _, _) => BareAttempts(w, phase, run, 0, [], None);
  }

  /** Erasing the wording before a run or after it makes no difference. */
  lemma {:induction false} BareRest(s: Setup, w: World, order: seq<Phase>, k: nat, run: Run)
    requires k <= |order|
    ensures RunFrom(s, w, WordlessAll(order), k, BareRun(run)) == BareOutcome(RunFrom(s, w, order, k, run))
    decreases |order| - k
  {
    if k < |order| {
      BarePhase(s, w, order[k], run);
      var next := RunPhase(s, w, order[k], run);
      if next.Continue? {
        BareRest(s, w, order, k + 1, next.run);
      }
    }
  }

  /** Two outcomes that differ in wording only. */
  ghost predicate AlikeButForWording(a: Outcome, b: Outcome) {
    && (a.Finished? <==> b.Finished?)
    && a.run.status == b.run.status && a.run.answer == b.run.answer
    && a.run.turnIds == b.run.turnIds && a.run.usage == b.run.usage
    && a.run.verification == b.run.verification && a.run.checkpoints == b.run.checkpoints
    && |a.run.executions| == |b.run.executions|
    && (forall i :: 0 <= i < |a.run.executions| ==> AlikeExecutions(a.run.executions[i], b.run.executions[i]))
    && |a.run.trace| == |b.run.trace|
    && (forall i :: 0 <= i < |a.run.trace| ==> BareStep(a.run.trace[i]) == BareStep(b.run.trace[i]))
  }

  predicate AlikeExecutions(e: Execution, f: Execution) {
    e.phaseId == f.phaseId && e.kind == f.kind && e.turnIds == f.turnIds && e.status == f.status && e.detail == f.detail
  }

  lemma BareEqualMeansAlike(a: Outcome, b: Outcome)
    requires BareOutcome(a) == BareOutcome(b)
    ensures AlikeButForWording(a, b)
  {
    var es, fs := a.run.executions, b.run.executions;
    assert BareExecutions(es) == BareExecutions(fs);
    forall i | 0 <= i < |es|
      ensures AlikeExecutions(es[i], fs[i])
    {
      assert BareExecutions(es)[i] == BareExecutions(fs)[i];
    }
    var ts, us := a.run.trace, b.run.trace;
    assert BareTrace(ts) == BareTrace(us);
    forall i | 0 <= i < |ts|
      ensures BareStep(ts[i]) == BareStep(us[i])
    {
      assert BareTrace(ts)[i] == BareTrace(us)[i];
    }
  }

  /** On the same answers, an adapted program runs like its source in everything but wording. */
  lemma AdaptedProgramRunsAlike(source: Program, candidate: Program, s: Setup, w: World)
    requires Valid(source) && SameStructure(source, candidate)
    ensures Valid(candidate)
    ensures AlikeButForWording(RunOf(s, w, RunOrder(source)), RunOf(s, w, RunOrder(candidate)))
  {
    AdaptedProgramSchedulesAlike(source, candidate);
    BareRest(s, w, RunOrder(source), 0, NEW_RUN);
    BareRest(s, w, RunOrder(candidate), 0, NEW_RUN);
    BareEqualMeansAlike(RunOf(s, w, RunOrder(source)), RunOf(s, w, RunOrder(candidate)));
  }
}
