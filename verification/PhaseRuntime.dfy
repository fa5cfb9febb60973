/**
 The phase executor: one pass over a program's dependency order in which every phase either asks a
 person, or sends prompts to the model gateway and reads its answers.  Gateway and person may
 answer anything; the run is a function of their answers.
 */
module PhaseRuntime {
  import opened Lists
  import opened PhasePrograms
  import opened Compiler
  import opened Text

  // ----- What the outside answers -----

  datatype Item = Item(kind: string, command: Option<string>, actions: seq<Option<string>>,
                       exitCode: Option<int>, status: Option<string>)

  datatype Event = Event(topic: string, item: Option<Item>)

  /** The final response read as a command report; absent when it does not parse. */
  datatype Report = Report(executedCommand: string, exitCode: int, summary: string)

  /** The final response read as a verdict; absent when it does not parse. */
  datatype Verdict = Verdict(status: string, answer: string, issues: seq<string>)

  datatype Turn = Turn(id: string, response: string, status: string, usage: Option<int>,
                       events: seq<Event>, report: Option<Report>, verdict: Option<Verdict>)

  datatype Resolution = Resolution(decision: string, feedback: string)

  /**
   All answers of one run, in the order they are consumed.  The gateway raises when its answers run
   out, so every finite gateway behaviour is covered; a checkpoint nobody resolves is declined.
   */
  datatype World = World(turns: seq<Turn>, resolutions: seq<Resolution>)

  datatype Setup = Setup(effort: Effort, excerpts: seq<string>)

  // ----- What the executor sends and records -----

  datatype Prompt =
    | WorkPrompt(phaseId: string, name: string, goal: string, scope: Scope, effort: Effort,
                 memory: Option<seq<string>>, feedback: string)
    | CommandPrompt(phaseId: string, name: string, stepType: StepType, command: string, expectedExitCode: int)
    | VerifyPrompt(phaseId: string, criteria: string, candidate: string, feedback: string)

  datatype Step =
    | Asked(phaseId: string, question: string, resolution: Resolution)
    | Sent(prompt: Prompt)

  datatype Completion = Completed | Stopped | StoppedAtCheckpoint | FailedCheck

  datatype Detail =
    | Decided(decision: string, feedback: string)
    | Scoped(scope: Scope)
    | Checked(observedExitCode: Option<int>, matchingItems: nat)
    | Reviewed(issues: Option<seq<string>>)

  datatype Execution = Execution(phaseId: string, name: string, kind: string, turnIds: seq<string>,
                                 status: string, detail: Detail)

  datatype CheckpointRecord = CheckpointRecord(phaseId: string, resolution: Resolution)

  datatype Verification = Verification(phaseId: string, attempt: nat, status: string, issues: seq<string>)

  datatype Run = Run(answer: string, turnIds: seq<string>, usage: map<string, int>,
                     verification: seq<Verification>, executions: seq<Execution>,
                     checkpoints: seq<CheckpointRecord>, status: Completion,
                     workCount: nat, feedback: string, trace: seq<Step>)

  const NEW_RUN := Run("", [], map[], [], [], [], Completed, 0, "", [])

  /** How a phase leaves the run: the loop goes on, the loop breaks, or an exception escapes. */
  datatype Next = Continue(run: Run) | Halt(run: Run) | Raise(run: Run)

  datatype Outcome = Finished(run: Run) | Raised(run: Run)

  // ----- Observed commands -----

  function Candidates(item: Item): seq<string> {
    (if item.command.Some? then [item.command.value] else []) + ActionCommands(item.actions)
  }

  function ActionCommands(actions: seq<Option<string>>): seq<string> {
    if actions == [] then []
    else (if actions[0].Some? then [actions[0].value] else []) + ActionCommands(actions[1..])
  }

  /** The event completes a command execution that carries the requested command. */
  predicate Matches(event: Event, requested: string) {
    && event.topic == "item/completed"
    && event.item.Some?
    && event.item.value.kind == "commandExecution"
    && exists c | c in Candidates(event.item.value) :: NormalizeSpace(c) == NormalizeSpace(requested)
  }

  datatype Observation = Observation(passed: bool, exitCode: Option<int>, matchingItems: nat)

  function MatchingItems(events: seq<Event>, requested: string): seq<Item> {
    if events == [] then []
    else
      var last := events[|events| - 1];
      MatchingItems(events[..|events| - 1], requested)
      + if Matches(last, requested) then [last.item.value] else []
  }

  function Observe(events: seq<Event>, requested: string, expected: int): Observation {
    var observed := MatchingItems(events, requested);
    if |observed| != 1 then Observation(false, None, |observed|)
    else Observation(observed[0].exitCode == Some(expected) && observed[0].status == Some("completed"),
                     observed[0].exitCode, 1)
  }

  method ObservedCommandResult(events: seq<Event>, requested: string, expected: int) returns (r: Observation)
    ensures r == Observe(events, requested, expected)
  {
    var observed := [];
    for i := 0 to |events|
      invariant observed == MatchingItems(events[..i], requested)
    {
      assert events[..i + 1][..i] == events[..i];
      if Matches(events[i], requested) {
        observed := observed + [events[i].item.value];
      }
    }
    assert events[..|events|] == events;
    if |observed| == 1 {
      var item := observed[0];
      r := Observation(item.exitCode == Some(expected) && item.status == Some("completed"), item.exitCode, 1);
    } else {
      r := Observation(false, None, |observed|);
    }
  }

  /** The event completes a command execution whose text, or one of whose actions, is the command up to spacing. */
  ghost predicate CarriesCommand(event: Event, requested: string) {
    && event.topic == "item/completed" && event.item.Some? && event.item.value.kind == "commandExecution"
    && var item := event.item.value;
       || (item.command.Some? && Words(item.command.value) == Words(requested))
       || exists i :: 0 <= i < |item.actions| && item.actions[i].Some? && Words(item.actions[i].value) == Words(requested)
  }

  /** Exactly one completed item carries the requested command, and it ended as expected. */
  ghost predicate SoleEvidence(events: seq<Event>, requested: string, expected: int) {
    exists i ::
      && 0 <= i < |events| && CarriesCommand(events[i], requested) && EndedAsExpected(events[i], expected)
      && forall j :: 0 <= j < |events| && CarriesCommand(events[j], requested) ==> j == i
  }

  lemma {:induction false} ActionCommandsIff(actions: seq<Option<string>>, text: string)
    ensures text in ActionCommands(actions) <==> exists i :: 0 <= i < |actions| && actions[i] == Some(text)
  {
    if actions != [] {
      ActionCommandsIff(actions[1..], text);
      if i :| 0 <= i < |actions| && actions[i] == Some(text) {
        assert i > 0 ==> actions[1..][i - 1] == Some(text);
      }
      if i :| 0 <= i < |actions[1..]| && actions[1..][i] == Some(text) {
        assert actions[i + 1] == Some(text);
      }
    }
  }

  lemma MatchesIff(event: Event, requested: string)
    ensures Matches(event, requested) <==> CarriesCommand(event, requested)
  {
    if event.item.Some? {
      var item := event.item.value;
      forall text
        ensures NormalizeSpace(text) == NormalizeSpace(requested) <==> Words(text) == Words(requested)
        ensures text in Candidates(item) <==>
                item.command == Some(text) || exists i :: 0 <= i < |item.actions| && item.actions[i] == Some(text)
      {
        NormalizeSpaceIff(text, requested);
        ActionCommandsIff(item.actions, text);
      }
      if c :| c in Candidates(item) && Words(c) == Words(requested) {
        assert item.command == Some(c) || exists i :: 0 <= i < |item.actions| && item.actions[i] == Some(c);
      }
      if i :| 0 <= i < |item.actions| && item.actions[i].Some? && Words(item.actions[i].value) == Words(requested) {
        assert item.actions[i].value in Candidates(item);
      }
    }
  }

  ghost predicate SoleMatch(events: seq<Event>, requested: string, i: int) {
    && 0 <= i < |events| && Matches(events[i], requested)
    && forall j :: 0 <= j < |events| && Matches(events[j], requested) ==> j == i
  }

  predicate EndedAsExpected(event: Event, expected: int) {
    event.item.Some? && event.item.value.exitCode == Some(expected) && event.item.value.status == Some("completed")
  }

  ghost predicate NoMatch(events: seq<Event>, requested: string) {
    forall j :: 0 <= j < |events| ==> !Matches(events[j], requested)
  }

  lemma {:induction false} NothingMatches(events: seq<Event>, requested: string)
    ensures MatchingItems(events, requested) == [] <==> NoMatch(events, requested)
  {
    if events != [] {
      var n := |events| - 1;
      NothingMatches(events[..n], requested);
      assert NoMatch(events, requested) <==> NoMatch(events[..n], requested) && !Matches(events[n], requested);
    }
  }

  lemma SoleMatchInit(events: seq<Event>, requested: string, i: int)
    requires events != [] && i < |events| - 1
    ensures var n := |events| - 1;
            SoleMatch(events, requested, i) <==> SoleMatch(events[..n], requested, i) && !Matches(events[n], requested)
  {
    var n := |events| - 1;
    assert forall j :: 0 <= j < n ==> events[..n][j] == events[j];
  }

  lemma SoleMatchLast(events: seq<Event>, requested: string)
    requires events != []
    ensures var n := |events| - 1;
            SoleMatch(events, requested, n) <==> NoMatch(events[..n], requested) && Matches(events[n], requested)
  {
    var n := |events| - 1;
    assert forall j :: 0 <= j < n ==> events[..n][j] == events[j];
  }

  lemma {:induction false} SoleMatchIsFound(events: seq<Event>, requested: string, i: int)
    requires SoleMatch(events, requested, i)
    ensures MatchingItems(events, requested) == [events[i].item.value]
  {
    var n := |events| - 1;
    if i == n {
      SoleMatchLast(events, requested);
      NothingMatches(events[..n], requested);
    } else {
      SoleMatchInit(events, requested, i);
      SoleMatchIsFound(events[..n], requested, i);
    }
  }

  lemma {:induction false} OneItemIsSoleMatch(events: seq<Event>, requested: string) returns (i: int)
    requires |MatchingItems(events, requested)| == 1
    ensures SoleMatch(events, requested, i)
  {
    var n := |events| - 1;
    if Matches(events[n], requested) {
      i := n;
      NothingMatches(events[..n], requested);
      SoleMatchLast(events, requested);
    } else {
      i := OneItemIsSoleMatch(events[..n], requested);
      SoleMatchInit(events, requested, i);
    }
  }

  lemma SoleEvidenceIff(events: seq<Event>, requested: string, expected: int)
    ensures SoleEvidence(events, requested, expected) <==>
            exists i :: SoleMatch(events, requested, i) && EndedAsExpected(events[i], expected)
  {
    forall i | 0 <= i < |events|
      ensures Matches(events[i], requested) <==> CarriesCommand(events[i], requested)
    {
      MatchesIff(events[i], requested);
    }
    if i :| SoleMatch(events, requested, i) && EndedAsExpected(events[i], expected) {
      assert CarriesCommand(events[i], requested);
    }
    if SoleEvidence(events, requested, expected) {
      var i :| 0 <= i < |events| && CarriesCommand(events[i], requested) && EndedAsExpected(events[i], expected)
               && forall j :: 0 <= j < |events| && CarriesCommand(events[j], requested) ==> j == i;
      assert SoleMatch(events, requested, i);
    }
  }

  /** A check passes exactly when there is one matching item and it ended as expected: it fails closed. */
  lemma ObservedPassIff(events: seq<Event>, requested: string, expected: int)
    ensures Observe(events, requested, expected).passed <==> SoleEvidence(events, requested, expected)
  {
    SoleEvidenceIff(events, requested, expected);
    if |MatchingItems(events, requested)| == 1 {
      var i := OneItemIsSoleMatch(events, requested);
      SoleMatchIsFound(events, requested, i);
    }
    if i :| SoleMatch(events, requested, i) && EndedAsExpected(events[i], expected) {
      SoleMatchIsFound(events, requested, i);
    }
  }

  /** Where the requested command was seen. */
  ghost function Carriers(events: seq<Event>, requested: string): set<int> {
    set i | 0 <= i < |events| && CarriesCommand(events[i], requested)
  }

  lemma {:induction false} CarriersAreCounted(events: seq<Event>, requested: string)
    ensures |MatchingItems(events, requested)| == |Carriers(events, requested)|
  {
    if events != [] {
      var n := |events| - 1;
      CarriersAreCounted(events[..n], requested);
      MatchesIff(events[n], requested);
      assert Carriers(events, requested) ==
             Carriers(events[..n], requested) + if CarriesCommand(events[n], requested) then {n} else {};
    }
  }

  /** The observation counts the items that carry the command, and reports the exit code of the only one. */
  lemma ObservationSays(events: seq<Event>, requested: string, expected: int)
    ensures var o, carriers := Observe(events, requested, expected), Carriers(events, requested);
            && o.matchingItems == |carriers|
            && (|carriers| != 1 ==> o.exitCode == None)
            && forall i :: carriers == {i} ==> o.exitCode == events[i].item.value.exitCode
  {
    CarriersAreCounted(events, requested);
    var carriers := Carriers(events, requested);
    forall i | carriers == {i}
      ensures Observe(events, requested, expected).exitCode == events[i].item.value.exitCode
    {
      assert i in carriers;
      forall j | 0 <= j < |events|
        ensures Matches(events[j], requested) <==> j == i
      {
        MatchesIff(events[j], requested);
        assert j in carriers <==> CarriesCommand(events[j], requested);
      }
      assert SoleMatch(events, requested, i);
      SoleMatchIsFound(events, requested, i);
    }
  }

  // ----- One phase -----

  predicate Accepted(decision: string) {
    decision == "accept" || decision == "acceptForSession"
  }

  function NextTurn(w: World, run: Run): Option<Turn> {
    if |run.turnIds| < |w.turns| then Some(w.turns[|run.turnIds|]) else None
  }

  function NextResolution(w: World, run: Run): Resolution {
    if |run.checkpoints| < |w.resolutions| then w.resolutions[|run.checkpoints|]
    else Resolution("decline", "")
  }

  function Record(run: Run, turn: Turn): Run {
    run.(turnIds := run.turnIds + [turn.id],
         usage := if turn.usage.Some? then run.usage[turn.id := turn.usage.value] else run.usage)
  }

  function Send(run: Run, prompt: Prompt): Run {
    run.(trace := run.trace + [Sent(prompt)])
  }

  function Log(run: Run, execution: Execution): Run {
    run.(executions := run.executions + [execution])
  }

  function RunCheckpoint(w: World, phase: Phase, run: Run): Next
    requires phase.Checkpoint?
  {
    var resolution := NextResolution(w, run);
    var accepted := Accepted(resolution.decision);
    var asked := run.(trace := run.trace + [Asked(phase.id, phase.question, resolution)],
                      checkpoints := run.checkpoints + [CheckpointRecord(phase.id, resolution)]);
    var logged := Log(asked, Execution(phase.id, phase.name, "checkpoint", [],
                                       if accepted then "pass" else "stopped",
                                       Decided(resolution.decision, resolution.feedback)));
    if accepted then Continue(logged.(feedback := resolution.feedback))
    else Halt(logged.(status := StoppedAtCheckpoint))
  }

  function WorkPromptFor(s: Setup, phase: Phase, run: Run): Prompt
    requires phase.Work?
  {
    WorkPrompt(phase.id, phase.name, phase.goal, phase.scope,
               if phase.effort == Inherit then s.effort else phase.effort,
               if run.workCount == 0 then Some(s.excerpts) else None,
               run.feedback)
  }

  function RunWork(s: Setup, w: World, phase: Phase, run: Run): Next
    requires phase.Work?
  {
    var sent := Send(run, WorkPromptFor(s, phase, run)).(workCount := run.workCount + 1);
    match NextTurn(w, run)
    case None => Raise(sent)
    case Some(turn) =>
      var done := turn.status == "completed";
      var run' := Log(Record(sent, turn).(feedback := "", answer := turn.response),
                      Execution(phase.id, phase.name, "work", [turn.id],
                                if done then "pass" else "stopped", Scoped(phase.scope)));
      if done then Continue(run') else Halt(run'.(status := Stopped))
  }

  predicate ReportAgrees(phase: Phase, report: Report)
    requires phase.Command?
  {
    && NormalizeSpace(report.executedCommand) == NormalizeSpace(phase.command)
    && report.exitCode == phase.expectedExitCode
  }

  function CommandExecution(phase: Phase, turn: Turn, status: string, observation: Observation): Execution
    requires phase.Command?
  {
    Execution(phase.id, phase.name, "command", [turn.id], status,
              Checked(observation.exitCode, observation.matchingItems))
  }

  function RunCommand(w: World, phase: Phase, run: Run): Next
    requires phase.Command?
  {
    var sent := Send(run, CommandPrompt(phase.id, phase.name, phase.stepType, phase.command, phase.expectedExitCode));
    match NextTurn(w, run)
    case None => Raise(sent)
    case Some(turn) =>
      var recorded := Record(sent, turn);
      if turn.status != "completed" then
        Halt(Log(recorded, CommandExecution(phase, turn, "stopped", Observation(false, None, 0)))
             .(status := if phase.stopOnFailure then FailedCheck else Stopped))
      else if turn.report.None? then Raise(recorded)
      else
        var observation := Observe(turn.events, phase.command, phase.expectedExitCode);
        var passed := observation.passed && ReportAgrees(phase, turn.report.value);
        var run' := Log(recorded, CommandExecution(phase, turn, if passed then "pass" else "fail", observation));
        if !passed && phase.stopOnFailure then Halt(run'.(status := FailedCheck)) else Continue(run')
  }

  function VerifyExecution(phase: Phase, turnIds: seq<string>, status: string, issues: Option<seq<string>>): Execution
    requires phase.Verify?
  {
    Execution(phase.id, phase.name, "verify", turnIds, status, Reviewed(issues))
  }

  /** Attempts `attempt`, `attempt + 1`, ... of a verification, until one passes or none is left. */
  function RunAttempts(w: World, phase: Phase, run: Run, attempt: nat, turnIds: seq<string>,
                       issues: Option<seq<string>>): Next
    requires phase.Verify? && attempt <= phase.maxRepairs
    decreases phase.maxRepairs - attempt
  {
    var sent := Send(run, VerifyPrompt(phase.id, phase.criteria, run.answer, run.feedback));
    match NextTurn(w, run)
    case None => Raise(sent)
    case Some(turn) =>
      var recorded := Record(sent, turn).(feedback := "");
      var turnIds' := turnIds + [turn.id];
      if turn.status != "completed" then
        Halt(Log(recorded, VerifyExecution(phase, turnIds', "stopped", issues)).(status := Stopped))
      else if turn.verdict.None? then Raise(recorded)
      else
        var verdict := turn.verdict.value;
        var judged := Judge(recorded, phase.id, attempt, verdict);
        if verdict.status == "pass" || attempt == phase.maxRepairs then
          Continue(Log(judged, VerifyExecution(phase, turnIds', verdict.status, Some(verdict.issues))))
        else
          RunAttempts(w, phase, judged, attempt + 1, turnIds', Some(verdict.issues))
  }

  function Judge(run: Run, phaseId: string, attempt: nat, verdict: Verdict): Run {
    run.(answer := verdict.answer,
         verification := run.verification + [Verification(phaseId, attempt + 1, verdict.status, verdict.issues)])
  }

  function RunPhase(s: Setup, w: World, phase: Phase, run: Run): Next {
    match phase
    case Work(_, _, _, _, _, _) => RunWork(s, w, phase, run)
    case Checkpoint(_, _, _, _) => RunCheckpoint(w, phase, run)
    case Command(_, _, _, _, _, _, _) => RunCommand(w, phase, run)
    case Verify(_, _, _, _, _) => RunAttempts(w, phase, run, 0, [], None)
  }

  // ----- The whole run -----

  function RunFrom(s: Setup, w: World, order: seq<Phase>, k: nat, run: Run): Outcome
    requires k <= |order|
    decreases |order| - k
  {
    if k == |order| then Finished(run)
    else match RunPhase(s, w, order[k], run)
      case Continue(run') => RunFrom(s, w, order, k + 1, run')
      case Halt(run') => Finished(run')
      case Raise(run') => Raised(run')
  }

  function RunOf(s: Setup, w: World, order: seq<Phase>): Outcome {
    RunFrom(s, w, order, 0, NEW_RUN)
  }

  // ----- The executor, step by step -----

  method ExecuteVerify(w: World, phase: Phase, run0: Run) returns (next: Next)
    requires phase.Verify?
    ensures next == RunAttempts(w, phase, run0, 0, [], None)
  {
    var run, turnIds, issues := run0, [], None;
    for attempt := 0 to 1 + phase.maxRepairs
      invariant attempt <= phase.maxRepairs ==>
                  RunAttempts(w, phase, run0, 0, [], None) == RunAttempts(w, phase, run, attempt, turnIds, issues)
      invariant attempt > phase.maxRepairs ==> false
    {
      run := Send(run, VerifyPrompt(phase.id, phase.criteria, run.answer, run.feedback));
      var answer := NextTurn(w, run);
      if answer.None? {
        return Raise(run);
      }
      var turn := answer.value;
      run := Record(run, turn).(feedback := "");
      turnIds := turnIds + [turn.id];
      if turn.status != "completed" {
        return Halt(Log(run, VerifyExecution(phase, turnIds, "stopped", issues)).(status := Stopped));
      }
      if turn.verdict.None? {
        return Raise(run);
      }
      var verdict := turn.verdict.value;
      issues := Some(verdict.issues);
      run := Judge(run, phase.id, attempt, verdict);
      if verdict.status == "pass" || attempt == phase.maxRepairs {
        return Continue(Log(run, VerifyExecution(phase, turnIds, verdict.status, issues)));
      }
    }
    assert false;
  }

  method ExecuteCommand(w: World, phase: Phase, run0: Run) returns (next: Next)
    requires phase.Command?
    ensures next == RunCommand(w, phase, run0)
  {
    var run := Send(run0, CommandPrompt(phase.id, phase.name, phase.stepType, phase.command, phase.expectedExitCode));
    var answer := NextTurn(w, run);
    if answer.None? {
      return Raise(run);
    }
    var turn := answer.value;
    run := Record(run, turn);
    var stop, passed, execution := false, false, CommandExecution(phase, turn, "stopped", Observation(false, None, 0));
    if turn.status != "completed" {
      run := run.(status := Stopped);
      stop := true;
    } else {
      if turn.report.None? {
        return Raise(run);
      }
      var observation := ObservedCommandResult(turn.events, phase.command, phase.expectedExitCode);
      passed := observation.passed && ReportAgrees(phase, turn.report.value);
      execution := CommandExecution(phase, turn, if passed then "pass" else "fail", observation);
    }
    if !passed && phase.stopOnFailure {
      run := run.(status := FailedCheck);
      stop := true;
    }
    run := Log(run, execution);
    next := if stop then Halt(run) else Continue(run);
  }

  method ExecutePhaseProgram(p: Program, s: Setup, w: World) returns (outcome: Outcome)
    requires Valid(p)
    ensures outcome == RunOf(s, w, RunOrder(p))
  {
    var ordered := OrderedPhases(p);
    outcome := ExecuteOrder(ordered.value, s, w);
  }

  method ExecuteOrder(order: seq<Phase>, s: Setup, w: World) returns (outcome: Outcome)
    ensures outcome == RunOf(s, w, order)
  {
    var run := NEW_RUN;
    for k := 0 to |order|
      invariant RunFrom(s, w, order, 0, NEW_RUN) == RunFrom(s, w, order, k, run)
    {
      var phase := order[k];
      var next;
      match phase {
        case Work(_, _, _, _, _, _) => next := RunWork(s, w, phase, run);
        case Checkpoint(_, _, _, _) => next := RunCheckpoint(w, phase, run);
        case Command(_, _, _, _, _, _, _) => next := ExecuteCommand(w, phase, run);
        case Verify(_, _, _, _, _) => next := ExecuteVerify(w, phase, run);
      }
      run := next.run;
      if next.Raise? {
        return Raised(run);
      }
      if next.Halt? {
        return Finished(run);
      }
    }
    outcome := Finished(run);
  }
}
