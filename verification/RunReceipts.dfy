/**
 What a run's receipt proves.  For all answers of the gateway and of the people at checkpoints:
 the executions are a prefix of the dependency order, each is justified by exactly the turns it
 consumed, and the last one explains how the run ended.
 */
module RunReceipts {
  import opened Lists
  import opened Graphs
  import opened PhasePrograms
  import opened Compiler
  import opened PhaseRuntime
  import opened Text

  // ----- Which turns belong to which execution -----

  function AllTurnIds(executions: seq<Execution>): seq<string> {
    if executions == [] then []
    else AllTurnIds(executions[..|executions| - 1]) + executions[|executions| - 1].turnIds
  }

  function TurnIdsOf(turns: seq<Turn>): (ids: seq<string>)
    ensures |ids| == |turns|
  {
    seq(|turns|, i requires 0 <= i < |turns| => turns[i].id)
  }

  function Offset(executions: seq<Execution>, i: nat): nat
    requires i <= |executions|
  {
    |AllTurnIds(executions[..i])|
  }

  lemma OffsetStep(executions: seq<Execution>, i: nat)
    requires i < |executions|
    ensures Offset(executions, i + 1) == Offset(executions, i) + |executions[i].turnIds|
  {
    assert executions[..i + 1][..i] == executions[..i];
  }

  // ----- Which answer belongs to which checkpoint -----

  /** What the person answers to checkpoint question `c` of a run: nobody answering is a decline. */
  function AnswerTo(w: World, c: nat): Resolution {
    if c >= |w.resolutions| then Resolution("decline", "") else w.resolutions[c]
  }

  /** The checkpoints among the phases, each with the person's answer to it. */
  function Answered(w: World, phases: seq<Phase>): seq<CheckpointRecord> {
    if phases == [] then []
    else
      var n := |phases| - 1;
      var before := Answered(w, phases[..n]);
      if phases[n].Checkpoint? then before + [CheckpointRecord(phases[n].id, AnswerTo(w, |before|))] else before
  }

  /** The person's answer to the checkpoint at place `i` of the order. */
  function AnswerAt(w: World, order: seq<Phase>, i: nat): Resolution
    requires i < |order|
  {
    AnswerTo(w, |Answered(w, order[..i])|)
  }

  lemma AnsweredNext(w: World, order: seq<Phase>, i: nat)
    requires i < |order|
    ensures Answered(w, order[..i + 1]) ==
            Answered(w, order[..i])
            + if order[i].Checkpoint? then [CheckpointRecord(order[i].id, AnswerAt(w, order, i))] else []
  {
    assert order[..i + 1][..i] == order[..i];
  }

  // ----- What justifies an execution -----

  /** The person lets the run go on. */
  predicate Agrees(answer: Resolution) {
    answer.decision in ["accept", "acceptForSession"]
  }

  /** The command ran once, was observed, ended as expected, and the report agrees. */
  ghost predicate CommandProven(phase: Phase, turn: Turn)
    requires phase.Command?
  {
    && turn.status == "completed"
    && turn.report.Some?
    && SoleEvidence(turn.events, phase.command, phase.expectedExitCode)
    && Words(turn.report.value.executedCommand) == Words(phase.command)
    && turn.report.value.exitCode == phase.expectedExitCode
  }

  predicate AskedForRepair(turn: Turn) {
    turn.status == "completed" && turn.verdict.Some? && turn.verdict.value.status != "pass"
  }

  ghost predicate VerifyHistory(phase: Phase, status: string, turns: seq<Turn>)
    requires phase.Verify? && turns != []
  {
    var last := turns[|turns| - 1];
    && (forall i :: 0 <= i < |turns| - 1 ==> AskedForRepair(turns[i]))
    && if last.status != "completed" then status == "stopped"
       else && last.verdict.Some? && status == last.verdict.value.status
            && (status == "pass" || |turns| == 1 + phase.maxRepairs)
  }

  /** The issues of the latest verdict that counted. */
  function LatestIssues(turns: seq<Turn>): Option<seq<string>>
    requires turns != []
  {
    var n := |turns| - 1;
    if turns[n].status == "completed" && turns[n].verdict.Some? then Some(turns[n].verdict.value.issues)
    else if n > 0 && turns[n - 1].verdict.Some? then Some(turns[n - 1].verdict.value.issues)
    else None
  }

  /** The detail of a command: how often its command was seen and how the only item ended. */
  ghost predicate ChecksOut(detail: Detail, events: seq<Event>, command: string) {
    var carriers := Carriers(events, command);
    && detail.Checked? && detail.matchingItems == |carriers|
    && (|carriers| != 1 ==> detail.observedExitCode == None)
    && forall i :: carriers == {i} ==> detail.observedExitCode == events[i].item.value.exitCode
  }

  /** The execution of a phase, given the turns it consumed and the person's answer if it is a checkpoint. */
  ghost predicate Justified(phase: Phase, e: Execution, turns: seq<Turn>, answer: Resolution) {
    && e.phaseId == phase.id && e.name == phase.name && e.kind == KindName(phase)
    && e.turnIds == TurnIdsOf(turns)
    && match phase
       case Checkpoint(_, _, _, _) =>
         && turns == []
         && e.detail == Decided(answer.decision, answer.feedback)
         && e.status == if Agrees(answer) then "pass" else "stopped"
       case Work(_, _, _, _, _, _) =>
         && |turns| == 1 && e.detail == Scoped(phase.scope)
         && e.status == if turns[0].status == "completed" then "pass" else "stopped"
       case Command(_, _, _, command, _, _, _) =>
         && |turns| == 1
         && (if turns[0].status == "completed" then ChecksOut(e.detail, turns[0].events, command)
             else e.detail == Checked(None, 0))
         && e.status == (if CommandProven(phase, turns[0]) then "pass"
                         else if turns[0].status == "completed" then "fail" else "stopped")
       case Verify(_, _, _, maxRepairs, _) =>
         && 1 <= |turns| <= 1 + maxRepairs && e.detail == Reviewed(LatestIssues(turns))
         && VerifyHistory(phase, e.status, turns)
  }

  /** The execution is one after which the run may not go on. */
  ghost predicate Stops(phase: Phase, e: Execution, turns: seq<Turn>, answer: Resolution)
    requires Justified(phase, e, turns, answer)
  {
    match phase
    case Checkpoint(_, _, _, _) => !Agrees(answer)
    case Command(_, _, _, _, _, stopOnFailure, _) =>
      turns[0].status != "completed" || (stopOnFailure && !CommandProven(phase, turns[0]))
    case _ => turns[|turns| - 1].status != "completed"
  }

  function StopStatus(phase: Phase): Completion {
    match phase
    case Checkpoint(_, _, _, _) => StoppedAtCheckpoint
    case Command(_, _, _, _, _, stopOnFailure, _) => if stopOnFailure then FailedCheck else Stopped
    case _ => Stopped
  }

  // ----- One phase adds one justified execution -----

  /** The verdicts of the turns, numbered from one; a turn without one leaves an empty record. */
  function NumberedVerdicts(phaseId: string, turns: seq<Turn>): (verdicts: seq<Verification>)
    ensures |verdicts| == |turns|
  {
    seq(|turns|, i requires 0 <= i < |turns| =>
      if turns[i].verdict.None? then Verification(phaseId, i + 1, "", [])
      else Verification(phaseId, i + 1, turns[i].verdict.value.status, turns[i].verdict.value.issues))
  }

  /** The verdicts a phase adds to the run: those of its completed turns, numbered from one. */
  ghost function VerdictsOf(phase: Phase, e: Execution, turns: seq<Turn>, answer: Resolution): seq<Verification>
    requires Justified(phase, e, turns, answer)
  {
    if !phase.Verify? then []
    else
      var n := |turns| - 1;
      NumberedVerdicts(phase.id, if turns[n].status == "completed" then turns else turns[..n])
  }

  ghost predicate AddsExecution(w: World, phase: Phase, run: Run, next: Next, start: nat) {
    var run' := next.run;
    && start <= |run.turnIds| && start <= |run'.turnIds| <= |w.turns|
    && |run'.executions| == |run.executions| + 1
    && var e := run'.executions[|run.executions|];
       var turns, answer := w.turns[start..|run'.turnIds|], AnswerTo(w, |run.checkpoints|);
       && run'.executions == run.executions + [e]
       && run'.turnIds == run.turnIds[..start] + e.turnIds
       && Justified(phase, e, turns, answer)
       && (next.Halt? <==> Stops(phase, e, turns, answer))
       && run'.checkpoints ==
          run.checkpoints + (if phase.Checkpoint? then [CheckpointRecord(phase.id, answer)] else [])
       && run'.status == (if next.Halt? then StopStatus(phase) else run.status)
       && |run.turnIds| - start <= |run.verification|
       && run'.verification ==
          run.verification[..|run.verification| - (|run.turnIds| - start)] + VerdictsOf(phase, e, turns, answer)
  }

  lemma WorkAdds(s: Setup, w: World, phase: Phase, run: Run)
    requires phase.Work? && !RunWork(s, w, phase, run).Raise?
    ensures AddsExecution(w, phase, run, RunWork(s, w, phase, run), |run.turnIds|)
  {
    var turn := w.turns[|run.turnIds|];
    assert w.turns[|run.turnIds|..|run.turnIds| + 1] == [turn];
  }

  lemma CheckpointAdds(w: World, phase: Phase, run: Run)
    requires phase.Checkpoint? && |run.turnIds| <= |w.turns|
    ensures AddsExecution(w, phase, run, RunCheckpoint(w, phase, run), |run.turnIds|)
  {
  }

  lemma CommandVerdict(phase: Phase, turn: Turn)
    requires phase.Command? && turn.status == "completed" && turn.report.Some?
    ensures var o := Observe(turn.events, phase.command, phase.expectedExitCode);
            && (o.passed && ReportAgrees(phase, turn.report.value) <==> CommandProven(phase, turn))
            && ChecksOut(Checked(o.exitCode, o.matchingItems), turn.events, phase.command)
  {
    ObservedPassIff(turn.events, phase.command, phase.expectedExitCode);
    ObservationSays(turn.events, phase.command, phase.expectedExitCode);
    NormalizeSpaceIff(turn.report.value.executedCommand, phase.command);
  }

  lemma CommandAdds(w: World, phase: Phase, run: Run)
    requires phase.Command? && !RunCommand(w, phase, run).Raise?
    ensures AddsExecution(w, phase, run, RunCommand(w, phase, run), |run.turnIds|)
  {
    var turn := w.turns[|run.turnIds|];
    assert w.turns[|run.turnIds|..|run.turnIds| + 1] == [turn];
    if turn.status == "completed" {
      CommandVerdict(phase, turn);
    }
  }

  /** The turns spent on earlier attempts of this verification. */
  ghost predicate EarlierAttempts(w: World, phase: Phase, run: Run, attempt: nat, turnIds: seq<string>,
                                  issues: Option<seq<string>>, start: nat)
  {
    && start + attempt == |run.turnIds| <= |w.turns|
    && turnIds == TurnIdsOf(w.turns[start..start + attempt])
    && run.turnIds == run.turnIds[..start] + turnIds
    && (forall i :: start <= i < start + attempt ==> AskedForRepair(w.turns[i]))
    && issues == (if attempt == 0 then None else Some(w.turns[start + attempt - 1].verdict.value.issues))
    && attempt <= |run.verification|
    && run.verification[|run.verification| - attempt..] == NumberedVerdicts(phase.id, w.turns[start..start + attempt])
  }

  function AfterRepair(phase: Phase, run: Run, turn: Turn, attempt: nat): Run
    requires phase.Verify? && turn.verdict.Some?
  {
    var sent := Send(run, VerifyPrompt(phase.id, phase.criteria, run.answer, run.feedback));
    Judge(Record(sent, turn).(feedback := ""), phase.id, attempt, turn.verdict.value)
  }

  lemma OneMoreVerdict(phaseId: string, turns: seq<Turn>, turn: Turn, before: seq<Verification>)
    requires turn.verdict.Some?
    requires |turns| <= |before| && before[|before| - |turns|..] == NumberedVerdicts(phaseId, turns)
    ensures var record := Verification(phaseId, |turns| + 1, turn.verdict.value.status, turn.verdict.value.issues);
            before + [record] == before[..|before| - |turns|] + NumberedVerdicts(phaseId, turns + [turn])
  {
    var head := before[..|before| - |turns|];
    var record := Verification(phaseId, |turns| + 1, turn.verdict.value.status, turn.verdict.value.issues);
    assert before == head + NumberedVerdicts(phaseId, turns);
    assert NumberedVerdicts(phaseId, turns + [turn]) == NumberedVerdicts(phaseId, turns) + [record];
  }

  lemma OneMoreRecorded(w: World, phase: Phase, run: Run, run': Run, attempt: nat, turnIds: seq<string>,
                        issues: Option<seq<string>>, start: nat)
    requires EarlierAttempts(w, phase, run, attempt, turnIds, issues, start) && |run.turnIds| < |w.turns|
    requires AskedForRepair(w.turns[|run.turnIds|])
    requires run'.turnIds == run.turnIds + [w.turns[|run.turnIds|].id]
    requires var verdict := w.turns[|run.turnIds|].verdict.value;
             run'.verification == run.verification + [Verification(phase.id, attempt + 1, verdict.status, verdict.issues)]
    ensures var turn := w.turns[|run.turnIds|];
            EarlierAttempts(w, phase, run', attempt + 1, turnIds + [turn.id], Some(turn.verdict.value.issues), start)
  {
    var turn, earlier := w.turns[|run.turnIds|], w.turns[start..|run.turnIds|];
    assert w.turns[start..|run.turnIds| + 1] == earlier + [turn];
    assert TurnIdsOf(earlier + [turn]) == turnIds + [turn.id];
    assert run'.turnIds[..start] == run.turnIds[..start];
    OneMoreVerdict(phase.id, earlier, turn, run.verification);
  }

  lemma OneMoreAttempt(w: World, phase: Phase, run: Run, attempt: nat, turnIds: seq<string>,
                       issues: Option<seq<string>>, start: nat)
    requires phase.Verify? && EarlierAttempts(w, phase, run, attempt, turnIds, issues, start) && |run.turnIds| < |w.turns|
    requires AskedForRepair(w.turns[|run.turnIds|])
    ensures var turn := w.turns[|run.turnIds|];
            EarlierAttempts(w, phase, AfterRepair(phase, run, turn, attempt), attempt + 1, turnIds + [turn.id],
                            Some(turn.verdict.value.issues), start)
  {
    OneMoreRecorded(w, phase, run, AfterRepair(phase, run, w.turns[|run.turnIds|], attempt), attempt, turnIds, issues, start);
  }

  lemma LastTurnHistory(w: World, phase: Phase, start: nat, n: nat, issues: Option<seq<string>>)
    requires phase.Verify? && start <= n < |w.turns| && n - start <= phase.maxRepairs
    requires forall i :: start <= i < n ==> AskedForRepair(w.turns[i])
    requires n > start ==> AskedForRepair(w.turns[n - 1])
    requires issues == if n == start then None else Some(w.turns[n - 1].verdict.value.issues)
    requires w.turns[n].status == "completed" ==> w.turns[n].verdict.Some?
    requires !AskedForRepair(w.turns[n]) || n - start == phase.maxRepairs
    ensures var turns, last := w.turns[start..n + 1], w.turns[n];
            && VerifyHistory(phase, if last.status == "completed" then last.verdict.value.status else "stopped", turns)
            && LatestIssues(turns) == if last.status == "completed" then Some(last.verdict.value.issues) else issues
  {
    var turns := w.turns[start..n + 1];
    assert turns[n - start] == w.turns[n];
    assert n > start ==> turns[n - start - 1] == w.turns[n - 1];
  }

  lemma LastTurns(w: World, start: nat, n: nat, turnIds: seq<string>)
    requires start <= n < |w.turns| && turnIds == TurnIdsOf(w.turns[start..n])
    ensures w.turns[start..n + 1] == w.turns[start..n] + [w.turns[n]]
    ensures TurnIdsOf(w.turns[start..n + 1]) == turnIds + [w.turns[n].id]
  {
    assert w.turns[start..n + 1] == w.turns[start..n] + [w.turns[n]];
  }

  /** The execution that the last attempt of a verification logs. */
  function LastExecution(phase: Phase, turnIds: seq<string>, turn: Turn, issues: Option<seq<string>>): Execution
    requires phase.Verify? && (turn.status == "completed" ==> turn.verdict.Some?)
  {
    if turn.status == "completed"
    then VerifyExecution(phase, turnIds + [turn.id], turn.verdict.value.status, Some(turn.verdict.value.issues))
    else VerifyExecution(phase, turnIds + [turn.id], "stopped", issues)
  }

  lemma LastExecutionIsJustified(w: World, phase: Phase, start: nat, n: nat, turnIds: seq<string>,
                                 issues: Option<seq<string>>, answer: Resolution)
    requires phase.Verify? && start <= n < |w.turns| && n - start <= phase.maxRepairs
    requires turnIds == TurnIdsOf(w.turns[start..n]) && forall i :: start <= i < n ==> AskedForRepair(w.turns[i])
    requires n > start ==> AskedForRepair(w.turns[n - 1])
    requires issues == if n == start then None else Some(w.turns[n - 1].verdict.value.issues)
    requires w.turns[n].status == "completed" ==> w.turns[n].verdict.Some?
    requires !AskedForRepair(w.turns[n]) || n - start == phase.maxRepairs
    ensures var e, turns := LastExecution(phase, turnIds, w.turns[n], issues), w.turns[start..n + 1];
            && Justified(phase, e, turns, answer)
            && (Stops(phase, e, turns, answer) <==> w.turns[n].status != "completed")
            && (VerdictsOf(phase, e, turns, answer) ==
                NumberedVerdicts(phase.id, if w.turns[n].status == "completed" then turns else w.turns[start..n]))
  {
    LastTurns(w, start, n, turnIds);
    LastTurnHistory(w, phase, start, n, issues);
    assert w.turns[start..n + 1][..n - start] == w.turns[start..n];
  }

  lemma AddsFromParts(w: World, phase: Phase, run: Run, next: Next, start: nat, e: Execution, turns: seq<Turn>)
    requires start <= |run.turnIds| && start <= |next.run.turnIds| <= |w.turns|
    requires turns == w.turns[start..|next.run.turnIds|]
    requires next.run.executions == run.executions + [e] && next.run.turnIds == run.turnIds[..start] + e.turnIds
    requires next.run.checkpoints ==
             run.checkpoints + if phase.Checkpoint? then [CheckpointRecord(phase.id, AnswerTo(w, |run.checkpoints|))] else []
    requires next.run.status == if next.Halt? then StopStatus(phase) else run.status
    requires Justified(phase, e, turns, AnswerTo(w, |run.checkpoints|))
    requires next.Halt? <==> Stops(phase, e, turns, AnswerTo(w, |run.checkpoints|))
    requires |run.turnIds| - start <= |run.verification|
    requires next.run.verification == run.verification[..|run.verification| - (|run.turnIds| - start)]
                                      + VerdictsOf(phase, e, turns, AnswerTo(w, |run.checkpoints|))
    ensures AddsExecution(w, phase, run, next, start)
  {}

  lemma InterruptedFields(w: World, phase: Phase, run: Run, attempt: nat, turnIds: seq<string>,
                          issues: Option<seq<string>>, start: nat)
    requires phase.Verify? && attempt <= phase.maxRepairs
    requires EarlierAttempts(w, phase, run, attempt, turnIds, issues, start) && |run.turnIds| < |w.turns|
    requires w.turns[|run.turnIds|].status != "completed"
    ensures var n, next := |run.turnIds|, RunAttempts(w, phase, run, attempt, turnIds, issues);
            var e := LastExecution(phase, turnIds, w.turns[n], issues);
            && next.Halt? && next.run.status == Stopped && next.run.checkpoints == run.checkpoints
            && next.run.executions == run.executions + [e]
            && next.run.turnIds == run.turnIds[..start] + (turnIds + [w.turns[n].id])
            && next.run.verification ==
               run.verification[..|run.verification| - attempt] + NumberedVerdicts(phase.id, w.turns[start..n])
  {
    var k := |run.verification| - attempt;
    assert run.verification == run.verification[..k] + run.verification[k..];
  }

  lemma InterruptedAttemptAdds(w: World, phase: Phase, run: Run, attempt: nat, turnIds: seq<string>,
                               issues: Option<seq<string>>, start: nat)
    requires phase.Verify? && attempt <= phase.maxRepairs
    requires EarlierAttempts(w, phase, run, attempt, turnIds, issues, start) && |run.turnIds| < |w.turns|
    requires w.turns[|run.turnIds|].status != "completed"
    ensures AddsExecution(w, phase, run, RunAttempts(w, phase, run, attempt, turnIds, issues), start)
  {
    var n := |run.turnIds|;
    LastExecutionIsJustified(w, phase, start, n, turnIds, issues, AnswerTo(w, |run.checkpoints|));
    InterruptedFields(w, phase, run, attempt, turnIds, issues, start);
    AddsFromParts(w, phase, run, RunAttempts(w, phase, run, attempt, turnIds, issues), start,
                  LastExecution(phase, turnIds, w.turns[n], issues), w.turns[start..n + 1]);
  }

  lemma JudgedResult(w: World, phase: Phase, run: Run, attempt: nat, turnIds: seq<string>, issues: Option<seq<string>>)
    requires phase.Verify? && attempt <= phase.maxRepairs && |run.turnIds| < |w.turns|
    requires w.turns[|run.turnIds|].status == "completed" && w.turns[|run.turnIds|].verdict.Some?
    requires w.turns[|run.turnIds|].verdict.value.status == "pass" || attempt == phase.maxRepairs
    ensures var turn := w.turns[|run.turnIds|];
            RunAttempts(w, phase, run, attempt, turnIds, issues) ==
            Continue(Log(AfterRepair(phase, run, turn, attempt), LastExecution(phase, turnIds, turn, issues)))
  {}

  lemma JudgedFields(w: World, phase: Phase, run: Run, attempt: nat, turnIds: seq<string>,
                     issues: Option<seq<string>>, start: nat, e: Execution)
    requires phase.Verify? && EarlierAttempts(w, phase, run, attempt, turnIds, issues, start)
    requires |run.turnIds| < |w.turns| && w.turns[|run.turnIds|].verdict.Some?
    ensures var n, run' := |run.turnIds|, Log(AfterRepair(phase, run, w.turns[|run.turnIds|], attempt), e);
            && run'.executions == run.executions + [e] && run'.checkpoints == run.checkpoints && run'.status == run.status
            && run'.turnIds == run.turnIds[..start] + (turnIds + [w.turns[n].id])
            && run'.verification ==
               run.verification[..|run.verification| - attempt] + NumberedVerdicts(phase.id, w.turns[start..n + 1])
  {
    var n := |run.turnIds|;
    assert w.turns[start..n + 1] == w.turns[start..n] + [w.turns[n]];
    OneMoreVerdict(phase.id, w.turns[start..n], w.turns[n], run.verification);
  }

  lemma JudgedAttemptAdds(w: World, phase: Phase, run: Run, attempt: nat, turnIds: seq<string>,
                          issues: Option<seq<string>>, start: nat)
    requires phase.Verify? && attempt <= phase.maxRepairs
    requires EarlierAttempts(w, phase, run, attempt, turnIds, issues, start) && |run.turnIds| < |w.turns|
    requires w.turns[|run.turnIds|].status == "completed" && w.turns[|run.turnIds|].verdict.Some?
    requires w.turns[|run.turnIds|].verdict.value.status == "pass" || attempt == phase.maxRepairs
    ensures var turn := w.turns[|run.turnIds|];
            AddsExecution(w, phase, run, Continue(Log(AfterRepair(phase, run, turn, attempt),
                                                      LastExecution(phase, turnIds, turn, issues))), start)
  {
    var n := |run.turnIds|;
    var e := LastExecution(phase, turnIds, w.turns[n], issues);
    LastExecutionIsJustified(w, phase, start, n, turnIds, issues, AnswerTo(w, |run.checkpoints|));
    JudgedFields(w, phase, run, attempt, turnIds, issues, start, e);
    AddsFromParts(w, phase, run, Continue(Log(AfterRepair(phase, run, w.turns[n], attempt), e)), start, e,
                  w.turns[start..n + 1]);
  }

  lemma LastAttemptAdds(w: World, phase: Phase, run: Run, attempt: nat, turnIds: seq<string>,
                        issues: Option<seq<string>>, start: nat)
    requires phase.Verify? && attempt <= phase.maxRepairs
    requires EarlierAttempts(w, phase, run, attempt, turnIds, issues, start) && |run.turnIds| < |w.turns|
    requires !AskedForRepair(w.turns[|run.turnIds|]) || attempt == phase.maxRepairs
    requires !RunAttempts(w, phase, run, attempt, turnIds, issues).Raise?
    ensures AddsExecution(w, phase, run, RunAttempts(w, phase, run, attempt, turnIds, issues), start)
  {
    if w.turns[|run.turnIds|].status == "completed" {
      JudgedResult(w, phase, run, attempt, turnIds, issues);
      JudgedAttemptAdds(w, phase, run, attempt, turnIds, issues, start);
    } else {
      InterruptedAttemptAdds(w, phase, run, attempt, turnIds, issues, start);
    }
  }

  /** What comes before a phase does not depend on how far the phase has come. */
  lemma AddsFromStart(w: World, phase: Phase, run: Run, run': Run, next: Next, start: nat)
    requires AddsExecution(w, phase, run', next, start)
    requires run'.executions == run.executions && run'.checkpoints == run.checkpoints && run'.status == run.status
    requires start <= |run.turnIds| && run'.turnIds[..start] == run.turnIds[..start]
    requires |run.turnIds| - start <= |run.verification|
    requires run'.verification[..|run'.verification| - (|run'.turnIds| - start)] ==
             run.verification[..|run.verification| - (|run.turnIds| - start)]
    ensures AddsExecution(w, phase, run, next, start)
  {}

  lemma RepairKeeps(w: World, phase: Phase, run: Run, attempt: nat, turn: Turn, start: nat)
    requires phase.Verify? && turn.verdict.Some? && start + attempt == |run.turnIds| && attempt <= |run.verification|
    ensures var run' := AfterRepair(phase, run, turn, attempt);
            && run'.executions == run.executions && run'.checkpoints == run.checkpoints && run'.status == run.status
            && run'.turnIds[..start] == run.turnIds[..start] && |run'.turnIds| == |run.turnIds| + 1
            && run'.verification[..|run'.verification| - (attempt + 1)] == run.verification[..|run.verification| - attempt]
  {}

  lemma RepairAdds(w: World, phase: Phase, run: Run, attempt: nat, turn: Turn, next: Next, start: nat)
    requires phase.Verify? && turn.verdict.Some? && start + attempt == |run.turnIds| && attempt <= |run.verification|
    requires AddsExecution(w, phase, AfterRepair(phase, run, turn, attempt), next, start)
    ensures AddsExecution(w, phase, run, next, start)
  {
    RepairKeeps(w, phase, run, attempt, turn, start);
    AddsFromStart(w, phase, run, AfterRepair(phase, run, turn, attempt), next, start);
  }

  lemma RepairGoesOn(w: World, phase: Phase, run: Run, attempt: nat, turnIds: seq<string>, issues: Option<seq<string>>)
    requires phase.Verify? && attempt < phase.maxRepairs
    requires |run.turnIds| < |w.turns| && AskedForRepair(w.turns[|run.turnIds|])
    ensures var turn := w.turns[|run.turnIds|];
            RunAttempts(w, phase, run, attempt, turnIds, issues) ==
            RunAttempts(w, phase, AfterRepair(phase, run, turn, attempt), attempt + 1, turnIds + [turn.id],
                        Some(turn.verdict.value.issues))
  {}

  lemma AttemptHasTurn(w: World, phase: Phase, run: Run, attempt: nat, turnIds: seq<string>, issues: Option<seq<string>>)
    requires phase.Verify? && attempt <= phase.maxRepairs
    requires !RunAttempts(w, phase, run, attempt, turnIds, issues).Raise?
    ensures |run.turnIds| < |w.turns|
  {}

  lemma {:induction false} AttemptsAdd(w: World, phase: Phase, run: Run, attempt: nat, turnIds: seq<string>,
                                       issues: Option<seq<string>>, start: nat)
    requires phase.Verify? && attempt <= phase.maxRepairs
    requires EarlierAttempts(w, phase, run, attempt, turnIds, issues, start)
    requires !RunAttempts(w, phase, run, attempt, turnIds, issues).Raise?
    ensures AddsExecution(w, phase, run, RunAttempts(w, phase, run, attempt, turnIds, issues), start)
    decreases phase.maxRepairs - attempt
  {
    AttemptHasTurn(w, phase, run, attempt, turnIds, issues);
    var turn := w.turns[|run.turnIds|];
    if !AskedForRepair(turn) || attempt == phase.maxRepairs {
      LastAttemptAdds(w, phase, run, attempt, turnIds, issues, start);
    } else {
      var run' := AfterRepair(phase, run, turn, attempt);
      var turnIds', issues' := turnIds + [turn.id], Some(turn.verdict.value.issues);
      OneMoreAttempt(w, phase, run, attempt, turnIds, issues, start);
      RepairGoesOn(w, phase, run, attempt, turnIds, issues);
      AttemptsAdd(w, phase, run', attempt + 1, turnIds', issues', start);
      RepairAdds(w, phase, run, attempt, turn, RunAttempts(w, phase, run', attempt + 1, turnIds', issues'), start);
    }
  }

  lemma PhaseAdds(s: Setup, w: World, phase: Phase, run: Run)
    requires |run.turnIds| <= |w.turns| && !RunPhase(s, w, phase, run).Raise?
    ensures AddsExecution(w, phase, run, RunPhase(s, w, phase, run), |run.turnIds|)
  {
    match phase
    case Work(_, _, _, _, _, _) => WorkAdds(s, w, phase, run);
    case Checkpoint(_, _, _, _) => CheckpointAdds(w, phase, run);
    case Command(_, _, _, _, _, _, _) => CommandAdds(w, phase, run);
    case Verify(_, _, _, _, _) => AttemptsAdd(w, phase, run, 0, [], None, |run.turnIds|);
  }

  // ----- The receipt of a whole run -----

  ghost predicate ReceiptAt(order: seq<Phase>, w: World, executions: seq<Execution>, i: nat)
    requires i < |executions| <= |order|
  {
    OffsetStep(executions, i);
    && Offset(executions, i + 1) <= |w.turns|
    && Justified(order[i], executions[i], TurnsOf(w, executions, i), AnswerAt(w, order, i))
  }

  /** The turns the `i`-th execution consumed. */
  ghost function TurnsOf(w: World, executions: seq<Execution>, i: nat): seq<Turn>
    requires i < |executions| && Offset(executions, i + 1) <= |w.turns|
  {
    OffsetStep(executions, i);
    w.turns[Offset(executions, i)..Offset(executions, i + 1)]
  }

  ghost predicate StopsAt(order: seq<Phase>, w: World, executions: seq<Execution>, i: nat)
    requires i < |executions| <= |order| && ReceiptAt(order, w, executions, i)
  {
    Stops(order[i], executions[i], TurnsOf(w, executions, i), AnswerAt(w, order, i))
  }

  /**
   Execution `i` records phase `i` of the order, justified by its own turns and the person's answer;
   the executions' turn ids are the run's turn ids; the run's checkpoints are those of the executed
   phases with the person's answers in order; and only the last execution can have stopped the run.
   */
  ghost predicate Receipt(order: seq<Phase>, w: World, run: Run) {
    && |run.executions| <= |order|
    && run.turnIds == AllTurnIds(run.executions)
    && run.checkpoints == Answered(w, order[..|run.executions|])
    && |run.turnIds| <= |w.turns|
    && (forall i :: 0 <= i < |run.executions| ==> ReceiptAt(order, w, run.executions, i))
    && (forall i :: 0 <= i < |run.executions| - 1 ==> !StopsAt(order, w, run.executions, i))
  }

  /** How the run ended is explained by its last execution. */
  ghost predicate Explained(order: seq<Phase>, w: World, run: Run)
    requires Receipt(order, w, run)
  {
    var n := |run.executions|;
    if run.status == Completed then
      n == |order| && (n > 0 ==> !StopsAt(order, w, run.executions, n - 1))
    else
      n > 0 && StopsAt(order, w, run.executions, n - 1) && run.status == StopStatus(order[n - 1])
  }

  lemma ReceiptGrows(order: seq<Phase>, w: World, executions: seq<Execution>, e: Execution, i: nat)
    requires i < |executions| < |order| && ReceiptAt(order, w, executions, i)
    ensures ReceiptAt(order, w, executions + [e], i)
    ensures StopsAt(order, w, executions + [e], i) <==> StopsAt(order, w, executions, i)
  {
    var longer := executions + [e];
    assert longer[..i] == executions[..i] && longer[..i + 1] == executions[..i + 1];
  }

  lemma NewTurns(w: World, executions: seq<Execution>, e: Execution)
    requires |AllTurnIds(executions)| + |e.turnIds| <= |w.turns|
    ensures var start, longer, k := |AllTurnIds(executions)|, executions + [e], |executions|;
            && AllTurnIds(longer) == AllTurnIds(executions) + e.turnIds
            && Offset(longer, k + 1) == start + |e.turnIds|
            && TurnsOf(w, longer, k) == w.turns[start..start + |e.turnIds|]
  {
    var longer, k := executions + [e], |executions|;
    assert longer[..k] == executions && longer[..k + 1] == longer;
    assert Offset(longer, k) == |AllTurnIds(executions)| && Offset(longer, k + 1) == |AllTurnIds(longer)|;
  }

  lemma NewReceipt(order: seq<Phase>, w: World, executions: seq<Execution>, e: Execution, turns: seq<Turn>)
    requires |executions| < |order|
    requires var start := |AllTurnIds(executions)|;
             start + |e.turnIds| <= |w.turns| && turns == w.turns[start..start + |e.turnIds|]
    requires Justified(order[|executions|], e, turns, AnswerAt(w, order, |executions|))
    ensures AllTurnIds(executions + [e]) == AllTurnIds(executions) + e.turnIds
    ensures ReceiptAt(order, w, executions + [e], |executions|)
    ensures TurnsOf(w, executions + [e], |executions|) == turns
  {
    NewTurns(w, executions, e);
  }

  ghost predicate GoesOnThrough(order: seq<Phase>, w: World, executions: seq<Execution>, n: nat)
    requires n <= |executions| <= |order|
  {
    forall i :: 0 <= i < n ==> ReceiptAt(order, w, executions, i) && !StopsAt(order, w, executions, i)
  }

  lemma StillGoesOn(order: seq<Phase>, w: World, executions: seq<Execution>, e: Execution)
    requires |executions| < |order| && GoesOnThrough(order, w, executions, |executions|)
    ensures GoesOnThrough(order, w, executions + [e], |executions|)
  {
    forall i | 0 <= i < |executions|
      ensures ReceiptAt(order, w, executions + [e], i) && !StopsAt(order, w, executions + [e], i)
    {
      ReceiptGrows(order, w, executions, e, i);
    }
  }

  lemma AddKeepsReceipt(w: World, order: seq<Phase>, run: Run, run': Run, e: Execution, turns: seq<Turn>)
    requires Receipt(order, w, run) && |run.executions| < |order|
    requires GoesOnThrough(order, w, run.executions, |run.executions|)
    requires run'.executions == run.executions + [e] && run'.turnIds == run.turnIds + e.turnIds
    requires |run'.turnIds| <= |w.turns| && turns == w.turns[|run.turnIds|..|run'.turnIds|]
    requires Justified(order[|run.executions|], e, turns, AnswerAt(w, order, |run.executions|))
    requires run'.checkpoints == Answered(w, order[..|run.executions| + 1])
    ensures var k := |run.executions|;
            && Receipt(order, w, run')
            && (StopsAt(order, w, run'.executions, k) <==> Stops(order[k], e, turns, AnswerAt(w, order, k)))
  {
    NewReceipt(order, w, run.executions, e, turns);
    StillGoesOn(order, w, run.executions, e);
  }

  /** A run between two phases: everything so far is in order and nothing has stopped it. */
  ghost predicate Ongoing(order: seq<Phase>, w: World, run: Run) {
    && Receipt(order, w, run) && run.status == Completed
    && GoesOnThrough(order, w, run.executions, |run.executions|)
  }

  ghost predicate Ended(order: seq<Phase>, w: World, run: Run) {
    Receipt(order, w, run) && Explained(order, w, run)
  }

  lemma AddedExecution(w: World, order: seq<Phase>, run: Run, next: Next)
    requires Ongoing(order, w, run) && |run.executions| < |order|
    requires AddsExecution(w, order[|run.executions|], run, next, |run.turnIds|)
    ensures |next.run.executions| == |run.executions| + 1
    ensures next.Halt? ==> Ended(order, w, next.run)
    ensures !next.Halt? ==> Ongoing(order, w, next.run)
  {
    var k, start := |run.executions|, |run.turnIds|;
    assert run.turnIds[..start] == run.turnIds;
    AnsweredNext(w, order, k);
    AddKeepsReceipt(w, order, run, next.run, next.run.executions[k], w.turns[start..|next.run.turnIds|]);
    assert next.run.executions == run.executions + [next.run.executions[k]];
    StillGoesOn(order, w, run.executions, next.run.executions[k]);
  }

  lemma PhaseKeepsReceipt(s: Setup, w: World, order: seq<Phase>, run: Run)
    requires Ongoing(order, w, run) && |run.executions| < |order|
    ensures var next := RunPhase(s, w, order[|run.executions|], run);
            && (next.Halt? ==> Ended(order, w, next.run))
            && (next.Continue? ==> Ongoing(order, w, next.run) && |next.run.executions| == |run.executions| + 1)
  {
    var phase := order[|run.executions|];
    if !RunPhase(s, w, phase, run).Raise? {
      PhaseAdds(s, w, phase, run);
      AddedExecution(w, order, run, RunPhase(s, w, phase, run));
    }
  }

  lemma OngoingToTheEnd(order: seq<Phase>, w: World, run: Run)
    requires Ongoing(order, w, run) && |run.executions| == |order|
    ensures Ended(order, w, run)
  {}

  lemma {:induction false} RestKeepsReceipt(s: Setup, w: World, order: seq<Phase>, k: nat, run: Run)
    requires k == |run.executions| <= |order| && Ongoing(order, w, run)
    ensures var outcome := RunFrom(s, w, order, k, run); outcome.Finished? ==> Ended(order, w, outcome.run)
    decreases |order| - k
  {
    if k == |order| {
      OngoingToTheEnd(order, w, run);
    } else {
      PhaseKeepsReceipt(s, w, order, run);
      var next := RunPhase(s, w, order[k], run);
      if next.Continue? {
        RestKeepsReceipt(s, w, order, k + 1, next.run);
      }
    }
  }

  /** Every finished run leaves a receipt that its own turns and answers justify and that explains its end. */
  lemma FinishedRunIsJustified(s: Setup, w: World, order: seq<Phase>)
    ensures var outcome := RunOf(s, w, order);
            outcome.Finished? ==> Receipt(order, w, outcome.run) && Explained(order, w, outcome.run)
  {
    RestKeepsReceipt(s, w, order, 0, NEW_RUN);
  }

  // ----- Completed runs -----

  ghost predicate MayGoOn(order: seq<Phase>, w: World, executions: seq<Execution>, i: nat)
    requires i < |executions| <= |order| && ReceiptAt(order, w, executions, i)
  {
    var e, turns := executions[i], TurnsOf(w, executions, i);
    match order[i]
    case Checkpoint(_, _, _, _) => Agrees(AnswerAt(w, order, i))
    case Work(_, _, _, _, _, _) => turns[0].status == "completed" && e.status == "pass"
    case Verify(_, _, _, _, _) => turns[|turns| - 1].status == "completed"
    case Command(_, _, _, _, _, stopOnFailure, _) =>
      turns[0].status == "completed" && (stopOnFailure ==> CommandProven(order[i], turns[0]))
  }

  lemma MayGoOnIff(order: seq<Phase>, w: World, executions: seq<Execution>, i: nat)
    requires i < |executions| <= |order| && ReceiptAt(order, w, executions, i)
    ensures MayGoOn(order, w, executions, i) <==> !StopsAt(order, w, executions, i)
  {
    assert Justified(order[i], executions[i], TurnsOf(w, executions, i), AnswerAt(w, order, i));
  }

  /** Every phase has run and none of them was one to stop at. */
  ghost predicate RanThrough(order: seq<Phase>, w: World, run: Run)
    requires Receipt(order, w, run)
  {
    |run.executions| == |order| && forall i :: 0 <= i < |order| ==> MayGoOn(order, w, run.executions, i)
  }

  lemma ExplainedCompletion(order: seq<Phase>, w: World, run: Run)
    requires Receipt(order, w, run) && Explained(order, w, run)
    ensures run.status == Completed <==> RanThrough(order, w, run)
  {
    var n := |run.executions|;
    forall i | 0 <= i < n
      ensures MayGoOn(order, w, run.executions, i) <==> !StopsAt(order, w, run.executions, i)
    {
      assert ReceiptAt(order, w, run.executions, i);
      MayGoOnIff(order, w, run.executions, i);
    }
  }

  /**
   A finished run is complete exactly when every phase ran and none of them stopped it: the person
   accepted each checkpoint, each work and verify turn completed, and each command that may stop
   the run is proven by exactly one observed item and an agreeing report.
   */
  lemma CompletedIff(s: Setup, w: World, order: seq<Phase>)
    requires RunOf(s, w, order).Finished?
    ensures var run := RunOf(s, w, order).run;
            Receipt(order, w, run) && (run.status == Completed <==> RanThrough(order, w, run))
  {
    FinishedRunIsJustified(s, w, order);
    ExplainedCompletion(order, w, RunOf(s, w, order).run);
  }

  /** Each executed phase runs after every phase that has an arrow into it. */
  lemma ExecutedAfterPredecessors(p: Program, s: Setup, w: World, edge: Arrow<string>, i: nat)
    requires Valid(p) && edge in p.edges
    requires RunOf(s, w, RunOrder(p)).Finished?
    requires var executions := RunOf(s, w, RunOrder(p)).run.executions;
             i < |executions| && executions[i].phaseId == edge.dst
    ensures var executions := RunOf(s, w, RunOrder(p)).run.executions;
            exists j :: 0 <= j < i && executions[j].phaseId == edge.src
  {
    var order := RunOrder(p);
    var run := RunOf(s, w, order).run;
    FinishedRunIsJustified(s, w, order);
    OrderIsLeast(p);
    assert p.edges != [];
    var ids := Ids(order);
    var j, k := ArrowPositions(ids, p.edges, edge);
    assert ReceiptAt(order, w, run.executions, i);
    assert ids[i] == order[i].id == edge.dst;
    assert k == i;
    assert ReceiptAt(order, w, run.executions, j);
    assert run.executions[j].phaseId == edge.src;
  }

  // ----- How the session reports the end of a run -----

  datatype SessionStatus = SessionStopped | SessionCompleted

  /** The status a session shows once its run has finished. */
  function SessionEnd(run: Run): SessionStatus {
    if run.status == Stopped then SessionStopped else SessionCompleted
  }

  ghost predicate Interrupted(w: World, executions: seq<Execution>, i: nat)
    requires i < |executions| && Offset(executions, i + 1) <= |w.turns|
  {
    var turns := TurnsOf(w, executions, i);
    turns != [] && turns[|turns| - 1].status != "completed"
  }

  ghost predicate EndedByInterruption(order: seq<Phase>, w: World, run: Run)
    requires Receipt(order, w, run)
  {
    var n := |run.executions|;
    n > 0 && ReceiptAt(order, w, run.executions, n - 1) && Interrupted(w, run.executions, n - 1)
  }

  /**
   A session whose last turn was interrupted is shown as stopped exactly when the interrupted phase
   is not a command that stops on failure; such a command turns the interruption into a failed
   check, and the session is shown as completed.
   */
  lemma StoppedSessionIff(s: Setup, w: World, order: seq<Phase>)
    requires RunOf(s, w, order).Finished?
    ensures var run := RunOf(s, w, order).run;
            && Receipt(order, w, run)
            && (SessionEnd(run) == SessionStopped <==>
                && EndedByInterruption(order, w, run)
                && !(order[|run.executions| - 1].Command? && order[|run.executions| - 1].stopOnFailure))
  {
    FinishedRunIsJustified(s, w, order);
    ExplainedStop(order, w, RunOf(s, w, order).run);
  }

  lemma ExplainedStop(order: seq<Phase>, w: World, run: Run)
    requires Receipt(order, w, run) && Explained(order, w, run)
    ensures SessionEnd(run) == SessionStopped <==>
            && EndedByInterruption(order, w, run)
            && !(order[|run.executions| - 1].Command? && order[|run.executions| - 1].stopOnFailure)
  {
    var n := |run.executions|;
    if n > 0 {
      assert ReceiptAt(order, w, run.executions, n - 1);
      assert Justified(order[n - 1], run.executions[n - 1], TurnsOf(w, run.executions, n - 1), AnswerAt(w, order, n - 1));
    }
  }

  lemma InterruptedIsStopped(phase: Phase, e: Execution, turns: seq<Turn>, answer: Resolution)
    requires Justified(phase, e, turns, answer) && turns != [] && turns[|turns| - 1].status != "completed"
    ensures e.status == "stopped"
  {}

  lemma InterruptedReceipt(order: seq<Phase>, w: World, executions: seq<Execution>, i: nat)
    requires i < |executions| <= |order| && ReceiptAt(order, w, executions, i) && Interrupted(w, executions, i)
    ensures executions[i].status == "stopped"
  {
    InterruptedIsStopped(order[i], executions[i], TurnsOf(w, executions, i), AnswerAt(w, order, i));
  }

  /** A phase whose last turn was interrupted is recorded as stopped, whatever its kind. */
  lemma InterruptedPhaseIsRecordedStopped(s: Setup, w: World, order: seq<Phase>, i: nat)
    requires RunOf(s, w, order).Finished? && i < |RunOf(s, w, order).run.executions|
    ensures var run := RunOf(s, w, order).run;
            && Receipt(order, w, run) && ReceiptAt(order, w, run.executions, i)
            && (Interrupted(w, run.executions, i) ==> run.executions[i].status == "stopped")
  {
    FinishedRunIsJustified(s, w, order);
    var run := RunOf(s, w, order).run;
    assert ReceiptAt(order, w, run.executions, i);
    if Interrupted(w, run.executions, i) {
      InterruptedReceipt(order, w, run.executions, i);
    }
  }

  const BUILD := Work("build", "Build", "Build it", Adaptive, Inherit, None)
  const CHECK := Command("check", "Check", TestStep, "make test", 0, true, None)
  const BUILT := Turn("t1", "", "completed", None, [], None, None)
  const CUT_OFF := Turn("t2", "", "interrupted", None, [], None, None)

  lemma BuildThenCheckIsValid()
    ensures var p := Program([BUILD, CHECK], []); Valid(p) && RunOrder(p) == [BUILD, CHECK]
  {
    var p := Program([BUILD, CHECK], []);
    assert BUILD.id[0] != CHECK.id[0];
    assert Ids(p.phases) == [BUILD.id, CHECK.id];
    assert BUILD in p.phases;
  }

  /**
   An interrupted check that stops on failure: a valid program, run to an end that the session
   shows as completed although the check is recorded as stopped.
   */
  lemma InterruptedCheckLooksCompleted(s: Setup)
    ensures var p := Program([BUILD, CHECK], []);
            var w := World([BUILT, CUT_OFF], []);
            && Valid(p)
            && var outcome := RunOf(s, w, RunOrder(p));
               && outcome.Finished? && |outcome.run.executions| == 2
               && outcome.run.executions[1].status == "stopped"
               && outcome.run.status == FailedCheck
               && SessionEnd(outcome.run) == SessionCompleted
  {
    BuildThenCheckIsValid();
    var order, w := [BUILD, CHECK], World([BUILT, CUT_OFF], []);
    assert "interrupted"[0] != "completed"[0];
    var first := RunPhase(s, w, BUILD, NEW_RUN);
    assert first.Continue? && first.run.turnIds == ["t1"] && |first.run.executions| == 1;
    var second := RunPhase(s, w, CHECK, first.run);
    assert second.Halt? && second.run.executions[1].status == "stopped";
    assert RunFrom(s, w, order, 1, first.run) == Finished(second.run);
  }
}
