/** The turn budget of a run: no answers can exceed it, and some answers use it up. */
module RunBounds {
  import opened Lists
  import opened PhasePrograms
  import opened Compiler
  import opened PhaseRuntime

  /** How many controller turns were started. */
  function TurnsStarted(trace: seq<Step>): nat {
    if trace == [] then 0
    else TurnsStarted(trace[..|trace| - 1]) + if trace[|trace| - 1].Sent? then 1 else 0
  }

  lemma StartedOneMore(trace: seq<Step>, step: Step)
    ensures TurnsStarted(trace + [step]) == TurnsStarted(trace) + if step.Sent? then 1 else 0
  {
    assert (trace + [step])[..|trace|] == trace;
  }

  lemma {:induction false} AttemptsCost(w: World, phase: Phase, run: Run, attempt: nat, turnIds: seq<string>,
                                        issues: Option<seq<string>>)
    requires phase.Verify? && attempt <= phase.maxRepairs
    ensures var run' := RunAttempts(w, phase, run, attempt, turnIds, issues).run;
            TurnsStarted(run'.trace) <= TurnsStarted(run.trace) + 1 + phase.maxRepairs - attempt
    decreases phase.maxRepairs - attempt
  {
    var prompt := VerifyPrompt(phase.id, phase.criteria, run.answer, run.feedback);
    StartedOneMore(run.trace, Sent(prompt));
    var answer := NextTurn(w, run);
    if answer.Some? && answer.value.verdict.Some? && attempt < phase.maxRepairs {
      var turn := answer.value;
      var judged := Judge(Record(Send(run, prompt), turn).(feedback := ""), phase.id, attempt, turn.verdict.value);
      AttemptsCost(w, phase, judged, attempt + 1, turnIds + [turn.id], Some(turn.verdict.value.issues));
    }
  }

  lemma PhaseCost(s: Setup, w: World, phase: Phase, run: Run)
    ensures TurnsStarted(RunPhase(s, w, phase, run).run.trace) <= TurnsStarted(run.trace) + TurnCost(phase)
  {
    match phase
    case Work(_, _, _, _, _, _) =>
      StartedOneMore(run.trace, Sent(WorkPromptFor(s, phase, run)));
    case Checkpoint(_, _, _, _) =>
      StartedOneMore(run.trace, Asked(phase.id, phase.question, NextResolution(w, run)));
    case Command(_, _, _, _, _, _, _) =>
      StartedOneMore(run.trace, Sent(CommandPrompt(phase.id, phase.name, phase.stepType, phase.command, phase.expectedExitCode)));
    case Verify(_, _, _, _, _) =>
      AttemptsCost(w, phase, run, 0, [], None);
  }

  lemma {:induction false} CostGrows(order: seq<Phase>, k: nat)
    requires k < |order|
    ensures TotalCost(order[..k + 1]) == TotalCost(order[..k]) + TurnCost(order[k])
    ensures TotalCost(order[..k]) <= TotalCost(order)
    decreases |order| - k
  {
    assert order[..k + 1][..k] == order[..k];
    if k + 1 < |order| {
      CostGrows(order, k + 1);
    } else {
      assert order[..k + 1] == order;
    }
  }

  lemma {:induction false} RestCost(s: Setup, w: World, order: seq<Phase>, k: nat, run: Run)
    requires k <= |order| && TurnsStarted(run.trace) <= TotalCost(order[..k])
    ensures TurnsStarted(RunFrom(s, w, order, k, run).run.trace) <= TotalCost(order)
    decreases |order| - k
  {
    if k == |order| {
      assert order[..k] == order;
    } else {
      CostGrows(order, k);
      PhaseCost(s, w, order[k], run);
      var next := RunPhase(s, w, order[k], run);
      if next.Continue? {
        RestCost(s, w, order, k + 1, next.run);
      } else if k + 1 < |order| {
        CostGrows(order, k + 1);
      } else {
        assert order[..k + 1] == order;
      }
    }
  }

  /** Whatever the gateway and the people answer, finished or raised, a run keeps its turn budget. */
  lemma BudgetHolds(p: Program, s: Setup, w: World)
    requires Valid(p)
    ensures TurnsStarted(RunOf(s, w, RunOrder(p)).run.trace) <= CompiledManifest(p).maximumTurns
    ensures CompiledManifest(p).maximumTurns == TotalCost(p.phases)
  {
    RestCost(s, w, RunOrder(p), 0, NEW_RUN);
    BudgetIsSumOfNodes(p);
  }

  // ----- The budget is tight -----

  /** An answer that keeps the run going: work completes, commands pass, verifiers ask for repairs. */
  function BusyTurn(phase: Phase): Turn {
    var command := if phase.Command? then phase.command else "";
    var exitCode := if phase.Command? then phase.expectedExitCode else 0;
    Turn("turn", "", "completed", None,
         [Event("item/completed", Some(Item("commandExecution", Some(command), [], Some(exitCode), Some("completed"))))],
         Some(Report(command, exitCode, "")), Some(Verdict("repair", "", [])))
  }

  function BusyTurns(order: seq<Phase>): (turns: seq<Turn>)
    ensures |turns| == TotalCost(order)
  {
    if order == [] then []
    else
      var last := order[|order| - 1];
      BusyTurns(order[..|order| - 1]) + seq(TurnCost(last), i => BusyTurn(last))
  }

  function BusyWorld(order: seq<Phase>): World {
    World(BusyTurns(order), seq(|order|, i => Resolution("accept", "")))
  }

  ghost predicate BusyStretch(turns: seq<Turn>, phase: Phase, from: nat, to: nat) {
    to <= |turns| && forall i :: from <= i < to ==> turns[i] == BusyTurn(phase)
  }

  lemma {:induction false} BusyStretchAt(order: seq<Phase>, k: nat)
    requires k < |order|
    ensures BusyStretch(BusyTurns(order), order[k], TotalCost(order[..k]), TotalCost(order[..k + 1]))
  {
    var n := |order| - 1;
    assert order[..k + 1][..k] == order[..k];
    if k < n {
      BusyStretchAt(order[..n], k);
      assert order[..n][..k] == order[..k] && order[..n][..k + 1] == order[..k + 1];
    } else {
      assert order[..k + 1] == order;
    }
  }

  lemma BusyCommandPasses(phase: Phase)
    requires phase.Command?
    ensures Observe(BusyTurn(phase).events, phase.command, phase.expectedExitCode).passed
    ensures ReportAgrees(phase, BusyTurn(phase).report.value)
  {
    var events := BusyTurn(phase).events;
    var item := events[0].item.value;
    assert Candidates(item)[0] == phase.command;
    assert phase.command in Candidates(item);
    assert SoleMatch(events, phase.command, 0);
    assert EndedAsExpected(events[0], phase.expectedExitCode);
    ObservedPassIff(events, phase.command, phase.expectedExitCode);
  }

  /** Where a busy run stands after some phases. */
  ghost predicate BusySoFar(run: Run, cost: nat, phases: nat) {
    && |run.turnIds| == TurnsStarted(run.trace) == cost
    && |run.checkpoints| <= phases
    && run.status == Completed
  }

  lemma {:induction false} BusyAttempts(w: World, phase: Phase, run: Run, attempt: nat, turnIds: seq<string>,
                                        issues: Option<seq<string>>, cost: nat, phases: nat)
    requires phase.Verify? && attempt <= phase.maxRepairs
    requires BusySoFar(run, cost + attempt, phases)
    requires BusyStretch(w.turns, phase, cost + attempt, cost + 1 + phase.maxRepairs)
    ensures var next := RunAttempts(w, phase, run, attempt, turnIds, issues);
            next.Continue? && BusySoFar(next.run, cost + 1 + phase.maxRepairs, phases)
    decreases phase.maxRepairs - attempt
  {
    var prompt := VerifyPrompt(phase.id, phase.criteria, run.answer, run.feedback);
    StartedOneMore(run.trace, Sent(prompt));
    var turn := w.turns[cost + attempt];
    assert "repair"[0] != "pass"[0];
    var judged := Judge(Record(Send(run, prompt), turn).(feedback := ""), phase.id, attempt, turn.verdict.value);
    assert BusySoFar(judged, cost + attempt + 1, phases);
    if attempt < phase.maxRepairs {
      BusyAttempts(w, phase, judged, attempt + 1, turnIds + [turn.id], Some(turn.verdict.value.issues), cost, phases);
    }
  }

  lemma BusyPhase(s: Setup, order: seq<Phase>, k: nat, run: Run)
    requires k < |order| && BusySoFar(run, TotalCost(order[..k]), k)
    ensures var next := RunPhase(s, BusyWorld(order), order[k], run);
            next.Continue? && BusySoFar(next.run, TotalCost(order[..k + 1]), k + 1)
  {
    var w, phase, cost := BusyWorld(order), order[k], TotalCost(order[..k]);
    CostGrows(order, k);
    BusyStretchAt(order, k);
    match phase
    case Work(_, _, _, _, _, _) =>
      BusyWork(s, w, phase, run, cost, k);
    case Checkpoint(_, _, _, _) =>
      StartedOneMore(run.trace, Asked(phase.id, phase.question, NextResolution(w, run)));
    case Command(_, _, _, _, _, _, _) =>
      BusyCommand(w, phase, run, cost, k);
    case Verify(_, _, _, _, _) =>
      BusyAttempts(w, phase, run, 0, [], None, cost, k);
  }

  lemma BusyWork(s: Setup, w: World, phase: Phase, run: Run, cost: nat, phases: nat)
    requires phase.Work? && BusySoFar(run, cost, phases) && BusyStretch(w.turns, phase, cost, cost + 1)
    ensures var next := RunWork(s, w, phase, run);
            next.Continue? && BusySoFar(next.run, cost + 1, phases)
  {
    StartedOneMore(run.trace, Sent(WorkPromptFor(s, phase, run)));
    assert w.turns[cost] == BusyTurn(phase);
  }

  lemma BusyCommand(w: World, phase: Phase, run: Run, cost: nat, phases: nat)
    requires phase.Command? && BusySoFar(run, cost, phases) && BusyStretch(w.turns, phase, cost, cost + 1)
    ensures var next := RunCommand(w, phase, run);
            next.Continue? && BusySoFar(next.run, cost + 1, phases)
  {
    StartedOneMore(run.trace, Sent(CommandPrompt(phase.id, phase.name, phase.stepType, phase.command, phase.expectedExitCode)));
    assert w.turns[cost] == BusyTurn(phase);
    BusyCommandPasses(phase);
  }

  lemma {:induction false} BusyRest(s: Setup, order: seq<Phase>, k: nat, run: Run)
    requires k <= |order| && BusySoFar(run, TotalCost(order[..k]), k)
    ensures var outcome := RunFrom(s, BusyWorld(order), order, k, run);
            outcome.Finished? && BusySoFar(outcome.run, TotalCost(order), |order|)
    decreases |order| - k
  {
    if k == |order| {
      assert order[..k] == order;
    } else {
      BusyPhase(s, order, k, run);
      BusyRest(s, order, k + 1, RunPhase(s, BusyWorld(order), order[k], run).run);
    }
  }

  /** For every valid program some answers complete the run and use its whole turn budget. */
  lemma BudgetIsTight(p: Program, s: Setup)
    requires Valid(p)
    ensures var outcome := RunOf(s, BusyWorld(RunOrder(p)), RunOrder(p));
            && outcome.Finished? && outcome.run.status == Completed
            && |outcome.run.turnIds| == TurnsStarted(outcome.run.trace) == CompiledManifest(p).maximumTurns
  {
    BusyRest(s, RunOrder(p), 0, NEW_RUN);
  }
}
