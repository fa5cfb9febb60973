/**
 What a run makes of its answers.  Reading the prompts and questions of a run next to the answers
 of the gateway and the person gives everything the run reports: which answer each question got,
 the final answer, the usage, the verdicts, and the candidate each verifier was shown.
 */
module RunAnswers {
  import opened Lists
  import opened PhasePrograms
  import opened PhaseRuntime
  import opened RunReceipts

  // ----- Reading a trace next to the answers -----

  function Questions(trace: seq<Step>): nat {
    if trace == [] then 0
    else Questions(trace[..|trace| - 1]) + if trace[|trace| - 1].Asked? then 1 else 0
  }

  function Prompts(trace: seq<Step>): nat {
    if trace == [] then 0
    else Prompts(trace[..|trace| - 1]) + if trace[|trace| - 1].Sent? then 1 else 0
  }

  datatype Judgement = Judgement(phaseId: string, status: string, issues: seq<string>)

  /** What has been learned from the turns so far. */
  datatype Ledger = Ledger(answer: string, usage: map<string, int>, verdicts: seq<Judgement>)

  /** A turn's verdict counts when the turn completed and its response is one. */
  predicate Judges(turn: Turn) {
    turn.status == "completed" && turn.verdict.Some?
  }

  /** What one turn adds, given the prompt it answers. */
  function Learn(ledger: Ledger, prompt: Prompt, turn: Turn): Ledger {
    var usage := if turn.usage.Some? then ledger.usage[turn.id := turn.usage.value] else ledger.usage;
    match prompt
    case WorkPrompt(_, _, _, _, _, _, _) => Ledger(turn.response, usage, ledger.verdicts)
    case CommandPrompt(_, _, _, _, _) => ledger.(usage := usage)
    case VerifyPrompt(phaseId, _, _, _) =>
      if Judges(turn) then
        var verdict := turn.verdict.value;
        Ledger(verdict.answer, usage, ledger.verdicts + [Judgement(phaseId, verdict.status, verdict.issues)])
      else ledger.(usage := usage)
  }

  /** The ledger after these steps: prompt number `t` is answered by turn `t`, if there is one. */
  function Replay(w: World, trace: seq<Step>): Ledger {
    if trace == [] then Ledger("", map[], [])
    else
      var n := |trace| - 1;
      var before, t := Replay(w, trace[..n]), Prompts(trace[..n]);
      if trace[n].Sent? && t < |w.turns| then Learn(before, trace[n].prompt, w.turns[t]) else before
  }

  function Judgements(verification: seq<Verification>): (judgements: seq<Judgement>)
    ensures |judgements| == |verification|
  {
    seq(|verification|, i requires 0 <= i < |verification| =>
      Judgement(verification[i].phaseId, verification[i].status, verification[i].issues))
  }

  // ----- What a trace must satisfy -----

  /** The person's answers are consumed one by one, in order. */
  ghost predicate QuestionsAnswered(w: World, trace: seq<Step>) {
    forall i :: 0 <= i < |trace| && trace[i].Asked? ==> trace[i].resolution == AnswerTo(w, Questions(trace[..i]))
  }

  /** Every verifier is shown the latest answer. */
  ghost predicate LatestShown(w: World, trace: seq<Step>) {
    forall i :: 0 <= i < |trace| && trace[i].Sent? && trace[i].prompt.VerifyPrompt? ==>
      trace[i].prompt.candidate == Replay(w, trace[..i]).answer
  }

  ghost predicate TraceFits(w: World, trace: seq<Step>) {
    QuestionsAnswered(w, trace) && LatestShown(w, trace)
  }

  /** The run reports what its trace and the answers say. */
  ghost predicate Reports(w: World, run: Run) {
    var ledger := Replay(w, run.trace);
    && Prompts(run.trace) == |run.turnIds| && Questions(run.trace) == |run.checkpoints|
    && run.answer == ledger.answer && run.usage == ledger.usage && Judgements(run.verification) == ledger.verdicts
  }

  ghost predicate StepFits(w: World, trace: seq<Step>, step: Step) {
    && (step.Asked? ==> step.resolution == AnswerTo(w, Questions(trace)))
    && (step.Sent? && step.prompt.VerifyPrompt? ==> step.prompt.candidate == Replay(w, trace).answer)
  }

  lemma OneMoreStep(w: World, trace: seq<Step>, step: Step)
    requires TraceFits(w, trace) && StepFits(w, trace, step)
    ensures TraceFits(w, trace + [step])
    ensures Questions(trace + [step]) == Questions(trace) + if step.Asked? then 1 else 0
    ensures Prompts(trace + [step]) == Prompts(trace) + if step.Sent? then 1 else 0
    ensures Replay(w, trace + [step]) ==
            if step.Sent? && Prompts(trace) < |w.turns| then Learn(Replay(w, trace), step.prompt, w.turns[Prompts(trace)])
            else Replay(w, trace)
  {
    var longer := trace + [step];
    assert longer[..|trace|] == trace;
    forall i | 0 <= i < |longer|
      ensures longer[i].Asked? ==> longer[i].resolution == AnswerTo(w, Questions(longer[..i]))
      ensures longer[i].Sent? && longer[i].prompt.VerifyPrompt? ==>
                longer[i].prompt.candidate == Replay(w, longer[..i]).answer
    {
      assert i < |trace| ==> longer[..i] == trace[..i];
    }
  }

  // ----- Every phase keeps it -----

  ghost predicate Kept(w: World, run: Run) {
    TraceFits(w, run.trace) && Reports(w, run)
  }

  /** What a phase leaves behind: a fitting trace, and a true report unless an exception escaped. */
  ghost predicate Leaves(w: World, next: Next) {
    TraceFits(w, next.run.trace) && (!next.Raise? ==> Reports(w, next.run))
  }

  lemma WorkLeaves(s: Setup, w: World, phase: Phase, run: Run)
    requires phase.Work? && Kept(w, run)
    ensures Leaves(w, RunWork(s, w, phase, run))
  {
    OneMoreStep(w, run.trace, Sent(WorkPromptFor(s, phase, run)));
  }

  lemma CheckpointLeaves(w: World, phase: Phase, run: Run)
    requires phase.Checkpoint? && Kept(w, run)
    ensures Leaves(w, RunCheckpoint(w, phase, run))
  {
    OneMoreStep(w, run.trace, Asked(phase.id, phase.question, NextResolution(w, run)));
  }

  /** A command adds its prompt and its turn to the run, and leaves the rest of the report alone. */
  lemma CommandRecords(w: World, phase: Phase, run: Run)
    requires phase.Command?
    ensures var next := RunCommand(w, phase, run);
            var prompt := CommandPrompt(phase.id, phase.name, phase.stepType, phase.command, phase.expectedExitCode);
            && next.run.trace == run.trace + [Sent(prompt)]
            && next.run.answer == run.answer && next.run.verification == run.verification
            && next.run.checkpoints == run.checkpoints
            && (!next.Raise? ==>
                  && |run.turnIds| < |w.turns| && |next.run.turnIds| == |run.turnIds| + 1
                  && next.run.usage == Record(run, w.turns[|run.turnIds|]).usage)
  {}

  lemma CommandLeaves(w: World, phase: Phase, run: Run)
    requires phase.Command? && Kept(w, run)
    ensures Leaves(w, RunCommand(w, phase, run))
  {
    CommandRecords(w, phase, run);
    var prompt := CommandPrompt(phase.id, phase.name, phase.stepType, phase.command, phase.expectedExitCode);
    OneMoreStep(w, run.trace, Sent(prompt));
  }

  lemma JudgedOnce(w: World, phase: Phase, run: Run, attempt: nat)
    requires phase.Verify? && Kept(w, run)
    requires |run.turnIds| < |w.turns| && Judges(w.turns[|run.turnIds|])
    ensures Kept(w, AfterRepair(phase, run, w.turns[|run.turnIds|], attempt))
  {
    OneMoreStep(w, run.trace, Sent(VerifyPrompt(phase.id, phase.criteria, run.answer, run.feedback)));
    var verdict := w.turns[|run.turnIds|].verdict.value;
    var record := Verification(phase.id, attempt + 1, verdict.status, verdict.issues);
    assert Judgements(run.verification + [record]) ==
           Judgements(run.verification) + [Judgement(phase.id, verdict.status, verdict.issues)];
  }

  /** An attempt without a verdict that counts ends the phase. */
  lemma UnjudgedLeaves(w: World, phase: Phase, run: Run, attempt: nat, turnIds: seq<string>, issues: Option<seq<string>>)
    requires phase.Verify? && attempt <= phase.maxRepairs && Kept(w, run)
    requires |run.turnIds| < |w.turns| ==> !Judges(w.turns[|run.turnIds|])
    ensures Leaves(w, RunAttempts(w, phase, run, attempt, turnIds, issues))
  {
    OneMoreStep(w, run.trace, Sent(VerifyPrompt(phase.id, phase.criteria, run.answer, run.feedback)));
  }

  lemma LoggedKept(w: World, run: Run, execution: Execution)
    requires Kept(w, run)
    ensures Leaves(w, Continue(Log(run, execution)))
  {}

  lemma {:induction false} AttemptsLeave(w: World, phase: Phase, run: Run, attempt: nat, turnIds: seq<string>,
                                         issues: Option<seq<string>>)
    requires phase.Verify? && attempt <= phase.maxRepairs && Kept(w, run)
    ensures Leaves(w, RunAttempts(w, phase, run, attempt, turnIds, issues))
    decreases phase.maxRepairs - attempt
  {
    if |run.turnIds| < |w.turns| && Judges(w.turns[|run.turnIds|]) {
      var turn := w.turns[|run.turnIds|];
      var judged, turnIds' := AfterRepair(phase, run, turn, attempt), turnIds + [turn.id];
      JudgedOnce(w, phase, run, attempt);
      if turn.verdict.value.status == "pass" || attempt == phase.maxRepairs {
        LoggedKept(w, judged, VerifyExecution(phase, turnIds', turn.verdict.value.status, Some(turn.verdict.value.issues)));
      } else {
        AttemptsLeave(w, phase, judged, attempt + 1, turnIds', Some(turn.verdict.value.issues));
      }
    } else {
      UnjudgedLeaves(w, phase, run, attempt, turnIds, issues);
    }
  }

  lemma PhaseLeaves(s: Setup, w: World, phase: Phase, run: Run)
    requires Kept(w, run)
    ensures Leaves(w, RunPhase(s, w, phase, run))
  {
    match phase
    case Work(_, _, _, _, _, _) => WorkLeaves(s, w, phase, run);
    case Checkpoint(_, _, _, _) => CheckpointLeaves(w, phase, run);
    case Command(_, _, _, _, _, _, _) => CommandLeaves(w, phase, run);
    case Verify(_, _, _, _, _) => AttemptsLeave(w, phase, run, 0, [], None);
  }

  lemma {:induction false} RestLeaves(s: Setup, w: World, order: seq<Phase>, k: nat, run: Run)
    requires k <= |order| && Kept(w, run)
    ensures var outcome := RunFrom(s, w, order, k, run);
            TraceFits(w, outcome.run.trace) && (outcome.Finished? ==> Reports(w, outcome.run))
    decreases |order| - k
  {
    if k < |order| {
      PhaseLeaves(s, w, order[k], run);
      var next := RunPhase(s, w, order[k], run);
      if next.Continue? {
        RestLeaves(s, w, order, k + 1, next.run);
      }
    }
  }

  /**
   In every run, finished or raised, question number `c` got the person's answer number `c` and
   every verifier was shown the latest answer; a finished run reports the answer, usage and
   verdicts that its turns give when read next to the prompts they answer.
   */
  lemma RunReportsItsAnswers(s: Setup, w: World, order: seq<Phase>)
    ensures var outcome := RunOf(s, w, order);
            && QuestionsAnswered(w, outcome.run.trace) && LatestShown(w, outcome.run.trace)
            && (outcome.Finished? ==> Reports(w, outcome.run))
  {
    assert Judgements([]) == [];
    RestLeaves(s, w, order, 0, NEW_RUN);
  }

  // ----- Every step speaks for its phase -----

  /** The step asks or sends what its phase says, at the phase's own effort or the run's. */
  predicate SpeaksFor(s: Setup, phase: Phase, step: Step) {
    match phase
    case Checkpoint(id, _, question, _) => step.Asked? && step.phaseId == id && step.question == question
    case Work(id, name, goal, scope, effort, _) =>
      && step.Sent? && step.prompt.WorkPrompt? && step.prompt.phaseId == id && step.prompt.name == name
      && step.prompt.goal == goal && step.prompt.scope == scope
      && (effort != Inherit ==> step.prompt.effort == effort) && (effort == Inherit ==> step.prompt.effort == s.effort)
    case Command(id, name, stepType, command, expectedExitCode, _, _) =>
      step == Sent(CommandPrompt(id, name, stepType, command, expectedExitCode))
    case Verify(id, _, criteria, _, _) =>
      step.Sent? && step.prompt.VerifyPrompt? && step.prompt.phaseId == id && step.prompt.criteria == criteria
  }

  /** Only this phase has spoken since. */
  ghost predicate SpokenBy(s: Setup, phase: Phase, before: seq<Step>, after: seq<Step>) {
    before < after && forall i :: |before| <= i < |after| ==> SpeaksFor(s, phase, after[i])
  }

  lemma {:induction false} AttemptsSpeak(s: Setup, w: World, phase: Phase, run: Run, attempt: nat, turnIds: seq<string>,
                                         issues: Option<seq<string>>)
    requires phase.Verify? && attempt <= phase.maxRepairs
    ensures SpokenBy(s, phase, run.trace, RunAttempts(w, phase, run, attempt, turnIds, issues).run.trace)
    decreases phase.maxRepairs - attempt
  {
    if |run.turnIds| < |w.turns| && Judges(w.turns[|run.turnIds|]) && attempt < phase.maxRepairs {
      var turn := w.turns[|run.turnIds|];
      AttemptsSpeak(s, w, phase, AfterRepair(phase, run, turn, attempt), attempt + 1, turnIds + [turn.id],
                    Some(turn.verdict.value.issues));
    }
  }

  lemma PhaseSpeaks(s: Setup, w: World, phase: Phase, run: Run)
    ensures SpokenBy(s, phase, run.trace, RunPhase(s, w, phase, run).run.trace)
  {
    if phase.Verify? {
      AttemptsSpeak(s, w, phase, run, 0, [], None);
    }
  }

  /** From `before` on, the steps are those of phase `k`, then of phase `k + 1`, and so on. */
  ghost predicate SpokenInOrder(s: Setup, order: seq<Phase>, k: nat, before: seq<Step>, after: seq<Step>)
    decreases |order| - k
  {
    || before == after
    || (k < |order| && exists mid :: SpokenBy(s, order[k], before, mid) && SpokenInOrder(s, order, k + 1, mid, after))
  }

  lemma {:induction false} RestSpeaks(s: Setup, w: World, order: seq<Phase>, k: nat, run: Run)
    requires k <= |order|
    ensures SpokenInOrder(s, order, k, run.trace, RunFrom(s, w, order, k, run).run.trace)
    decreases |order| - k
  {
    if k < |order| {
      PhaseSpeaks(s, w, order[k], run);
      var next := RunPhase(s, w, order[k], run);
      if next.Continue? {
        RestSpeaks(s, w, order, k + 1, next.run);
      }
    }
  }

  /** In every run the phases speak one after the other in their order, each for itself only. */
  lemma PhasesSpeakInOrder(s: Setup, w: World, order: seq<Phase>)
    ensures SpokenInOrder(s, order, 0, [], RunOf(s, w, order).run.trace)
  {
    RestSpeaks(s, w, order, 0, NEW_RUN);
  }
}
