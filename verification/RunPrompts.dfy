/**
 What reaches the model: checkpoint feedback enters at most one prompt, the right one, and the
 selected memory enters the first prompt and no other.
 */
module RunPrompts {
  import opened Lists
  import opened PhasePrograms
  import opened Compiler
  import opened PhaseRuntime
  import opened RunReceipts
  import opened RunAnswers

  // ----- Checkpoint feedback -----

  predicate TakesFeedback(step: Step) {
    step.Sent? && !step.prompt.CommandPrompt?
  }

  predicate PassesFeedbackOn(step: Step) {
    step.Sent? && step.prompt.CommandPrompt?
  }

  predicate GivesFeedback(step: Step) {
    step.Asked? && Agrees(step.resolution)
  }

  /** Step `i` is an accepted checkpoint with nothing but command prompts after it. */
  ghost predicate LastGiver(trace: seq<Step>, i: int) {
    && 0 <= i < |trace| && GivesFeedback(trace[i])
    && forall k :: i < k < |trace| ==> PassesFeedbackOn(trace[k])
  }

  /** Prompt `j` is the first one after checkpoint `i` that can take its feedback. */
  ghost predicate Feeds(trace: seq<Step>, i: int, j: int) {
    0 <= j < |trace| && TakesFeedback(trace[j]) && LastGiver(trace[..j], i)
  }

  /** The feedback that waits for a prompt after these steps. */
  function Pending(trace: seq<Step>): string {
    if trace == [] then ""
    else
      var last := trace[|trace| - 1];
      if PassesFeedbackOn(last) then Pending(trace[..|trace| - 1])
      else if GivesFeedback(last) then last.resolution.feedback
      else ""
  }

  ghost predicate EachTakesPending(trace: seq<Step>) {
    forall j :: 0 <= j < |trace| && TakesFeedback(trace[j]) ==> trace[j].prompt.feedback == Pending(trace[..j])
  }

  lemma PendingAfter(trace: seq<Step>, step: Step)
    requires EachTakesPending(trace)
    requires TakesFeedback(step) ==> step.prompt.feedback == Pending(trace)
    ensures EachTakesPending(trace + [step])
    ensures Pending(trace + [step]) ==
            if PassesFeedbackOn(step) then Pending(trace)
            else if GivesFeedback(step) then step.resolution.feedback else ""
  {
    var longer := trace + [step];
    assert longer[..|trace|] == trace;
    forall j | 0 <= j < |longer| && TakesFeedback(longer[j])
      ensures longer[j].prompt.feedback == Pending(longer[..j])
    {
      assert j < |trace| ==> longer[..j] == trace[..j];
    }
  }

  ghost predicate FeedbackKept(run: Run) {
    EachTakesPending(run.trace) && run.feedback == Pending(run.trace)
  }

  lemma {:induction false} AttemptsKeepFeedback(w: World, phase: Phase, run: Run, attempt: nat,
                                                turnIds: seq<string>, issues: Option<seq<string>>)
    requires phase.Verify? && attempt <= phase.maxRepairs && FeedbackKept(run)
    ensures var next := RunAttempts(w, phase, run, attempt, turnIds, issues);
            EachTakesPending(next.run.trace) && (next.Continue? ==> FeedbackKept(next.run))
    decreases phase.maxRepairs - attempt
  {
    var prompt := VerifyPrompt(phase.id, phase.criteria, run.answer, run.feedback);
    PendingAfter(run.trace, Sent(prompt));
    var answer := NextTurn(w, run);
    if answer.Some? && answer.value.verdict.Some? && attempt < phase.maxRepairs {
      var turn := answer.value;
      var judged := Judge(Record(Send(run, prompt), turn).(feedback := ""), phase.id, attempt, turn.verdict.value);
      AttemptsKeepFeedback(w, phase, judged, attempt + 1, turnIds + [turn.id], Some(turn.verdict.value.issues));
    }
  }

  lemma WorkKeepsFeedback(s: Setup, w: World, phase: Phase, run: Run)
    requires phase.Work? && FeedbackKept(run)
    ensures var next := RunWork(s, w, phase, run);
            EachTakesPending(next.run.trace) && (next.Continue? ==> FeedbackKept(next.run))
  {
    PendingAfter(run.trace, Sent(WorkPromptFor(s, phase, run)));
  }

  lemma CheckpointKeepsFeedback(w: World, phase: Phase, run: Run)
    requires phase.Checkpoint? && FeedbackKept(run)
    ensures var next := RunCheckpoint(w, phase, run);
            EachTakesPending(next.run.trace) && (next.Continue? ==> FeedbackKept(next.run))
  {
    PendingAfter(run.trace, Asked(phase.id, phase.question, NextResolution(w, run)));
  }

  lemma CommandKeepsFeedback(w: World, phase: Phase, run: Run)
    requires phase.Command? && FeedbackKept(run)
    ensures var next := RunCommand(w, phase, run);
            EachTakesPending(next.run.trace) && (next.Continue? ==> FeedbackKept(next.run))
  {
    PendingAfter(run.trace, Sent(CommandPrompt(phase.id, phase.name, phase.stepType, phase.command, phase.expectedExitCode)));
  }

  lemma PhaseKeepsFeedback(s: Setup, w: World, phase: Phase, run: Run)
    requires FeedbackKept(run)
    ensures var next := RunPhase(s, w, phase, run);
            EachTakesPending(next.run.trace) && (next.Continue? ==> FeedbackKept(next.run))
  {
    match phase
    case Work(_, _, _, _, _, _) => WorkKeepsFeedback(s, w, phase, run);
    case Checkpoint(_, _, _, _) => CheckpointKeepsFeedback(w, phase, run);
    case Command(_, _, _, _, _, _, _) => CommandKeepsFeedback(w, phase, run);
    case Verify(_, _, _, _, _) => AttemptsKeepFeedback(w, phase, run, 0, [], None);
  }

  lemma {:induction false} RestKeepsFeedback(s: Setup, w: World, order: seq<Phase>, k: nat, run: Run)
    requires k <= |order| && FeedbackKept(run)
    ensures EachTakesPending(RunFrom(s, w, order, k, run).run.trace)
    decreases |order| - k
  {
    if k < |order| {
      PhaseKeepsFeedback(s, w, order[k], run);
      var next := RunPhase(s, w, order[k], run);
      if next.Continue? {
        RestKeepsFeedback(s, w, order, k + 1, next.run);
      }
    }
  }

  lemma {:induction false} PendingIsFromLastGiver(trace: seq<Step>)
    ensures forall i :: LastGiver(trace, i) ==> Pending(trace) == trace[i].resolution.feedback
    ensures (forall i :: !LastGiver(trace, i)) ==> Pending(trace) == ""
  {
    if trace != [] {
      var n := |trace| - 1;
      var init := trace[..n];
      PendingIsFromLastGiver(init);
      if PassesFeedbackOn(trace[n]) {
        assert forall i :: LastGiver(trace, i) <==> LastGiver(init, i);
      } else if GivesFeedback(trace[n]) {
        assert LastGiver(trace, n);
      }
    }
  }

  lemma FeedsAtMostOne(trace: seq<Step>, i: int, i': int, j: int, j': int)
    requires Feeds(trace, i, j) && Feeds(trace, i', j')
    ensures i == i' <==> j == j'
  {
    if j < j' {
      assert trace[..j'][j] == trace[j];
    } else if j' < j {
      assert trace[..j][j'] == trace[j'];
    }
  }

  /**
   In every run, finished or raised: a work or verify prompt carries the feedback that the person
   gave at the accepted checkpoint that feeds it, and no feedback when none does.  A checkpoint feeds at most one
   prompt, and a prompt is fed by at most one checkpoint.
   */
  lemma FeedbackReachesOnePrompt(s: Setup, w: World, order: seq<Phase>, j: nat)
    requires var trace := RunOf(s, w, order).run.trace; j < |trace| && TakesFeedback(trace[j])
    ensures var trace := RunOf(s, w, order).run.trace;
            && (forall i :: Feeds(trace, i, j) ==> trace[j].prompt.feedback == AnswerTo(w, Questions(trace[..i])).feedback)
            && ((forall i :: !Feeds(trace, i, j)) ==> trace[j].prompt.feedback == "")
            && (forall i, i', j' :: Feeds(trace, i, j) && Feeds(trace, i', j') ==> (i == i' <==> j == j'))
  {
    var trace := RunOf(s, w, order).run.trace;
    RestKeepsFeedback(s, w, order, 0, NEW_RUN);
    RunReportsItsAnswers(s, w, order);
    PendingIsFromLastGiver(trace[..j]);
    assert forall i :: Feeds(trace, i, j) <==> LastGiver(trace[..j], i);
    forall i, i', j' | Feeds(trace, i, j) && Feeds(trace, i', j')
      ensures i == i' <==> j == j'
    {
      FeedsAtMostOne(trace, i, i', j, j');
    }
  }

  // ----- Selected memory -----

  predicate CarriesMemory(step: Step) {
    step.Sent? && step.prompt.WorkPrompt? && step.prompt.memory.Some?
  }

  /** The first step is a prompt with exactly the selected excerpts, and no later step repeats them. */
  ghost predicate MemoryOnlyFirst(trace: seq<Step>, excerpts: seq<string>) {
    && trace != []
    && CarriesMemory(trace[0]) && trace[0].prompt.memory == Some(excerpts)
    && forall j :: 0 < j < |trace| ==> !CarriesMemory(trace[j])
  }

  lemma {:induction false} AttemptsKeepMemory(w: World, phase: Phase, run: Run, attempt: nat, turnIds: seq<string>,
                                              issues: Option<seq<string>>, excerpts: seq<string>)
    requires phase.Verify? && attempt <= phase.maxRepairs && MemoryOnlyFirst(run.trace, excerpts)
    ensures var run' := RunAttempts(w, phase, run, attempt, turnIds, issues).run;
            MemoryOnlyFirst(run'.trace, excerpts) && run'.workCount == run.workCount
    decreases phase.maxRepairs - attempt
  {
    var prompt := VerifyPrompt(phase.id, phase.criteria, run.answer, run.feedback);
    var answer := NextTurn(w, run);
    if answer.Some? && answer.value.verdict.Some? && attempt < phase.maxRepairs {
      var turn := answer.value;
      var judged := Judge(Record(Send(run, prompt), turn).(feedback := ""), phase.id, attempt, turn.verdict.value);
      AttemptsKeepMemory(w, phase, judged, attempt + 1, turnIds + [turn.id], Some(turn.verdict.value.issues), excerpts);
    }
  }

  lemma PhaseKeepsMemory(s: Setup, w: World, phase: Phase, run: Run)
    requires run.workCount > 0 && MemoryOnlyFirst(run.trace, s.excerpts)
    ensures var run' := RunPhase(s, w, phase, run).run;
            run'.workCount > 0 && MemoryOnlyFirst(run'.trace, s.excerpts)
  {
    if phase.Verify? {
      AttemptsKeepMemory(w, phase, run, 0, [], None, s.excerpts);
    }
  }

  lemma {:induction false} RestKeepsMemory(s: Setup, w: World, order: seq<Phase>, k: nat, run: Run)
    requires k <= |order| && run.workCount > 0 && MemoryOnlyFirst(run.trace, s.excerpts)
    ensures MemoryOnlyFirst(RunFrom(s, w, order, k, run).run.trace, s.excerpts)
    decreases |order| - k
  {
    if k < |order| {
      PhaseKeepsMemory(s, w, order[k], run);
      var next := RunPhase(s, w, order[k], run);
      if next.Continue? {
        RestKeepsMemory(s, w, order, k + 1, next.run);
      }
    }
  }

  /** Every run of a valid program sends the selected memory in its first prompt and never again. */
  lemma MemoryIsSentOnce(p: Program, s: Setup, w: World)
    requires Valid(p)
    ensures MemoryOnlyFirst(RunOf(s, w, RunOrder(p)).run.trace, s.excerpts)
  {
    var order := RunOrder(p);
    ValidIff(p);
    var next := RunPhase(s, w, order[0], NEW_RUN);
    assert MemoryOnlyFirst(next.run.trace, s.excerpts);
    if next.Continue? {
      RestKeepsMemory(s, w, order, 1, next.run);
    }
  }
}
