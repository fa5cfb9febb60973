/**
 How a run ends, told from the order, the turns and the person's answers alone: it raises when a
 phase finds no turn or one it cannot read, it halts where a phase may not go on, and it completes
 when every phase passes.
 */
module RunEndings {
  import opened Lists
  import opened PhasePrograms
  import opened Compiler
  import opened PhaseRuntime
  import opened RunReceipts
  import opened RunBounds

  // ----- How one phase ends -----

  /** Try `n` of a phase that starts at turn `from`: every earlier try asked for a repair and one was left. */
  ghost predicate Tries(phase: Phase, turns: seq<Turn>, from: nat, n: nat) {
    && from <= n <= |turns| && n - from < TurnCost(phase)
    && forall i :: from <= i < n ==> AskedForRepair(turns[i])
  }

  /** The gateway's answer can be read: a command needs a report and a verification needs a verdict. */
  predicate Readable(phase: Phase, turn: Turn) {
    (phase.Command? ==> turn.report.Some?) && (phase.Verify? ==> turn.verdict.Some?)
  }

  /** The phase finds no turn, or a completed one that it cannot read. */
  ghost predicate BreaksOff(phase: Phase, turns: seq<Turn>, from: nat) {
    exists n :: Tries(phase, turns, from, n) && BreaksAt(phase, turns, n)
  }

  ghost predicate BreaksAt(phase: Phase, turns: seq<Turn>, n: nat)
    requires n <= |turns|
  {
    n == |turns| || (turns[n].status == "completed" && !Readable(phase, turns[n]))
  }

  /** The person declines, a turn is interrupted, or a command that stops on failure is not proven. */
  ghost predicate Halts(phase: Phase, turns: seq<Turn>, from: nat, answer: Resolution) {
    if phase.Checkpoint? then !Agrees(answer)
    else exists n :: Tries(phase, turns, from, n) && HaltsAt(phase, turns, n)
  }

  ghost predicate HaltsAt(phase: Phase, turns: seq<Turn>, n: nat)
    requires n <= |turns|
  {
    && n < |turns|
    && if turns[n].status != "completed" then true
       else phase.Command? && turns[n].report.Some? && phase.stopOnFailure && !CommandProven(phase, turns[n])
  }

  /** The phase takes the turns from `from` up to `to` and lets the run go on. */
  ghost predicate Passes(phase: Phase, turns: seq<Turn>, from: nat, to: nat, answer: Resolution) {
    if phase.Checkpoint? then to == from && Agrees(answer)
    else from < to <= |turns| && Tries(phase, turns, from, to - 1) && PassesAt(phase, turns, from, to - 1)
  }

  ghost predicate PassesAt(phase: Phase, turns: seq<Turn>, from: nat, n: nat)
    requires from <= n < |turns|
  {
    && turns[n].status == "completed" && Readable(phase, turns[n])
    && match phase
       case Command(_, _, _, _, _, stopOnFailure, _) => stopOnFailure ==> CommandProven(phase, turns[n])
       case Verify(_, _, _, maxRepairs, _) => turns[n].verdict.value.status == "pass" || n == from + maxRepairs
       case _ => true
  }

  lemma OneTry(phase: Phase, turns: seq<Turn>, from: nat, m: nat, n: nat)
    requires phase.Verify? && Tries(phase, turns, from, m) && Tries(phase, turns, from, n) && m < n
    ensures !BreaksAt(phase, turns, m) && !HaltsAt(phase, turns, m) && !PassesAt(phase, turns, from, m)
  {
    assert AskedForRepair(turns[m]);
  }

  /** A phase ends in one way only. */
  lemma OneEnding(phase: Phase, turns: seq<Turn>, from: nat, to: nat, to': nat, answer: Resolution)
    ensures !(BreaksOff(phase, turns, from) && Halts(phase, turns, from, answer))
    ensures Passes(phase, turns, from, to, answer) ==>
              !BreaksOff(phase, turns, from) && !Halts(phase, turns, from, answer)
    ensures Passes(phase, turns, from, to, answer) && Passes(phase, turns, from, to', answer) ==> to == to'
  {
    if phase.Verify? {
      forall m, n | Tries(phase, turns, from, m) && Tries(phase, turns, from, n) && m < n
        ensures !BreaksAt(phase, turns, m) && !HaltsAt(phase, turns, m) && !PassesAt(phase, turns, from, m)
      {
        OneTry(phase, turns, from, m, n);
      }
    }
  }

  // ----- The executor ends phases in these ways -----

  /** The executor leaves a phase as the turns and the answer say. */
  ghost predicate LeavesAs(phase: Phase, turns: seq<Turn>, from: nat, answer: Resolution, next: Next) {
    match next
    case Raise(_) => BreaksOff(phase, turns, from)
    case Halt(_) => Halts(phase, turns, from, answer)
    case Continue(run) => Passes(phase, turns, from, |run.turnIds|, answer)
  }

  lemma WorkLeaves(s: Setup, w: World, phase: Phase, run: Run, answer: Resolution)
    requires phase.Work? && |run.turnIds| <= |w.turns|
    ensures LeavesAs(phase, w.turns, |run.turnIds|, answer, RunWork(s, w, phase, run))
  {
    assert Tries(phase, w.turns, |run.turnIds|, |run.turnIds|);
  }

  lemma CommandLeaves(w: World, phase: Phase, run: Run, answer: Resolution)
    requires phase.Command? && |run.turnIds| <= |w.turns|
    ensures LeavesAs(phase, w.turns, |run.turnIds|, answer, RunCommand(w, phase, run))
  {
    var n := |run.turnIds|;
    assert Tries(phase, w.turns, n, n);
    if n < |w.turns| && w.turns[n].status == "completed" && w.turns[n].report.Some? {
      CommandVerdict(phase, w.turns[n]);
    }
  }

  lemma {:induction false} AttemptsLeave(w: World, phase: Phase, run: Run, attempt: nat, turnIds: seq<string>,
                                         issues: Option<seq<string>>, from: nat, answer: Resolution)
    requires phase.Verify? && attempt <= phase.maxRepairs
    requires |run.turnIds| == from + attempt && Tries(phase, w.turns, from, from + attempt)
    ensures LeavesAs(phase, w.turns, from, answer, RunAttempts(w, phase, run, attempt, turnIds, issues))
    decreases phase.maxRepairs - attempt
  {
    var n := from + attempt;
    if n < |w.turns| && AskedForRepair(w.turns[n]) && attempt < phase.maxRepairs {
      var turn := w.turns[n];
      RepairGoesOn(w, phase, run, attempt, turnIds, issues);
      AttemptsLeave(w, phase, AfterRepair(phase, run, turn, attempt), attempt + 1, turnIds + [turn.id],
                    Some(turn.verdict.value.issues), from, answer);
    }
  }

  lemma PhaseLeaves(s: Setup, w: World, phase: Phase, run: Run)
    requires |run.turnIds| <= |w.turns|
    ensures LeavesAs(phase, w.turns, |run.turnIds|, AnswerTo(w, |run.checkpoints|), RunPhase(s, w, phase, run))
  {
    var answer := AnswerTo(w, |run.checkpoints|);
    match phase
    case Work(_, _, _, _, _, _) => WorkLeaves(s, w, phase, run, answer);
    case Checkpoint(_, _, _, _) =>
    case Command(_, _, _, _, _, _, _) => CommandLeaves(w, phase, run, answer);
    case Verify(_, _, _, _, _) => AttemptsLeave(w, phase, run, 0, [], None, |run.turnIds|, answer);
  }

  // ----- How a whole run ends -----

  /** The first phases of the order pass, each taking the turns between two marks. */
  ghost predicate Reached(order: seq<Phase>, w: World, marks: seq<nat>) {
    && 1 <= |marks| <= |order| + 1 && marks[0] == 0
    && forall i, j :: 0 <= i < j < |marks| && j == i + 1 ==>
                        Passes(order[i], w.turns, marks[i], marks[j], AnswerAt(w, order, i))
  }

  ghost predicate BreaksAfter(order: seq<Phase>, w: World, marks: seq<nat>) {
    Reached(order, w, marks) && |marks| <= |order| && BreaksOff(order[|marks| - 1], w.turns, marks[|marks| - 1])
  }

  ghost predicate HaltsAfter(order: seq<Phase>, w: World, marks: seq<nat>) {
    && Reached(order, w, marks) && |marks| <= |order|
    && Halts(order[|marks| - 1], w.turns, marks[|marks| - 1], AnswerAt(w, order, |marks| - 1))
  }

  ghost predicate PassesAll(order: seq<Phase>, w: World, marks: seq<nat>) {
    Reached(order, w, marks) && |marks| == |order| + 1
  }

  ghost predicate EndsWith(order: seq<Phase>, w: World, marks: seq<nat>) {
    BreaksAfter(order, w, marks) || HaltsAfter(order, w, marks) || PassesAll(order, w, marks)
  }

  lemma {:induction false} SameMarks(order: seq<Phase>, w: World, marks: seq<nat>, marks': seq<nat>, n: nat)
    requires Reached(order, w, marks) && Reached(order, w, marks') && n <= |marks| && n <= |marks'|
    ensures marks[..n] == marks'[..n]
  {
    if n > 1 {
      SameMarks(order, w, marks, marks', n - 1);
      assert marks[n - 2] == marks[..n - 1][n - 2] == marks'[..n - 1][n - 2] == marks'[n - 2];
      OneEnding(order[n - 2], w.turns, marks[n - 2], marks[n - 1], marks'[n - 1], AnswerAt(w, order, n - 2));
      assert marks[..n] == marks[..n - 1] + [marks[n - 1]];
      assert marks'[..n] == marks'[..n - 1] + [marks'[n - 1]];
    }
  }

  lemma NoLongerMarks(order: seq<Phase>, w: World, marks: seq<nat>, marks': seq<nat>)
    requires EndsWith(order, w, marks) && Reached(order, w, marks')
    ensures |marks'| <= |marks|
  {
    var n := |marks|;
    if n < |marks'| {
      SameMarks(order, w, marks, marks', n);
      assert marks[n - 1] == marks[..n][n - 1] == marks'[..n][n - 1] == marks'[n - 1];
      OneEnding(order[n - 1], w.turns, marks[n - 1], marks'[n], marks'[n], AnswerAt(w, order, n - 1));
      assert false;
    }
  }

  /** The order, the turns and the answers leave a run one way to end. */
  lemma OneEnd(order: seq<Phase>, w: World, marks: seq<nat>, marks': seq<nat>)
    requires EndsWith(order, w, marks) && EndsWith(order, w, marks')
    ensures marks == marks'
    ensures BreaksAfter(order, w, marks) ==> !HaltsAfter(order, w, marks) && !PassesAll(order, w, marks)
    ensures HaltsAfter(order, w, marks) ==> !PassesAll(order, w, marks)
  {
    NoLongerMarks(order, w, marks, marks');
    NoLongerMarks(order, w, marks', marks);
    SameMarks(order, w, marks, marks', |marks|);
    assert marks[..|marks|] == marks && marks'[..|marks'|] == marks';
    if |marks| <= |order| {
      var n := |marks| - 1;
      OneEnding(order[n], w.turns, marks[n], marks[n], marks[n], AnswerAt(w, order, n));
    }
  }

  /** The outcome is the one that the marks describe. */
  ghost predicate EndsAs(order: seq<Phase>, w: World, marks: seq<nat>, outcome: Outcome) {
    var run := outcome.run;
    if outcome.Raised? then BreaksAfter(order, w, marks) && run.status == Completed && |run.executions| == |marks| - 1
    else if run.status == Completed then PassesAll(order, w, marks) && |run.executions| == |order|
    else HaltsAfter(order, w, marks) && run.status == StopStatus(order[|marks| - 1]) && |run.executions| == |marks|
  }

  /** The run stands before phase `k`, at the last of the marks. */
  ghost predicate StandsAt(order: seq<Phase>, w: World, marks: seq<nat>, k: nat, run: Run) {
    && k <= |order| && Reached(order, w, marks) && |marks| == k + 1 && |run.executions| == k
    && marks[k] == |run.turnIds| <= |w.turns| && run.checkpoints == Answered(w, order[..k]) && run.status == Completed
  }

  lemma PhaseMoves(s: Setup, w: World, phase: Phase, run: Run)
    requires |run.turnIds| <= |w.turns| && !RunPhase(s, w, phase, run).Raise?
    ensures var next := RunPhase(s, w, phase, run);
            && |next.run.turnIds| <= |w.turns| && |next.run.executions| == |run.executions| + 1
            && next.run.checkpoints == run.checkpoints + (if phase.Checkpoint?
                                                         then [CheckpointRecord(phase.id, AnswerTo(w, |run.checkpoints|))]
                                                         else [])
            && next.run.status == if next.Halt? then StopStatus(phase) else run.status
  {
    PhaseAdds(s, w, phase, run);
  }

  lemma {:induction false} AttemptsRaise(w: World, phase: Phase, run: Run, attempt: nat, turnIds: seq<string>,
                                         issues: Option<seq<string>>)
    requires phase.Verify? && attempt <= phase.maxRepairs
    ensures var next := RunAttempts(w, phase, run, attempt, turnIds, issues);
            next.Raise? ==> next.run.executions == run.executions && next.run.status == run.status
    decreases phase.maxRepairs - attempt
  {
    if |run.turnIds| < |w.turns| && AskedForRepair(w.turns[|run.turnIds|]) && attempt < phase.maxRepairs {
      var turn := w.turns[|run.turnIds|];
      RepairGoesOn(w, phase, run, attempt, turnIds, issues);
      AttemptsRaise(w, phase, AfterRepair(phase, run, turn, attempt), attempt + 1, turnIds + [turn.id],
                    Some(turn.verdict.value.issues));
    }
  }

  /** A phase that raises leaves no execution behind. */
  lemma RaiseKeeps(s: Setup, w: World, phase: Phase, run: Run)
    requires RunPhase(s, w, phase, run).Raise?
    ensures var run' := RunPhase(s, w, phase, run).run; run'.executions == run.executions && run'.status == run.status
  {
    if phase.Verify? {
      AttemptsRaise(w, phase, run, 0, [], None);
    }
  }

  lemma ReachOn(order: seq<Phase>, w: World, marks: seq<nat>, to: nat)
    requires Reached(order, w, marks) && |marks| <= |order|
    requires var k := |marks| - 1; Passes(order[k], w.turns, marks[k], to, AnswerAt(w, order, k))
    ensures Reached(order, w, marks + [to])
  {}

  lemma StepOn(s: Setup, w: World, order: seq<Phase>, k: nat, run: Run, marks: seq<nat>)
    requires k < |order| && StandsAt(order, w, marks, k, run)
    ensures var next := RunPhase(s, w, order[k], run);
            match next
            case Raise(run') => BreaksAfter(order, w, marks) && run'.status == Completed && |run'.executions| == k
            case Halt(run') =>
              HaltsAfter(order, w, marks) && run'.status == StopStatus(order[k]) && |run'.executions| == k + 1
            case Continue(run') => StandsAt(order, w, marks + [|run'.turnIds|], k + 1, run')
  {
    var next := RunPhase(s, w, order[k], run);
    PhaseLeaves(s, w, order[k], run);
    if next.Raise? {
      RaiseKeeps(s, w, order[k], run);
    } else {
      PhaseMoves(s, w, order[k], run);
    }
    if next.Continue? {
      AnsweredNext(w, order, k);
      ReachOn(order, w, marks, |next.run.turnIds|);
    }
  }

  lemma StopStatusEnds(phase: Phase)
    ensures StopStatus(phase) != Completed
  {}

  lemma {:induction false} RestEnds(s: Setup, w: World, order: seq<Phase>, k: nat, run: Run, marks: seq<nat>)
    returns (end: seq<nat>)
    requires StandsAt(order, w, marks, k, run)
    ensures EndsAs(order, w, end, RunFrom(s, w, order, k, run))
    decreases |order| - k
  {
    if k == |order| {
      return marks;
    }
    StepOn(s, w, order, k, run, marks);
    StopStatusEnds(order[k]);
    var next := RunPhase(s, w, order[k], run);
    if next.Continue? {
      end := RestEnds(s, w, order, k + 1, next.run, marks + [|next.run.turnIds|]);
    } else {
      end := marks;
    }
  }

  /**
   A run raises exactly when, after phases that pass, one finds no turn or a completed turn that it
   cannot read; it completes exactly when all phases pass; and otherwise it finishes with the status
   of the phase that halts it.
   */
  lemma RunEndsIff(s: Setup, w: World, order: seq<Phase>)
    ensures var outcome := RunOf(s, w, order);
            && (outcome.Raised? <==> exists marks :: BreaksAfter(order, w, marks))
            && (outcome.Finished? && outcome.run.status == Completed <==> exists marks :: PassesAll(order, w, marks))
            && (outcome.Finished? && outcome.run.status != Completed <==> exists marks :: HaltsAfter(order, w, marks))
            && (forall marks :: HaltsAfter(order, w, marks) ==>
                  outcome.run.status == StopStatus(order[|marks| - 1]) && |outcome.run.executions| == |marks|)
            && (forall marks :: BreaksAfter(order, w, marks) ==>
                  outcome.run.status == Completed && |outcome.run.executions| == |marks| - 1)
  {
    var outcome := RunOf(s, w, order);
    var end := RestEnds(s, w, order, 0, NEW_RUN, [0]);
    OneEnd(order, w, end, end);
    forall marks | EndsWith(order, w, marks)
      ensures marks == end
    {
      OneEnd(order, w, end, marks);
    }
    forall marks
      ensures BreaksAfter(order, w, marks) ==> marks == end
      ensures HaltsAfter(order, w, marks) ==> marks == end
      ensures PassesAll(order, w, marks) ==> marks == end
    {
      assert marks != end ==> !EndsWith(order, w, marks);
    }
  }

  // ----- Runs that cannot raise -----

  lemma {:induction false} MarksWithinBudget(order: seq<Phase>, w: World, marks: seq<nat>, n: nat)
    requires Reached(order, w, marks) && n < |marks|
    ensures marks[n] <= TotalCost(order[..n])
  {
    if n > 0 {
      MarksWithinBudget(order, w, marks, n - 1);
      CostGrows(order, n - 1);
      assert Passes(order[n - 1], w.turns, marks[n - 1], marks[n], AnswerAt(w, order, n - 1));
    }
  }

  /** After the marks, the next phase is given turn `n`, and that turn completed. */
  ghost predicate Gets(order: seq<Phase>, w: World, marks: seq<nat>, n: nat) {
    && Reached(order, w, marks) && |marks| <= |order|
    && Tries(order[|marks| - 1], w.turns, marks[|marks| - 1], n) && n < |w.turns| && w.turns[n].status == "completed"
  }

  /** Every completed turn that a phase of the run gets is one it can read. */
  ghost predicate AllReadable(order: seq<Phase>, w: World) {
    forall marks, n: nat :: Gets(order, w, marks, n) ==> Readable(order[|marks| - 1], w.turns[n])
  }

  lemma CostOfPrefix(order: seq<Phase>, k: nat)
    requires k < |order|
    ensures TotalCost(order[..k]) + TurnCost(order[k]) <= TotalCost(order)
  {
    CostGrows(order, k);
    if k + 1 < |order| {
      CostGrows(order, k + 1);
    } else {
      assert order[..k + 1] == order;
    }
  }

  lemma FindsReadableTurns(order: seq<Phase>, w: World, marks: seq<nat>)
    requires TotalCost(order) <= |w.turns| && AllReadable(order, w)
    requires Reached(order, w, marks) && |marks| <= |order|
    ensures !BreaksAfter(order, w, marks)
  {
    var k := |marks| - 1;
    MarksWithinBudget(order, w, marks, k);
    CostOfPrefix(order, k);
    forall n: nat | Tries(order[k], w.turns, marks[k], n)
      ensures !BreaksAt(order[k], w.turns, n)
    {
      assert w.turns[n].status == "completed" ==> Gets(order, w, marks, n);
    }
  }

  /** With turns for the whole budget and readable answers a run finishes, however its turns and people answer. */
  lemma EnoughTurnsFinish(s: Setup, w: World, order: seq<Phase>)
    requires TotalCost(order) <= |w.turns| && AllReadable(order, w)
    ensures RunOf(s, w, order).Finished?
  {
    RunEndsIff(s, w, order);
    forall marks | Reached(order, w, marks) && |marks| <= |order|
      ensures !BreaksAfter(order, w, marks)
    {
      FindsReadableTurns(order, w, marks);
    }
  }
}
