/** Runs of manifests without a phase program: one solver turn, then a bounded verifier loop. */
module SolverRuns {
  import opened Lists
  import opened PhaseRuntime

  datatype VerificationBlock = VerificationBlock(enabled: bool, maxRetries: nat)

  datatype SolverRun = SolverRun(answer: string, turnIds: seq<string>, verdicts: seq<Verdict>,
                                 status: Completion, started: nat)

  datatype SolverOutcome = SolverFinished(run: SolverRun) | SolverRaised(run: SolverRun)

  /** The turn budget the compiler announces for such a manifest. */
  function MaximumTurns(v: VerificationBlock): nat {
    1 + if v.enabled then 1 + v.maxRetries else 0
  }

  function VerifyLoop(turns: seq<Turn>, run: SolverRun, attempts: nat): SolverOutcome
    decreases attempts
  {
    if attempts == 0 then SolverFinished(run)
    else
      var started := run.(started := run.started + 1);
      if |run.turnIds| >= |turns| then SolverRaised(started)
      else
        var turn := turns[|run.turnIds|];
        var recorded := started.(turnIds := run.turnIds + [turn.id]);
        if turn.verdict.None? then SolverRaised(recorded)
        else
          var judged := recorded.(verdicts := run.verdicts + [turn.verdict.value], answer := turn.verdict.value.answer);
          if turn.verdict.value.status == "pass" then SolverFinished(judged)
          else VerifyLoop(turns, judged, attempts - 1)
  }

  function SolverRunOf(v: VerificationBlock, turns: seq<Turn>): SolverOutcome {
    if turns == [] then SolverRaised(SolverRun("", [], [], Completed, 1))
    else
      var done := turns[0].status == "completed";
      var run := SolverRun(turns[0].response, [turns[0].id], [], if done then Completed else Stopped, 1);
      VerifyLoop(turns, run, if v.enabled && done then 1 + v.maxRetries else 0)
  }

  method RunSolver(v: VerificationBlock, turns: seq<Turn>) returns (outcome: SolverOutcome)
    ensures outcome == SolverRunOf(v, turns)
  {
    var run := SolverRun("", [], [], Completed, 1);
    if turns == [] {
      return SolverRaised(run);
    }
    run := run.(turnIds := [turns[0].id], answer := turns[0].response);
    if turns[0].status != "completed" {
      run := run.(status := Stopped);
    }
    var attempts := if v.enabled && run.status == Completed then 1 + v.maxRetries else 0;
    for attempt := 0 to attempts
      invariant SolverRunOf(v, turns) == VerifyLoop(turns, run, attempts - attempt)
    {
      run := run.(started := run.started + 1);
      if |run.turnIds| >= |turns| {
        return SolverRaised(run);
      }
      var checked := turns[|run.turnIds|];
      run := run.(turnIds := run.turnIds + [checked.id]);
      if checked.verdict.None? {
        return SolverRaised(run);
      }
      run := run.(verdicts := run.verdicts + [checked.verdict.value], answer := checked.verdict.value.answer);
      if checked.verdict.value.status == "pass" {
        return SolverFinished(run);
      }
    }
    outcome := SolverFinished(run);
  }

  lemma {:induction false} VerifyLoopCost(turns: seq<Turn>, run: SolverRun, attempts: nat)
    ensures VerifyLoop(turns, run, attempts).run.started <= run.started + attempts
    decreases attempts
  {
    if attempts > 0 && |run.turnIds| < |turns| && turns[|run.turnIds|].verdict.Some? {
      var turn := turns[|run.turnIds|];
      var judged := run.(started := run.started + 1, turnIds := run.turnIds + [turn.id],
                         verdicts := run.verdicts + [turn.verdict.value], answer := turn.verdict.value.answer);
      VerifyLoopCost(turns, judged, attempts - 1);
    }
  }

  lemma {:induction false} VerifyLoopBusy(turns: seq<Turn>, run: SolverRun, attempts: nat)
    requires |run.turnIds| + attempts <= |turns|
    requires forall i :: |run.turnIds| <= i < |turns| ==> turns[i].verdict.Some? && turns[i].verdict.value.status != "pass"
    ensures var outcome := VerifyLoop(turns, run, attempts);
            outcome.SolverFinished? && outcome.run.started == run.started + attempts && outcome.run.status == run.status
    decreases attempts
  {
    if attempts > 0 {
      var turn := turns[|run.turnIds|];
      var judged := run.(started := run.started + 1, turnIds := run.turnIds + [turn.id],
                         verdicts := run.verdicts + [turn.verdict.value], answer := turn.verdict.value.answer);
      VerifyLoopBusy(turns, judged, attempts - 1);
    }
  }

  /** No answers exceed the announced budget, and some answers finish the run and use it up. */
  lemma SolverBudget(v: VerificationBlock)
    ensures forall turns :: SolverRunOf(v, turns).run.started <= MaximumTurns(v)
    ensures exists turns :: SolverRunOf(v, turns).SolverFinished? && SolverRunOf(v, turns).run.started == MaximumTurns(v)
  {
    forall turns: seq<Turn>
      ensures SolverRunOf(v, turns).run.started <= MaximumTurns(v)
    {
      if turns != [] {
        var done := turns[0].status == "completed";
        var run := SolverRun(turns[0].response, [turns[0].id], [], if done then Completed else Stopped, 1);
        VerifyLoopCost(turns, run, if v.enabled && done then 1 + v.maxRetries else 0);
      }
    }
    var repair := Turn("turn", "", "completed", None, [], None, Some(Verdict("repair", "", [])));
    var turns := seq(MaximumTurns(v), i => repair);
    assert "repair"[0] != "pass"[0];
    VerifyLoopBusy(turns, SolverRun("", ["turn"], [], Completed, 1), MaximumTurns(v) - 1);
    assert SolverRunOf(v, turns).run.started == MaximumTurns(v);
  }

  // ----- What a solver run reports -----

  /** A verifier turn that asks for another attempt. */
  predicate AsksAgain(turn: Turn) {
    turn.verdict.Some? && turn.verdict.value.status != "pass"
  }

  /** The run reports the verdicts of the turns after the first, in order, and the latest answer. */
  ghost predicate SolverReports(turns: seq<Turn>, run: SolverRun) {
    var n := |run.turnIds|;
    && 1 <= n <= |turns| && run.started == n && |run.verdicts| == n - 1
    && (forall i :: 0 <= i < n ==> run.turnIds[i] == turns[i].id)
    && (forall i :: 1 <= i < n ==> turns[i].verdict == Some(run.verdicts[i - 1]))
    && run.answer == (if n == 1 then turns[0].response else run.verdicts[n - 2].answer)
  }

  function AfterVerdict(run: SolverRun, turn: Turn): SolverRun
    requires turn.verdict.Some?
  {
    run.(started := run.started + 1, turnIds := run.turnIds + [turn.id], verdicts := run.verdicts + [turn.verdict.value],
         answer := turn.verdict.value.answer)
  }

  lemma OneMoreVerdict(turns: seq<Turn>, run: SolverRun)
    requires SolverReports(turns, run) && |run.turnIds| < |turns| && turns[|run.turnIds|].verdict.Some?
    ensures SolverReports(turns, AfterVerdict(run, turns[|run.turnIds|]))
  {}

  /** How a finished loop ends: at a pass, or when its attempts are used up. */
  ghost predicate EndsRightly(turns: seq<Turn>, from: nat, attempts: nat, n: nat) {
    && from <= n <= from + attempts && n <= |turns|
    && (forall i :: 1 <= i < n - 1 ==> AsksAgain(turns[i]))
    && (n < from + attempts ==> n > 1 && !AsksAgain(turns[n - 1]))
  }

  lemma {:induction false} LoopReports(turns: seq<Turn>, run: SolverRun, attempts: nat)
    requires SolverReports(turns, run) && forall i :: 1 <= i < |run.turnIds| ==> AsksAgain(turns[i])
    ensures var outcome := VerifyLoop(turns, run, attempts);
            outcome.SolverFinished? ==>
              && SolverReports(turns, outcome.run) && outcome.run.status == run.status
              && EndsRightly(turns, |run.turnIds|, attempts, |outcome.run.turnIds|)
    decreases attempts
  {
    var k := |run.turnIds|;
    if attempts > 0 && k < |turns| && turns[k].verdict.Some? {
      OneMoreVerdict(turns, run);
      if turns[k].verdict.value.status != "pass" {
        LoopReports(turns, AfterVerdict(run, turns[k]), attempts - 1);
      }
    }
  }

  /**
   A finished run is stopped exactly when the solver turn did not complete, and then nothing is
   verified.  Otherwise the verifier is asked again until it passes or its attempts are used up,
   and the run reports every verdict and the answer of the last one.
   */
  lemma SolverRunIsReported(v: VerificationBlock, turns: seq<Turn>)
    requires SolverRunOf(v, turns).SolverFinished?
    ensures var run := SolverRunOf(v, turns).run;
            var n := |run.turnIds|;
            && SolverReports(turns, run)
            && (run.status == Completed <==> turns[0].status == "completed")
            && (run.status == Stopped <==> turns[0].status != "completed")
            && (forall i :: 1 <= i < n - 1 ==> AsksAgain(turns[i]))
            && (if !v.enabled || run.status == Stopped then n == 1
                else 2 <= n <= MaximumTurns(v) && (n < MaximumTurns(v) ==> !AsksAgain(turns[n - 1])))
  {
    var done := turns[0].status == "completed";
    var run := SolverRun(turns[0].response, [turns[0].id], [], if done then Completed else Stopped, 1);
    LoopReports(turns, run, if v.enabled && done then 1 + v.maxRetries else 0);
  }

  // ----- When a solver run raises -----

  /** The verifier's turn `n` is due, and there is none or it has no verdict. */
  ghost predicate LacksVerdict(v: VerificationBlock, turns: seq<Turn>, n: nat) {
    && 1 <= n <= |turns| && n < MaximumTurns(v)
    && (forall i :: 1 <= i < n ==> AsksAgain(turns[i]))
    && (n == |turns| || turns[n].verdict.None?)
  }

  lemma {:induction false} LoopRaisesIff(v: VerificationBlock, turns: seq<Turn>, run: SolverRun, attempts: nat)
    requires 1 <= |run.turnIds| <= |turns| && |run.turnIds| + attempts == MaximumTurns(v)
    requires forall i :: 1 <= i < |run.turnIds| ==> AsksAgain(turns[i])
    ensures VerifyLoop(turns, run, attempts).SolverRaised? <==> exists n :: LacksVerdict(v, turns, n)
    decreases attempts
  {
    var k := |run.turnIds|;
    if attempts > 0 && k < |turns| && AsksAgain(turns[k]) {
      LoopRaisesIff(v, turns, AfterVerdict(run, turns[k]), attempts - 1);
    } else if attempts > 0 && (k == |turns| || turns[k].verdict.None?) {
      assert LacksVerdict(v, turns, k);
    } else {
      forall n | 1 <= n <= |turns| && n < MaximumTurns(v)
        ensures !LacksVerdict(v, turns, n)
      {
        assert n < k ==> AsksAgain(turns[n]);
        assert n > k ==> !AsksAgain(turns[k]);
      }
    }
  }

  /**
   The older path raises exactly when there is no solver turn, or the solver turn completed, the
   verifier is on, and one of its turns is missing or has no verdict after all earlier ones asked
   again.
   */
  lemma SolverRaisesIff(v: VerificationBlock, turns: seq<Turn>)
    ensures SolverRunOf(v, turns).SolverRaised? <==>
            || turns == []
            || (v.enabled && turns[0].status == "completed" && exists n :: LacksVerdict(v, turns, n))
  {
    if turns != [] && v.enabled && turns[0].status == "completed" {
      LoopRaisesIff(v, turns, SolverRun(turns[0].response, [turns[0].id], [], Completed, 1), 1 + v.maxRetries);
    }
  }
}
