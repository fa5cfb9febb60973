# WeaveCodex: a verified model of the control plane and its gates

WeaveCodex lets a person draw a workflow of phases, compiles it into a graph with a turn budget,
and runs it against a coding agent that may answer anything. Around that core stand conformance
gates that compare reports with a committed baseline, and a codec for release versions. This
project models those parts in Dafny and proves what they promise, for graphs, runs, interleavings,
reports and texts of any size.

* **Programs.** `PhasePrograms.dfy` holds the phase language, its validation and the stable
  dependency order; `Graphs.dfy` proves the greedy schedule correct in graph terms alone;
  `Compiler.dfy`, `ManifestGraphs.dfy`, `ManifestLinks.dfy` and `ManifestCycles.dfy` hold the
  compiled graphs, the turn budget and the shape of the picture they draw; `PhaseIds.dfy` makes ids
  from display names and `PhaseIdForms.dfy` says which.
* **Runs.** `PhaseRuntime.dfy` executes a program against a `World`: any sequence of turn outcomes
  and checkpoint decisions. `RunReceipts.dfy`, `RunEndings.dfy`, `RunAnswers.dfy`, `RunBounds.dfy`
  and `RunPrompts.dfy` prove what every run leaves behind, how it ends, and what it reports, spends
  and sends. `SolverRuns.dfy` is the older solver and verifier path.
  `Adaptation.dfy` shows that an accepted adaptation runs as its source did.
* **Concurrency.** `Sessions.dfy` (decisions and stops) and `InterruptProtocol.dfy` (interrupt
  requests and turns) are classes whose methods are single lock-held blocks, and traces of those
  blocks in any interleaving. `WorkflowStore.dfy` does the same for saves and deletes.
* **Gates.** `ComplianceReports.dfy`, `ComplianceReader.dfy`, `ComplianceGate.dfy`,
  `ComplianceCompaction.dfy` and `ComplianceSkips.dfy` model the MCP conformance gate;
  `ReviewReports.dfy` and `ReviewGate.dfy` the review gate. `ComplianceMeaning.dfy`,
  `ComplianceIssues.dfy`, `ReviewMeaning.dfy` and `ReviewIssues.dfy` say what a report means, and what
  is wrong with it, in terms of its own fields.
* **Versions.** `ReleaseVersions.dfy` is the normalized form, `ReleaseSpellings.dfy` the release
  form, the tags and the reading of any spelling; `ReleaseForms.dfy` writes all of these out.
* `Lists.dfy`, `Ordering.dfy`, `Text.dfy`, `Unicode.dfy` and `Documents.dfy` are shared ground.

Code that works step by step is a method with loops, proved equal to a specification function; what
the system promises is then proved about that function or about all traces.

Three promises turned out not to hold unconditionally. For each there is a concrete case and the
exact condition:

* The manifest graph is a sound picture exactly when no phase is called `task`, `memory`,
  `integrations`, `safety` or `output`, and has a cycle exactly when one is; validation accepts such
  names.
* Compacting a compliance baseline keeps every verdict exactly when each required case and scenario
  has a check that was not skipped; every catalog has a report for which it does not.
* Ids made from names are described as valid for the schema. They are not when the name has exactly
  one letter or digit, a letter that is still free, or when all short numbered candidates are taken.

The documentation says that stopping a turn records the phase as stopped. It does, for phases of
every kind. The session's own status is another matter: it ends as stopped exactly when the
interrupted phase is not a command that stops on failure; otherwise the run ends with a failed check
and the session as completed.

The version codec also accepts one family of texts that are no release spellings: rewriting an
alpha suffix can complete a beta suffix, so `1-bet-alpha5` reads as `1b5`.

## Model

| member | source | states |
|---|---|---|
| `Graphs.KahnCorrect` | weave-control-plane/weave_codex/phase_program.py:146-157 | taking the earliest available node until none is left schedules every node if and only if the graph has no cycle, if and only if some topological order exists, and then gives the lexicographically least one by list position |
| `Graphs.LeastIsUnique` | weave-control-plane/weave_codex/phase_program.py:146-158 | there is only one least topological order, so the order of a program is determined by its list and arrows alone |
| `PhasePrograms.OrderedPhases` | weave-control-plane/weave_codex/phase_program.py:121-158 | counting in-degrees, sorting and popping the ready list gives the greedy schedule of the graph, or the same error as the checks in their order |
| `PhasePrograms.ScheduleLoop` | weave-control-plane/weave_codex/phase_program.py:146-155 | the loop over mutable counts and a ready list emits exactly the greedy schedule, started from the only root |
| `PhasePrograms.ScheduleOne` | weave-control-plane/weave_codex/phase_program.py:148-155 | one round picks the first available node by list position and leaves counts and ready list exact for the longer schedule |
| `PhasePrograms.Release` | weave-control-plane/weave_codex/phase_program.py:152-155 | the targets of a finished node wait for one node less, and exactly those that wait for none become ready, without repetition |
| `PhasePrograms.CountArrows` | weave-control-plane/weave_codex/phase_program.py:137-141 | the counts are the numbers of arrows into each phase and the lists are the targets in arrow order |
| `PhasePrograms.RootsByCount` | weave-control-plane/weave_codex/phase_program.py:142 | the phases without a count are exactly those without an incoming arrow, in list order |
| `PhasePrograms.OrderedIffExecutable` | weave-control-plane/weave_codex/phase_program.py:121-158 | for programs of any size an order is returned if and only if there are no arrows, or the arrows are distinct, join known and different phases, leave one root and form no cycle; otherwise the error tells a wrong number of roots from a cycle |
| `PhasePrograms.GraphErrorIs` | weave-control-plane/weave_codex/phase_program.py:128-136 | a repeated arrow, an arrow to no phase and a phase joined to itself are each reported exactly when they occur and no earlier cause does |
| `PhasePrograms.OrderIsLeast` | weave-control-plane/weave_codex/phase_program.py:121-158 | the order is a permutation of the phases, the list itself without arrows, and otherwise the least topological order by list position |
| `PhasePrograms.EveryPhaseReached` | weave-control-plane/weave_codex/phase_program.py:142-158 | the first phase is the only root and every phase is reached from it along arrows |
| `PhasePrograms.ValidateProgram` | weave-control-plane/weave_codex/phase_program.py:105-118 | validation reports the first failing rule: unique ids, a work phase, an executable graph, work first, no two checkpoints in a row |
| `PhasePrograms.ValidIff` | weave-control-plane/weave_codex/phase_program.py:105-158 | a program is valid if and only if its ids are distinct, its graph is executable in graph terms, its order starts with work and has no two checkpoints in a row |
| `PhasePrograms.ProgramErrorIs` | weave-control-plane/weave_codex/phase_program.py:105-118 | each validation error is given for exactly its first cause: a shared id, no work phase, the graph error, a first phase that is not work, two checkpoints in a row |
| `PhaseIds.SafePhaseId` | weave-control-plane/weave_codex/phase_program.py:717-731 | the loop ends for every finite set of taken ids with the first free candidate; the id satisfies the schema if and only if the name is no single free letter and a short enough number is free |
| `PhaseIds.FirstFreeId` | weave-control-plane/weave_codex/phase_program.py:725-731 | every earlier candidate was taken and the returned one is not |
| `PhaseIds.BaseShape` | weave-control-plane/weave_codex/phase_program.py:720-723 | the base of an id starts with a letter, has only lower-case letters, digits and single hyphens, at most 48 characters, and is one letter if and only if the name has no other letter or digit |
| `PhaseIds.BaseKeepsName` | weave-control-plane/weave_codex/phase_program.py:720-723 | the letters and digits of a base are those of the name, in order, prefixed by the word phase where a letter is missing, as far as they fit |
| `PhaseIdForms.BaseIsJoined` | weave-control-plane/weave_codex/phase_program.py:720-723 | the base of an id is the maximal runs of letters and digits of the name, joined by single hyphens, after the word phase where a letter is missing, cut to 48 characters without final hyphens |
| `PhaseIdForms.NumberedIsCut` | weave-control-plane/weave_codex/phase_program.py:727-729 | a numbered candidate is the longest front of the base that leaves room for a hyphen and the number, without final hyphens |
| `PhaseIds.ValueOfDecimal` | weave-control-plane/weave_codex/phase_program.py:728 | the number of a candidate is written in decimal |
| `PhaseIds.NumberedDiffer` | weave-control-plane/weave_codex/phase_program.py:727-730 | different suffixes give different candidates even after the base is cut, which is why the loop ends |
| `PhaseIds.NumberedValidIff` | weave-control-plane/weave_codex/phase_program.py:727-730 | a numbered candidate satisfies the schema if and only if its number has at most 46 digits |
| `PhaseIds.OneLetterIdIsTooShort` | weave-control-plane/weave_codex/phase_program.py:717-731 | a one-letter name gets that letter as its id when it is free, and the schema rejects it |
| `Compiler.PhaseTurnBound` | weave-control-plane/weave_codex/phase_program.py:161-172 | the accumulated bound is the sum of the phases' costs and does not depend on their order |
| `Compiler.CostOfPermutation` | weave-control-plane/weave_codex/phase_program.py:161-172 | reordering phases never changes the turn budget |
| `Compiler.CompilePhaseProgram` | weave-control-plane/weave_codex/phase_program.py:175-262 | the compiled graph has task, the phases in execution order and output, the arrows with their start and finish links, or the chain, and the turn bound |
| `Compiler.GraphLinks` | weave-control-plane/weave_codex/phase_program.py:225-236 | with arrows: the arrows, a start link to each phase without incoming and a finish link from each without outgoing arrows |
| `Compiler.ListLinks` | weave-control-plane/weave_codex/phase_program.py:237-242 | without arrows: a chain from task through the phases to output |
| `Compiler.CompilePhaseManifest` | weave-control-plane/weave_codex/manifest.py:232-306 | the manifest graph replaces task by task, memory, integrations and safety and reroutes what left task |
| `Compiler.Reroute` | weave-control-plane/weave_codex/manifest.py:258-265 | exactly the links that left task leave safety, after the three setup links |
| `Compiler.BudgetIsSumOfNodes` | weave-control-plane/weave_codex/phase_program.py:161-255 | the announced maximum equals the sum of the node maxima in both compiled graphs and the sum of the phase costs |
| `ManifestGraphs.ManifestListsPhases` | weave-control-plane/weave_codex/manifest.py:232-306 | the manifest graph lists every phase once in execution order, with its kind, its place in the order and the most turns it may take |
| `ManifestGraphs.FixedNodesAre` | weave-control-plane/weave_codex/manifest.py:232-306 | around the phases stand the task, memory, integrations, safety and output nodes, each of its kind and without turns |
| `ManifestLinks.ProgramLinksAre` | weave-control-plane/weave_codex/phase_program.py:225-243 | the compiled graph has exactly the arrows as next links, a start link from the task to each phase without incoming and a finish link to the output from each without outgoing arrows; without arrows exactly the next links of the chain |
| `ManifestLinks.LinksComeInOrder` | weave-control-plane/weave_codex/phase_program.py:225-243 | with arrows every link is drawn once and the arrows come first in their order; without arrows the links come step by step |
| `ManifestLinks.ManifestLinksAre` | weave-control-plane/weave_codex/manifest.py:232-306 | the manifest graph has exactly the three setup links and the links of the program, which leave safety where they left task |
| `ManifestGraphs.WrappedIsSound` | weave-control-plane/weave_codex/manifest.py:232-265 | wrapping any ordered graph between a setup chain and a sink gives an acyclic graph with the node list as topological order, one source, one sink and every node on a path between them |
| `ManifestGraphs.ManifestIsSoundIff` | weave-control-plane/weave_codex/manifest.py:232-265 | for every valid program the manifest graph is such a picture, from task to output, if and only if no phase uses a reserved name |
| `ManifestCycles.ManifestIsCyclicIff` | weave-control-plane/weave_codex/manifest.py:232-265 | for every valid program the manifest graph has a cycle if and only if some phase uses a reserved name |
| `ManifestGraphs.ReservedNamesAreAccepted` | weave-control-plane/weave_codex/manifest.py:232-265 | a valid program whose phase is called memory has a manifest graph that is no such picture |
| `PhaseRuntime.ObservedCommandResult` | weave-control-plane/weave_codex/phase_runtime.py:118-164 | the loop over a turn's events collects exactly the completed command items whose text or action matches the requested command |
| `PhaseRuntime.ObservedPassIff` | weave-control-plane/weave_codex/phase_runtime.py:118-164 | a check is observed to pass if and only if exactly one completed command item carries the words of the requested command and it completed with the expected exit code |
| `PhaseRuntime.ObservationSays` | weave-control-plane/weave_codex/phase_runtime.py:128-157 | the observation counts the items that carry the command and reports the exit code of the only one, and none otherwise |
| `Text.NormalizeSpaceIff` | weave-control-plane/weave_codex/phase_runtime.py:114-115 | two commands are the same after normalization if and only if they have the same words |
| `Text.WordsIff` | weave-control-plane/weave_codex/phase_runtime.py:114-115 | the words of a command are exactly its maximal runs without white space, in order |
| `PhaseRuntime.ExecuteVerify` | weave-control-plane/weave_codex/phase_runtime.py:443-513 | the repair loop does what the attempt-by-attempt semantics says, including its raising and stopping exits |
| `PhaseRuntime.ExecuteCommand` | weave-control-plane/weave_codex/phase_runtime.py:344-442 | a command step ends as the semantics says, including the overwritten status of an interrupted check |
| `PhaseRuntime.ExecuteOrder` | weave-control-plane/weave_codex/phase_runtime.py:242-525 | the executor's loop with its registers computes the run of the order for every world |
| `PhaseRuntime.ExecutePhaseProgram` | weave-control-plane/weave_codex/phase_runtime.py:242-525 | executing a valid program is the run of its dependency order |
| `RunEndings.RunEndsIff` | weave-control-plane/weave_codex/phase_runtime.py:242-525 | for every order, all turns and all answers: a run raises if and only if, after phases that pass, one finds no turn or a completed turn without the report or verdict it needs, and then leaves one execution for each phase that passed; it completes if and only if every phase passes; otherwise it finishes with the status of the phase that halts it, which is the last one executed |
| `RunEndings.EnoughTurnsFinish` | weave-control-plane/weave_codex/phase_runtime.py:242-525 | with turns for the whole budget and readable answers a run finishes, whatever statuses the turns have and whatever the person decides |
| `RunEndings.OneEnd` | weave-control-plane/weave_codex/phase_runtime.py:242-525 | the order, the turns and the answers leave a run exactly one way to end |
| `RunReceipts.FinishedRunIsJustified` | weave-control-plane/weave_codex/phase_runtime.py:258-525 | for all answers, the executions of a finished run are a prefix of the order, each justified in status and detail by exactly its own turns and the person's answer to it, their turn ids concatenate to the run's, the recorded checkpoints are the executed ones with the person's answers in order, and the last execution explains the end |
| `RunReceipts.CompletedIff` | weave-control-plane/weave_codex/phase_runtime.py:258-525 | a finished run is completed if and only if every phase ran, the person accepted every checkpoint, every work and verify phase ended in a completed turn, and every stop-on-failure command is proven by one matching item and an agreeing report |
| `RunReceipts.PhaseAdds` | weave-control-plane/weave_codex/phase_runtime.py:258-525 | one phase adds one execution justified by its turns and, for a checkpoint, by the person's next answer, and halts the run if and only if that execution is one to stop at |
| `RunReceipts.ExecutedAfterPredecessors` | weave-control-plane/weave_codex/phase_runtime.py:258-293 | a phase is executed only after every phase with an arrow into it |
| `RunReceipts.StoppedSessionIff` | weave-control-plane/weave_codex/runtime.py:688 | a finished session shows stopped if and only if its last turn was interrupted in a phase that is not a stop-on-failure command |
| `RunReceipts.InterruptedPhaseIsRecordedStopped` | weave-control-plane/weave_codex/phase_runtime.py:376-395 | every execution of a finished run whose last turn did not complete is recorded as stopped, whatever its kind |
| `RunReceipts.InterruptedCheckLooksCompleted` | weave-control-plane/weave_codex/phase_runtime.py:392-442 | in a valid program of work and a stop-on-failure check, an interrupted check is recorded as stopped while the run ends as a failed check and the session shows completed |
| `RunAnswers.RunReportsItsAnswers` | weave-control-plane/weave_codex/phase_runtime.py:236-525 | in every run question c gets the person's answer c and each verifier is shown the latest answer; a finished run reports the answer, usage and verdicts that its turns give when read next to the prompts they answer |
| `RunAnswers.PhasesSpeakInOrder` | weave-control-plane/weave_codex/phase_runtime.py:258-513 | the prompts and questions of every run come phase by phase in the order, each carrying the wording, command and effort of its own phase |
| `RunBounds.BudgetHolds` | weave-control-plane/weave_codex/phase_runtime.py:258-525 | no answers make a run, finished or raised, start more turns than the manifest's maximum |
| `RunBounds.BudgetIsTight` | weave-control-plane/weave_codex/phase_program.py:161-172 | for every valid program some answers complete the run and use the whole budget |
| `RunPrompts.FeedbackReachesOnePrompt` | weave-control-plane/weave_codex/phase_runtime.py:257-481 | a work or verify prompt carries exactly the feedback the person gave at the last accepted checkpoint whose feedback no earlier prompt took, across command phases, and none otherwise; no checkpoint feeds two prompts |
| `RunPrompts.FeedsAtMostOne` | weave-control-plane/weave_codex/phase_runtime.py:257-328 | checkpoints and the prompts they feed are paired one to one |
| `RunPrompts.MemoryIsSentOnce` | weave-control-plane/weave_codex/phase_runtime.py:299-320 | the first step of every run of a valid program is a prompt with the selected memory and no later step carries it |
| `SolverRuns.RunSolver` | weave-control-plane/weave_codex/runtime.py:541-604 | the solver turn and the verifier loop do what the attempt-by-attempt semantics says |
| `SolverRuns.SolverBudget` | weave-control-plane/weave_codex/manifest.py:227-228 | no answers exceed the announced maximum of the older path, and some use it up |
| `SolverRuns.SolverRunIsReported` | weave-control-plane/weave_codex/runtime.py:541-604 | a finished run is stopped if and only if the solver turn did not complete; otherwise the verifier is asked again until it passes or its attempts are used up, and every verdict and the last answer are reported |
| `SolverRuns.SolverRaisesIff` | weave-control-plane/weave_codex/runtime.py:541-604 | the older path raises if and only if there is no solver turn, or the solver turn completed, the verifier is on, and one of its turns is missing or has no verdict after all earlier ones asked again |
| `Adaptation.ValidateGoalOnlyAdaptation` | weave-control-plane/weave_codex/workflow_adaptation.py:57-92 | an adaptation is accepted if and only if every structural field of every phase and all arrows are unchanged and some wording is not; each error is given for exactly its first cause |
| `Adaptation.ComparePhases` | weave-control-plane/weave_codex/workflow_adaptation.py:67-89 | the loop over paired phases lists the changed ids, or reports the first structural change, its identity before its fields |
| `Adaptation.ChangedIdsIff` | weave-control-plane/weave_codex/workflow_adaptation.py:88-92 | exactly the phases that differ are listed as changed |
| `Adaptation.ChangedInOrder` | weave-control-plane/weave_codex/workflow_adaptation.py:67-92 | the changed ids are those of the differing phases, once each and in the order of the program |
| `Adaptation.SameKeysIff` | weave-control-plane/weave_codex/workflow_adaptation.py:69-87 | comparing the structural keys compares every field of a phase but its wording |
| `Adaptation.AdaptedProgramSchedulesAlike` | weave-control-plane/weave_codex/workflow_adaptation.py:57-92 | a structure-preserving adaptation of a valid program is valid and has the same execution order, arrows and turn budget |
| `Adaptation.AdaptedProgramRunsAlike` | weave-control-plane/weave_codex/workflow_adaptation.py:57-92 | on the same answers it gives the same phase ids, turn ids, statuses, details, verdicts, checkpoints, stop point and completion, and the same steps up to wording |
| `Adaptation.BareRest` | weave-control-plane/weave_codex/phase_runtime.py:258-525 | erasing all wording before a run or after it gives the same result, from every intermediate state |
| `Sessions.RunSession.constructor` | weave-control-plane/weave_codex/runtime.py:51-62 | a new session is queued with nothing pending, decided or stopped |
| `Sessions.RunSession.BeginWait` | weave-control-plane/weave_codex/runtime.py:118-122 | publishing a request is one atomic step |
| `Sessions.RunSession.EndWait` | weave-control-plane/weave_codex/runtime.py:123-130 | the waiter returns the stored decision or a decline, clears request and decision, and the session runs on |
| `Sessions.RunSession.DecideRequest` | weave-control-plane/weave_codex/runtime.py:132-149 | a decision is stored or refused for the first reason that applies, and a refusal changes nothing |
| `Sessions.TakenIff` | weave-control-plane/weave_codex/runtime.py:132-149 | a decision is taken if and only if it is one of the four, its trimmed feedback has at most 2000 characters, and a request is pending that may have it |
| `Sessions.RefusedFor` | weave-control-plane/weave_codex/runtime.py:132-146 | each of the four refusals is given for exactly its own reason, in the order of the checks |
| `Sessions.RunSession.RequestStop` | weave-control-plane/weave_codex/runtime.py:155-167 | a stop is ignored after the end, cancels a pending request, and otherwise asks for an interrupt |
| `Sessions.StopRequestedIff` | weave-control-plane/weave_codex/runtime.py:155-167 | over all interleavings a stop is recorded, for good, if and only if it comes before the run is over |
| `Sessions.StatusIsLastSet` | weave-control-plane/weave_codex/runtime.py:118-130 | over all interleavings a session waits while a request is pending, runs once its last wait is over, shows the status the runner set last, and is queued before |
| `Sessions.EveryStopCounts` | weave-control-plane/weave_codex/runtime.py:155-167 | until the runner sets a final status every stop is recorded, also during and after waits |
| `Sessions.ReachableIsConsistent` | weave-control-plane/weave_codex/runtime.py:101-167 | in every reachable state a stored decision has a pending request, waiting is shown exactly while one is pending, and stored feedback belongs to a checkpoint |
| `Sessions.WaitReturnsLastWrite` | weave-control-plane/weave_codex/runtime.py:118-167 | over all interleavings a wait returns the last decision written between publishing and consuming its own request, or a decline at timeout when none was; nothing leaks into a later request and feedback reaches checkpoints only |
| `Sessions.StopCanBeOverruled` | weave-control-plane/weave_codex/runtime.py:132-167 | a decision after a stop replaces its cancellation before the waiter wakes |
| `Sessions.StopCancelsIff` | weave-control-plane/weave_codex/runtime.py:132-167 | a stop at a pending request cancels it if and only if the last decision written after it, if any, is a cancellation |
| `InterruptProtocol.SdkGateway.constructor` | weave-control-plane/weave_codex/runtime.py:308-309 | a new gateway has no registered turn and no request |
| `InterruptProtocol.SdkGateway.RequestInterrupt` | weave-control-plane/weave_codex/runtime.py:337-344 | a request sets the flag and targets the turn registered at that moment, if any |
| `InterruptProtocol.SdkGateway.RegisterTurn` | weave-control-plane/weave_codex/runtime.py:360-364 | registering a turn learns in the same step whether it must be interrupted |
| `InterruptProtocol.SdkGateway.UnregisterTurn` | weave-control-plane/weave_codex/runtime.py:391-395 | finishing a turn unregisters it and clears the flag |
| `InterruptProtocol.ReachableIsConsistent` | weave-control-plane/weave_codex/runtime.py:337-396 | registered turn, runner and recorded calls agree in every reachable state |
| `InterruptProtocol.RequestInterruptsItsOwnTurn` | weave-control-plane/weave_codex/runtime.py:337-344 | over all interleavings a request's own call only ever goes to the turn that was registered when it was made |
| `InterruptProtocol.RequestIsServed` | weave-control-plane/weave_codex/runtime.py:337-344 | a request against a registered turn has its call to that turn made exactly when the requester takes its step, once, and until then the step stays open |
| `InterruptProtocol.RegisteredTurnIsInterruptedIff` | weave-control-plane/weave_codex/runtime.py:358-364 | the runner interrupts the turn it registers if and only if a request is open since the last finish, and all such requests were made without a registered turn |
| `InterruptProtocol.DeferredRequestInterruptsNextTurn` | weave-control-plane/weave_codex/runtime.py:337-364 | a request made between turns forces the next turn to register, and from then on that turn has had exactly one interrupt call by the runner except while the call is still due or has raised |
| `InterruptProtocol.RequestDoesNotOutliveItsTurn` | weave-control-plane/weave_codex/runtime.py:391-396 | a request against a registered turn never interrupts a later turn |
| `InterruptProtocol.RunnerCallsOncePerTurn` | weave-control-plane/weave_codex/runtime.py:358-364 | in every reachable state the runner has made exactly one call for each turn it registered with a request open and whose call is not still due, and none for any other turn |
| `WorkflowStore.Store.constructor` | weave-control-plane/weave_codex/workflow_store.py:74-76 | a new store is empty |
| `WorkflowStore.Store.Get` | weave-control-plane/weave_codex/workflow_store.py:129-138 | a record is found if and only if its id has the right form and it is live |
| `WorkflowStore.Store.PrepareSave` | weave-control-plane/weave_codex/workflow_store.py:78-95 | a save builds its record from the request and the parent found now, and fails exactly when the named parent is not found |
| `WorkflowStore.Store.WriteRecord` | weave-control-plane/weave_codex/workflow_store.py:96-111 | the record is written under its own id |
| `WorkflowStore.Store.DeleteRecord` | weave-control-plane/weave_codex/workflow_store.py:140-152 | a delete of a live record takes it out of the library and appends it to the trash, and leaves every other record alone; a refused delete changes nothing |
| `WorkflowStore.StepKeeps` | weave-control-plane/weave_codex/workflow_store.py:78-152 | each atomic part of a save or a delete keeps every record, hash and parent link intact |
| `WorkflowStore.ReachableKeeps` | weave-control-plane/weave_codex/workflow_store.py:78-152 | over every interleaving, also when a parent is deleted between lookup and write, each stored parent hash is the hash of the record saved under that id |
| `WorkflowStore.WrittenOnlyGrows` | weave-control-plane/weave_codex/workflow_store.py:78-152 | a record once written is never altered and stays live or in the trash |
| `WorkflowStore.LiveUntilDeleted` | weave-control-plane/weave_codex/workflow_store.py:78-152 | over every interleaving a written record is live, as written, exactly until the first delete of its id after the write, and from then on in the trash exactly once |
| `WorkflowStore.SaveGoesThrough` | weave-control-plane/weave_codex/workflow_store.py:78-112 | a save under a new id goes through from every reachable state in which its parent, if it names one, is live, and is then found with the fields asked for and the hash of that parent |
| `WorkflowStore.StoredAsRequested` | weave-control-plane/weave_codex/workflow_store.py:82-94 | every record written or under way holds exactly what some earlier request asked for |
| `WorkflowStore.LineageIsForest` | weave-control-plane/weave_codex/workflow_store.py:78-111 | the parent links of all records ever written form a forest that follows the order of writing |
| `ComplianceReports.StableNameIff` | scripts/mcp_conformance/run_codex_compliance.py:1443-1456 | exactly the arrival number of a repeated observation, in the decimal digits of any script, is dropped from a check name, and other names are kept whole |
| `ComplianceMeaning.ReadCheckIff` | scripts/mcp_conformance/run_codex_compliance.py:1425-1456 | a check counts with an identity and an outcome if and only if its source, scenario, name, id, status and success fields say so |
| `ComplianceMeaning.FullReportSays` | scripts/mcp_conformance/run_codex_compliance.py:1592-1679 | a full report is taken to report an outcome if and only if a check in the first case at its required place does |
| `ComplianceMeaning.FullReportUsableIff` | scripts/mcp_conformance/run_codex_compliance.py:1459-1679 | a full report has no issue if and only if its header is right, each required case is reported once with well-formed checks, and the pinned scenarios are exactly those observed over HTTP |
| `ComplianceMeaning.CompactReportSays` | scripts/mcp_conformance/run_codex_compliance.py:1508-1556 | a compact baseline says exactly that the well-formed identities in its two lists passed or failed |
| `ComplianceMeaning.CompactReportUsableIff` | scripts/mcp_conformance/run_codex_compliance.py:1459-1591 | a compact baseline has no issue if and only if its header, modes and transports are right, its lists hold well-formed identities without repetition, and every required case and exactly the pinned scenarios are listed |
| `ComplianceIssues.IssueIff` | scripts/mcp_conformance/run_codex_compliance.py:1459-1679 | a full or compact report has each issue if and only if its fields show it: header, catalog, cases, checks, lists and scenarios, with the place and the scenarios named in the issue |
| `ComplianceIssues.GateIssueIff` | scripts/mcp_conformance/run_codex_compliance.py:1744-1809 | the gate reports exactly the issues of the two reports, a missing or different authentication policy, and the failures in the shipping mode |
| `ComplianceIssues.CompactionIssueIff` | scripts/mcp_conformance/run_codex_compliance.py:1682-1694 | compaction refuses a report for exactly its issues, a missing authentication policy, or a failure in the shipping mode |
| `ComplianceIssues.CompactedSays` | scripts/mcp_conformance/run_codex_compliance.py:1696-1726 | a compact baseline keeps the authentication policy and the pinned scenarios and lists, sorted, exactly the checks seen passing and failing |
| `ComplianceReader.RequiredRegressionChecks` | scripts/mcp_conformance/run_codex_compliance.py:1459-1679 | the reader returns exactly the outcomes that the fields of the report say, grouped by identity, and no issue if and only if the report is right; the issues of full and compact reports come in order |
| `ComplianceReader.ReadBucket` | scripts/mcp_conformance/run_codex_compliance.py:1516-1554 | reading a bucket of a compact baseline adds exactly its well-formed identities and flags malformed and repeated records |
| `ComplianceReader.ReadChecks` | scripts/mcp_conformance/run_codex_compliance.py:1639-1664 | reading the checks of a case adds exactly the well-formed ones, flags the others and collects the scenarios observed over HTTP |
| `ComplianceGate.SuccessIff` | scripts/mcp_conformance/run_codex_compliance.py:1744-1809 | the gate passes if and only if both reports are usable with the same authentication setting, no failure is new, nothing passing is lost, every known failure is seen again or fixed, and the shipping mode has none |
| `ComplianceGate.ListsSay` | scripts/mcp_conformance/run_codex_compliance.py:1772-1809 | the new, known, missing and fixed lists hold exactly the checks they are named after, sorted and without repetition |
| `ComplianceGate.GateIsReflexiveIff` | scripts/mcp_conformance/run_codex_compliance.py:1682-1809 | a report passes against itself if and only if compaction accepts it |
| `ComplianceGate.GateIsTransitive` | scripts/mcp_conformance/run_codex_compliance.py:1744-1809 | passing composes along any chain of baselines, also when one identity both passed and failed |
| `ComplianceGate.AcceptedShape` | scripts/mcp_conformance/run_codex_compliance.py:1459-1679 | a report without issues observed every required case and exactly the pinned scenarios |
| `ComplianceCompaction.CompactRegressionBaseline` | scripts/mcp_conformance/run_codex_compliance.py:1682-1726 | compaction rejects unusable reports and shipping failures and otherwise writes the sorted passing and failing identities |
| `ComplianceCompaction.EvaluateRegressionGate` | scripts/mcp_conformance/run_codex_compliance.py:1744-1809 | the gate's loops give its errors, new, missing, known and fixed lists as sorted set differences |
| `ComplianceCompaction.CompareFailures` | scripts/mcp_conformance/run_codex_compliance.py:1772-1781 | the pass over the candidate splits its failures into known and new and flags the shipping ones |
| `ComplianceCompaction.CompareBaseline` | scripts/mcp_conformance/run_codex_compliance.py:1783-1798 | the pass over the baseline lists what was lost and what was fixed |
| `ComplianceCompaction.CompactedIsRead` | scripts/mcp_conformance/run_codex_compliance.py:1459-1726 | a compact baseline reads back to everything seen passing or failing, and is usable if and only if every required case and scenario has such a check |
| `ComplianceCompaction.CompactionKeepsVerdictsIff` | scripts/mcp_conformance/run_codex_compliance.py:1682-1809 | gating every candidate gives the same complete result against a baseline and its compact form if and only if every required case and scenario has a check that was not skipped |
| `ComplianceCompaction.CompactionIsIdempotent` | scripts/mcp_conformance/run_codex_compliance.py:1682-1726 | a compact baseline compacts, to itself, if and only if that condition holds |
| `ComplianceSkips.CompactionCanLoseVerdicts` | scripts/mcp_conformance/run_codex_compliance.py:1714-1725 | under every catalog of distinct modes there is a full report, accepted by compaction and passing against itself, whose stdio cases rest on skipped checks and which fails against its own compact form |
| `ReviewMeaning.RequiredReviewChecks` | scripts/mcp_conformance/review_regressions.py:859-1029 | the reader returns no issue if and only if the fields of the report are right, and then exactly the outcomes they say, for full and compact reports |
| `ReviewMeaning.FullReportUsableIff` | scripts/mcp_conformance/review_regressions.py:937-1029 | a full report has no issue if and only if its header is right, each required place is reported exactly once with distinct well-formed checks whose conjunction is the case outcome, and the totals counted in the cases and the overall outcome agree |
| `ReviewMeaning.FullReportSays` | scripts/mcp_conformance/review_regressions.py:937-986 | a usable full report gives a check an outcome if and only if a case at its place has a check of that name with that outcome |
| `ReviewMeaning.CompactReportUsableIff` | scripts/mcp_conformance/review_regressions.py:883-1029 | a baseline has no issue if and only if it is of the known kind, lists each required place once, lists well-formed checks without repetition across both lists, and its totals agree |
| `ReviewMeaning.CompactReportSays` | scripts/mcp_conformance/review_regressions.py:903-936 | a usable baseline gives exactly the outcomes that its two lists say |
| `ReviewIssues.ReportIsRead` | scripts/mcp_conformance/review_regressions.py:883-1029 | every report, usable or not, is read as its fields say: the first case at a place and the first check of a name count, the passing list before the failing one |
| `ReviewIssues.IssueIff` | scripts/mcp_conformance/review_regressions.py:883-1029 | a report has each issue if and only if its fields show it |
| `ReviewGate.CompactReviewRegressionBaseline` | scripts/mcp_conformance/review_regressions.py:1032-1067 | compaction rejects unusable reports with their issues and otherwise writes sorted cases and checks |
| `ReviewGate.CompactedSays` | scripts/mcp_conformance/review_regressions.py:1032-1067 | compaction refuses a report with exactly its issues, and otherwise keeps the totals and lists, sorted, the required cases and the checks of each outcome |
| `ReviewGate.EvaluateReviewRegressionGate` | scripts/mcp_conformance/review_regressions.py:1070-1110 | the review gate's lists are the sorted set differences of failures and checks |
| `ReviewGate.CompareFailures` | scripts/mcp_conformance/review_regressions.py:1086-1092 | the candidate's failures are split into known and new |
| `ReviewGate.CompareBaseline` | scripts/mcp_conformance/review_regressions.py:1094-1099 | the baseline's checks are split into missing and fixed ones |
| `ReviewGate.CompactionIsLossless` | scripts/mcp_conformance/review_regressions.py:859-1067 | the compact form of every usable report has no issues, the same outcomes and places, and totals that match |
| `ReviewGate.CompactionIsIdempotent` | scripts/mcp_conformance/review_regressions.py:1032-1067 | compacting a compact baseline gives it back |
| `ReviewGate.CompactionKeepsVerdicts` | scripts/mcp_conformance/review_regressions.py:1032-1110 | every candidate gets the same result against a baseline and its compact form |
| `ReviewGate.GateIsReflexiveIff` | scripts/mcp_conformance/review_regressions.py:1032-1110 | a report passes against itself if and only if compaction accepts it |
| `ReviewGate.GateIsTransitive` | scripts/mcp_conformance/review_regressions.py:1070-1110 | passing composes along any chain of baselines |
| `ReviewGate.SuccessIff` | scripts/mcp_conformance/review_regressions.py:1070-1110 | the gate passes if and only if both reports are usable, no check is lost and every failure was known |
| `ReviewGate.ListsSay` | scripts/mcp_conformance/review_regressions.py:1086-1099 | the known, new, missing and fixed lists hold exactly the checks they are named after, sorted and without repetition |
| `Ordering.TextLessIff` | scripts/mcp_conformance/run_codex_compliance.py:1715-1724 | texts are sorted by their first differing character, a prefix first |
| `Ordering.KeyLessIff` | scripts/mcp_conformance/run_codex_compliance.py:1715-1724 | records are sorted by the first field in which they differ |
| `ReleaseVersions.ParseSound` | sdk/python/release_version.py:10-12 | every text the normalized pattern accepts is well formed and rendering its parts gives it back |
| `ReleaseVersions.ParseRender` | sdk/python/release_version.py:10-12 | every well-formed version is accepted with exactly its own parts, so rendering is injective |
| `ReleaseVersions.BaseIff` | sdk/python/release_version.py:10-12 | a base is digits and dots, with digits at both ends and no two dots in a row |
| `ReleaseForms.ParsedIff` | sdk/python/release_version.py:10-12 | a text is normalized if and only if it is such a base, then nothing or a, b or rc with a number, then nothing or .post with a number |
| `ReleaseSpellings.NormalizedIff` | sdk/python/release_version.py:68-82 | a text normalizes to a version if and only if, trimmed and without its prefix, it is one of that version's listed spellings |
| `ReleaseForms.NormalizesIff` | sdk/python/release_version.py:68-82 | a text normalizes to a given text if and only if, between white space and after nothing, v or rust-v, it is that normalized text or one of its spellings, written out letter by letter |
| `ReleaseSpellings.ReleaseRoundTrip` | sdk/python/release_version.py:45-82 | normalizing the release version, the release tag or the normalized version of any accepted text gives its normalized version |
| `ReleaseSpellings.ReleaseFormIsSpelledOut` | sdk/python/release_version.py:45-65 | pre-releases and alpha hotfixes are spelled out with dots after a hyphen, every other version is left as it is, and the tag adds its prefix |
| `ReleaseForms.ReleaseTexts` | sdk/python/release_version.py:49-65 | the release form of every shape of normalized text, written out letter by letter |
| `ReleaseForms.ReleasedAsNormalized` | sdk/python/release_version.py:45-65 | a version is released as its normalized text, and tagged with the rust-v prefix |
| `ReleaseSpellings.TagsIdentifyVersions` | sdk/python/release_version.py:45-65 | two accepted texts have the same release tag if and only if they normalize alike |
| `ReleaseSpellings.RuntimeReleaseIff` | sdk/python/release_version.py:35-42 | a runtime version resolves if and only if it has the runtime form, and the tag stands for exactly that version |
| `ReleaseForms.RuntimeVersionIff` | sdk/python/release_version.py:9-42 | a runtime version is exactly three groups of digits joined by dots, alone or with a numbered alpha, alone or with its post-release number |
| `ReleaseSpellings.BrokenBetaIsAccepted` | sdk/python/release_version.py:75-78 | a text with a broken beta suffix before an alpha suffix is accepted as a beta version |

## Left out

- HTTP server, uploads, artifact previews, authentication and memory selection: input, output and field projection.
- Prompt wording, interface labels, stage events, the event log, timelines, receipts on disk and error texts: prompts are records of the inputs they carry, errors are constructors.
- JSON: a turn carries its decoded verdict and report, or none where decoding or a missing key would raise; reports and records carry fields that are text, absent or of another type.
- The hash of a program is any function from programs to texts; timestamps and new ids are parameters, and new ids are taken to be unused.
- Schema limits on the numbers of phases and arrows and on text lengths: the theorems hold without them.
- The gateway is a finite list of turn outcomes; asking for one more raises. A checkpoint nobody answers is declined.
- Clocks: a wait ends with a decision or with a timeout that may come at any moment.
- Sessions: a decision's text is trimmed and checked together with the lock-held part, which reads nothing shared; binding the interrupt callback is not modelled.
- InterruptProtocol: what a turn does with an interrupt, and the registration of notifications, are not modelled.
- WorkflowStore: files, directories, listing and damaged records are not modelled; live records are a map and the trash a list.
- PhaseIds.SafePhaseId: the lower-cased name is the input, since Unicode case mapping is not modelled.
- The mode and scenario catalogs of the two suites are parameters, so the theorems hold for every catalog.
- Templates, trials, conformance servers and drivers, packaging and build scripts: fixed data or process control.
