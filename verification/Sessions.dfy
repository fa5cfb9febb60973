/**
 The hand-off of human decisions between the thread that runs a workflow and the threads that
 answer for the user.  Every block that holds the session's lock is one atomic action; waiting on
 the condition variable is the gap between publishing a request and consuming its decision.
 */
module Sessions {
  import opened Lists
  import opened Text
  import opened PhaseRuntime

  datatype Request =
    | Approval(topic: string)
    | CheckpointRequest(phaseId: string, question: string)

  datatype Status = Queued | Running | WaitingForApproval | RunCompleted | RunFailed | RunStopped

  datatype View = View(status: Status, pending: Option<Request>, decision: Option<Resolution>, stopRequested: bool)

  datatype DecideError = UnsupportedDecision | FeedbackTooLong | NothingPending | FeedbackNotAllowed

  datatype StopEffect = AlreadyOver | ReleasedRequest | CallsInterrupt

  const INITIAL := View(Queued, None, None, false)
  const FEEDBACK_LIMIT := 2000
  const CANCEL := Resolution("cancel", "")
  const DECLINE := Resolution("decline", "")

  predicate Over(status: Status) {
    status == RunCompleted || status == RunFailed || status == RunStopped
  }

  predicate Supported(decision: string) {
    decision == "accept" || decision == "acceptForSession" || decision == "decline" || decision == "cancel"
  }

  /** Why a decision is refused while `pending` is the published request, if it is. */
  function Refusal(pending: Option<Request>, decision: string, feedback: string): Option<DecideError> {
    if !Supported(decision) then Some(UnsupportedDecision)
    else if |Strip(feedback)| > FEEDBACK_LIMIT then Some(FeedbackTooLong)
    else if pending.None? then Some(NothingPending)
    else if Strip(feedback) != "" && !pending.value.CheckpointRequest? then Some(FeedbackNotAllowed)
    else None
  }

  lemma SupportedIff(decision: string)
    ensures Supported(decision) <==> decision in ["accept", "acceptForSession", "decline", "cancel"]
  {}

  /** A decision is taken exactly when it is one of the four, its feedback fits, and a request may have it. */
  lemma TakenIff(pending: Option<Request>, decision: string, feedback: string)
    ensures Refusal(pending, decision, feedback) == None <==>
            && decision in ["accept", "acceptForSession", "decline", "cancel"] && |Strip(feedback)| <= 2000
            && pending.Some? && (Strip(feedback) == "" || pending.value.CheckpointRequest?)
  {
    SupportedIff(decision);
  }

  /** Each refusal has its own reason, and the reasons are looked at in this order. */
  lemma RefusedFor(pending: Option<Request>, decision: string, feedback: string)
    ensures var named := decision in ["accept", "acceptForSession", "decline", "cancel"];
            var fits := |Strip(feedback)| <= 2000;
            var refusal := Refusal(pending, decision, feedback);
            && (refusal == Some(UnsupportedDecision) <==> !named)
            && (refusal == Some(FeedbackTooLong) <==> named && !fits)
            && (refusal == Some(NothingPending) <==> named && fits && pending == None)
            && (refusal == Some(FeedbackNotAllowed) <==>
                named && fits && pending.Some? && pending.value.Approval? && Strip(feedback) != "")
  {
    SupportedIff(decision);
  }

  // ----- Atomic actions -----

  datatype Action =
    | Publish(request: Request)
    | Consume(timedOut: bool)
    | Decide(decision: string, feedback: string)
    | Stop
    | SetStatus(status: Status)

  /** One runner: it publishes only when nothing is pending, and consumes a decision or a timeout. */
  predicate Enabled(v: View, a: Action) {
    match a
    case Publish(_) => v.pending.None?
    case Consume(timedOut) => v.pending.Some? && (v.decision.Some? || timedOut)
    case SetStatus(status) => v.pending.None? && status != WaitingForApproval
    case Decide(_, _) => true
    case Stop => true
  }

  function Answer(v: View): Resolution {
    if v.decision.Some? then v.decision.value else DECLINE
  }

  function Apply(v: View, a: Action): View {
    match a
    case Publish(request) => v.(pending := Some(request), status := WaitingForApproval)
    case Consume(_) => v.(decision := None, pending := None, status := Running)
    case Decide(decision, feedback) =>
      if Refusal(v.pending, decision, feedback).Some? then v
      else v.(decision := Some(Resolution(decision, Strip(feedback))))
    case Stop =>
      if Over(v.status) then v
      else if v.pending.Some? then v.(stopRequested := true, decision := Some(CANCEL))
      else v.(stopRequested := true)
    case SetStatus(status) => v.(status := status)
  }

  lemma DecideIs(v: View, decision: string, feedback: string)
    ensures Apply(v, Decide(decision, feedback)) ==
            v.(decision := if Refusal(v.pending, decision, feedback).Some? then v.decision
                           else Some(Resolution(decision, Strip(feedback))))
  {}

  // ----- The session object -----

  class RunSession {
    var status: Status
    var pending: Option<Request>
    var decision: Option<Resolution>
    var stopRequested: bool

    ghost function Now(): View
      reads this
    {
      View(status, pending, decision, stopRequested)
    }

    constructor ()
      ensures Now() == INITIAL
    {
      status, pending, decision, stopRequested := Queued, None, None, false;
    }

    /** The first lock-held part of a wait: publish the request. */
    method BeginWait(request: Request)
      requires Enabled(Now(), Publish(request))
      modifies this
      ensures Now() == Apply(old(Now()), Publish(request))
      ensures status == WaitingForApproval && pending == Some(request)
      ensures decision == old(decision) && stopRequested == old(stopRequested)
    {
      pending := Some(request);
      status := WaitingForApproval;
    }

    /** The last lock-held part of a wait: take the decision, or decline when time is up. */
    method EndWait(timedOut: bool) returns (resolution: Resolution)
      requires Enabled(Now(), Consume(timedOut))
      modifies this
      ensures resolution == Answer(old(Now()))
      ensures resolution == if old(decision).Some? then old(decision).value else Resolution("decline", "")
      ensures Now() == Apply(old(Now()), Consume(timedOut))
      ensures status == Running && pending == None && decision == None && stopRequested == old(stopRequested)
    {
      resolution := if decision.Some? then decision.value else DECLINE;
      decision := None;
      pending := None;
      status := Running;
    }

    method DecideRequest(choice: string, feedback: string) returns (error: Option<DecideError>)
      modifies this
      ensures error == Refusal(old(Now()).pending, choice, feedback)
      ensures Now() == Apply(old(Now()), Decide(choice, feedback))
      ensures decision == if error.Some? then old(decision) else Some(Resolution(choice, Strip(feedback)))
      ensures status == old(status) && pending == old(pending) && stopRequested == old(stopRequested)
    {
      DecideIs(Now(), choice, feedback);
      if !Supported(choice) {
        return Some(UnsupportedDecision);
      }
      var text := Strip(feedback);
      if |text| > FEEDBACK_LIMIT {
        return Some(FeedbackTooLong);
      }
      if pending.None? {
        return Some(NothingPending);
      }
      if text != "" && !pending.value.CheckpointRequest? {
        return Some(FeedbackNotAllowed);
      }
      decision := Some(Resolution(choice, text));
      error := None;
    }

    method RequestStop() returns (effect: StopEffect)
      modifies this
      ensures Now() == Apply(old(Now()), Stop)
      ensures effect == if Over(old(status)) then AlreadyOver
                        else if old(pending).Some? then ReleasedRequest else CallsInterrupt
      ensures stopRequested == (old(stopRequested) || effect != AlreadyOver)
      ensures decision == if effect == ReleasedRequest then Some(Resolution("cancel", "")) else old(decision)
      ensures status == old(status) && pending == old(pending)
    {
      if Over(status) {
        return AlreadyOver;
      }
      stopRequested := true;
      if pending.Some? {
        decision := Some(CANCEL);
        return ReleasedRequest;
      }
      effect := CallsInterrupt;
    }
  }

  // ----- All interleavings -----

  function After(trace: seq<Action>): View {
    if trace == [] then INITIAL else Apply(After(trace[..|trace| - 1]), trace[|trace| - 1])
  }

  ghost predicate Possible(trace: seq<Action>) {
    trace == [] ||
    (Possible(trace[..|trace| - 1]) && Enabled(After(trace[..|trace| - 1]), trace[|trace| - 1]))
  }

  lemma {:induction false} PossiblePrefix(trace: seq<Action>, n: nat)
    requires Possible(trace) && n <= |trace|
    ensures Possible(trace[..n])
    ensures n < |trace| ==> Enabled(After(trace[..n]), trace[n]) && After(trace[..n + 1]) == Apply(After(trace[..n]), trace[n])
    decreases |trace|
  {
    if n == |trace| {
      assert trace[..n] == trace;
    } else {
      assert trace[..n + 1][..n] == trace[..n];
      if n < |trace| - 1 {
        PossiblePrefix(trace[..|trace| - 1], n);
        assert trace[..|trace| - 1][..n] == trace[..n];
      }
    }
  }

  /** What holds whenever no thread is inside the lock. */
  ghost predicate Consistent(v: View) {
    && (v.decision.Some? ==> v.pending.Some?)
    && (v.pending.Some? <==> v.status == WaitingForApproval)
    && (v.decision.Some? && v.decision.value.feedback != "" ==> v.pending.value.CheckpointRequest?)
  }

  lemma StepIsConsistent(v: View, a: Action)
    requires Consistent(v) && Enabled(v, a)
    ensures Consistent(Apply(v, a))
  {}

  /** In every reachable state a stored decision belongs to a pending request. */
  lemma {:induction false} ReachableIsConsistent(trace: seq<Action>)
    requires Possible(trace)
    ensures Consistent(After(trace))
  {
    if trace != [] {
      var n := |trace| - 1;
      ReachableIsConsistent(trace[..n]);
      StepIsConsistent(After(trace[..n]), trace[n]);
    }
  }

  /** `trace[k]` asks to stop a run that is not over yet. */
  ghost predicate StopsInTime(trace: seq<Action>, k: int) {
    0 <= k < |trace| && trace[k] == Stop && !Over(After(trace[..k]).status)
  }

  lemma StopStep(v: View, a: Action)
    ensures Apply(v, a).stopRequested <==> v.stopRequested || (a == Stop && !Over(v.status))
  {}

  lemma StopsInTimeInit(trace: seq<Action>)
    requires trace != []
    ensures var n := |trace| - 1;
            (exists k :: StopsInTime(trace, k)) <==>
            (exists k :: StopsInTime(trace[..n], k)) || (trace[n] == Stop && !Over(After(trace[..n]).status))
  {
    var n := |trace| - 1;
    forall k | 0 <= k < n
      ensures StopsInTime(trace, k) <==> StopsInTime(trace[..n], k)
    {
      assert trace[..n][..k] == trace[..k];
    }
    if k :| StopsInTime(trace[..n], k) {
      assert StopsInTime(trace, k);
    }
    assert StopsInTime(trace, n) <==> trace[n] == Stop && !Over(After(trace[..n]).status);
  }

  /** A stop is recorded, for good, exactly when it comes before the run is over. */
  lemma {:induction false} StopRequestedIff(trace: seq<Action>)
    requires Possible(trace)
    ensures After(trace).stopRequested <==> exists k :: StopsInTime(trace, k)
  {
    if trace != [] {
      var n := |trace| - 1;
      StopRequestedIff(trace[..n]);
      StopStep(After(trace[..n]), trace[n]);
      StopsInTimeInit(trace);
    }
  }

  // ----- Which status a session shows -----

  /** The actions that set the status. */
  predicate Sets(a: Action) {
    a.Publish? || a.Consume? || a.SetStatus?
  }

  ghost predicate LastSet(trace: seq<Action>, k: int) {
    0 <= k < |trace| && Sets(trace[k]) && forall j :: k < j < |trace| ==> !Sets(trace[j])
  }

  /** The last of these actions says what is shown and whether a request is pending. */
  ghost predicate ShownBy(a: Action, v: View) {
    match a
    case Publish(request) => v.status == WaitingForApproval && v.pending == Some(request)
    case Consume(_) => v.status == Running && v.pending == None
    case SetStatus(status) => v.status == status && v.pending == None
    case _ => true
  }

  lemma LastSetInit(trace: seq<Action>, k: int)
    requires trace != [] && !Sets(trace[|trace| - 1])
    ensures LastSet(trace, k) <==> LastSet(trace[..|trace| - 1], k)
  {}

  lemma ShownStep(v: View, a: Action, last: Action)
    requires Consistent(v) && Enabled(v, a)
    ensures Sets(a) ==> ShownBy(a, Apply(v, a))
    ensures !Sets(a) && ShownBy(last, v) ==> ShownBy(last, Apply(v, a))
    ensures !Sets(a) ==> Apply(v, a).status == v.status && Apply(v, a).pending == v.pending
  {}

  /**
   A session waits while a request is pending, runs once its last wait is over, shows the status the
   runner set last, and is queued before all of this.
   */
  lemma {:induction false} StatusIsLastSet(trace: seq<Action>, k: int)
    requires Possible(trace)
    ensures LastSet(trace, k) ==> ShownBy(trace[k], After(trace))
    ensures (forall i :: 0 <= i < |trace| ==> !Sets(trace[i])) ==>
              After(trace).status == Queued && After(trace).pending == None
  {
    if trace != [] {
      var n := |trace| - 1;
      StatusIsLastSet(trace[..n], k);
      ReachableIsConsistent(trace[..n]);
      ShownStep(After(trace[..n]), trace[n], if 0 <= k < n then trace[k] else trace[n]);
      if !Sets(trace[n]) {
        LastSetInit(trace, k);
      }
    }
  }

  lemma {:induction false} SomeLastSet(trace: seq<Action>) returns (k: int)
    ensures LastSet(trace, k) || (k == -1 && forall i :: 0 <= i < |trace| ==> !Sets(trace[i]))
  {
    if trace == [] {
      k := -1;
    } else if Sets(trace[|trace| - 1]) {
      k := |trace| - 1;
    } else {
      k := SomeLastSet(trace[..|trace| - 1]);
      LastSetInit(trace, k);
    }
  }

  /** As long as the runner has set no final status, every stop is recorded. */
  lemma EveryStopCounts(trace: seq<Action>, k: nat)
    requires Possible(trace) && k < |trace| && trace[k] == Stop
    requires forall i :: 0 <= i < k && trace[i].SetStatus? ==> trace[i].status in {Queued, Running}
    ensures After(trace).stopRequested
  {
    PossiblePrefix(trace, k);
    var last := SomeLastSet(trace[..k]);
    StatusIsLastSet(trace[..k], last);
    assert last >= 0 ==> trace[..k][last] == trace[last];
    assert StopsInTime(trace, k);
    StopRequestedIff(trace);
  }

  // ----- Which decision a wait returns -----

  /** What an action by another thread writes while `request` is pending. */
  function Writes(request: Request, a: Action): Option<Resolution> {
    match a
    case Decide(decision, feedback) =>
      if Refusal(Some(request), decision, feedback).None? then Some(Resolution(decision, Strip(feedback))) else None
    case Stop => Some(CANCEL)
    case _ => None
  }

  /** `trace[i]` publishes a request that `trace[j]` is the first to consume. */
  ghost predicate Wait(trace: seq<Action>, i: nat, j: nat) {
    && i < j < |trace| && trace[i].Publish? && trace[j].Consume?
    && forall k :: i < k < j ==> !trace[k].Consume?
  }

  /** `trace[k]` is the last action between `i` and `n` that writes a decision for `request`. */
  ghost predicate LastWrite(trace: seq<Action>, request: Request, i: nat, n: nat, k: int)
    requires n <= |trace|
  {
    && i < k < n && Writes(request, trace[k]).Some?
    && forall m :: k < m < n ==> Writes(request, trace[m]).None?
  }

  ghost predicate NoWrite(trace: seq<Action>, request: Request, i: nat, n: nat)
    requires n <= |trace|
  {
    forall m :: i < m < n ==> Writes(request, trace[m]).None?
  }

  function Latest(trace: seq<Action>, request: Request, i: nat, n: nat): Option<Resolution>
    requires n <= |trace|
  {
    if n <= i + 1 then None
    else if Writes(request, trace[n - 1]).Some? then Writes(request, trace[n - 1])
    else Latest(trace, request, i, n - 1)
  }

  lemma {:induction false} LatestIsLastWrite(trace: seq<Action>, request: Request, i: nat, n: nat, k: int)
    requires n <= |trace|
    ensures NoWrite(trace, request, i, n) ==> Latest(trace, request, i, n) == None
    ensures LastWrite(trace, request, i, n, k) ==> Latest(trace, request, i, n) == Writes(request, trace[k])
  {
    if n > i + 1 {
      LatestIsLastWrite(trace, request, i, n - 1, k);
    }
  }

  lemma WaitStep(before: View, request: Request, a: Action)
    requires Consistent(before) && before.pending == Some(request) && Enabled(before, a) && !a.Consume?
    ensures Apply(before, a).pending == Some(request)
    ensures Apply(before, a).decision == if Writes(request, a).Some? then Writes(request, a) else before.decision
  {}

  lemma {:induction false} DuringWait(trace: seq<Action>, i: nat, j: nat, n: nat)
    requires Possible(trace) && Wait(trace, i, j) && i < n <= j
    ensures After(trace[..n]).pending == Some(trace[i].request)
    ensures After(trace[..n]).decision == Latest(trace, trace[i].request, i, n)
    decreases n
  {
    PossiblePrefix(trace, n - 1);
    ReachableIsConsistent(trace[..n - 1]);
    if n - 1 > i {
      DuringWait(trace, i, j, n - 1);
      WaitStep(After(trace[..n - 1]), trace[i].request, trace[n - 1]);
    }
  }

  /**
   Over all interleavings, a wait returns the last decision written between publishing and
   consuming its own request, and a decline, only at timeout, when none was written.  Nothing
   written for another request reaches it, and only a checkpoint receives feedback.
   */
  lemma WaitReturnsLastWrite(trace: seq<Action>, i: nat, j: nat)
    requires Possible(trace) && Wait(trace, i, j)
    ensures var request, answer := trace[i].request, Answer(After(trace[..j]));
            && (forall k :: LastWrite(trace, request, i, j, k) ==> Some(answer) == Writes(request, trace[k]))
            && (NoWrite(trace, request, i, j) ==> answer == DECLINE && trace[j].timedOut)
            && (answer.feedback != "" ==> request.CheckpointRequest?)
            && After(trace[..j + 1]).decision == None && After(trace[..j + 1]).pending == None
  {
    DuringWait(trace, i, j, j);
    PossiblePrefix(trace, j);
    ReachableIsConsistent(trace[..j]);
    forall k
      ensures NoWrite(trace, trace[i].request, i, j) ==> Latest(trace, trace[i].request, i, j) == None
      ensures LastWrite(trace, trace[i].request, i, j, k) ==>
                Latest(trace, trace[i].request, i, j) == Writes(trace[i].request, trace[k])
    {
      LatestIsLastWrite(trace, trace[i].request, i, j, k);
    }
  }

  lemma OneMore(trace: seq<Action>, a: Action)
    requires Possible(trace) && Enabled(After(trace), a)
    ensures Possible(trace + [a]) && After(trace + [a]) == Apply(After(trace), a)
  {
    var longer := trace + [a];
    assert longer[..|longer| - 1] == trace && longer[|longer| - 1] == a;
  }

  lemma AcceptIsTaken(request: Request)
    ensures Strip("") == "" && Refusal(Some(request), "accept", "") == None
  {
    assert Strip("") == "";
  }

  lemma OverruledViews(request: Request)
    ensures var v1 := Apply(INITIAL, Publish(request));
            var v2 := Apply(v1, Stop);
            var v3 := Apply(v2, Decide("accept", ""));
            && Enabled(INITIAL, Publish(request)) && Enabled(v1, Stop) && Enabled(v2, Decide("accept", ""))
            && Enabled(v3, Consume(false)) && Answer(v3) == Resolution("accept", "")
            && Apply(v3, Consume(false)).stopRequested
  {
    AcceptIsTaken(request);
  }

  /** A stop is only a decision like any other: a later one replaces it before the waiter wakes. */
  lemma StopCanBeOverruled(request: Request)
    ensures var before := [Publish(request), Stop, Decide("accept", "")];
            var trace := before + [Consume(false)];
            && Possible(trace) && Wait(trace, 0, 3)
            && Answer(After(before)) == Resolution("accept", "") && After(trace).stopRequested
  {
    var t1 := [Publish(request)];
    var t2 := t1 + [Stop];
    var t3 := t2 + [Decide("accept", "")];
    assert t1 == [] + t1;
    OverruledViews(request);
    OneMore([], Publish(request));
    OneMore(t1, Stop);
    OneMore(t2, Decide("accept", ""));
    OneMore(t3, Consume(false));
    assert t3 == [Publish(request), Stop, Decide("accept", "")];
  }

  predicate Cancels(a: Action) {
    a == Stop || (a.Decide? && a.decision == "cancel" && Strip(a.feedback) == "")
  }

  lemma WritesCancelIff(request: Request, a: Action)
    requires Writes(request, a).Some?
    ensures Writes(request, a) == Some(CANCEL) <==> Cancels(a)
  {}

  lemma AnswerIsLastWrite(trace: seq<Action>, i: nat, j: nat, m: nat)
    requires Possible(trace) && Wait(trace, i, j) && LastWrite(trace, trace[i].request, i, j, m)
    ensures Some(Answer(After(trace[..j]))) == Writes(trace[i].request, trace[m])
  {
    WaitReturnsLastWrite(trace, i, j);
  }

  lemma LastWriteIsUnique(trace: seq<Action>, request: Request, i: nat, j: nat, m: int, m': int)
    requires j <= |trace| && LastWrite(trace, request, i, j, m) && LastWrite(trace, request, i, j, m')
    ensures m == m'
  {}

  /** A stop at a pending request cancels it exactly when the last decision after it is no other. */
  lemma StopCancelsIff(trace: seq<Action>, i: nat, j: nat, k: nat)
    requires Possible(trace) && Wait(trace, i, j) && i < k < j && trace[k] == Stop
    ensures Answer(After(trace[..j])) == CANCEL <==>
            forall m :: k < m && LastWrite(trace, trace[i].request, i, j, m) ==> Cancels(trace[m])
  {
    var request, answer := trace[i].request, Answer(After(trace[..j]));
    var last := LastWriteExists(trace, request, i, j, k);
    AnswerIsLastWrite(trace, i, j, last);
    WritesCancelIff(request, trace[last]);
    forall m | k < m && LastWrite(trace, request, i, j, m)
      ensures m == last
    {
      LastWriteIsUnique(trace, request, i, j, m, last);
    }
  }

  lemma {:induction false} LastWriteExists(trace: seq<Action>, request: Request, i: nat, j: nat, k: nat) returns (m: nat)
    requires i < k < j <= |trace| && Writes(request, trace[k]).Some?
    ensures LastWrite(trace, request, i, j, m) && m >= k
    decreases j - k
  {
    if next :| k < next < j && Writes(request, trace[next]).Some? {
      m := LastWriteExists(trace, request, i, j, next);
    } else {
      m := k;
    }
  }
}
