/**
 Interrupting the active turn.  One runner registers and unregisters turns, any number of other
 threads request interrupts; every block that holds the gateway's lock is one atomic action, and
 the interrupt call to the app server is a separate, later one.  Turns are numbered in the order
 they are started.
 */
module InterruptProtocol {
  import opened Lists

  /** Where the runner stands inside one turn. */
  datatype Runner =
    | Idle
    | Starting(turn: nat)
    | Registered(turn: nat, mustInterrupt: bool)
    | Listening(turn: nat)
    | Broken(turn: nat)

  /** An interrupt call to the app server, on behalf of a request or of the runner itself. */
  datatype Call = ForRequest(request: nat, turn: nat) | ByRunner(turn: nat)

  datatype View = View(active: Option<nat>, interruptRequested: bool, runner: Runner, started: nat,
                       targets: seq<Option<nat>>, calls: seq<Call>)

  const INITIAL := View(None, false, Idle, 0, [], [])

  datatype Action =
    | Start                   // the app server has started the runner's next turn
    | Register                // lock: publish the turn, read the request flag
    | Follow                  // call the interrupt if the flag was set, then listen
    | FollowFails             // that call raises before the turn's cleanup is in place
    | Finish                  // lock: unpublish the turn, clear the flag
    | Request                 // lock: set the flag, read the active turn
    | CallFor(request: nat)   // the requester's interrupt call

  predicate Enabled(v: View, a: Action) {
    match a
    case Start => v.runner.Idle?
    case Register => v.runner.Starting?
    case Follow => v.runner.Registered?
    case FollowFails => v.runner.Registered? && v.runner.mustInterrupt
    case Finish => v.runner.Listening?
    case Request => true
    case CallFor(r) => r < |v.targets| && v.targets[r].Some? && ForRequest(r, v.targets[r].value) !in v.calls
  }

  function Apply(v: View, a: Action): View
    requires Enabled(v, a)
  {
    match a
    case Start => v.(runner := Starting(v.started), started := v.started + 1)
    case Register => v.(active := Some(v.runner.turn), runner := Registered(v.runner.turn, v.interruptRequested))
    case Follow =>
      v.(runner := Listening(v.runner.turn),
         calls := if v.runner.mustInterrupt then v.calls + [ByRunner(v.runner.turn)] else v.calls)
    case FollowFails => v.(runner := Broken(v.runner.turn))
    case Finish =>
      v.(runner := Idle, interruptRequested := false,
         active := if v.active == Some(v.runner.turn) then None else v.active)
    case Request => v.(interruptRequested := true, targets := v.targets + [v.active])
    case CallFor(r) => v.(calls := v.calls + [ForRequest(r, v.targets[r].value)])
  }

  // ----- The gateway object: its fields and the blocks that hold its lock -----

  class SdkGateway {
    var activeTurn: Option<nat>
    var interruptRequested: bool

    constructor ()
      ensures activeTurn == INITIAL.active == None && interruptRequested == INITIAL.interruptRequested == false
    {
      activeTurn, interruptRequested := None, false;
    }

    method RequestInterrupt(ghost v: View) returns (target: Option<nat>)
      requires activeTurn == v.active && interruptRequested == v.interruptRequested
      modifies this
      ensures var v' := Apply(v, Request);
              && activeTurn == v'.active && interruptRequested == v'.interruptRequested
              && v'.targets == v.targets + [target]
      ensures interruptRequested && activeTurn == target == old(activeTurn)
    {
      interruptRequested := true;
      target := activeTurn;
    }

    method RegisterTurn(turn: nat, ghost v: View) returns (mustInterrupt: bool)
      requires activeTurn == v.active && interruptRequested == v.interruptRequested
      requires v.runner == Starting(turn)
      modifies this
      ensures var v' := Apply(v, Register);
              && activeTurn == v'.active && interruptRequested == v'.interruptRequested
              && v'.runner == Registered(turn, mustInterrupt)
      ensures activeTurn == Some(turn) && mustInterrupt == interruptRequested == old(interruptRequested)
    {
      activeTurn := Some(turn);
      mustInterrupt := interruptRequested;
    }

    method UnregisterTurn(turn: nat, ghost v: View)
      requires activeTurn == v.active && interruptRequested == v.interruptRequested
      requires v.runner == Listening(turn)
      modifies this
      ensures var v' := Apply(v, Finish);
              activeTurn == v'.active && interruptRequested == v'.interruptRequested
      ensures !interruptRequested && activeTurn == if old(activeTurn) == Some(turn) then None else old(activeTurn)
    {
      if activeTurn == Some(turn) {
        activeTurn := None;
      }
      interruptRequested := false;
    }
  }

  // ----- All interleavings -----

  ghost predicate Possible(trace: seq<Action>) {
    trace == [] ||
    (Possible(trace[..|trace| - 1]) && Enabled(After(trace[..|trace| - 1]), trace[|trace| - 1]))
  }

  ghost function After(trace: seq<Action>): View {
    if trace == [] then INITIAL
    else
      var before, a := After(trace[..|trace| - 1]), trace[|trace| - 1];
      if Enabled(before, a) then Apply(before, a) else before
  }

  lemma {:induction false} PossiblePrefix(trace: seq<Action>, n: nat)
    requires Possible(trace) && n <= |trace|
    ensures Possible(trace[..n])
    ensures n < |trace| ==> Enabled(After(trace[..n]), trace[n]) && After(trace[..n + 1]) == Apply(After(trace[..n]), trace[n])
    decreases |trace|
  {
    if n == |trace| {
      assert trace[..n] == trace;
    } else {
      assert trace[..n + 1][..n] == trace[..n];
      if n < |trace| - 1 {
        PossiblePrefix(trace[..|trace| - 1], n);
        assert trace[..|trace| - 1][..n] == trace[..n];
      }
    }
  }

  predicate BetweenTurns(runner: Runner) {
    runner.Idle? || runner.Starting?
  }

  ghost predicate Consistent(v: View) {
    && v.active == (if BetweenTurns(v.runner) then None else Some(v.runner.turn))
    && (!v.runner.Idle? ==> v.runner.turn + 1 == v.started)
    && (forall call | call in v.calls ::
          match call
          case ForRequest(r, t) => r < |v.targets| && v.targets[r] == Some(t)
          case ByRunner(t) => t < v.started && (t + 1 == v.started ==> v.runner.Idle? || v.runner == Listening(t)))
    && Distinct(v.calls)
  }

  lemma {:induction false} ReachableIsConsistent(trace: seq<Action>)
    requires Possible(trace)
    ensures Consistent(After(trace))
  {
    if trace != [] {
      ReachableIsConsistent(trace[..|trace| - 1]);
      StepKeepsConsistent(After(trace[..|trace| - 1]), trace[|trace| - 1]);
    }
  }

  lemma StepKeepsConsistent(v: View, a: Action)
    requires Consistent(v) && Enabled(v, a)
    ensures Consistent(Apply(v, a))
  {
    if a.Follow? {
      assert ByRunner(v.runner.turn) !in v.calls;
    }
  }

  // ----- Requests against a registered turn -----

  lemma {:induction false} TargetsGrow(trace: seq<Action>, n: nat)
    requires Possible(trace) && n <= |trace|
    ensures After(trace[..n]).targets <= After(trace).targets
    decreases |trace|
  {
    if n == |trace| {
      assert trace[..n] == trace;
    } else {
      TargetsGrow(trace[..|trace| - 1], n);
      assert trace[..|trace| - 1][..n] == trace[..n];
    }
  }

  /**
   The call made for a request interrupts the turn that was registered when the request took the
   lock: never a later turn, and none at all when no turn was registered.
   */
  lemma RequestInterruptsItsOwnTurn(trace: seq<Action>, i: nat, turn: nat)
    requires Possible(trace) && i < |trace| && trace[i] == Request
    ensures var v := After(trace[..i]);
            ForRequest(|v.targets|, turn) in After(trace).calls ==> v.active == Some(turn) && turn < v.started
  {
    var v := After(trace[..i]);
    PossiblePrefix(trace, i);
    PossiblePrefix(trace, i + 1);
    ReachableIsConsistent(trace);
    ReachableIsConsistent(trace[..i]);
    TargetsGrow(trace, i + 1);
    assert After(trace[..i + 1]).targets[|v.targets|] == v.active;
  }

  ghost predicate Calls(trace: seq<Action>, k: int, request: nat) {
    0 <= k < |trace| && trace[k] == CallFor(request)
  }

  lemma {:induction false} CalledIff(trace: seq<Action>, request: nat, turn: nat)
    requires Possible(trace)
    ensures var v := After(trace);
            ForRequest(request, turn) in v.calls <==>
            request < |v.targets| && v.targets[request] == Some(turn) && exists k :: Calls(trace, k, request)
  {
    if trace != [] {
      var n := |trace| - 1;
      var init := trace[..n];
      CalledIff(init, request, turn);
      PossiblePrefix(trace, n);
      assert After(trace) == Apply(After(init), trace[n]);
      assert forall k :: Calls(trace, k, request) <==> Calls(init, k, request) || (k == n && trace[n] == CallFor(request));
      ReachableIsConsistent(init);
      if k :| Calls(init, k, request) {
        CallHasTarget(init, k, request);
        assert Calls(trace, k, request);
      }
      if trace[n] == CallFor(request) {
        assert Calls(trace, n, request);
      }
    }
  }

  lemma CallHasTarget(trace: seq<Action>, k: nat, request: nat)
    requires Possible(trace) && Calls(trace, k, request)
    ensures request < |After(trace[..k]).targets| <= |After(trace).targets|
  {
    PossiblePrefix(trace, k);
    TargetsGrow(trace, k);
  }

  /**
   A request against a registered turn yields a call to that turn: the call is made exactly when
   the requester takes its step, once, and until then the step stays open.
   */
  lemma RequestIsServed(trace: seq<Action>, i: nat)
    requires Possible(trace) && i < |trace| && trace[i] == Request && After(trace[..i]).active.Some?
    ensures var v, r := After(trace[..i]), |After(trace[..i]).targets|;
            var call := ForRequest(r, v.active.value);
            && (forall k :: Calls(trace, k, r) ==> i < k)
            && (call in After(trace).calls <==> exists k :: Calls(trace, k, r))
            && multiset(After(trace).calls)[call] <= 1
            && ((forall k :: !Calls(trace, k, r)) ==> Enabled(After(trace), CallFor(r)))
  {
    var v, r := After(trace[..i]), |After(trace[..i]).targets|;
    PossiblePrefix(trace, i);
    TargetsGrow(trace, i + 1);
    assert After(trace[..i + 1]).targets[r] == v.active;
    CalledIff(trace, r, v.active.value);
    ReachableIsConsistent(trace);
    DistinctCount(After(trace).calls, ForRequest(r, v.active.value));
    forall k | Calls(trace, k, r)
      ensures i < k
    {
      CallHasTarget(trace, k, r);
      if k <= i {
        PrefixTargetsGrow(trace, k, i);
      }
    }
  }

  lemma PrefixTargetsGrow(trace: seq<Action>, k: nat, i: nat)
    requires Possible(trace) && k <= i <= |trace|
    ensures After(trace[..k]).targets <= After(trace[..i]).targets
  {
    PossiblePrefix(trace, i);
    TargetsGrow(trace[..i], k);
    assert trace[..i][..k] == trace[..k];
  }

  // ----- Requests between turns -----

  /** `trace[i]` requests an interrupt and no turn finishes after it. */
  ghost predicate OpenRequest(trace: seq<Action>, i: int) {
    0 <= i < |trace| && trace[i] == Request && forall k :: i < k < |trace| ==> trace[k] != Finish
  }

  lemma {:induction false} FlagIff(trace: seq<Action>)
    requires Possible(trace)
    ensures After(trace).interruptRequested <==> exists i :: OpenRequest(trace, i)
  {
    if trace != [] {
      var n := |trace| - 1;
      var init := trace[..n];
      FlagIff(init);
      if trace[n] == Request {
        assert OpenRequest(trace, n);
      } else if trace[n] == Finish {
        assert forall i :: !OpenRequest(trace, i);
      } else {
        assert forall i :: OpenRequest(trace, i) <==> OpenRequest(init, i);
      }
    }
  }

  lemma {:induction false} StaysInTurn(trace: seq<Action>, i: nat, n: nat)
    requires Possible(trace) && i <= n <= |trace| && !BetweenTurns(After(trace[..i]).runner)
    requires forall k :: i <= k < n ==> trace[k] != Finish
    ensures !BetweenTurns(After(trace[..n]).runner)
    decreases n
  {
    if i < n {
      StaysInTurn(trace, i, n - 1);
      PossiblePrefix(trace, n - 1);
    }
  }

  /**
   The runner interrupts the turn it registers exactly when some request came after the previous
   turn finished; every such request was made while no turn was registered.
   */
  lemma RegisteredTurnIsInterruptedIff(trace: seq<Action>, j: nat)
    requires Possible(trace) && j < |trace| && trace[j] == Register
    ensures After(trace[..j]).runner.Starting?
    ensures After(trace[..j + 1]).runner ==
            Registered(After(trace[..j]).runner.turn, exists i :: OpenRequest(trace[..j], i))
    ensures forall i :: OpenRequest(trace[..j], i) ==> After(trace[..i]).active == None
  {
    PossiblePrefix(trace, j);
    FlagIff(trace[..j]);
    forall i | OpenRequest(trace[..j], i)
      ensures After(trace[..i]).active == None
    {
      OpenRequestWasBetweenTurns(trace, i, j);
    }
  }

  lemma OpenRequestWasBetweenTurns(trace: seq<Action>, i: nat, j: nat)
    requires Possible(trace) && j <= |trace| && OpenRequest(trace[..j], i)
    requires BetweenTurns(After(trace[..j]).runner)
    ensures After(trace[..i]).active == None
  {
    PossiblePrefix(trace, i);
    ReachableIsConsistent(trace[..i]);
    forall k | i <= k < j
      ensures trace[k] != Finish
    {
      assert trace[..j][k] == trace[k];
    }
    if !BetweenTurns(After(trace[..i]).runner) {
      StaysInTurn(trace, i, j);
    }
  }

  lemma DeferredRequestForcesNextTurn(trace: seq<Action>, i: nat, j: nat)
    requires Possible(trace) && i < j < |trace| && trace[i] == Request && trace[j] == Register
    requires After(trace[..i]).active == None
    requires forall k :: i < k < j ==> trace[k] != Register
    ensures After(trace[..j]).runner.Starting? && RegistersForcibly(trace, j, After(trace[..j]).runner.turn)
  {
    RegisteredTurnIsInterruptedIff(trace, j);
    forall k | i < k < j
      ensures trace[k] != Finish
    {
      PossiblePrefix(trace, i);
      ReachableIsConsistent(trace[..i]);
      StaysBetweenTurns(trace, i, k);
      PossiblePrefix(trace, k);
    }
    assert OpenRequest(trace[..j], i);
  }

  /** The runner is about to interrupt the turn, or the call it made for it has raised. */
  predicate StillDue(runner: Runner, turn: nat) {
    runner == Registered(turn, true) || runner == Broken(turn)
  }

  lemma StepKeepsCall(v: View, a: Action, turn: nat)
    requires Enabled(v, a) && (StillDue(v.runner, turn) || ByRunner(turn) in v.calls)
    ensures StillDue(Apply(v, a).runner, turn) || ByRunner(turn) in Apply(v, a).calls
  {}

  lemma {:induction false} RegisteredTurnIsCalled(trace: seq<Action>, j: nat, n: nat, turn: nat)
    requires Possible(trace) && j < n <= |trace| && After(trace[..j + 1]).runner == Registered(turn, true)
    ensures StillDue(After(trace[..n]).runner, turn) || ByRunner(turn) in After(trace[..n]).calls
    decreases n
  {
    if n > j + 1 {
      RegisteredTurnIsCalled(trace, j, n - 1, turn);
      PossiblePrefix(trace, n - 1);
      StepKeepsCall(After(trace[..n - 1]), trace[n - 1], turn);
    }
  }

  /** A turn that was registered with a request open has had its call, unless that is still due. */
  lemma ForcedTurnIsCalled(trace: seq<Action>, j: nat, n: nat, turn: nat)
    requires Possible(trace) && j < n <= |trace| && RegistersForcibly(trace, j, turn)
    ensures StillDue(After(trace[..n]).runner, turn) || ByRunner(turn) in After(trace[..n]).calls
  {
    RegisteredTurnIsInterruptedIff(trace, j);
    RegisteredTurnIsCalled(trace, j, n, turn);
  }

  lemma CallNotDue(trace: seq<Action>, turn: nat)
    requires Possible(trace) && StillDue(After(trace).runner, turn)
    ensures ByRunner(turn) !in After(trace).calls
  {
    ReachableIsConsistent(trace);
  }

  /**
   A request made while no turn is registered interrupts the next turn to register: from then on
   that turn has had exactly one call by the runner, except while the call is still due.
   */
  lemma DeferredRequestInterruptsNextTurn(trace: seq<Action>, i: nat, j: nat, n: nat)
    requires Possible(trace) && i < j < n <= |trace| && trace[i] == Request && trace[j] == Register
    requires After(trace[..i]).active == None
    requires forall k :: i < k < j ==> trace[k] != Register
    ensures After(trace[..j]).runner.Starting?
    ensures var turn, v := After(trace[..j]).runner.turn, After(trace[..n]);
            && After(trace[..j + 1]).runner == Registered(turn, true)
            && multiset(v.calls)[ByRunner(turn)] == if StillDue(v.runner, turn) then 0 else 1
  {
    RegisteredTurnIsInterruptedIff(trace, j);
    DeferredRequestForcesNextTurn(trace, i, j);
    var turn := After(trace[..j]).runner.turn;
    ForcedTurnIsCalled(trace, j, n, turn);
    PossiblePrefix(trace, n);
    ReachableIsConsistent(trace[..n]);
    DistinctCount(After(trace[..n]).calls, ByRunner(turn));
    if StillDue(After(trace[..n]).runner, turn) {
      CallNotDue(trace[..n], turn);
    }
  }

  lemma {:induction false} StaysBetweenTurns(trace: seq<Action>, i: nat, n: nat)
    requires Possible(trace) && i <= n <= |trace| && BetweenTurns(After(trace[..i]).runner)
    requires forall k :: i <= k < n ==> trace[k] != Register
    ensures BetweenTurns(After(trace[..n]).runner)
    decreases n
  {
    if i < n {
      StaysBetweenTurns(trace, i, n - 1);
      PossiblePrefix(trace, n - 1);
    }
  }

  /** A request against a registered turn is spent when that turn finishes: it starts no later interrupt. */
  lemma RequestDoesNotOutliveItsTurn(trace: seq<Action>, i: nat, j: nat)
    requires Possible(trace) && i < j < |trace| && trace[i] == Request && trace[j] == Register
    requires After(trace[..i]).active.Some?
    ensures !OpenRequest(trace[..j], i)
  {
    RegisteredTurnIsInterruptedIff(trace, j);
  }

  /** `trace[j]` registers `turn` while a request made since the last finish is open. */
  ghost predicate RegistersForcibly(trace: seq<Action>, j: int, turn: nat) {
    && 0 <= j < |trace| && trace[j] == Register
    && After(trace[..j]).runner == Starting(turn)
    && exists i :: OpenRequest(trace[..j], i)
  }

  lemma {:induction false} CalledTurnWasForced(trace: seq<Action>, turn: nat)
    requires Possible(trace)
    requires ByRunner(turn) in After(trace).calls || After(trace).runner == Registered(turn, true)
    ensures exists j :: RegistersForcibly(trace, j, turn)
  {
    var n := |trace| - 1;
    var init := trace[..n];
    PossiblePrefix(trace, n);
    if ByRunner(turn) in After(init).calls || After(init).runner == Registered(turn, true) {
      CalledTurnWasForced(init, turn);
      var j :| RegistersForcibly(init, j, turn);
      assert init[..j] == trace[..j];
      assert RegistersForcibly(trace, j, turn);
    } else {
      FlagIff(init);
      assert RegistersForcibly(trace, n, turn);
    }
  }

  /**
   Requests between turns coalesce: in every reachable state the runner has called once for each
   turn that it registered with a request open and whose call is not still due, and for no other.
   */
  lemma RunnerCallsOncePerTurn(trace: seq<Action>, turn: nat)
    requires Possible(trace)
    ensures var v := After(trace);
            multiset(v.calls)[ByRunner(turn)] ==
            if (exists j :: RegistersForcibly(trace, j, turn)) && !StillDue(v.runner, turn) then 1 else 0
  {
    ReachableIsConsistent(trace);
    DistinctCount(After(trace).calls, ByRunner(turn));
    if ByRunner(turn) in After(trace).calls {
      CalledTurnWasForced(trace, turn);
    }
    if j :| RegistersForcibly(trace, j, turn) {
      ForcedTurnIsCalled(trace, j, |trace|, turn);
      assert trace[..|trace|] == trace;
    }
    if StillDue(After(trace).runner, turn) {
      CallNotDue(trace, turn);
    }
  }
}
