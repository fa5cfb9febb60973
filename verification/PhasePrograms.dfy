/**
 The phase program language: four kinds of phases, optional dependency arrows, the stable
 dependency order, and the checks a program must pass before it may run.
 */
module PhasePrograms {
  import opened Lists
  import opened Graphs

  datatype Scope = Adaptive | Focused
  datatype Effort = Inherit | Low | Medium | High | XHigh
  datatype StepType = FunctionStep | TestStep | CheckerStep
  datatype Position = Position(x: nat, y: nat)

  datatype Phase =
    | Work(id: string, name: string, goal: string, scope: Scope, effort: Effort, position: Option<Position>)
    | Checkpoint(id: string, name: string, question: string, position: Option<Position>)
    | Verify(id: string, name: string, criteria: string, maxRepairs: nat, position: Option<Position>)
    | Command(id: string, name: string, stepType: StepType, command: string, expectedExitCode: int,
              stopOnFailure: bool, position: Option<Position>)

  datatype Program = Program(phases: seq<Phase>, edges: seq<Arrow<string>>)

  datatype GraphError = DuplicateEdges | UnknownNodes | SelfEdge | NotOneRoot | NotConnectedAcyclic

  datatype ProgramError =
    | DuplicateIds
    | NoWorkPhase
    | BadGraph(graphError: GraphError)
    | FirstNotWork
    | AdjacentCheckpoints

  function Ids(phases: seq<Phase>): (ids: seq<string>)
    ensures |ids| == |phases|
    ensures forall i :: 0 <= i < |phases| ==> ids[i] == phases[i].id
  {
    seq(|phases|, i requires 0 <= i < |phases| => phases[i].id)
  }

  // ----- The dependency order, as a function -----

  function Sources(nodes: seq<string>, arrows: seq<Arrow<string>>): (roots: seq<string>)
    ensures forall x :: x in roots <==> x in nodes && forall a | a in arrows :: a.dst != x
  {
    if nodes == [] then []
    else
      var rest := Sources(nodes[..|nodes| - 1], arrows);
      var last := nodes[|nodes| - 1];
      assert forall x :: x in nodes <==> x in nodes[..|nodes| - 1] || x == last;
      if forall a | a in arrows :: a.dst != last then rest + [last] else rest
  }

  function PhaseById(phases: seq<Phase>, id: string): (phase: Phase)
    requires id in Ids(phases)
    ensures phase in phases && phase.id == id
  {
    phases[IndexOf(Ids(phases), id)]
  }

  function Select(phases: seq<Phase>, order: seq<string>): (selected: seq<Phase>)
    requires forall id | id in order :: id in Ids(phases)
    ensures Ids(selected) == order
    ensures forall phase | phase in selected :: phase in phases
  {
    seq(|order|, i requires 0 <= i < |order| => PhaseById(phases, order[i]))
  }

  predicate KnownEndpoints(nodes: seq<string>, edges: seq<Arrow<string>>) {
    forall e | e in edges :: e.src in nodes && e.dst in nodes
  }

  predicate NoSelfEdges(edges: seq<Arrow<string>>) {
    forall e | e in edges :: e.src != e.dst
  }

  /** The order in which a program's phases run, or the reason it has none. */
  function Order(p: Program): (r: Result<seq<Phase>, GraphError>)
    requires Distinct(Ids(p.phases))
  {
    var ids := Ids(p.phases);
    if p.edges == [] then Ok(p.phases)
    else if !Distinct(p.edges) then Err(DuplicateEdges)
    else if !KnownEndpoints(ids, p.edges) then Err(UnknownNodes)
    else if !NoSelfEdges(p.edges) then Err(SelfEdge)
    else if |Sources(ids, p.edges)| != 1 then Err(NotOneRoot)
    else
      var order := Kahn(ids, p.edges);
      KahnNames(ids, p.edges);
      if |order| != |p.phases| then Err(NotConnectedAcyclic) else Ok(Select(p.phases, order))
  }

  lemma KahnNames(nodes: seq<string>, arrows: seq<Arrow<string>>)
    requires Distinct(nodes)
    ensures forall id | id in Kahn(nodes, arrows) :: id in nodes
  {
    KahnGreedy(nodes, arrows);
    forall id | id in Kahn(nodes, arrows)
      ensures id in nodes
    {
      assert id in Elements(Kahn(nodes, arrows));
    }
  }

  // ----- Counting unfinished predecessors -----

  /** How many arrows into `x` start at a node that is not done. */
  function Waiting(arrows: seq<Arrow<string>>, done: seq<string>, x: string): nat {
    if arrows == [] then 0
    else
      var last := arrows[|arrows| - 1];
      Waiting(arrows[..|arrows| - 1], done, x) + if last.dst == x && last.src !in done then 1 else 0
  }

  function Targets(arrows: seq<Arrow<string>>, x: string): seq<string> {
    if arrows == [] then []
    else
      var last := arrows[|arrows| - 1];
      Targets(arrows[..|arrows| - 1], x) + if last.src == x then [last.dst] else []
  }

  lemma {:induction false} NothingWaiting(arrows: seq<Arrow<string>>, done: seq<string>, x: string)
    ensures Waiting(arrows, done, x) == 0 <==> forall a | a in arrows && a.dst == x :: a.src in done
  {
    if arrows != [] {
      var init, last := arrows[..|arrows| - 1], arrows[|arrows| - 1];
      NothingWaiting(init, done, x);
      assert forall a :: a in arrows <==> a in init || a == last;
    }
  }

  lemma {:induction false} FinishingOne(arrows: seq<Arrow<string>>, done: seq<string>, c: string, x: string)
    requires Distinct(arrows) && c !in done
    ensures Waiting(arrows, done, x) ==
            Waiting(arrows, done + [c], x) + if Arrow(c, x) in arrows then 1 else 0
  {
    if arrows != [] {
      var init, last := arrows[..|arrows| - 1], arrows[|arrows| - 1];
      FinishingOne(init, done, c, x);
      assert last !in init;
      assert forall a :: a in arrows <==> a in init || a == last;
      assert last.src in done + [c] <==> last.src in done || last.src == c;
    }
  }

  lemma {:induction false} TargetsAreArrows(arrows: seq<Arrow<string>>, x: string)
    ensures forall y :: y in Targets(arrows, x) <==> Arrow(x, y) in arrows
    ensures Distinct(arrows) ==> Distinct(Targets(arrows, x))
  {
    if arrows != [] {
      var init, last := arrows[..|arrows| - 1], arrows[|arrows| - 1];
      TargetsAreArrows(init, x);
      assert forall a :: a in arrows <==> a in init || a == last;
      if Distinct(arrows) {
        assert last !in init;
        assert last.src == x ==> last == Arrow(x, last.dst);
      }
    }
  }

  // ----- The scheduler, step by step -----

  predicate SortedBy(key: map<string, nat>, s: seq<string>)
    requires forall x | x in s :: x in key
  {
    forall i, j :: 0 <= i < j < |s| ==> key[s[i]] <= key[s[j]]
  }

  /** A stable sort by key; equal keys keep their order. */
  function Sorted(key: map<string, nat>, s: seq<string>): (r: seq<string>)
    requires forall x | x in s :: x in key
    ensures |r| == |s| && forall x :: x in r <==> x in s
    ensures SortedBy(key, r)
  {
    if s == [] then []
    else
      var init, last := s[..|s| - 1], s[|s| - 1];
      assert s == init + [last];
      Insert(key, Sorted(key, init), last)
  }

  lemma AppendLargest(key: map<string, nat>, s: seq<string>, x: string)
    requires x in key && (forall y | y in s :: y in key && key[y] <= key[x]) && SortedBy(key, s)
    ensures (forall y | y in s + [x] :: y in key) && SortedBy(key, s + [x])
  {}

  lemma LastIsLargest(key: map<string, nat>, s: seq<string>)
    requires s != [] && (forall y | y in s :: y in key) && SortedBy(key, s)
    ensures var init, last := s[..|s| - 1], s[|s| - 1];
            s == init + [last] && SortedBy(key, init) && forall y | y in s :: key[y] <= key[last]
  {
    assert s == s[..|s| - 1] + [s[|s| - 1]];
  }

  function Insert(key: map<string, nat>, s: seq<string>, x: string): (r: seq<string>)
    requires x in key && forall y | y in s :: y in key
    requires SortedBy(key, s)
    ensures |r| == |s| + 1 && forall y :: y in r <==> y in s || y == x
    ensures SortedBy(key, r)
  {
    if s == [] then [x]
    else
      LastIsLargest(key, s);
      var init, last := s[..|s| - 1], s[|s| - 1];
      if key[last] <= key[x] then
        AppendLargest(key, s, x);
        s + [x]
      else
        var r := Insert(key, init, x);
        AppendLargest(key, r, last);
        r + [last]
  }

  /** The inner loop of the scheduler: the finished node's targets each wait for one node less. */
  method Release(targets: seq<string>, incoming0: map<string, int>, ready0: seq<string>)
    returns (incoming: map<string, int>, ready: seq<string>)
    requires Distinct(targets) && Distinct(ready0)
    requires forall x | x in targets :: x in incoming0 && x !in ready0
    ensures incoming.Keys == incoming0.Keys
    ensures forall x | x in incoming0 :: incoming[x] == incoming0[x] - if x in targets then 1 else 0
    ensures Distinct(ready)
    ensures forall x :: x in ready <==> x in ready0 || (x in targets && incoming[x] == 0)
  {
    incoming, ready := incoming0, ready0;
    for i := 0 to |targets|
      invariant incoming.Keys == incoming0.Keys
      invariant forall x | x in incoming0 :: incoming[x] == incoming0[x] - if x in targets[..i] then 1 else 0
      invariant Distinct(ready)
      invariant forall x :: x in ready <==> x in ready0 || (x in targets[..i] && incoming[x] == 0)
    {
      var target := targets[i];
      assert target !in targets[..i];
      assert forall x :: x in targets[..i + 1] <==> x in targets[..i] || x == target;
      incoming := incoming[target := incoming[target] - 1];
      if incoming[target] == 0 {
        ready := ready + [target];
      }
    }
    assert targets[..|targets|] == targets;
  }

  /** The counts and target lists are those of the arrows. */
  ghost predicate Counted(ids: seq<string>, edges: seq<Arrow<string>>, incoming: map<string, int>,
                          outgoing: map<string, seq<string>>)
  {
    && (forall x :: x in incoming <==> x in ids)
    && (forall x | x in ids :: incoming[x] == Waiting(edges, [], x))
    && (forall x :: Targets(edges, x) == if x in outgoing then outgoing[x] else [])
  }

  lemma CountOneMore(ids: seq<string>, edges: seq<Arrow<string>>, incoming: map<string, int>,
                     outgoing: map<string, seq<string>>)
    requires edges != []
    requires var last := edges[|edges| - 1]; last.dst in ids && Counted(ids, edges[..|edges| - 1], incoming, outgoing)
    ensures var Arrow(source, target) := edges[|edges| - 1];
            Counted(ids, edges, incoming[target := incoming[target] + 1],
                    outgoing[source := (if source in outgoing then outgoing[source] else []) + [target]])
  {}

  method CountArrows(ids: seq<string>, edges: seq<Arrow<string>>)
    returns (incoming: map<string, int>, outgoing: map<string, seq<string>>)
    requires KnownEndpoints(ids, edges)
    ensures Counted(ids, edges, incoming, outgoing)
  {
    incoming := map id | id in ids :: 0;
    outgoing := map[];
    for i := 0 to |edges|
      invariant Counted(ids, edges[..i], incoming, outgoing)
    {
      var Arrow(source, target) := edges[i];
      assert edges[i] in edges;
      assert edges[..i + 1][..i] == edges[..i];
      CountOneMore(ids, edges[..i + 1], incoming, outgoing);
      incoming := incoming[target := incoming[target] + 1];
      outgoing := outgoing[source := (if source in outgoing then outgoing[source] else []) + [target]];
    }
    assert edges[..|edges|] == edges;
  }

  lemma AvailableIsNothingWaiting(ids: seq<string>, edges: seq<Arrow<string>>, done: seq<string>, x: string)
    requires x in ids
    ensures Available(ids, edges, done, x) <==> x !in done && Waiting(edges, done, x) == 0
  {
    NothingWaiting(edges, done, x);
  }

  /** What the scheduling loop keeps true. */
  ghost predicate LoopState(ids: seq<string>, edges: seq<Arrow<string>>, done: seq<string>,
                            incoming: map<string, int>, ready: seq<string>)
  {
    && Greedy(ids, edges, done)
    && (forall x :: x in incoming <==> x in ids)
    && (forall x | x in ids :: incoming[x] == Waiting(edges, done, x))
    && Distinct(ready)
    && (forall x :: x in ready <==> Available(ids, edges, done, x))
  }

  /** How finishing `current` changes what one node waits for. */
  lemma AfterFinishing(ids: seq<string>, edges: seq<Arrow<string>>, done: seq<string>, current: string, x: string)
    requires Distinct(edges) && x in ids
    requires Greedy(ids, edges, done) && Available(ids, edges, done, current)
    ensures var waiting := Waiting(edges, done, x) - if x in Targets(edges, current) then 1 else 0;
            && waiting == Waiting(edges, done + [current], x)
            && (Available(ids, edges, done + [current], x) <==>
                || (Available(ids, edges, done, x) && x != current)
                || (x in Targets(edges, current) && waiting == 0))
  {
    TargetsAreArrows(edges, current);
    FinishingOne(edges, done, current, x);
    FinishingOne(edges, done, current, current);
    AvailableIsNothingWaiting(ids, edges, done, x);
    AvailableIsNothingWaiting(ids, edges, done, current);
    AvailableIsNothingWaiting(ids, edges, done + [current], x);
    if x in done && Arrow(current, x) in edges {
      GreedyPredecessors(ids, edges, done, Arrow(current, x));
    }
  }

  lemma LoopStep(ids: seq<string>, edges: seq<Arrow<string>>, done: seq<string>, current: string,
                 ready: seq<string>, incoming': map<string, int>, ready': seq<string>)
    requires Distinct(edges) && KnownEndpoints(ids, edges)
    requires Greedy(ids, edges, done) && FirstChoice(ids, edges, done, current)
    requires forall x :: x in ready <==> Available(ids, edges, done, x) && x != current
    requires forall x :: x in incoming' <==> x in ids
    requires forall x | x in ids ::
               incoming'[x] == Waiting(edges, done, x) - if x in Targets(edges, current) then 1 else 0
    requires Distinct(ready')
    requires forall x | x in ready' :: x in ids
    requires forall x | x in ids :: x in ready' <==> x in ready || (x in Targets(edges, current) && incoming'[x] == 0)
    ensures LoopState(ids, edges, done + [current], incoming', ready')
  {
    GreedyStep(ids, edges, done, current);
    forall x | x in ids
      ensures incoming'[x] == Waiting(edges, done + [current], x)
      ensures x in ready' <==> Available(ids, edges, done + [current], x)
    {
      AfterFinishing(ids, edges, done, current, x);
    }
  }

  lemma LoopStart(ids: seq<string>, edges: seq<Arrow<string>>, incoming: map<string, int>)
    requires |Sources(ids, edges)| == 1
    requires forall x :: x in incoming <==> x in ids
    requires forall x | x in ids :: incoming[x] == Waiting(edges, [], x)
    ensures LoopState(ids, edges, [], incoming, Sources(ids, edges))
  {}

  lemma LoopProgress(ids: seq<string>, edges: seq<Arrow<string>>, done: seq<string>, current: string, left: nat)
    requires Distinct(ids) && Greedy(ids, edges, done) && FirstChoice(ids, edges, done, current)
    requires |done| + left == |ids|
    ensures left > 0
    ensures Extend(ids, edges, done, left) == Extend(ids, edges, done + [current], left - 1)
  {
    GreedyStep(ids, edges, done, current);
    GreedyDistinct(ids, edges, done + [current]);
    FillsUp(ids, done + [current]);
    var i := FirstAvailable(ids, edges, done, 0);
    assert ids[IndexOf(ids, current)] == current;
    FirstAvailableIsFirstChoice(ids, edges, done);
    IndexOfDistinct(ids, i);
    assert ids[i] == current;
  }

  lemma LoopEnd(ids: seq<string>, edges: seq<Arrow<string>>, done: seq<string>, incoming: map<string, int>, steps: nat)
    requires LoopState(ids, edges, done, incoming, [])
    ensures Extend(ids, edges, done, steps) == done
  {
    var i := FirstAvailable(ids, edges, done, 0);
    assert i == |ids|;
  }

  lemma TargetsNotReady(ids: seq<string>, edges: seq<Arrow<string>>, done: seq<string>, current: string)
    requires Distinct(edges) && KnownEndpoints(ids, edges) && current !in done
    ensures Distinct(Targets(edges, current))
    ensures forall x | x in Targets(edges, current) :: x in ids && !Available(ids, edges, done, x)
  {
    TargetsAreArrows(edges, current);
    forall x | x in Targets(edges, current)
      ensures x in ids && !Available(ids, edges, done, x)
    {
      var a := Arrow(current, x);
      assert a in edges;
    }
  }

  function Positions(ids: seq<string>): (position: map<string, nat>)
    requires Distinct(ids)
    ensures forall x :: x in position <==> x in ids
    ensures forall x | x in ids :: position[x] == IndexOf(ids, x)
  {
    map x | x in ids :: IndexOf(ids, x)
  }

  /** The stable dependency order, computed with in-degree counts and a ready list. */
  method OrderedPhases(p: Program) returns (r: Result<seq<Phase>, GraphError>)
    requires Distinct(Ids(p.phases))
    ensures r == Order(p)
  {
    if p.edges == [] {
      return Ok(p.phases);
    }
    var ids := Ids(p.phases);
    var position := Positions(ids);
    if !Distinct(p.edges) {
      return Err(DuplicateEdges);
    }
    if !KnownEndpoints(ids, p.edges) {
      return Err(UnknownNodes);
    }
    if !NoSelfEdges(p.edges) {
      return Err(SelfEdge);
    }
    var incoming, outgoing := CountArrows(ids, p.edges);
    var roots := RootsByCount(ids, p.edges, incoming);
    if |roots| != 1 {
      return Err(NotOneRoot);
    }
    var orderedIds := ScheduleLoop(ids, p.edges, position, roots, incoming, outgoing);
    KahnNames(ids, p.edges);
    if |orderedIds| != |p.phases| {
      return Err(NotConnectedAcyclic);
    }
    r := Ok(Select(p.phases, orderedIds));
  }

  method RootsByCount(ids: seq<string>, edges: seq<Arrow<string>>, incoming: map<string, int>)
    returns (roots: seq<string>)
    requires forall x | x in ids :: x in incoming && incoming[x] == Waiting(edges, [], x)
    ensures roots == Sources(ids, edges)
  {
    roots := [];
    for i := 0 to |ids|
      invariant roots == Sources(ids[..i], edges)
    {
      assert ids[..i + 1][..i] == ids[..i];
      assert ids[i] in ids;
      NothingWaiting(edges, [], ids[i]);
      if incoming[ids[i]] == 0 {
        roots := roots + [ids[i]];
      }
    }
    assert ids[..|ids|] == ids;
  }

  lemma LeastReady(ids: seq<string>, edges: seq<Arrow<string>>, done: seq<string>, position: map<string, nat>,
                   ready: seq<string>, sorted: seq<string>)
    requires forall x | x in ids :: x in position && position[x] == IndexOf(ids, x)
    requires Distinct(ready) && ready != []
    requires forall x :: x in ready <==> Available(ids, edges, done, x)
    requires |sorted| == |ready| && forall x :: x in sorted <==> x in ready
    requires forall x | x in sorted :: x in position
    requires SortedBy(position, sorted)
    ensures FirstChoice(ids, edges, done, sorted[0])
    ensures Distinct(sorted[1..])
    ensures forall x :: x in sorted[1..] <==> Available(ids, edges, done, x) && x != sorted[0]
  {
    RearrangedDistinct(sorted, ready);
    assert sorted == [sorted[0]] + sorted[1..];
    assert sorted[0] in sorted;
    forall y | y in ids && Available(ids, edges, done, y)
      ensures IndexOf(ids, sorted[0]) <= IndexOf(ids, y)
    {
      assert y in sorted;
    }
  }

  method ScheduleLoop(ids: seq<string>, edges: seq<Arrow<string>>, position: map<string, nat>,
                      roots: seq<string>, incoming0: map<string, int>, outgoing: map<string, seq<string>>)
    returns (orderedIds: seq<string>)
    requires Distinct(ids) && Distinct(edges) && KnownEndpoints(ids, edges)
    requires forall x :: x in position <==> x in ids
    requires forall x | x in ids :: position[x] == IndexOf(ids, x)
    requires roots == Sources(ids, edges) && |roots| == 1
    requires forall x :: x in incoming0 <==> x in ids
    requires forall x | x in ids :: incoming0[x] == Waiting(edges, [], x)
    requires forall x :: Targets(edges, x) == if x in outgoing then outgoing[x] else []
    ensures orderedIds == Kahn(ids, edges)
  {
    var incoming, ready := incoming0, roots;
    orderedIds := [];
    LoopStart(ids, edges, incoming);
    ghost var left: nat := |ids|;
    while ready != []
      invariant LoopState(ids, edges, orderedIds, incoming, ready)
      invariant |orderedIds| + left == |ids|
      invariant Kahn(ids, edges) == Extend(ids, edges, orderedIds, left)
      decreases left
    {
      var current;
      current, incoming, ready := ScheduleOne(ids, edges, position, incoming, outgoing, orderedIds, ready);
      LoopProgress(ids, edges, orderedIds, current, left);
      orderedIds := orderedIds + [current];
      left := left - 1;
    }
    LoopEnd(ids, edges, orderedIds, incoming, left);
  }

  /** One round of the scheduling loop: take the earliest ready node and release its targets. */
  method ScheduleOne(ids: seq<string>, edges: seq<Arrow<string>>, position: map<string, nat>,
                     incoming: map<string, int>, outgoing: map<string, seq<string>>,
                     ghost done: seq<string>, ready: seq<string>)
    returns (current: string, incoming': map<string, int>, ready': seq<string>)
    requires Distinct(edges) && KnownEndpoints(ids, edges)
    requires forall x :: x in position <==> x in ids
    requires forall x | x in ids :: position[x] == IndexOf(ids, x)
    requires forall x :: Targets(edges, x) == if x in outgoing then outgoing[x] else []
    requires LoopState(ids, edges, done, incoming, ready) && ready != []
    ensures FirstChoice(ids, edges, done, current)
    ensures LoopState(ids, edges, done + [current], incoming', ready')
  {
    var sorted := Sorted(position, ready);
    LeastReady(ids, edges, done, position, ready, sorted);
    current := sorted[0];
    var targets := if current in outgoing then outgoing[current] else [];
    TargetsNotReady(ids, edges, done, current);
    RearrangedDistinct(Sorted(position, targets), targets);
    incoming', ready' := Release(Sorted(position, targets), incoming, sorted[1..]);
    LoopStep(ids, edges, done, current, sorted[1..], incoming', ready');
  }

  // ----- What the order promises -----

  ghost predicate OneRoot(nodes: seq<string>, arrows: seq<Arrow<string>>) {
    exists root :: OnlyRoot(nodes, arrows, root)
  }

  ghost predicate OnlyRoot(nodes: seq<string>, arrows: seq<Arrow<string>>, root: string) {
    && root in nodes && !HasIncoming(arrows, root)
    && forall x | x in nodes && !HasIncoming(arrows, x) :: x == root
  }

  lemma {:induction false} SourcesDistinct(nodes: seq<string>, arrows: seq<Arrow<string>>)
    requires Distinct(nodes)
    ensures Distinct(Sources(nodes, arrows))
  {
    if nodes != [] {
      var init, last := nodes[..|nodes| - 1], nodes[|nodes| - 1];
      SourcesDistinct(init, arrows);
      assert last !in init;
    }
  }

  lemma OneSource(nodes: seq<string>, arrows: seq<Arrow<string>>)
    requires Distinct(nodes)
    ensures |Sources(nodes, arrows)| == 1 <==> OneRoot(nodes, arrows)
  {
    var roots := Sources(nodes, arrows);
    SourcesDistinct(nodes, arrows);
    if |roots| == 1 {
      assert roots[0] in roots;
      assert OnlyRoot(nodes, arrows, roots[0]);
    }
    if OneRoot(nodes, arrows) {
      var root :| OnlyRoot(nodes, arrows, root);
      assert root in roots;
      forall x | x in roots
        ensures x == root
      {
        assert !HasIncoming(arrows, x);
      }
      DistinctFits(roots, {root});
    }
  }

  /** Arrows that are distinct and join different known phases. */
  predicate ProperArrows(p: Program) {
    p.edges != [] && Distinct(p.edges) && KnownEndpoints(Ids(p.phases), p.edges) && NoSelfEdges(p.edges)
  }

  /** Which graphs are executable, in graph terms alone. */
  ghost predicate ExecutableGraph(p: Program) {
    p.edges == [] || (ProperArrows(p) && OneRoot(Ids(p.phases), p.edges) && !Cyclic(p.edges))
  }

  /** An order exists for exactly the executable graphs, and the last two errors tell roots from cycles. */
  lemma OrderedIffExecutable(p: Program)
    requires Distinct(Ids(p.phases))
    ensures Order(p).Ok? <==> ExecutableGraph(p)
    ensures Order(p) == Err(NotOneRoot) <==> ProperArrows(p) && !OneRoot(Ids(p.phases), p.edges)
    ensures Order(p) == Err(NotConnectedAcyclic) <==>
            ProperArrows(p) && OneRoot(Ids(p.phases), p.edges) && Cyclic(p.edges)
  {
    var ids := Ids(p.phases);
    OneSource(ids, p.edges);
    if KnownEndpoints(ids, p.edges) {
      KahnCorrect(ids, p.edges);
    }
  }

  /** Two places of the list hold the same arrow. */
  ghost predicate RepeatsArrow(p: Program) {
    exists i, j :: 0 <= i < j < |p.edges| && p.edges[i] == p.edges[j]
  }

  ghost predicate IsPhase(p: Program, id: string) {
    exists i :: 0 <= i < |p.phases| && p.phases[i].id == id
  }

  /** Some arrow starts or ends at no phase. */
  ghost predicate StraysOff(p: Program) {
    exists i :: 0 <= i < |p.edges| && !(IsPhase(p, p.edges[i].src) && IsPhase(p, p.edges[i].dst))
  }

  ghost predicate LoopsBack(p: Program) {
    exists i :: 0 <= i < |p.edges| && p.edges[i].src == p.edges[i].dst
  }

  lemma IsPhaseIff(p: Program, id: string)
    ensures IsPhase(p, id) <==> id in Ids(p.phases)
  {
    if IsPhase(p, id) {
      var i :| 0 <= i < |p.phases| && p.phases[i].id == id;
      assert Ids(p.phases)[i] == id;
    }
  }

  lemma StraysOffIff(p: Program)
    ensures StraysOff(p) <==> !KnownEndpoints(Ids(p.phases), p.edges)
  {
    forall id
      ensures IsPhase(p, id) <==> id in Ids(p.phases)
    {
      IsPhaseIff(p, id);
    }
  }

  lemma LoopsBackIff(p: Program)
    ensures LoopsBack(p) <==> !NoSelfEdges(p.edges)
  {}

  /** Each of the other graph errors has its own cause, and the causes are looked at in this order. */
  lemma GraphErrorIs(p: Program)
    requires Distinct(Ids(p.phases))
    ensures Order(p) == Err(DuplicateEdges) <==> RepeatsArrow(p)
    ensures Order(p) == Err(UnknownNodes) <==> !RepeatsArrow(p) && StraysOff(p)
    ensures Order(p) == Err(SelfEdge) <==> !RepeatsArrow(p) && !StraysOff(p) && LoopsBack(p)
  {
    StraysOffIff(p);
    LoopsBackIff(p);
  }

  lemma DistinctPhases(phases: seq<Phase>)
    requires Distinct(Ids(phases))
    ensures Distinct(phases)
  {
    forall i, j | 0 <= i < j < |phases|
      ensures phases[i] != phases[j]
    {
      assert Ids(phases)[i] != Ids(phases)[j];
    }
  }

  lemma SelectPermutes(phases: seq<Phase>, order: seq<string>)
    requires Distinct(Ids(phases)) && Distinct(order)
    requires Elements(order) == Elements(Ids(phases))
    ensures (forall id | id in order :: id in Ids(phases))
    ensures multiset(Select(phases, order)) == multiset(phases)
  {
    forall id | id in order
      ensures id in Ids(phases)
    {
      assert id in Elements(order);
    }
    var selected := Select(phases, order);
    DistinctPhases(phases);
    DistinctPhases(selected);
    forall phase | phase in phases
      ensures phase in selected
    {
      var i :| 0 <= i < |phases| && phases[i] == phase;
      assert Ids(phases)[i] in Elements(order);
      var k :| 0 <= k < |order| && order[k] == phase.id;
      IndexOfDistinct(Ids(phases), i);
      assert selected[k] == phase;
    }
    assert Elements(selected) == Elements(phases);
    SamePermutation(selected, phases);
  }

  /**
   An accepted program runs each of its phases once.  With arrows, the order is the one and only
   topological order that no other topological order precedes; without arrows it is list order.
   */
  lemma OrderIsLeast(p: Program)
    requires Distinct(Ids(p.phases)) && Order(p).Ok?
    ensures multiset(Order(p).value) == multiset(p.phases)
    ensures Distinct(Ids(Order(p).value))
    ensures p.edges == [] ==> Order(p).value == p.phases
    ensures p.edges != [] ==> LeastTopologicalOrder(Ids(p.phases), p.edges, Ids(Order(p).value))
  {
    if p.edges != [] {
      var ids := Ids(p.phases);
      KahnCorrect(ids, p.edges);
      KahnNames(ids, p.edges);
      assert TopologicalOrder(ids, p.edges, Kahn(ids, p.edges));
      SelectPermutes(p.phases, Kahn(ids, p.edges));
    }
  }

  /** Every phase of an accepted graph is reached from the phase that runs first, its only root. */
  lemma EveryPhaseReached(p: Program, k: nat)
    requires Distinct(Ids(p.phases)) && p.edges != [] && Order(p).Ok? && k < |Order(p).value|
    ensures OnlyRoot(Ids(p.phases), p.edges, Order(p).value[0].id)
    ensures Reaches(p.edges, Order(p).value[0].id, Order(p).value[k].id)
  {
    var ids, order := Ids(p.phases), Ids(Order(p).value);
    OrderIsLeast(p);
    assert TopologicalOrder(ids, p.edges, order);
    OneSource(ids, p.edges);
    var root :| OnlyRoot(ids, p.edges, root);
    TopologicalPrefixAvailable(ids, p.edges, order, 0);
    FirstHasNoIncoming(ids, p.edges, order[0]);
    forall j | 0 < j < |order|
      ensures HasIncoming(p.edges, order[j])
    {
      assert order[j] in Elements(order);
      assert order[j] != order[0];
    }
    ReachedFromFirst(order, p.edges, k);
  }

  lemma FirstHasNoIncoming(nodes: seq<string>, arrows: seq<Arrow<string>>, first: string)
    requires Available(nodes, arrows, [], first)
    ensures !HasIncoming(arrows, first)
  {}

  // ----- Validation -----

  ghost predicate NoAdjacentCheckpoints(order: seq<Phase>) {
    forall i, j :: 0 <= i < j < |order| && j == i + 1 ==> !(order[i].Checkpoint? && order[j].Checkpoint?)
  }

  ghost function Validation(p: Program): (error: Option<ProgramError>) {
    if !Distinct(Ids(p.phases)) then Some(DuplicateIds)
    else if forall phase | phase in p.phases :: !phase.Work? then Some(NoWorkPhase)
    else match Order(p)
      case Err(e) => Some(BadGraph(e))
      case Ok(order) =>
        NonEmptyOrder(p);
        if !order[0].Work? then Some(FirstNotWork)
        else if !NoAdjacentCheckpoints(order) then Some(AdjacentCheckpoints)
        else None
  }

  lemma NonEmptyOrder(p: Program)
    requires Distinct(Ids(p.phases)) && Order(p).Ok?
    ensures |Order(p).value| == |p.phases|
  {}

  ghost predicate Valid(p: Program) {
    Validation(p) == None
  }

  method ValidateProgram(p: Program) returns (error: Option<ProgramError>)
    ensures error == Validation(p)
  {
    if !Distinct(Ids(p.phases)) {
      return Some(DuplicateIds);
    }
    if forall phase | phase in p.phases :: !phase.Work? {
      return Some(NoWorkPhase);
    }
    var ordered := OrderedPhases(p);
    if ordered.Err? {
      return Some(BadGraph(ordered.error));
    }
    var order := ordered.value;
    NonEmptyOrder(p);
    if !order[0].Work? {
      return Some(FirstNotWork);
    }
    var adjacent := HasAdjacentCheckpoints(order);
    error := if adjacent then Some(AdjacentCheckpoints) else None;
  }

  method HasAdjacentCheckpoints(order: seq<Phase>) returns (found: bool)
    ensures found <==> !NoAdjacentCheckpoints(order)
  {
    for i := 0 to |order|
      invariant NoAdjacentCheckpoints(order[..i])
    {
      if i > 0 && order[i - 1].Checkpoint? && order[i].Checkpoint? {
        return true;
      }
      assert NoAdjacentCheckpoints(order[..i + 1]);
    }
    assert order[..|order|] == order;
    found := false;
  }

  /** A program is valid exactly when its graph is executable and its order may be run. */
  lemma ValidIff(p: Program)
    ensures Valid(p) <==>
            && Distinct(Ids(p.phases)) && ExecutableGraph(p)
            && Order(p).Ok? && Order(p).value != []
            && Order(p).value[0].Work? && NoAdjacentCheckpoints(Order(p).value)
  {
    if Distinct(Ids(p.phases)) {
      OrderedIffExecutable(p);
      if Order(p).Ok? && Order(p).value != [] {
        OrderIsLeast(p);
        assert Order(p).value[0] in multiset(p.phases);
      }
    }
  }

  /** Two phases share an id. */
  ghost predicate SharesId(p: Program) {
    exists i, j :: 0 <= i < j < |p.phases| && p.phases[i].id == p.phases[j].id
  }

  ghost predicate HasWork(p: Program) {
    exists i :: 0 <= i < |p.phases| && p.phases[i].Work?
  }

  lemma SharesIdIff(p: Program)
    ensures SharesId(p) <==> !Distinct(Ids(p.phases))
  {
    var ids := Ids(p.phases);
    if i, j :| 0 <= i < j < |p.phases| && p.phases[i].id == p.phases[j].id {
      assert ids[i] == ids[j];
    }
  }

  /** Each validation error has its own cause, and the causes are looked at in this order. */
  lemma ProgramErrorIs(p: Program)
    ensures Validation(p) == Some(DuplicateIds) <==> SharesId(p)
    ensures Validation(p) == Some(NoWorkPhase) <==> !SharesId(p) && !HasWork(p)
    ensures Distinct(Ids(p.phases)) <==> !SharesId(p)
    ensures !SharesId(p) && HasWork(p) && Order(p).Err? ==> Validation(p) == Some(BadGraph(Order(p).error))
    ensures !SharesId(p) && HasWork(p) && Order(p).Ok? ==>
              var order := Order(p).value;
              && order != []
              && (Validation(p) == Some(FirstNotWork) <==> !order[0].Work?)
              && (Validation(p) == Some(AdjacentCheckpoints) <==> order[0].Work? && !NoAdjacentCheckpoints(order))
              && (Valid(p) <==> order[0].Work? && NoAdjacentCheckpoints(order))
  {
    SharesIdIff(p);
    if !SharesId(p) && Order(p).Ok? {
      NonEmptyOrder(p);
    }
  }
}
