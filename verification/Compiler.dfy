/**
 The compiler from phase programs to the graph shown to people: nodes with their turn budgets,
 links, and the wrapping of that graph into a whole run (memory, integrations, safety).
 */
module Compiler {
  import opened Lists
  import opened Graphs
  import opened PhasePrograms

  datatype Node = Node(id: string, kind: string, order: Option<nat>, maximumTurns: Option<nat>)
  datatype Link = Link(src: string, dst: string, condition: string)
  datatype CompiledGraph = CompiledGraph(nodes: seq<Node>, links: seq<Link>, maximumTurns: nat,
                                         executionOrder: seq<string>)

  // ----- Turn budgets -----

  function TurnCost(phase: Phase): nat {
    match phase
    case Work(_, _, _, _, _, _) => 1
    case Checkpoint(_, _, _, _) => 0
    case Verify(_, _, _, maxRepairs, _) => 1 + maxRepairs
    case Command(_, _, _, _, _, _, _) => 1
  }

  function TotalCost(phases: seq<Phase>): nat {
    if phases == [] then 0 else TotalCost(phases[..|phases| - 1]) + TurnCost(phases[|phases| - 1])
  }

  ghost function RunOrder(p: Program): seq<Phase>
    requires Valid(p)
  {
    Order(p).value
  }

  method PhaseTurnBound(p: Program) returns (total: nat)
    requires Valid(p)
    ensures total == TotalCost(RunOrder(p)) == TotalCost(p.phases)
  {
    var ordered := OrderedPhases(p);
    total := SumCosts(ordered.value);
    OrderIsLeast(p);
    CostOfPermutation(ordered.value, p.phases);
  }

  method SumCosts(order: seq<Phase>) returns (total: nat)
    ensures total == TotalCost(order)
  {
    total := 0;
    for i := 0 to |order|
      invariant total == TotalCost(order[..i])
    {
      assert order[..i + 1][..i] == order[..i];
      match order[i] {
        case Work(_, _, _, _, _, _) => total := total + 1;
        case Command(_, _, _, _, _, _, _) => total := total + 1;
        case Verify(_, _, _, maxRepairs, _) => total := total + 1 + maxRepairs;
        case Checkpoint(_, _, _, _) =>
      }
    }
    assert order[..|order|] == order;
  }

  lemma {:induction false} CostWithout(phases: seq<Phase>, i: nat)
    requires i < |phases|
    ensures TotalCost(phases) == TotalCost(phases[..i] + phases[i + 1..]) + TurnCost(phases[i])
  {
    var n := |phases| - 1;
    if i == n {
      assert phases[..i] + phases[i + 1..] == phases[..n];
    } else {
      CostWithout(phases[..n], i);
      var without := phases[..i] + phases[i + 1..];
      assert without[..n - 1] == phases[..n][..i] + phases[..n][i + 1..];
      assert without[n - 1] == phases[n];
    }
  }

  lemma RemoveOne(phases: seq<Phase>, i: nat)
    requires i < |phases|
    ensures multiset(phases) == multiset(phases[..i] + phases[i + 1..]) + multiset{phases[i]}
  {
    assert phases == phases[..i] + ([phases[i]] + phases[i + 1..]);
  }

  lemma WithoutMatch(a: seq<Phase>, b: seq<Phase>, i: nat)
    requires multiset(a) == multiset(b) && a != [] && i < |b| && b[i] == a[|a| - 1]
    ensures multiset(a[..|a| - 1]) == multiset(b[..i] + b[i + 1..])
  {
    var n := |a| - 1;
    RemoveOne(a, n);
    RemoveOne(b, i);
    assert a[..n] + a[n + 1..] == a[..n];
    assert multiset(a[..n]) == multiset(a) - multiset{a[n]};
    assert multiset(b[..i] + b[i + 1..]) == multiset(b) - multiset{a[n]};
  }

  /** The budget does not depend on the order of the phases. */
  lemma {:induction false} CostOfPermutation(a: seq<Phase>, b: seq<Phase>)
    requires multiset(a) == multiset(b)
    ensures TotalCost(a) == TotalCost(b)
  {
    if a == [] {
      assert |b| == |multiset(b)| == 0;
    } else {
      var n := |a| - 1;
      assert a[n] in multiset(b);
      var i :| 0 <= i < |b| && b[i] == a[n];
      WithoutMatch(a, b, i);
      CostOfPermutation(a[..n], b[..i] + b[i + 1..]);
      CostWithout(b, i);
    }
  }

  // ----- The compiled graph, as a function -----

  function KindName(phase: Phase): string {
    match phase
    case Work(_, _, _, _, _, _) => "work"
    case Checkpoint(_, _, _, _) => "checkpoint"
    case Verify(_, _, _, _, _) => "verify"
    case Command(_, _, _, _, _, _, _) => "command"
  }

  const TASK := Node("task", "task", None, None)
  const OUTPUT := Node("output", "output", None, None)

  function PhaseNodes(order: seq<Phase>): (nodes: seq<Node>)
    ensures |nodes| == |order|
    ensures forall i :: 0 <= i < |order| ==> nodes[i].id == order[i].id
  {
    seq(|order|, i requires 0 <= i < |order| =>
      Node(order[i].id, KindName(order[i]), Some(i + 1), Some(TurnCost(order[i]))))
  }

  function EdgeLinks(edges: seq<Arrow<string>>): seq<Link> {
    seq(|edges|, i requires 0 <= i < |edges| => Link(edges[i].src, edges[i].dst, "next"))
  }

  /** How one phase is tied to the task and the output. */
  function BoundaryOf(edges: seq<Arrow<string>>, id: string): seq<Link> {
    (if Waiting(edges, [], id) == 0 then [Link("task", id, "start")] else [])
    + (if Targets(edges, id) == [] then [Link(id, "output", "finish")] else [])
  }

  function BoundaryLinks(phases: seq<Phase>, edges: seq<Arrow<string>>): seq<Link> {
    if phases == [] then []
    else BoundaryLinks(phases[..|phases| - 1], edges) + BoundaryOf(edges, phases[|phases| - 1].id)
  }

  function ChainLinks(order: seq<Phase>): seq<Link> {
    seq(|order|, i requires 0 <= i < |order| =>
      Link(if i == 0 then "task" else order[i - 1].id, order[i].id, "next"))
  }

  function LastId(order: seq<Phase>): string {
    if order == [] then "task" else order[|order| - 1].id
  }

  ghost function CompiledProgram(p: Program): CompiledGraph
    requires Valid(p)
  {
    var order := RunOrder(p);
    CompiledGraph(
      [TASK] + PhaseNodes(order) + [OUTPUT],
      if p.edges != [] then EdgeLinks(p.edges) + BoundaryLinks(p.phases, p.edges)
      else ChainLinks(order) + [Link(LastId(order), "output", "next")],
      TotalCost(order),
      Ids(order))
  }

  // ----- The compiler, step by step -----

  method CompilePhaseProgram(p: Program) returns (graph: CompiledGraph)
    requires Valid(p)
    ensures graph == CompiledProgram(p)
  {
    var ordered := OrderedPhases(p);
    var order := ordered.value;
    var nodes := CompileNodes(order);
    var links;
    if p.edges != [] {
      links := GraphLinks(p);
    } else {
      links := ListLinks(order);
    }
    nodes := nodes + [OUTPUT];
    var bound := PhaseTurnBound(p);
    graph := CompiledGraph(nodes, links, bound, Ids(order));
  }

  method CompileNodes(order: seq<Phase>) returns (nodes: seq<Node>)
    ensures nodes == [TASK] + PhaseNodes(order)
  {
    nodes := [TASK];
    for i := 0 to |order|
      invariant nodes == [TASK] + PhaseNodes(order[..i])
    {
      var cost := match order[i]
        case Work(_, _, _, _, _, _) => 1
        case Checkpoint(_, _, _, _) => 0
        case Command(_, _, _, _, _, _, _) => 1
        case Verify(_, _, _, maxRepairs, _) => 1 + maxRepairs;
      nodes := nodes + [Node(order[i].id, KindName(order[i]), Some(i + 1), Some(cost))];
      assert PhaseNodes(order[..i + 1]) == PhaseNodes(order[..i]) + [nodes[|nodes| - 1]];
    }
    assert order[..|order|] == order;
  }

  method GraphLinks(p: Program) returns (links: seq<Link>)
    requires KnownEndpoints(Ids(p.phases), p.edges)
    ensures links == EdgeLinks(p.edges) + BoundaryLinks(p.phases, p.edges)
  {
    links := [];
    for i := 0 to |p.edges|
      invariant links == EdgeLinks(p.edges[..i])
    {
      links := links + [Link(p.edges[i].src, p.edges[i].dst, "next")];
    }
    assert p.edges[..|p.edges|] == p.edges;
    var incoming, outgoing := CountArrows(Ids(p.phases), p.edges);
    var boundary := TieAll(p.phases, p.edges, incoming, outgoing);
    links := links + boundary;
  }

  method TieToBoundary(phases: seq<Phase>, i: nat, edges: seq<Arrow<string>>, incoming: map<string, int>,
                       outgoing: map<string, seq<string>>)
    returns (more: seq<Link>)
    requires i < |phases| && Counted(Ids(phases), edges, incoming, outgoing)
    ensures more == BoundaryOf(edges, phases[i].id)
  {
    var id := phases[i].id;
    assert Ids(phases)[i] in Ids(phases);
    assert incoming[id] == Waiting(edges, [], id);
    more := [];
    if incoming[id] == 0 {
      more := [Link("task", id, "start")];
    }
    if id !in outgoing || outgoing[id] == [] {
      more := more + [Link(id, "output", "finish")];
    }
  }

  lemma BoundaryNext(phases: seq<Phase>, edges: seq<Arrow<string>>, i: nat)
    requires i < |phases|
    ensures BoundaryLinks(phases[..i + 1], edges) == BoundaryLinks(phases[..i], edges) + BoundaryOf(edges, phases[i].id)
  {
    assert phases[..i + 1][..i] == phases[..i];
  }

  method TieAll(phases: seq<Phase>, edges: seq<Arrow<string>>, incoming: map<string, int>,
                outgoing: map<string, seq<string>>)
    returns (boundary: seq<Link>)
    requires Counted(Ids(phases), edges, incoming, outgoing)
    ensures boundary == BoundaryLinks(phases, edges)
  {
    boundary := [];
    for i := 0 to |phases|
      invariant boundary == BoundaryLinks(phases[..i], edges)
    {
      BoundaryNext(phases, edges, i);
      var more := TieToBoundary(phases, i, edges, incoming, outgoing);
      boundary := boundary + more;
    }
    assert phases[..|phases|] == phases;
  }

  lemma ChainNext(order: seq<Phase>, i: nat)
    requires i < |order|
    ensures ChainLinks(order[..i + 1]) == ChainLinks(order[..i]) + [Link(LastId(order[..i]), order[i].id, "next")]
    ensures LastId(order[..i + 1]) == order[i].id
  {
    var before, after := ChainLinks(order[..i]), ChainLinks(order[..i + 1]);
    forall k | 0 <= k < i
      ensures after[k] == before[k]
    {
      assert order[..i][k] == order[..i + 1][k];
      assert k > 0 ==> order[..i][k - 1] == order[..i + 1][k - 1];
    }
    assert after[..i] == before;
    assert after[i] == Link(LastId(order[..i]), order[i].id, "next");
  }

  method ListLinks(order: seq<Phase>) returns (links: seq<Link>)
    ensures links == ChainLinks(order) + [Link(LastId(order), "output", "next")]
  {
    links := [];
    var previous := "task";
    for i := 0 to |order|
      invariant links == ChainLinks(order[..i])
      invariant previous == LastId(order[..i])
    {
      ChainNext(order, i);
      links := links + [Link(previous, order[i].id, "next")];
      previous := order[i].id;
    }
    assert order[..|order|] == order;
    links := links + [Link(previous, "output", "next")];
  }

  // ----- The manifest -----

  const MEMORY := Node("memory", "memory", None, None)
  const INTEGRATIONS := Node("integrations", "integration", None, None)
  const SAFETY := Node("safety", "safety", None, None)

  function Rerouted(link: Link): Link {
    if link.src == "task" then link.(src := "safety") else link
  }

  function RerouteAll(links: seq<Link>): seq<Link> {
    seq(|links|, i requires 0 <= i < |links| => Rerouted(links[i]))
  }

  const SETUP_LINKS := [Link("task", "memory", "context"), Link("memory", "integrations", "context"),
                        Link("integrations", "safety", "boundary")]

  ghost function CompiledManifest(p: Program): CompiledGraph
    requires Valid(p)
  {
    var order := RunOrder(p);
    CompiledGraph(
      [TASK, MEMORY, INTEGRATIONS, SAFETY] + PhaseNodes(order) + [OUTPUT],
      SETUP_LINKS + RerouteAll(CompiledProgram(p).links),
      TotalCost(order),
      Ids(order))
  }

  /** The setup nodes go between the task and the phases. */
  method WrapNodes(nodes: seq<Node>, ghost phaseNodes: seq<Node>) returns (wrapped: seq<Node>)
    requires nodes == [TASK] + phaseNodes + [OUTPUT]
    ensures wrapped == [TASK, MEMORY, INTEGRATIONS, SAFETY] + phaseNodes + [OUTPUT]
  {
    var taskNode := nodes[0];
    var rest := nodes[1..];
    var outputNode := rest[|rest| - 1];
    rest := rest[..|rest| - 1];
    assert rest == phaseNodes;
    wrapped := [taskNode, MEMORY, INTEGRATIONS, SAFETY] + rest + [outputNode];
  }

  method CompilePhaseManifest(p: Program) returns (graph: CompiledGraph)
    requires Valid(p)
    ensures graph == CompiledManifest(p)
  {
    var phaseGraph := CompilePhaseProgram(p);
    var nodes := WrapNodes(phaseGraph.nodes, PhaseNodes(RunOrder(p)));
    var links := Reroute(phaseGraph.links);
    var bound := PhaseTurnBound(p);
    graph := CompiledGraph(nodes, links, bound, phaseGraph.executionOrder);
  }

  method Reroute(links0: seq<Link>) returns (links: seq<Link>)
    ensures links == SETUP_LINKS + RerouteAll(links0)
  {
    links := SETUP_LINKS;
    for i := 0 to |links0|
      invariant links == SETUP_LINKS + RerouteAll(links0[..i])
    {
      var link := links0[i];
      var source := if link.src == "task" then "safety" else link.src;
      links := links + [link.(src := source)];
      assert RerouteAll(links0[..i + 1]) == RerouteAll(links0[..i]) + [Rerouted(link)];
    }
    assert links0[..|links0|] == links0;
  }

  // ----- What the compiled graph promises: budgets -----

  function NodeTurns(nodes: seq<Node>): nat {
    if nodes == [] then 0
    else
      var last := nodes[|nodes| - 1];
      NodeTurns(nodes[..|nodes| - 1]) + if last.maximumTurns.Some? then last.maximumTurns.value else 0
  }

  lemma {:induction false} PhaseNodeTurns(order: seq<Phase>)
    ensures NodeTurns(PhaseNodes(order)) == TotalCost(order)
  {
    if order != [] {
      var n := |order| - 1;
      assert PhaseNodes(order)[..n] == PhaseNodes(order[..n]);
      PhaseNodeTurns(order[..n]);
    }
  }

  lemma {:induction false} NodeTurnsAppend(a: seq<Node>, b: seq<Node>)
    ensures NodeTurns(a + b) == NodeTurns(a) + NodeTurns(b)
  {
    if b == [] {
      assert a + b == a;
    } else {
      var n := |b| - 1;
      assert (a + b)[..|a + b| - 1] == a + b[..n];
      NodeTurnsAppend(a, b[..n]);
    }
  }

  /** The turn budget of a run is the sum of what its nodes may spend, in both graphs. */
  lemma BudgetIsSumOfNodes(p: Program)
    requires Valid(p)
    ensures CompiledProgram(p).maximumTurns == NodeTurns(CompiledProgram(p).nodes) == TotalCost(p.phases)
    ensures CompiledManifest(p).maximumTurns == NodeTurns(CompiledManifest(p).nodes) == TotalCost(p.phases)
  {
    var nodes := PhaseNodes(RunOrder(p));
    PhaseNodeTurns(RunOrder(p));
    OrderIsLeast(p);
    CostOfPermutation(RunOrder(p), p.phases);
    NodeTurnsAppend([TASK], nodes);
    NodeTurnsAppend([TASK] + nodes, [OUTPUT]);
    var setup := [TASK, MEMORY, INTEGRATIONS, SAFETY];
    FixedNodesAreFree();
    NodeTurnsAppend(setup, nodes);
    NodeTurnsAppend(setup + nodes, [OUTPUT]);
  }

  lemma FixedNodesAreFree()
    ensures NodeTurns([TASK]) == 0 && NodeTurns([OUTPUT]) == 0
    ensures NodeTurns([TASK, MEMORY, INTEGRATIONS, SAFETY]) == 0
  {
    assert [TASK][..0] == [] && [OUTPUT][..0] == [];
    NodeTurnsAppend([TASK], [MEMORY]);
    NodeTurnsAppend([TASK, MEMORY], [INTEGRATIONS]);
    NodeTurnsAppend([TASK, MEMORY, INTEGRATIONS], [SAFETY]);
    assert [MEMORY][..0] == [] && [INTEGRATIONS][..0] == [] && [SAFETY][..0] == [];
    assert [TASK] + [MEMORY] == [TASK, MEMORY];
    assert [TASK, MEMORY] + [INTEGRATIONS] == [TASK, MEMORY, INTEGRATIONS];
    assert [TASK, MEMORY, INTEGRATIONS] + [SAFETY] == [TASK, MEMORY, INTEGRATIONS, SAFETY];
  }
}
