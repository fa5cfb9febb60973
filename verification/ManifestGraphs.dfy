/**
 The graph of a compiled run: when it is a sound picture of the run, namely when it is acyclic in
 the order its nodes are listed, starts only at the task, ends only at the output, and puts every
 node on a path between the two.
 */
module ManifestGraphs {
  import opened Lists
  import opened Graphs
  import opened PhasePrograms
  import opened Compiler

  // ----- Wrapping a scheduled graph -----

  ghost function Wrapping<T>(task: T, memory: T, integrations: T, safety: T, ids: seq<T>, output: T): seq<T> {
    [task, memory, integrations, safety] + ids + [output]
  }

  /** The arrows of the wrapped graph: the setup chain, the program's own, and its two ends. */
  ghost predicate WrappedArrow<T>(order: seq<T>, inner: seq<Arrow<T>>, ids: seq<T>, a: Arrow<T>)
    requires |order| >= 5
  {
    || a == Arrow(order[0], order[1]) || a == Arrow(order[1], order[2]) || a == Arrow(order[2], order[3])
    || a in inner
    || (a.src == order[3] && a.dst in ids && !HasIncoming(inner, a.dst))
    || (a.dst == order[|order| - 1] && a.src in ids && !HasOutgoing(inner, a.src))
  }

  ghost predicate Wraps<T(!new)>(order: seq<T>, inner: seq<Arrow<T>>, ids: seq<T>, arrows: seq<Arrow<T>>) {
    && |order| == |ids| + 5
    && ids != []
    && (forall i :: 0 <= i < |ids| ==> order[4 + i] == ids[i])
    && Distinct(order)
    && Respects(ids, inner)
    && forall a :: a in arrows <==> WrappedArrow(order, inner, ids, a)
  }

  lemma EndsAreOpen<T>(order: seq<T>, arrows: seq<Arrow<T>>)
    requires order != [] && Distinct(order) && Respects(order, arrows)
    ensures !HasIncoming(arrows, order[0]) && !HasOutgoing(arrows, order[|order| - 1])
  {
    forall a | a in arrows
      ensures a.dst != order[0] && a.src != order[|order| - 1]
    {
      var i, j := ArrowPositions(order, arrows, a);
    }
  }

  lemma WrappedRespects<T(!new)>(order: seq<T>, inner: seq<Arrow<T>>, ids: seq<T>, arrows: seq<Arrow<T>>)
    requires Wraps(order, inner, ids, arrows)
    ensures Respects(order, arrows)
  {
    forall a | a in arrows
      ensures Before(order, a.src, a.dst)
    {
      assert WrappedArrow(order, inner, ids, a);
      if a in inner {
        var i, j := ArrowPositions(ids, inner, a);
        assert order[4 + i] == a.src && order[4 + j] == a.dst;
      } else if a.dst in ids {
        var j :| 0 <= j < |ids| && ids[j] == a.dst;
        assert order[4 + j] == a.dst;
      } else if a.src in ids {
        var i :| 0 <= i < |ids| && ids[i] == a.src;
        assert order[4 + i] == a.src;
      }
    }
  }

  lemma WrappedIncoming<T(!new)>(order: seq<T>, inner: seq<Arrow<T>>, ids: seq<T>, arrows: seq<Arrow<T>>, j: nat)
    requires Wraps(order, inner, ids, arrows) && 0 < j < |order|
    ensures HasIncoming(arrows, order[j])
  {
    if j < 4 {
      assert WrappedArrow(order, inner, ids, Arrow(order[j - 1], order[j]));
    } else if j < |order| - 1 {
      assert order[j] == ids[j - 4];
      if HasIncoming(inner, order[j]) {
        var a :| a in inner && a.dst == order[j];
        assert WrappedArrow(order, inner, ids, a);
      } else {
        assert WrappedArrow(order, inner, ids, Arrow(order[3], order[j]));
      }
    } else {
      IdsDistinct(order, inner, ids, arrows);
      EndsAreOpen(ids, inner);
      assert WrappedArrow(order, inner, ids, Arrow(ids[|ids| - 1], order[j]));
    }
  }

  lemma WrappedOutgoing<T(!new)>(order: seq<T>, inner: seq<Arrow<T>>, ids: seq<T>, arrows: seq<Arrow<T>>, j: nat)
    requires Wraps(order, inner, ids, arrows) && j < |order| - 1
    ensures HasOutgoing(arrows, order[j])
  {
    if j < 3 {
      assert WrappedArrow(order, inner, ids, Arrow(order[j], order[j + 1]));
    } else if j == 3 {
      IdsDistinct(order, inner, ids, arrows);
      EndsAreOpen(ids, inner);
      assert WrappedArrow(order, inner, ids, Arrow(order[3], ids[0]));
    } else {
      assert order[j] == ids[j - 4];
      if HasOutgoing(inner, order[j]) {
        var a :| a in inner && a.src == order[j];
        assert WrappedArrow(order, inner, ids, a);
      } else {
        assert WrappedArrow(order, inner, ids, Arrow(order[j], order[|order| - 1]));
      }
    }
  }

  lemma IdsDistinct<T(!new)>(order: seq<T>, inner: seq<Arrow<T>>, ids: seq<T>, arrows: seq<Arrow<T>>)
    requires Wraps(order, inner, ids, arrows)
    ensures Distinct(ids)
  {
    forall i, j | 0 <= i < j < |ids|
      ensures ids[i] != ids[j]
    {
      assert order[4 + i] != order[4 + j];
    }
  }

  /** A list of nodes is a sound picture of a run from its first node to its last. */
  ghost predicate SoundPicture<T(!new)>(order: seq<T>, arrows: seq<Arrow<T>>) {
    && order != []
    && Distinct(order)
    && Respects(order, arrows)
    && !Cyclic(arrows)
    && (forall x | x in order :: !HasIncoming(arrows, x) <==> x == order[0])
    && (forall x | x in order :: !HasOutgoing(arrows, x) <==> x == order[|order| - 1])
    && (forall x | x in order :: Reaches(arrows, order[0], x) && Reaches(arrows, x, order[|order| - 1]))
  }

  lemma WrappedIsSound<T(!new)>(order: seq<T>, inner: seq<Arrow<T>>, ids: seq<T>, arrows: seq<Arrow<T>>)
    requires Wraps(order, inner, ids, arrows)
    ensures SoundPicture(order, arrows)
  {
    WrappedRespects(order, inner, ids, arrows);
    OrderedHasNoCycle(order, arrows);
    EndsAreOpen(order, arrows);
    forall j | 0 < j < |order|
      ensures HasIncoming(arrows, order[j])
    {
      WrappedIncoming(order, inner, ids, arrows, j);
    }
    forall j | 0 <= j < |order| - 1
      ensures HasOutgoing(arrows, order[j])
    {
      WrappedOutgoing(order, inner, ids, arrows, j);
    }
    forall x | x in order
      ensures Reaches(arrows, order[0], x) && Reaches(arrows, x, order[|order| - 1])
    {
      var k :| 0 <= k < |order| && order[k] == x;
      ReachedFromFirst(order, arrows, k);
      ReachesLast(order, arrows, k);
    }
  }

  // ----- The arrows of a compiled manifest -----

  function NodeIds(nodes: seq<Node>): (ids: seq<string>)
    ensures |ids| == |nodes| && forall i :: 0 <= i < |nodes| ==> ids[i] == nodes[i].id
  {
    seq(|nodes|, i requires 0 <= i < |nodes| => nodes[i].id)
  }

  function LinkArrows(links: seq<Link>): (arrows: seq<Arrow<string>>)
    ensures |arrows| == |links|
    ensures forall i :: 0 <= i < |links| ==> arrows[i] == Arrow(links[i].src, links[i].dst)
  {
    seq(|links|, i requires 0 <= i < |links| => Arrow(links[i].src, links[i].dst))
  }

  /** The arrows from each of the names to the next. */
  ghost function ChainArrows(ids: seq<string>): (arrows: seq<Arrow<string>>)
    ensures |arrows| == if ids == [] then 0 else |ids| - 1
  {
    if |ids| < 2 then []
    else
      var n := |ids| - 1;
      ChainArrows(ids[..n]) + [Arrow(ids[n - 1], ids[n])]
  }

  lemma {:induction false} ChainArrowAt(ids: seq<string>, i: nat, j: nat)
    requires j == i + 1 < |ids|
    ensures ChainArrows(ids)[i] == Arrow(ids[i], ids[j])
  {
    if j < |ids| - 1 {
      ChainArrowAt(ids[..|ids| - 1], i, j);
    }
  }

  /** The program's own arrows; a program without arrows is the chain of its phases. */
  ghost function InnerArrows(p: Program): seq<Arrow<string>> {
    if p.edges != [] then p.edges else ChainArrows(Ids(p.phases))
  }

  const SETUP_IDS := ["task", "memory", "integrations", "safety"]
  const OUTPUT_IDS := ["output"]
  const RESERVED := SETUP_IDS + OUTPUT_IDS

  predicate AvoidsReservedNames(p: Program) {
    forall phase | phase in p.phases :: phase.id !in RESERVED
  }

  lemma {:induction false} BoundaryLinkMembers(phases: seq<Phase>, edges: seq<Arrow<string>>, link: Link)
    ensures link in BoundaryLinks(phases, edges) <==>
            || (link.src == "task" && link.condition == "start" && link.dst in Ids(phases) && !HasIncoming(edges, link.dst))
            || (link.dst == "output" && link.condition == "finish" && link.src in Ids(phases) && !HasOutgoing(edges, link.src))
  {
    if phases != [] {
      var n := |phases| - 1;
      var id := phases[n].id;
      BoundaryLinkMembers(phases[..n], edges, link);
      assert Ids(phases) == Ids(phases[..n]) + [id];
      NothingWaiting(edges, [], id);
      NoTargets(edges, id);
    }
  }

  lemma NoTargets(edges: seq<Arrow<string>>, id: string)
    ensures Targets(edges, id) == [] <==> !HasOutgoing(edges, id)
  {
    TargetsAreArrows(edges, id);
    if HasOutgoing(edges, id) {
      var a :| a in edges && a.src == id;
      assert a == Arrow(id, a.dst);
    } else {
      assert forall y :: y !in Targets(edges, id);
    }
  }

  /** What the start links become: they leave the safety boundary instead of the task. */
  ghost predicate ProgramArrow(p: Program, a: Arrow<string>) {
    || a in InnerArrows(p)
    || (a.src == "safety" && a.dst in Ids(p.phases) && !HasIncoming(InnerArrows(p), a.dst))
    || (a.dst == "output" && a.src in Ids(p.phases) && !HasOutgoing(InnerArrows(p), a.src))
  }

  ghost predicate LinkFor(links: seq<Link>, a: Arrow<string>) {
    exists link :: link in links && Arrow(Rerouted(link).src, link.dst) == a
  }

  lemma ReroutedMembers(links: seq<Link>, a: Arrow<string>)
    ensures a in LinkArrows(RerouteAll(links)) <==> LinkFor(links, a)
  {
    var rerouted := RerouteAll(links);
    if a in LinkArrows(rerouted) {
      var i :| 0 <= i < |rerouted| && LinkArrows(rerouted)[i] == a;
      assert links[i] in links;
    }
    if LinkFor(links, a) {
      var link :| link in links && Arrow(Rerouted(link).src, link.dst) == a;
      var i :| 0 <= i < |links| && links[i] == link;
      assert LinkArrows(rerouted)[i] == a;
    }
  }

  lemma SetupMembers(links: seq<Link>, a: Arrow<string>)
    ensures a in LinkArrows(SETUP_LINKS + links) <==>
            || a == Arrow(SETUP_IDS[0], SETUP_IDS[1]) || a == Arrow(SETUP_IDS[1], SETUP_IDS[2])
            || a == Arrow(SETUP_IDS[2], SETUP_IDS[3]) || a in LinkArrows(links)
  {
    var setup := LinkArrows(SETUP_LINKS);
    assert setup == [Arrow(SETUP_IDS[0], SETUP_IDS[1]), Arrow(SETUP_IDS[1], SETUP_IDS[2]),
                     Arrow(SETUP_IDS[2], SETUP_IDS[3])];
    assert LinkArrows(SETUP_LINKS + links) == setup + LinkArrows(links);
  }

  lemma IdOf(p: Program, id: string)
    requires AvoidsReservedNames(p) && id in Ids(p.phases)
    ensures id !in RESERVED && id != "task"
  {
    var i :| 0 <= i < |p.phases| && Ids(p.phases)[i] == id;
    assert p.phases[i] in p.phases;
    assert RESERVED[0] == "task";
  }

  lemma GraphLinkMembers(p: Program, a: Arrow<string>)
    requires AvoidsReservedNames(p) && KnownEndpoints(Ids(p.phases), p.edges)
    requires p.edges != []
    ensures LinkFor(EdgeLinks(p.edges) + BoundaryLinks(p.phases, p.edges), a) <==> ProgramArrow(p, a)
  {
    var links := EdgeLinks(p.edges) + BoundaryLinks(p.phases, p.edges);
    if LinkFor(links, a) {
      var link :| link in links && Arrow(Rerouted(link).src, link.dst) == a;
      if link in EdgeLinks(p.edges) {
        var i :| 0 <= i < |p.edges| && EdgeLinks(p.edges)[i] == link;
        assert p.edges[i] in p.edges;
        IdOf(p, link.src);
        assert a == p.edges[i];
      } else {
        BoundaryLinkMembers(p.phases, p.edges, link);
        if link.src != "task" { IdOf(p, link.src); }
      }
    }
    if a in p.edges {
      var i :| 0 <= i < |p.edges| && p.edges[i] == a;
      var link := EdgeLinks(p.edges)[i];
      IdOf(p, link.src);
      assert link in links;
    } else if ProgramArrow(p, a) {
      StartOrFinishLink(p, a, links);
    }
  }

  lemma StartOrFinishLink(p: Program, a: Arrow<string>, links: seq<Link>)
    requires AvoidsReservedNames(p) && ProgramArrow(p, a) && a !in p.edges && p.edges != []
    requires links == EdgeLinks(p.edges) + BoundaryLinks(p.phases, p.edges)
    ensures LinkFor(links, a)
  {
    if a.src == "safety" && a.dst in Ids(p.phases) && !HasIncoming(p.edges, a.dst) {
      var link := Link("task", a.dst, "start");
      BoundaryLinkMembers(p.phases, p.edges, link);
      assert link in links;
    } else {
      var link := Link(a.src, "output", "finish");
      BoundaryLinkMembers(p.phases, p.edges, link);
      IdOf(p, a.src);
      assert link in links;
    }
  }

  lemma ChainAt(p: Program, i: nat)
    requires p.edges == [] && i + 1 < |p.phases|
    ensures i < |InnerArrows(p)| && InnerArrows(p)[i] == Arrow(Ids(p.phases)[i], Ids(p.phases)[i + 1])
  {
    ChainArrowAt(Ids(p.phases), i, i + 1);
  }

  lemma ChainRespects(p: Program)
    requires p.edges == [] && p.phases != []
    ensures Respects(Ids(p.phases), InnerArrows(p))
  {
    var ids, inner := Ids(p.phases), InnerArrows(p);
    forall a | a in inner
      ensures Before(ids, a.src, a.dst)
    {
      var i :| 0 <= i < |inner| && inner[i] == a;
      ChainAt(p, i);
      var j := i + 1;
      assert ids[i] == a.src && ids[j] == a.dst;
    }
  }

  lemma ChainNeighbours(p: Program, k: nat)
    requires p.edges == [] && k < |p.phases|
    ensures k > 0 ==> HasIncoming(InnerArrows(p), p.phases[k].id)
    ensures k < |p.phases| - 1 ==> HasOutgoing(InnerArrows(p), p.phases[k].id)
  {
    var inner := InnerArrows(p);
    if k > 0 {
      ChainAt(p, k - 1);
      assert inner[k - 1] in inner;
    }
    if k < |p.phases| - 1 {
      ChainAt(p, k);
      assert inner[k] in inner;
    }
  }

  /** The arrow that stands at place `i` in a chain from the safety boundary to the output. */
  ghost function ListArrow(ids: seq<string>, i: nat): Arrow<string>
    requires ids != [] && i <= |ids|
  {
    Arrow(if i == 0 then "safety" else ids[i - 1], if i == |ids| then "output" else ids[i])
  }

  lemma ChainLinkAt(order: seq<Phase>, i: nat)
    requires i < |order| && (i > 0 ==> order[i - 1].id != "task")
    ensures var link := ChainLinks(order)[i]; Arrow(Rerouted(link).src, link.dst) == ListArrow(Ids(order), i)
  {
    var src := if i == 0 then "task" else order[i - 1].id;
    assert ChainLinks(order)[i] == Link(src, order[i].id, "next");
  }

  lemma LastLinkAt(order: seq<Phase>)
    requires order != [] && LastId(order) != "task"
    ensures var link := Link(LastId(order), "output", "next");
            Arrow(Rerouted(link).src, link.dst) == ListArrow(Ids(order), |order|)
  {
    assert Ids(order)[|order| - 1] == LastId(order);
  }

  lemma ListLinkAt(order: seq<Phase>, i: nat)
    requires order != [] && i <= |order|
    requires i > 0 ==> order[i - 1].id != "task"
    ensures var link := (ChainLinks(order) + [Link(LastId(order), "output", "next")])[i];
            Arrow(Rerouted(link).src, link.dst) == ListArrow(Ids(order), i)
  {
    var chain, last := ChainLinks(order), Link(LastId(order), "output", "next");
    if i < |order| {
      assert (chain + [last])[i] == chain[i];
      ChainLinkAt(order, i);
    } else {
      assert (chain + [last])[i] == last;
      LastLinkAt(order);
    }
  }

  lemma PhaseIsNotTask(p: Program, i: nat)
    requires AvoidsReservedNames(p) && i <= |p.phases|
    ensures i > 0 ==> p.phases[i - 1].id != "task"
  {
    if i > 0 {
      assert Ids(p.phases)[i - 1] in Ids(p.phases);
      IdOf(p, Ids(p.phases)[i - 1]);
    }
  }

  lemma ListLinkMembers(p: Program, a: Arrow<string>)
    requires AvoidsReservedNames(p) && Distinct(Ids(p.phases))
    requires p.edges == [] && p.phases != []
    ensures LinkFor(ChainLinks(p.phases) + [Link(LastId(p.phases), "output", "next")], a) <==> ProgramArrow(p, a)
  {
    var links := ChainLinks(p.phases) + [Link(LastId(p.phases), "output", "next")];
    if LinkFor(links, a) {
      var link :| link in links && Arrow(Rerouted(link).src, link.dst) == a;
      var i :| 0 <= i < |links| && links[i] == link;
      PhaseIsNotTask(p, i);
      ListLinkAt(p.phases, i);
      ListArrowIsProgramArrow(p, i, a);
    }
    if ProgramArrow(p, a) {
      var i := ListIndexFor(p, a);
      PhaseIsNotTask(p, i);
      ListLinkAt(p.phases, i);
      assert links[i] in links;
    }
  }

  lemma ChainEnds(p: Program)
    requires Distinct(Ids(p.phases)) && p.edges == [] && p.phases != []
    ensures var ids := Ids(p.phases);
            !HasIncoming(InnerArrows(p), ids[0]) && !HasOutgoing(InnerArrows(p), ids[|ids| - 1])
  {
    ChainRespects(p);
    EndsAreOpen(Ids(p.phases), InnerArrows(p));
  }

  lemma ListArrowIsProgramArrow(p: Program, i: nat, a: Arrow<string>)
    requires Distinct(Ids(p.phases)) && p.edges == [] && p.phases != [] && i <= |p.phases|
    requires a == ListArrow(Ids(p.phases), i)
    ensures ProgramArrow(p, a)
  {
    var ids := Ids(p.phases);
    if i == 0 || i == |p.phases| {
      ChainEnds(p);
      assert ids[0] in ids && ids[|ids| - 1] in ids;
    } else {
      ChainAt(p, i - 1);
    }
  }

  lemma ListIndexFor(p: Program, a: Arrow<string>) returns (i: nat)
    requires p.edges == [] && p.phases != [] && ProgramArrow(p, a)
    ensures i <= |p.phases|
    ensures a == ListArrow(Ids(p.phases), i)
  {
    var n, ids, inner := |p.phases|, Ids(p.phases), InnerArrows(p);
    if a in inner {
      var k :| 0 <= k < |inner| && inner[k] == a;
      i := k + 1;
      ChainAt(p, k);
    } else {
      i := EndIndexFor(p, a);
    }
  }

  lemma EndIndexFor(p: Program, a: Arrow<string>) returns (i: nat)
    requires p.edges == [] && p.phases != [] && ProgramArrow(p, a) && a !in InnerArrows(p)
    ensures i <= |p.phases|
    ensures a == ListArrow(Ids(p.phases), i)
  {
    var n, ids, inner := |p.phases|, Ids(p.phases), InnerArrows(p);
    if a.src == "safety" && a.dst in ids && !HasIncoming(inner, a.dst) {
      i := 0;
      var k :| 0 <= k < n && ids[k] == a.dst;
      ChainNeighbours(p, k);
    } else {
      i := n;
      var k :| 0 <= k < n && ids[k] == a.src;
      ChainNeighbours(p, k);
    }
  }

  lemma ManifestArrows(p: Program, a: Arrow<string>)
    requires Valid(p) && AvoidsReservedNames(p)
    ensures a in LinkArrows(CompiledManifest(p).links) <==>
            || a == Arrow(SETUP_IDS[0], SETUP_IDS[1]) || a == Arrow(SETUP_IDS[1], SETUP_IDS[2])
            || a == Arrow(SETUP_IDS[2], SETUP_IDS[3]) || ProgramArrow(p, a)
  {
    var links := CompiledProgram(p).links;
    SetupMembers(RerouteAll(links), a);
    ReroutedMembers(links, a);
    if p.edges != [] { GraphLinkMembers(p, a); } else { ListLinkMembers(p, a); }
  }

  lemma WrappedIds(ids: seq<string>)
    ensures var order := SETUP_IDS + ids + OUTPUT_IDS;
            |order| == |ids| + 5 && forall i :: 0 <= i < |ids| ==> order[4 + i] == ids[i]
  {}

  lemma ManifestOrder(p: Program)
    requires Valid(p) && AvoidsReservedNames(p)
    ensures var order, ids := NodeIds(CompiledManifest(p).nodes), Ids(RunOrder(p));
            && |order| == |ids| + 5 && ids != [] && Distinct(order)
            && forall i :: 0 <= i < |ids| ==> order[4 + i] == ids[i]
  {
    SameIds(p);
    DistinctNodeIds(p);
    ManifestNodeIds(p);
    WrappedIds(Ids(RunOrder(p)));
  }

  lemma ManifestWrapsArrow(p: Program, a: Arrow<string>)
    requires Valid(p) && AvoidsReservedNames(p)
    requires |NodeIds(CompiledManifest(p).nodes)| == |Ids(RunOrder(p))| + 5
    ensures a in LinkArrows(CompiledManifest(p).links) <==>
            WrappedArrow(NodeIds(CompiledManifest(p).nodes), InnerArrows(p), Ids(RunOrder(p)), a)
  {
    SameIds(p);
    ManifestNodeIds(p);
    ManifestArrows(p, a);
  }

  lemma ManifestIsWrapped(p: Program)
    requires Valid(p) && AvoidsReservedNames(p)
    ensures Wraps(NodeIds(CompiledManifest(p).nodes), InnerArrows(p), Ids(RunOrder(p)),
                  LinkArrows(CompiledManifest(p).links))
  {
    ManifestOrder(p);
    InnerRespects(p);
    forall a
      ensures a in LinkArrows(CompiledManifest(p).links) <==>
              WrappedArrow(NodeIds(CompiledManifest(p).nodes), InnerArrows(p), Ids(RunOrder(p)), a)
    {
      ManifestWrapsArrow(p, a);
    }
  }

  lemma InnerRespects(p: Program)
    requires Valid(p)
    ensures Respects(Ids(RunOrder(p)), InnerArrows(p))
  {
    OrderIsLeast(p);
    if p.edges == [] {
      ChainRespects(p);
    }
  }

  lemma ManifestNodeIds(p: Program)
    requires Valid(p)
    ensures NodeIds(CompiledManifest(p).nodes) == SETUP_IDS + Ids(RunOrder(p)) + OUTPUT_IDS
  {
    NodeIdsAround(PhaseNodes(RunOrder(p)));
    assert NodeIds(PhaseNodes(RunOrder(p))) == Ids(RunOrder(p));
  }

  lemma NodeIdsAround(nodes: seq<Node>)
    ensures NodeIds([TASK, MEMORY, INTEGRATIONS, SAFETY] + nodes + [OUTPUT]) ==
            SETUP_IDS + NodeIds(nodes) + OUTPUT_IDS
  {
    var setup := [TASK, MEMORY, INTEGRATIONS, SAFETY];
    assert NodeIds(setup) == SETUP_IDS;
    assert NodeIds(setup + nodes) == SETUP_IDS + NodeIds(nodes);
    assert NodeIds([OUTPUT]) == OUTPUT_IDS;
    assert NodeIds(setup + nodes + [OUTPUT]) == NodeIds(setup + nodes) + NodeIds([OUTPUT]);
  }

  lemma IdsFollow(phases: seq<Phase>, order: seq<Phase>, id: string)
    requires multiset(phases) == multiset(order) && id in Ids(phases)
    ensures id in Ids(order)
  {
    var j :| 0 <= j < |phases| && Ids(phases)[j] == id;
    assert phases[j] in multiset(order);
    var i :| 0 <= i < |order| && order[i] == phases[j];
    assert Ids(order)[i] == id;
  }

  lemma SameIds(p: Program)
    requires Valid(p)
    ensures forall id :: id in Ids(RunOrder(p)) <==> id in Ids(p.phases)
    ensures RunOrder(p) != [] && Distinct(Ids(RunOrder(p)))
  {
    OrderIsLeast(p);
    NonEmptyOrder(p);
    var order := RunOrder(p);
    forall id
      ensures id in Ids(order) <==> id in Ids(p.phases)
    {
      if id in Ids(order) {
        IdsFollow(order, p.phases, id);
      }
      if id in Ids(p.phases) {
        IdsFollow(p.phases, order, id);
      }
    }
  }

  lemma ReservedNamesDiffer()
    ensures Distinct(SETUP_IDS + OUTPUT_IDS)
  {
    assert forall i :: 0 <= i < 5 ==> |RESERVED[i]| == [4, 6, 12, 6, 6][i];
    assert RESERVED[1][0] == 'm' && RESERVED[3][0] == 's' && RESERVED[4][0] == 'o';
  }

  lemma DistinctNodeIds(p: Program)
    requires Valid(p)
    ensures Distinct(NodeIds(CompiledManifest(p).nodes)) <==> AvoidsReservedNames(p)
  {
    var ids := Ids(RunOrder(p));
    SameIds(p);
    ManifestNodeIds(p);
    ReservedNamesDiffer();
    DistinctAround(SETUP_IDS, ids, OUTPUT_IDS);
    ReservedById(p);
  }

  lemma ReservedById(p: Program)
    requires Valid(p)
    ensures AvoidsReservedNames(p) <==> forall id | id in Ids(RunOrder(p)) :: id !in RESERVED
  {
    SameIds(p);
    var ids := Ids(p.phases);
    if AvoidsReservedNames(p) {
      forall id | id in ids
        ensures id !in RESERVED
      {
        IdOf(p, id);
      }
    }
    forall phase | phase in p.phases
      ensures phase.id in ids
    {
      var j :| 0 <= j < |p.phases| && p.phases[j] == phase;
      assert ids[j] == phase.id;
    }
  }

  /**
   The manifest graph of a valid program is a sound picture of its run, from the task to the
   output, exactly when no phase is named like one of the five fixed nodes.
   */
  lemma ManifestIsSoundIff(p: Program)
    requires Valid(p)
    ensures var g := CompiledManifest(p);
            SoundPicture(NodeIds(g.nodes), LinkArrows(g.links)) <==> AvoidsReservedNames(p)
    ensures var ids := NodeIds(CompiledManifest(p).nodes);
            ids[0] == "task" && ids[|ids| - 1] == "output"
  {
    DistinctNodeIds(p);
    ManifestNodeIds(p);
    if AvoidsReservedNames(p) {
      ManifestIsWrapped(p);
      WrappedIsSound(NodeIds(CompiledManifest(p).nodes), InnerArrows(p), Ids(RunOrder(p)),
                     LinkArrows(CompiledManifest(p).links));
    }
  }

  /**
   The manifest graph lists every phase once, in execution order, each with its kind, its place in
   the order and the most turns it may take.
   */
  lemma ManifestListsPhases(p: Program, k: nat)
    requires Valid(p) && k < |p.phases|
    ensures var g, inner := CompiledManifest(p), CompiledProgram(p);
            && |RunOrder(p)| == |g.executionOrder| == |p.phases| && inner.executionOrder == g.executionOrder
            && |g.nodes| == |p.phases| + 5 && |inner.nodes| == |p.phases| + 2
            && var phase := RunOrder(p)[k];
               && g.executionOrder[k] == phase.id && inner.nodes[1 + k] == g.nodes[4 + k]
               && g.nodes[4 + k] == Node(phase.id, KindName(phase), Some(k + 1), Some(TurnCost(phase)))
  {
    NonEmptyOrder(p);
    var nodes := PhaseNodes(RunOrder(p));
    assert ([TASK, MEMORY, INTEGRATIONS, SAFETY] + nodes + [OUTPUT])[4 + k] == nodes[k];
    assert ([TASK] + nodes + [OUTPUT])[1 + k] == nodes[k];
  }

  /** Around the phases stand the task, the setup and the output. */
  lemma FixedNodesAre(p: Program)
    requires Valid(p)
    ensures var g, inner := CompiledManifest(p).nodes, CompiledProgram(p).nodes;
            && |g| == |p.phases| + 5 && |inner| == |p.phases| + 2
            && g[..4] == [Node("task", "task", None, None), Node("memory", "memory", None, None),
                          Node("integrations", "integration", None, None), Node("safety", "safety", None, None)]
            && g[|g| - 1] == inner[|inner| - 1] == Node("output", "output", None, None) && inner[0] == g[0]
  {
    NonEmptyOrder(p);
  }

  /** Validation accepts names that break the picture: a single work phase called "memory". */
  lemma ReservedNamesAreAccepted()
    ensures var p := Program([Work("memory", "Recall", "Recall it", Adaptive, Inherit, None)], []);
            Valid(p) && !SoundPicture(NodeIds(CompiledManifest(p).nodes), LinkArrows(CompiledManifest(p).links))
  {
    var p := Program([Work("memory", "Recall", "Recall it", Adaptive, Inherit, None)], []);
    assert p.phases[0] in p.phases;
    assert Order(p) == Ok(p.phases);
    assert RESERVED[1] == "memory";
    ManifestIsSoundIff(p);
  }
}
