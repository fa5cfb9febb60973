/**
 What a reserved name does to the manifest graph: it closes a cycle.  The manifest graph of a valid
 program has a cycle exactly when some phase is named like one of the five fixed nodes.
 */
module ManifestCycles {
  import opened Graphs
  import opened PhasePrograms
  import opened Compiler
  import opened ManifestGraphs

  ghost function Manifest(p: Program): seq<Arrow<string>>
    requires Valid(p)
  {
    LinkArrows(CompiledManifest(p).links)
  }

  /** Where an arrow of the program starts once what left the task leaves the safety boundary. */
  function Source(id: string): string {
    if id == "task" then "safety" else id
  }

  lemma LinkIsDrawn(p: Program, link: Link)
    requires Valid(p) && link in CompiledProgram(p).links
    ensures Arrow(Source(link.src), link.dst) in Manifest(p)
  {
    var a := Arrow(Source(link.src), link.dst);
    assert LinkFor(CompiledProgram(p).links, a);
    ReroutedMembers(CompiledProgram(p).links, a);
    SetupMembers(RerouteAll(CompiledProgram(p).links), a);
  }

  lemma SetupIsDrawn(p: Program)
    requires Valid(p)
    ensures Arrow("task", "memory") in Manifest(p) && Arrow("memory", "integrations") in Manifest(p)
    ensures Arrow("integrations", "safety") in Manifest(p)
  {
    var links := RerouteAll(CompiledProgram(p).links);
    SetupMembers(links, Arrow("task", "memory"));
    SetupMembers(links, Arrow("memory", "integrations"));
    SetupMembers(links, Arrow("integrations", "safety"));
  }

  lemma ListOrder(p: Program)
    requires Valid(p) && p.edges == []
    ensures RunOrder(p) == p.phases != []
  {
    OrderIsLeast(p);
    NonEmptyOrder(p);
  }

  lemma EdgeIsDrawn(p: Program, i: nat)
    requires Valid(p) && i < |p.edges|
    ensures Arrow(Source(p.edges[i].src), p.edges[i].dst) in Manifest(p)
  {
    var link := Link(p.edges[i].src, p.edges[i].dst, "next");
    assert EdgeLinks(p.edges)[i] == link;
    LinkIsDrawn(p, link);
  }

  lemma FirstIsDrawn(p: Program)
    requires Valid(p) && p.edges == []
    ensures p.phases != [] && Arrow("safety", p.phases[0].id) in Manifest(p)
  {
    ListOrder(p);
    var link := Link("task", p.phases[0].id, "next");
    assert ChainLinks(p.phases)[0] == link;
    LinkIsDrawn(p, link);
  }

  lemma NextIsDrawn(p: Program, i: nat, j: nat)
    requires Valid(p) && p.edges == [] && j == i + 1 < |p.phases|
    ensures Arrow(Source(p.phases[i].id), p.phases[j].id) in Manifest(p)
  {
    ListOrder(p);
    var link := Link(p.phases[i].id, p.phases[j].id, "next");
    assert ChainLinks(p.phases)[j] == link;
    LinkIsDrawn(p, link);
  }

  lemma InnerIsDrawn(p: Program, a: Arrow<string>)
    requires Valid(p) && a in InnerArrows(p)
    ensures Arrow(Source(a.src), a.dst) in Manifest(p)
  {
    if p.edges != [] {
      var i :| 0 <= i < |p.edges| && p.edges[i] == a;
      EdgeIsDrawn(p, i);
    } else {
      var i :| 0 <= i < |InnerArrows(p)| && InnerArrows(p)[i] == a;
      ChainAt(p, i);
      NextIsDrawn(p, i, i + 1);
    }
  }

  lemma StartIsDrawn(p: Program, id: string)
    requires Valid(p) && id in Ids(p.phases) && !HasIncoming(InnerArrows(p), id)
    ensures Arrow("safety", id) in Manifest(p)
  {
    if p.edges != [] {
      BoundaryLinkMembers(p.phases, p.edges, Link("task", id, "start"));
      LinkIsDrawn(p, Link("task", id, "start"));
    } else {
      var k :| 0 <= k < |p.phases| && Ids(p.phases)[k] == id;
      ChainNeighbours(p, k);
      FirstIsDrawn(p);
    }
  }

  lemma FinishIsDrawn(p: Program, id: string)
    requires Valid(p) && id in Ids(p.phases) && !HasOutgoing(InnerArrows(p), id)
    ensures Arrow(Source(id), "output") in Manifest(p)
  {
    if p.edges != [] {
      BoundaryLinkMembers(p.phases, p.edges, Link(id, "output", "finish"));
      LinkIsDrawn(p, Link(id, "output", "finish"));
    } else {
      var k :| 0 <= k < |p.phases| && Ids(p.phases)[k] == id;
      ChainNeighbours(p, k);
      LastIsDrawn(p);
    }
  }

  lemma LastIsDrawn(p: Program)
    requires Valid(p) && p.edges == []
    ensures p.phases != [] && Arrow(Source(p.phases[|p.phases| - 1].id), "output") in Manifest(p)
  {
    ListOrder(p);
    LinkIsDrawn(p, Link(LastId(p.phases), "output", "next"));
  }

  lemma ReachesItself(arrows: seq<Arrow<string>>, x: string)
    ensures Reaches(arrows, x, x)
  {
    assert WalkBetween(arrows, [x], x, x);
  }

  lemma BackArrowIsCycle(arrows: seq<Arrow<string>>, a: Arrow<string>)
    requires a in arrows && Reaches(arrows, a.dst, a.src)
    ensures Cyclic(arrows)
  {
    var path :| WalkBetween(arrows, path, a.dst, a.src);
    var cycle := [a.src] + path;
    forall i | 0 <= i < |cycle| - 1
      ensures Arrow(cycle[i], cycle[i + 1]) in arrows
    {
      if i == 0 {
        assert Arrow(cycle[i], cycle[i + 1]) == a;
      } else {
        assert Arrow(path[i - 1], path[i]) in arrows;
      }
    }
    assert Walk(arrows, cycle) && |cycle| >= 2 && cycle[0] == cycle[|cycle| - 1];
  }

  /** An arrow into the phase from the safety boundary or from something it reaches. */
  lemma {:induction false} DrawnInto(p: Program, k: nat) returns (a: Arrow<string>)
    requires Valid(p) && k < |RunOrder(p)|
    ensures a in Manifest(p) && a.dst == RunOrder(p)[k].id && Reaches(Manifest(p), "safety", a.src)
  {
    var ids, inner := Ids(RunOrder(p)), InnerArrows(p);
    SameIds(p);
    InnerRespects(p);
    assert ids[k] in ids;
    ReachesItself(Manifest(p), "safety");
    if HasIncoming(inner, ids[k]) {
      var b :| b in inner && b.dst == ids[k];
      InnerIsDrawn(p, b);
      a := Arrow(Source(b.src), b.dst);
      var i, j := ArrowPositions(ids, inner, b);
      if b.src != "task" {
        var c := DrawnInto(p, i);
        ReachesThenArrow(Manifest(p), "safety", c);
      }
    } else {
      StartIsDrawn(p, ids[k]);
      a := Arrow("safety", ids[k]);
    }
  }

  lemma SafetyReachesPhase(p: Program, k: nat)
    requires Valid(p) && k < |RunOrder(p)|
    ensures Reaches(Manifest(p), "safety", RunOrder(p)[k].id)
  {
    var a := DrawnInto(p, k);
    ReachesThenArrow(Manifest(p), "safety", a);
  }

  /** An arrow from the phase to the output or to something that reaches it. */
  lemma {:induction false} DrawnOutOf(p: Program, k: nat) returns (a: Arrow<string>)
    requires Valid(p) && "task" !in Ids(RunOrder(p)) && k < |RunOrder(p)|
    ensures a in Manifest(p) && a.src == RunOrder(p)[k].id && Reaches(Manifest(p), a.dst, "output")
    decreases |RunOrder(p)| - k
  {
    var ids, inner := Ids(RunOrder(p)), InnerArrows(p);
    SameIds(p);
    InnerRespects(p);
    assert ids[k] in ids;
    ReachesItself(Manifest(p), "output");
    if HasOutgoing(inner, ids[k]) {
      a :| a in inner && a.src == ids[k];
      InnerIsDrawn(p, a);
      var i, j := ArrowPositions(ids, inner, a);
      var c := DrawnOutOf(p, j);
      ArrowThenReaches(Manifest(p), c, "output");
    } else {
      FinishIsDrawn(p, ids[k]);
      a := Arrow(ids[k], "output");
    }
  }

  lemma SetupNameClosesCycle(p: Program, k: nat)
    requires Valid(p) && k < |RunOrder(p)| && RunOrder(p)[k].id in SETUP_IDS
    ensures Cyclic(Manifest(p))
  {
    var arrows, id := Manifest(p), RunOrder(p)[k].id;
    SetupIsDrawn(p);
    SafetyReachesPhase(p, k);
    ArrowThenReaches(arrows, Arrow("integrations", "safety"), id);
    ArrowThenReaches(arrows, Arrow("memory", "integrations"), id);
    if id == "safety" {
      var a := DrawnInto(p, k);
      BackArrowIsCycle(arrows, a);
    } else if id == "integrations" {
      BackArrowIsCycle(arrows, Arrow("integrations", "safety"));
    } else if id == "memory" {
      BackArrowIsCycle(arrows, Arrow("memory", "integrations"));
    } else {
      BackArrowIsCycle(arrows, Arrow("task", "memory"));
    }
  }

  lemma OutputNameClosesCycle(p: Program, k: nat)
    requires Valid(p) && k < |RunOrder(p)| && RunOrder(p)[k].id == "output" && "task" !in Ids(RunOrder(p))
    ensures Cyclic(Manifest(p))
  {
    var a := DrawnOutOf(p, k);
    BackArrowIsCycle(Manifest(p), a);
  }

  /** The manifest graph of a valid program is cyclic exactly when a phase uses a reserved name. */
  lemma ManifestIsCyclicIff(p: Program)
    requires Valid(p)
    ensures Cyclic(LinkArrows(CompiledManifest(p).links)) <==> !AvoidsReservedNames(p)
  {
    ManifestIsSoundIff(p);
    ReservedById(p);
    var ids := Ids(RunOrder(p));
    if !AvoidsReservedNames(p) {
      var id :| id in ids && id in RESERVED;
      var name := if "task" in ids then "task" else id;
      var k :| 0 <= k < |ids| && ids[k] == name;
      assert RESERVED == ["task", "memory", "integrations", "safety", "output"];
      if name == "output" {
        OutputNameClosesCycle(p, k);
      } else {
        SetupNameClosesCycle(p, k);
      }
    }
  }
}
