/** Every link of the compiled graphs, with its condition. */
module ManifestLinks {
  import opened Lists
  import opened Graphs
  import opened PhasePrograms
  import opened Compiler
  import opened ManifestGraphs

  /** What stands before and after step `i` of a list that starts at the task and ends at the output. */
  function Left(order: seq<Phase>, i: nat): string
    requires i <= |order|
  {
    if i == 0 then "task" else order[i - 1].id
  }

  function Right(order: seq<Phase>, i: nat): string
    requires i <= |order|
  {
    if i == |order| then "output" else order[i].id
  }

  ghost predicate Follows(order: seq<Phase>, x: string, y: string) {
    exists i :: 0 <= i <= |order| && Left(order, i) == x && Right(order, i) == y
  }

  /** With arrows: the arrows, the starts and the finishes; without: one step after the other. */
  ghost predicate DrawnLink(p: Program, order: seq<Phase>, link: Link) {
    if p.edges != [] then
      || (link.condition == "next" && Arrow(link.src, link.dst) in p.edges)
      || (link.condition == "start" && link.src == "task" && link.dst in Ids(p.phases) && !HasIncoming(p.edges, link.dst))
      || (link.condition == "finish" && link.dst == "output" && link.src in Ids(p.phases) && !HasOutgoing(p.edges, link.src))
    else
      link.condition == "next" && Follows(order, link.src, link.dst)
  }

  lemma EdgeLinkMembers(edges: seq<Arrow<string>>, link: Link)
    ensures link in EdgeLinks(edges) <==> link.condition == "next" && Arrow(link.src, link.dst) in edges
  {
    if link.condition == "next" && Arrow(link.src, link.dst) in edges {
      var i :| 0 <= i < |edges| && edges[i] == Arrow(link.src, link.dst);
      assert EdgeLinks(edges)[i] == link;
    }
    if link in EdgeLinks(edges) {
      var i :| 0 <= i < |edges| && EdgeLinks(edges)[i] == link;
      assert edges[i] == Arrow(link.src, link.dst);
    }
  }

  lemma StepAt(order: seq<Phase>, i: nat)
    requires i <= |order|
    ensures var links := ChainLinks(order) + [Link(LastId(order), "output", "next")];
            |links| == |order| + 1 && links[i] == Link(Left(order, i), Right(order, i), "next")
  {}

  lemma ChainLinkMembers(order: seq<Phase>, link: Link)
    ensures link in ChainLinks(order) + [Link(LastId(order), "output", "next")] <==>
            link.condition == "next" && Follows(order, link.src, link.dst)
  {
    var links := ChainLinks(order) + [Link(LastId(order), "output", "next")];
    if link in links {
      var i :| 0 <= i < |links| && links[i] == link;
      StepAt(order, i);
      assert Left(order, i) == link.src && Right(order, i) == link.dst;
    }
    if link.condition == "next" && Follows(order, link.src, link.dst) {
      var i :| 0 <= i <= |order| && Left(order, i) == link.src && Right(order, i) == link.dst;
      StepAt(order, i);
      assert links[i] in links;
    }
  }

  lemma {:induction false} BoundaryDistinct(phases: seq<Phase>, edges: seq<Arrow<string>>)
    requires Distinct(Ids(phases))
    ensures Distinct(BoundaryLinks(phases, edges))
  {
    if phases != [] {
      var n := |phases| - 1;
      var init, last := BoundaryLinks(phases[..n], edges), BoundaryOf(edges, phases[n].id);
      assert Ids(phases)[..n] == Ids(phases[..n]);
      BoundaryDistinct(phases[..n], edges);
      forall link | link in last
        ensures link !in init
      {
        BoundaryLinkMembers(phases[..n], edges, link);
        NotEarlier(phases, n);
      }
      AppendDistinct(init, last);
    }
  }

  lemma NotEarlier(phases: seq<Phase>, n: nat)
    requires Distinct(Ids(phases)) && n < |phases|
    ensures phases[n].id !in Ids(phases[..n])
  {}

  lemma AppendDistinct<T>(a: seq<T>, b: seq<T>)
    requires Distinct(a) && Distinct(b) && forall x | x in b :: x !in a
    ensures Distinct(a + b)
  {
    forall i, j | 0 <= i < j < |a + b|
      ensures (a + b)[i] != (a + b)[j]
    {
      if i < |a| <= j {
        assert (a + b)[i] in a && (a + b)[j] in b;
      }
    }
  }

  lemma EdgeLinksDistinct(edges: seq<Arrow<string>>)
    requires Distinct(edges)
    ensures Distinct(EdgeLinks(edges))
  {
    var links := EdgeLinks(edges);
    forall i, j | 0 <= i < j < |links|
      ensures links[i] != links[j]
    {
      assert edges[i] != edges[j];
    }
  }

  lemma GraphLinksDistinct(p: Program)
    requires Distinct(Ids(p.phases)) && Distinct(p.edges)
    ensures Distinct(EdgeLinks(p.edges) + BoundaryLinks(p.phases, p.edges))
  {
    EdgeLinksDistinct(p.edges);
    BoundaryDistinct(p.phases, p.edges);
    forall link | link in BoundaryLinks(p.phases, p.edges)
      ensures link !in EdgeLinks(p.edges)
    {
      EdgeLinkMembers(p.edges, link);
      BoundaryLinkMembers(p.phases, p.edges, link);
    }
    AppendDistinct(EdgeLinks(p.edges), BoundaryLinks(p.phases, p.edges));
  }

  /** The compiled graph has exactly these links. */
  lemma ProgramLinksAre(p: Program, link: Link)
    requires Valid(p)
    ensures link in CompiledProgram(p).links <==> DrawnLink(p, RunOrder(p), link)
  {
    if p.edges != [] {
      EdgeLinkMembers(p.edges, link);
      BoundaryLinkMembers(p.phases, p.edges, link);
    } else {
      ChainLinkMembers(RunOrder(p), link);
    }
  }

  /** With arrows each link is drawn once, the arrows first and in their order; without, the steps come in order. */
  lemma LinksComeInOrder(p: Program, i: nat)
    requires Valid(p)
    ensures var links := CompiledProgram(p).links;
            && (p.edges != [] ==> Distinct(links))
            && (i < |p.edges| ==> i < |links| && links[i] == Link(p.edges[i].src, p.edges[i].dst, "next"))
            && (p.edges == [] && i <= |RunOrder(p)| ==>
                  |links| == |RunOrder(p)| + 1 && links[i] == Link(Left(RunOrder(p), i), Right(RunOrder(p), i), "next"))
  {
    if p.edges != [] {
      ValidIff(p);
      GraphLinksDistinct(p);
    } else if i <= |RunOrder(p)| {
      StepAt(RunOrder(p), i);
    }
  }

  /** The manifest graph has the setup links and those of the program, which leave safety where they left task. */
  lemma ManifestLinksAre(p: Program, link: Link)
    requires Valid(p)
    ensures link in CompiledManifest(p).links <==>
            || link in [Link("task", "memory", "context"), Link("memory", "integrations", "context"),
                        Link("integrations", "safety", "boundary")]
            || (link.src != "task" && DrawnLink(p, RunOrder(p), link))
            || (link.src == "safety" && DrawnLink(p, RunOrder(p), link.(src := "task")))
  {
    var links := CompiledProgram(p).links;
    ProgramLinksAre(p, link);
    ProgramLinksAre(p, link.(src := "task"));
    if link in RerouteAll(links) {
      var i :| 0 <= i < |links| && RerouteAll(links)[i] == link;
      assert links[i] in links;
    }
    if link.src != "task" && link in links {
      var i :| 0 <= i < |links| && links[i] == link;
      assert RerouteAll(links)[i] == link;
    }
    if link.src == "safety" && link.(src := "task") in links {
      var i :| 0 <= i < |links| && links[i] == link.(src := "task");
      assert RerouteAll(links)[i] == link;
    }
  }
}
