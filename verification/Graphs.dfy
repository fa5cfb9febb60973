/**
 Directed graphs given as a list of nodes and a list of arrows, the greedy (stable Kahn)
 schedule of such a graph, and what that schedule guarantees.  Nothing here depends on the
 size of the graph.
 */
module Graphs {
  import opened Lists

  datatype Arrow<+T> = Arrow(src: T, dst: T)

  // ----- Orders -----

  ghost predicate Before<T>(order: seq<T>, x: T, y: T) {
    exists i, j :: 0 <= i < j < |order| && order[i] == x && order[j] == y
  }

  ghost predicate Respects<T>(order: seq<T>, arrows: seq<Arrow<T>>) {
    forall a | a in arrows :: Before(order, a.src, a.dst)
  }

  ghost predicate TopologicalOrder<T>(nodes: seq<T>, arrows: seq<Arrow<T>>, order: seq<T>) {
    && Distinct(order)
    && Elements(order) == Elements(nodes)
    && Respects(order, arrows)
  }

  /** `a` comes no later than `b` when orders are compared by the list positions of their entries. */
  ghost predicate NoLater<T>(nodes: seq<T>, a: seq<T>, b: seq<T>) {
    || a == b
    || exists k :: EarlierAt(nodes, a, b, k)
  }

  ghost predicate EarlierAt<T>(nodes: seq<T>, a: seq<T>, b: seq<T>, k: nat) {
    && k < |a| && k < |b|
    && a[..k] == b[..k]
    && a[k] in nodes && b[k] in nodes
    && IndexOf(nodes, a[k]) < IndexOf(nodes, b[k])
  }

  ghost predicate LeastTopologicalOrder<T(!new)>(nodes: seq<T>, arrows: seq<Arrow<T>>, order: seq<T>) {
    && TopologicalOrder(nodes, arrows, order)
    && forall other :: TopologicalOrder(nodes, arrows, other) ==> NoLater(nodes, order, other)
  }

  ghost predicate Closed<T>(nodes: seq<T>, arrows: seq<Arrow<T>>) {
    forall a | a in arrows :: a.src in nodes && a.dst in nodes
  }

  // ----- Walks -----

  ghost predicate Walk<T>(arrows: seq<Arrow<T>>, path: seq<T>) {
    && path != []
    && forall i :: 0 <= i < |path| - 1 ==> Arrow(path[i], path[i + 1]) in arrows
  }

  ghost predicate WalkBetween<T>(arrows: seq<Arrow<T>>, path: seq<T>, x: T, y: T) {
    Walk(arrows, path) && path[0] == x && path[|path| - 1] == y
  }

  ghost predicate Reaches<T(!new)>(arrows: seq<Arrow<T>>, x: T, y: T) {
    exists path :: WalkBetween(arrows, path, x, y)
  }

  ghost predicate Cyclic<T(!new)>(arrows: seq<Arrow<T>>) {
    exists path :: Walk(arrows, path) && |path| >= 2 && path[0] == path[|path| - 1]
  }

  // ----- The greedy schedule -----

  /** `x` is not yet scheduled and everything it waits for is. */
  predicate Available<T(==)>(nodes: seq<T>, arrows: seq<Arrow<T>>, done: seq<T>, x: T) {
    && x in nodes && x !in done
    && forall a | a in arrows && a.dst == x :: a.src in done
  }

  function FirstAvailable<T(==)>(nodes: seq<T>, arrows: seq<Arrow<T>>, done: seq<T>, from: nat): (i: nat)
    requires from <= |nodes|
    ensures from <= i <= |nodes|
    ensures forall j :: from <= j < i ==> !Available(nodes, arrows, done, nodes[j])
    ensures i < |nodes| ==> Available(nodes, arrows, done, nodes[i])
    decreases |nodes| - from
  {
    if from == |nodes| || Available(nodes, arrows, done, nodes[from]) then from
    else FirstAvailable(nodes, arrows, done, from + 1)
  }

  function Extend<T(==)>(nodes: seq<T>, arrows: seq<Arrow<T>>, done: seq<T>, steps: nat): seq<T>
    decreases steps
  {
    var i := FirstAvailable(nodes, arrows, done, 0);
    if steps == 0 || i == |nodes| then done
    else Extend(nodes, arrows, done + [nodes[i]], steps - 1)
  }

  function Kahn<T(==)>(nodes: seq<T>, arrows: seq<Arrow<T>>): seq<T> {
    Extend(nodes, arrows, [], |nodes|)
  }

  // ----- Greedy prefixes -----

  ghost predicate FirstChoice<T>(nodes: seq<T>, arrows: seq<Arrow<T>>, done: seq<T>, x: T) {
    && Available(nodes, arrows, done, x)
    && forall y | y in nodes && Available(nodes, arrows, done, y) :: IndexOf(nodes, x) <= IndexOf(nodes, y)
  }

  ghost predicate Greedy<T>(nodes: seq<T>, arrows: seq<Arrow<T>>, order: seq<T>) {
    forall k :: 0 <= k < |order| ==> FirstChoice(nodes, arrows, order[..k], order[k])
  }

  lemma FirstAvailableIsFirstChoice<T>(nodes: seq<T>, arrows: seq<Arrow<T>>, done: seq<T>)
    requires Distinct(nodes)
    ensures var i := FirstAvailable(nodes, arrows, done, 0);
            i < |nodes| ==> FirstChoice(nodes, arrows, done, nodes[i])
  {
    var i := FirstAvailable(nodes, arrows, done, 0);
    if i < |nodes| {
      IndexOfDistinct(nodes, i);
    }
  }

  lemma GreedyStep<T>(nodes: seq<T>, arrows: seq<Arrow<T>>, done: seq<T>, x: T)
    requires Greedy(nodes, arrows, done) && FirstChoice(nodes, arrows, done, x)
    ensures Greedy(nodes, arrows, done + [x])
  {
    var longer := done + [x];
    forall k | 0 <= k < |longer|
      ensures FirstChoice(nodes, arrows, longer[..k], longer[k])
    {
      assert longer[..k] == done[..k];
      if k == |done| { assert done[..k] == done; }
    }
  }

  lemma GreedyDistinct<T>(nodes: seq<T>, arrows: seq<Arrow<T>>, order: seq<T>)
    requires Greedy(nodes, arrows, order)
    ensures Distinct(order) && Elements(order) <= Elements(nodes)
  {
    forall i, j | 0 <= i < j < |order|
      ensures order[i] != order[j]
    {
      assert FirstChoice(nodes, arrows, order[..j], order[j]);
      assert order[..j][i] == order[i];
    }
    forall x | x in order
      ensures x in nodes
    {
      var k :| 0 <= k < |order| && order[k] == x;
      assert FirstChoice(nodes, arrows, order[..k], order[k]);
    }
  }

  /** Nothing is scheduled before something it waits for. */
  lemma GreedyPredecessors<T>(nodes: seq<T>, arrows: seq<Arrow<T>>, order: seq<T>, a: Arrow<T>)
    requires Greedy(nodes, arrows, order) && a in arrows && a.dst in order
    ensures a.src in order
  {
    var j :| 0 <= j < |order| && order[j] == a.dst;
    assert FirstChoice(nodes, arrows, order[..j], order[j]);
    assert a.src in order[..j];
  }

  lemma {:induction false} ExtendGreedy<T>(nodes: seq<T>, arrows: seq<Arrow<T>>, done: seq<T>, steps: nat)
    requires Distinct(nodes) && Greedy(nodes, arrows, done)
    ensures Greedy(nodes, arrows, Extend(nodes, arrows, done, steps))
    decreases steps
  {
    var i := FirstAvailable(nodes, arrows, done, 0);
    if steps != 0 && i < |nodes| {
      FirstAvailableIsFirstChoice(nodes, arrows, done);
      GreedyStep(nodes, arrows, done, nodes[i]);
      ExtendGreedy(nodes, arrows, done + [nodes[i]], steps - 1);
    }
  }

  ghost predicate Stuck<T>(nodes: seq<T>, arrows: seq<Arrow<T>>, done: seq<T>) {
    forall x | x in nodes :: !Available(nodes, arrows, done, x)
  }

  /** A repetition-free list of nodes. */
  ghost predicate Drawn<T>(nodes: seq<T>, done: seq<T>) {
    Distinct(done) && forall x | x in done :: x in nodes
  }

  lemma DrawnStep<T>(nodes: seq<T>, done: seq<T>, x: T)
    requires Drawn(nodes, done) && x in nodes && x !in done
    ensures Drawn(nodes, done + [x])
  {}

  lemma AllDoneIsStuck<T>(nodes: seq<T>, arrows: seq<Arrow<T>>, done: seq<T>)
    requires Distinct(nodes) && Drawn(nodes, done) && |done| == |nodes|
    ensures Stuck(nodes, arrows, done)
  {
    FillsUp(nodes, done);
  }

  lemma NoneAvailableIsStuck<T>(nodes: seq<T>, arrows: seq<Arrow<T>>, done: seq<T>)
    requires FirstAvailable(nodes, arrows, done, 0) == |nodes|
    ensures Stuck(nodes, arrows, done)
  {
    forall x | x in nodes
      ensures !Available(nodes, arrows, done, x)
    {
      var j :| 0 <= j < |nodes| && nodes[j] == x;
    }
  }

  lemma {:induction false} ExtendStuck<T>(nodes: seq<T>, arrows: seq<Arrow<T>>, done: seq<T>, steps: nat)
    requires Distinct(nodes) && Drawn(nodes, done)
    requires |done| + steps == |nodes|
    ensures Stuck(nodes, arrows, Extend(nodes, arrows, done, steps))
    decreases steps
  {
    var i := FirstAvailable(nodes, arrows, done, 0);
    if steps == 0 {
      AllDoneIsStuck(nodes, arrows, done);
    } else if i < |nodes| {
      DrawnStep(nodes, done, nodes[i]);
      ExtendStuck(nodes, arrows, done + [nodes[i]], steps - 1);
    } else {
      NoneAvailableIsStuck(nodes, arrows, done);
    }
  }

  /** A repetition-free list drawn from `nodes` that is as long as `nodes` names every node. */
  lemma FillsUp<T>(nodes: seq<T>, order: seq<T>)
    requires Distinct(nodes) && Distinct(order) && Elements(order) <= Elements(nodes)
    ensures |order| <= |nodes|
    ensures |order| == |nodes| <==> Elements(order) == Elements(nodes)
    ensures |order| == |nodes| ==> forall x :: x in order <==> x in nodes
  {
    ElementsSize(nodes);
    ElementsSize(order);
    DistinctFits(order, Elements(nodes));
    forall x
      ensures x in order <==> x in Elements(order)
      ensures x in nodes <==> x in Elements(nodes)
    {}
  }

  lemma KahnGreedy<T>(nodes: seq<T>, arrows: seq<Arrow<T>>)
    requires Distinct(nodes)
    ensures Greedy(nodes, arrows, Kahn(nodes, arrows))
    ensures Stuck(nodes, arrows, Kahn(nodes, arrows))
    ensures Distinct(Kahn(nodes, arrows)) && Elements(Kahn(nodes, arrows)) <= Elements(nodes)
    ensures |Kahn(nodes, arrows)| <= |nodes|
  {
    ExtendGreedy(nodes, arrows, [], |nodes|);
    ExtendStuck(nodes, arrows, [], |nodes|);
    GreedyDistinct(nodes, arrows, Kahn(nodes, arrows));
    FillsUp(nodes, Kahn(nodes, arrows));
  }

  // ----- A complete greedy order is the least topological order -----

  lemma CompleteGreedyRespects<T>(nodes: seq<T>, arrows: seq<Arrow<T>>, order: seq<T>)
    requires Greedy(nodes, arrows, order) && Closed(nodes, arrows)
    requires Elements(order) == Elements(nodes)
    ensures Respects(order, arrows)
  {
    forall a | a in arrows
      ensures Before(order, a.src, a.dst)
    {
      assert a.dst in Elements(order);
      var j :| 0 <= j < |order| && order[j] == a.dst;
      assert FirstChoice(nodes, arrows, order[..j], order[j]);
      assert a.src in order[..j];
      var i :| 0 <= i < j && order[..j][i] == a.src;
    }
  }

  lemma FirstDifference<T>(a: seq<T>, b: seq<T>) returns (k: nat)
    requires |a| == |b| && a != b
    ensures k < |a| && a[..k] == b[..k] && a[k] != b[k]
  {
    k := 0;
    while k < |a| && a[k] == b[k]
      invariant k <= |a| && a[..k] == b[..k]
    {
      k := k + 1;
    }
    assert k < |a| by {
      assert a == a[..|a|] && b == b[..|b|];
    }
  }

  lemma TopologicalPrefixAvailable<T>(nodes: seq<T>, arrows: seq<Arrow<T>>, order: seq<T>, k: nat)
    requires TopologicalOrder(nodes, arrows, order) && k < |order|
    ensures Available(nodes, arrows, order[..k], order[k])
  {
    assert order[k] in Elements(order);
    assert order[k] !in order[..k];
    forall a | a in arrows && a.dst == order[k]
      ensures a.src in order[..k]
    {
      var i, j :| 0 <= i < j < |order| && order[i] == a.src && order[j] == a.dst;
      assert j == k;
      assert order[..k][i] == a.src;
    }
  }

  lemma GreedyNoLater<T>(nodes: seq<T>, arrows: seq<Arrow<T>>, order: seq<T>, other: seq<T>)
    requires Distinct(nodes)
    requires Greedy(nodes, arrows, order) && TopologicalOrder(nodes, arrows, order)
    requires TopologicalOrder(nodes, arrows, other)
    ensures NoLater(nodes, order, other)
  {
    FillsUp(nodes, order);
    FillsUp(nodes, other);
    if order != other {
      var k := FirstDifference(order, other);
      TopologicalPrefixAvailable(nodes, arrows, other, k);
      assert FirstChoice(nodes, arrows, order[..k], order[k]);
      assert IndexOf(nodes, order[k]) <= IndexOf(nodes, other[k]);
      assert EarlierAt(nodes, order, other, k);
    }
  }

  lemma NotBothEarlier<T>(nodes: seq<T>, a: seq<T>, b: seq<T>, k: nat, m: nat)
    requires EarlierAt(nodes, a, b, k)
    ensures !EarlierAt(nodes, b, a, m)
  {
    if m < k {
      assert a[..k][m] == b[..k][m];
    } else if k < m < |b| && m < |a| {
      assert b[..m][k] == b[k] && a[..m][k] == a[k];
    }
  }

  /** The comparison is antisymmetric, so there is only one least topological order. */
  lemma LeastIsUnique<T(!new)>(nodes: seq<T>, arrows: seq<Arrow<T>>, a: seq<T>, b: seq<T>)
    requires LeastTopologicalOrder(nodes, arrows, a) && LeastTopologicalOrder(nodes, arrows, b)
    ensures a == b
  {
    assert NoLater(nodes, a, b) && NoLater(nodes, b, a);
    forall k, m | EarlierAt(nodes, a, b, k)
      ensures !EarlierAt(nodes, b, a, m)
    {
      NotBothEarlier(nodes, a, b, k, m);
    }
  }

  // ----- Cycles -----

  lemma {:induction false} BackwardWalk<T>(nodes: seq<T>, arrows: seq<Arrow<T>>, done: seq<T>, n: nat)
    returns (path: seq<T>)
    requires Closed(nodes, arrows) && Stuck(nodes, arrows, done)
    requires exists x :: x in nodes && x !in done
    ensures Walk(arrows, path) && |path| == n + 1
    ensures forall x | x in path :: x in nodes && x !in done
  {
    if n == 0 {
      var x :| x in nodes && x !in done;
      path := [x];
    } else {
      var rest := BackwardWalk(nodes, arrows, done, n - 1);
      assert rest[0] in rest;
      assert !Available(nodes, arrows, done, rest[0]);
      var a :| a in arrows && a.dst == rest[0] && a.src !in done;
      path := [a.src] + rest;
      assert a == Arrow(path[0], path[1]);
    }
  }

  /** When no node can be scheduled and some are left over, the arrows contain a cycle. */
  lemma StuckHasCycle<T(!new)>(nodes: seq<T>, arrows: seq<Arrow<T>>, done: seq<T>, left: T)
    requires Closed(nodes, arrows) && Stuck(nodes, arrows, done)
    requires left in nodes && left !in done
    ensures Cyclic(arrows)
  {
    var path := BackwardWalk(nodes, arrows, done, |Elements(nodes)|);
    var i, j := Repeats(path, Elements(nodes));
    var loop := path[i..j + 1];
    assert Walk(arrows, loop);
  }

  lemma {:induction false} WalkAdvances<T>(order: seq<T>, arrows: seq<Arrow<T>>, path: seq<T>)
    requires Distinct(order) && Respects(order, arrows) && Walk(arrows, path)
    requires |path| >= 2
    ensures Before(order, path[0], path[|path| - 1])
  {
    var n := |path|;
    var a := Arrow(path[n - 2], path[n - 1]);
    assert a in arrows;
    var i, j :| 0 <= i < j < |order| && order[i] == a.src && order[j] == a.dst;
    if n > 2 {
      WalkAdvances(order, arrows, path[..n - 1]);
      var i', j' :| 0 <= i' < j' < |order| && order[i'] == path[0] && order[j'] == path[n - 2];
      assert j' == i;
    }
  }

  lemma OrderedHasNoCycle<T(!new)>(order: seq<T>, arrows: seq<Arrow<T>>)
    requires Distinct(order) && Respects(order, arrows)
    ensures !Cyclic(arrows)
  {
    if Cyclic(arrows) {
      var path :| Walk(arrows, path) && |path| >= 2 && path[0] == path[|path| - 1];
      WalkAdvances(order, arrows, path);
      assert false;
    }
  }

  /**
   The schedule is complete exactly when the graph has no cycle, exactly when some topological
   order exists; and then it is the least of them.
   */
  lemma KahnCorrect<T(!new)>(nodes: seq<T>, arrows: seq<Arrow<T>>)
    requires Distinct(nodes) && Closed(nodes, arrows)
    ensures |Kahn(nodes, arrows)| == |nodes| <==> !Cyclic(arrows)
    ensures |Kahn(nodes, arrows)| == |nodes| <==> exists order :: TopologicalOrder(nodes, arrows, order)
    ensures |Kahn(nodes, arrows)| == |nodes| ==> LeastTopologicalOrder(nodes, arrows, Kahn(nodes, arrows))
  {
    var order := Kahn(nodes, arrows);
    KahnGreedy(nodes, arrows);
    FillsUp(nodes, order);
    if |order| == |nodes| {
      CompleteGreedyRespects(nodes, arrows, order);
      assert TopologicalOrder(nodes, arrows, order);
      OrderedHasNoCycle(order, arrows);
      forall other | TopologicalOrder(nodes, arrows, other)
        ensures NoLater(nodes, order, other)
      {
        GreedyNoLater(nodes, arrows, order, other);
      }
    } else {
      assert Elements(order) < Elements(nodes);
      var left :| left in Elements(nodes) && left !in Elements(order);
      StuckHasCycle(nodes, arrows, order, left);
      forall other | TopologicalOrder(nodes, arrows, other)
        ensures false
      {
        OrderedHasNoCycle(other, arrows);
      }
    }
  }

  // ----- Reachability along an order -----

  lemma ArrowPositions<T>(order: seq<T>, arrows: seq<Arrow<T>>, a: Arrow<T>) returns (i: nat, j: nat)
    requires Respects(order, arrows) && a in arrows
    ensures i < j < |order| && order[i] == a.src && order[j] == a.dst
  {
    i, j :| 0 <= i < j < |order| && order[i] == a.src && order[j] == a.dst;
  }

  lemma ReachesThenArrow<T(!new)>(arrows: seq<Arrow<T>>, x: T, a: Arrow<T>)
    requires Reaches(arrows, x, a.src) && a in arrows
    ensures Reaches(arrows, x, a.dst)
  {
    var path :| WalkBetween(arrows, path, x, a.src);
    var longer := path + [a.dst];
    forall i | 0 <= i < |longer| - 1
      ensures Arrow(longer[i], longer[i + 1]) in arrows
    {
      if i == |path| - 1 { assert a == Arrow(longer[i], longer[i + 1]); }
    }
    assert WalkBetween(arrows, longer, x, a.dst);
  }

  lemma ArrowThenReaches<T(!new)>(arrows: seq<Arrow<T>>, a: Arrow<T>, y: T)
    requires a in arrows && Reaches(arrows, a.dst, y)
    ensures Reaches(arrows, a.src, y)
  {
    var path :| WalkBetween(arrows, path, a.dst, y);
    var longer := [a.src] + path;
    forall i | 0 <= i < |longer| - 1
      ensures Arrow(longer[i], longer[i + 1]) in arrows
    {
      if i == 0 { assert a == Arrow(longer[i], longer[i + 1]); }
    }
    assert WalkBetween(arrows, longer, a.src, y);
  }

  ghost predicate HasIncoming<T>(arrows: seq<Arrow<T>>, x: T) {
    exists a :: a in arrows && a.dst == x
  }

  ghost predicate HasOutgoing<T>(arrows: seq<Arrow<T>>, x: T) {
    exists a :: a in arrows && a.src == x
  }

  lemma {:induction false} ReachedFromFirst<T(!new)>(order: seq<T>, arrows: seq<Arrow<T>>, k: nat)
    requires Distinct(order) && Respects(order, arrows) && k < |order|
    requires forall j :: 0 < j < |order| ==> HasIncoming(arrows, order[j])
    ensures Reaches(arrows, order[0], order[k])
  {
    if k == 0 {
      assert WalkBetween(arrows, [order[0]], order[0], order[0]);
    } else {
      assert HasIncoming(arrows, order[k]);
      var a :| a in arrows && a.dst == order[k];
      var i, j := ArrowPositions(order, arrows, a);
      ReachedFromFirst(order, arrows, i);
      ReachesThenArrow(arrows, order[0], a);
    }
  }

  lemma {:induction false} ReachesLast<T(!new)>(order: seq<T>, arrows: seq<Arrow<T>>, k: nat)
    requires Distinct(order) && Respects(order, arrows) && k < |order|
    requires forall j :: 0 <= j < |order| - 1 ==> HasOutgoing(arrows, order[j])
    ensures Reaches(arrows, order[k], order[|order| - 1])
    decreases |order| - k
  {
    var last := order[|order| - 1];
    if k == |order| - 1 {
      assert WalkBetween(arrows, [last], last, last);
    } else {
      assert HasOutgoing(arrows, order[k]);
      var a :| a in arrows && a.src == order[k];
      var i, j := ArrowPositions(order, arrows, a);
      ReachesLast(order, arrows, j);
      ArrowThenReaches(arrows, a, last);
    }
  }
}
