/** Facts about sequences that the other modules share: distinctness, counting, optional values. */
module Lists {

  datatype Option<+T> = None | Some(value: T)

  datatype Result<+T, +E> = Ok(value: T) | Err(error: E)

  predicate Distinct<T(==)>(s: seq<T>) {
    forall i, j :: 0 <= i < j < |s| ==> s[i] != s[j]
  }

  ghost function Elements<T>(s: seq<T>): set<T> {
    set x | x in s
  }

  /** Where `x` first stands in `s`. */
  function IndexOf<T(==)>(s: seq<T>, x: T): (i: nat)
    requires x in s
    ensures i < |s| && s[i] == x
  {
    if s[0] == x then 0 else 1 + IndexOf(s[1..], x)
  }

  lemma IndexOfDistinct<T>(s: seq<T>, i: nat)
    requires Distinct(s) && i < |s|
    ensures IndexOf(s, s[i]) == i
  {
    var j := IndexOf(s, s[i]);
    assert s[j] == s[i];
  }

  lemma {:induction false} ElementsSize<T>(s: seq<T>)
    ensures |Elements(s)| <= |s|
    ensures Distinct(s) <==> |Elements(s)| == |s|
  {
    if s != [] {
      var rest := s[..|s| - 1];
      var last := s[|s| - 1];
      ElementsSize(rest);
      assert Elements(s) == Elements(rest) + {last};
      assert Distinct(s) <==> Distinct(rest) && last !in rest;
    }
  }

  /** Rearranging a list neither creates nor removes repetitions. */
  lemma RearrangedDistinct<T>(a: seq<T>, b: seq<T>)
    requires |a| == |b| && forall x :: x in a <==> x in b
    ensures Distinct(a) <==> Distinct(b)
  {
    assert Elements(a) == Elements(b);
    ElementsSize(a);
    ElementsSize(b);
  }

  lemma SubsetSize<T>(a: set<T>, b: set<T>)
    requires a <= b
    ensures |a| <= |b|
    ensures |a| == |b| ==> a == b
  {
    assert b == a + (b - a);
  }

  /** A list without repetitions fits into every collection that holds its elements. */
  lemma DistinctFits<T>(s: seq<T>, universe: set<T>)
    requires Distinct(s) && Elements(s) <= universe
    ensures |s| <= |universe|
    ensures |s| == |universe| ==> Elements(s) == universe
  {
    ElementsSize(s);
    SubsetSize(Elements(s), universe);
  }

  /** The pigeonhole principle: a list longer than its universe repeats an element. */
  lemma Repeats<T>(s: seq<T>, universe: set<T>) returns (i: nat, j: nat)
    requires Elements(s) <= universe && |s| > |universe|
    ensures i < j < |s| && s[i] == s[j]
  {
    if Distinct(s) {
      DistinctFits(s, universe);
      assert false;
    }
    i, j :| 0 <= i < j < |s| && s[i] == s[j];
  }

  lemma {:induction false} DistinctCount<T>(s: seq<T>, x: T)
    requires Distinct(s)
    ensures multiset(s)[x] == if x in s then 1 else 0
  {
    if s != [] {
      var rest := s[..|s| - 1];
      assert s == rest + [s[|s| - 1]];
      DistinctCount(rest, x);
    }
  }

  /** Two repetition-free lists with the same elements are permutations of each other. */
  lemma SamePermutation<T>(a: seq<T>, b: seq<T>)
    requires Distinct(a) && Distinct(b)
    requires Elements(a) == Elements(b)
    ensures multiset(a) == multiset(b)
  {
    forall x | x in multiset(a) || x in multiset(b)
      ensures multiset(a)[x] == multiset(b)[x]
    {
      assert x in Elements(a) <==> x in a;
      assert x in Elements(b) <==> x in b;
      DistinctCount(a, x);
      DistinctCount(b, x);
    }
  }

  /** Putting a repetition-free list between two others that do not clash. */
  lemma DistinctAround<T>(pre: seq<T>, mid: seq<T>, post: seq<T>)
    requires Distinct(mid) && Distinct(pre + post)
    ensures Distinct(pre + mid + post) <==> forall x | x in mid :: x !in pre + post
  {
    var all, ends := pre + mid + post, pre + post;
    var p, m := |pre|, |mid|;
    if Distinct(all) {
      forall x | x in mid
        ensures x !in ends
      {
        var i :| 0 <= i < m && mid[i] == x;
        assert all[p + i] == x;
        forall k | 0 <= k < |ends|
          ensures ends[k] != x
        {
          assert ends[k] == all[if k < p then k else k + m];
        }
      }
    }
    if forall x | x in mid :: x !in ends {
      forall i, j | 0 <= i < j < |all|
        ensures all[i] != all[j]
      {
        assert all[i] == if i < p then ends[i] else if i < p + m then mid[i - p] else ends[i - m];
        assert all[j] == if j < p then ends[j] else if j < p + m then mid[j - p] else ends[j - m];
        assert all[i] in if p <= i < p + m then mid else ends;
        assert all[j] in if p <= j < p + m then mid else ends;
      }
    }
  }

  /** The results of `f` on each item, one after the other. */
  ghost function Gather<S, T>(f: S -> seq<T>, items: seq<S>): seq<T> {
    if items == [] then [] else Gather(f, items[..|items| - 1]) + f(items[|items| - 1])
  }

  lemma GatherNext<S, T>(f: S -> seq<T>, items: seq<S>, i: nat)
    requires i < |items|
    ensures Gather(f, items[..i + 1]) == Gather(f, items[..i]) + f(items[i])
  {
    assert items[..i + 1][..i] == items[..i];
  }

  lemma {:induction false} GatherNothing<S, T>(f: S -> seq<T>, items: seq<S>)
    ensures Gather(f, items) == [] <==> forall x | x in items :: f(x) == []
  {
    if items != [] {
      var n := |items| - 1;
      GatherNothing(f, items[..n]);
      assert items == items[..n] + [items[n]];
    }
  }

  lemma {:induction false} GatherMember<S, T>(f: S -> seq<T>, items: seq<S>, y: T)
    ensures y in Gather(f, items) <==> exists x :: x in items && y in f(x)
  {
    if items != [] {
      var n := |items| - 1;
      GatherMember(f, items[..n], y);
      assert items == items[..n] + [items[n]];
    }
  }

  /** The state after taking in the items from left to right. */
  ghost function Fold<S, X>(f: (S, X) -> S, s: S, items: seq<X>): S {
    if items == [] then s else f(Fold(f, s, items[..|items| - 1]), items[|items| - 1])
  }

  lemma FoldNext<S, X>(f: (S, X) -> S, s: S, items: seq<X>, i: nat)
    requires i < |items|
    ensures Fold(f, s, items[..i + 1]) == f(Fold(f, s, items[..i]), items[i])
  {
    assert items[..i + 1][..i] == items[..i];
  }

  lemma {:induction false} FoldKeeps<S(!new), X(!new)>(keeps: S -> bool, f: (S, X) -> S, s: S, items: seq<X>)
    requires keeps(s) && forall t, x :: keeps(t) ==> keeps(f(t, x))
    ensures keeps(Fold(f, s, items))
  {
    if items != [] {
      FoldKeeps(keeps, f, s, items[..|items| - 1]);
    }
  }
}
