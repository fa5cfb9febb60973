/** Sorting the way the host language sorts records of strings: field by field, by code point. */
module Ordering {
  import opened Lists

  predicate TextLess(a: string, b: string) {
    b != [] && (a == [] || a[0] < b[0] || (a[0] == b[0] && TextLess(a[1..], b[1..])))
  }

  predicate KeyLess(a: seq<string>, b: seq<string>) {
    b != [] && (a == [] || TextLess(a[0], b[0]) || (a[0] == b[0] && KeyLess(a[1..], b[1..])))
  }

  /** The texts agree up to place `k`, where the first one ends or has the smaller character. */
  ghost predicate LessAt(a: string, b: string, k: nat) {
    k <= |a| && k < |b| && a[..k] == b[..k] && (k == |a| || a[k] < b[k])
  }

  lemma LessAtStart(a: string, b: string, k: nat)
    requires LessAt(a, b, k) && k > 0
    ensures a[0] == b[0]
  {
    assert a[..k][0] == b[..k][0];
  }

  lemma LessAtRest(a: string, b: string, k: nat)
    requires a != [] && b != [] && a[0] == b[0]
    ensures LessAt(a, b, k + 1) <==> LessAt(a[1..], b[1..], k)
  {
    if k < |a| && k + 1 < |b| {
      assert a[..k + 1] == [a[0]] + a[1..][..k] && b[..k + 1] == [b[0]] + b[1..][..k];
      assert a[1..][..k] == a[..k + 1][1..] && b[1..][..k] == b[..k + 1][1..];
    }
  }

  /** Texts compare by the first place where they differ. */
  lemma {:induction false} TextLessIff(a: string, b: string)
    ensures TextLess(a, b) <==> exists k: nat :: LessAt(a, b, k)
  {
    if a != [] && b != [] && a[0] == b[0] {
      TextLessIff(a[1..], b[1..]);
      if k: nat :| LessAt(a[1..], b[1..], k) {
        LessAtRest(a, b, k);
      }
      assert !LessAt(a, b, 0);
      if k: nat :| LessAt(a, b, k) {
        LessAtRest(a, b, k - 1);
      }
    } else {
      assert TextLess(a, b) ==> LessAt(a, b, 0);
      forall k: nat | k > 0
        ensures !LessAt(a, b, k)
      {
        if LessAt(a, b, k) {
          LessAtStart(a, b, k);
        }
      }
    }
  }

  ghost predicate KeyLessAt(a: seq<string>, b: seq<string>, k: nat) {
    k <= |a| && k < |b| && a[..k] == b[..k] && (k == |a| || TextLess(a[k], b[k]))
  }

  lemma KeyLessAtStart(a: seq<string>, b: seq<string>, k: nat)
    requires KeyLessAt(a, b, k) && k > 0
    ensures a[0] == b[0]
  {
    assert a[..k][0] == b[..k][0];
  }

  lemma KeyLessAtRest(a: seq<string>, b: seq<string>, k: nat)
    requires a != [] && b != [] && a[0] == b[0]
    ensures KeyLessAt(a, b, k + 1) <==> KeyLessAt(a[1..], b[1..], k)
  {
    if k < |a| && k + 1 < |b| {
      assert a[..k + 1] == [a[0]] + a[1..][..k] && b[..k + 1] == [b[0]] + b[1..][..k];
      assert a[1..][..k] == a[..k + 1][1..] && b[1..][..k] == b[..k + 1][1..];
    }
  }

  /** Keys compare by the first field in which they differ. */
  lemma {:induction false} KeyLessIff(a: seq<string>, b: seq<string>)
    ensures KeyLess(a, b) <==> exists k: nat :: KeyLessAt(a, b, k)
  {
    if a != [] && b != [] && a[0] == b[0] {
      KeyLessIff(a[1..], b[1..]);
      TextLessStrict(a[0], b[0]);
      if k: nat :| KeyLessAt(a[1..], b[1..], k) {
        KeyLessAtRest(a, b, k);
      }
      assert !KeyLessAt(a, b, 0);
      if k: nat :| KeyLessAt(a, b, k) {
        KeyLessAtRest(a, b, k - 1);
      }
    } else {
      assert KeyLess(a, b) ==> KeyLessAt(a, b, 0);
      forall k: nat | k > 0
        ensures !KeyLessAt(a, b, k)
      {
        if KeyLessAt(a, b, k) {
          KeyLessAtStart(a, b, k);
        }
      }
    }
  }

  lemma {:induction false} TextLessTransitive(a: string, b: string, c: string)
    requires TextLess(a, b) && TextLess(b, c)
    ensures TextLess(a, c)
  {
    if a != [] && a[0] == b[0] && b[0] == c[0] {
      TextLessTransitive(a[1..], b[1..], c[1..]);
    }
  }

  lemma {:induction false} TextLessStrict(a: string, b: string)
    ensures TextLess(a, b) ==> !TextLess(b, a) && a != b
  {
    if a != [] && b != [] {
      TextLessStrict(a[1..], b[1..]);
    }
  }

  lemma {:induction false} TextLessTotal(a: string, b: string)
    ensures a == b || TextLess(a, b) || TextLess(b, a)
  {
    if a != [] && b != [] && a[0] == b[0] {
      TextLessTotal(a[1..], b[1..]);
      assert a == [a[0]] + a[1..] && b == [b[0]] + b[1..];
    }
  }

  lemma {:induction false} KeyLessTransitive(a: seq<string>, b: seq<string>, c: seq<string>)
    requires KeyLess(a, b) && KeyLess(b, c)
    ensures KeyLess(a, c)
  {
    if a != [] {
      if TextLess(a[0], b[0]) && TextLess(b[0], c[0]) {
        TextLessTransitive(a[0], b[0], c[0]);
      } else if a[0] == b[0] && b[0] == c[0] && !TextLess(a[0], c[0]) {
        KeyLessTransitive(a[1..], b[1..], c[1..]);
      }
    }
  }

  lemma {:induction false} KeyLessStrict(a: seq<string>, b: seq<string>)
    ensures KeyLess(a, b) ==> !KeyLess(b, a) && a != b
  {
    if a != [] && b != [] {
      TextLessStrict(a[0], b[0]);
      TextLessStrict(b[0], a[0]);
      KeyLessStrict(a[1..], b[1..]);
    }
  }

  lemma {:induction false} KeyLessTotal(a: seq<string>, b: seq<string>)
    ensures a == b || KeyLess(a, b) || KeyLess(b, a)
  {
    if a != [] && b != [] {
      TextLessTotal(a[0], b[0]);
      if a[0] == b[0] {
        KeyLessTotal(a[1..], b[1..]);
        assert a == [a[0]] + a[1..] && b == [b[0]] + b[1..];
      }
    }
  }

  // ----- Strictly sorted lists -----

  predicate Ascending<T>(key: T -> seq<string>, s: seq<T>) {
    forall i, j :: 0 <= i < j < |s| ==> KeyLess(key(s[i]), key(s[j]))
  }

  ghost predicate Injective<T(!new)>(key: T -> seq<string>) {
    forall x, y :: key(x) == key(y) ==> x == y
  }

  lemma AscendingDistinct<T>(key: T -> seq<string>, s: seq<T>)
    requires Ascending(key, s)
    ensures Distinct(s)
  {
    forall i, j | 0 <= i < j < |s|
      ensures s[i] != s[j]
    {
      KeyLessStrict(key(s[i]), key(s[j]));
    }
  }

  /** A set has at most one ascending listing. */
  lemma {:induction false} AscendingUnique<T>(key: T -> seq<string>, a: seq<T>, b: seq<T>)
    requires Ascending(key, a) && Ascending(key, b) && Elements(a) == Elements(b)
    ensures a == b
  {
    AscendingDistinct(key, a);
    AscendingDistinct(key, b);
    ElementsSize(a);
    ElementsSize(b);
    if a != [] {
      SameFirst(key, a, b);
      var a', b' := a[1..], b[1..];
      forall x
        ensures x in a' <==> x in b'
      {
        assert x in a' <==> x in Elements(a) && x != a[0] by { RestElements(a, x); }
        assert x in b' <==> x in Elements(b) && x != b[0] by { RestElements(b, x); }
      }
      assert Elements(a') == Elements(b');
      AscendingUnique(key, a', b');
      assert a == [a[0]] + a' && b == [b[0]] + b';
    }
  }

  lemma RestElements<T>(s: seq<T>, x: T)
    requires s != [] && Distinct(s)
    ensures x in s[1..] <==> x in Elements(s) && x != s[0]
  {
    assert s == [s[0]] + s[1..];
    if x in s[1..] {
      var i :| 0 <= i < |s[1..]| && s[1..][i] == x;
      assert s[i + 1] == x;
    }
  }

  lemma SameFirst<T>(key: T -> seq<string>, a: seq<T>, b: seq<T>)
    requires Ascending(key, a) && Ascending(key, b) && Elements(a) == Elements(b)
    requires a != [] && b != []
    ensures a[0] == b[0]
  {
    assert a[0] in Elements(b) && b[0] in Elements(a);
    var i :| 0 <= i < |b| && b[i] == a[0];
    var j :| 0 <= j < |a| && a[j] == b[0];
    KeyLessStrict(key(a[0]), key(b[0]));
  }

  /** Adds an element to an ascending list, in its place. */
  function InsertAscending<T>(key: T -> seq<string>, s: seq<T>, x: T): seq<T> {
    if s == [] then [x]
    else if KeyLess(key(x), key(s[0])) then [x] + s
    else [s[0]] + InsertAscending(key, s[1..], x)
  }

  lemma InFront<T>(key: T -> seq<string>, s: seq<T>, x: T)
    requires Ascending(key, s) && s != [] && KeyLess(key(x), key(s[0]))
    ensures Ascending(key, [x] + s)
  {
    forall j | 0 <= j < |s|
      ensures KeyLess(key(x), key(s[j]))
    {
      if j > 0 {
        KeyLessTransitive(key(x), key(s[0]), key(s[j]));
      }
    }
  }

  lemma BehindFirst<T>(key: T -> seq<string>, s: seq<T>, x: T, rest: seq<T>)
    requires Ascending(key, s) && s != [] && KeyLess(key(s[0]), key(x))
    requires Ascending(key, rest) && Elements(rest) == Elements(s[1..]) + {x}
    ensures Ascending(key, [s[0]] + rest)
  {
    forall j | 0 <= j < |rest|
      ensures KeyLess(key(s[0]), key(rest[j]))
    {
      assert rest[j] in Elements(rest);
      if rest[j] != x {
        var k :| 0 <= k < |s[1..]| && s[1..][k] == rest[j];
        assert s[k + 1] == rest[j];
      }
    }
  }

  lemma ElementsOfCons<T>(x: T, s: seq<T>)
    ensures Elements([x] + s) == {x} + Elements(s)
  {}

  lemma {:induction false} InsertAscendingCorrect<T(!new)>(key: T -> seq<string>, s: seq<T>, x: T)
    requires Injective(key) && Ascending(key, s) && x !in s
    ensures Ascending(key, InsertAscending(key, s, x))
    ensures Elements(InsertAscending(key, s, x)) == Elements(s) + {x}
  {
    if s != [] {
      KeyLessTotal(key(x), key(s[0]));
      if KeyLess(key(x), key(s[0])) {
        InFront(key, s, x);
        ElementsOfCons(x, s);
      } else {
        InsertAscendingCorrect(key, s[1..], x);
        BehindFirst(key, s, x, InsertAscending(key, s[1..], x));
        ElementsOfCons(s[0], InsertAscending(key, s[1..], x));
        ElementsOfCons(s[0], s[1..]);
        assert s == [s[0]] + s[1..];
      }
    }
  }

  /** The ascending listing of a set. */
  method SortSet<T(==, !new)>(key: T -> seq<string>, s: set<T>) returns (r: seq<T>)
    requires Injective(key)
    ensures Ascending(key, r) && Elements(r) == s
  {
    r := [];
    var left := s;
    while left != {}
      invariant Ascending(key, r) && Elements(r) == s - left && left <= s
      decreases |left|
    {
      var x :| x in left;
      InsertAscendingCorrect(key, r, x);
      r := InsertAscending(key, r, x);
      left := left - {x};
    }
  }

  lemma {:induction false} ListingExists<T(!new)>(key: T -> seq<string>, s: set<T>)
    requires Injective(key)
    ensures exists r :: Ascending(key, r) && Elements(r) == s
  {
    if s == {} {
      assert Ascending(key, []) && Elements([]) == s;
    } else {
      var x :| x in s;
      ListingExists(key, s - {x});
      var r :| Ascending(key, r) && Elements(r) == s - {x};
      InsertAscendingCorrect(key, r, x);
      assert Ascending(key, InsertAscending(key, r, x)) && Elements(InsertAscending(key, r, x)) == s;
    }
  }

  ghost function Listing<T(!new)>(key: T -> seq<string>, s: set<T>): (r: seq<T>)
    requires Injective(key)
    ensures Ascending(key, r) && Elements(r) == s
  {
    ListingExists(key, s);
    var r :| Ascending(key, r) && Elements(r) == s;
    r
  }

  lemma ListingEmpty<T(!new)>(key: T -> seq<string>, s: set<T>)
    requires Injective(key)
    ensures Listing(key, s) == [] <==> s == {}
  {
    if Listing(key, s) != [] {
      assert Listing(key, s)[0] in Elements(Listing(key, s));
    }
  }

  // ----- Filtering a sorted list -----

  ghost function Keep<T>(s: seq<T>, kept: set<T>): seq<T> {
    if s == [] then []
    else Keep(s[..|s| - 1], kept) + if s[|s| - 1] in kept then [s[|s| - 1]] else []
  }

  lemma KeepNext<T>(s: seq<T>, kept: set<T>, i: nat)
    requires i < |s|
    ensures Keep(s[..i + 1], kept) == Keep(s[..i], kept) + if s[i] in kept then [s[i]] else []
  {
    assert s[..i + 1][..i] == s[..i];
  }

  lemma {:induction false} KeepElements<T>(s: seq<T>, kept: set<T>)
    ensures Elements(Keep(s, kept)) == Elements(s) * kept
  {
    if s != [] {
      var init, last := s[..|s| - 1], s[|s| - 1];
      KeepElements(init, kept);
      assert s == init + [last];
      assert Elements(s) == Elements(init) + {last};
      if last in kept {
        assert Elements(Keep(s, kept)) == Elements(Keep(init, kept)) + {last};
      } else {
        assert Keep(s, kept) == Keep(init, kept);
      }
    }
  }

  lemma {:induction false} KeepAscending<T>(key: T -> seq<string>, s: seq<T>, kept: set<T>)
    requires Ascending(key, s)
    ensures Ascending(key, Keep(s, kept))
  {
    if s != [] {
      var init, last := s[..|s| - 1], s[|s| - 1];
      KeepAscending(key, init, kept);
      KeepElements(init, kept);
      var front := Keep(init, kept);
      forall i | 0 <= i < |front|
        ensures KeyLess(key(front[i]), key(last))
      {
        assert front[i] in Elements(front);
        var k :| 0 <= k < |init| && init[k] == front[i];
        assert s[k] == front[i];
      }
    }
  }

  /** Sorting and then filtering lists what filtering and then sorting does. */
  lemma KeepIsListing<T(!new)>(key: T -> seq<string>, s: seq<T>, kept: set<T>)
    requires Injective(key) && Ascending(key, s) && kept <= Elements(s)
    ensures Keep(s, kept) == Listing(key, kept)
  {
    KeepAscending(key, s, kept);
    KeepElements(s, kept);
    AscendingUnique(key, Keep(s, kept), Listing(key, kept));
  }
}
