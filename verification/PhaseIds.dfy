/** Readable, unused phase ids made from display names. */
module PhaseIds {
  import opened Text

  const MAX_LENGTH := 48

  predicate IsLetter(c: char) {
    'a' <= c <= 'z'
  }

  /** The characters an id keeps from a lower-cased name. */
  predicate IsKept(c: char) {
    IsLetter(c) || '0' <= c <= '9'
  }

  predicate IsIdChar(c: char) {
    IsKept(c) || c == '-'
  }

  /** What the phase schema demands of an id. */
  predicate SchemaValid(id: string) {
    2 <= |id| <= MAX_LENGTH && IsLetter(id[0]) && forall i :: 0 <= i < |id| ==> IsIdChar(id[i])
  }

  // ----- From a name to the base of its id -----

  function SkipGap(s: string): (r: string)
    ensures |r| <= |s|
    ensures s != [] && !IsKept(s[0]) ==> |r| < |s|
    ensures r != [] ==> IsKept(r[0])
  {
    if s != [] && !IsKept(s[0]) then SkipGap(s[1..]) else s
  }

  /** Every run of other characters becomes one hyphen. */
  function Hyphenate(s: string): string
    decreases |s|
  {
    if s == [] then []
    else if IsKept(s[0]) then [s[0]] + Hyphenate(s[1..])
    else ['-'] + Hyphenate(SkipGap(s))
  }

  function TrimRight(s: string): (r: string)
    ensures |r| <= |s| && r == s[..|r|]
    ensures r == [] || r[|r| - 1] != '-'
    ensures forall i :: |r| <= i < |s| ==> s[i] == '-'
  {
    if s != [] && s[|s| - 1] == '-' then TrimRight(s[..|s| - 1]) else s
  }

  function TrimLeft(s: string): (r: string)
    ensures |r| <= |s| && r == s[|s| - |r|..]
    ensures r == [] || r[0] != '-'
    ensures forall i :: 0 <= i < |s| - |r| ==> s[i] == '-'
  {
    if s != [] && s[0] == '-' then TrimLeft(s[1..]) else s
  }

  function Slug(lowered: string): string {
    TrimRight(TrimLeft(Hyphenate(lowered)))
  }

  /** The first characters of a text; a negative count drops that many from the end. */
  function Take(s: string, count: int): (r: string)
    ensures r <= s && (count >= 0 ==> |r| <= count)
  {
    if count >= 0 then s[..if count <= |s| then count else |s|]
    else s[..if |s| + count >= 0 then |s| + count else 0]
  }

  function Lettered(slug: string): string {
    var named := if slug == [] then "phase" else slug;
    if IsLetter(named[0]) then named else "phase-" + named
  }

  function Base(lowered: string): string {
    TrimRight(Take(Lettered(Slug(lowered)), MAX_LENGTH))
  }

  // ----- Numbered candidates -----

  function Decimal(n: nat): (s: string)
    ensures s != [] && forall i :: 0 <= i < |s| ==> '0' <= s[i] <= '9'
  {
    var digit := ['0' + (n % 10) as char];
    if n < 10 then digit else Decimal(n / 10) + digit
  }

  function Value(s: string): int {
    if s == [] then 0 else 10 * Value(s[..|s| - 1]) + (s[|s| - 1] as int - '0' as int)
  }

  function PowerOfTen(n: nat): (p: nat)
    ensures p > 0
  {
    if n == 0 then 1 else 10 * PowerOfTen(n - 1)
  }

  /** The id tried with a number: the base itself first, then the base cut to make room for the ending. */
  function Numbered(base: string, n: nat): string {
    if n <= 1 then base
    else
      var ending := "-" + Decimal(n);
      TrimRight(Take(base, MAX_LENGTH - |ending|)) + ending
  }

  lemma {:induction false} ValueOfDecimal(n: nat)
    ensures Value(Decimal(n)) == n
  {
    var digit := '0' + (n % 10) as char;
    assert digit as int - '0' as int == n % 10;
    if n < 10 {
      assert [digit][..0] == [];
    } else {
      ValueOfDecimal(n / 10);
      assert (Decimal(n / 10) + [digit])[..|Decimal(n / 10)|] == Decimal(n / 10);
    }
  }

  lemma {:induction false} DecimalLength(n: nat, length: nat)
    requires length > 0
    ensures |Decimal(n)| <= length <==> n < PowerOfTen(length)
    decreases length
  {
    if n >= 10 && length > 1 {
      DecimalLength(n / 10, length - 1);
    } else if length == 1 {
      assert PowerOfTen(1) == 10 * PowerOfTen(0);
    } else {
      assert PowerOfTen(length) == 10 * PowerOfTen(length - 1);
    }
  }

  /** Different numbers give different candidates. */
  lemma NumberedDiffer(base: string, m: nat, n: nat)
    requires 2 <= m < n
    ensures Numbered(base, m) != Numbered(base, n)
  {
    var a, b := Numbered(base, m), Numbered(base, n);
    var x := TrimRight(Take(base, MAX_LENGTH - |"-" + Decimal(m)|));
    var y := TrimRight(Take(base, MAX_LENGTH - |"-" + Decimal(n)|));
    assert a == x + "-" + Decimal(m) && b == y + "-" + Decimal(n);
    HyphenAt(x, Decimal(m));
    HyphenAt(y, Decimal(n));
    assert a[|x| + 1..] == Decimal(m) && b[|y| + 1..] == Decimal(n);
    ValueOfDecimal(m);
    ValueOfDecimal(n);
  }

  /** So among finitely many names the taken candidates run out. */
  lemma {:induction false} TakenRunOut(base: string, existing: set<string>, n: nat)
    requires n >= 2 && forall j :: 2 <= j < n ==> Numbered(base, j) in existing
    ensures n - 2 <= |existing|
  {
    if n > 2 {
      var last := Numbered(base, n - 1);
      forall j | 2 <= j < n - 1
        ensures Numbered(base, j) in existing - {last}
      {
        NumberedDiffer(base, j, n - 1);
      }
      TakenRunOut(base, existing - {last}, n - 1);
    }
  }

  // ----- What a base looks like -----

  /** Id characters, without two hyphens in a row. */
  ghost predicate Hyphened(s: string) {
    && (forall i :: 0 <= i < |s| ==> IsIdChar(s[i]))
    && (forall i, j :: 0 <= i < j < |s| && j == i + 1 ==> s[i] != '-' || s[j] != '-')
  }

  /** The letters and digits of a text, in order. */
  function Kept(s: string): string {
    if s == [] then [] else if IsKept(s[0]) then [s[0]] + Kept(s[1..]) else Kept(s[1..])
  }

  /** A name with a single letter or digit, a letter. */
  predicate SingleLetter(lowered: string) {
    var kept := Kept(lowered);
    |kept| == 1 && IsLetter(kept[0])
  }

  ghost predicate WellShaped(s: string) {
    s != [] && s[|s| - 1] != '-' && Hyphened(s)
  }

  lemma {:induction false} HyphenateShape(s: string)
    ensures Hyphened(Hyphenate(s))
    ensures s == [] || IsKept(s[0]) ==> Hyphenate(s) == [] || Hyphenate(s)[0] != '-'
    decreases |s|
  {
    if s != [] {
      HyphenateShape(if IsKept(s[0]) then s[1..] else SkipGap(s));
    }
  }

  lemma {:induction false} KeptAppend(a: string, b: string)
    ensures Kept(a + b) == Kept(a) + Kept(b)
  {
    if a == [] {
      assert a + b == b;
    } else {
      assert (a + b)[1..] == a[1..] + b;
      KeptAppend(a[1..], b);
    }
  }

  lemma {:induction false} KeptSkipGap(s: string)
    ensures Kept(SkipGap(s)) == Kept(s)
  {
    if s != [] && !IsKept(s[0]) {
      KeptSkipGap(s[1..]);
    }
  }

  lemma {:induction false} KeptHyphenate(s: string)
    ensures Kept(Hyphenate(s)) == Kept(s)
    decreases |s|
  {
    if s != [] && IsKept(s[0]) {
      KeptHyphenate(s[1..]);
    } else if s != [] {
      KeptHyphenate(SkipGap(s));
      KeptSkipGap(s);
      assert (['-'] + Hyphenate(SkipGap(s)))[1..] == Hyphenate(SkipGap(s));
    }
  }

  lemma SliceShape(s: string, lo: nat, hi: nat)
    requires Hyphened(s) && lo <= hi <= |s|
    ensures Hyphened(s[lo..hi])
  {
    var r := s[lo..hi];
    forall i, j | 0 <= i < j < |r| && j == i + 1
      ensures r[i] != '-' || r[j] != '-'
    {
      assert r[i] == s[lo + i] && r[j] == s[lo + j];
    }
  }

  lemma {:induction false} KeptTrimLeft(s: string)
    ensures Kept(TrimLeft(s)) == Kept(s)
  {
    if s != [] && s[0] == '-' {
      KeptTrimLeft(s[1..]);
    }
  }

  lemma {:induction false} KeptTrimRight(s: string)
    ensures Kept(TrimRight(s)) == Kept(s)
  {
    var n := |s| - 1;
    if s != [] && s[n] == '-' {
      assert s == s[..n] + ['-'];
      KeptAppend(s[..n], ['-']);
      KeptTrimRight(s[..n]);
    }
  }

  lemma TrimmedLeft(s: string)
    requires Hyphened(s)
    ensures Hyphened(TrimLeft(s))
  {
    var n := |s| - |TrimLeft(s)|;
    SliceShape(s, n, |s|);
    assert s[n..|s|] == s[n..];
  }

  lemma TrimmedRight(s: string)
    requires Hyphened(s)
    ensures Hyphened(TrimRight(s))
  {
    var n := |TrimRight(s)|;
    SliceShape(s, 0, n);
    assert s[0..n] == s[..n];
  }

  lemma TrimmedKeeps(s: string)
    requires Hyphened(s)
    ensures var r := TrimRight(TrimLeft(s));
            Kept(r) == Kept(s) && (r != [] ==> WellShaped(r) && IsKept(r[0]))
  {
    var l := TrimLeft(s);
    TrimmedLeft(s);
    TrimmedRight(l);
    KeptTrimLeft(s);
    KeptTrimRight(l);
    var r := TrimRight(l);
    if r != [] {
      assert r[0] == l[0] != '-';
    }
  }

  /** The slug keeps exactly the letters and digits of the name, and is empty only when there are none. */
  lemma SlugKeeps(lowered: string)
    ensures Kept(Slug(lowered)) == Kept(lowered)
    ensures Slug(lowered) != [] ==> WellShaped(Slug(lowered)) && IsKept(Slug(lowered)[0])
  {
    HyphenateShape(lowered);
    KeptHyphenate(lowered);
    TrimmedKeeps(Hyphenate(lowered));
  }

  lemma KeptEnds(s: string)
    requires |s| >= 2 && IsKept(s[0]) && IsKept(s[|s| - 1])
    ensures |Kept(s)| >= 2
  {
    var mid := s[1..|s| - 1];
    assert s == [s[0]] + (mid + [s[|s| - 1]]);
    KeptAppend([s[0]], mid + [s[|s| - 1]]);
    KeptAppend(mid, [s[|s| - 1]]);
  }

  lemma CutShape(s: string)
    requires WellShaped(s) && IsLetter(s[0])
    ensures var cut := TrimRight(Take(s, MAX_LENGTH));
            && WellShaped(cut) && cut[0] == s[0] && |cut| <= MAX_LENGTH
            && (|s| <= MAX_LENGTH ==> cut == s)
            && (|s| > MAX_LENGTH ==> |cut| >= MAX_LENGTH - 1)
  {
    var t := Take(s, MAX_LENGTH);
    var cut := TrimRight(t);
    assert t[0] != '-';
    if |s| > MAX_LENGTH {
      assert t[MAX_LENGTH - 2] != '-' || t[MAX_LENGTH - 1] != '-';
    }
  }

  lemma LetteredShape(slug: string)
    requires slug != [] ==> WellShaped(slug) && IsKept(slug[0])
    ensures WellShaped(Lettered(slug)) && IsLetter(Lettered(slug)[0])
    ensures |Lettered(slug)| == 1 <==> |slug| == 1 && IsLetter(slug[0])
    ensures |slug| < 2 ==> |Lettered(slug)| < MAX_LENGTH
  {
    if slug != [] && !IsLetter(slug[0]) {
      var r := "phase-" + slug;
      forall i, j | 0 <= i < j < |r| && j == i + 1
        ensures r[i] != '-' || r[j] != '-'
      {
        assert i >= 6 ==> r[i] == slug[i - 6] && r[j] == slug[j - 6];
        assert i == 5 ==> r[j] == slug[0];
      }
    }
  }

  lemma KeptSingle(slug: string)
    requires slug != [] ==> WellShaped(slug) && IsKept(slug[0])
    ensures |Kept(slug)| == 1 && IsLetter(Kept(slug)[0]) <==> |slug| == 1 && IsLetter(slug[0])
  {
    if |slug| >= 2 {
      KeptEnds(slug);
    } else if |slug| == 1 {
      assert slug[1..] == [];
    }
  }

  /** A base starts with a letter and has only id characters; it is one letter exactly when the name has no more. */
  lemma BaseShape(lowered: string)
    ensures var base := Base(lowered);
            && WellShaped(base) && IsLetter(base[0]) && |base| <= MAX_LENGTH
            && (|base| == 1 <==> SingleLetter(lowered))
  {
    var slug := Slug(lowered);
    SlugKeeps(lowered);
    LetteredShape(slug);
    KeptSingle(slug);
    CutShape(Lettered(slug));
  }

  /** The letters and digits an id would keep if it could be long enough. */
  function FullKept(lowered: string): string {
    var kept := Kept(lowered);
    if kept == [] then "phase" else if IsLetter(kept[0]) then kept else "phase" + kept
  }

  lemma {:induction false} AllKept(s: string)
    requires forall i :: 0 <= i < |s| ==> IsKept(s[i])
    ensures Kept(s) == s
  {
    if s != [] {
      AllKept(s[1..]);
    }
  }

  lemma KeptAfterPhase(slug: string)
    ensures Kept("phase-" + slug) == "phase" + Kept(slug)
  {
    assert "phase-" == "phase" + "-";
    AllKept("phase");
    KeptAppend("phase", "-");
    KeptAppend("phase-", slug);
    assert Kept("-") == [];
  }

  lemma LetteredKeeps(lowered: string)
    ensures Kept(Lettered(Slug(lowered))) == FullKept(lowered)
  {
    var slug := Slug(lowered);
    SlugKeeps(lowered);
    if slug == [] {
      AllKept("phase");
    } else {
      KeptAfterPhase(slug);
    }
  }

  lemma KeptPrefix(s: string, t: string)
    requires t <= s
    ensures Kept(t) <= Kept(s)
  {
    assert s == t + s[|t|..];
    KeptAppend(t, s[|t|..]);
  }

  lemma CutKeeps(s: string)
    ensures Kept(TrimRight(Take(s, MAX_LENGTH))) <= Kept(s)
    ensures |s| <= MAX_LENGTH ==> Kept(TrimRight(Take(s, MAX_LENGTH))) == Kept(s)
  {
    var t := Take(s, MAX_LENGTH);
    KeptTrimRight(t);
    KeptPrefix(s, t);
    if |s| <= MAX_LENGTH {
      assert t == s;
    }
  }

  /** A base reads like the name: its letters and digits are the name's, in order, as far as they fit. */
  lemma BaseKeepsName(lowered: string)
    ensures Kept(Base(lowered)) <= FullKept(lowered)
    ensures |Slug(lowered)| <= MAX_LENGTH - 6 ==> Kept(Base(lowered)) == FullKept(lowered)
  {
    LetteredKeeps(lowered);
    CutKeeps(Lettered(Slug(lowered)));
  }

  /** A numbered candidate is valid exactly when its number leaves room for one letter of the base. */
  lemma NumberedValidIff(base: string, n: nat)
    requires WellShaped(base) && IsLetter(base[0]) && |base| <= MAX_LENGTH && n >= 2
    ensures SchemaValid(Numbered(base, n)) <==> n < PowerOfTen(MAX_LENGTH - 2)
  {
    DecimalLength(n, MAX_LENGTH - 2);
    var ending := "-" + Decimal(n);
    var front := TrimRight(Take(base, MAX_LENGTH - |ending|));
    var id := Numbered(base, n);
    assert id == front + ending;
    if |ending| < MAX_LENGTH {
      assert Take(base, MAX_LENGTH - |ending|)[0] == base[0] != '-';
      assert id[0] == base[0];
    } else if |ending| == MAX_LENGTH {
      assert front == [] && id[0] == '-';
    }
  }

  // ----- The operation -----

  /** The first candidate that is not taken. */
  ghost predicate FirstFree(base: string, existing: set<string>, n: nat) {
    && n >= 1 && Numbered(base, n) !in existing
    && forall j :: 1 <= j < n ==> Numbered(base, j) in existing
  }

  /** When the chosen id is a valid one: a caller can tell from the name and the ids in use. */
  ghost predicate LeavesValidId(lowered: string, existing: set<string>) {
    var base := Base(lowered);
    if base !in existing then !SingleLetter(lowered)
    else exists n :: 2 <= n < PowerOfTen(MAX_LENGTH - 2) && Numbered(base, n) !in existing
  }

  lemma ChosenIdValidIff(lowered: string, existing: set<string>, n: nat)
    requires FirstFree(Base(lowered), existing, n)
    ensures SchemaValid(Numbered(Base(lowered), n)) <==> LeavesValidId(lowered, existing)
    ensures !SingleLetter(lowered) && |existing| + 2 < PowerOfTen(MAX_LENGTH - 2) ==> LeavesValidId(lowered, existing)
  {
    var base := Base(lowered);
    BaseShape(lowered);
    assert base == Numbered(base, 1);
    if n >= 2 {
      NumberedValidIff(base, n);
      TakenRunOut(base, existing, n);
    }
  }

  method NextCandidate(base: string, suffix: nat) returns (id: string)
    requires suffix >= 2
    ensures id == Numbered(base, suffix)
  {
    var ending := "-" + Decimal(suffix);
    id := TrimRight(Take(base, MAX_LENGTH - |ending|)) + ending;
  }

  method FirstFreeId(base: string, existing: set<string>) returns (id: string)
    ensures id !in existing
    ensures exists n :: FirstFree(base, existing, n) && id == Numbered(base, n)
  {
    id := base;
    var suffix := 2;
    while id in existing
      invariant suffix >= 2 && id == Numbered(base, suffix - 1)
      invariant forall j :: 1 <= j < suffix - 1 ==> Numbered(base, j) in existing
      decreases |existing| + 3 - suffix
    {
      TakenRunOut(base, existing, suffix);
      id := NextCandidate(base, suffix);
      suffix := suffix + 1;
    }
    assert FirstFree(base, existing, suffix - 1);
  }

  /** An unused id for a lower-cased name, and exactly when the phase schema accepts it. */
  method SafePhaseId(lowered: string, existing: set<string>) returns (id: string)
    ensures id !in existing
    ensures exists n :: FirstFree(Base(lowered), existing, n) && id == Numbered(Base(lowered), n)
    ensures SchemaValid(id) <==> LeavesValidId(lowered, existing)
    ensures !SingleLetter(lowered) && |existing| + 2 < PowerOfTen(MAX_LENGTH - 2) ==> SchemaValid(id)
  {
    id := FirstFreeId(Base(lowered), existing);
    ghost var n :| FirstFree(Base(lowered), existing, n) && id == Numbered(Base(lowered), n);
    ChosenIdValidIff(lowered, existing, n);
  }

  /** A name with one letter gets that letter as its id, which is too short. */
  lemma OneLetterIdIsTooShort(letter: char)
    requires IsLetter(letter)
    ensures FirstFree(Base([letter]), {}, 1) && Base([letter]) == [letter]
    ensures !SchemaValid(Numbered(Base([letter]), 1))
  {
    OneLetterBase(letter);
  }

  lemma OneLetterBase(letter: char)
    requires IsLetter(letter)
    ensures Base([letter]) == [letter]
  {
    assert [letter][1..] == [];
    assert Hyphenate([letter]) == [letter];
    assert Slug([letter]) == [letter];
  }
}
