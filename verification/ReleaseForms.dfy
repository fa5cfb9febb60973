/**
 Codex versions as texts: which texts the normalized form, the release form and the runtime form
 are, written out with their letters, dots and hyphens.
 */
module ReleaseForms {
  import opened Lists
  import opened Text
  import opened ReleaseVersions
  import opened ReleaseSpellings

  ghost predicate AllDigits(s: string) {
    s != [] && forall i :: 0 <= i < |s| ==> '0' <= s[i] <= '9'
  }

  lemma AllDigitsIff(s: string)
    ensures AllDigits(s) <==> Digits(s)
  {}

  // ----- Normalized texts -----

  /** No pre-release, or its letters and number. */
  ghost predicate PreText(s: string) {
    s == "" || exists letters, number | letters in ["a", "b", "rc"] :: AllDigits(number) && s == letters + number
  }

  ghost predicate PostText(s: string) {
    s == "" || exists number :: AllDigits(number) && s == ".post" + number
  }

  ghost predicate NormalText(s: string) {
    exists base, pre, post :: DottedDigits(base) && PreText(pre) && PostText(post) && s == base + pre + post
  }

  function PreOf(p: Parts): string {
    if p.pre.Some? then Letters(p.pre.value.kind) + p.pre.value.number else ""
  }

  lemma PartsAreText(p: Parts)
    requires WellFormed(p)
    ensures PreText(PreOf(p)) && PostText(RenderPost(p.post)) && NormalText(Render(p))
  {
    BaseIff(p.base);
    if p.pre.Some? {
      AllDigitsIff(p.pre.value.number);
      assert Letters(p.pre.value.kind) in ["a", "b", "rc"];
    }
    if p.post.Some? {
      AllDigitsIff(p.post.value);
    }
    assert Render(p) == p.base + PreOf(p) + RenderPost(p.post);
  }

  function KindOfLetters(letters: string): Kind {
    if letters == "a" then Alpha else if letters == "b" then Beta else Candidate
  }

  lemma TextHasParts(base: string, pre: string, post: string) returns (p: Parts)
    requires DottedDigits(base) && PreText(pre) && PostText(post)
    ensures WellFormed(p) && p.base == base && PreOf(p) == pre && RenderPost(p.post) == post
  {
    BaseIff(base);
    p := Parts(base, None, None);
    if pre != "" {
      var letters, number :| letters in ["a", "b", "rc"] && AllDigits(number) && pre == letters + number;
      AllDigitsIff(number);
      p := p.(pre := Some(Pre(KindOfLetters(letters), number)));
    }
    if post != "" {
      var number :| AllDigits(number) && post == ".post" + number;
      AllDigitsIff(number);
      p := p.(post := Some(number));
    }
  }

  /** Exactly the normalized texts are parsed. */
  lemma ParsedIff(s: string)
    ensures Parse(s).Some? <==> NormalText(s)
  {
    if Parse(s).Some? {
      ParseSound(s);
      PartsAreText(Parse(s).value);
    }
    if NormalText(s) {
      var base, pre, post :| DottedDigits(base) && PreText(pre) && PostText(post) && s == base + pre + post;
      var p := TextHasParts(base, pre, post);
      ParseRender(p);
    }
  }

  // ----- Spellings -----

  /** A pre-release name spelled out after a hyphen, with or without a dot. */
  ghost predicate SpellsOut(s: string, normal: string, name: string, letters: string) {
    exists base, dot, number | dot in ["", "."] ::
      && DottedDigits(base) && AllDigits(number)
      && s == base + "-" + (name + dot + number) && normal == base + (letters + number)
  }

  ghost predicate SpellsHotfix(s: string, normal: string) {
    exists base, dot, number, post | dot in ["", "."] ::
      && DottedDigits(base) && AllDigits(number) && AllDigits(post)
      && s == base + "-" + ("alpha" + dot + (number + "." + post)) && normal == base + ("a" + number) + (".post" + post)
  }

  /** A broken beta suffix that the rewriting of an alpha suffix completes. */
  ghost predicate SpellsBroken(s: string, normal: string) {
    exists base, dot, number | dot in ["", "."] ::
      && DottedDigits(base) && AllDigits(number)
      && s == base + "-bet" + "-" + ("alpha" + dot + number) && normal == base + ("b" + number)
  }

  ghost predicate StandsFor(s: string, normal: string) {
    || (s == normal && NormalText(normal))
    || SpellsOut(s, normal, "alpha", "a") || SpellsOut(s, normal, "beta", "b") || SpellsOut(s, normal, "rc", "rc")
    || SpellsHotfix(s, normal) || SpellsBroken(s, normal)
  }

  lemma PreOnly(base: string, kind: Kind, number: string)
    ensures Render(Parts(base, Some(Pre(kind, number)), None)) == base + (Letters(kind) + number)
  {}

  lemma SpelledStandsFor(s: string, p: Parts)
    requires WellFormed(p) && Spelled(s, p)
    ensures StandsFor(s, Render(p))
  {
    PartsAreText(p);
    BaseIff(p.base);
    if s != Render(p) {
      var dot :| dot in ["", "."] && SpelledWith(s, p, dot);
      var number := p.pre.value.number;
      AllDigitsIff(number);
      if p.post.Some? {
        AllDigitsIff(p.post.value);
        assert SpellsHotfix(s, Render(p));
      } else {
        PreOnly(p.base, p.pre.value.kind, number);
        if s == p.base + "-" + (Name(p.pre.value.kind) + dot + number) {
          assert SpellsOut(s, Render(p), Name(p.pre.value.kind), Letters(p.pre.value.kind));
        } else {
          assert SpellsBroken(s, Render(p));
        }
      }
    }
  }

  lemma OutIsSpelled(s: string, normal: string, kind: Kind) returns (p: Parts)
    requires SpellsOut(s, normal, Name(kind), Letters(kind))
    ensures WellFormed(p) && Render(p) == normal && Spelled(s, p)
  {
    var base, dot, number :|
      && dot in ["", "."] && DottedDigits(base) && AllDigits(number)
      && s == base + "-" + (Name(kind) + dot + number) && normal == base + (Letters(kind) + number);
    BaseIff(base);
    AllDigitsIff(number);
    p := Parts(base, Some(Pre(kind, number)), None);
    PreOnly(base, kind, number);
    assert SpelledWith(s, p, dot);
  }

  lemma HotfixIsSpelled(s: string, normal: string) returns (p: Parts)
    requires SpellsHotfix(s, normal)
    ensures WellFormed(p) && Render(p) == normal && Spelled(s, p)
  {
    var base, dot, number, post :|
      && dot in ["", "."] && DottedDigits(base) && AllDigits(number) && AllDigits(post)
      && s == base + "-" + ("alpha" + dot + (number + "." + post)) && normal == base + ("a" + number) + (".post" + post);
    BaseIff(base);
    AllDigitsIff(number);
    AllDigitsIff(post);
    p := Parts(base, Some(Pre(Alpha, number)), Some(post));
    assert SpelledWith(s, p, dot);
  }

  lemma BrokenIsSpelled(s: string, normal: string) returns (p: Parts)
    requires SpellsBroken(s, normal)
    ensures WellFormed(p) && Render(p) == normal && Spelled(s, p)
  {
    var base, dot, number :|
      && dot in ["", "."] && DottedDigits(base) && AllDigits(number)
      && s == base + "-bet" + "-" + ("alpha" + dot + number) && normal == base + ("b" + number);
    BaseIff(base);
    AllDigitsIff(number);
    p := Parts(base, Some(Pre(Beta, number)), None);
    PreOnly(base, Beta, number);
    assert SpelledWith(s, p, dot);
  }

  lemma StandsForIsSpelled(s: string, normal: string) returns (p: Parts)
    requires StandsFor(s, normal)
    ensures WellFormed(p) && Render(p) == normal && Spelled(s, p)
  {
    if s == normal && NormalText(normal) {
      ParsedIff(s);
      ParseSound(s);
      p := Parse(s).value;
    } else if SpellsHotfix(s, normal) {
      p := HotfixIsSpelled(s, normal);
    } else if SpellsBroken(s, normal) {
      p := BrokenIsSpelled(s, normal);
    } else if SpellsOut(s, normal, "alpha", "a") {
      p := OutIsSpelled(s, normal, Alpha);
    } else if SpellsOut(s, normal, "beta", "b") {
      p := OutIsSpelled(s, normal, Beta);
    } else {
      p := OutIsSpelled(s, normal, Candidate);
    }
  }

  lemma SpelledWithEnds(s: string, p: Parts, dot: string)
    requires WellFormed(p) && dot in ["", "."] && SpelledWith(s, p, dot)
    ensures s != [] && IsDigit(s[0]) && IsDigit(s[|s| - 1])
  {
    var number := p.pre.value.number;
    if p.post.Some? {
      var mid := "alpha" + dot + (number + ".");
      assert s == p.base + "-" + (mid + p.post.value);
      Ends(p.base, mid, p.post.value);
    } else if s == p.base + "-" + (Name(p.pre.value.kind) + dot + number) {
      Ends(p.base, Name(p.pre.value.kind) + dot, number);
    } else {
      var mid := "bet-alpha" + dot;
      assert s == p.base + "-" + (mid + number);
      Ends(p.base, mid, number);
    }
  }

  lemma SpelledEnds(s: string, p: Parts)
    requires WellFormed(p) && Spelled(s, p)
    ensures s != [] && IsDigit(s[0]) && IsDigit(s[|s| - 1])
  {
    if s == Render(p) {
      RenderChars(p);
    } else {
      var dot :| dot in ["", "."] && SpelledWith(s, p, dot);
      SpelledWithEnds(s, p, dot);
    }
  }

  /** A spelling of the version, perhaps prefixed, perhaps between white space. */
  ghost predicate Carries(version: string, left: string, prefix: string, s: string, right: string) {
    Blank(left) && Blank(right) && prefix in ["", "v", "rust-v"] && version == left + (prefix + s) + right
  }

  lemma PrefixOf(t: string) returns (prefix: string)
    ensures prefix in ["", "v", "rust-v"] && t == prefix + Unprefixed(t)
  {
    if "rust-v" <= t {
      SplitPrefix("rust-v", t);
      return "rust-v";
    } else if "v" <= t {
      SplitPrefix("v", t);
      return "v";
    } else {
      return "";
    }
  }

  lemma CarriedSpelling(version: string) returns (left: string, prefix: string, right: string)
    ensures Carries(version, left, prefix, Unprefixed(Strip(version)), right)
  {
    left, right := StripSplits(version);
    prefix := PrefixOf(Strip(version));
  }

  /**
   A text normalizes to a version exactly when it is, between white space and after an optional
   prefix, one of the spellings that stand for it.
   */
  lemma NormalizesIff(version: string, normal: string)
    ensures NormalizeVersion(version) == Some(normal) <==>
            exists left, prefix, s, right :: Carries(version, left, prefix, s, right) && StandsFor(s, normal)
  {
    if NormalizeVersion(version) == Some(normal) {
      ParseSound(normal);
      var p := Parse(normal).value;
      NormalizedIff(version, p);
      SpelledStandsFor(Unprefixed(Strip(version)), p);
      var left, prefix, right := CarriedSpelling(version);
      assert Carries(version, left, prefix, Unprefixed(Strip(version)), right);
    }
    if left, prefix, s, right :| Carries(version, left, prefix, s, right) && StandsFor(s, normal) {
      CarriedIsRead(version, left, prefix, s, right, normal);
    }
  }

  lemma CarriedIsTrimmed(version: string, left: string, prefix: string, s: string, right: string)
    requires Carries(version, left, prefix, s, right)
    requires s != [] && IsDigit(s[0]) && IsDigit(s[|s| - 1])
    ensures Unprefixed(Strip(version)) == s
  {
    var t := prefix + s;
    assert t == s || t == "v" + s || t == "rust-v" + s;
    PrefixIsRemoved(t, s);
    StripOf(left, t, right);
  }

  lemma CarriedIsRead(version: string, left: string, prefix: string, s: string, right: string, normal: string)
    requires Carries(version, left, prefix, s, right) && StandsFor(s, normal)
    ensures NormalizeVersion(version) == Some(normal)
  {
    var p := StandsForIsSpelled(s, normal);
    SpelledEnds(s, p);
    CarriedIsTrimmed(version, left, prefix, s, right);
    NormalizedIff(version, p);
  }

  // ----- Release texts -----

  lemma ReleaseOfParts(p: Parts)
    requires WellFormed(p)
    ensures ReleaseVersion(Render(p)) == Some(Spell(p))
  {
    EveryFormIsRead(p);
    ParseRender(p);
  }

  lemma ReleaseOfPre(base: string, number: string, kind: Kind)
    requires DottedDigits(base) && AllDigits(number)
    ensures ReleaseVersion(base + (Letters(kind) + number)) == Some(base + "-" + (Name(kind) + "." + number))
  {
    BaseIff(base);
    AllDigitsIff(number);
    PreOnly(base, kind, number);
    ReleaseOfParts(Parts(base, Some(Pre(kind, number)), None));
  }

  lemma ReleaseOfPost(base: string, post: string)
    requires DottedDigits(base) && AllDigits(post)
    ensures ReleaseVersion(base) == Some(base) && ReleaseVersion(base + (".post" + post)) == Some(base + (".post" + post))
  {
    BaseIff(base);
    AllDigitsIff(post);
    assert Render(Parts(base, None, None)) == base;
    assert Render(Parts(base, None, Some(post))) == base + (".post" + post);
    ReleaseOfParts(Parts(base, None, None));
    ReleaseOfParts(Parts(base, None, Some(post)));
  }

  lemma ReleaseOfBoth(base: string, number: string, post: string, kind: Kind)
    requires DottedDigits(base) && AllDigits(number) && AllDigits(post)
    ensures var normal := base + (Letters(kind) + number) + (".post" + post);
            ReleaseVersion(normal) ==
            Some(if kind.Alpha? then base + "-" + ("alpha" + "." + (number + "." + post)) else normal)
  {
    BaseIff(base);
    AllDigitsIff(number);
    AllDigitsIff(post);
    ReleaseOfParts(Parts(base, Some(Pre(kind, number)), Some(post)));
  }

  /** The release form of every normalized text: only pre-releases and alpha hotfixes are spelled out. */
  lemma ReleaseTexts(base: string, number: string, post: string)
    requires DottedDigits(base) && AllDigits(number) && AllDigits(post)
    ensures ReleaseVersion(base) == Some(base) && ReleaseVersion(base + (".post" + post)) == Some(base + (".post" + post))
    ensures ReleaseVersion(base + ("a" + number)) == Some(base + "-" + ("alpha" + "." + number))
    ensures ReleaseVersion(base + ("b" + number)) == Some(base + "-" + ("beta" + "." + number))
    ensures ReleaseVersion(base + ("rc" + number)) == Some(base + "-" + ("rc" + "." + number))
    ensures ReleaseVersion(base + ("a" + number) + (".post" + post)) ==
            Some(base + "-" + ("alpha" + "." + (number + "." + post)))
    ensures ReleaseVersion(base + ("b" + number) + (".post" + post)) == Some(base + ("b" + number) + (".post" + post))
    ensures ReleaseVersion(base + ("rc" + number) + (".post" + post)) == Some(base + ("rc" + number) + (".post" + post))
  {
    ReleaseOfPost(base, post);
    ReleaseOfPre(base, number, Alpha);
    ReleaseOfPre(base, number, Beta);
    ReleaseOfPre(base, number, Candidate);
    ReleaseOfBoth(base, number, post, Alpha);
    ReleaseOfBoth(base, number, post, Beta);
    ReleaseOfBoth(base, number, post, Candidate);
  }

  /** A version is released as its normalized text is, under a tag with the prefix. */
  lemma ReleasedAsNormalized(version: string)
    ensures ReleaseVersion(version) ==
            if NormalizeVersion(version).None? then None else ReleaseVersion(NormalizeVersion(version).value)
    ensures ReleaseTag(version) ==
            if ReleaseVersion(version).None? then None else Some("rust-v" + ReleaseVersion(version).value)
  {
    if NormalizeVersion(version).Some? {
      ReleaseRoundTrip(version);
    }
  }

  // ----- Runtime texts -----

  ghost predicate ThreeGroups(s: string, a: string, b: string, c: string) {
    AllDigits(a) && AllDigits(b) && AllDigits(c) && s == a + "." + (b + "." + c)
  }

  lemma DotsOfBase(s: string)
    requires IsBase(s)
    ensures var n := DigitSpan(s);
            && AllDigits(s[..n])
            && multiset(s)['.'] == if n == |s| then 0 else 1 + multiset(s[n + 1..])['.']
  {
    var n := DigitSpan(s);
    assert '.' !in multiset(s[..n]);
    if n < |s| {
      assert s == s[..n] + ['.'] + s[n + 1..];
    } else {
      assert s[..n] == s;
    }
  }

  lemma FirstGroup(s: string) returns (a: string, rest: string)
    requires IsBase(s) && multiset(s)['.'] > 0
    ensures AllDigits(a) && IsBase(rest) && s == a + "." + rest && multiset(s)['.'] == 1 + multiset(rest)['.']
  {
    DotsOfBase(s);
    var n := DigitSpan(s);
    a, rest := s[..n], s[n + 1..];
    assert s == a + "." + rest;
  }

  lemma OnlyGroup(s: string)
    requires IsBase(s) && multiset(s)['.'] == 0
    ensures AllDigits(s)
  {
    DotsOfBase(s);
    assert s[..|s|] == s;
  }

  lemma GroupsOfBase(s: string) returns (a: string, b: string, c: string)
    requires IsBase(s) && multiset(s)['.'] == 2
    ensures ThreeGroups(s, a, b, c)
  {
    var rest;
    a, rest := FirstGroup(s);
    b, c := FirstGroup(rest);
    OnlyGroup(c);
  }

  lemma DotsOfGroup(a: string, rest: string)
    requires AllDigits(a)
    ensures multiset(a + "." + rest)['.'] == 1 + multiset(rest)['.']
  {
    assert '.' !in multiset(a);
    assert multiset(".") == multiset{'.'};
  }

  lemma BaseOfGroup(a: string, rest: string)
    requires AllDigits(a) && IsBase(rest)
    ensures IsBase(a + "." + rest)
  {
    var s := a + ("." + rest);
    SpanOf(a, "." + rest);
    assert s[|a|] == '.' && s[|a| + 1..] == rest;
    assert s == a + "." + rest;
  }

  lemma BaseOfGroups(s: string, a: string, b: string, c: string)
    requires ThreeGroups(s, a, b, c)
    ensures IsBase(s) && multiset(s)['.'] == 2
  {
    AllDigitsIff(c);
    DotsOfBase(c);
    BaseOfGroup(b, c);
    DotsOfGroup(b, c);
    BaseOfGroup(a, b + "." + c);
    DotsOfGroup(a, b + "." + c);
  }

  /** Nothing, a numbered alpha, or a post-release of one. */
  ghost predicate RuntimeTail(tail: string) {
    || tail == ""
    || exists number, post :: AllDigits(number) && PostText(post) && tail == "a" + number + post
  }

  lemma TailStart(tail: string)
    requires RuntimeTail(tail) && tail != ""
    ensures tail[0] == 'a'
  {
    var number, post :| AllDigits(number) && PostText(post) && tail == "a" + number + post;
    assert tail == "a" + (number + post);
  }

  lemma TailOf(p: Parts)
    requires WellFormed(p) && p.pre.Some? && p.pre.value.kind.Alpha?
    ensures RuntimeTail(PreOf(p) + RenderPost(p.post))
  {
    PartsAreText(p);
    AllDigitsIff(p.pre.value.number);
    assert PreOf(p) + RenderPost(p.post) == "a" + p.pre.value.number + RenderPost(p.post);
  }

  lemma RuntimeHasTail(p: Parts)
    requires WellFormed(p)
    ensures RuntimeTail(PreOf(p) + RenderPost(p.post)) <==>
            if p.pre.Some? then p.pre.value.kind.Alpha? else p.post.None?
  {
    var tail := PreOf(p) + RenderPost(p.post);
    if p.pre.Some? && p.pre.value.kind.Alpha? {
      TailOf(p);
    } else if tail != "" {
      assert tail[0] == if p.pre.Some? then Letters(p.pre.value.kind)[0] else '.';
      if RuntimeTail(tail) {
        TailStart(tail);
      }
    }
  }

  ghost predicate RuntimeText(version: string, base: string, a: string, b: string, c: string, tail: string) {
    ThreeGroups(base, a, b, c) && RuntimeTail(tail) && version == base + tail
  }

  lemma RenderSplits(p: Parts)
    ensures Render(p) == p.base + (PreOf(p) + RenderPost(p.post))
  {}

  lemma RuntimeParts(version: string) returns (p: Parts)
    requires RuntimeVersion(version)
    ensures IsBase(p.base) && multiset(p.base)['.'] == 2 && RuntimeTail(PreOf(p) + RenderPost(p.post))
    ensures version == Render(p)
  {
    p := Parse(version).value;
    ParseSound(version);
    RuntimeHasTail(p);
  }

  lemma RuntimeIsText(version: string) returns (base: string, a: string, b: string, c: string, tail: string)
    requires RuntimeVersion(version)
    ensures RuntimeText(version, base, a, b, c, tail)
  {
    var p := RuntimeParts(version);
    base, tail := p.base, PreOf(p) + RenderPost(p.post);
    RenderSplits(p);
    a, b, c := GroupsOfBase(base);
  }

  lemma TailParts(tail: string) returns (pre: string, post: string)
    requires RuntimeTail(tail)
    ensures PreText(pre) && PostText(post) && tail == pre + post
  {
    pre, post := "", "";
    if tail != "" {
      var number, ending :| AllDigits(number) && PostText(ending) && tail == "a" + number + ending;
      assert "a" in ["a", "b", "rc"];
      return "a" + number, ending;
    }
  }

  lemma PartsAreRuntime(p: Parts)
    requires WellFormed(p) && multiset(p.base)['.'] == 2 && RuntimeTail(PreOf(p) + RenderPost(p.post))
    ensures RuntimeVersion(Render(p))
  {
    RuntimeHasTail(p);
    ParseRender(p);
  }

  lemma TextIsRuntime(version: string, base: string, a: string, b: string, c: string, tail: string)
    requires RuntimeText(version, base, a, b, c, tail)
    ensures RuntimeVersion(version)
  {
    BaseOfGroups(base, a, b, c);
    BaseIff(base);
    var pre, post := TailParts(tail);
    var p := TextHasParts(base, pre, post);
    RenderSplits(p);
    PartsAreRuntime(p);
  }

  /**
   A runtime version is three groups of digits with single dots, alone or with a numbered alpha and
   perhaps the number of its post-release.
   */
  lemma RuntimeVersionIff(version: string)
    ensures RuntimeVersion(version) <==> exists base, a, b, c, tail :: RuntimeText(version, base, a, b, c, tail)
  {
    if RuntimeVersion(version) {
      var base, a, b, c, tail := RuntimeIsText(version);
    }
    if base, a, b, c, tail :| RuntimeText(version, base, a, b, c, tail) {
      TextIsRuntime(version, base, a, b, c, tail);
    }
  }
}
