/**
 The release form of a Codex version, its tag, and the normalization that reads any spelling of a
 version back: suffixes spelled out after a hyphen are rewritten one pattern after the other.
 */
module ReleaseSpellings {
  import opened Lists
  import opened Text
  import opened ReleaseVersions

  // ----- Suffix patterns, anchored at the end of the text -----

  /** What follows a pre-release name and an optional dot. */
  function AfterName(tail: string, name: string): Option<string> {
    if name <= tail then
      var rest := tail[|name|..];
      Some(if rest != [] && rest[0] == '.' then rest[1..] else rest)
    else None
  }

  function NumberAfter(tail: string, name: string): Option<string> {
    var rest := AfterName(tail, name);
    if rest.Some? && Digits(rest.value) then rest else None
  }

  function HotfixAfter(tail: string): Option<(string, string)> {
    var rest := AfterName(tail, "alpha");
    if rest.None? then None else Hotfix(rest.value)
  }

  function Hotfix(rest: string): Option<(string, string)> {
    var k := DigitSpan(rest);
    if 0 < k < |rest| && rest[k] == '.' && Digits(rest[k + 1..]) then Some((rest[..k], rest[k + 1..])) else None
  }

  function RewriteNumber(s: string, kind: Kind): string {
    var i := LastHyphen(s);
    if i < 0 then s
    else
      var number := NumberAfter(s[i + 1..], Name(kind));
      if number.Some? then s[..i] + (Letters(kind) + number.value) else s
  }

  function RewriteHotfix(s: string): string {
    var i := LastHyphen(s);
    if i < 0 then s
    else
      var hotfix := HotfixAfter(s[i + 1..]);
      if hotfix.Some? then s[..i] + ("a" + hotfix.value.0 + (".post" + hotfix.value.1)) else s
  }

  // ----- The three operations -----

  function Unprefixed(s: string): string {
    if "rust-v" <= s then s[6..] else if "v" <= s then s[1..] else s
  }

  function Respelled(s: string): string {
    RewriteNumber(RewriteNumber(RewriteNumber(RewriteHotfix(s), Alpha), Beta), Candidate)
  }

  /** The normalized version a text stands for; none when it stands for no version. */
  function NormalizeVersion(version: string): Option<string> {
    var s := Respelled(Unprefixed(Strip(version)));
    if Parse(s).Some? then Some(s) else None
  }

  function Spell(p: Parts): string {
    if p.pre.Some? && p.post.None? then p.base + "-" + (Name(p.pre.value.kind) + "." + p.pre.value.number)
    else if p.pre.Some? && p.pre.value.kind.Alpha? then
      p.base + "-" + ("alpha" + "." + (p.pre.value.number + "." + p.post.value))
    else Render(p)
  }

  function ReleaseVersion(version: string): Option<string> {
    var normalized := NormalizeVersion(version);
    if normalized.None? then None else Some(Spell(Parse(normalized.value).value))
  }

  function ReleaseTag(version: string): Option<string> {
    var release := ReleaseVersion(version);
    if release.None? then None else Some("rust-v" + release.value)
  }

  /** A stable three-part version, a numbered alpha of one, or a post-release of such an alpha. */
  predicate RuntimeVersion(version: string) {
    var p := Parse(version);
    && p.Some? && multiset(p.value.base)['.'] == 2
    && (if p.value.pre.Some? then p.value.pre.value.kind.Alpha? else p.value.post.None?)
  }

  /** A runtime package version and the release tag it is built from; none when it is no such version. */
  function ResolveRuntimeRelease(version: string): Option<(string, string)> {
    if !RuntimeVersion(version) || ReleaseTag(version).None? then None
    else Some((version, ReleaseTag(version).value))
  }

  // ----- The spellings of a version -----

  predicate Spelled(s: string, p: Parts) {
    || s == Render(p)
    || exists dot | dot in ["", "."] :: SpelledWith(s, p, dot)
  }

  /** The text is the version with its suffix spelled out, with or without the dot. */
  predicate SpelledWith(s: string, p: Parts, dot: string) {
    && p.pre.Some?
    && var number := p.pre.value.number;
       if p.post.Some? then
         p.pre.value.kind.Alpha? && s == p.base + "-" + ("alpha" + dot + (number + "." + p.post.value))
       else
         || s == p.base + "-" + (Name(p.pre.value.kind) + dot + number)
         // Rewriting an alpha suffix can complete a beta suffix, which is then rewritten too.
         || (p.pre.value.kind.Beta? && s == (p.base + "-bet") + "-" + ("alpha" + dot + number))
  }

  // ----- Evaluating the patterns -----

  lemma AfterNameOf(name: string, dot: string, rest: string)
    requires dot in ["", "."] && rest != [] && rest[0] != '.'
    ensures AfterName(name + dot + rest, name) == Some(rest)
  {
    var tail := name + dot + rest;
    assert tail[|name|..] == dot + rest;
    if dot == "" {
      assert dot + rest == rest;
    } else {
      assert (dot + rest)[1..] == rest;
    }
  }

  lemma AfterNameSound(tail: string, name: string) returns (dot: string)
    requires AfterName(tail, name).Some?
    ensures dot in ["", "."] && tail == name + dot + AfterName(tail, name).value
  {
    var rest := tail[|name|..];
    SplitPrefix(name, tail);
    dot := if rest != [] && rest[0] == '.' then "." else "";
    assert rest == dot + AfterName(tail, name).value;
  }

  lemma RewriteNumberAt(front: string, tail: string, kind: Kind)
    requires '-' !in tail
    ensures var number := NumberAfter(tail, Name(kind));
            RewriteNumber(front + "-" + tail, kind) ==
            if number.Some? then front + (Letters(kind) + number.value) else front + "-" + tail
  {
    var s := front + "-" + tail;
    HyphenAt(front, tail);
    assert s[..|front|] == front && s[|front| + 1..] == tail;
  }

  lemma RewriteHotfixAt(front: string, tail: string)
    requires '-' !in tail
    ensures var hotfix := HotfixAfter(tail);
            RewriteHotfix(front + "-" + tail) ==
            if hotfix.Some? then front + ("a" + hotfix.value.0 + (".post" + hotfix.value.1)) else front + "-" + tail
  {
    var s := front + "-" + tail;
    HyphenAt(front, tail);
    assert s[..|front|] == front && s[|front| + 1..] == tail;
  }

  lemma RespelledWithoutHyphen(s: string)
    requires '-' !in s
    ensures Respelled(s) == s
  {
    NoHyphen(s);
  }

  lemma DigitsHaveNoHyphen(s: string)
    requires Digits(s)
    ensures '-' !in s && s[0] != '.'
  {}

  lemma RenderChars(p: Parts)
    requires WellFormed(p)
    ensures '-' !in Render(p)
    ensures Render(p) != [] && IsDigit(Render(p)[0]) && IsDigit(Render(p)[|Render(p)| - 1])
  {
    BaseChars(p.base);
    if p.pre.Some? {
      DigitsHaveNoHyphen(p.pre.value.number);
    }
    if p.post.Some? {
      DigitsHaveNoHyphen(p.post.value);
    }
  }

  // ----- Every spelling is read back -----

  lemma HotfixOf(number: string, post: string)
    requires Digits(number) && Digits(post)
    ensures Hotfix(number + "." + post) == Some((number, post))
  {
    var rest := number + ("." + post);
    SpanOf(number, "." + post);
    assert number + "." + post == rest;
    assert rest[..|number|] == number && rest[|number| + 1..] == post;
  }

  lemma HotfixTail(dot: string, number: string, post: string)
    requires Digits(number) && Digits(post) && dot in ["", "."]
    ensures var tail := "alpha" + dot + (number + "." + post);
            '-' !in tail && HotfixAfter(tail) == Some((number, post))
  {
    var rest := number + "." + post;
    DigitsHaveNoHyphen(number);
    DigitsHaveNoHyphen(post);
    assert rest[0] == number[0];
    AfterNameOf("alpha", dot, rest);
    HotfixOf(number, post);
  }

  lemma HotfixSpellingIsRead(p: Parts, dot: string)
    requires WellFormed(p) && p.pre.Some? && p.pre.value.kind.Alpha? && p.post.Some? && dot in ["", "."]
    ensures Respelled(p.base + "-" + ("alpha" + dot + (p.pre.value.number + "." + p.post.value))) == Render(p)
  {
    var number, post := p.pre.value.number, p.post.value;
    HotfixTail(dot, number, post);
    RewriteHotfixAt(p.base, "alpha" + dot + (number + "." + post));
    assert Render(p) == p.base + ("a" + number + (".post" + post));
    RenderChars(p);
    NoHyphen(Render(p));
  }

  lemma NumberTail(kind: Kind, dot: string, number: string, other: Kind)
    requires Digits(number) && dot in ["", "."]
    ensures var tail := Name(kind) + dot + number;
            && '-' !in tail && HotfixAfter(tail) == None
            && NumberAfter(tail, Name(other)) == if other == kind then Some(number) else None
  {
    var tail := Name(kind) + dot + number;
    DigitsHaveNoHyphen(number);
    AfterNameOf(Name(kind), dot, number);
    assert tail[0] == Name(kind)[0];
  }

  lemma RewriteSpelled(front: string, kind: Kind, dot: string, number: string, other: Kind)
    requires Digits(number) && dot in ["", "."]
    ensures var s := front + "-" + (Name(kind) + dot + number);
            && RewriteHotfix(s) == s
            && RewriteNumber(s, other) == if other == kind then front + (Letters(kind) + number) else s
  {
    NumberTail(kind, dot, number, other);
    RewriteHotfixAt(front, Name(kind) + dot + number);
    RewriteNumberAt(front, Name(kind) + dot + number, other);
  }

  lemma NumberSpellingIsRead(p: Parts, dot: string)
    requires WellFormed(p) && p.pre.Some? && p.post.None? && dot in ["", "."]
    ensures Respelled(p.base + "-" + (Name(p.pre.value.kind) + dot + p.pre.value.number)) == Render(p)
  {
    var kind, number := p.pre.value.kind, p.pre.value.number;
    RewriteSpelled(p.base, kind, dot, number, Alpha);
    RewriteSpelled(p.base, kind, dot, number, Beta);
    RewriteSpelled(p.base, kind, dot, number, Candidate);
    assert Render(p) == p.base + (Letters(kind) + number);
    RenderChars(p);
    NoHyphen(Render(p));
  }

  lemma CompletesBeta(front: string, number: string)
    ensures (front + "-bet") + ("a" + number) == front + "-" + ("beta" + "" + number)
  {
    assert "-bet" + "a" == "-" + "beta";
    assert "beta" + "" == "beta";
    assert (front + "-bet") + ("a" + number) == front + ("-bet" + "a") + number;
    assert front + "-" + ("beta" + number) == front + ("-" + "beta") + number;
  }

  lemma CompletedSpellingIsRead(p: Parts, dot: string)
    requires WellFormed(p) && p.pre.Some? && p.pre.value.kind.Beta? && p.post.None? && dot in ["", "."]
    ensures Respelled((p.base + "-bet") + "-" + ("alpha" + dot + p.pre.value.number)) == Render(p)
  {
    var number := p.pre.value.number;
    var s, completed := (p.base + "-bet") + "-" + ("alpha" + dot + number), p.base + "-" + ("beta" + "" + number);
    assert RewriteNumber(RewriteHotfix(s), Alpha) == completed by {
      RewriteSpelled(p.base + "-bet", Alpha, dot, number, Alpha);
      CompletesBeta(p.base, number);
    }
    assert RewriteNumber(completed, Beta) == Render(p) by {
      RewriteSpelled(p.base, Beta, "", number, Beta);
      assert Render(p) == p.base + ("b" + number);
    }
    RenderChars(p);
    NoHyphen(Render(p));
  }

  lemma SpellingIsRead(s: string, p: Parts)
    requires WellFormed(p) && Spelled(s, p)
    ensures Respelled(s) == Render(p)
  {
    if s == Render(p) {
      RenderChars(p);
      RespelledWithoutHyphen(s);
    } else {
      var dot :| dot in ["", "."] && SpelledWith(s, p, dot);
      var number := p.pre.value.number;
      if p.post.Some? {
        HotfixSpellingIsRead(p, dot);
      } else if s == p.base + "-" + (Name(p.pre.value.kind) + dot + number) {
        NumberSpellingIsRead(p, dot);
      } else {
        CompletedSpellingIsRead(p, dot);
      }
    }
  }

  // ----- Nothing else is read -----

  /** The text without its final digits. */
  function TrimDigits(s: string): (r: string)
    ensures |r| <= |s| && r == s[..|r|]
    ensures r == [] || !IsDigit(r[|r| - 1])
  {
    if s != [] && IsDigit(s[|s| - 1]) then TrimDigits(s[..|s| - 1]) else s
  }

  lemma {:induction false} TrimOf(s: string, number: string)
    requires s != [] && !IsDigit(s[|s| - 1])
    requires forall i :: 0 <= i < |number| ==> IsDigit(number[i])
    ensures TrimDigits(s + number) == s
  {
    var all := s + number;
    if number == [] {
      assert all == s;
    } else {
      assert all[..|all| - 1] == s + number[..|number| - 1];
      TrimOf(s, number[..|number| - 1]);
    }
  }

  /** The last character before the final digits. */
  function Mark(s: string): Option<char> {
    var r := TrimDigits(s);
    if r == [] then None else Some(r[|r| - 1])
  }

  lemma MarkOf(front: string, letters: string, number: string)
    requires Digits(number) && letters != [] && !IsDigit(letters[|letters| - 1])
    ensures TrimDigits(front + (letters + number)) == front + letters
    ensures Mark(front + (letters + number)) == Some(letters[|letters| - 1])
  {
    assert front + (letters + number) == (front + letters) + number;
    TrimOf(front + letters, number);
  }

  lemma SplitAtHyphen(s: string, i: nat)
    requires i < |s| && s[i] == '-'
    ensures s == s[..i] + "-" + s[i + 1..]
  {}

  /** A number suffix that was rewritten was there, and its letters mark the result. */
  lemma NumberRewritten(s: string, kind: Kind) returns (front: string, dot: string, number: string)
    requires RewriteNumber(s, kind) != s
    ensures Digits(number) && dot in ["", "."]
    ensures s == front + "-" + (Name(kind) + dot + number)
    ensures RewriteNumber(s, kind) == front + (Letters(kind) + number)
  {
    var i := LastHyphen(s);
    var tail := s[i + 1..];
    SplitAtHyphen(s, i);
    front, number := s[..i], NumberAfter(tail, Name(kind)).value;
    dot := AfterNameSound(tail, Name(kind));
  }

  lemma NumberMarks(s: string, kind: Kind)
    requires RewriteNumber(s, kind) != s
    ensures var letters := Letters(kind); Mark(RewriteNumber(s, kind)) == Some(letters[|letters| - 1])
    ensures Mark(s) in [Some('.'), Some(if kind.Candidate? then 'c' else 'a')]
  {
    var front, dot, number := NumberRewritten(s, kind);
    MarkOf(front, Letters(kind), number);
    assert s == (front + "-") + ((Name(kind) + dot) + number);
    MarkOf(front + "-", Name(kind) + dot, number);
  }

  lemma HotfixSound(rest: string)
    requires Hotfix(rest).Some?
    ensures var (number, post) := Hotfix(rest).value;
            Digits(number) && Digits(post) && rest == number + "." + post
  {
    var k := DigitSpan(rest);
    DigitsOf(rest[..k]);
    assert rest == rest[..k] + "." + rest[k + 1..];
  }

  lemma HotfixRewritten(s: string) returns (front: string, dot: string, number: string, post: string)
    requires RewriteHotfix(s) != s
    ensures Digits(number) && Digits(post) && dot in ["", "."]
    ensures s == front + "-" + ("alpha" + dot + (number + "." + post))
    ensures RewriteHotfix(s) == front + ("a" + number + (".post" + post))
  {
    var i := LastHyphen(s);
    var tail := s[i + 1..];
    SplitAtHyphen(s, i);
    var rest := AfterName(tail, "alpha").value;
    front, number, post := s[..i], HotfixAfter(tail).value.0, HotfixAfter(tail).value.1;
    dot := AfterNameSound(tail, "alpha");
    HotfixSound(rest);
  }

  lemma Associates(a: string, b: string, c: string)
    ensures a + (b + c) == (a + b) + c
  {}

  lemma HotfixMarks(s: string)
    requires RewriteHotfix(s) != s
    ensures Mark(RewriteHotfix(s)) == Some('t')
  {
    var front, dot, number, post := HotfixRewritten(s);
    Associates(front, "a" + number, ".post" + post);
    MarkOf(front + ("a" + number), ".post", post);
  }

  lemma {:induction false} TrimBase(s: string)
    requires forall i :: 0 <= i < |s| ==> BaseChar(s[i])
    ensures Mark(s) in [None, Some('.')]
  {
    var r := TrimDigits(s);
    if r != [] {
      assert r[|r| - 1] == s[|r| - 1];
    }
  }

  /** The mark of a normalized version tells which suffix it ends in. */
  lemma RenderMark(p: Parts)
    requires WellFormed(p)
    ensures p.post.Some? ==>
              TrimDigits(Render(p)) == Render(p.(post := None)) + ".post" && Mark(Render(p)) == Some('t')
    ensures p.post.None? && p.pre.None? ==> Mark(Render(p)) in [None, Some('.')]
    ensures p.post.None? && p.pre.Some? ==>
              var letters := Letters(p.pre.value.kind);
              TrimDigits(Render(p)) == p.base + letters && Mark(Render(p)) == Some(letters[|letters| - 1])
  {
    if p.post.Some? {
      var before := Render(p.(post := None));
      assert Render(p) == before + (".post" + p.post.value);
      MarkOf(before, ".post", p.post.value);
    } else if p.pre.Some? {
      assert Render(p) == p.base + (Letters(p.pre.value.kind) + p.pre.value.number);
      MarkOf(p.base, Letters(p.pre.value.kind), p.pre.value.number);
    } else {
      BaseChars(p.base);
      assert Render(p) == p.base;
      TrimBase(p.base);
    }
  }

  lemma Cancel(front: string, front': string, tail: string, tail': string)
    requires front + tail == front' + tail' && (|front| == |front'| || |tail| == |tail'|)
    ensures front == front' && tail == tail'
  {
    assert front == (front + tail)[..|front|] && tail == (front + tail)[|front|..];
    assert front' == (front' + tail')[..|front'|] && tail' == (front' + tail')[|front'|..];
  }

  lemma EndsInNumber(p: Parts, front: string, kind: Kind, number: string)
    requires WellFormed(p) && Digits(number) && Render(p) == front + (Letters(kind) + number)
    ensures p == Parts(front, Some(Pre(kind, number)), None)
  {
    var letters := Letters(kind);
    RenderMark(p);
    MarkOf(front, letters, number);
    assert p.post.None? && p.pre.Some? && p.pre.value.kind == kind;
    Cancel(p.base, front, letters, letters);
    assert Render(p) == p.base + (letters + p.pre.value.number);
    Cancel(p.base, front, letters + p.pre.value.number, letters + number);
    Cancel(letters, letters, p.pre.value.number, number);
  }

  lemma MarkedIsPost(p: Parts)
    requires WellFormed(p) && Mark(Render(p)) == Some('t')
    ensures p.post.Some? && TrimDigits(Render(p)) == Render(p.(post := None)) + ".post"
  {
    RenderMark(p);
  }

  lemma SameNumber(before: string, letters: string, number: string, number': string)
    requires before + (letters + number) == before + (letters + number')
    ensures number == number'
  {
    Cancel(before, before, letters + number, letters + number');
    Cancel(letters, letters, number, number');
  }

  lemma RenderWithPost(p: Parts)
    requires p.post.Some?
    ensures Render(p) == Render(p.(post := None)) + (".post" + p.post.value)
  {}

  lemma EndsInPost(p: Parts, before: string, post: string)
    requires WellFormed(p) && Digits(post) && Render(p) == before + (".post" + post)
    ensures p.post == Some(post) && Render(p.(post := None)) == before
  {
    MarkOf(before, ".post", post);
    MarkedIsPost(p);
    Cancel(Render(p.(post := None)), before, ".post", ".post");
    RenderWithPost(p);
    SameNumber(before, ".post", post, p.post.value);
  }

  lemma EndsInHotfix(p: Parts, front: string, number: string, post: string)
    requires WellFormed(p) && Digits(number) && Digits(post)
    requires Render(p) == front + ("a" + number + (".post" + post))
    ensures p == Parts(front, Some(Pre(Alpha, number)), Some(post))
  {
    Associates(front, "a" + number, ".post" + post);
    EndsInPost(p, front + ("a" + number), post);
    EndsInNumber(p.(post := None), front, Alpha, number);
  }

  lemma AlphaWasRewritten(s: string, front: string, number: string) returns (dot: string)
    requires Digits(number) && RewriteNumber(s, Alpha) == front + ("a" + number) != s
    ensures dot in ["", "."] && s == front + "-" + ("alpha" + dot + number)
    ensures Mark(s) in [Some('.'), Some('a')]
  {
    var front', number';
    front', dot, number' := NumberRewritten(s, Alpha);
    MarkOf(front, "a", number);
    MarkOf(front', "a", number');
    Cancel(front, front', "a", "a");
    Cancel(front, front', "a" + number, "a" + number');
    Cancel("a", "a", number, number');
    NumberMarks(s, Alpha);
  }

  lemma BetaMark(front: string, dot: string, number: string)
    requires Digits(number) && dot in ["", "."]
    ensures Mark(front + "-" + ("beta" + dot + number)) == Some(if dot == "" then 'a' else '.')
  {
    assert front + "-" + ("beta" + dot + number) == (front + "-") + (("beta" + dot) + number);
    MarkOf(front + "-", "beta" + dot, number);
  }

  lemma CompletedWasSpelled(s: string, p: Parts, dot: string)
    requires WellFormed(p) && p.pre.Some? && p.pre.value.kind.Beta? && p.post.None? && dot in ["", "."]
    requires s != RewriteNumber(s, Alpha) == p.base + "-" + ("beta" + dot + p.pre.value.number)
    ensures Spelled(s, p) && Mark(s) != Some('t')
  {
    var number := p.pre.value.number;
    NumberMarks(s, Alpha);
    BetaMark(p.base, dot, number);
    CompletesBeta(p.base, number);
    var dot' := AlphaWasRewritten(s, p.base + "-bet", number);
    assert SpelledWith(s, p, dot');
  }

  /** Working backwards from a beta version: its own spelling, or the one an alpha rewriting completes. */
  lemma BetaWasSpelled(s: string, p: Parts, dot: string)
    requires WellFormed(p) && p.pre.Some? && p.pre.value.kind.Beta? && p.post.None? && dot in ["", "."]
    requires RewriteNumber(RewriteHotfix(s), Alpha) == p.base + "-" + ("beta" + dot + p.pre.value.number)
    ensures Spelled(s, p)
  {
    var s2 := RewriteHotfix(s);
    if RewriteNumber(s2, Alpha) != s2 {
      CompletedWasSpelled(s2, p, dot);
    } else {
      BetaMark(p.base, dot, p.pre.value.number);
      assert SpelledWith(s2, p, dot);
    }
    NotMarked(s);
  }

  lemma NumberWasSpelled(s: string, p: Parts, kind: Kind)
    requires WellFormed(p) && s != RewriteNumber(s, kind) == Render(p)
    ensures Spelled(s, p) && Mark(s) in [Some('.'), Some(if kind.Candidate? then 'c' else 'a')]
  {
    var front, dot, number := NumberRewritten(s, kind);
    EndsInNumber(p, front, kind, number);
    NumberMarks(s, kind);
    assert SpelledWith(s, p, dot);
  }

  /** A text without the mark of a rewriting was not rewritten. */
  lemma NotMarked(s: string)
    ensures var s2 := RewriteHotfix(s);
            var s3 := RewriteNumber(s2, Alpha);
            var s4 := RewriteNumber(s3, Beta);
            && (Mark(s2) != Some('t') ==> s2 == s)
            && (Mark(s3) != Some('a') ==> s3 == s2)
            && (Mark(s4) != Some('b') ==> s4 == s3)
  {
    var s2 := RewriteHotfix(s);
    var s3 := RewriteNumber(s2, Alpha);
    if s2 != s {
      HotfixMarks(s);
    }
    if s3 != s2 {
      NumberMarks(s2, Alpha);
    }
    if RewriteNumber(s3, Beta) != s3 {
      NumberMarks(s3, Beta);
    }
  }

  lemma HotfixWasSpelled(s: string, p: Parts)
    requires WellFormed(p) && s != RewriteHotfix(s) == Render(p)
    ensures Spelled(s, p)
  {
    var front, dot, number, post := HotfixRewritten(s);
    EndsInHotfix(p, front, number, post);
    assert SpelledWith(s, p, dot);
  }

  lemma BetaWasRewritten(s: string, p: Parts)
    requires WellFormed(p)
    requires var s3 := RewriteNumber(RewriteHotfix(s), Alpha); s3 != RewriteNumber(s3, Beta) == Render(p)
    ensures Spelled(s, p)
  {
    var front, dot, number := NumberRewritten(RewriteNumber(RewriteHotfix(s), Alpha), Beta);
    EndsInNumber(p, front, Beta, number);
    BetaWasSpelled(s, p, dot);
  }

  lemma CandidateWasRewritten(s: string, p: Parts)
    requires WellFormed(p)
    requires var s4 := RewriteNumber(RewriteNumber(RewriteHotfix(s), Alpha), Beta);
             s4 != RewriteNumber(s4, Candidate) == Render(p)
    ensures Spelled(s, p)
  {
    NumberWasSpelled(RewriteNumber(RewriteNumber(RewriteHotfix(s), Alpha), Beta), p, Candidate);
    NotMarked(s);
  }

  lemma AlphaWasRewrittenLast(s: string, p: Parts)
    requires WellFormed(p)
    requires var s2 := RewriteHotfix(s); s2 != RewriteNumber(s2, Alpha) == Render(p)
    ensures Spelled(s, p)
  {
    NumberWasSpelled(RewriteHotfix(s), p, Alpha);
    NotMarked(s);
  }

  /** Only the spellings of a version are rewritten to it. */
  lemma OnlySpellingsAreRead(s: string, p: Parts)
    requires WellFormed(p) && Respelled(s) == Render(p)
    ensures Spelled(s, p)
  {
    var s2 := RewriteHotfix(s);
    var s3 := RewriteNumber(s2, Alpha);
    var s4 := RewriteNumber(s3, Beta);
    if RewriteNumber(s4, Candidate) != s4 {
      CandidateWasRewritten(s, p);
    } else if s4 != s3 {
      BetaWasRewritten(s, p);
    } else if s3 != s2 {
      AlphaWasRewrittenLast(s, p);
    } else if s2 != s {
      HotfixWasSpelled(s, p);
    }
  }

  // ----- Main results -----

  lemma RespelledIff(s: string, p: Parts)
    requires WellFormed(p)
    ensures Respelled(s) == Render(p) <==> Spelled(s, p)
  {
    if Spelled(s, p) {
      SpellingIsRead(s, p);
    }
    if Respelled(s) == Render(p) {
      OnlySpellingsAreRead(s, p);
    }
  }

  /** A text normalizes to a version exactly when, trimmed and without its prefix, it spells that version. */
  lemma NormalizedIff(version: string, p: Parts)
    requires WellFormed(p)
    ensures NormalizeVersion(version) == Some(Render(p)) <==> Spelled(Unprefixed(Strip(version)), p)
  {
    RespelledIff(Unprefixed(Strip(version)), p);
    ParseRender(p);
  }

  lemma StripNothing(s: string)
    requires s != [] && !IsSpace(s[0]) && !IsSpace(s[|s| - 1])
    ensures Strip(s) == s
  {}

  lemma Ends(front: string, mid: string, number: string)
    requires IsBase(front) && Digits(number)
    ensures var s := front + "-" + (mid + number); IsDigit(s[0]) && IsDigit(s[|s| - 1])
  {
    var s := front + "-" + (mid + number);
    BaseChars(front);
    assert s[0] == front[0] && s[|s| - 1] == number[|number| - 1];
  }

  lemma SpellEnds(p: Parts)
    requires WellFormed(p)
    ensures var s := Spell(p); s != [] && IsDigit(s[0]) && IsDigit(s[|s| - 1])
  {
    if p.pre.Some? && p.post.None? {
      Ends(p.base, Name(p.pre.value.kind) + ".", p.pre.value.number);
    } else if p.pre.Some? && p.pre.value.kind.Alpha? {
      var mid, number, post := "alpha" + ".", p.pre.value.number, p.post.value;
      assert mid + (number + "." + post) == (mid + (number + ".")) + post;
      Ends(p.base, mid + (number + "."), post);
    } else {
      RenderChars(p);
    }
  }

  lemma SpellIsSpelled(p: Parts)
    requires WellFormed(p)
    ensures Spelled(Spell(p), p) && Spelled(Render(p), p)
  {
    if p.pre.Some? && (p.post.None? || p.pre.value.kind.Alpha?) {
      assert SpelledWith(Spell(p), p, ".");
    }
  }

  lemma PrefixIsRemoved(version: string, s: string)
    requires s != [] && IsDigit(s[0])
    requires version == s || version == "v" + s || version == "rust-v" + s
    ensures Unprefixed(version) == s && !IsSpace(version[0]) && version[|version| - 1] == s[|s| - 1]
  {
    if version == "rust-v" + s {
      assert version[6..] == s;
    } else if version == "v" + s {
      assert version[0] == 'v' && version[1] == s[0];
      assert version[1..] == s;
    }
  }

  lemma ReadsAs(version: string, s: string, p: Parts)
    requires WellFormed(p) && Spelled(s, p)
    requires s != [] && IsDigit(s[0]) && IsDigit(s[|s| - 1])
    requires version == s || version == "v" + s || version == "rust-v" + s
    ensures NormalizeVersion(version) == Some(Render(p))
  {
    PrefixIsRemoved(version, s);
    StripNothing(version);
    NormalizedIff(version, p);
  }

  lemma EveryPrefixIsRead(s: string, p: Parts)
    requires WellFormed(p) && Spelled(s, p)
    requires s != [] && IsDigit(s[0]) && IsDigit(s[|s| - 1])
    ensures NormalizeVersion(s) == NormalizeVersion("v" + s) == NormalizeVersion("rust-v" + s) == Some(Render(p))
  {
    assert NormalizeVersion(s) == Some(Render(p)) by { ReadsAs(s, s, p); }
    assert NormalizeVersion("v" + s) == Some(Render(p)) by { ReadsAs("v" + s, s, p); }
    assert NormalizeVersion("rust-v" + s) == Some(Render(p)) by { ReadsAs("rust-v" + s, s, p); }
  }

  lemma EveryFormIsRead(p: Parts)
    requires WellFormed(p)
    ensures NormalizeVersion(Spell(p)) == Some(Render(p))
    ensures NormalizeVersion("rust-v" + Spell(p)) == Some(Render(p))
    ensures NormalizeVersion(Render(p)) == Some(Render(p))
  {
    SpellIsSpelled(p);
    SpellEnds(p);
    EveryPrefixIsRead(Spell(p), p);
    RenderChars(p);
    EveryPrefixIsRead(Render(p), p);
  }

  /** Normalizing the release form, the release tag or the normalized form itself gives the normalized version. */
  lemma ReleaseRoundTrip(version: string)
    requires NormalizeVersion(version).Some?
    ensures NormalizeVersion(ReleaseVersion(version).value) == NormalizeVersion(version)
    ensures NormalizeVersion(ReleaseTag(version).value) == NormalizeVersion(version)
    ensures NormalizeVersion(NormalizeVersion(version).value) == NormalizeVersion(version)
  {
    var n := NormalizeVersion(version).value;
    ParseSound(n);
    EveryFormIsRead(Parse(n).value);
  }

  /**
   The release form spells pre-releases and alpha hotfixes out, with dots, and leaves every other
   version as it is; only a spelled-out form has a hyphen.
   */
  lemma ReleaseFormIsSpelledOut(version: string, p: Parts)
    requires WellFormed(p) && NormalizeVersion(version) == Some(Render(p))
    ensures var s := ReleaseVersion(version).value;
            if p.pre.Some? && p.post.None? then s == p.base + "-" + (Name(p.pre.value.kind) + "." + p.pre.value.number)
            else if p.pre.Some? && p.pre.value.kind.Alpha? then
              s == p.base + "-" + ("alpha" + "." + (p.pre.value.number + "." + p.post.value))
            else s == Render(p) && '-' !in s
    ensures ReleaseTag(version) == Some("rust-v" + ReleaseVersion(version).value)
  {
    ParseRender(p);
    RenderChars(p);
  }

  /** Two texts have the same release tag exactly when they stand for the same version. */
  lemma TagsIdentifyVersions(v: string, w: string)
    requires NormalizeVersion(v).Some? && NormalizeVersion(w).Some?
    ensures ReleaseTag(v) == ReleaseTag(w) <==> NormalizeVersion(v) == NormalizeVersion(w)
  {
    ReleaseRoundTrip(v);
    ReleaseRoundTrip(w);
  }

  lemma NormalizedStandsForItself(version: string)
    requires Parse(version).Some?
    ensures NormalizeVersion(version) == Some(version)
  {
    ParseSound(version);
    var p := Parse(version).value;
    assert NormalizeVersion(Render(p)) == Some(Render(p)) by { EveryFormIsRead(p); }
  }

  /** Resolution fails on other versions only, and the tag it gives stands for exactly the version asked for. */
  lemma RuntimeReleaseIff(version: string)
    ensures ResolveRuntimeRelease(version).Some? <==> RuntimeVersion(version)
    ensures RuntimeVersion(version) ==>
              && ResolveRuntimeRelease(version).value.0 == version
              && NormalizeVersion(ResolveRuntimeRelease(version).value.1) == Some(version)
  {
    if RuntimeVersion(version) {
      NormalizedStandsForItself(version);
      ReleaseRoundTrip(version);
    }
  }

  /** A text that is not a release spelling is accepted: its alpha suffix completes a beta suffix. */
  lemma BrokenBetaIsAccepted(base: string, number: string)
    requires IsBase(base) && Digits(number)
    ensures NormalizeVersion((base + "-bet") + "-" + ("alpha" + "" + number)) == Some(base + ("b" + number))
  {
    var p, s := Parts(base, Some(Pre(Beta, number)), None), (base + "-bet") + "-" + ("alpha" + "" + number);
    BaseChars(base);
    assert s[0] == base[0] && s[|s| - 1] == number[|number| - 1];
    assert SpelledWith(s, p, "");
    assert Render(p) == base + ("b" + number);
    ReadsAs(s, s, p);
  }
}
