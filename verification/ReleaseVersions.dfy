/**
 Codex version strings: the normalized form of PEP 440 (its sections on pre-releases and
 post-releases), the release form with spelled-out pre-release names, and release tags.
 */
module ReleaseVersions {
  import opened Lists

  // ----- Digits and dotted bases -----

  predicate IsDigit(c: char) {
    '0' <= c <= '9'
  }

  function DigitSpan(s: string): (n: nat)
    ensures n <= |s|
    ensures forall i :: 0 <= i < n ==> IsDigit(s[i])
    ensures n < |s| ==> !IsDigit(s[n])
  {
    if s == [] || !IsDigit(s[0]) then 0 else 1 + DigitSpan(s[1..])
  }

  predicate Digits(s: string) {
    s != [] && DigitSpan(s) == |s|
  }

  /** Groups of digits separated by single dots. */
  predicate IsBase(s: string)
    decreases |s|
  {
    var n := DigitSpan(s);
    n > 0 && (n == |s| || (s[n] == '.' && IsBase(s[n + 1..])))
  }

  lemma {:induction false} SpanOf(digits: string, rest: string)
    requires DigitSpan(digits) == |digits| && (rest == [] || !IsDigit(rest[0]))
    ensures DigitSpan(digits + rest) == |digits|
  {
    if digits == [] {
      assert digits + rest == rest;
    } else {
      assert (digits + rest)[1..] == digits[1..] + rest;
      SpanOf(digits[1..], rest);
    }
  }

  lemma DigitsOf(s: string)
    requires s != [] && forall i :: 0 <= i < |s| ==> IsDigit(s[i])
    ensures Digits(s)
  {}

  predicate BaseChar(c: char) {
    IsDigit(c) || c == '.'
  }

  lemma {:induction false} BaseChars(s: string)
    requires IsBase(s)
    ensures s != [] && IsDigit(s[0]) && IsDigit(s[|s| - 1])
    ensures forall i :: 0 <= i < |s| ==> BaseChar(s[i])
    decreases |s|
  {
    var n := DigitSpan(s);
    if n < |s| {
      BaseChars(s[n + 1..]);
      forall i | n < i < |s|
        ensures BaseChar(s[i])
      {
        assert s[i] == s[n + 1..][i - n - 1];
      }
      assert s[|s| - 1] == s[n + 1..][|s| - n - 2];
    }
  }

  /** Digits and dots, with digits at both ends and no two dots in a row. */
  ghost predicate DottedDigits(s: string) {
    && s != [] && IsDigit(s[0]) && IsDigit(s[|s| - 1])
    && (forall i :: 0 <= i < |s| ==> BaseChar(s[i]))
    && forall i, j :: 0 <= i < j < |s| && j == i + 1 ==> s[i] != '.' || s[j] != '.'
  }

  lemma DottedRest(s: string, n: nat)
    requires DottedDigits(s) && 0 < n < |s| && s[n] == '.'
    ensures n + 1 < |s| && DottedDigits(s[n + 1..])
  {
    var rest := s[n + 1..];
    assert s[n + 1] != '.';
    forall i, j | 0 <= i < j < |rest| && j == i + 1
      ensures rest[i] != '.' || rest[j] != '.'
    {
      assert rest[i] == s[n + 1 + i] && rest[j] == s[n + 1 + j];
    }
  }

  lemma DottedJoin(s: string, n: nat)
    requires 0 < n < |s| && (forall i :: 0 <= i < n ==> IsDigit(s[i])) && s[n] == '.' && DottedDigits(s[n + 1..])
    ensures DottedDigits(s)
  {
    var rest := s[n + 1..];
    assert s[|s| - 1] == rest[|rest| - 1] && s[n + 1] == rest[0];
    forall i | n < i < |s|
      ensures BaseChar(s[i])
    {
      assert s[i] == rest[i - n - 1];
    }
    forall i, j | 0 <= i < j < |s| && j == i + 1
      ensures s[i] != '.' || s[j] != '.'
    {
      if i > n {
        assert s[i] == rest[i - n - 1] && s[j] == rest[j - n - 1];
      }
    }
  }

  /** What a base is, character by character. */
  lemma {:induction false} BaseIff(s: string)
    ensures IsBase(s) <==> DottedDigits(s)
    decreases |s|
  {
    var n := DigitSpan(s);
    if 0 < n < |s| && s[n] == '.' {
      BaseIff(s[n + 1..]);
      if DottedDigits(s) {
        DottedRest(s, n);
      }
      if DottedDigits(s[n + 1..]) {
        DottedJoin(s, n);
      }
    }
  }

  // ----- Normalized versions -----

  datatype Kind = Alpha | Beta | Candidate

  datatype Pre = Pre(kind: Kind, number: string)

  datatype Parts = Parts(base: string, pre: Option<Pre>, post: Option<string>)

  predicate WellFormed(p: Parts) {
    && IsBase(p.base)
    && (p.pre.Some? ==> Digits(p.pre.value.number))
    && (p.post.Some? ==> Digits(p.post.value))
  }

  function Letters(kind: Kind): string {
    match kind case Alpha => "a" case Beta => "b" case Candidate => "rc"
  }

  function Name(kind: Kind): string {
    match kind case Alpha => "alpha" case Beta => "beta" case Candidate => "rc"
  }

  function RenderPost(post: Option<string>): string {
    if post.Some? then ".post" + post.value else ""
  }

  function Render(p: Parts): string {
    p.base + (if p.pre.Some? then Letters(p.pre.value.kind) + p.pre.value.number else "") + RenderPost(p.post)
  }

  function BaseSpan(s: string): (n: nat)
    ensures n <= |s|
    ensures forall i :: 0 <= i < n ==> BaseChar(s[i])
    ensures n < |s| ==> !BaseChar(s[n])
  {
    if s == [] || !BaseChar(s[0]) then 0 else 1 + BaseSpan(s[1..])
  }

  function ParseKind(s: string): Option<Kind> {
    if "a" <= s then Some(Alpha) else if "b" <= s then Some(Beta) else if "rc" <= s then Some(Candidate) else None
  }

  /** A normalized version taken apart; none when the text is not one. */
  function Parse(s: string): Option<Parts> {
    var n := BaseSpan(s);
    if n == |s| then (if IsBase(s) then Some(Parts(s, None, None)) else None)
    else if s[n] == 'p' then ParsePost(s[..n], s[n..])
    else ParsePre(s[..n], s[n..])
  }

  function ParsePost(dotted: string, tail: string): Option<Parts> {
    var n := |dotted| - 1;
    if n > 0 && dotted[n] == '.' && IsBase(dotted[..n]) && "post" <= tail && Digits(tail[4..])
    then Some(Parts(dotted[..n], None, Some(tail[4..])))
    else None
  }

  function ParsePre(base: string, tail: string): Option<Parts> {
    var kind := ParseKind(tail);
    if kind.None? || !IsBase(base) then None else ParseNumber(base, kind.value, tail[|Letters(kind.value)|..])
  }

  function ParseNumber(base: string, kind: Kind, rest: string): Option<Parts> {
    var k := DigitSpan(rest);
    if k == 0 then None
    else if k == |rest| then Some(Parts(base, Some(Pre(kind, rest)), None))
    else if ".post" <= rest[k..] && Digits(rest[k + 5..])
    then Some(Parts(base, Some(Pre(kind, rest[..k])), Some(rest[k + 5..])))
    else None
  }

  lemma SplitPrefix(prefix: string, s: string)
    requires prefix <= s
    ensures s == prefix + s[|prefix|..]
  {}

  lemma ParsePostSound(dotted: string, tail: string)
    requires ParsePost(dotted, tail).Some?
    ensures WellFormed(ParsePost(dotted, tail).value)
    ensures Render(ParsePost(dotted, tail).value) == dotted + tail
  {
    var base, post := dotted[..|dotted| - 1], tail[4..];
    SplitPrefix("post", tail);
    assert dotted == base + ".";
    assert base + "" + (".post" + post) == dotted + ("post" + post);
  }

  lemma ParseNumberSound(base: string, kind: Kind, rest: string)
    requires IsBase(base) && ParseNumber(base, kind, rest).Some?
    ensures WellFormed(ParseNumber(base, kind, rest).value)
    ensures Render(ParseNumber(base, kind, rest).value) == base + (Letters(kind) + rest)
  {
    var k := DigitSpan(rest);
    if k == |rest| {
      assert base + (Letters(kind) + rest) + "" == base + (Letters(kind) + rest);
    } else {
      var number, post := rest[..k], rest[k + 5..];
      DigitsOf(number);
      SplitPrefix(".post", rest[k..]);
      assert rest[k..][5..] == post;
      assert rest == number + (".post" + post);
      assert base + (Letters(kind) + number) + (".post" + post) == base + (Letters(kind) + rest);
    }
  }

  lemma KindPrefix(s: string)
    requires ParseKind(s).Some?
    ensures var letters := Letters(ParseKind(s).value); letters <= s && s == letters + s[|letters|..]
  {}

  lemma ParsePreSound(base: string, tail: string)
    requires ParsePre(base, tail).Some?
    ensures WellFormed(ParsePre(base, tail).value)
    ensures Render(ParsePre(base, tail).value) == base + tail
  {
    var kind := ParseKind(tail).value;
    KindPrefix(tail);
    ParseNumberSound(base, kind, tail[|Letters(kind)|..]);
  }

  /** What parsing accepts is a well-formed version, and rendering gives the text back. */
  lemma ParseSound(s: string)
    requires Parse(s).Some?
    ensures WellFormed(Parse(s).value) && Render(Parse(s).value) == s
  {
    var n := BaseSpan(s);
    if n == |s| {
      assert s + "" + "" == s;
    } else {
      assert s == s[..n] + s[n..];
      if s[n] == 'p' {
        ParsePostSound(s[..n], s[n..]);
      } else {
        ParsePreSound(s[..n], s[n..]);
      }
    }
  }

  lemma {:induction false} SpanOfBase(base: string, rest: string)
    requires BaseSpan(base) == |base| && (rest == [] || !BaseChar(rest[0]))
    ensures BaseSpan(base + rest) == |base|
  {
    if base == [] {
      assert base + rest == rest;
    } else {
      assert (base + rest)[1..] == base[1..] + rest;
      SpanOfBase(base[1..], rest);
    }
  }

  lemma ParseParts(front: string, tail: string)
    requires BaseSpan(front) == |front| && tail != [] && !BaseChar(tail[0])
    ensures Parse(front + tail) == if tail[0] == 'p' then ParsePost(front, tail) else ParsePre(front, tail)
  {
    var s, n := front + tail, |front|;
    SpanOfBase(front, tail);
    assert s[..n] == front && s[n..] == tail;
  }

  lemma ParseNumberComplete(base: string, kind: Kind, number: string, post: Option<string>)
    requires Digits(number) && (post.Some? ==> Digits(post.value))
    ensures ParseNumber(base, kind, number + RenderPost(post)) == Some(Parts(base, Some(Pre(kind, number)), post))
  {
    var rest, k := number + RenderPost(post), |number|;
    SpanOf(number, RenderPost(post));
    if post.None? {
      assert rest == number;
    } else {
      assert rest[..k] == number;
      assert rest[k..] == ".post" + post.value;
      assert rest[k + 5..] == post.value;
    }
  }

  lemma KindOf(kind: Kind, rest: string)
    ensures ParseKind(Letters(kind) + rest) == Some(kind)
    ensures (Letters(kind) + rest)[|Letters(kind)|..] == rest
  {
    var s := Letters(kind) + rest;
    assert s[0] == Letters(kind)[0];
  }

  lemma AllBaseChars(s: string)
    requires forall i :: 0 <= i < |s| ==> BaseChar(s[i])
    ensures BaseSpan(s) == |s|
  {}

  lemma ParsePreComplete(p: Parts)
    requires WellFormed(p) && p.pre.Some?
    ensures Parse(Render(p)) == Some(p)
  {
    var kind, rest := p.pre.value.kind, p.pre.value.number + RenderPost(p.post);
    var tail := Letters(kind) + rest;
    assert Render(p) == p.base + tail;
    assert tail[0] == Letters(kind)[0];
    BaseChars(p.base);
    AllBaseChars(p.base);
    ParseParts(p.base, tail);
    KindOf(kind, rest);
    ParseNumberComplete(p.base, kind, p.pre.value.number, p.post);
  }

  lemma ParsePostComplete(p: Parts)
    requires WellFormed(p) && p.pre.None? && p.post.Some?
    ensures Parse(Render(p)) == Some(p)
  {
    var dotted, tail := p.base + ".", "post" + p.post.value;
    assert p.base + "" == p.base && ".post" + p.post.value == "." + tail;
    assert Render(p) == p.base + ("." + tail) == dotted + tail;
    BaseChars(p.base);
    AllBaseChars(dotted);
    ParseParts(dotted, tail);
    assert dotted[..|dotted| - 1] == p.base;
    assert tail[4..] == p.post.value;
  }

  /** Every well-formed version is accepted and parses to its own parts: rendering is injective. */
  lemma ParseRender(p: Parts)
    requires WellFormed(p)
    ensures Parse(Render(p)) == Some(p)
  {
    if p.pre.Some? {
      ParsePreComplete(p);
    } else if p.post.Some? {
      ParsePostComplete(p);
    } else {
      BaseChars(p.base);
      AllBaseChars(p.base);
      assert Render(p) == p.base;
    }
  }
}
