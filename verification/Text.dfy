/** The text operations of the host language that the control plane relies on. */
module Text {

  /** The characters the host language counts as white space. */
  predicate IsSpace(c: char) {
    || '\U{0009}' <= c <= '\U{000D}'
    || '\U{001C}' <= c <= '\U{0020}'
    || c == '\U{0085}' || c == '\U{00A0}' || c == '\U{1680}'
    || '\U{2000}' <= c <= '\U{200A}'
    || c == '\U{2028}' || c == '\U{2029}' || c == '\U{202F}' || c == '\U{205F}' || c == '\U{3000}'
  }

  predicate IsVisible(c: char) {
    !IsSpace(c)
  }

  function WordLength(s: string): (n: nat)
    ensures n <= |s|
    ensures forall i :: 0 <= i < n ==> !IsSpace(s[i])
    ensures n < |s| ==> IsSpace(s[n])
  {
    if s == [] || IsSpace(s[0]) then 0 else 1 + WordLength(s[1..])
  }

  /** The maximal runs of non-space characters, in order. */
  function Words(s: string): seq<string>
    decreases |s|
  {
    if s == [] then []
    else if IsSpace(s[0]) then Words(s[1..])
    else
      var n := WordLength(s);
      [s[..n]] + Words(s[n..])
  }

  function Join(words: seq<string>, separator: char): string {
    if words == [] then ""
    else if |words| == 1 then words[0]
    else words[0] + [separator] + Join(words[1..], separator)
  }

  /** White space runs become single spaces and the ends are trimmed. */
  function NormalizeSpace(s: string): string {
    Join(Words(s), ' ')
  }

  // ----- Maximal runs of characters -----

  /** After `gap` other characters comes `run`, which goes as far as it can. */
  ghost predicate FirstRun(s: string, keep: char -> bool, gap: nat, run: string) {
    && gap + |run| <= |s| && run != "" && s[gap..gap + |run|] == run
    && (forall i :: 0 <= i < gap ==> !keep(s[i]))
    && (forall i :: 0 <= i < |run| ==> keep(run[i]))
    && (gap + |run| < |s| ==> !keep(s[gap + |run|]))
  }

  /** The maximal runs of the characters to keep, in order. */
  ghost predicate HasRuns(s: string, keep: char -> bool, runs: seq<string>)
    decreases |runs|
  {
    if runs == [] then forall i :: 0 <= i < |s| ==> !keep(s[i])
    else exists gap: nat :: FirstRun(s, keep, gap, runs[0]) && HasRuns(s[gap + |runs[0]|..], keep, runs[1..])
  }

  lemma OneFirstRun(s: string, keep: char -> bool, gap: nat, run: string, gap': nat, run': string)
    requires FirstRun(s, keep, gap, run) && FirstRun(s, keep, gap', run')
    ensures gap == gap' && run == run'
  {
    var end, end' := gap + |run|, gap' + |run'|;
    assert s[gap] == run[0] && s[gap'] == run'[0];
    assert forall i :: gap <= i < end ==> s[i] == run[i - gap];
    assert forall i :: gap' <= i < end' ==> s[i] == run'[i - gap'];
  }

  lemma RunIsKept(s: string, keep: char -> bool, gap: nat, run: string)
    requires FirstRun(s, keep, gap, run)
    ensures exists i :: 0 <= i < |s| && keep(s[i])
  {
    assert s[gap] == run[0];
  }

  lemma FirstOfRuns(s: string, keep: char -> bool, runs: seq<string>) returns (gap: nat)
    requires HasRuns(s, keep, runs) && runs != []
    ensures FirstRun(s, keep, gap, runs[0]) && HasRuns(s[gap + |runs[0]|..], keep, runs[1..])
    ensures exists i :: 0 <= i < |s| && keep(s[i])
  {
    gap :| FirstRun(s, keep, gap, runs[0]) && HasRuns(s[gap + |runs[0]|..], keep, runs[1..]);
    RunIsKept(s, keep, gap, runs[0]);
  }

  /** A text has its runs in one way only. */
  lemma {:induction false} OneSplit(s: string, keep: char -> bool, runs: seq<string>, runs': seq<string>)
    requires HasRuns(s, keep, runs) && HasRuns(s, keep, runs')
    ensures runs == runs'
    decreases |runs|
  {
    if runs == [] && runs' != [] {
      var gap' := FirstOfRuns(s, keep, runs');
    } else if runs != [] {
      var gap := FirstOfRuns(s, keep, runs);
      assert runs' != [];
      var gap' := FirstOfRuns(s, keep, runs');
      OneFirstRun(s, keep, gap, runs[0], gap', runs'[0]);
      OneSplit(s[gap + |runs[0]|..], keep, runs[1..], runs'[1..]);
      assert runs == [runs[0]] + runs[1..] && runs' == [runs'[0]] + runs'[1..];
    }
  }

  lemma FirstRunAfterGap(s: string, keep: char -> bool, gap: nat, run: string)
    requires s != [] && !keep(s[0]) && FirstRun(s[1..], keep, gap, run)
    ensures FirstRun(s, keep, gap + 1, run) && s[1..][gap + |run|..] == s[gap + 1 + |run|..]
  {
    var n := |run|;
    assert s[1..][gap..gap + n] == s[gap + 1..gap + 1 + n];
    forall i | 0 <= i < gap + 1
      ensures !keep(s[i])
    {
      assert i > 0 ==> s[i] == s[1..][i - 1];
    }
  }

  lemma NothingAfterGap(s: string, keep: char -> bool)
    requires s != [] && !keep(s[0]) && forall i :: 0 <= i < |s[1..]| ==> !keep(s[1..][i])
    ensures forall i :: 0 <= i < |s| ==> !keep(s[i])
  {
    forall i | 0 <= i < |s|
      ensures !keep(s[i])
    {
      assert i > 0 ==> s[i] == s[1..][i - 1];
    }
  }

  lemma RunsAfterGap(s: string, keep: char -> bool, runs: seq<string>)
    requires s != [] && !keep(s[0]) && HasRuns(s[1..], keep, runs)
    ensures HasRuns(s, keep, runs)
  {
    if runs == [] {
      NothingAfterGap(s, keep);
    } else {
      var gap := FirstOfRuns(s[1..], keep, runs);
      FirstRunAfterGap(s, keep, gap, runs[0]);
    }
  }

  lemma RunsFromStart(s: string, keep: char -> bool, n: nat, runs: seq<string>)
    requires 0 < n <= |s| && (forall i :: 0 <= i < n ==> keep(s[i])) && (n < |s| ==> !keep(s[n]))
    requires HasRuns(s[n..], keep, runs)
    ensures HasRuns(s, keep, [s[..n]] + runs)
  {
    var all := [s[..n]] + runs;
    assert all[1..] == runs;
    assert FirstRun(s, keep, 0, all[0]);
  }

  predicate IsWord(s: string) {
    s != [] && forall i :: 0 <= i < |s| ==> !IsSpace(s[i])
  }

  function WithoutSpace(s: string): string {
    if s == [] then [] else (if IsSpace(s[0]) then [] else [s[0]]) + WithoutSpace(s[1..])
  }

  function Joined(words: seq<string>): string {
    if words == [] then [] else words[0] + Joined(words[1..])
  }

  lemma {:induction false} WithoutSpaceAfter(word: string, rest: string)
    requires forall i :: 0 <= i < |word| ==> !IsSpace(word[i])
    ensures WithoutSpace(word + rest) == word + WithoutSpace(rest)
  {
    if word == [] {
      assert word + rest == rest;
    } else {
      assert (word + rest)[1..] == word[1..] + rest;
      WithoutSpaceAfter(word[1..], rest);
      assert word == [word[0]] + word[1..];
    }
  }

  /** Splitting keeps everything but the white space, in words. */
  lemma {:induction false} WordsKeepText(s: string)
    ensures forall i :: 0 <= i < |Words(s)| ==> IsWord(Words(s)[i])
    ensures Joined(Words(s)) == WithoutSpace(s)
    decreases |s|
  {
    if s != [] && IsSpace(s[0]) {
      WordsKeepText(s[1..]);
    } else if s != [] {
      var n := WordLength(s);
      WordsKeepText(s[n..]);
      assert s == s[..n] + s[n..];
      WithoutSpaceAfter(s[..n], s[n..]);
      assert ([s[..n]] + Words(s[n..]))[1..] == Words(s[n..]);
    }
  }

  lemma {:induction false} WordLengthOf(word: string, rest: string)
    requires forall i :: 0 <= i < |word| ==> !IsSpace(word[i])
    requires rest == [] || IsSpace(rest[0])
    ensures WordLength(word + rest) == |word|
  {
    if word == [] {
      assert word + rest == rest;
    } else {
      assert (word + rest)[1..] == word[1..] + rest;
      WordLengthOf(word[1..], rest);
    }
  }

  lemma FirstWord(word: string, rest: string)
    requires IsWord(word) && (rest == [] || IsSpace(rest[0]))
    ensures Words(word + rest) == [word] + Words(rest)
  {
    var s := word + rest;
    WordLengthOf(word, rest);
    assert s[0] == word[0] && s[..|word|] == word && s[|word|..] == rest;
  }

  lemma {:induction false} WordsOfJoined(words: seq<string>)
    requires forall i :: 0 <= i < |words| ==> IsWord(words[i])
    ensures Words(Join(words, ' ')) == words
  {
    if |words| == 1 {
      FirstWord(words[0], []);
      assert words[0] + [] == words[0];
    } else if |words| > 1 {
      var rest := Join(words[1..], ' ');
      FirstWord(words[0], " " + rest);
      assert words[0] + [' '] + rest == words[0] + (" " + rest);
      assert (" " + rest)[1..] == rest;
      WordsOfJoined(words[1..]);
    }
  }

  /** The words of a text are its maximal runs without white space. */
  lemma {:induction false} WordsAreRuns(s: string)
    ensures HasRuns(s, IsVisible, Words(s))
    decreases |s|
  {
    if s != [] && IsSpace(s[0]) {
      WordsAreRuns(s[1..]);
      RunsAfterGap(s, IsVisible, Words(s[1..]));
    } else if s != [] {
      var n := WordLength(s);
      WordsAreRuns(s[n..]);
      RunsFromStart(s, IsVisible, n, Words(s[n..]));
    }
  }

  lemma WordsIff(s: string, words: seq<string>)
    ensures Words(s) == words <==> HasRuns(s, IsVisible, words)
  {
    WordsAreRuns(s);
    if HasRuns(s, IsVisible, words) {
      OneSplit(s, IsVisible, Words(s), words);
    }
  }

  /** Texts are the same up to white space exactly when they have the same words. */
  lemma NormalizeSpaceIff(a: string, b: string)
    ensures NormalizeSpace(a) == NormalizeSpace(b) <==> Words(a) == Words(b)
    ensures Words(NormalizeSpace(a)) == Words(a)
  {
    WordsKeepText(a);
    WordsKeepText(b);
    WordsOfJoined(Words(a));
    WordsOfJoined(Words(b));
  }

  function StripLeft(s: string): (r: string)
    ensures |r| <= |s| && r == s[|s| - |r|..]
    ensures r != [] ==> !IsSpace(r[0])
    ensures forall i :: 0 <= i < |s| - |r| ==> IsSpace(s[i])
  {
    if s != [] && IsSpace(s[0]) then StripLeft(s[1..]) else s
  }

  function StripRight(s: string): (r: string)
    ensures |r| <= |s| && r == s[..|r|]
    ensures r != [] ==> !IsSpace(r[|r| - 1])
    ensures forall i :: |r| <= i < |s| ==> IsSpace(s[i])
  {
    if s != [] && IsSpace(s[|s| - 1]) then StripRight(s[..|s| - 1]) else s
  }

  function Strip(s: string): (r: string)
    ensures r != [] ==> !IsSpace(r[0]) && !IsSpace(r[|r| - 1])
  {
    StripRight(StripLeft(s))
  }

  lemma OnlyEndsRemoved(s: string, i: nat, l: string, n: nat)
    requires i <= |s| && l == s[i..] && n <= |l|
    requires (forall j :: 0 <= j < i ==> IsSpace(s[j])) && forall j :: n <= j < |l| ==> IsSpace(l[j])
    ensures l[..n] == s[i..i + n] && forall j :: 0 <= j < i || i + n <= j < |s| ==> IsSpace(s[j])
  {
    forall j | i + n <= j < |s|
      ensures IsSpace(s[j])
    {
      assert s[j] == l[j - i];
    }
  }

  /** Nothing but white space is removed, at both ends: what is left starts at `i`. */
  lemma StripRemovesSpace(s: string) returns (i: nat)
    ensures i + |Strip(s)| <= |s| && Strip(s) == s[i..i + |Strip(s)|]
    ensures forall j :: 0 <= j < i || i + |Strip(s)| <= j < |s| ==> IsSpace(s[j])
  {
    i := |s| - |StripLeft(s)|;
    OnlyEndsRemoved(s, i, StripLeft(s), |Strip(s)|);
  }

  ghost predicate Blank(s: string) {
    forall i :: 0 <= i < |s| ==> IsSpace(s[i])
  }

  lemma BlankSlices(s: string, lo: nat, hi: nat)
    requires lo <= hi <= |s| && forall j :: 0 <= j < lo || hi <= j < |s| ==> IsSpace(s[j])
    ensures Blank(s[..lo]) && Blank(s[hi..]) && s == s[..lo] + s[lo..hi] + s[hi..]
  {
    forall k | 0 <= k < |s[hi..]|
      ensures IsSpace(s[hi..][k])
    {
      assert s[hi..][k] == s[hi + k];
    }
  }

  lemma StripSplits(s: string) returns (left: string, right: string)
    ensures Blank(left) && Blank(right) && s == left + Strip(s) + right
  {
    var i := StripRemovesSpace(s);
    BlankSlices(s, i, i + |Strip(s)|);
    left, right := s[..i], s[i + |Strip(s)|..];
  }

  /** The text from `lo` to `hi` starts and ends with other characters and has only white space around it. */
  ghost predicate Trimmed(s: string, lo: nat, hi: nat) {
    && lo < hi <= |s| && !IsSpace(s[lo]) && !IsSpace(s[hi - 1])
    && forall j :: 0 <= j < lo || hi <= j < |s| ==> IsSpace(s[j])
  }

  lemma OneTrimming(s: string, lo: nat, hi: nat, lo': nat, hi': nat)
    requires Trimmed(s, lo, hi) && Trimmed(s, lo', hi')
    ensures lo == lo' && hi == hi'
  {}

  lemma StripIsTrimmed(s: string) returns (i: nat)
    requires Strip(s) != []
    ensures Trimmed(s, i, i + |Strip(s)|) && Strip(s) == s[i..i + |Strip(s)|]
  {
    i := StripRemovesSpace(s);
    assert Strip(s)[0] == s[i] && Strip(s)[|Strip(s)| - 1] == s[i + |Strip(s)| - 1];
  }

  lemma StripNonBlank(s: string, i: nat)
    requires i < |s| && !IsSpace(s[i])
    ensures Strip(s) != []
  {
    var j := StripRemovesSpace(s);
  }

  lemma BlankAround(left: string, text: string, right: string)
    requires Blank(left) && Blank(right) && text != [] && !IsSpace(text[0]) && !IsSpace(text[|text| - 1])
    ensures var s := left + text + right; Trimmed(s, |left|, |left| + |text|) && s[|left|..|left| + |text|] == text
  {
    var s, lo, hi := left + text + right, |left|, |left| + |text|;
    assert s[lo] == text[0] && s[hi - 1] == text[|text| - 1];
    forall k | 0 <= k < lo || hi <= k < |s|
      ensures IsSpace(s[k])
    {
      assert s[k] == if k < lo then left[k] else right[k - hi];
    }
  }

  /** White space around a text is removed, and no more. */
  lemma StripOf(left: string, text: string, right: string)
    requires Blank(left) && Blank(right) && text != [] && !IsSpace(text[0]) && !IsSpace(text[|text| - 1])
    ensures Strip(left + text + right) == text
  {
    var s := left + text + right;
    BlankAround(left, text, right);
    StripNonBlank(s, |left|);
    var i := StripIsTrimmed(s);
    OneTrimming(s, |left|, |left| + |text|, i, i + |Strip(s)|);
  }

  /** The position of the last hyphen; -1 when there is none. */
  function LastHyphen(s: string): (i: int)
    ensures -1 <= i < |s|
    ensures i >= 0 ==> s[i] == '-'
    ensures forall j :: i < j < |s| ==> s[j] != '-'
  {
    if s == [] then -1
    else if s[|s| - 1] == '-' then |s| - 1
    else LastHyphen(s[..|s| - 1])
  }

  lemma {:induction false} HyphenAt(front: string, tail: string)
    requires '-' !in tail
    ensures LastHyphen(front + "-" + tail) == |front|
  {
    var s := front + "-" + tail;
    if tail != [] {
      assert s[..|s| - 1] == front + "-" + tail[..|tail| - 1];
      HyphenAt(front, tail[..|tail| - 1]);
    }
  }

  lemma NoHyphen(s: string)
    requires '-' !in s
    ensures LastHyphen(s) == -1
  {}
}
