/** Phase ids as texts: the runs of letters and digits of a name, joined by hyphens and cut to length. */
module PhaseIdForms {
  import opened Text
  import opened PhaseIds

  // ----- Every gap becomes one hyphen -----

  lemma {:induction false} HyphenateRun(run: string, rest: string)
    requires forall i :: 0 <= i < |run| ==> IsKept(run[i])
    ensures Hyphenate(run + rest) == run + Hyphenate(rest)
  {
    if run == [] {
      assert run + rest == rest;
    } else {
      assert (run + rest)[1..] == run[1..] + rest;
      HyphenateRun(run[1..], rest);
    }
  }

  lemma {:induction false} SkipGapOf(s: string, gap: nat)
    requires gap <= |s| && (forall i :: 0 <= i < gap ==> !IsKept(s[i])) && (gap < |s| ==> IsKept(s[gap]))
    ensures SkipGap(s) == s[gap..]
  {
    if gap > 0 {
      SkipGapOf(s[1..], gap - 1);
      assert s[1..][gap - 1..] == s[gap..];
    }
  }

  lemma HyphenateGap(s: string, gap: nat)
    requires 0 < gap <= |s| && (forall i :: 0 <= i < gap ==> !IsKept(s[i])) && (gap < |s| ==> IsKept(s[gap]))
    ensures Hyphenate(s) == ['-'] + Hyphenate(s[gap..])
  {
    SkipGapOf(s, gap);
  }

  lemma RunsWithoutGap(s: string, runs: seq<string>) returns (gap: nat)
    requires HasRuns(s, IsKept, runs)
    ensures gap <= |s| && (forall i :: 0 <= i < gap ==> !IsKept(s[i])) && (gap < |s| ==> IsKept(s[gap]))
    ensures HasRuns(s[gap..], IsKept, runs) && (runs == [] ==> gap == |s|)
  {
    if runs == [] {
      gap := |s|;
    } else {
      gap := FirstOfRuns(s, IsKept, runs);
      var n := |runs[0]|;
      assert s[gap..][n..] == s[gap + n..] && s[gap..][..n] == s[gap..gap + n] == runs[0];
      assert s[gap] == runs[0][0];
      assert gap + n < |s| ==> s[gap..][n] == s[gap + n];
      assert FirstRun(s[gap..], IsKept, 0, runs[0]);
    }
  }

  /** A text that starts with a letter or digit: its runs with hyphens between them, and perhaps one at the end. */
  lemma {:induction false} HyphenateRuns(s: string, runs: seq<string>)
    requires HasRuns(s, IsKept, runs) && (s != [] ==> IsKept(s[0]))
    ensures Hyphenate(s) == Join(runs, '-') || Hyphenate(s) == Join(runs, '-') + ['-']
    decreases |runs|
  {
    if runs == [] {
      assert s == [];
    } else {
      var zero := FirstOfRuns(s, IsKept, runs);
      assert zero == 0;
      var run, rest := runs[0], s[|runs[0]|..];
      assert s == run + rest;
      HyphenateRun(run, rest);
      HyphenateRest(rest, runs);
    }
  }

  lemma HyphenateRest(rest: string, runs: seq<string>)
    requires runs != [] && HasRuns(rest, IsKept, runs[1..]) && (rest != [] ==> !IsKept(rest[0]))
    ensures runs[0] + Hyphenate(rest) == Join(runs, '-') || runs[0] + Hyphenate(rest) == Join(runs, '-') + ['-']
    decreases |runs|, 0
  {
    var gap := RunsWithoutGap(rest, runs[1..]);
    if rest != [] {
      HyphenateGap(rest, gap);
    }
    if |runs| == 1 {
      assert rest[gap..] == [];
      JoinLast(runs, Hyphenate(rest));
    } else {
      var first := FirstOfRuns(rest, IsKept, runs[1..]);
      HyphenateRuns(rest[gap..], runs[1..]);
      JoinMore(runs, Hyphenate(rest[gap..]));
    }
  }

  lemma JoinLast(runs: seq<string>, tail: string)
    requires |runs| == 1 && (tail == [] || tail == ['-'])
    ensures runs[0] + tail == Join(runs, '-') || runs[0] + tail == Join(runs, '-') + ['-']
  {}

  lemma JoinMore(runs: seq<string>, tail: string)
    requires |runs| > 1 && (tail == Join(runs[1..], '-') || tail == Join(runs[1..], '-') + ['-'])
    ensures var all := runs[0] + (['-'] + tail); all == Join(runs, '-') || all == Join(runs, '-') + ['-']
  {
    var run, join := runs[0], Join(runs[1..], '-');
    assert run + (['-'] + join) == run + ['-'] + join;
    assert run + (['-'] + (join + ['-'])) == run + ['-'] + join + ['-'];
  }

  lemma {:induction false} RunsAreKept(s: string, runs: seq<string>)
    requires HasRuns(s, IsKept, runs)
    ensures forall i :: 0 <= i < |runs| ==> runs[i] != [] && forall j :: 0 <= j < |runs[i]| ==> IsKept(runs[i][j])
    decreases |runs|
  {
    if runs != [] {
      var gap := FirstOfRuns(s, IsKept, runs);
      RunsAreKept(s[gap + |runs[0]|..], runs[1..]);
      forall i | 0 < i < |runs|
        ensures runs[i] == runs[1..][i - 1]
      {}
    }
  }

  lemma {:induction false} JoinEnds(runs: seq<string>)
    requires runs != []
    requires forall i :: 0 <= i < |runs| ==> runs[i] != [] && forall j :: 0 <= j < |runs[i]| ==> IsKept(runs[i][j])
    ensures var join := Join(runs, '-'); join != [] && join[0] == runs[0][0] && IsKept(join[|join| - 1])
  {
    if |runs| > 1 {
      JoinEnds(runs[1..]);
      var rest := Join(runs[1..], '-');
      assert Join(runs, '-')[|Join(runs, '-')| - 1] == rest[|rest| - 1];
    }
  }

  lemma TrimEnd(s: string)
    requires s == [] || s[|s| - 1] != '-'
    ensures TrimRight(s) == s && TrimRight(s + ['-']) == s
  {
    assert (s + ['-'])[..|s|] == s;
  }

  lemma TrimStart(s: string)
    requires s == [] || s[0] != '-'
    ensures TrimLeft(s) == s && TrimLeft(['-'] + s) == s
  {
    assert (['-'] + s)[1..] == s;
  }

  lemma HyphenateStart(s: string)
    requires s != [] ==> IsKept(s[0])
    ensures Hyphenate(s) == [] || Hyphenate(s)[0] != '-'
  {}

  lemma TrimmedHyphens(lowered: string, gap: nat)
    requires gap <= |lowered| && (forall i :: 0 <= i < gap ==> !IsKept(lowered[i]))
    requires gap < |lowered| ==> IsKept(lowered[gap])
    ensures TrimLeft(Hyphenate(lowered)) == Hyphenate(lowered[gap..])
  {
    var s := lowered[gap..];
    HyphenateStart(s);
    TrimStart(Hyphenate(s));
    if gap > 0 {
      HyphenateGap(lowered, gap);
    } else {
      assert s == lowered;
    }
  }

  /** The slug of a name is its runs of letters and digits joined by hyphens. */
  lemma SlugIsJoined(lowered: string, runs: seq<string>)
    requires HasRuns(lowered, IsKept, runs)
    ensures Slug(lowered) == Join(runs, '-')
  {
    var gap := RunsWithoutGap(lowered, runs);
    TrimmedHyphens(lowered, gap);
    HyphenateRuns(lowered[gap..], runs);
    if runs != [] {
      RunsAreKept(lowered, runs);
      JoinEnds(runs);
    }
    TrimEnd(Join(runs, '-'));
  }

  // ----- The base and the numbered candidates -----

  /** The words of an id: those of the name, after the word phase where a letter is missing. */
  function Named(runs: seq<string>): seq<string> {
    if runs == [] then ["phase"]
    else if runs[0] != [] && IsLetter(runs[0][0]) then runs
    else ["phase"] + runs
  }

  /** The first `limit` characters without the hyphens they end in. */
  ghost predicate CutTo(full: string, limit: nat, r: string) {
    && r <= full && |r| <= limit && (r != [] ==> r[|r| - 1] != '-')
    && forall i :: |r| <= i < |full| && i < limit ==> full[i] == '-'
  }

  lemma TrimIsCut(full: string, limit: nat)
    ensures CutTo(full, limit, TrimRight(Take(full, limit)))
  {
    var t := Take(full, limit);
    assert forall i :: 0 <= i < |full| && i < limit ==> t[i] == full[i];
  }

  lemma PhaseJoined(runs: seq<string>)
    requires runs != []
    ensures Join(["phase"] + runs, '-') == "phase-" + Join(runs, '-')
  {
    var all := ["phase"] + runs;
    assert all[1..] == runs && all[0] == "phase";
    assert "phase" + ['-'] == "phase-";
  }

  lemma LetteredIsJoined(lowered: string, runs: seq<string>)
    requires HasRuns(lowered, IsKept, runs)
    ensures Lettered(Slug(lowered)) == Join(Named(runs), '-')
  {
    SlugIsJoined(lowered, runs);
    if runs != [] {
      RunsAreKept(lowered, runs);
      JoinEnds(runs);
      PhaseJoined(runs);
    }
  }

  /**
   The base of an id is the runs of letters and digits of the name, joined by single hyphens, as far
   as 48 characters go.
   */
  lemma BaseIsJoined(lowered: string, runs: seq<string>)
    requires HasRuns(lowered, IsKept, runs)
    ensures CutTo(Join(Named(runs), '-'), 48, Base(lowered))
    ensures |Join(Named(runs), '-')| <= 48 ==> Base(lowered) == Join(Named(runs), '-')
  {
    LetteredIsJoined(lowered, runs);
    var full := Join(Named(runs), '-');
    TrimIsCut(full, 48);
    if |full| <= 48 {
      SlugKeeps(lowered);
      LetteredShape(Slug(lowered));
      CutShape(full);
    }
  }

  /** Every name has its runs. */
  lemma {:induction false} NameHasRuns(s: string) returns (runs: seq<string>)
    ensures HasRuns(s, IsKept, runs)
    decreases |s|
  {
    if s == [] {
      runs := [];
    } else if !IsKept(s[0]) {
      runs := NameHasRuns(s[1..]);
      RunsAfterGap(s, IsKept, runs);
    } else {
      var n := 1;
      while n < |s| && IsKept(s[n])
        invariant 0 < n <= |s| && forall i :: 0 <= i < n ==> IsKept(s[i])
      {
        n := n + 1;
      }
      var rest := NameHasRuns(s[n..]);
      RunsFromStart(s, IsKept, n, rest);
      runs := [s[..n]] + rest;
    }
  }

  /** How much of the base is left before an ending; past 48 characters the excess is taken off the base. */
  function RoomBefore(base: string, ending: string): nat {
    if |ending| <= 48 then 48 - |ending|
    else if |ending| - 48 <= |base| then |base| + 48 - |ending|
    else 0
  }

  lemma TakeRoom(base: string, ending: string)
    ensures Take(base, MAX_LENGTH - |ending|) == Take(base, RoomBefore(base, ending))
  {}

  lemma CutBefore(base: string, ending: string)
    ensures CutTo(base, RoomBefore(base, ending), TrimRight(Take(base, MAX_LENGTH - |ending|)))
  {
    TakeRoom(base, ending);
    TrimIsCut(base, RoomBefore(base, ending));
  }

  /** A numbered candidate is the base, cut to make room, then a hyphen and the number. */
  lemma NumberedIsCut(base: string, n: nat) returns (front: string)
    requires n >= 2
    ensures var ending := "-" + Decimal(n);
            CutTo(base, RoomBefore(base, ending), front) && Numbered(base, n) == front + ending
  {
    var ending := "-" + Decimal(n);
    front := TrimRight(Take(base, MAX_LENGTH - |ending|));
    CutBefore(base, ending);
  }
}
