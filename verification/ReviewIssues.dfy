/**
 What every review report says, usable or not: which outcome each check gets from the first place
 that reports it, and which issues the report has, each for one thing that is wrong with its fields.
 */
module ReviewIssues {
  import opened Lists
  import opened Documents
  import opened ReviewReports
  import opened ReviewMeaning

  // ----- The checks of one case -----

  predicate Named(check: ReviewCheck, name: string) {
    CheckRight(check) && check.name == Text(name)
  }

  ghost predicate NameIn(checks: seq<ReviewCheck>, name: string) {
    exists i :: 0 <= i < |checks| && Named(checks[i], name)
  }

  /** The first check of that name, which is the one that counts. */
  ghost predicate FirstNamed(checks: seq<ReviewCheck>, name: string, i: int) {
    0 <= i < |checks| && Named(checks[i], name) && forall j :: 0 <= j < i ==> !Named(checks[j], name)
  }

  ghost predicate FirstSays(checks: seq<ReviewCheck>, name: string, success: bool) {
    exists i :: FirstNamed(checks, name, i) && checks[i].success == Some(success)
  }

  ghost predicate NoneFails(checks: seq<ReviewCheck>) {
    forall name :: !FirstSays(checks, name, false)
  }

  ghost predicate HasMalformed(checks: seq<ReviewCheck>) {
    exists i :: 0 <= i < |checks| && !CheckRight(checks[i])
  }

  ghost predicate RepeatsName(checks: seq<ReviewCheck>) {
    exists i, j, name :: 0 <= i < j < |checks| && Named(checks[i], name) && Named(checks[j], name)
  }

  lemma NameInInit(checks: seq<ReviewCheck>, name: string)
    requires checks != []
    ensures var n := |checks| - 1;
            && (NameIn(checks, name) <==> NameIn(checks[..n], name) || Named(checks[n], name))
            && forall b :: FirstSays(checks, name, b) <==>
                 || FirstSays(checks[..n], name, b)
                 || (Named(checks[n], name) && !NameIn(checks[..n], name) && checks[n].success == Some(b))
  {
    var n := |checks| - 1;
    var init := checks[..n];
    assert forall i :: 0 <= i < n ==> init[i] == checks[i];
    forall i
      ensures FirstNamed(checks, name, i) <==>
              FirstNamed(init, name, i) || (i == n && Named(checks[n], name) && !NameIn(init, name))
    {}
    if NameIn(init, name) {
      var i :| 0 <= i < n && Named(init[i], name);
      assert Named(checks[i], name);
    }
    forall b
      ensures FirstSays(checks, name, b) <==>
              || FirstSays(init, name, b)
              || (Named(checks[n], name) && !NameIn(init, name) && checks[n].success == Some(b))
    {
      if FirstSays(init, name, b) {
        var i :| FirstNamed(init, name, i) && init[i].success == Some(b);
        assert FirstNamed(checks, name, i);
      }
      if Named(checks[n], name) && !NameIn(init, name) {
        assert FirstNamed(checks, name, n);
      }
    }
  }

  lemma MalformedInit(checks: seq<ReviewCheck>)
    requires checks != []
    ensures var n := |checks| - 1; HasMalformed(checks) <==> HasMalformed(checks[..n]) || !CheckRight(checks[n])
  {
    var n := |checks| - 1;
    if i :| 0 <= i < n && !CheckRight(checks[..n][i]) {
      assert !CheckRight(checks[i]);
    }
  }

  lemma RepeatsNameInit(checks: seq<ReviewCheck>)
    requires checks != []
    ensures var n := |checks| - 1;
            RepeatsName(checks) <==>
            RepeatsName(checks[..n]) || (CheckRight(checks[n]) && NameIn(checks[..n], checks[n].name.text))
  {
    var n := |checks| - 1;
    var init := checks[..n];
    if RepeatsName(init) {
      var i, j, name :| 0 <= i < j < n && Named(init[i], name) && Named(init[j], name);
      assert Named(checks[i], name) && Named(checks[j], name);
    }
    if CheckRight(checks[n]) && NameIn(init, checks[n].name.text) {
      var i :| 0 <= i < n && Named(init[i], checks[n].name.text);
      assert Named(checks[i], checks[n].name.text) && Named(checks[n], checks[n].name.text);
    }
    if i, j, name :| 0 <= i < j < |checks| && Named(checks[i], name) && Named(checks[j], name) {
      assert Named(init[i], name);
      assert j < n ==> Named(init[j], name);
    }
  }

  /** What the checks of a case add to a reading. */
  ghost predicate ChecksSay(place: Place, rd: Reading, checks: seq<ReviewCheck>, cr: CaseReading) {
    && cr.reading.places == rd.places && (cr.success <==> NoneFails(checks))
    && (forall id, b :: Has(cr.reading.outcomes, id, b) <==>
                        Has(rd.outcomes, id, b) || (At(id, place) && FirstSays(checks, id.name, b)))
    && (forall issue :: issue in cr.reading.issues <==>
                        || issue in rd.issues
                        || (issue == MalformedCheck && HasMalformed(checks)) || (issue == DuplicateCheck && RepeatsName(checks)))
  }

  lemma SomeFirst(checks: seq<ReviewCheck>, name: string)
    ensures NameIn(checks, name) <==> exists b :: FirstSays(checks, name, b)
  {
    if i :| 0 <= i < |checks| && Named(checks[i], name) {
      var first := FindFirst(checks, name, i);
      assert FirstSays(checks, name, checks[first].success.value);
    }
  }

  lemma {:induction false} FindFirst(checks: seq<ReviewCheck>, name: string, i: nat) returns (first: nat)
    requires i < |checks| && Named(checks[i], name)
    ensures FirstNamed(checks, name, first)
  {
    if j :| 0 <= j < i && Named(checks[j], name) {
      first := FindFirst(checks, name, j);
    } else {
      first := i;
    }
  }

  lemma TakenIff(place: Place, rd: Reading, checks: seq<ReviewCheck>, cr: CaseReading, name: string)
    requires NothingAt(rd.outcomes, place) && ChecksSay(place, rd, checks, cr)
    ensures CheckId(place.mode, place.transport, name) in cr.reading.outcomes <==> NameIn(checks, name)
  {
    var id := CheckId(place.mode, place.transport, name);
    SomeFirst(checks, name);
    if id in cr.reading.outcomes {
      assert Has(cr.reading.outcomes, id, cr.reading.outcomes[id]);
    }
    if b :| FirstSays(checks, name, b) {
      assert Has(cr.reading.outcomes, id, b);
    }
  }

  lemma {:induction false} ChecksAreSaid(place: Place, rd: Reading, checks: seq<ReviewCheck>)
    requires NothingAt(rd.outcomes, place)
    ensures ChecksSay(place, rd, checks, AddChecks(place, rd, checks))
  {
    if checks != [] {
      var n := |checks| - 1;
      ChecksAreSaid(place, rd, checks[..n]);
      ReadOneMoreCheck(place, rd, checks);
      OneMoreSaid(place, rd, checks, AddChecks(place, rd, checks[..n]));
    }
  }

  lemma NoneFailsInit(checks: seq<ReviewCheck>)
    requires checks != []
    ensures var n := |checks| - 1;
            NoneFails(checks) <==>
            && NoneFails(checks[..n])
            && !(CheckRight(checks[n]) && !NameIn(checks[..n], checks[n].name.text) && checks[n].success == Some(false))
  {
    var n := |checks| - 1;
    forall name
      ensures FirstSays(checks, name, false) <==>
              || FirstSays(checks[..n], name, false)
              || (Named(checks[n], name) && !NameIn(checks[..n], name) && checks[n].success == Some(false))
    {
      NameInInit(checks, name);
    }
    if CheckRight(checks[n]) {
      assert Named(checks[n], checks[n].name.text);
      assert NoneFails(checks) ==> !FirstSays(checks, checks[n].name.text, false);
    }
  }

  lemma OneMoreOutcomeSaid(place: Place, rd: Reading, checks: seq<ReviewCheck>, cr: CaseReading, id: CheckId, b: bool)
    requires checks != [] && NothingAt(rd.outcomes, place) && ChecksSay(place, rd, checks[..|checks| - 1], cr)
    ensures Has(AddCheck(place, cr, checks[|checks| - 1]).reading.outcomes, id, b) <==>
            Has(rd.outcomes, id, b) || (At(id, place) && FirstSays(checks, id.name, b))
  {
    var n := |checks| - 1;
    NameInInit(checks, id.name);
    if CheckRight(checks[n]) {
      TakenIff(place, rd, checks[..n], cr, checks[n].name.text);
    }
  }

  lemma OneMoreIssueSaid(place: Place, rd: Reading, checks: seq<ReviewCheck>, cr: CaseReading, issue: ReviewIssue)
    requires checks != [] && NothingAt(rd.outcomes, place) && ChecksSay(place, rd, checks[..|checks| - 1], cr)
    ensures issue in AddCheck(place, cr, checks[|checks| - 1]).reading.issues <==>
            || issue in rd.issues
            || (issue == MalformedCheck && HasMalformed(checks)) || (issue == DuplicateCheck && RepeatsName(checks))
  {
    var n := |checks| - 1;
    if issue == MalformedCheck {
      MalformedInit(checks);
    } else if issue == DuplicateCheck {
      RepeatsNameInit(checks);
    }
    if CheckRight(checks[n]) {
      TakenIff(place, rd, checks[..n], cr, checks[n].name.text);
    }
  }

  lemma OneMoreSaid(place: Place, rd: Reading, checks: seq<ReviewCheck>, cr: CaseReading)
    requires checks != [] && NothingAt(rd.outcomes, place) && ChecksSay(place, rd, checks[..|checks| - 1], cr)
    ensures ChecksSay(place, rd, checks, AddCheck(place, cr, checks[|checks| - 1]))
  {
    var n := |checks| - 1;
    NoneFailsInit(checks);
    if CheckRight(checks[n]) {
      TakenIff(place, rd, checks[..n], cr, checks[n].name.text);
    }
    forall id, b
      ensures Has(AddCheck(place, cr, checks[n]).reading.outcomes, id, b) <==>
              Has(rd.outcomes, id, b) || (At(id, place) && FirstSays(checks, id.name, b))
    {
      OneMoreOutcomeSaid(place, rd, checks, cr, id, b);
    }
    forall issue
      ensures issue in AddCheck(place, cr, checks[n]).reading.issues <==>
              || issue in rd.issues
              || (issue == MalformedCheck && HasMalformed(checks)) || (issue == DuplicateCheck && RepeatsName(checks))
    {
      OneMoreIssueSaid(place, rd, checks, cr, issue);
    }
  }

  // ----- The cases of a full report -----

  ghost predicate FirstAt(cases: seq<ReviewCase>, place: Place, i: int) {
    0 <= i < |cases| && CaseAt(cases[i], place) && forall j :: 0 <= j < i ==> !CaseAt(cases[j], place)
  }

  predicate HasChecks(case_: ReviewCase) {
    case_.ReviewCase? && case_.checks.Some? && case_.checks.value != []
  }

  /** The outcome comes from the first case at its required place. */
  ghost predicate SaidFirst(suite: Suite, cases: seq<ReviewCase>, id: CheckId, success: bool) {
    var place := Place(id.mode, id.transport);
    && place in suite.cases
    && exists i :: FirstAt(cases, place, i) && HasChecks(cases[i]) && FirstSays(cases[i].checks.value, id.name, success)
  }

  /** What is wrong with the first case at a place. */
  ghost predicate CaseShows(case_: ReviewCase, place: Place, issue: ReviewIssue) {
    if !HasChecks(case_) then issue == NoChecks(place)
    else
      || (issue == MalformedCheck && HasMalformed(case_.checks.value))
      || (issue == DuplicateCheck && RepeatsName(case_.checks.value))
      || (issue == InconsistentCase(place) && case_.success != Some(NoneFails(case_.checks.value)))
  }

  ghost predicate Misplaced(suite: Suite, case_: ReviewCase) {
    case_.ReviewCase? && forall place :: place in suite.cases ==> !CaseAt(case_, place)
  }

  ghost predicate RepeatsPlace(suite: Suite, cases: seq<ReviewCase>) {
    exists i, j, place :: 0 <= i < j < |cases| && place in suite.cases && CaseAt(cases[i], place) && CaseAt(cases[j], place)
  }

  ghost predicate HasNonCase(cases: seq<ReviewCase>) {
    exists i :: 0 <= i < |cases| && cases[i].NotACase?
  }

  ghost predicate HasMisplaced(suite: Suite, cases: seq<ReviewCase>) {
    exists i :: 0 <= i < |cases| && Misplaced(suite, cases[i])
  }

  /** Some first case at a required place shows the issue. */
  ghost predicate FirstsShow(suite: Suite, cases: seq<ReviewCase>, issue: ReviewIssue) {
    exists i, place :: place in suite.cases && FirstAt(cases, place, i) && CaseShows(cases[i], place, issue)
  }

  ghost predicate ListShows(suite: Suite, cases: seq<ReviewCase>, issue: ReviewIssue) {
    match issue
    case MalformedCase => HasNonCase(cases)
    case UnexpectedCaseListed => HasMisplaced(suite, cases)
    case DuplicateCase => RepeatsPlace(suite, cases)
    case _ => false
  }

  ghost predicate CasesShow(suite: Suite, cases: seq<ReviewCase>, issue: ReviewIssue) {
    ListShows(suite, cases, issue) || FirstsShow(suite, cases, issue)
  }

  /** What the cases of a report add to an empty reading. */
  ghost predicate CasesSay(suite: Suite, before: seq<ReviewIssue>, cases: seq<ReviewCase>, rd: Reading) {
    && (forall place :: place in rd.places <==> place in suite.cases && PlaceIn(cases, place))
    && (forall id, b :: Has(rd.outcomes, id, b) <==> SaidFirst(suite, cases, id, b))
    && (forall issue :: issue in rd.issues <==> issue in before || CasesShow(suite, cases, issue))
  }

  lemma FirstAtInit(cases: seq<ReviewCase>, place: Place)
    requires cases != []
    ensures var n := |cases| - 1;
            && (PlaceIn(cases, place) <==> PlaceIn(cases[..n], place) || CaseAt(cases[n], place))
            && forall i :: FirstAt(cases, place, i) <==>
                 FirstAt(cases[..n], place, i) || (i == n && CaseAt(cases[n], place) && !PlaceIn(cases[..n], place))
  {
    var n := |cases| - 1;
    assert forall i :: 0 <= i < n ==> cases[..n][i] == cases[i];
    if i :| 0 <= i < n && CaseAt(cases[..n][i], place) {
      assert CaseAt(cases[i], place);
    }
  }

  lemma SaidFirstInit(suite: Suite, cases: seq<ReviewCase>, id: CheckId, b: bool)
    requires cases != []
    ensures var n, place := |cases| - 1, Place(id.mode, id.transport);
            SaidFirst(suite, cases, id, b) <==>
            || SaidFirst(suite, cases[..n], id, b)
            || (&& place in suite.cases && CaseAt(cases[n], place) && !PlaceIn(cases[..n], place)
                && HasChecks(cases[n]) && FirstSays(cases[n].checks.value, id.name, b))
  {
    var n, place := |cases| - 1, Place(id.mode, id.transport);
    FirstAtInit(cases, place);
    if SaidFirst(suite, cases[..n], id, b) {
      var i :| FirstAt(cases[..n], place, i) && HasChecks(cases[..n][i]) && FirstSays(cases[..n][i].checks.value, id.name, b);
      assert FirstAt(cases, place, i) && cases[i] == cases[..n][i];
    }
    if CaseAt(cases[n], place) && !PlaceIn(cases[..n], place) {
      assert FirstAt(cases, place, n);
    }
  }

  ghost predicate LastRepeats(suite: Suite, init: seq<ReviewCase>, case_: ReviewCase) {
    exists place :: place in suite.cases && CaseAt(case_, place) && PlaceIn(init, place)
  }

  ghost predicate LastFirstShows(suite: Suite, init: seq<ReviewCase>, case_: ReviewCase, issue: ReviewIssue) {
    exists place :: place in suite.cases && CaseAt(case_, place) && !PlaceIn(init, place) && CaseShows(case_, place, issue)
  }

  ghost predicate LastListShows(suite: Suite, init: seq<ReviewCase>, case_: ReviewCase, issue: ReviewIssue) {
    match issue
    case MalformedCase => case_.NotACase?
    case UnexpectedCaseListed => Misplaced(suite, case_)
    case DuplicateCase => LastRepeats(suite, init, case_)
    case _ => false
  }

  /** What one more case shows, after the others. */
  ghost predicate LastShows(suite: Suite, init: seq<ReviewCase>, case_: ReviewCase, issue: ReviewIssue) {
    LastListShows(suite, init, case_, issue) || LastFirstShows(suite, init, case_, issue)
  }

  lemma RepeatsPlaceInit(suite: Suite, cases: seq<ReviewCase>)
    requires cases != []
    ensures var n := |cases| - 1;
            RepeatsPlace(suite, cases) <==> RepeatsPlace(suite, cases[..n]) || LastRepeats(suite, cases[..n], cases[n])
  {
    var n := |cases| - 1;
    assert forall i :: 0 <= i < n ==> cases[..n][i] == cases[i];
  }

  lemma HasMisplacedInit(suite: Suite, cases: seq<ReviewCase>)
    requires cases != []
    ensures var n := |cases| - 1;
            && (HasNonCase(cases) <==> HasNonCase(cases[..n]) || cases[n].NotACase?)
            && (HasMisplaced(suite, cases) <==> HasMisplaced(suite, cases[..n]) || Misplaced(suite, cases[n]))
  {
    var n := |cases| - 1;
    assert forall i :: 0 <= i < n ==> cases[..n][i] == cases[i];
    if i :| 0 <= i < n && cases[..n][i].NotACase? {
      assert cases[i].NotACase?;
    }
    if i :| 0 <= i < n && Misplaced(suite, cases[..n][i]) {
      assert Misplaced(suite, cases[i]);
    }
  }

  lemma OldFirstShows(suite: Suite, cases: seq<ReviewCase>, issue: ReviewIssue)
    requires cases != [] && FirstsShow(suite, cases[..|cases| - 1], issue)
    ensures FirstsShow(suite, cases, issue)
  {
    var init := cases[..|cases| - 1];
    var i, place :| place in suite.cases && FirstAt(init, place, i) && CaseShows(init[i], place, issue);
    FirstAtInit(cases, place);
    assert FirstAt(cases, place, i) && cases[i] == init[i];
  }

  lemma NewFirstShows(suite: Suite, cases: seq<ReviewCase>, issue: ReviewIssue)
    requires cases != [] && LastFirstShows(suite, cases[..|cases| - 1], cases[|cases| - 1], issue)
    ensures FirstsShow(suite, cases, issue)
  {
    var n := |cases| - 1;
    var place :| place in suite.cases && CaseAt(cases[n], place) && !PlaceIn(cases[..n], place)
                 && CaseShows(cases[n], place, issue);
    FirstAtInit(cases, place);
    assert FirstAt(cases, place, n);
  }

  lemma FirstsShowInit(suite: Suite, cases: seq<ReviewCase>, issue: ReviewIssue)
    requires cases != []
    ensures var n := |cases| - 1;
            FirstsShow(suite, cases, issue) <==>
            FirstsShow(suite, cases[..n], issue) || LastFirstShows(suite, cases[..n], cases[n], issue)
  {
    var n := |cases| - 1;
    if FirstsShow(suite, cases[..n], issue) {
      OldFirstShows(suite, cases, issue);
    }
    if LastFirstShows(suite, cases[..n], cases[n], issue) {
      NewFirstShows(suite, cases, issue);
    }
    if i, place :| place in suite.cases && FirstAt(cases, place, i) && CaseShows(cases[i], place, issue) {
      FirstAtInit(cases, place);
      assert i < n ==> cases[..n][i] == cases[i];
    }
  }

  lemma ListShowsInit(suite: Suite, cases: seq<ReviewCase>, issue: ReviewIssue)
    requires cases != []
    ensures var n := |cases| - 1;
            ListShows(suite, cases, issue) <==>
            ListShows(suite, cases[..n], issue) || LastListShows(suite, cases[..n], cases[n], issue)
  {
    match issue
    case MalformedCase => HasMisplacedInit(suite, cases);
    case UnexpectedCaseListed => HasMisplacedInit(suite, cases);
    case DuplicateCase => RepeatsPlaceInit(suite, cases);
    case _ =>
  }

  lemma CasesShowInit(suite: Suite, cases: seq<ReviewCase>, issue: ReviewIssue)
    requires cases != []
    ensures var n := |cases| - 1;
            CasesShow(suite, cases, issue) <==>
            CasesShow(suite, cases[..n], issue) || LastShows(suite, cases[..n], cases[n], issue)
  {
    ListShowsInit(suite, cases, issue);
    FirstsShowInit(suite, cases, issue);
  }

  /** One more case, after a reading that says what the earlier ones do. */
  lemma CaseAdds(suite: Suite, rd: Reading, case_: ReviewCase, place: Place)
    requires Tidy(rd) && CaseAt(case_, place) && place in suite.cases && place !in rd.places
    ensures var rd' := AddCase(suite, rd, case_);
            && rd'.places == rd.places + {place}
            && (forall id, b :: Has(rd'.outcomes, id, b) <==>
                 || Has(rd.outcomes, id, b)
                 || (At(id, place) && HasChecks(case_) && FirstSays(case_.checks.value, id.name, b)))
            && forall issue :: issue in rd'.issues <==> issue in rd.issues || CaseShows(case_, place, issue)
  {
    if HasChecks(case_) {
      ChecksAreSaid(place, rd.(places := rd.places + {place}), case_.checks.value);
    }
  }

  lemma TidyRead(suite: Suite, before: seq<ReviewIssue>, cases: seq<ReviewCase>, rd: Reading)
    requires CasesSay(suite, before, cases, rd)
    ensures Tidy(rd)
  {
    forall id | id in rd.outcomes
      ensures Place(id.mode, id.transport) in rd.places
    {
      assert Has(rd.outcomes, id, rd.outcomes[id]);
      var i :| FirstAt(cases, Place(id.mode, id.transport), i);
      assert CaseAt(cases[i], Place(id.mode, id.transport));
    }
  }

  lemma NewCaseSays(suite: Suite, before: seq<ReviewIssue>, cases: seq<ReviewCase>, rd: Reading, place: Place)
    requires cases != [] && CasesSay(suite, before, cases[..|cases| - 1], rd)
    requires CaseAt(cases[|cases| - 1], place) && place in suite.cases && place !in rd.places
    ensures CasesSay(suite, before, cases, AddCase(suite, rd, cases[|cases| - 1]))
  {
    var n := |cases| - 1;
    TidyRead(suite, before, cases[..n], rd);
    CaseAdds(suite, rd, cases[n], place);
    assert forall p :: CaseAt(cases[n], p) <==> p == place;
    forall p
      ensures PlaceIn(cases, p) <==> PlaceIn(cases[..n], p) || p == place
    {
      FirstAtInit(cases, p);
    }
    forall id, b
      ensures SaidFirst(suite, cases, id, b) <==>
              || SaidFirst(suite, cases[..n], id, b)
              || (At(id, place) && HasChecks(cases[n]) && FirstSays(cases[n].checks.value, id.name, b))
    {
      SaidFirstInit(suite, cases, id, b);
      assert At(id, place) <==> Place(id.mode, id.transport) == place;
    }
    forall issue
      ensures CasesShow(suite, cases, issue) <==>
              CasesShow(suite, cases[..n], issue) || CaseShows(cases[n], place, issue)
    {
      CasesShowInit(suite, cases, issue);
    }
  }

  lemma OtherCaseSays(suite: Suite, before: seq<ReviewIssue>, cases: seq<ReviewCase>, rd: Reading)
    requires cases != [] && CasesSay(suite, before, cases[..|cases| - 1], rd)
    requires forall place :: CaseAt(cases[|cases| - 1], place) && place in suite.cases ==> place in rd.places
    ensures CasesSay(suite, before, cases, AddCase(suite, rd, cases[|cases| - 1]))
  {
    var n := |cases| - 1;
    forall place
      ensures place in suite.cases ==> (PlaceIn(cases, place) <==> PlaceIn(cases[..n], place))
    {
      FirstAtInit(cases, place);
    }
    forall id, b
      ensures SaidFirst(suite, cases, id, b) <==> SaidFirst(suite, cases[..n], id, b)
    {
      SaidFirstInit(suite, cases, id, b);
    }
    forall issue
      ensures CasesShow(suite, cases, issue) <==>
              CasesShow(suite, cases[..n], issue) || issue in AddCase(suite, Reading(rd.places, map[], []), cases[n]).issues
    {
      CasesShowInit(suite, cases, issue);
      OtherCaseShows(suite, cases[..n], cases[n], rd.places, issue);
    }
    OtherCaseFlags(suite, rd, cases[n]);
  }

  /** A case at no new required place only adds its one issue. */
  lemma OtherCaseFlags(suite: Suite, rd: Reading, case_: ReviewCase)
    requires forall place :: CaseAt(case_, place) && place in suite.cases ==> place in rd.places
    ensures AddCase(suite, rd, case_) ==
            rd.(issues := rd.issues + AddCase(suite, Reading(rd.places, map[], []), case_).issues)
  {
    if case_.ReviewCase? && case_.mode.Text? && case_.transport.Text? {
      assert CaseAt(case_, Place(case_.mode.text, case_.transport.text));
    }
  }

  lemma OtherCaseShows(suite: Suite, init: seq<ReviewCase>, case_: ReviewCase, places: set<Place>, issue: ReviewIssue)
    requires forall place :: place in places <==> place in suite.cases && PlaceIn(init, place)
    requires forall place :: CaseAt(case_, place) && place in suite.cases ==> place in places
    ensures LastShows(suite, init, case_, issue) <==> issue in AddCase(suite, Reading(places, map[], []), case_).issues
  {
    if case_.ReviewCase? && case_.mode.Text? && case_.transport.Text? {
      var place := Place(case_.mode.text, case_.transport.text);
      assert forall p :: CaseAt(case_, p) <==> p == place;
    }
  }

  lemma {:induction false} CasesAreSaid(suite: Suite, before: seq<ReviewIssue>, cases: seq<ReviewCase>)
    ensures CasesSay(suite, before, cases, AddCases(suite, Reading({}, map[], before), cases))
  {
    if cases != [] {
      var n := |cases| - 1;
      var rd0 := Reading({}, map[], before);
      var rd := AddCases(suite, rd0, cases[..n]);
      CasesAreSaid(suite, before, cases[..n]);
      ReadOneMoreCase(suite, rd0, cases);
      if place :| CaseAt(cases[n], place) && place in suite.cases && place !in rd.places {
        NewCaseSays(suite, before, cases, rd, place);
      } else {
        OtherCaseSays(suite, before, cases, rd);
      }
    }
  }

  // ----- The lists of a compact baseline -----

  ghost predicate NamesPlace(record: CaseRecord) {
    exists place :: record == ToCaseRecord(place)
  }

  ghost predicate CaseListShows(records: seq<CaseRecord>, issue: ReviewIssue) {
    || (issue == MalformedCase && exists i :: 0 <= i < |records| && !NamesPlace(records[i]))
    || (issue == DuplicateCase && exists i, j :: 0 <= i < j < |records| && records[i] == records[j] && NamesPlace(records[j]))
  }

  lemma CaseListInit(records: seq<CaseRecord>, issue: ReviewIssue)
    requires records != []
    ensures var n := |records| - 1;
            CaseListShows(records, issue) <==>
            || CaseListShows(records[..n], issue)
            || (issue == MalformedCase && !NamesPlace(records[n]))
            || (issue == DuplicateCase && NamesPlace(records[n]) && records[n] in records[..n])
  {
    var n := |records| - 1;
    assert forall i :: 0 <= i < n ==> records[..n][i] == records[i];
    if i :| 0 <= i < n && !NamesPlace(records[..n][i]) {
      assert !NamesPlace(records[i]);
    }
  }

  lemma {:induction false} CaseListSays(rd: Reading, records: seq<CaseRecord>)
    requires rd.places == {}
    ensures var rd' := AddCaseRecords(rd, records);
            && rd'.outcomes == rd.outcomes
            && (forall place :: place in rd'.places <==> ToCaseRecord(place) in records)
            && (forall issue :: issue in rd'.issues <==> issue in rd.issues || CaseListShows(records, issue))
  {
    if records != [] {
      var n := |records| - 1;
      CaseListSays(rd, records[..n]);
      ReadOneMoreCaseRecord(rd, records);
      LastRecord(records);
      var last := records[n];
      if last.CaseRecord? && last.mode.Text? && last.transport.Text? {
        assert last == ToCaseRecord(Place(last.mode.text, last.transport.text));
      }
      forall issue
        ensures CaseListShows(records, issue) <==>
                || CaseListShows(records[..n], issue)
                || (issue == MalformedCase && !NamesPlace(last))
                || (issue == DuplicateCase && NamesPlace(last) && last in records[..n])
      {
        CaseListInit(records, issue);
      }
    }
  }

  /** The check already has an outcome. */
  ghost predicate Known(outcomes: map<CheckId, bool>, record: CheckRecord) {
    exists id :: id in outcomes && record == ToCheckRecord(id)
  }

  ghost predicate CheckListShows(suite: Suite, success: bool, known: map<CheckId, bool>, records: seq<CheckRecord>,
                                 issue: ReviewIssue)
  {
    || (issue == MalformedRecord(success) && HasMalformedRecord(suite, records))
    || (issue == DuplicateCheck && RepeatsCheck(suite, known, records))
  }

  ghost predicate RepeatsCheck(suite: Suite, known: map<CheckId, bool>, records: seq<CheckRecord>) {
    exists j :: 0 <= j < |records| && CheckRecordRight(suite, records[j])
                && (Known(known, records[j]) || records[j] in records[..j])
  }

  lemma RepeatsCheckInit(suite: Suite, known: map<CheckId, bool>, records: seq<CheckRecord>)
    requires records != []
    ensures var n := |records| - 1;
            RepeatsCheck(suite, known, records) <==>
            || RepeatsCheck(suite, known, records[..n])
            || (CheckRecordRight(suite, records[n]) && (Known(known, records[n]) || records[n] in records[..n]))
  {
    var n := |records| - 1;
    forall j | 0 <= j < n
      ensures records[..n][j] == records[j] && records[..n][..j] == records[..j]
    {}
  }

  ghost predicate HasMalformedRecord(suite: Suite, records: seq<CheckRecord>) {
    exists i :: 0 <= i < |records| && !CheckRecordRight(suite, records[i])
  }

  lemma MalformedRecordInit(suite: Suite, records: seq<CheckRecord>)
    requires records != []
    ensures var n := |records| - 1;
            HasMalformedRecord(suite, records) <==>
            HasMalformedRecord(suite, records[..n]) || !CheckRecordRight(suite, records[n])
  {
    var n := |records| - 1;
    if i :| 0 <= i < n && !CheckRecordRight(suite, records[..n][i]) {
      assert !CheckRecordRight(suite, records[i]);
    }
  }

  lemma CheckListInit(suite: Suite, success: bool, known: map<CheckId, bool>, records: seq<CheckRecord>, issue: ReviewIssue)
    requires records != []
    ensures var n := |records| - 1;
            CheckListShows(suite, success, known, records, issue) <==>
            || CheckListShows(suite, success, known, records[..n], issue)
            || (issue == MalformedRecord(success) && !CheckRecordRight(suite, records[n]))
            || (issue == DuplicateCheck && CheckRecordRight(suite, records[n])
                && (Known(known, records[n]) || records[n] in records[..n]))
  {
    if issue == DuplicateCheck {
      RepeatsCheckInit(suite, known, records);
    } else {
      MalformedRecordInit(suite, records);
    }
  }

  /** What a list of checks adds: each well-formed check that has no outcome yet gets this one. */
  ghost predicate CheckListSays(suite: Suite, success: bool, rd: Reading, records: seq<CheckRecord>, rd': Reading) {
    && rd'.places == rd.places
    && (forall id, b :: Has(rd'.outcomes, id, b) <==>
                        || Has(rd.outcomes, id, b)
                        || (b == success && WellFormed(suite, id) && ToCheckRecord(id) in records && id !in rd.outcomes))
    && (forall issue :: issue in rd'.issues <==>
                        issue in rd.issues || CheckListShows(suite, success, rd.outcomes, records, issue))
  }

  lemma RecordOf(record: CheckRecord, id: CheckId)
    ensures record == ToCheckRecord(id) <==>
            && record.CheckRecord? && record.mode.Text? && record.transport.Text? && record.checkId.Text?
            && id == CheckId(record.mode.text, record.transport.text, record.checkId.text)
  {}

  lemma KnownAfter(suite: Suite, success: bool, rd: Reading, records: seq<CheckRecord>, mid: Reading, id: CheckId)
    requires CheckListSays(suite, success, rd, records, mid) && WellFormed(suite, id)
    ensures id in mid.outcomes <==> Known(rd.outcomes, ToCheckRecord(id)) || ToCheckRecord(id) in records
    ensures Known(rd.outcomes, ToCheckRecord(id)) <==> id in rd.outcomes
  {
    if id in mid.outcomes {
      assert Has(mid.outcomes, id, mid.outcomes[id]);
    }
    if id in rd.outcomes {
      assert Has(mid.outcomes, id, rd.outcomes[id]);
    } else if ToCheckRecord(id) in records {
      assert Has(mid.outcomes, id, success);
    }
    forall other | ToCheckRecord(id) == ToCheckRecord(other)
      ensures other == id
    {
      RecordOf(ToCheckRecord(id), other);
    }
  }

  lemma AddRecord(suite: Suite, success: bool, rd: Reading, record: CheckRecord)
    ensures var rd' := AddCheckRecord(suite, success, rd, record);
            && rd'.places == rd.places
            && (!CheckRecordRight(suite, record) ==> rd' == Flag(rd, MalformedRecord(success)))
            && forall id :: record == ToCheckRecord(id) && WellFormed(suite, id) ==>
                 rd' == if id in rd.outcomes then Flag(rd, DuplicateCheck) else rd.(outcomes := rd.outcomes[id := success])
  {
    forall id
      ensures record == ToCheckRecord(id) <==>
              && record.CheckRecord? && record.mode.Text? && record.transport.Text? && record.checkId.Text?
              && id == CheckId(record.mode.text, record.transport.text, record.checkId.text)
    {
      RecordOf(record, id);
    }
    if record.CheckRecord? && record.mode.Text? && record.transport.Text? && record.checkId.Text? {
      assert record == ToCheckRecord(CheckId(record.mode.text, record.transport.text, record.checkId.text));
    }
  }

  lemma ListedIssue(suite: Suite, success: bool, rd: Reading, records: seq<CheckRecord>, mid: Reading, issue: ReviewIssue)
    requires records != [] && CheckListSays(suite, success, rd, records[..|records| - 1], mid)
    ensures issue in AddCheckRecord(suite, success, mid, records[|records| - 1]).issues <==>
            issue in rd.issues || CheckListShows(suite, success, rd.outcomes, records, issue)
  {
    var n := |records| - 1;
    AddRecord(suite, success, mid, records[n]);
    CheckListInit(suite, success, rd.outcomes, records, issue);
    if CheckRecordRight(suite, records[n]) {
      var id :| WellFormed(suite, id) && records[n] == ToCheckRecord(id);
      KnownAfter(suite, success, rd, records[..n], mid, id);
    }
  }

  lemma ListedOutcome(suite: Suite, success: bool, rd: Reading, records: seq<CheckRecord>, mid: Reading, id: CheckId, b: bool)
    requires records != [] && CheckListSays(suite, success, rd, records[..|records| - 1], mid)
    ensures Has(AddCheckRecord(suite, success, mid, records[|records| - 1]).outcomes, id, b) <==>
            || Has(rd.outcomes, id, b)
            || (b == success && WellFormed(suite, id) && ToCheckRecord(id) in records && id !in rd.outcomes)
  {
    var n := |records| - 1;
    AddRecord(suite, success, mid, records[n]);
    LastRecord(records);
    if CheckRecordRight(suite, records[n]) {
      var listed :| WellFormed(suite, listed) && records[n] == ToCheckRecord(listed);
      RecordOf(records[n], listed);
      RecordOf(records[n], id);
      KnownAfter(suite, success, rd, records[..n], mid, listed);
      var rd' := AddCheckRecord(suite, success, mid, records[n]);
      assert rd'.outcomes == if listed in mid.outcomes then mid.outcomes else mid.outcomes[listed := success];
      assert Has(mid.outcomes, id, b) <==>
              || Has(rd.outcomes, id, b)
              || (b == success && WellFormed(suite, id) && ToCheckRecord(id) in records[..n] && id !in rd.outcomes);
      assert ToCheckRecord(id) in records <==> ToCheckRecord(id) in records[..n] || id == listed;
      if id == listed {
        assert listed in rd.outcomes ==> Has(rd.outcomes, listed, rd.outcomes[listed]);
      }
    }
  }

  lemma OneMoreListed(suite: Suite, success: bool, rd: Reading, records: seq<CheckRecord>, mid: Reading)
    requires records != [] && CheckListSays(suite, success, rd, records[..|records| - 1], mid)
    ensures CheckListSays(suite, success, rd, records, AddCheckRecord(suite, success, mid, records[|records| - 1]))
  {
    var last := records[|records| - 1];
    AddRecord(suite, success, mid, last);
    forall id, b
      ensures Has(AddCheckRecord(suite, success, mid, last).outcomes, id, b) <==>
              || Has(rd.outcomes, id, b)
              || (b == success && WellFormed(suite, id) && ToCheckRecord(id) in records && id !in rd.outcomes)
    {
      ListedOutcome(suite, success, rd, records, mid, id, b);
    }
    forall issue
      ensures issue in AddCheckRecord(suite, success, mid, last).issues <==>
              issue in rd.issues || CheckListShows(suite, success, rd.outcomes, records, issue)
    {
      ListedIssue(suite, success, rd, records, mid, issue);
    }
  }

  lemma {:induction false} CheckListIsSaid(suite: Suite, success: bool, rd: Reading, records: seq<CheckRecord>)
    ensures CheckListSays(suite, success, rd, records, AddCheckRecords(suite, success, rd, records))
  {
    if records != [] {
      var n := |records| - 1;
      CheckListIsSaid(suite, success, rd, records[..n]);
      ReadOneMoreRecord(suite, success, rd, records);
      OneMoreListed(suite, success, rd, records, AddCheckRecords(suite, success, rd, records[..n]));
    }
  }

  // ----- A whole report -----

  ghost predicate HeaderShows(suite: Suite, r: ReviewReport, issue: ReviewIssue) {
    match issue
    case WrongSchema => r.schemaVersion != 1
    case WrongReviewer => r.reviewer != Text("codex-mcp-regression-suite")
    case WrongModes => (if r.baselineKind.Some? then r.requiredModes else r.modes) != suite.modes
    case _ => false
  }

  lemma HeaderIssueIff(suite: Suite, r: ReviewReport, issue: ReviewIssue)
    ensures issue in HeaderIssues(suite, r) <==> HeaderShows(suite, r, issue)
  {}

  function CasesIn(r: ReviewReport): seq<ReviewCase> {
    if r.cases.Some? then r.cases.value else []
  }

  function CaseList(r: ReviewReport): seq<CaseRecord> {
    if r.requiredCases.Some? then r.requiredCases.value else []
  }

  /** The checks listed with the outcome; none when the list is missing. */
  function CheckList(r: ReviewReport, success: bool): seq<CheckRecord> {
    if r.checks.None? then []
    else
      var records := if success then r.checks.value.passing else r.checks.value.failing;
      if records.Some? then records.value else []
  }

  predicate LacksList(r: ReviewReport, success: bool) {
    r.checks.None? || (if success then r.checks.value.passing else r.checks.value.failing).None?
  }

  /** The report gives the check this outcome: the first case or list that reports it counts. */
  ghost predicate Gives(suite: Suite, r: ReviewReport, id: CheckId, success: bool) {
    if r.baselineKind.None? then SaidFirst(suite, CasesIn(r), id, success)
    else
      && "review/" <= id.name && Place(id.mode, id.transport) in suite.cases
      && ToCheckRecord(id) in CheckList(r, success) && (!success ==> ToCheckRecord(id) !in CheckList(r, true))
  }

  ghost predicate Covers(suite: Suite, r: ReviewReport, place: Place) {
    if r.baselineKind.None? then place in suite.cases && PlaceIn(CasesIn(r), place) else ToCaseRecord(place) in CaseList(r)
  }

  /** The failing list repeats a check of its own or of the passing list. */
  ghost predicate RepeatsListed(suite: Suite, r: ReviewReport) {
    || RepeatsCheck(suite, map[], CheckList(r, true))
    || exists j :: 0 <= j < |CheckList(r, false)| && CheckRecordRight(suite, CheckList(r, false)[j])
                   && (CheckList(r, false)[j] in CheckList(r, true) || CheckList(r, false)[j] in CheckList(r, false)[..j])
  }

  ghost predicate CompactShows(suite: Suite, r: ReviewReport, issue: ReviewIssue) {
    || (issue == UnsupportedFormat && r.baselineKind != Some("mcp-review-regression-baseline-v1"))
    || (issue == NoRequiredCases && r.requiredCases.None?) || CaseListShows(CaseList(r), issue)
    || (issue == NoIdentities && r.checks.None?)
    || (issue.NoBucket? && LacksList(r, issue.success))
    || (issue.MalformedRecord? && HasMalformedRecord(suite, CheckList(r, issue.success)))
    || (issue == DuplicateCheck && RepeatsListed(suite, r))
  }

  ghost predicate BodyShows(suite: Suite, r: ReviewReport, issue: ReviewIssue) {
    if r.baselineKind.Some? then CompactShows(suite, r, issue)
    else (issue == NoCases && r.cases.None?) || CasesShow(suite, CasesIn(r), issue)
  }

  /** What the reading of a report says, for all reports. */
  ghost predicate ReadingSays(suite: Suite, r: ReviewReport, rd: Reading) {
    && (forall place :: place in rd.places <==> Covers(suite, r, place))
    && (forall id, b :: Has(rd.outcomes, id, b) <==> Gives(suite, r, id, b))
    && (forall issue :: issue in rd.issues <==> HeaderShows(suite, r, issue) || BodyShows(suite, r, issue))
  }

  lemma FullIsRead(suite: Suite, r: ReviewReport)
    requires r.baselineKind.None?
    ensures ReadingSays(suite, r, Read(suite, r))
  {
    var before := HeaderIssues(suite, r);
    forall issue
      ensures issue in before <==> HeaderShows(suite, r, issue)
    {
      HeaderIssueIff(suite, r, issue);
    }
    CasesAreSaid(suite, before, CasesIn(r));
  }

  lemma ListsStart(suite: Suite, r: ReviewReport, rd: Reading) returns (cases: Reading)
    requires r.baselineKind.Some? && rd.places == {} && rd.outcomes == map[]
    ensures var kind := if r.baselineKind != Some(COMPACT_KIND) then Flag(rd, UnsupportedFormat) else rd;
            cases == if r.requiredCases.None? then Flag(kind, NoRequiredCases) else AddCaseRecords(kind, r.requiredCases.value)
    ensures cases.outcomes == map[] && forall place :: place in cases.places <==> ToCaseRecord(place) in CaseList(r)
    ensures forall issue :: issue in cases.issues <==>
              || issue in rd.issues
              || (issue == UnsupportedFormat && r.baselineKind != Some("mcp-review-regression-baseline-v1"))
              || (issue == NoRequiredCases && r.requiredCases.None?) || CaseListShows(CaseList(r), issue)
  {
    var kind := if r.baselineKind != Some(COMPACT_KIND) then Flag(rd, UnsupportedFormat) else rd;
    cases := if r.requiredCases.None? then Flag(kind, NoRequiredCases) else AddCaseRecords(kind, r.requiredCases.value);
    CaseListSays(kind, CaseList(r));
  }

  /** One list, there or not. */
  lemma ListIsRead(suite: Suite, success: bool, rd: Reading, records: Option<seq<CheckRecord>>)
    ensures var list := if records.Some? then records.value else [];
            var rd' := AddBucket(suite, success, rd, records);
            && rd'.places == rd.places
            && (forall id, b :: Has(rd'.outcomes, id, b) <==>
                 || Has(rd.outcomes, id, b)
                 || (b == success && WellFormed(suite, id) && ToCheckRecord(id) in list && id !in rd.outcomes))
            && (forall issue :: issue in rd'.issues <==>
                 || issue in rd.issues || (issue == NoBucket(success) && records.None?)
                 || CheckListShows(suite, success, rd.outcomes, list, issue))
  {
    if records.Some? {
      CheckListIsSaid(suite, success, rd, records.value);
    }
  }

  /** After the passing list, exactly its well-formed checks are known, as passed. */
  ghost predicate PassedOnly(suite: Suite, outcomes: map<CheckId, bool>, passing: seq<CheckRecord>) {
    forall id, b :: Has(outcomes, id, b) <==> b && WellFormed(suite, id) && ToCheckRecord(id) in passing
  }

  lemma KnownIffPassing(suite: Suite, outcomes: map<CheckId, bool>, passing: seq<CheckRecord>, record: CheckRecord)
    requires PassedOnly(suite, outcomes, passing) && CheckRecordRight(suite, record)
    ensures Known(outcomes, record) <==> record in passing
  {
    var id :| WellFormed(suite, id) && record == ToCheckRecord(id);
    if record in passing {
      assert Has(outcomes, id, true);
    }
    if other :| other in outcomes && record == ToCheckRecord(other) {
      assert Has(outcomes, other, outcomes[other]);
    }
  }

  lemma RepeatsIff(suite: Suite, outcomes: map<CheckId, bool>, passing: seq<CheckRecord>, failing: seq<CheckRecord>)
    requires PassedOnly(suite, outcomes, passing)
    ensures RepeatsCheck(suite, outcomes, failing) <==>
            exists j :: 0 <= j < |failing| && CheckRecordRight(suite, failing[j])
                        && (failing[j] in passing || failing[j] in failing[..j])
  {
    forall j | 0 <= j < |failing| && CheckRecordRight(suite, failing[j])
      ensures Known(outcomes, failing[j]) <==> failing[j] in passing
    {
      KnownIffPassing(suite, outcomes, passing, failing[j]);
    }
  }

  lemma BothListsOutcomes(suite: Suite, outcomes: map<CheckId, bool>, passing: seq<CheckRecord>, id: CheckId)
    requires PassedOnly(suite, outcomes, passing) && WellFormed(suite, id)
    ensures id in outcomes <==> ToCheckRecord(id) in passing
  {
    if id in outcomes {
      assert Has(outcomes, id, outcomes[id]);
    }
    if ToCheckRecord(id) in passing {
      assert Has(outcomes, id, true);
    }
  }

  /** The two lists of checks, after the list of cases. */
  ghost predicate ListsSay(suite: Suite, r: ReviewReport, cases: Reading, rd: Reading) {
    && rd.places == cases.places
    && (forall id, b :: Has(rd.outcomes, id, b) <==> Gives(suite, r, id, b))
    && (forall issue :: issue in rd.issues <==>
         || issue in cases.issues || (issue == NoIdentities && r.checks.None?)
         || (issue.NoBucket? && LacksList(r, issue.success))
         || (issue.MalformedRecord? && HasMalformedRecord(suite, CheckList(r, issue.success)))
         || (issue == DuplicateCheck && RepeatsListed(suite, r)))
  }

  lemma NothingListed(suite: Suite, r: ReviewReport, cases: Reading)
    requires r.baselineKind.Some? && r.checks.None? && cases.outcomes == map[]
    ensures ListsSay(suite, r, cases, Flag(Flag(Flag(cases, NoIdentities), NoBucket(true)), NoBucket(false)))
  {}

  lemma ListedOutcomes(suite: Suite, r: ReviewReport, cases: Reading, mid: Reading, rd: Reading, id: CheckId, b: bool)
    requires r.baselineKind.Some? && r.checks.Some? && PassedOnly(suite, mid.outcomes, CheckList(r, true))
    requires forall id, b :: Has(rd.outcomes, id, b) <==>
               || Has(mid.outcomes, id, b)
               || (!b && WellFormed(suite, id) && ToCheckRecord(id) in CheckList(r, false) && id !in mid.outcomes)
    ensures Has(rd.outcomes, id, b) <==> Gives(suite, r, id, b)
  {
    if WellFormed(suite, id) {
      BothListsOutcomes(suite, mid.outcomes, CheckList(r, true), id);
    }
  }

  lemma BothLists(suite: Suite, r: ReviewReport, cases: Reading)
    requires r.baselineKind.Some? && r.checks.Some? && cases.outcomes == map[]
    ensures ListsSay(suite, r, cases, AddBucket(suite, false, AddBucket(suite, true, cases, r.checks.value.passing),
                                                r.checks.value.failing))
  {
    var passing, failing := CheckList(r, true), CheckList(r, false);
    var mid := AddBucket(suite, true, cases, r.checks.value.passing);
    var rd := AddBucket(suite, false, mid, r.checks.value.failing);
    ListIsRead(suite, true, cases, r.checks.value.passing);
    ListIsRead(suite, false, mid, r.checks.value.failing);
    assert PassedOnly(suite, mid.outcomes, passing);
    RepeatsIff(suite, mid.outcomes, passing, failing);
    forall id, b
      ensures Has(rd.outcomes, id, b) <==> Gives(suite, r, id, b)
    {
      ListedOutcomes(suite, r, cases, mid, rd, id, b);
    }
  }

  lemma CompactIsRead(suite: Suite, r: ReviewReport)
    requires r.baselineKind.Some?
    ensures ReadingSays(suite, r, Read(suite, r))
  {
    var rd := Reading({}, map[], HeaderIssues(suite, r));
    forall issue
      ensures issue in rd.issues <==> HeaderShows(suite, r, issue)
    {
      HeaderIssueIff(suite, r, issue);
    }
    var cases := ListsStart(suite, r, rd);
    if r.checks.None? {
      NothingListed(suite, r, cases);
    } else {
      BothLists(suite, r, cases);
    }
  }

  /** Every report, usable or not, is read as its fields say. */
  lemma ReportIsRead(suite: Suite, r: ReviewReport)
    ensures ReadingSays(suite, r, Read(suite, r))
  {
    if r.baselineKind.None? {
      FullIsRead(suite, r);
    } else {
      CompactIsRead(suite, r);
    }
  }

  /** What the places, the totals and the overall outcome show once everything is read. */
  ghost predicate ClosingShows(suite: Suite, r: ReviewReport, rd: Reading, issue: ReviewIssue) {
    match issue
    case MissingCase(place) => place in suite.cases && !Covers(suite, r, place)
    case UnexpectedCase(place) => place !in suite.cases && Covers(suite, r, place)
    case InconsistentTotals => r.summary != Some(TotalsOf(rd.places, rd.outcomes))
    case InconsistentSuccess =>
      && r.baselineKind.None?
      && r.success != Some((exists place :: Covers(suite, r, place)) && forall id :: !Gives(suite, r, id, false))
    case _ => false
  }

  lemma PlaceListed(places: set<Place>, issue: ReviewIssue)
    ensures issue in MissingCases(SortedPlaces(places)) <==> issue.MissingCase? && issue.place in places
    ensures issue in UnexpectedCases(SortedPlaces(places)) <==> issue.UnexpectedCase? && issue.place in places
  {
    var sorted := SortedPlaces(places);
    if (issue.MissingCase? || issue.UnexpectedCase?) && issue.place in places {
      assert issue.place in Elements(sorted);
      var i :| 0 <= i < |sorted| && sorted[i] == issue.place;
      assert MissingCases(sorted)[i] == MissingCase(issue.place);
      assert UnexpectedCases(sorted)[i] == UnexpectedCase(issue.place);
    }
    forall i | 0 <= i < |sorted|
      ensures sorted[i] in places
    {
      assert sorted[i] in Elements(sorted);
    }
  }

  lemma NoFailures(outcomes: map<CheckId, bool>)
    ensures TotalsOf({}, outcomes).failed == 0 <==> forall id :: !Has(outcomes, id, false)
  {
    var passed := set id | id in outcomes && outcomes[id];
    assert passed <= outcomes.Keys;
    SubsetSize(passed, outcomes.Keys);
    if |passed| == |outcomes| {
      forall id
        ensures !Has(outcomes, id, false)
      {
        assert id in outcomes.Keys ==> id in passed;
      }
    }
    if forall id :: !Has(outcomes, id, false) {
      assert forall id :: id in outcomes.Keys ==> !Has(outcomes, id, false);
      assert passed == outcomes.Keys;
    }
  }

  lemma ClosingIssueIff(suite: Suite, r: ReviewReport, rd: Reading, issue: ReviewIssue)
    requires ReadingSays(suite, r, rd)
    ensures issue in ClosingIssues(r, rd.places, rd.outcomes) <==>
            && (issue.InconsistentTotals? || issue.InconsistentSuccess?) && ClosingShows(suite, r, rd, issue)
  {
    NoFailures(rd.outcomes);
    assert TotalsOf({}, rd.outcomes).failed == TotalsOf(rd.places, rd.outcomes).failed;
    assert rd.places != {} <==> exists place :: Covers(suite, r, place) by {
      if rd.places != {} {
        var place :| place in rd.places;
        assert Covers(suite, r, place);
      }
    }
    assert (forall id :: !Has(rd.outcomes, id, false)) <==> forall id :: !Gives(suite, r, id, false);
  }

  /** A report has exactly the issues that its fields show. */
  lemma IssueIff(suite: Suite, r: ReviewReport, issue: ReviewIssue)
    ensures issue in IssuesIn(suite, r) <==>
            || HeaderShows(suite, r, issue) || BodyShows(suite, r, issue)
            || ClosingShows(suite, r, Read(suite, r), issue)
  {
    var rd := Read(suite, r);
    ReportIsRead(suite, r);
    PlaceListed(suite.cases - rd.places, issue);
    PlaceListed(rd.places - suite.cases, issue);
    ClosingIssueIff(suite, r, rd, issue);
  }
}
