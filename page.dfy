/**
 * The CourseKeeper page: three stages, five state fields and the four
 * handlers that move between the stages, together with which handler each
 * stage makes reachable and what the detail stage renders
 * (web/src/app/coursekeeper/page.tsx).
 */
module CourseKeeperPage {
  import opened Wrappers
  import opened YearTable
  import opened Timeline
  import opened YearDetail

  datatype Stage = UploadStage | TimelineStage | DetailStage

  /** The five `useState` fields of the page. */
  datatype PageState = PageState(
    stage: Stage,
    selectedYear: Option<int>,
    userEmail: string,
    baselineYear: int,
    subject: string)

  /** The page as it first renders. */
  function InitialPage(): PageState {
    PageState(UploadStage, None, "", 2008, "Computer Vision")
  }

  /** The four handlers, with the arguments their callers pass. */
  datatype Event =
    | UploadComplete(email: string, year: int, subj: string)
    | YearClick(year: int)
    | BackToTimeline
    | BackToUpload

  /** What each handler does to the page state. */
  function Step(s: PageState, e: Event): PageState {
    match e
    case UploadComplete(email, year, subj) =>
      s.(userEmail := email, baselineYear := year, subject := subj, stage := TimelineStage)
    case YearClick(year) => s.(selectedYear := Some(year), stage := DetailStage)
    case BackToTimeline => s.(stage := TimelineStage, selectedYear := None)
    case BackToUpload => s.(stage := UploadStage)
  }

  /** The header shows the subject, the baseline and the "New Subject" button outside the upload stage. */
  predicate NewSubjectVisible(s: PageState) {
    s.stage != UploadStage
  }

  /** "New Subject", and with it the way back to upload, is offered in every stage but upload, the detail stage included. */
  lemma NewSubjectOffered(s: PageState)
    ensures Enabled(s, BackToUpload) <==> s.stage == TimelineStage || s.stage == DetailStage
  {
  }

  /** The timeline of the baseline draws a card for this year. */
  predicate Drawn(baseline: int, y: int) {
    exists k :: 0 <= k < |Rendered(baseline)| && Rendered(baseline)[k].year == y
  }

  /** The guard `stage === 'detail' && selectedYear` in front of the detail view. */
  predicate DetailShown(s: PageState) {
    s.stage == DetailStage && s.selectedYear.Some? && s.selectedYear.value != 0
  }

  /** What `stage === 'detail' && selectedYear && <YearDetail .../>` renders. */
  datatype DetailProps = DetailProps(year: int, baselineYear: int, userEmail: string, yearData: Option<YearData>)

  /**
   * The detail view is rendered only in the detail stage and only for a
   * truthy selected year, that is a present and non-zero one, and it is handed
   * the table's entry for that year, `undefined` (here `None`) when there is none.
   */
  function DetailOf(s: PageState): (r: Option<DetailProps>)
    ensures r.Some? <==> s.stage == DetailStage && s.selectedYear.Some? && s.selectedYear.value != 0
    ensures r.Some? ==> r.value.year == s.selectedYear.value && r.value.yearData == Lookup(r.value.year)
  {
    if DetailShown(s) then
      Some(DetailProps(s.selectedYear.value, s.baselineYear, s.userEmail, Lookup(s.selectedYear.value)))
    else None
  }

  /**
   * The handlers the rendered page can invoke: the upload form reports a year
   * of its year select; a year click comes from a drawn card or dot; the back
   * button lives in the detail view; "New Subject" in the header.
   */
  predicate Enabled(s: PageState, e: Event) {
    match e
    case UploadComplete(_, year, _) => s.stage == UploadStage && 2005 <= year <= 2024
    case YearClick(year) => s.stage == TimelineStage && Drawn(s.baselineYear, year)
    case BackToTimeline => DetailShown(s)
    case BackToUpload => NewSubjectVisible(s)
  }

  /** The page after a sequence of handler calls. */
  function Run(trace: seq<Event>): PageState {
    if trace == [] then InitialPage() else Step(Run(trace[..|trace| - 1]), trace[|trace| - 1])
  }

  /** Every handler call in the trace was one the page offered at that point. */
  predicate ValidTrace(trace: seq<Event>) {
    trace == [] || (ValidTrace(trace[..|trace| - 1]) && Enabled(Run(trace[..|trace| - 1]), trace[|trace| - 1]))
  }

  /**
   * What holds of every reachable page: the baseline is an offered year, a
   * selected year is one with an event, and the detail stage always has a
   * selected year no earlier than the baseline.
   */
  ghost predicate Inv(s: PageState) {
    && 2005 <= s.baselineYear <= 2024
    && (s.selectedYear.Some? ==> InFillRange(s.selectedYear.value))
    && (s.stage == DetailStage ==> s.selectedYear.Some? && s.baselineYear <= s.selectedYear.value)
  }

  lemma StepPreservesInv(s: PageState, e: Event)
    requires Inv(s) && Enabled(s, e)
    ensures Inv(Step(s, e))
  {
    if e.YearClick? {
      DrawnYears(s.baselineYear, e.year);
      YearEventsKeys(e.year);
    }
  }

  /** Every page reachable through offered handler calls satisfies the invariant. */
  lemma {:induction false} ReachableInv(trace: seq<Event>)
    requires ValidTrace(trace)
    ensures Inv(Run(trace))
  {
    if trace != [] {
      ReachableInv(trace[..|trace| - 1]);
      StepPreservesInv(Run(trace[..|trace| - 1]), trace[|trace| - 1]);
    }
  }

  /**
   * On a reachable page the detail stage always renders its view, handed the
   * table entry of the selected year.
   */
  lemma DetailAlwaysRenders(s: PageState)
    requires Inv(s) && s.stage == DetailStage
    ensures DetailOf(s).Some?
    ensures DetailOf(s).value.yearData.Some?
    ensures DetailOf(s).value.yearData.value.year == s.selectedYear.value
  {
    var y := s.selectedYear.value;
    LookupWellFormed(y);
    var p := DetailOf(s).value;
    assert p.year == y;
  }

  /**
   * The years-after figure of a rendered detail view is never negative: it is
   * the selected year's position in the timeline's year list.
   */
  lemma YearsAfterIsTimelineIndex(s: PageState)
    requires Inv(s) && s.stage == DetailStage
    ensures var y, b := s.selectedYear.value, s.baselineYear;
            && 0 <= YearsAfter(y, b) < |Years(b)|
            && Years(b)[YearsAfter(y, b)] == y
  {
  }

  /** On a reachable page the timeline always draws at least the year 2024. */
  lemma TimelineNeverEmpty(s: PageState)
    requires Inv(s)
    ensures |Rendered(s.baselineYear)| >= 1
    ensures Rendered(s.baselineYear)[|Rendered(s.baselineYear)| - 1].year == CurrentYear
  {
    RenderedSpec(s.baselineYear);
  }

  /** Every card the timeline draws opens a year the table has data for. */
  lemma DrawnYearsHaveData(baseline: int, y: int)
    requires Drawn(baseline, y)
    ensures Lookup(y).Some? && Lookup(y).value.year == y
  {
    DrawnYears(baseline, y);
    YearEventsKeys(y);
    LookupWellFormed(y);
  }

  /** A year click is offered in the timeline stage for every year with an event from the baseline on. */
  lemma ClickEnabled(s: PageState, y: int)
    requires s.stage == TimelineStage && InFillRange(y) && s.baselineYear <= y
    ensures Enabled(s, YearClick(y))
  {
    YearEventsKeys(y);
    DrawnYears(s.baselineYear, y);
  }

  /** Opening a year and going back returns to the same timeline, with the selection cleared. */
  lemma ClickThenBack(s: PageState, y: int)
    requires s.stage == TimelineStage
    ensures Step(Step(s, YearClick(y)), BackToTimeline) == s.(selectedYear := None)
  {
  }

  /**
   * Going back to upload resets nothing but the stage, so a year selected
   * before survives a new upload and sits, stale, beside the new baseline in
   * the timeline stage, even when it lies before that baseline.
   */
  lemma StaleSelectionSurvivesNewUpload(email: string, subj: string, b1: int, y: int, b2: int)
    requires 2005 <= b1 <= y && InFillRange(y) && 2005 <= b2 <= 2024
    ensures var trace := [UploadComplete(email, b1, subj), YearClick(y), BackToUpload, UploadComplete(email, b2, subj)];
            && ValidTrace(trace)
            && Run(trace).stage == TimelineStage
            && Run(trace).selectedYear == Some(y)
            && Run(trace).baselineYear == b2
  {
    var e1, e2, e3, e4 := UploadComplete(email, b1, subj), YearClick(y), BackToUpload, UploadComplete(email, b2, subj);
    var t1 := [] + [e1];
    var t2 := t1 + [e2];
    var t3 := t2 + [e3];
    ExtendTrace([], e1);
    ClickEnabled(Run(t1), y);
    ExtendTrace(t1, e2);
    ExtendTrace(t2, e3);
    ExtendTrace(t3, e4);
    assert t3 + [e4] == [e1, e2, e3, e4];
  }

  /** A valid trace extended by an offered handler call is valid, and ends in that call's step. */
  lemma ExtendTrace(trace: seq<Event>, e: Event)
    requires ValidTrace(trace) && Enabled(Run(trace), e)
    ensures ValidTrace(trace + [e]) && Run(trace + [e]) == Step(Run(trace), e)
  {
    assert (trace + [e])[..|trace|] == trace;
  }

  /** The page's state fields and its four handlers. */
  class CourseKeeper {
    var stage: Stage
    var selectedYear: Option<int>
    var userEmail: string
    var baselineYear: int
    var subject: string

    function State(): PageState
      reads this
    {
      PageState(stage, selectedYear, userEmail, baselineYear, subject)
    }

    /** Upload stage, nothing selected, empty email, baseline 2008, Computer Vision. */
    constructor ()
      ensures stage == UploadStage && selectedYear == None && userEmail == ""
      ensures baselineYear == 2008 && subject == "Computer Vision"
      ensures State() == InitialPage()
    {
      stage := UploadStage;
      selectedYear := None;
      userEmail := "";
      baselineYear := 2008;
      subject := "Computer Vision";
    }

    /** `handleUploadComplete`: email, baseline and subject from the form; on to the timeline; the selection stays. */
    method HandleUploadComplete(email: string, year: int, subj: string)
      modifies this
      ensures userEmail == email && baselineYear == year && subject == subj && stage == TimelineStage
      ensures selectedYear == old(selectedYear)
      ensures State() == Step(old(State()), UploadComplete(email, year, subj))
    {
      userEmail := email;
      baselineYear := year;
      subject := subj;
      stage := TimelineStage;
    }

    /** `handleYearClick`: select the year and open it; email, baseline and subject stay. */
    method HandleYearClick(year: int)
      modifies this
      ensures selectedYear == Some(year) && stage == DetailStage
      ensures userEmail == old(userEmail) && baselineYear == old(baselineYear) && subject == old(subject)
      ensures State() == Step(old(State()), YearClick(year))
    {
      selectedYear := Some(year);
      stage := DetailStage;
    }

    /** `handleBackToTimeline`: back to the timeline with the selection cleared; email, baseline and subject stay. */
    method HandleBackToTimeline()
      modifies this
      ensures stage == TimelineStage && selectedYear == None
      ensures userEmail == old(userEmail) && baselineYear == old(baselineYear) && subject == old(subject)
      ensures State() == Step(old(State()), BackToTimeline)
    {
      stage := TimelineStage;
      selectedYear := None;
    }

    /** `handleBackToUpload`: only the stage changes; baseline, subject, email and selection are kept. */
    method HandleBackToUpload()
      modifies this
      ensures stage == UploadStage
      ensures selectedYear == old(selectedYear) && userEmail == old(userEmail)
      ensures baselineYear == old(baselineYear) && subject == old(subject)
      ensures State() == Step(old(State()), BackToUpload)
    {
      stage := UploadStage;
    }
  }
}
