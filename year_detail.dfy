/**
 * The detail view of one year: the icon per change type, the tabs and their
 * count badges, the personalised learning path and the recommended resource
 * (web/src/app/coursekeeper/components/YearDetail.tsx).
 */
module YearDetail {
  import opened Wrappers
  import opened YearTable

  /** The change type as the data carries it: `'ADD' | 'DEPRECATE' | 'EMERGE' | 'RENAME'`. */
  function KindName(k: ChangeType): string {
    match k
    case Add => "ADD"
    case Deprecate => "DEPRECATE"
    case Emerge => "EMERGE"
    case Rename => "RENAME"
  }

  /** The glyphs `getChangeIcon` can return; `Pin` is its default. */
  datatype Icon = Sparkles | WarningSign | Seedling | Cycle | Pin

  /** `getChangeIcon`: a switch over the type string with a default case. */
  function ChangeIcon(kind: string): Icon {
    if kind == "ADD" then Sparkles
    else if kind == "DEPRECATE" then WarningSign
    else if kind == "EMERGE" then Seedling
    else if kind == "RENAME" then Cycle
    else Pin
  }

  /** The four change types get four different icons, none of them the default. */
  lemma ChangeIconsDistinct(a: ChangeType, b: ChangeType)
    ensures ChangeIcon(KindName(a)) != Pin
    ensures ChangeIcon(KindName(a)) == ChangeIcon(KindName(b)) <==> a == b
  {
  }

  /** Any string that names no change type falls to the default icon. */
  lemma ChangeIconDefault(kind: string)
    requires forall k: ChangeType :: kind != KindName(k)
    ensures ChangeIcon(kind) == Pin
  {
    assert kind != KindName(Add) && kind != KindName(Deprecate);
    assert kind != KindName(Emerge) && kind != KindName(Rename);
  }

  /** The years-after figure in the header. */
  function YearsAfter(year: int, baselineYear: int): int {
    year - baselineYear
  }

  // ---------------------------------------------------------------------------
  // Tabs
  // ---------------------------------------------------------------------------

  datatype TabId = SummaryTab | PapersTab | VideosTab | DeltaTab

  /** A tab and its count; the summary and delta tabs have the count `null`. */
  datatype Tab = Tab(id: TabId, count: Option<nat>)

  /** The four tabs in display order. */
  function Tabs(d: YearData): (r: seq<Tab>)
    ensures |r| == 4
  {
    [Tab(SummaryTab, None), Tab(PapersTab, Some(|d.papers|)),
     Tab(VideosTab, Some(|d.videos|)), Tab(DeltaTab, None)]
  }

  /** What appears beside a tab's label. */
  datatype CountSlot = Nothing | Badge(n: nat) | StrayZero

  /**
   * `{tab.count && <span>...}` as written: `null` is falsy and renders nothing,
   * but a count of 0 is falsy and is itself the value of the expression, and
   * React renders the number 0 as text.
   */
  function CountSlotAsWritten(count: Option<nat>): (r: CountSlot)
    ensures r.Badge? <==> count.Some? && count.value > 0
    ensures r == StrayZero <==> count == Some(0)
  {
    match count
    case None => Nothing
    case Some(n) => if n == 0 then StrayZero else Badge(n)
  }

  /** The evidently intended slot: a badge for a positive count and nothing otherwise. */
  function CountSlotOf(count: Option<nat>): (r: CountSlot)
    ensures r != StrayZero
    ensures r.Badge? <==> count.Some? && count.value > 0
    ensures r.Badge? ==> r.n == count.value
  {
    if count.Some? && count.value > 0 then Badge(count.value) else Nothing
  }

  /** A year with no papers shows a stray "0" beside the papers tab. */
  lemma EmptyPapersShowStrayZero(d: YearData)
    requires d.papers == []
    ensures CountSlotAsWritten(Tabs(d)[1].count) == StrayZero
    ensures CountSlotOf(Tabs(d)[1].count) == Nothing
  {
  }

  /**
   * The tabs, their counts and their badges: papers and videos count their
   * lists, summary and delta have no count, and a badge shows exactly for a
   * non-empty list.
   */
  lemma TabsSpec(d: YearData)
    ensures [Tabs(d)[0].id, Tabs(d)[1].id, Tabs(d)[2].id, Tabs(d)[3].id]
         == [SummaryTab, PapersTab, VideosTab, DeltaTab]
    ensures Tabs(d)[1].count == Some(|d.papers|) && Tabs(d)[2].count == Some(|d.videos|)
    ensures Tabs(d)[0].count.None? && Tabs(d)[3].count.None?
    ensures forall i :: 0 <= i < 4 ==>
              (CountSlotOf(Tabs(d)[i].count).Badge? <==>
                 (i == 1 && |d.papers| > 0) || (i == 2 && |d.videos| > 0))
    ensures forall i :: 0 <= i < 4 ==>
              (CountSlotAsWritten(Tabs(d)[i].count).Badge? <==>
                 (i == 1 && |d.papers| > 0) || (i == 2 && |d.videos| > 0))
    ensures forall i :: 0 <= i < 4 ==>
              (CountSlotAsWritten(Tabs(d)[i].count) == StrayZero <==>
                 (i == 1 && |d.papers| == 0) || (i == 2 && |d.videos| == 0))
  {
  }

  /** The written and the intended slots agree on every tab of a year. */
  predicate SlotsAgree(d: YearData) {
    forall i :: 0 <= i < 4 ==> CountSlotAsWritten(Tabs(d)[i].count) == CountSlotOf(Tabs(d)[i].count)
  }

  /** Where both lists are non-empty the written and the intended badges agree. */
  lemma SlotsAgreeWhenNonEmpty(d: YearData)
    requires |d.papers| > 0 && |d.videos| > 0
    ensures SlotsAgree(d)
  {
  }

  /** Every year of the table has papers and videos, so the stray zero never shows there. */
  lemma CountSlotsAgreeOnTable(y: int)
    requires y in MockYearData()
    ensures SlotsAgree(MockYearData()[y])
  {
    MockYearDataWellFormed(y);
    SlotsAgreeWhenNonEmpty(MockYearData()[y]);
  }

  // ---------------------------------------------------------------------------
  // Learning path
  // ---------------------------------------------------------------------------

  /** `c.type === 'ADD' || c.type === 'EMERGE'`. */
  predicate Learnable(c: Change) {
    c.kind == Add || c.kind == Emerge
  }

  /**
   * `changes.filter(...)`: the learnable changes in their original order; it
   * keeps exactly the learnable changes and never lengthens the list.
   */
  function LearnableChanges(cs: seq<Change>): (r: seq<Change>)
    ensures |r| <= |cs|
    ensures forall c {:trigger c in r} :: c in r <==> c in cs && Learnable(c)
  {
    if cs == [] then []
    else
      assert cs == [cs[0]] + cs[1..];
      (if Learnable(cs[0]) then [cs[0]] else []) + LearnableChanges(cs[1..])
  }

  /** Filtering distributes over concatenation. */
  lemma {:induction false} LearnableChangesAppend(a: seq<Change>, b: seq<Change>)
    ensures LearnableChanges(a + b) == LearnableChanges(a) + LearnableChanges(b)
  {
    if a != [] {
      var head := if Learnable(a[0]) then [a[0]] else [];
      assert (a + b)[0] == a[0];
      assert (a + b)[1..] == a[1..] + b;
      LearnableChangesAppend(a[1..], b);
      calc {
        LearnableChanges(a + b);
        head + LearnableChanges(a[1..] + b);
        head + (LearnableChanges(a[1..]) + LearnableChanges(b));
        (head + LearnableChanges(a[1..])) + LearnableChanges(b);
      }
    } else {
      assert a + b == b;
    }
  }

  /** The filter returns its input unchanged exactly when every change is learnable. */
  lemma {:induction false} LearnableChangesIdentity(cs: seq<Change>)
    ensures |LearnableChanges(cs)| == |cs| ==> forall c :: c in cs ==> Learnable(c)
    ensures (forall c :: c in cs ==> Learnable(c)) ==> LearnableChanges(cs) == cs
  {
    if cs != [] {
      LearnableChangesIdentity(cs[1..]);
    }
  }

  /** The longest the learning path gets: `.slice(0, 3)`. */
  const MaxPathLength := 3

  /** One line of the learning path: its rank, the change and the estimated hours. */
  datatype PathItem = PathItem(rank: nat, change: Change, hours: nat)

  /** The learning path: the first three learnable changes, the i-th estimated at 2+i hours. */
  function LearningPath(cs: seq<Change>): seq<PathItem> {
    var l := LearnableChanges(cs);
    var n := if |l| < MaxPathLength then |l| else MaxPathLength;
    seq(n, i requires 0 <= i < n => PathItem(i + 1, l[i], 2 + i))
  }

  /**
   * The path holds at most three items, taken in order as a prefix of the
   * learnable changes, each a learnable change of the year, numbered from 1
   * and estimated at 2 + i hours; it is shorter than three only when the year
   * has fewer learnable changes.
   */
  lemma LearningPathSpec(cs: seq<Change>)
    ensures var p := LearningPath(cs);
            var l := LearnableChanges(cs);
            && |p| <= MaxPathLength
            && (|p| < MaxPathLength ==> |p| == |l|)
            && (forall i :: 0 <= i < |p| ==> p[i].change == l[i])
            && (forall i :: 0 <= i < |p| ==> p[i].change in cs && Learnable(p[i].change))
            && (forall i :: 0 <= i < |p| ==> p[i].rank == i + 1 && p[i].hours == 2 + i)
  {
    var l := LearnableChanges(cs);
    var p := LearningPath(cs);
    forall i | 0 <= i < |p| ensures p[i].change in cs && Learnable(p[i].change) {
      assert p[i].change == l[i] && l[i] in l;
    }
  }

  /** A filler year's learning path is exactly its ADD change then its EMERGE change, at 2 and 3 hours. */
  lemma FillerLearningPath(y: nat)
    ensures var p := LearningPath(Filler(y).changes);
            && |p| == 2
            && (forall i :: 0 <= i < 2 ==> p[i].change == Filler(y).changes[i])
            && p[0].change.kind == Add && p[1].change.kind == Emerge
            && p[0].hours == 2 && p[1].hours == 3
  {
    var cs := Filler(y).changes;
    assert cs == [cs[0]] + [cs[1]];
    LearnableChangesAppend([cs[0]], [cs[1]]);
  }

  // ---------------------------------------------------------------------------
  // Recommended resource
  // ---------------------------------------------------------------------------

  /** `changes[0]?.title`: the first change's title, or nothing for a year without changes. */
  function RecommendedTopic(cs: seq<Change>): (r: Option<string>)
    ensures r.None? <==> cs == []
    ensures r.Some? ==> exists c :: c in cs && c.title == r.value
    ensures r.Some? ==> r.value == cs[0].title
  {
    if cs == [] then None else Some(cs[0].title)
  }

  /** Every year of the table names a recommended topic. */
  lemma TableYearsRecommend(y: int)
    requires y in MockYearData()
    ensures RecommendedTopic(MockYearData()[y].changes).Some?
  {
    MockYearDataWellFormed(y);
  }

  // ---------------------------------------------------------------------------
  // View state
  // ---------------------------------------------------------------------------

  /** The view's two state fields: the open tab and the "Sent!" flag of the email button. */
  class DetailView {
    var activeTab: TabId
    var emailSent: bool

    /** The view opens on the summary tab, with nothing sent. */
    constructor ()
      ensures activeTab == SummaryTab && !emailSent
    {
      activeTab := SummaryTab;
      emailSent := false;
    }

    /** Clicking a tab opens it and touches nothing else. */
    method SelectTab(id: TabId)
      modifies this
      ensures activeTab == id && emailSent == old(emailSent)
    {
      activeTab := id;
    }

    /** `handleEmailReport`: the button shows "Sent!"; the open tab stays. */
    method EmailReport()
      modifies this
      ensures emailSent && activeTab == old(activeTab)
    {
      emailSent := true;
    }
  }
}
