/**
 * The timeline view: the consecutive years from the baseline to 2024, the
 * event table that decides which of them are drawn, the left/right
 * alternation and the dot style per impact
 * (web/src/app/coursekeeper/components/Timeline.tsx).
 */
module Timeline {

  datatype Impact = Low | Medium | High | Revolutionary

  datatype YearEvent = YearEvent(impact: Impact, title: string)

  /** The last year the timeline lists. */
  const CurrentYear := 2024

  /** `yearEvents`: one headline per year, 2009 to 2024. */
  function YearEvents(): map<int, YearEvent> {
    map[
      2009 := YearEvent(Low, "Incremental improvements"),
      2010 := YearEvent(Medium, "ImageNet dataset launched"),
      2011 := YearEvent(Low, "Feature learning advances"),
      2012 := YearEvent(Revolutionary, "AlexNet Revolution! \U{1F680}"),
      2013 := YearEvent(Medium, "Deep learning spreads"),
      2014 := YearEvent(High, "VGG & GoogLeNet"),
      2015 := YearEvent(Revolutionary, "ResNet breakthrough! \U{1F3AF}"),
      2016 := YearEvent(High, "Object detection maturity"),
      2017 := YearEvent(High, "Attention mechanisms"),
      2018 := YearEvent(Medium, "EfficientNets"),
      2019 := YearEvent(Medium, "Self-supervised learning"),
      2020 := YearEvent(Revolutionary, "Vision Transformers! \U{1F504}"),
      2021 := YearEvent(High, "CLIP & multimodal"),
      2022 := YearEvent(Revolutionary, "Diffusion Models! \U{1F3A8}"),
      2023 := YearEvent(Revolutionary, "SAM & Foundation Models! \U{1F30D}"),
      2024 := YearEvent(High, "Multimodal LLMs")
    ]
  }

  /**
   * The length `Array.from` gives the year list: `currentYear - baselineYear + 1`,
   * where a negative length counts as zero.
   */
  function YearCount(baseline: int): nat {
    if CurrentYear - baseline + 1 > 0 then CurrentYear - baseline + 1 else 0
  }

  /** `years`: baseline, baseline + 1, ..., 2024. */
  function Years(baseline: int): (r: seq<int>)
    ensures |r| == YearCount(baseline)
    ensures forall i :: 0 <= i < |r| ==> r[i] == baseline + i
  {
    seq(YearCount(baseline), i => baseline + i)
  }

  /** How the year's dot on the central line is drawn. */
  datatype DotStyle = PulsingGradient | Gradient | Solid | Grey

  /** `getYearStyle`: three emphasised impacts, and the grey default for every other. */
  function YearStyle(impact: Impact): DotStyle {
    match impact
    case Revolutionary => PulsingGradient
    case High => Gradient
    case Medium => Solid
    case _ => Grey
  }

  /**
   * One drawn year: its headline, the side of the line its card is on, its dot
   * and whether it carries the "Must Learn" badge. Both the card and the dot
   * report `year` when clicked.
   */
  datatype YearCard = YearCard(year: int, title: string, isLeft: bool, style: DotStyle, mustLearn: bool)

  /** The card for the year at `index` of the year list, drawn from an event table. */
  function Card(events: map<int, YearEvent>, year: int, index: nat): YearCard
    requires year in events
  {
    var event := events[year];
    YearCard(year, event.title, index % 2 == 0, YearStyle(event.impact), event.impact == Revolutionary)
  }

  /** `years.map((year, index) => ...)` from `index` on, skipping years without an event. */
  function RenderFrom(events: map<int, YearEvent>, years: seq<int>, index: nat): seq<YearCard>
    requires index <= |years|
    decreases |years| - index
  {
    if index == |years| then []
    else if years[index] in events then [Card(events, years[index], index)] + RenderFrom(events, years, index + 1)
    else RenderFrom(events, years, index + 1)
  }

  /** The cards the timeline draws for a baseline year, top to bottom. */
  function Rendered(baseline: int): seq<YearCard> {
    RenderFrom(YearEvents(), Years(baseline), 0)
  }

  /** The first year the timeline draws: the baseline, or 2009 if that is later. */
  function FirstDrawn(baseline: int): int {
    if baseline < 2009 then 2009 else baseline
  }

  /** An event table with an entry for exactly the years 2009..2024, as `yearEvents` is. */
  ghost predicate CoversEventYears(events: map<int, YearEvent>) {
    forall y :: y in events <==> 2009 <= y <= CurrentYear
  }

  /** A year has an event exactly when it lies in 2009..2024. */
  lemma YearEventsKeys(y: int)
    ensures y in YearEvents() <==> 2009 <= y <= CurrentYear
  {
  }

  /** From any position of the year list on, the loop draws one card per year from that point (or 2009, if later) to 2024. */
  lemma {:induction false} RenderFromLength(events: map<int, YearEvent>, baseline: int, index: nat)
    requires CoversEventYears(events)
    requires index <= |Years(baseline)|
    ensures |RenderFrom(events, Years(baseline), index)|
            == if baseline + index <= CurrentYear then CurrentYear - FirstDrawn(baseline + index) + 1 else 0
    decreases |Years(baseline)| - index
  {
    var years := Years(baseline);
    if index < |years| {
      RenderFromLength(events, baseline, index + 1);
      assert years[index] == baseline + index;
    }
  }

  /** The `k`-th card drawn from a position of the year list on is the card of the `k`-th year drawn, knowing its position in the whole list. */
  lemma {:induction false} RenderFromAt(events: map<int, YearEvent>, baseline: int, index: nat, k: nat)
    requires CoversEventYears(events)
    requires index < |Years(baseline)|
    requires k < |RenderFrom(events, Years(baseline), index)|
    ensures FirstDrawn(baseline + index) + k in events
    ensures RenderFrom(events, Years(baseline), index)[k]
            == Card(events, FirstDrawn(baseline + index) + k, FirstDrawn(baseline + index) + k - baseline)
    decreases |Years(baseline)| - index
  {
    var years := Years(baseline);
    var y := years[index];
    assert y == baseline + index;
    var rest := RenderFrom(events, years, index + 1);
    if index + 1 == |years| {
      assert rest == [];
    }
    if y in events {
      assert RenderFrom(events, years, index) == [Card(events, y, index)] + rest;
      assert FirstDrawn(baseline + index) == y && FirstDrawn(baseline + (index + 1)) == y + 1;
      if k > 0 {
        RenderFromAt(events, baseline, index + 1, k - 1);
      }
    } else {
      assert RenderFrom(events, years, index) == rest;
      assert y < 2009;
      assert FirstDrawn(baseline + index) == FirstDrawn(baseline + (index + 1));
      RenderFromAt(events, baseline, index + 1, k);
    }
  }

  /**
   * From any position of the year list on, the loop draws one card per year
   * from that point (or 2009, if later) to 2024, in order, each card knowing
   * its position in the whole list.
   */
  lemma RenderFromSpec(events: map<int, YearEvent>, baseline: int, index: nat)
    requires CoversEventYears(events)
    requires index <= |Years(baseline)|
    ensures var r := RenderFrom(events, Years(baseline), index);
            var lo := FirstDrawn(baseline + index);
            && |r| == (if baseline + index <= CurrentYear then CurrentYear - lo + 1 else 0)
            && forall k :: 0 <= k < |r| ==> lo + k in events && r[k] == Card(events, lo + k, lo + k - baseline)
  {
    RenderFromLength(events, baseline, index);
    var r := RenderFrom(events, Years(baseline), index);
    forall k | 0 <= k < |r| ensures FirstDrawn(baseline + index) + k in events
      && r[k] == Card(events, FirstDrawn(baseline + index) + k, FirstDrawn(baseline + index) + k - baseline)
    {
      RenderFromAt(events, baseline, index, k);
    }
  }

  /**
   * The timeline draws exactly the years from max(baseline, 2009) to 2024, in
   * increasing order; a card is on the left exactly when its position in the
   * year list, which counts the undrawn years before 2009 too, is even.
   */
  lemma RenderedSpec(baseline: int)
    ensures var r := Rendered(baseline);
            var lo := FirstDrawn(baseline);
            && |r| == (if baseline <= CurrentYear then CurrentYear - lo + 1 else 0)
            && forall k :: 0 <= k < |r| ==>
                 && r[k].year == lo + k
                 && r[k].year in YearEvents()
                 && r[k].isLeft == ((r[k].year - baseline) % 2 == 0)
                 && r[k].style == YearStyle(YearEvents()[r[k].year].impact)
                 && (r[k].mustLearn <==> YearEvents()[r[k].year].impact == Revolutionary)
  {
    forall y ensures y in YearEvents() <==> 2009 <= y <= CurrentYear {
      YearEventsKeys(y);
    }
    CardsSpec(YearEvents(), baseline);
  }

  /** `RenderedSpec` for any event table that covers 2009..2024. */
  lemma CardsSpec(events: map<int, YearEvent>, baseline: int)
    requires CoversEventYears(events)
    ensures var r := RenderFrom(events, Years(baseline), 0);
            var lo := FirstDrawn(baseline);
            && |r| == (if baseline <= CurrentYear then CurrentYear - lo + 1 else 0)
            && forall k :: 0 <= k < |r| ==>
                 && r[k].year == lo + k
                 && r[k].year in events
                 && r[k].isLeft == ((r[k].year - baseline) % 2 == 0)
                 && r[k].style == YearStyle(events[r[k].year].impact)
                 && (r[k].mustLearn <==> events[r[k].year].impact == Revolutionary)
  {
    RenderFromSpec(events, baseline, 0);
  }

  /** A year is drawn exactly when it has an event and is not before the baseline. */
  lemma DrawnYears(baseline: int, y: int)
    ensures (exists k :: 0 <= k < |Rendered(baseline)| && Rendered(baseline)[k].year == y)
        <==> (y in YearEvents() && baseline <= y)
  {
    RenderedSpec(baseline);
    YearEventsKeys(y);
    var lo := FirstDrawn(baseline);
    if y in YearEvents() && baseline <= y {
      assert Rendered(baseline)[y - lo].year == y;
    }
  }

  /**
   * A baseline before the first event puts undrawn years at the head of the
   * year list: the timeline draws all sixteen events, and the first card,
   * 2009, is on the left exactly when the baseline lies an even number of
   * years before it. With the default baseline 2008 it is on the right.
   */
  lemma EarlyBaselineFirstCard(baseline: int)
    requires baseline < 2009
    ensures |Rendered(baseline)| == 16 && Rendered(baseline)[0].year == 2009
    ensures Rendered(baseline)[0].isLeft <==> (2009 - baseline) % 2 == 0
  {
    RenderedSpec(baseline);
  }

  /** The three emphasised impacts get three distinct dots; every other impact gets the grey one. */
  lemma YearStyleDistinct(a: Impact, b: Impact)
    ensures YearStyle(a) == Grey <==> a == Low
    ensures a != b && YearStyle(a) == YearStyle(b) ==> a == Low && b == Low
  {
  }
}
