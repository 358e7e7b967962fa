/**
 * The year-by-year "patch notes" table the timeline and the detail view read:
 * eight hand-authored years, completed by a loop that fills every other year
 * from 2009 to 2024 with a generated record (web/src/app/coursekeeper/data/mockData.ts).
 */
module YearTable {
  import opened Wrappers
  import opened Decimal

  /** The kinds of change a year can list. */
  datatype ChangeType = Add | Deprecate | Emerge | Rename

  datatype Change = Change(kind: ChangeType, title: string, rationale: string)

  datatype Paper = Paper(title: string, authors: string, url: string, venue: string)

  datatype Video = Video(title: string, url: string, channel: string)

  /** One year's patch notes, as the detail view renders them. */
  datatype YearData = YearData(
    year: int,
    summary: string,
    description: string,
    changes: seq<Change>,
    papers: seq<Paper>,
    videos: seq<Video>)

  /** The first and last year the fill loop visits. */
  const FirstYear := 2009
  const LastYear := 2024

  predicate InFillRange(y: int) {
    FirstYear <= y <= LastYear
  }


  /** The years written out by hand in the table literal. */
  function HandAuthoredYears(): set<int> {
    {2012, 2014, 2015, 2017, 2020, 2022, 2023, 2024}
  }

  /**
   * The eight hand-authored entries, with their summaries, change kinds and
   * titles, paper titles and venues, and video titles and channels; the
   * descriptions, rationales, authors and URLs are left empty.
   */
  const Entry2012: YearData :=
    YearData(2012, "The Deep Learning Revolution Begins",
      "",
      [ Change(Add, "Convolutional Neural Networks (CNNs)", ""),
        Change(Add, "ReLU Activation Functions", ""),
        Change(Add, "Dropout Regularization", ""),
        Change(Deprecate, "Hand-crafted Features (SIFT, HOG)", "") ],
      [ Paper("ImageNet Classification with Deep CNNs", "", "", "NIPS 2012"),
        Paper("Improving neural networks by preventing co-adaptation", "", "", "arXiv 2012") ],
      [ Video("How CNNs Work - AlexNet Explained", "", "Two Minute Papers"),
        Video("The Deep Learning Revolution", "", "Lex Fridman") ])

  const Entry2014: YearData :=
    YearData(2014, "Going Deeper with Convolutions",
      "",
      [ Change(Add, "Very Deep Networks (VGG)", ""),
        Change(Add, "Inception Modules", ""),
        Change(Emerge, "Transfer Learning", ""),
        Change(Add, "R-CNN for Object Detection", "") ],
      [ Paper("Very Deep Convolutional Networks", "", "", "ICLR 2015"),
        Paper("Going Deeper with Convolutions", "", "", "CVPR 2015"),
        Paper("Rich feature hierarchies for object detection", "", "", "CVPR 2014") ],
      [ Video("VGG Architecture Explained", "", "DeepLearning.AI"),
        Video("GoogLeNet and Inception", "", "Stanford CS231n") ])

  const Entry2015: YearData :=
    YearData(2015, "The Residual Revolution",
      "",
      [ Change(Add, "Residual Networks (ResNet)", ""),
        Change(Add, "Batch Normalization", ""),
        Change(Add, "Faster R-CNN", ""),
        Change(Emerge, "Highway Networks", "") ],
      [ Paper("Deep Residual Learning", "", "", "CVPR 2016"),
        Paper("Batch Normalization", "", "", "ICML 2015"),
        Paper("Faster R-CNN", "", "", "NIPS 2015") ],
      [ Video("ResNet Explained", "", "Yannic Kilcher"),
        Video("Why ResNets Work", "", "Andrew Ng") ])

  const Entry2017: YearData :=
    YearData(2017, "Attention Mechanisms Emerge",
      "",
      [ Change(Add, "Feature Pyramid Networks", ""),
        Change(Add, "Mask R-CNN", ""),
        Change(Emerge, "Self-Attention in Vision", ""),
        Change(Add, "MobileNets", "") ],
      [ Paper("Attention Is All You Need", "", "", "NeurIPS 2017"),
        Paper("Feature Pyramid Networks", "", "", "CVPR 2017"),
        Paper("Mask R-CNN", "", "", "ICCV 2017") ],
      [ Video("Transformer Architecture", "", "3Blue1Brown"),
        Video("Instance Segmentation Explained", "", "Computer Vision Foundation") ])

  const Entry2020: YearData :=
    YearData(2020, "Vision Transformers Challenge CNN Dominance",
      "",
      [ Change(Add, "Vision Transformers (ViT)", ""),
        Change(Add, "Self-Supervised Learning (BYOL, SwAV)", ""),
        Change(Add, "DETR Object Detection", ""),
        Change(Emerge, "Contrastive Learning", "") ],
      [ Paper("An Image is Worth 16x16 Words", "", "", "ICLR 2021"),
        Paper("End-to-End Object Detection with Transformers", "", "", "ECCV 2020"),
        Paper("Bootstrap Your Own Latent", "", "", "NeurIPS 2020") ],
      [ Video("Vision Transformer Explained", "", "AI Coffee Break"),
        Video("DETR: A New Era in Object Detection", "", "Facebook AI") ])

  const Entry2022: YearData :=
    YearData(2022, "Diffusion Models and CLIP Transform Generation",
      "",
      [ Change(Add, "Diffusion Models (Stable Diffusion)", ""),
        Change(Add, "CLIP Vision-Language Models", ""),
        Change(Add, "Masked Autoencoders (MAE)", ""),
        Change(Deprecate, "Traditional GANs", "") ],
      [ Paper("High-Resolution Image Synthesis with Latent Diffusion", "", "", "CVPR 2022"),
        Paper("Learning Transferable Visual Models From Natural Language", "", "", "ICML 2021"),
        Paper("Masked Autoencoders Are Scalable Vision Learners", "", "", "CVPR 2022") ],
      [ Video("Stable Diffusion Explained", "", "Computerphile"),
        Video("CLIP: Connecting Text and Images", "", "OpenAI") ])

  const Entry2023: YearData :=
    YearData(2023, "Segment Anything and Foundation Models",
      "",
      [ Change(Add, "Segment Anything Model (SAM)", ""),
        Change(Add, "DINOv2 Self-Supervised ViT", ""),
        Change(Add, "ControlNet", ""),
        Change(Emerge, "Multimodal Foundation Models", "") ],
      [ Paper("Segment Anything", "", "", "ICCV 2023"),
        Paper("DINOv2: Learning Robust Visual Features without Supervision", "", "", "TMLR 2023"),
        Paper("Adding Conditional Control to Text-to-Image Diffusion Models", "", "", "ICCV 2023") ],
      [ Video("SAM: Segmenting Anything", "", "Meta AI"),
        Video("Foundation Models in Computer Vision", "", "Stanford HAI") ])

  const Entry2024: YearData :=
    YearData(2024, "Multimodal AI and Real-time Vision",
      "",
      [ Change(Add, "Multimodal Large Language Models", ""),
        Change(Add, "Real-time Video Generation", ""),
        Change(Emerge, "Embodied AI Vision", ""),
        Change(Add, "Efficient Vision Models", "") ],
      [ Paper("Visual Instruction Tuning", "", "", "NeurIPS 2023"),
        Paper("GPT-4 Technical Report", "", "", "arXiv 2023"),
        Paper("Gemini: A Family of Highly Capable Multimodal Models", "", "", "arXiv 2024") ],
      [ Video("GPT-4V Capabilities Demo", "", "OpenAI"),
        Video("The Future of Computer Vision", "", "CVPR 2024") ])

  /** The table literal, before the fill loop runs. */
  const HandAuthored: map<int, YearData> :=
    map[2012 := Entry2012, 2014 := Entry2014, 2015 := Entry2015, 2017 := Entry2017,
        2020 := Entry2020, 2022 := Entry2022, 2023 := Entry2023, 2024 := Entry2024]

  /** The table literal has exactly the eight hand-authored years as keys. */
  lemma HandAuthoredKeys()
    ensures HandAuthored.Keys == HandAuthoredYears()
    ensures forall y :: y in HandAuthored ==> InFillRange(y)
  {
  }

  /** The fixed texts of the generated record. */
  const FillerSummary := "Incremental improvements in computer vision"
  const FillerDescription := "Various improvements in existing techniques and optimization methods."
  const FillerChanges := [
    Change(Add, "New optimization technique", "Improved training efficiency"),
    Change(Emerge, "Experimental approach", "Shows promise for future development") ]
  const FillerPaperTitle := "Computer Vision Research "
  const FillerVenue := "CVPR "
  const FillerVideoTitle := "Year "
  const FillerVideoSuffix := " in Review"
  const FillerAuthors := "Various"
  const FillerUrl := "#"
  const FillerChannel := "AI Research"

  /** The generated record the fill loop stores under a year that has none. */
  function Filler(year: nat): YearData {
    YearData(year, FillerSummary, FillerDescription, FillerChanges,
      [ Paper(FillerPaperTitle + NatToString(year), FillerAuthors, FillerUrl, FillerVenue + NatToString(year)) ],
      [ Video(FillerVideoTitle + NatToString(year) + FillerVideoSuffix, FillerUrl, FillerChannel) ])
  }

  /**
   * The table once every year of the fill range has an entry: entries already
   * present are kept as they are, missing years get their filler, and no other
   * key appears.
   */
  function Completed(table: map<int, YearData>): (r: map<int, YearData>)
    ensures forall y :: InFillRange(y) ==> y in r
    ensures forall y :: y in table ==> y in r && r[y] == table[y]
    ensures forall y :: y in r ==> y in table || InFillRange(y)
    ensures forall y :: y in r && y !in table ==> y >= 0 && r[y] == Filler(y)
  {
    (map y | FirstYear <= y <= LastYear :: Filler(y)) + table
  }

  /**
   * Any table that keeps the old entries, adds a filler under exactly the
   * missing years of 2009..2024 and nothing else, is the completed table.
   */
  lemma CompletedCharacterized(table: map<int, YearData>, t: map<int, YearData>)
    requires forall y :: y in t <==> y in table || InFillRange(y)
    requires forall y :: y in table ==> t[y] == table[y]
    requires forall y :: y in t && y !in table ==> y >= 0 && t[y] == Filler(y)
    ensures t == Completed(table)
  {
    var want := Completed(table);
    assert forall y :: y in t <==> y in want;
    assert forall y :: y in t ==> t[y] == want[y];
  }

  /** `mockYearData` as every importer sees it: the literal after the fill loop. */
  function MockYearData(): map<int, YearData> {
    Completed(HandAuthored)
  }

  /** `mockYearData[year]`: the record for a year, `undefined` (None) for a year without one. */
  function Lookup(year: int): Option<YearData> {
    if year in MockYearData() then Some(MockYearData()[year]) else None
  }

  /**
   * The object behind `mockYearData`: the table literal, then updated in place
   * by the module's fill loop.
   */
  class MockTable {
    var entries: map<int, YearData>

    constructor ()
      ensures entries == HandAuthored
    {
      entries := HandAuthored;
    }

    /** The loop over 2009..2024 that stores a filler under each year without an entry. */
    method FillMissingYears()
      modifies this
      ensures entries == Completed(old(entries))
    {
      var year := FirstYear;
      while year <= LastYear
        invariant FirstYear <= year <= LastYear + 1
        invariant forall y :: y in entries <==> y in old(entries) || FirstYear <= y < year
        invariant forall y :: y in old(entries) ==> entries[y] == old(entries)[y]
        invariant forall y :: y in entries && y !in old(entries) ==> y >= 0 && entries[y] == Filler(y)
      {
        if year !in entries {
          entries := entries[year := Filler(year)];
        }
        year := year + 1;
      }
      CompletedCharacterized(old(entries), entries);
    }
  }

  /** Every hand-authored entry carries its own key as `year`, four changes and two videos. */
  lemma HandAuthoredShape(y: int)
    requires y in HandAuthoredYears()
    ensures HandAuthored[y].year == y
    ensures |HandAuthored[y].changes| == 4 && |HandAuthored[y].videos| == 2
    ensures |HandAuthored[y].papers| == if y == 2012 then 2 else 3
  {
  }

  /** A filler carries its key as `year`, an ADD then an EMERGE change, one paper and one video. */
  lemma FillerShape(y: nat)
    ensures Filler(y).year == y
    ensures |Filler(y).changes| == 2
    ensures Filler(y).changes[0].kind == Add && Filler(y).changes[1].kind == Emerge
    ensures |Filler(y).papers| == 1 && |Filler(y).videos| == 1
  {
  }

  /** The year can be read back from a filler's paper venue ("CVPR <year>"). */
  lemma {:induction false} FillerVenueNamesYear(y: nat)
    ensures |Filler(y).papers[0].venue| > 5
    ensures ParseInt(Filler(y).papers[0].venue[5..]) == Some(y)
  {
    var v := Filler(y).papers[0].venue;
    assert v[5..] == NatToString(y);
    ParseIntOfNatToString(y);
  }

  /** Fillers for different years differ in paper title, paper venue and video title. */
  lemma {:induction false} FillerTextsDistinct(y1: nat, y2: nat)
    requires y1 != y2
    ensures Filler(y1).papers[0].title != Filler(y2).papers[0].title
    ensures Filler(y1).papers[0].venue != Filler(y2).papers[0].venue
    ensures Filler(y1).videos[0].title != Filler(y2).videos[0].title
  {
    var s1, s2 := NatToString(y1), NatToString(y2);
    NatToStringInjective(y1, y2);
    var p1, p2 := Filler(y1).papers[0], Filler(y2).papers[0];
    assert p1.title[25..] == s1 && p2.title[25..] == s2;
    assert p1.venue[5..] == s1 && p2.venue[5..] == s2;
    var w1, w2 := Filler(y1).videos[0].title, Filler(y2).videos[0].title;
    assert w1[5..|w1| - 10] == s1 && w2[5..|w2| - 10] == s2;
  }

  /** After the fill loop the table's keys are exactly the years 2009..2024. */
  lemma MockYearDataKeys()
    ensures forall y :: y in MockYearData() <==> InFillRange(y)
  {
    HandAuthoredKeys();
    CompletedKeys(HandAuthored);
  }

  /** Completing a table whose years all lie in 2009..2024 gives exactly the years 2009..2024. */
  lemma CompletedKeys(table: map<int, YearData>)
    requires forall y :: y in table ==> InFillRange(y)
    ensures forall y :: y in Completed(table) <==> InFillRange(y)
  {
  }

  /**
   * `mockYearData[year]` is defined exactly for 2009..2024: the hand-authored
   * record for the eight hand-authored years, the filler for every other year.
   */
  lemma LookupSpec(year: int)
    ensures Lookup(year).Some? <==> InFillRange(year)
    ensures year in HandAuthoredYears() ==> Lookup(year) == Some(HandAuthored[year])
    ensures InFillRange(year) && year !in HandAuthoredYears() ==> Lookup(year) == Some(Filler(year))
  {
    MockYearDataKeys();
  }

  /**
   * Every entry of the completed table carries its own key as `year` and has
   * at least two changes, one paper and one video.
   */
  lemma {:induction false} MockYearDataWellFormed(y: int)
    requires y in MockYearData()
    ensures MockYearData()[y].year == y
    ensures |MockYearData()[y].changes| >= 2
    ensures |MockYearData()[y].papers| >= 1 && |MockYearData()[y].videos| >= 1
  {
    if y in HandAuthoredYears() {
      HandAuthoredShape(y);
    } else {
      FillerShape(y);
    }
  }

  /** Looking up a year of 2009..2024 gives a record for that year with changes, papers and videos. */
  lemma LookupWellFormed(y: int)
    requires InFillRange(y)
    ensures Lookup(y).Some?
    ensures Lookup(y).value.year == y
    ensures |Lookup(y).value.changes| >= 2
    ensures |Lookup(y).value.papers| >= 1 && |Lookup(y).value.videos| >= 1
  {
    MockYearDataKeys();
    MockYearDataWellFormed(y);
  }
}
