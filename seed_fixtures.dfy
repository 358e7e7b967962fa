/**
 * The fixed data the seed script writes: the ten baseline topics of the 2008
 * Computer Vision course and the eight fixture years with their changes and
 * papers (web/prisma/seed.ts). Rationales and URLs are kept abstract.
 */
module SeedFixtures {
  import opened YearTable

  /** One entry of `baselineTopics`. */
  datatype TopicFixture = TopicFixture(name: string, kind: string, category: string, importance: nat)

  const BaselineTopics: seq<TopicFixture> :=
    [
      TopicFixture("Edge Detection (Sobel, Canny)", "method", "Feature Detection", 9),
      TopicFixture("SIFT (Scale-Invariant Feature Transform)", "method", "Feature Detection", 10),
      TopicFixture("HOG (Histogram of Oriented Gradients)", "method", "Feature Detection", 9),
      TopicFixture("Support Vector Machines", "method", "Machine Learning", 8),
      TopicFixture("Bag of Visual Words", "concept", "Recognition", 7),
      TopicFixture("Viola-Jones Face Detection", "system", "Object Detection", 9),
      TopicFixture("Optical Flow", "concept", "Motion Analysis", 7),
      TopicFixture("Camera Calibration", "method", "Geometry", 8),
      TopicFixture("Stereo Vision", "concept", "Geometry", 7),
      TopicFixture("Image Pyramids", "concept", "Multi-scale", 6)
    ]

  /** One entry of the seed's `yearData`: the parts the seed writes. */
  datatype FixtureYear = FixtureYear(year: int, changes: seq<Change>, papers: seq<Paper>)

  const Fixture2012: FixtureYear :=
    FixtureYear(2012,
      [Change(Add, "Convolutional Neural Networks (CNNs)", ""), Change(Add, "ReLU Activation Functions", ""),
       Change(Add, "Dropout Regularization", ""), Change(Deprecate, "Hand-crafted Features", "")],
      [Paper("ImageNet Classification with Deep CNNs", "Krizhevsky et al.", "", "NIPS 2012")])

  const Fixture2014: FixtureYear :=
    FixtureYear(2014,
      [Change(Add, "Very Deep Networks (VGG)", ""), Change(Add, "Inception Modules", ""),
       Change(Emerge, "Transfer Learning", "")],
      [Paper("Very Deep Convolutional Networks", "Simonyan & Zisserman", "", "ICLR 2015"),
       Paper("Going Deeper with Convolutions", "Szegedy et al.", "", "CVPR 2015")])

  const Fixture2015: FixtureYear :=
    FixtureYear(2015,
      [Change(Add, "Residual Networks (ResNet)", ""), Change(Add, "Batch Normalization", ""),
       Change(Add, "Faster R-CNN", "")],
      [Paper("Deep Residual Learning", "He et al.", "", "CVPR 2016"),
       Paper("Faster R-CNN", "Ren et al.", "", "NIPS 2015")])

  const Fixture2017: FixtureYear :=
    FixtureYear(2017,
      [Change(Add, "Generative Adversarial Networks", ""), Change(Add, "Feature Pyramid Networks", ""),
       Change(Emerge, "Self-Attention Mechanisms", "")],
      [Paper("Attention Is All You Need", "Vaswani et al.", "", "NeurIPS 2017"),
       Paper("Progressive Growing of GANs", "Karras et al.", "", "ICLR 2018")])

  const Fixture2020: FixtureYear :=
    FixtureYear(2020,
      [Change(Add, "Vision Transformers (ViT)", ""), Change(Add, "Self-Supervised Learning", ""),
       Change(Add, "DETR Object Detection", "")],
      [Paper("An Image is Worth 16x16 Words", "Dosovitskiy et al.", "", "ICLR 2021"),
       Paper("End-to-End Object Detection with Transformers", "Carion et al.", "", "ECCV 2020")])

  const Fixture2022: FixtureYear :=
    FixtureYear(2022,
      [Change(Add, "Diffusion Models", ""), Change(Add, "CLIP Vision-Language Models", ""),
       Change(Add, "Masked Autoencoders (MAE)", "")],
      [Paper("High-Resolution Image Synthesis", "Rombach et al.", "", "CVPR 2022"),
       Paper("Learning Transferable Visual Models", "Radford et al.", "", "ICML 2021")])

  const Fixture2023: FixtureYear :=
    FixtureYear(2023,
      [Change(Add, "Segment Anything Model (SAM)", ""), Change(Add, "DINOv2 Self-Supervised ViT", ""),
       Change(Add, "ControlNet", "")],
      [Paper("Segment Anything", "Kirillov et al.", "", "ICCV 2023"),
       Paper("DINOv2: State-of-art Self-supervised", "Oquab et al.", "", "TMLR 2023")])

  const Fixture2024: FixtureYear :=
    FixtureYear(2024,
      [Change(Add, "Multimodal Large Language Models", ""), Change(Add, "Real-time Video Generation", ""),
       Change(Emerge, "Embodied AI Vision", "")],
      [Paper("Visual Instruction Tuning", "Liu et al.", "", "NeurIPS 2023"),
       Paper("Video Generation Models as Simulators", "Bruce et al.", "", "CVPR 2024")])

  /** The seed's `yearData`, in the order it is written. */
  const FixtureYears: seq<FixtureYear> :=
    [Fixture2012, Fixture2014, Fixture2015, Fixture2017,
     Fixture2020, Fixture2022, Fixture2023, Fixture2024]

  /** The number of changes over a list of fixture years. */
  function TotalChanges(fs: seq<FixtureYear>): nat {
    if fs == [] then 0 else |fs[0].changes| + TotalChanges(fs[1..])
  }

  /** The number of papers over a list of fixture years. */
  function TotalPapers(fs: seq<FixtureYear>): nat {
    if fs == [] then 0 else |fs[0].papers| + TotalPapers(fs[1..])
  }

  /** The years of a list of fixture years, in order. */
  function FixtureYearNumbers(fs: seq<FixtureYear>): (r: seq<int>)
    ensures |r| == |fs|
    ensures forall k :: 0 <= k < |fs| ==> r[k] == fs[k].year
  {
    seq(|fs|, k requires 0 <= k < |fs| => fs[k].year)
  }

  /**
   * The seed writes eight years, exactly the hand-authored years of the page's
   * table, in increasing order; 2012 has four changes and one paper, every
   * other year three changes and two papers.
   */
  lemma FixtureYearsShape()
    ensures |FixtureYears| == 8
    ensures FixtureYearNumbers(FixtureYears) == [2012, 2014, 2015, 2017, 2020, 2022, 2023, 2024]
    ensures forall k :: 0 <= k < 8 ==> FixtureYears[k].year in HandAuthoredYears()
    ensures forall k :: 0 <= k < 8 ==>
              |FixtureYears[k].changes| == (if k == 0 then 4 else 3)
              && |FixtureYears[k].papers| == (if k == 0 then 1 else 2)
  {
  }

  /** Years of three changes and two papers each add up to three and two per year. */
  lemma {:induction false} UniformTotals(fs: seq<FixtureYear>)
    requires forall k :: 0 <= k < |fs| ==> |fs[k].changes| == 3 && |fs[k].papers| == 2
    ensures TotalChanges(fs) == 3 * |fs| && TotalPapers(fs) == 2 * |fs|
  {
    if fs != [] {
      assert forall k :: 0 <= k < |fs[1..]| ==> fs[1..][k] == fs[k + 1];
      UniformTotals(fs[1..]);
    }
  }

  /** Twenty-five changes and fifteen papers in all. */
  lemma FixtureTotals()
    ensures TotalChanges(FixtureYears) == 25
    ensures TotalPapers(FixtureYears) == 15
  {
    var fs := FixtureYears;
    FixtureYearsShape();
    assert forall k :: 0 <= k < |fs[1..]| ==> fs[1..][k] == fs[k + 1];
    UniformTotals(fs[1..]);
  }

  /** Ten baseline topics, every importance between 6 and 10. */
  lemma BaselineTopicsShape()
    ensures |BaselineTopics| == 10
    ensures forall t :: t in BaselineTopics ==> 6 <= t.importance <= 10
  {
  }
}
