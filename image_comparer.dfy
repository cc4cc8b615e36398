/**
 * The comparer helpers of the image-comparison test utilities: the factories for the
 * tolerant comparer and the extension methods that compare whole images. The frame-level
 * comparison itself belongs to the concrete comparer and is a parameter here.
 */
module ImageComparison {
  import opened Wrappers

  /** A `TolerantImageComparer`, by the two numbers it is built from. */
  datatype ImageComparer = TolerantImageComparer(imageThreshold: real, perPixelManhattanThreshold: int)

  /**
   * The result of comparing two frames. It is empty when no pixel differs by more than
   * the per-pixel threshold.
   */
  datatype SimilarityReport<D> = SimilarityReport(differences: seq<D>)
  {
    predicate IsEmpty() { |differences| == 0 }
  }

  /** An image: its root frame followed by its other frames. */
  datatype Image<F> = Image(rootFrame: F, otherFrames: seq<F>)
  {
    function Frames(): (fs: seq<F>)
      ensures |fs| == |otherFrames| + 1 && fs[0] == rootFrame
      ensures fs[1..] == otherFrames
    {
      [rootFrame] + otherFrames
    }
  }

  /** A frame-level comparison, as the concrete comparer implements it. */
  type FrameComparison<!F, D> = (ImageComparer, F, F) -> SimilarityReport<D>

  /** `Tolerant`: a tolerant comparer; the per-pixel threshold is 0 unless given. */
  function Tolerant(imageThreshold: real, perPixelManhattanThreshold: int := 0): (c: ImageComparer)
    ensures c.imageThreshold == imageThreshold
    ensures c.perPixelManhattanThreshold == perPixelManhattanThreshold
  {
    TolerantImageComparer(imageThreshold, perPixelManhattanThreshold)
  }

  /** `Exact`: tolerates nothing, neither in the image nor per pixel. */
  function Exact(): (c: ImageComparer)
    ensures c.imageThreshold == 0.0 && c.perPixelManhattanThreshold == 0
  {
    Tolerant(0.0, 0)
  }

  /** `TolerantPercentage`: the image threshold given in percent. */
  function TolerantPercentage(imageThresholdInPercents: real, perPixelManhattanThreshold: int := 0): (c: ImageComparer)
    ensures c.imageThreshold * 100.0 == imageThresholdInPercents
    ensures c.perPixelManhattanThreshold == perPixelManhattanThreshold
  {
    Tolerant(imageThresholdInPercents / 100.0, perPixelManhattanThreshold)
  }

  /** The factories agree: `Exact` is `Tolerant(0)`, and percentages scale by a hundred. */
  lemma FactoryRelations(p: real, t: int)
    ensures Exact() == Tolerant(0.0)
    ensures TolerantPercentage(p, t) == Tolerant(p / 100.0, t)
    ensures TolerantPercentage(p) == Tolerant(p / 100.0, 0)
    ensures TolerantPercentage(0.0) == Exact()
  {
  }

  /** The image-level `CompareImagesOrFrames`: the two root frames are compared. */
  function CompareImagesOrFrames<F, D>(comparer: ImageComparer, compareFrames: FrameComparison<F, D>,
                                       expected: Image<F>, actual: Image<F>): (r: SimilarityReport<D>)
    ensures r == compareFrames(comparer, expected.Frames()[0], actual.Frames()[0])
  {
    compareFrames(comparer, expected.rootFrame, actual.rootFrame)
  }

  /** The reports of the first `n` frame pairs, frame by frame. */
  function FrameReports<F, D>(comparer: ImageComparer, compareFrames: FrameComparison<F, D>,
                              expected: seq<F>, actual: seq<F>, n: nat): (rs: seq<SimilarityReport<D>>)
    requires n <= |expected| && n <= |actual|
    ensures |rs| == n
    ensures forall i :: 0 <= i < n ==> rs[i] == compareFrames(comparer, expected[i], actual[i])
  {
    seq(n, i requires 0 <= i < n => compareFrames(comparer, expected[i], actual[i]))
  }

  /** The non-empty reports among `rs`, in their order. */
  function NonEmpty<D>(rs: seq<SimilarityReport<D>>): (kept: seq<SimilarityReport<D>>)
    ensures |kept| <= |rs|
  {
    if |rs| == 0 then []
    else NonEmpty(rs[..|rs| - 1]) + (if rs[|rs| - 1].IsEmpty() then [] else [rs[|rs| - 1]])
  }

  /** The indices of the non-empty reports among `rs`, in increasing order. */
  function NonEmptyIndices<D>(rs: seq<SimilarityReport<D>>): (ix: seq<nat>)
    ensures forall k :: 0 <= k < |ix| ==> ix[k] < |rs|
  {
    if |rs| == 0 then []
    else NonEmptyIndices(rs[..|rs| - 1]) + (if rs[|rs| - 1].IsEmpty() then [] else [|rs| - 1])
  }

  /**
   * The indices increase strictly, every index is that of a non-empty report, and every
   * non-empty report's index is among them.
   */
  lemma {:induction false} NonEmptyIndicesExact<D>(rs: seq<SimilarityReport<D>>)
    ensures var ix := NonEmptyIndices(rs);
      && (forall k :: 0 <= k < |ix| ==> !rs[ix[k]].IsEmpty())
      && (forall k, l :: 0 <= k < l < |ix| ==> ix[k] < ix[l])
      && (forall i :: 0 <= i < |rs| && !rs[i].IsEmpty() ==> i in ix)
  {
    if |rs| > 0 {
      var init := rs[..|rs| - 1];
      NonEmptyIndicesExact(init);
      assert forall i :: 0 <= i < |init| ==> init[i] == rs[i];
    }
  }

  /** The `k`-th kept report is the report at the `k`-th non-empty index. */
  lemma {:induction false} NonEmptyAtIndices<D>(rs: seq<SimilarityReport<D>>)
    ensures var kept, ix := NonEmpty(rs), NonEmptyIndices(rs);
      |kept| == |ix| && forall k :: 0 <= k < |ix| ==> kept[k] == rs[ix[k]]
  {
    if |rs| > 0 {
      var init := rs[..|rs| - 1];
      NonEmptyAtIndices(init);
      assert forall i :: 0 <= i < |init| ==> init[i] == rs[i];
    }
  }

  /**
   * The kept reports are exactly the non-empty ones, in increasing frame order: the `k`-th
   * kept report is the report at the `k`-th index, the indices increase strictly, every
   * index is that of a non-empty report, and every non-empty report's index is among them.
   */
  lemma NonEmptySelects<D>(rs: seq<SimilarityReport<D>>)
    ensures var kept, ix := NonEmpty(rs), NonEmptyIndices(rs);
      && |kept| == |ix|
      && (forall k :: 0 <= k < |ix| ==> kept[k] == rs[ix[k]] && !rs[ix[k]].IsEmpty())
      && (forall k, l :: 0 <= k < l < |ix| ==> ix[k] < ix[l])
      && (forall i :: 0 <= i < |rs| && !rs[i].IsEmpty() ==> i in ix)
  {
    NonEmptyIndicesExact(rs);
    NonEmptyAtIndices(rs);
  }

  /** Every kept report is non-empty, and there are none when every report is empty. */
  lemma {:induction false} NonEmptyAllEmpty<D>(rs: seq<SimilarityReport<D>>)
    ensures (forall r :: r in NonEmpty(rs) ==> !r.IsEmpty())
    ensures NonEmpty(rs) == [] <==> forall i :: 0 <= i < |rs| ==> rs[i].IsEmpty()
  {
    if |rs| > 0 {
      var init := rs[..|rs| - 1];
      NonEmptyAllEmpty(init);
      assert forall i :: 0 <= i < |init| ==> init[i] == rs[i];
    }
  }

  /**
   * `CompareImages`: a failure when the frame counts differ; otherwise the non-empty
   * reports of the frame-by-frame comparison, in frame order.
   */
  method CompareImages<F, D>(comparer: ImageComparer, compareFrames: FrameComparison<F, D>,
                             expected: Image<F>, actual: Image<F>)
    returns (result: Result<seq<SimilarityReport<D>>>)
    ensures result.Failure? <==> |expected.Frames()| != |actual.Frames()|
    ensures result.Failure? ==> result.error == "Frame count does not match!"
    ensures result.Success? ==>
      result.value == NonEmpty(FrameReports(comparer, compareFrames, expected.Frames(), actual.Frames(),
                                            |expected.Frames()|))
  {
    var expectedFrames, actualFrames := expected.Frames(), actual.Frames();
    if |expectedFrames| != |actualFrames| {
      return Failure("Frame count does not match!");
    }
    ghost var all := FrameReports(comparer, compareFrames, expectedFrames, actualFrames, |expectedFrames|);
    var reports: seq<SimilarityReport<D>> := [];
    var i := 0;
    while i < |expectedFrames|
      invariant 0 <= i <= |expectedFrames|
      invariant reports == NonEmpty(all[..i])
    {
      var report := compareFrames(comparer, expectedFrames[i], actualFrames[i]);
      assert all[..i + 1][..i] == all[..i];
      if !report.IsEmpty() {
        reports := reports + [report];
      }
      i := i + 1;
    }
    assert all[..i] == all;
    return Success(reports);
  }

  /** Comparing single-frame images yields the root-frame report when it is non-empty. */
  lemma SingleFrame<F, D>(comparer: ImageComparer, compareFrames: FrameComparison<F, D>,
                          expected: Image<F>, actual: Image<F>)
    requires |expected.otherFrames| == 0 && |actual.otherFrames| == 0
    ensures var r := CompareImagesOrFrames(comparer, compareFrames, expected, actual);
      NonEmpty(FrameReports(comparer, compareFrames, expected.Frames(), actual.Frames(), 1))
        == if r.IsEmpty() then [] else [r]
  {
    var rs := FrameReports(comparer, compareFrames, expected.Frames(), actual.Frames(), 1);
    assert rs[..0] == [];
  }
}
