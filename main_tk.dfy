/** main.py: the Tk front-end. Background is previewed on a slider and fixed
    with OK; OK then classifies at the initial index threshold, and the
    Disease slider reclassifies while a leaf mask exists. */
module MainTk {
  import opened Grids
  import opened Pixels
  import opened Pipeline
  import opened Outcomes
  import Canvas
  import opened FileNames

  /** The initial thresholds stored in the constructor. */
  const UiInicial: real := -0.030792934
  const UbInicial: int := 180

  class Controller {
    /** `self.img`: the RGB image the overlays are painted on. */
    var img: Option<Image>
    /** `self.img_original`: the image as cv2.imread decoded it (BGR). */
    var imgOriginal: Option<Image>
    /** `self.mascara_hojas`. */
    var leafMask: Option<Mask>
    /** `self.nombre_archivo`. */
    var fileName: string
    /** `self.severidad`: the attribute does not exist before the first
        classification. */
    var severity: Option<Float>
    /** `self.slider_disease['state'] == 'normal'`. */
    var diseaseSliderNormal: bool

    ghost predicate Valid()
      reads this`img, this`imgOriginal, this`leafMask
    {
      && (img.Some? ==> IsGrid(img.value))
      && (imgOriginal.Some? ==>
            IsGrid(imgOriginal.value) && img.Some? &&
            HasShape(img.value, |imgOriginal.value|, Cols(imgOriginal.value)))
      && (leafMask.Some? ==> IsGrid(leafMask.value))
    }

    constructor ()
      ensures Valid()
      ensures img == None && imgOriginal == None && leafMask == None
      ensures fileName == "" && severity == None && diseaseSliderNormal
    {
      img, imgOriginal, leafMask := None, None, None;
      fileName, severity := "", None;
      diseaseSliderNormal := true;
    }

    /** Load Image. `decoded` is what cv2.imread returned for the chosen
        path (None when it could not decode it); an empty path means the
        dialog was cancelled. The leaf mask of the previous image is kept. */
    method LoadImage(path: string, decoded: Option<Image>) returns (r: Outcome<()>)
      requires Valid()
      requires decoded.Some? ==> IsGrid(decoded.value)
      modifies this`fileName, this`imgOriginal, this`img
      ensures Valid()
      ensures path == "" ==>
                r == Skipped && fileName == old(fileName) && imgOriginal == old(imgOriginal) && img == old(img)
      ensures path != "" ==> fileName == BaseName(path) && imgOriginal == decoded
      ensures path != "" && decoded.None? ==> r == Raised(OpenCvError) && img == old(img)
      ensures path != "" && decoded.Some? ==> r == Done(()) && img == Some(ToRgb(decoded.value))
      ensures leafMask == old(leafMask) && severity == old(severity)
    {
      if path == "" {
        return Skipped;
      }
      fileName := BaseName(path);
      imgOriginal := decoded;
      if decoded.None? {
        return Raised(OpenCvError);
      }
      img := Some(ToRgb(decoded.value));
      r := Done(());
    }

    /** The Background slider callback as written: once an image is loaded it
        stops at `self.entry_umbral_b`, an attribute the constructor never
        creates (the entry is stored as `entry_background`). */
    method UpdateBackgroundThreshold(value: real) returns (r: Outcome<Image>)
      requires Valid()
      ensures img.None? ==> r == Skipped
      ensures img.Some? ==> r == Raised(AttributeError("entry_umbral_b"))
    {
      if img.None? {
        return Skipped;
      }
      var ub := TruncToInt(value);
      r := Raised(AttributeError("entry_umbral_b"));
    }

    /** The Background slider callback as intended: the preview marks the
        pixels whose blue byte exceeds int(value) on a copy of `self.img`;
        neither `self.img` nor the leaf mask changes. */
    method UpdateBackgroundThresholdIntended(value: real) returns (r: Outcome<Image>)
      requires Valid()
      ensures img.None? ==> r == Skipped
      ensures img.Some? && imgOriginal.None? ==> r == Raised(OpenCvError)
      ensures img.Some? && imgOriginal.Some? ==>
                r == Done(Preview(img.value, imgOriginal.value, TruncToInt(value)))
    {
      if img.None? {
        return Skipped;
      }
      var ub := TruncToInt(value);
      if imgOriginal.None? {
        return Raised(OpenCvError);
      }
      var view := Canvas.PaintPreview(img.value, imgOriginal.value, ub);
      r := Done(view);
    }

    /** The Disease slider callback: classifies the pixels of `img_original`
        against the stored mask (broadcast by numpy, so a mask kept from an
        image of another size either stretches or raises), paints the result
        on a copy of `self.img` and stores the unguarded severity. */
    method UpdateIndexThreshold(ui: real) returns (r: Outcome<Image>)
      requires Valid()
      modifies this`severity
      ensures Valid()
      ensures leafMask.None? || !diseaseSliderNormal ==> r == Skipped && severity == old(severity)
      ensures leafMask.Some? && diseaseSliderNormal && imgOriginal.None? ==>
                r == Raised(OpenCvError) && severity == old(severity)
      ensures leafMask.Some? && diseaseSliderNormal && imgOriginal.Some? &&
              !Fits(leafMask.value, |imgOriginal.value|, Cols(imgOriginal.value)) ==>
                r == Raised(ShapeMismatch) && severity == old(severity)
      ensures leafMask.Some? && diseaseSliderNormal && imgOriginal.Some? &&
              Fits(leafMask.value, |imgOriginal.value|, Cols(imgOriginal.value)) ==>
                var c := ClassifyBroadcast(imgOriginal.value, leafMask.value, ui);
                r == Done(TwoColourView(img.value, c)) &&
                severity == Some(Divide(Count(c.diseased), Count(leafMask.value)))
    {
      if leafMask.None? || !diseaseSliderNormal {
        return Skipped;
      }
      if imgOriginal.None? {
        return Raised(OpenCvError);
      }
      var orig, mask := imgOriginal.value, leafMask.value;
      if !Fits(mask, |orig|, Cols(orig)) {
        return Raised(ShapeMismatch);
      }
      var c := ClassifyBroadcast(orig, mask, ui);
      var view := Canvas.PaintTwoColour(img.value, c);
      severity := Some(Divide(Count(c.diseased), Count(mask)));
      r := Done(view);
    }

    /** OK under the Background slider (`ub` is the slider's integer value):
        sets the leaf mask to `blue <= ub`, replaces `self.img` with a copy of
        `img_original` whose non-leaf pixels are blacked out, converted to
        RGB, enables the Disease controls and classifies at the initial
        index threshold, not at the Disease slider's value. */
    method FinishBackground(ub: int) returns (r: Outcome<Image>)
      requires Valid()
      modifies this`leafMask, this`img, this`diseaseSliderNormal, this`severity
      ensures Valid()
      ensures old(img).None? || imgOriginal.None? ==>
                img == old(img) && leafMask == old(leafMask) && severity == old(severity) &&
                diseaseSliderNormal == old(diseaseSliderNormal)
      ensures old(img).None? ==> r == Skipped
      ensures old(img).Some? && imgOriginal.None? ==> r == Raised(OpenCvError)
      ensures old(img).Some? && imgOriginal.Some? ==>
                var orig := imgOriginal.value;
                var leaf := LeafMask(orig, BGR, ub);
                var c := Classify(IndexMapOf(orig, BGR), leaf, UiInicial);
                && leafMask == Some(leaf)
                && img == Some(Segmented(orig, ub))
                && diseaseSliderNormal
                && severity == Some(Divide(Count(c.diseased), Count(leaf)))
                && r == Done(TwoColourView(Segmented(orig, ub), c))
    {
      if img.None? {
        return Skipped;
      }
      if imgOriginal.None? {
        return Raised(OpenCvError);
      }
      var orig := imgOriginal.value;
      OwnLeafMaskFits(orig, ub);
      SegmentBackground(ub);
      ghost var leaf := LeafMask(orig, BGR, ub);
      ghost var c := Classify(IndexMapOf(orig, BGR), leaf, UiInicial);
      r := UpdateIndexThreshold(UiInicial);
      assert img == Some(Segmented(orig, ub)) && leafMask == Some(leaf);
      assert r == Done(TwoColourView(Segmented(orig, ub), c));
      assert severity == Some(Divide(Count(c.diseased), Count(leaf)));
    }

    /** The first half of Background OK: the leaf mask becomes `blue <= ub`,
        `self.img` becomes the BGR image with the background blacked out,
        converted to RGB, and the Disease controls are enabled. */
    method SegmentBackground(ub: int)
      requires Valid() && img.Some? && imgOriginal.Some?
      modifies this`leafMask, this`img, this`diseaseSliderNormal
      ensures Valid()
      ensures leafMask == Some(LeafMask(imgOriginal.value, BGR, ub))
      ensures img == Some(Segmented(imgOriginal.value, ub))
      ensures diseaseSliderNormal
    {
      var orig := imgOriginal.value;
      var segmented := Canvas.PaintSegmented(orig, ub);
      leafMask, img, diseaseSliderNormal := Some(LeafMask(orig, BGR, ub)), Some(segmented), true;
    }

    /** OK under the Disease slider: prints the file name and the severity,
        which raises while no classification has run yet. */
    method FinishDisease() returns (r: Outcome<Report>)
      ensures severity.None? ==> r == Raised(AttributeError("severidad"))
      ensures severity.Some? ==> r == Done(Report(fileName, severity.value))
    {
      if severity.None? {
        return Raised(AttributeError("severidad"));
      }
      r := Done(Report(fileName, severity.value));
    }
  }
}
