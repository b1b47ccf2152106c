/** v0.py: the first Toga front-end. Loading an image replays the whole
    pipeline with the default thresholds: background preview, Background
    OK, classification and the final report. */
module TogaV0 {
  import opened Grids
  import opened Pixels
  import opened Pipeline
  import opened Outcomes
  import Canvas
  import opened FileNames

  /** The initial thresholds stored in `startup`. */
  const UiInicial: real := -0.030792934
  const UbInicial: int := 180

  class Controller {
    /** `self.img`: the RGB image the overlays are painted on. */
    var img: Option<Image>
    /** `self.img_original`: the image as cv2.imread decoded it (BGR). */
    var imgOriginal: Option<Image>
    /** `self.mascara_hojas`. */
    var leafMask: Option<Mask>
    /** `self.nombre_archivo`. */
    var fileName: string
    /** `self.severidad`, 0 until the first classification. */
    var severity: Float
    /** `self.slider_background.value`. `slider_background` is the Box that
        holds the slider, not the slider, so this is a plain attribute that
        only loading assigns (to `ub_inicial`); the slider never changes it. */
    var backgroundBoxValue: Option<int>

    ghost predicate Valid()
      reads this`img, this`imgOriginal, this`leafMask, this`backgroundBoxValue
    {
      && (img.Some? ==> IsGrid(img.value) && backgroundBoxValue == Some(UbInicial))
      && (imgOriginal.Some? ==>
            IsGrid(imgOriginal.value) && img.Some? &&
            HasShape(img.value, |imgOriginal.value|, Cols(imgOriginal.value)))
      && (leafMask.Some? ==> IsGrid(leafMask.value))
    }

    constructor ()
      ensures Valid()
      ensures img == None && imgOriginal == None && leafMask == None && backgroundBoxValue == None
      ensures fileName == "" && severity == Finite(0.0)
    {
      img, imgOriginal, leafMask := None, None, None;
      fileName, severity := "", Finite(0.0);
      backgroundBoxValue := None;
    }

    /** The background preview: the pixels whose blue byte exceeds
        int(value), marked on a copy of `self.img`. */
    method UpdateBackgroundThreshold(value: real) returns (r: Outcome<Image>)
      requires Valid()
      ensures img.None? ==> r == Skipped
      ensures img.Some? && imgOriginal.None? ==> r == Raised(OpenCvError)
      ensures img.Some? && imgOriginal.Some? ==>
                r == Done(Preview(img.value, imgOriginal.value, TruncToInt(value)))
    {
      if img.None? {
        return Skipped;
      }
      var ub := TruncToInt(value);
      if imgOriginal.None? {
        return Raised(OpenCvError);
      }
      var view := Canvas.PaintPreview(img.value, imgOriginal.value, ub);
      r := Done(view);
    }

    /** The index callback: guarded by the mask alone, it classifies the
        pixels of `img_original` against the (broadcast) mask, paints a copy
        of `self.img` and stores the unguarded severity. */
    method UpdateIndexThreshold(ui: real) returns (r: Outcome<Image>)
      requires Valid()
      modifies this`severity
      ensures Valid()
      ensures leafMask.None? ==> r == Skipped && severity == old(severity)
      ensures leafMask.Some? && imgOriginal.None? ==> r == Raised(OpenCvError) && severity == old(severity)
      ensures leafMask.Some? && imgOriginal.Some? &&
              !Fits(leafMask.value, |imgOriginal.value|, Cols(imgOriginal.value)) ==>
                r == Raised(ShapeMismatch) && severity == old(severity)
      ensures leafMask.Some? && imgOriginal.Some? &&
              Fits(leafMask.value, |imgOriginal.value|, Cols(imgOriginal.value)) ==>
                var c := ClassifyBroadcast(imgOriginal.value, leafMask.value, ui);
                r == Done(TwoColourView(img.value, c)) &&
                severity == Divide(Count(c.diseased), Count(leafMask.value))
    {
      if leafMask.None? {
        return Skipped;
      }
      if imgOriginal.None? {
        return Raised(OpenCvError);
      }
      var orig, mask := imgOriginal.value, leafMask.value;
      if !Fits(mask, |orig|, Cols(orig)) {
        return Raised(ShapeMismatch);
      }
      var c := ClassifyBroadcast(orig, mask, ui);
      var view := Canvas.PaintTwoColour(img.value, c);
      severity := Divide(Count(c.diseased), Count(mask));
      r := Done(view);
    }

    /** OK under "Fondo": the threshold is `slider_background.value`, which
        is always `ub_inicial` once an image is shown, whatever the slider
        says. Sets the leaf mask, replaces `self.img` with a copy of
        `img_original` whose background is blacked out, converted to RGB,
        and classifies at `ui_inicial`. */
    method FinishBackground() returns (r: Outcome<Image>)
      requires Valid()
      modifies this`leafMask, this`img, this`severity
      ensures Valid()
      ensures old(img).None? || imgOriginal.None? ==>
                img == old(img) && leafMask == old(leafMask) && severity == old(severity)
      ensures old(img).None? ==> r == Skipped
      ensures old(img).Some? && imgOriginal.None? ==> r == Raised(OpenCvError)
      ensures old(img).Some? && imgOriginal.Some? ==>
                var orig := imgOriginal.value;
                var leaf := LeafMask(orig, BGR, UbInicial);
                var c := Classify(IndexMapOf(orig, BGR), leaf, UiInicial);
                && leafMask == Some(leaf)
                && img == Some(Segmented(orig, UbInicial))
                && severity == Divide(Count(c.diseased), Count(leaf))
                && r == Done(TwoColourView(Segmented(orig, UbInicial), c))
    {
      if img.None? {
        return Skipped;
      }
      if imgOriginal.None? {
        return Raised(OpenCvError);
      }
      var orig := imgOriginal.value;
      var ub := backgroundBoxValue.value;
      OwnLeafMaskFits(orig, ub);
      SegmentBackground(ub);
      r := UpdateIndexThreshold(UiInicial);
      assert img == Some(Segmented(orig, ub));
    }

    /** The first half of OK under "Fondo": the leaf mask becomes
        `blue <= ub` and `self.img` the BGR image with the background
        blacked out, converted to RGB. */
    method SegmentBackground(ub: int)
      requires Valid() && img.Some? && imgOriginal.Some?
      modifies this`leafMask, this`img
      ensures Valid()
      ensures leafMask == Some(LeafMask(imgOriginal.value, BGR, ub))
      ensures img == Some(Segmented(imgOriginal.value, ub))
    {
      var orig := imgOriginal.value;
      var segmented := Canvas.PaintSegmented(orig, ub);
      leafMask, img := Some(LeafMask(orig, BGR, ub)), Some(segmented);
    }

    /** OK under "Enfermedad": the report of the file name and the current
        severity; before any classification that severity is 0. */
    method FinishDisease() returns (r: Report)
      ensures r.fileName == fileName && r.severity == severity
    {
      r := Report(fileName, severity);
    }

    /** Cargar Imagen. `picked` is the path the dialog returned (None when
        nothing was chosen) and `decoded` what cv2.imread made of it. A failed
        decode records the name and clears `img_original` before the
        ValueError, which the dialog reports; `img` and the mask stay. A
        successful one replays the pipeline at `ub_inicial` and `ui_inicial`,
        so the mask of any earlier image is replaced. */
    method LoadImage(picked: Option<string>, decoded: Option<Image>) returns (r: Outcome<Report>)
      requires Valid()
      requires decoded.Some? ==> IsGrid(decoded.value)
      modifies this`fileName, this`imgOriginal, this`img, this`backgroundBoxValue, this`leafMask, this`severity
      ensures Valid()
      ensures picked.None? ==>
                r == Skipped && fileName == old(fileName) && imgOriginal == old(imgOriginal) &&
                img == old(img) && leafMask == old(leafMask) && severity == old(severity) &&
                backgroundBoxValue == old(backgroundBoxValue)
      ensures picked.Some? ==> fileName == BaseName(picked.value) && imgOriginal == decoded
      ensures picked.Some? && decoded.None? ==>
                r == Raised(DecodeError) && img == old(img) && leafMask == old(leafMask) &&
                severity == old(severity) && backgroundBoxValue == old(backgroundBoxValue)
      ensures picked.Some? && decoded.Some? ==>
                var orig := decoded.value;
                var leaf := LeafMask(orig, BGR, UbInicial);
                var c := Classify(IndexMapOf(orig, BGR), leaf, UiInicial);
                && backgroundBoxValue == Some(UbInicial)
                && leafMask == Some(leaf)
                && img == Some(Segmented(orig, UbInicial))
                && severity == Divide(Count(c.diseased), Count(leaf))
                && r == Done(Report(BaseName(picked.value), severity))
    {
      if picked.None? {
        return Skipped;
      }
      fileName := BaseName(picked.value);
      imgOriginal := decoded;
      if decoded.None? {
        return Raised(DecodeError);
      }
      img := Some(ToRgb(decoded.value));
      backgroundBoxValue := Some(UbInicial);
      var report := Replay();
      r := Done(report);
    }

    /** The second half of a successful load: the preview at `ub_inicial`,
        OK under "Fondo", then the classification at `ui_inicial` once more
        and OK under "Enfermedad". */
    method Replay() returns (r: Report)
      requires Valid() && imgOriginal.Some?
      modifies this`leafMask, this`img, this`severity
      ensures Valid()
      ensures var orig := imgOriginal.value;
              var leaf := LeafMask(orig, BGR, UbInicial);
              var c := Classify(IndexMapOf(orig, BGR), leaf, UiInicial);
              && leafMask == Some(leaf)
              && img == Some(Segmented(orig, UbInicial))
              && severity == Divide(Count(c.diseased), Count(leaf))
              && r == Report(fileName, severity)
    {
      var preview := UpdateBackgroundThreshold(UbInicial as real);
      var segmentation := FinishBackground();
      r := ReplayDisease();
    }

    /** The classification at `ui_inicial` and OK under "Enfermedad" once the
        mask of the current image is in place: the second classification
        stores the severity Background OK computed, and the report carries it. */
    method ReplayDisease() returns (r: Report)
      requires Valid() && imgOriginal.Some?
      requires leafMask == Some(LeafMask(imgOriginal.value, BGR, UbInicial))
      modifies this`severity
      ensures Valid()
      ensures var orig := imgOriginal.value;
              var leaf := LeafMask(orig, BGR, UbInicial);
              var c := Classify(IndexMapOf(orig, BGR), leaf, UiInicial);
              && severity == Divide(Count(c.diseased), Count(leaf))
              && r == Report(fileName, severity)
    {
      OwnLeafMaskFits(imgOriginal.value, UbInicial);
      var reclassification := UpdateIndexThreshold(UiInicial);
      r := FinishDisease();
    }
  }
}
