/** analisis.py: the Flet front-end. Its leaf mask is the 1 x 1 `True`
    array set in the constructor and never replaced; numpy broadcasts it over
    the whole image, so every pixel counts as leaf and the "severity" is the
    number of pixels whose index is at most the threshold. */
module FletAnalisis {
  import opened Grids
  import opened Pixels
  import opened Pipeline
  import opened Outcomes
  import Canvas

  /** The initial thresholds stored in the constructor. */
  const UiInicial: real := -0.030792934
  const UbInicial: int := 180

  /** `np.ones((1, 1), dtype=bool)`. */
  const UnitMask: Mask := [[true]]

  /** What the classification shows: the painted copy and the severity
      label's value. */
  datatype Shown = Shown(view: Image, severity: Float)

  class Controller {
    /** `self.img`: the RGB image the overlays are painted on. */
    var img: Option<Image>
    /** `self.img_original`: the image as cv2.imread decoded it (BGR). */
    var imgOriginal: Option<Image>
    /** `self.mascara_hojas`: no method assigns it. */
    var leafMask: Mask

    ghost predicate Valid()
      reads this`img, this`imgOriginal, this`leafMask
    {
      && (img.Some? ==> IsGrid(img.value))
      && (imgOriginal.Some? ==>
            IsGrid(imgOriginal.value) && img.Some? &&
            HasShape(img.value, |imgOriginal.value|, Cols(imgOriginal.value)))
      && leafMask == UnitMask
    }

    constructor ()
      ensures Valid()
      ensures img == None && imgOriginal == None && leafMask == UnitMask
    {
      img, imgOriginal, leafMask := None, None, UnitMask;
    }

    /** The background slider callback (`value` is the slider's value): a
        preview only, marking `blue > int(value)` on a copy of `self.img`.
        Nothing is stored, and the mask stays the 1 x 1 mask. */
    method UpdateBackgroundThreshold(value: real) returns (r: Outcome<Image>)
      requires Valid()
      ensures img.None? ==> r == Skipped
      ensures img.Some? && imgOriginal.None? ==> r == Raised(OpenCvError)
      ensures img.Some? && imgOriginal.Some? ==>
                r == Done(Preview(img.value, imgOriginal.value, TruncToInt(value)))
    {
      if img.None? {
        return Skipped;
      }
      var ub := TruncToInt(value);
      if imgOriginal.None? {
        return Raised(OpenCvError);
      }
      var view := Canvas.PaintPreview(img.value, imgOriginal.value, ub);
      r := Done(view);
    }

    /** The disease slider callback (`ui` is the slider's value): skipped
        while no image is shown; otherwise the 1 x 1 mask is broadcast, every
        pixel is classified, a copy of `self.img` is painted and the
        count-over-one severity is shown. Nothing is stored. */
    method UpdateIndexThreshold(ui: real) returns (r: Outcome<Shown>)
      requires Valid()
      ensures img.None? ==> r == Skipped
      ensures img.Some? && imgOriginal.None? ==> r == Raised(OpenCvError)
      ensures img.Some? && imgOriginal.Some? ==>
                var orig := imgOriginal.value;
                var c := ClassifyBroadcast(orig, UnitMask, ui);
                r == Done(Shown(TwoColourView(img.value, c), Finite(Count(c.diseased) as real)))
    {
      if img.None? {
        return Skipped;
      }
      if imgOriginal.None? {
        return Raised(OpenCvError);
      }
      var orig := imgOriginal.value;
      UnitMaskFits(|orig|, Cols(orig));
      var c := ClassifyBroadcast(orig, leafMask, ui);
      var view := Canvas.PaintTwoColour(img.value, c);
      assert Count(leafMask) == 1;
      var severity := Divide(Count(c.diseased), Count(leafMask));
      assert severity == Finite(Count(c.diseased) as real / 1.0);
      r := Done(Shown(view, severity));
    }

    /** The file picker's result: `picked` says whether a file was chosen and
        `decoded` is what cv2.imread made of it. A failed decode clears
        `img_original`, prints and returns, keeping `img`. A successful one
        resets the background slider to `ub_inicial`, previews, and
        classifies at the disease slider's current value `diseaseValue`. */
    method ProcessImage(picked: bool, decoded: Option<Image>, diseaseValue: real)
      returns (preview: Outcome<Image>, r: Outcome<Shown>)
      requires Valid()
      requires decoded.Some? ==> IsGrid(decoded.value)
      modifies this`imgOriginal, this`img
      ensures Valid()
      ensures !picked ==>
                preview == Skipped && r == Skipped && imgOriginal == old(imgOriginal) && img == old(img)
      ensures picked ==> imgOriginal == decoded
      ensures picked && decoded.None? ==> preview == Skipped && r == Skipped && img == old(img)
      ensures picked && decoded.Some? ==>
                var orig := decoded.value;
                var c := ClassifyBroadcast(orig, UnitMask, diseaseValue);
                && img == Some(ToRgb(orig))
                && preview == Done(Preview(ToRgb(orig), orig, UbInicial))
                && r == Done(Shown(TwoColourView(ToRgb(orig), c), Finite(Count(c.diseased) as real)))
    {
      if !picked {
        return Skipped, Skipped;
      }
      imgOriginal := decoded;
      if decoded.None? {
        return Skipped, Skipped;
      }
      img := Some(ToRgb(decoded.value));
      preview := UpdateBackgroundThreshold(UbInicial as real);
      r := UpdateIndexThreshold(diseaseValue);
    }
  }

  /** The 1 x 1 mask fits every image and holds one true cell. */
  lemma UnitMaskFits(h: nat, w: nat)
    requires h >= 1 && w >= 1
    ensures Fits(UnitMask, h, w) && Count(UnitMask) == 1
  {
    assert UnitMask[..0] == [] && UnitMask[0][..0] == [];
  }

  /** Broadcasting the 1 x 1 mask makes every pixel leaf: each pixel is
      diseased exactly when its index is at most `ui` and healthy otherwise,
      and the view has only the two classification colours. */
  lemma EveryPixelIsLeaf(img: Image, orig: Image, ui: real)
    requires IsGrid(orig) && HasShape(img, |orig|, Cols(orig))
    ensures var c := ClassifyBroadcast(orig, UnitMask, ui);
            forall i, j :: 0 <= i < |orig| && 0 <= j < Cols(orig) ==>
              (c.diseased[i][j] <==> IndexMapOf(orig, BGR)[i][j] <= ui) &&
              (c.healthy[i][j] <==> IndexMapOf(orig, BGR)[i][j] > ui) &&
              TwoColourView(img, c)[i][j] in {Full1, Full2}
  {
    var h, w := |orig|, Cols(orig);
    UnitMaskFits(h, w);
    var all := Expand(UnitMask, h, w);
    ExpandUnit(h, w);
    ClassifyBroadcastIsExpand(orig, UnitMask, ui);
    TwoColourViewPixels(img, IndexMapOf(orig, BGR), all, ui);
  }

  /** The diseased and healthy pixels together are all h * w pixels, so the
      severity, a count of diseased pixels, ranges over 0 .. h * w. */
  lemma ClassifiedPixelCount(orig: Image, ui: real)
    requires IsGrid(orig)
    ensures var c := ClassifyBroadcast(orig, UnitMask, ui);
            Count(c.diseased) + Count(c.healthy) == |orig| * Cols(orig)
  {
    var h, w := |orig|, Cols(orig);
    UnitMaskFits(h, w);
    var all := Expand(UnitMask, h, w);
    ExpandUnit(h, w);
    ClassifyBroadcastIsExpand(orig, UnitMask, ui);
    ClassificationCounts(IndexMapOf(orig, BGR), all, ui);
    AllTrueCount(all, h, w);
  }

  /** The severity is not a fraction: two pixels whose index is -1 (no green,
      red 200) both count, and the label shows 200%. */
  lemma SeverityExceedsOne()
    ensures var p := Pixel(0, 0, 200);
            Count(ClassifyBroadcast([[p, p]], UnitMask, UiInicial).diseased) == 2
  {
    var p := Pixel(0, 0, 200);
    var orig := [[p, p]];
    assert Ngrdi(Green(p, BGR), Red(p, BGR)) == -1.0;
    UnitMaskFits(1, 2);
    ExpandUnit(1, 2);
    ClassifyBroadcastIsExpand(orig, UnitMask, UiInicial);
    var d := ClassifyBroadcast(orig, UnitMask, UiInicial).diseased;
    assert d[0][0] && d[0][1];
    assert d[0] == [true, true];
    assert d == [[true, true]];
    assert d[..0] == [] && d[0][..1] == [true] && d[0][..0] == [];
  }
}
