/** app.py: the second Toga front-end. It works on the RGB array PIL
    decodes, recomputes the leaf mask on every move of the background slider
    (there is no OK step), paints the result in three colours and guards the
    severity against an empty leaf. Its attributes do not exist until the
    first image is loaded. */
module TogaApp {
  import opened Grids
  import opened Pixels
  import opened Pipeline
  import opened Outcomes
  import Canvas

  class Controller {
    /** `self.original_array`: the decoded image, channels in RGB order. */
    var originalArray: Option<Image>
    /** `self.mascara_hojas`. */
    var leafMask: Option<Mask>
    /** `self.severidad`, a percentage. */
    var severity: Option<real>
    /** `self.imagen_procesada`: the last three-colour result. */
    var processed: Option<Image>
    /** `self.nombre_archivo`: the path as the dialog returned it. */
    var fileName: Option<string>

    /** The array, once loaded, is a grid. */
    ghost predicate ArrayValid()
      reads this`originalArray
    {
      originalArray.Some? ==> IsGrid(originalArray.value)
    }

    /** The mask is always the one computed from the current array. */
    ghost predicate Valid()
      reads this`originalArray, this`leafMask
    {
      && ArrayValid()
      && (leafMask.Some? ==>
            originalArray.Some? &&
            HasShape(leafMask.value, |originalArray.value|, Cols(originalArray.value)))
    }

    /** `startup` creates none of the attributes above. */
    constructor ()
      ensures Valid()
      ensures originalArray == None && leafMask == None && severity == None
      ensures processed == None && fileName == None
    {
      originalArray, leafMask, severity, processed, fileName := None, None, None, None, None;
    }

    /** The background slider callback (`widget.value` is `ubValue`, and the
        index slider stands at `uiValue`): the mask becomes
        `blue <= int(ubValue)`, blue being channel 2 of the RGB array, and the
        classification runs at once. */
    method UpdateBackgroundThreshold(ubValue: real, uiValue: real) returns (r: Outcome<Image>)
      requires ArrayValid()
      modifies this`leafMask, this`severity, this`processed
      ensures originalArray.None? ==>
                r == Raised(AttributeError("original_array")) &&
                leafMask == old(leafMask) && severity == old(severity) && processed == old(processed)
      ensures originalArray.Some? ==>
                var arr := originalArray.value;
                var leaf := LeafMask(arr, RGB, TruncToInt(ubValue));
                var c := Classify(IndexMapOf(arr, RGB), leaf, uiValue);
                && Valid()
                && leafMask == Some(leaf)
                && severity == Some(PercentSeverity(Count(c.diseased), Count(leaf)))
                && processed == Some(ThreeColourView(arr, c, leaf))
                && r == Done(ThreeColourView(arr, c, leaf))
    {
      var ub := TruncToInt(ubValue);
      if originalArray.None? {
        return Raised(AttributeError("original_array"));
      }
      leafMask := Some(LeafMask(originalArray.value, RGB, ub));
      r := UpdateIndexThreshold(uiValue);
    }

    /** The index slider callback (`widget.value` is `uiValue`): classifies
        the leaf pixels of the RGB array, paints a fresh copy in three colours
        and stores the guarded percentage. `original_array` is not changed. */
    method UpdateIndexThreshold(uiValue: real) returns (r: Outcome<Image>)
      requires Valid()
      modifies this`severity, this`processed
      ensures Valid()
      ensures leafMask.None? ==>
                r == Raised(AttributeError("mascara_hojas")) &&
                severity == old(severity) && processed == old(processed)
      ensures leafMask.Some? ==>
                var arr, leaf := originalArray.value, leafMask.value;
                var c := Classify(IndexMapOf(arr, RGB), leaf, uiValue);
                && severity == Some(PercentSeverity(Count(c.diseased), Count(leaf)))
                && processed == Some(ThreeColourView(arr, c, leaf))
                && r == Done(ThreeColourView(arr, c, leaf))
    {
      if leafMask.None? {
        return Raised(AttributeError("mascara_hojas"));
      }
      var arr, leaf := originalArray.value, leafMask.value;
      var c := Classify(IndexMapOf(arr, RGB), leaf, uiValue);
      var view := Canvas.PaintThreeColour(arr, c, leaf);
      severity := Some(PercentSeverity(Count(c.diseased), Count(leaf)));
      processed := Some(view);
      r := Done(view);
    }

    /** Cargar Imagen followed by `mostrar_imagen`: `picked` is what the
        dialog returned and `decoded` the array PIL made of it (None when it
        could not open it; the error is caught and shown). A decoded image
        replaces the array and goes through the background callback with the
        sliders' current values. */
    method LoadImage(picked: Option<string>, decoded: Option<Image>, ubValue: real, uiValue: real)
      returns (r: Outcome<Image>)
      requires Valid()
      requires decoded.Some? ==> IsGrid(decoded.value)
      modifies this`fileName, this`originalArray, this`leafMask, this`severity, this`processed
      ensures Valid()
      ensures picked.None? || picked.value == "" ==>
                r == Skipped && fileName == old(fileName) && originalArray == old(originalArray) &&
                leafMask == old(leafMask) && severity == old(severity) && processed == old(processed)
      ensures picked.Some? && picked.value != "" ==> fileName == picked
      ensures picked.Some? && picked.value != "" && decoded.None? ==>
                r == Raised(DecodeError) && originalArray == old(originalArray) &&
                leafMask == old(leafMask) && severity == old(severity) && processed == old(processed)
      ensures picked.Some? && picked.value != "" && decoded.Some? ==>
                var arr := decoded.value;
                var leaf := LeafMask(arr, RGB, TruncToInt(ubValue));
                var c := Classify(IndexMapOf(arr, RGB), leaf, uiValue);
                && originalArray == decoded
                && leafMask == Some(leaf)
                && severity == Some(PercentSeverity(Count(c.diseased), Count(leaf)))
                && processed == Some(ThreeColourView(arr, c, leaf))
                && r == Done(ThreeColourView(arr, c, leaf))
    {
      if picked.None? || picked.value == "" {
        return Skipped;
      }
      fileName := picked;
      if decoded.None? {
        return Raised(DecodeError);
      }
      originalArray := decoded;
      r := UpdateBackgroundThreshold(ubValue, uiValue);
    }
  }

  /** What one move of either slider leaves behind: a severity in
      [0, 100], 0 when no pixel is leaf, and a result whose every pixel is
      [255, 0, 0] (diseased), [0, 255, 0] (healthy) or [0, 0, 0]
      (background), whatever colour the pixel had. */
  lemma ClassificationResult(arr: Image, ub: int, ui: real)
    requires IsRect(arr)
    ensures var leaf := LeafMask(arr, RGB, ub);
            var c := Classify(IndexMapOf(arr, RGB), leaf, ui);
            var p := PercentSeverity(Count(c.diseased), Count(leaf));
            && 0.0 <= p <= 100.0
            && (Count(leaf) == 0 ==> p == 0.0)
            && forall i, j :: 0 <= i < |arr| && 0 <= j < Cols(arr) ==>
                 ThreeColourView(arr, c, leaf)[i][j] ==
                   if Blue(arr[i][j], RGB) > ub then Black
                   else if IndexMapOf(arr, RGB)[i][j] <= ui then Full0 else Full1
  {
    var leaf := LeafMask(arr, RGB, ub);
    PercentSeverityBounds(IndexMapOf(arr, RGB), leaf, ui);
    ThreeColourViewPixels(arr, IndexMapOf(arr, RGB), leaf, ui);
  }
}
