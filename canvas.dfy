/** The result images are built the way numpy builds them: `img.copy()`
    allocates a fresh H x W array, and each `copy[mask] = colour` overwrites
    the masked cells of that array in place. */
module Canvas {
  import opened Grids
  import opened Pixels
  import opened Pipeline

  /** The grid an array currently holds. */
  function Contents(a: array2<Pixel>): (g: Image)
    reads a
    ensures HasShape(g, a.Length0, a.Length1)
  {
    seq(a.Length0, i requires 0 <= i < a.Length0 reads a =>
      seq(a.Length1, j requires 0 <= j < a.Length1 reads a => a[i, j]))
  }

  /** Two grids of one shape that agree cell by cell are equal. */
  lemma GridsEqual(x: Image, y: Image, h: nat, w: nat)
    requires HasShape(x, h, w) && HasShape(y, h, w)
    requires forall i, j :: 0 <= i < h && 0 <= j < w ==> x[i][j] == y[i][j]
    ensures x == y
  {
    forall i | 0 <= i < h ensures x[i] == y[i] {
    }
  }

  /** `img.copy()`: a fresh array holding `img`. */
  method Copy(img: Image) returns (a: array2<Pixel>)
    requires IsRect(img)
    ensures fresh(a)
    ensures a.Length0 == |img| && a.Length1 == Cols(img)
    ensures Contents(a) == img
  {
    a := new Pixel[|img|, Cols(img)]((i, j) requires 0 <= i < |img| && 0 <= j < Cols(img) => img[i][j]);
    GridsEqual(Contents(a), img, |img|, Cols(img));
  }

  /** `a[m] = c`: every cell under the mask becomes `c`, every other cell
      keeps its value. */
  method PaintWhere(a: array2<Pixel>, m: Mask, c: Pixel)
    requires HasShape(m, a.Length0, a.Length1)
    modifies a
    ensures Contents(a) == Paint(old(Contents(a)), m, c)
  {
    ghost var before := Contents(a);
    var i := 0;
    while i < a.Length0
      invariant 0 <= i <= a.Length0
      invariant forall p, q :: 0 <= p < i && 0 <= q < a.Length1 ==>
                  a[p, q] == if m[p][q] then c else before[p][q]
      invariant forall p, q :: i <= p < a.Length0 && 0 <= q < a.Length1 ==> a[p, q] == before[p][q]
    {
      var j := 0;
      while j < a.Length1
        invariant 0 <= j <= a.Length1
        invariant forall p, q :: 0 <= p < i && 0 <= q < a.Length1 ==>
                    a[p, q] == if m[p][q] then c else before[p][q]
        invariant forall q :: 0 <= q < j ==> a[i, q] == if m[i][q] then c else before[i][q]
        invariant forall p, q :: i <= p < a.Length0 && 0 <= q < a.Length1 && (p > i || q >= j) ==>
                    a[p, q] == before[p][q]
      {
        if m[i][j] {
          a[i, j] := c;
        }
        j := j + 1;
      }
      i := i + 1;
    }
    if a.Length0 > 0 {
      assert Cols(before) == a.Length1;
    }
    GridsEqual(Contents(a), Paint(before, m, c), a.Length0, a.Length1);
  }

  /** `img.copy()`, then `[0, 0, 255]` on the diseased and `[0, 255, 0]` on
      the healthy pixels (main.py, v0.py, analisis.py). */
  method PaintTwoColour(img: Image, c: Classification) returns (v: Image)
    requires IsRect(img)
    requires HasShape(c.diseased, |img|, Cols(img)) && HasShape(c.healthy, |img|, Cols(img))
    ensures v == TwoColourView(img, c)
  {
    var a := Copy(img);
    PaintWhere(a, c.diseased, Full2);
    PaintWhere(a, c.healthy, Full1);
    v := Contents(a);
  }

  /** `original_array.copy()`, then `[255, 0, 0]` on the diseased,
      `[0, 255, 0]` on the healthy and `[0, 0, 0]` on the background pixels
      (app.py). */
  method PaintThreeColour(img: Image, c: Classification, leaf: Mask) returns (v: Image)
    requires IsRect(img)
    requires HasShape(c.diseased, |img|, Cols(img)) && HasShape(c.healthy, |img|, Cols(img))
    requires HasShape(leaf, |img|, Cols(img))
    ensures v == ThreeColourView(img, c, leaf)
  {
    var a := Copy(img);
    PaintWhere(a, c.diseased, Full0);
    PaintWhere(a, c.healthy, Full1);
    PaintWhere(a, Not(leaf), Black);
    v := Contents(a);
  }

  /** `img.copy()` with `[255, 0, 0]` where the blue byte of `orig` exceeds
      `ub`: the background preview. */
  method PaintPreview(img: Image, orig: Image, ub: int) returns (v: Image)
    requires IsRect(orig) && HasShape(img, |orig|, Cols(orig))
    ensures v == Preview(img, orig, ub)
  {
    var a := Copy(img);
    PaintWhere(a, BackgroundMask(orig, BGR, ub), Full0);
    v := Contents(a);
  }

  /** `img_original.copy()` with `[0, 0, 0]` off the leaf, then converted
      to RGB: the image Background OK stores. */
  method PaintSegmented(orig: Image, ub: int) returns (v: Image)
    requires IsRect(orig)
    ensures v == Segmented(orig, ub)
  {
    var a := Copy(orig);
    PaintWhere(a, Not(LeafMask(orig, BGR, ub)), Black);
    v := ToRgb(Contents(a));
  }
}
