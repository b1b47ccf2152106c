/** The severity pipeline shared by the four front-ends: leaf mask from the
    blue channel, index map over the whole image, split of the leaf pixels
    into diseased and healthy, severity ratio, and the colour overlays. */
module Pipeline {
  import opened Grids
  import opened Pixels

  type Image = seq<seq<Pixel>>
  type IndexMap = seq<seq<real>>

  /** cv2.cvtColor(img, cv2.COLOR_BGR2RGB). */
  function ToRgb(img: Image): (out: Image)
    requires IsRect(img)
    ensures HasShape(out, |img|, Cols(img))
  {
    seq(|img|, i requires 0 <= i < |img| =>
      seq(Cols(img), j requires 0 <= j < Cols(img) => Swap(img[i][j])))
  }

  /** The index of every pixel, green and red read in layout `l`. */
  function IndexMapOf(img: Image, l: Layout): (x: IndexMap)
    requires IsRect(img)
    ensures HasShape(x, |img|, Cols(img))
  {
    seq(|img|, i requires 0 <= i < |img| =>
      seq(Cols(img), j requires 0 <= j < Cols(img) => Ngrdi(Green(img[i][j], l), Red(img[i][j], l))))
  }

  /** Every entry of an index map lies in [-1, 1]. */
  lemma IndexMapBounds(img: Image, l: Layout)
    requires IsRect(img)
    ensures forall i, j :: 0 <= i < |img| && 0 <= j < Cols(img) ==> -1.0 <= IndexMapOf(img, l)[i][j] <= 1.0
  {
    forall i, j | 0 <= i < |img| && 0 <= j < Cols(img)
      ensures -1.0 <= IndexMapOf(img, l)[i][j] <= 1.0
    {
      NgrdiBounds(Green(img[i][j], l), Red(img[i][j], l));
    }
  }

  /** `blue <= ub`: the leaf (sample) pixels. */
  function LeafMask(img: Image, l: Layout, ub: int): (m: Mask)
    requires IsRect(img)
    ensures HasShape(m, |img|, Cols(img))
  {
    seq(|img|, i requires 0 <= i < |img| =>
      seq(Cols(img), j requires 0 <= j < Cols(img) => Blue(img[i][j], l) <= ub))
  }

  /** `blue > ub`: the background pixels the previews paint. */
  function BackgroundMask(img: Image, l: Layout, ub: int): (m: Mask)
    requires IsRect(img)
    ensures HasShape(m, |img|, Cols(img))
  {
    seq(|img|, i requires 0 <= i < |img| =>
      seq(Cols(img), j requires 0 <= j < Cols(img) => Blue(img[i][j], l) > ub))
  }

  /** numpy's `~mask`: the cells of the grid that the mask leaves out. */
  function Not(m: Mask): (n: Mask)
    requires IsRect(m)
    ensures HasShape(n, |m|, Cols(m))
    ensures forall i, j :: 0 <= i < |m| && 0 <= j < Cols(m) ==> n[i][j] != m[i][j]
  {
    seq(|m|, i requires 0 <= i < |m| =>
      seq(Cols(m), j requires 0 <= j < Cols(m) => !m[i][j]))
  }

  /** Complementing twice gives the mask back. */
  lemma NotInvolutive(m: Mask)
    requires IsRect(m)
    ensures Not(Not(m)) == m
  {
    var n := Not(m);
    assert forall i :: 0 <= i < |m| ==> Not(n)[i] == m[i];
  }

  /** A mask and its complement together count every cell of the grid. */
  lemma NotCount(m: Mask)
    requires IsRect(m)
    ensures Count(m) + Count(Not(m)) == |m| * Cols(m)
  {
    CountComplement(m, Not(m), |m|, Cols(m));
  }

  /** The preview's background is exactly the complement of the leaf mask. */
  lemma BackgroundIsComplement(img: Image, l: Layout, ub: int)
    requires IsRect(img)
    ensures BackgroundMask(img, l, ub) == Not(LeafMask(img, l, ub))
  {
    var bg, nl := BackgroundMask(img, l, ub), Not(LeafMask(img, l, ub));
    forall i | 0 <= i < |img| ensures bg[i] == nl[i] {
    }
  }

  /** Raising the background threshold never loses a leaf pixel. */
  lemma LeafCountMonotone(img: Image, l: Layout, ub1: int, ub2: int)
    requires IsRect(img)
    requires ub1 <= ub2
    ensures Count(LeafMask(img, l, ub1)) <= Count(LeafMask(img, l, ub2))
  {
    CountMono(LeafMask(img, l, ub1), LeafMask(img, l, ub2));
  }

  /** The two masks `(index <= ui) & leaf` and `(index > ui) & leaf`. */
  datatype Classification = Classification(diseased: Mask, healthy: Mask)

  function Classify(idx: IndexMap, leaf: Mask, ui: real): (c: Classification)
    requires IsRect(idx) && HasShape(leaf, |idx|, Cols(idx))
    ensures HasShape(c.diseased, |idx|, Cols(idx)) && HasShape(c.healthy, |idx|, Cols(idx))
    ensures forall i, j :: 0 <= i < |idx| && 0 <= j < Cols(idx) ==>
              !(c.diseased[i][j] && c.healthy[i][j]) && (c.diseased[i][j] || c.healthy[i][j]) == leaf[i][j]
    ensures forall i, j :: 0 <= i < |idx| && 0 <= j < Cols(idx) ==>
              (c.diseased[i][j] ==> idx[i][j] <= ui) && (c.healthy[i][j] ==> ui < idx[i][j])
  {
    Classification(
      seq(|idx|, i requires 0 <= i < |idx| =>
        seq(Cols(idx), j requires 0 <= j < Cols(idx) => idx[i][j] <= ui && leaf[i][j])),
      seq(|idx|, i requires 0 <= i < |idx| =>
        seq(Cols(idx), j requires 0 <= j < Cols(idx) => idx[i][j] > ui && leaf[i][j])))
  }

  /** Diseased and healthy counts add up to the leaf count. */
  lemma ClassificationCounts(idx: IndexMap, leaf: Mask, ui: real)
    requires IsRect(idx) && HasShape(leaf, |idx|, Cols(idx))
    ensures Count(Classify(idx, leaf, ui).diseased) + Count(Classify(idx, leaf, ui).healthy) == Count(leaf)
  {
    var c := Classify(idx, leaf, ui);
    CountSplit(c.diseased, c.healthy, leaf);
  }

  /** Raising the index threshold never loses a diseased pixel. */
  lemma DiseasedCountMonotone(idx: IndexMap, leaf: Mask, ui1: real, ui2: real)
    requires IsRect(idx) && HasShape(leaf, |idx|, Cols(idx))
    requires ui1 <= ui2
    ensures Count(Classify(idx, leaf, ui1).diseased) <= Count(Classify(idx, leaf, ui2).diseased)
  {
    CountMono(Classify(idx, leaf, ui1).diseased, Classify(idx, leaf, ui2).diseased);
  }

  /** `copy[m] = c` on a copy of `img`. */
  function Paint(img: Image, m: Mask, c: Pixel): (out: Image)
    requires IsRect(img) && HasShape(m, |img|, Cols(img))
    ensures HasShape(out, |img|, Cols(img))
  {
    seq(|img|, i requires 0 <= i < |img| =>
      seq(Cols(img), j requires 0 <= j < Cols(img) => if m[i][j] then c else img[i][j]))
  }

  /** Painting through two disjoint masks gives the same image in either order. */
  lemma PaintCommutes(img: Image, a: Mask, ca: Pixel, b: Mask, cb: Pixel)
    requires IsRect(img) && HasShape(a, |img|, Cols(img)) && HasShape(b, |img|, Cols(img))
    requires forall i, j :: 0 <= i < |img| && 0 <= j < Cols(img) ==> !(a[i][j] && b[i][j])
    ensures Paint(Paint(img, a, ca), b, cb) == Paint(Paint(img, b, cb), a, ca)
  {
    var x, y := Paint(Paint(img, a, ca), b, cb), Paint(Paint(img, b, cb), a, ca);
    forall i | 0 <= i < |img| ensures x[i] == y[i] {
    }
  }

  /** The result image of main.py, v0.py and analisis.py: diseased pixels set
      to [0, 0, 255], then healthy pixels to [0, 255, 0]. */
  function TwoColourView(img: Image, c: Classification): (out: Image)
    requires IsRect(img)
    requires HasShape(c.diseased, |img|, Cols(img)) && HasShape(c.healthy, |img|, Cols(img))
    ensures HasShape(out, |img|, Cols(img))
  {
    Paint(Paint(img, c.diseased, Full2), c.healthy, Full1)
  }

  /** What the two-colour view shows: the classification where it has a
      verdict, the underlying image elsewhere. */
  lemma TwoColourViewPixels(img: Image, idx: IndexMap, leaf: Mask, ui: real)
    requires IsRect(img) && HasShape(idx, |img|, Cols(img)) && HasShape(leaf, |img|, Cols(img))
    ensures forall i, j :: 0 <= i < |img| && 0 <= j < Cols(img) ==>
              TwoColourView(img, Classify(idx, leaf, ui))[i][j] ==
                if !leaf[i][j] then img[i][j] else if idx[i][j] <= ui then Full2 else Full1
  {
    var c := Classify(idx, leaf, ui);
    var v := TwoColourView(img, c);
    forall i, j | 0 <= i < |img| && 0 <= j < Cols(img)
      ensures v[i][j] == if !leaf[i][j] then img[i][j] else if idx[i][j] <= ui then Full2 else Full1
    {
      assert v[i][j] == if c.healthy[i][j] then Full1 else if c.diseased[i][j] then Full2 else img[i][j];
    }
  }

  /** The result image of app.py: diseased [255, 0, 0], healthy [0, 255, 0],
      background [0, 0, 0], assigned in that order. */
  function ThreeColourView(img: Image, c: Classification, leaf: Mask): (out: Image)
    requires IsRect(img)
    requires HasShape(c.diseased, |img|, Cols(img)) && HasShape(c.healthy, |img|, Cols(img))
    requires HasShape(leaf, |img|, Cols(img))
    ensures HasShape(out, |img|, Cols(img))
  {
    Paint(Paint(Paint(img, c.diseased, Full0), c.healthy, Full1), Not(leaf), Black)
  }

  /** Every pixel of the three-colour view is exactly one of the three
      colours, fixed by the leaf mask and the index alone. */
  lemma ThreeColourViewPixels(img: Image, idx: IndexMap, leaf: Mask, ui: real)
    requires IsRect(img) && HasShape(idx, |img|, Cols(img)) && HasShape(leaf, |img|, Cols(img))
    ensures forall i, j :: 0 <= i < |img| && 0 <= j < Cols(img) ==>
              ThreeColourView(img, Classify(idx, leaf, ui), leaf)[i][j] ==
                if !leaf[i][j] then Black else if idx[i][j] <= ui then Full0 else Full1
  {
    var c := Classify(idx, leaf, ui);
    var v := ThreeColourView(img, c, leaf);
    forall i, j | 0 <= i < |img| && 0 <= j < Cols(img)
      ensures v[i][j] == if !leaf[i][j] then Black else if idx[i][j] <= ui then Full0 else Full1
    {
      assert v[i][j] == if !leaf[i][j] then Black else if c.healthy[i][j] then Full1 else Full0;
    }
  }

  /** The order of app.py's three assignments does not matter: background
      first, then healthy, then diseased gives the same image. */
  lemma ThreeColourOrderIrrelevant(img: Image, idx: IndexMap, leaf: Mask, ui: real)
    requires IsRect(img) && HasShape(idx, |img|, Cols(img)) && HasShape(leaf, |img|, Cols(img))
    ensures ThreeColourView(img, Classify(idx, leaf, ui), leaf) ==
            Paint(Paint(Paint(img, Not(leaf), Black), Classify(idx, leaf, ui).healthy, Full1),
                  Classify(idx, leaf, ui).diseased, Full0)
  {
    var c := Classify(idx, leaf, ui);
    var bg := Not(leaf);
    var d := Paint(img, c.diseased, Full0);
    PaintCommutes(d, c.healthy, Full1, bg, Black);
    PaintCommutes(img, c.diseased, Full0, bg, Black);
    var b := Paint(img, bg, Black);
    PaintCommutes(b, c.diseased, Full0, c.healthy, Full1);
  }

  /** The background preview: `img.copy()` with `[255, 0, 0]` written
      wherever the blue byte of `orig` (BGR) exceeds `ub`. */
  function Preview(img: Image, orig: Image, ub: int): (v: Image)
    requires IsRect(orig) && HasShape(img, |orig|, Cols(orig))
    ensures HasShape(v, |orig|, Cols(orig))
    ensures forall i, j :: 0 <= i < |orig| && 0 <= j < Cols(orig) ==>
              v[i][j] == if Blue(orig[i][j], BGR) > ub then Full0 else img[i][j]
  {
    Paint(img, BackgroundMask(orig, BGR, ub), Full0)
  }

  /** Background OK in main.py and v0.py: a copy of the BGR image with the
      non-leaf pixels set to [0, 0, 0], converted to RGB. Leaf pixels keep
      their colour; every other pixel is black. */
  function Segmented(orig: Image, ub: int): (s: Image)
    requires IsRect(orig)
    ensures HasShape(s, |orig|, Cols(orig))
    ensures forall i, j :: 0 <= i < |orig| && 0 <= j < Cols(orig) ==>
              s[i][j] == if Blue(orig[i][j], BGR) <= ub then Swap(orig[i][j]) else Black
  {
    ToRgb(Paint(orig, Not(LeafMask(orig, BGR, ub)), Black))
  }

  /** The classification of main.py, v0.py and analisis.py: the index of the
      BGR image against the stored mask, broadcast to the image's shape. */
  function ClassifyBroadcast(orig: Image, mask: Mask, ui: real): (c: Classification)
    requires IsRect(orig) && Fits(mask, |orig|, Cols(orig))
    ensures HasShape(c.diseased, |orig|, Cols(orig)) && HasShape(c.healthy, |orig|, Cols(orig))
  {
    if |mask| == |orig| && Cols(mask) == Cols(orig) then Classify(IndexMapOf(orig, BGR), mask, ui)
    else Classify(IndexMapOf(orig, BGR), Expand(mask, |orig|, Cols(orig)), ui)
  }

  /** Whichever shape the mask has, the classification is the one against
      the mask numpy broadcasts to the image's shape. */
  lemma ClassifyBroadcastIsExpand(orig: Image, mask: Mask, ui: real)
    requires IsRect(orig) && Fits(mask, |orig|, Cols(orig))
    ensures ClassifyBroadcast(orig, mask, ui) == Classify(IndexMapOf(orig, BGR), Expand(mask, |orig|, Cols(orig)), ui)
  {
    if |mask| == |orig| && Cols(mask) == Cols(orig) {
      ExpandSameShape(mask);
    }
  }

  /** The mask Background OK stores fits its own image, so classifying
      against it needs no broadcasting. */
  lemma OwnLeafMaskFits(orig: Image, ub: int)
    requires IsGrid(orig)
    ensures Fits(LeafMask(orig, BGR, ub), |orig|, Cols(orig))
  {
    var leaf := LeafMask(orig, BGR, ub);
    assert |leaf| == |orig| && |leaf[0]| == Cols(orig);
  }

  /** After Background OK the classification view has exactly three colours:
      [0, 0, 0] off the leaf, [0, 0, 255] on diseased and [0, 255, 0] on
      healthy leaf pixels. */
  lemma SegmentedViewPixels(orig: Image, ub: int, ui: real)
    requires IsRect(orig)
    ensures var leaf := LeafMask(orig, BGR, ub);
            var v := TwoColourView(Segmented(orig, ub), Classify(IndexMapOf(orig, BGR), leaf, ui));
            forall i, j :: 0 <= i < |orig| && 0 <= j < Cols(orig) ==>
              v[i][j] == if !leaf[i][j] then Black
                         else if IndexMapOf(orig, BGR)[i][j] <= ui then Full2 else Full1
  {
    TwoColourViewPixels(Segmented(orig, ub), IndexMapOf(orig, BGR), LeafMask(orig, BGR, ub), ui);
  }

  /** What finishing the disease step prints: the file name and the severity. */
  datatype Report = Report(fileName: string, severity: Float)

  /** A numpy float64 as far as the programs can produce one. */
  datatype Float = Finite(value: real) | NaN | Infinity

  /** numpy true division of two pixel counts: 0/0 is nan, n/0 is inf. */
  function Divide(n: nat, d: nat): (q: Float)
    ensures d > 0 ==> q.Finite? && q.value * d as real == n as real
    ensures d == 0 && n == 0 ==> q.NaN?
    ensures d == 0 && n > 0 ==> q.Infinity?
  {
    if d > 0 then Finite(n as real / d as real) else if n == 0 then NaN else Infinity
  }

  /** A ratio of counts with the numerator at most the denominator lies in [0, 1]. */
  lemma RatioBounds(n: nat, d: nat)
    requires n <= d
    ensures d == 0 <==> Divide(n, d).NaN?
    ensures d > 0 ==> 0.0 <= Divide(n, d).value <= 1.0
  {
  }

  /** A ratio of counts keeps the order of its numerators. */
  lemma RatioMonotone(n1: nat, n2: nat, d: nat)
    requires n1 <= n2 && d > 0
    ensures Divide(n1, d).value <= Divide(n2, d).value
  {
  }

  /** Severity as main.py and v0.py compute it: in [0, 1] when some pixel is
      leaf, nan (no guard) when none is. */
  lemma SeverityBounds(idx: IndexMap, leaf: Mask, ui: real)
    requires IsRect(idx) && HasShape(leaf, |idx|, Cols(idx))
    ensures var q := Divide(Count(Classify(idx, leaf, ui).diseased), Count(leaf));
            (Count(leaf) == 0 <==> q.NaN?) &&
            (Count(leaf) > 0 ==> q.Finite? && 0.0 <= q.value <= 1.0)
  {
    ClassificationCounts(idx, leaf, ui);
    RatioBounds(Count(Classify(idx, leaf, ui).diseased), Count(leaf));
  }

  /** Severity is non-decreasing in the index threshold. */
  lemma SeverityMonotone(idx: IndexMap, leaf: Mask, ui1: real, ui2: real)
    requires IsRect(idx) && HasShape(leaf, |idx|, Cols(idx))
    requires ui1 <= ui2 && Count(leaf) > 0
    ensures Divide(Count(Classify(idx, leaf, ui1).diseased), Count(leaf)).value <=
            Divide(Count(Classify(idx, leaf, ui2).diseased), Count(leaf)).value
  {
    DiseasedCountMonotone(idx, leaf, ui1, ui2);
    RatioMonotone(Count(Classify(idx, leaf, ui1).diseased), Count(Classify(idx, leaf, ui2).diseased), Count(leaf));
  }

  /** app.py's severity: a percentage, 0 when there is no leaf pixel. */
  function PercentSeverity(diseased: nat, leaf: nat): (p: real)
    ensures leaf == 0 ==> p == 0.0
    ensures leaf > 0 ==> p * leaf as real == 100.0 * diseased as real
  {
    if leaf > 0 then (diseased as real / leaf as real) * 100.0 else 0.0
  }

  /** The percentage lies in [0, 100] and grows with the index threshold. */
  lemma PercentSeverityBounds(idx: IndexMap, leaf: Mask, ui: real)
    requires IsRect(idx) && HasShape(leaf, |idx|, Cols(idx))
    ensures 0.0 <= PercentSeverity(Count(Classify(idx, leaf, ui).diseased), Count(leaf)) <= 100.0
  {
    var n, d := Count(Classify(idx, leaf, ui).diseased), Count(leaf);
    ClassificationCounts(idx, leaf, ui);
    if d > 0 {
      RatioBounds(n, d);
      assert PercentSeverity(n, d) == Divide(n, d).value * 100.0;
    }
  }

  lemma PercentSeverityMonotone(idx: IndexMap, leaf: Mask, ui1: real, ui2: real)
    requires IsRect(idx) && HasShape(leaf, |idx|, Cols(idx))
    requires ui1 <= ui2
    ensures PercentSeverity(Count(Classify(idx, leaf, ui1).diseased), Count(leaf)) <=
            PercentSeverity(Count(Classify(idx, leaf, ui2).diseased), Count(leaf))
  {
    var n1, n2, d := Count(Classify(idx, leaf, ui1).diseased), Count(Classify(idx, leaf, ui2).diseased), Count(leaf);
    DiseasedCountMonotone(idx, leaf, ui1, ui2);
    if d > 0 {
      RatioMonotone(n1, n2, d);
      assert PercentSeverity(n1, d) == Divide(n1, d).value * 100.0;
      assert PercentSeverity(n2, d) == Divide(n2, d).value * 100.0;
    }
  }

  /** Background OK followed by a classification at `ui` (main.py, v0.py):
      the severity is nan exactly when no pixel is leaf and otherwise lies in
      [0, 1], and the view has three colours, black off the leaf. */
  lemma SegmentationResult(orig: Image, ub: int, ui: real)
    requires IsRect(orig)
    ensures var leaf := LeafMask(orig, BGR, ub);
            var c := Classify(IndexMapOf(orig, BGR), leaf, ui);
            var q := Divide(Count(c.diseased), Count(leaf));
            (Count(leaf) == 0 <==> q.NaN?) && (Count(leaf) > 0 ==> 0.0 <= q.value <= 1.0) &&
            forall i, j :: 0 <= i < |orig| && 0 <= j < Cols(orig) ==>
              TwoColourView(Segmented(orig, ub), c)[i][j] in {Black, Full1, Full2}
  {
    var leaf := LeafMask(orig, BGR, ub);
    SeverityBounds(IndexMapOf(orig, BGR), leaf, ui);
    SegmentedViewPixels(orig, ub, ui);
  }
}
