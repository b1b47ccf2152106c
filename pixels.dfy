/** 8-bit colour pixels, the two channel orders the programs use, the
    normalized green-red difference index of one pixel, and Python's int()
    on a slider value. */
module Pixels {

  /** One uint8 channel value. */
  type Byte = x: int | 0 <= x < 256

  /** A pixel as the three bytes stored in an array cell, in memory order. */
  datatype Pixel = Pixel(c0: Byte, c1: Byte, c2: Byte)

  /** OpenCV decodes into BGR order; PIL, and cv2.cvtColor(..., COLOR_BGR2RGB),
      give RGB order. */
  datatype Layout = BGR | RGB

  function Red(p: Pixel, l: Layout): Byte {
    if l == BGR then p.c2 else p.c0
  }

  function Green(p: Pixel, l: Layout): Byte {
    p.c1
  }

  function Blue(p: Pixel, l: Layout): Byte {
    if l == BGR then p.c0 else p.c2
  }

  /** cv2.COLOR_BGR2RGB on one pixel: the same colour in the other order. */
  function Swap(p: Pixel): (q: Pixel)
    ensures Red(q, RGB) == Red(p, BGR) && Green(q, RGB) == Green(p, BGR) && Blue(q, RGB) == Blue(p, BGR)
    ensures Red(q, BGR) == Red(p, RGB) && Green(q, BGR) == Green(p, RGB) && Blue(q, BGR) == Blue(p, RGB)
  {
    Pixel(p.c2, p.c1, p.c0)
  }

  /** The literal triples the programs paint, named by their stored bytes:
      [255, 0, 0], [0, 255, 0], [0, 0, 255] and [0, 0, 0]. */
  const Full0: Pixel := Pixel(255, 0, 0)
  const Full1: Pixel := Pixel(0, 255, 0)
  const Full2: Pixel := Pixel(0, 0, 255)
  const Black: Pixel := Pixel(0, 0, 0)

  /** The normalized green-red difference index of one pixel,
      np.divide(g - r, g + r, out=zeros, where=(g + r) != 0) with the guard
      evaluated on uint8 values, so that a sum of 256 wraps to 0 and the
      pixel keeps the default 0.0. */
  function Ngrdi(g: Byte, r: Byte): (x: real)
    ensures (g + r) % 256 != 0 ==> x * (g + r) as real == (g - r) as real
    ensures (g + r) % 256 == 0 <==> (g + r == 0 || g + r == 256)
    ensures (g + r) % 256 == 0 ==> x == 0.0
  {
    if (g + r) % 256 == 0 then 0.0 else (g - r) as real / (g + r) as real
  }

  /** Every index value lies in [-1, 1]. */
  lemma NgrdiBounds(g: Byte, r: Byte)
    ensures -1.0 <= Ngrdi(g, r) <= 1.0
  {
    var x := Ngrdi(g, r);
    if (g + r) % 256 != 0 {
      var s := (g + r) as real;
      var d := (g - r) as real;
      assert x * s == d && -s <= d <= s;
      QuotientBounds(x, s, d);
    }
  }

  /** The index is zero exactly when the channels are equal or the wrapped
      sum is zero; it is positive exactly when green exceeds red, unless the
      wrap forces it to zero. */
  lemma NgrdiSign(g: Byte, r: Byte)
    ensures Ngrdi(g, r) == 0.0 <==> (g == r || g + r == 0 || g + r == 256)
    ensures Ngrdi(g, r) > 0.0 <==> (g > r && g + r != 256)
  {
    var x := Ngrdi(g, r);
    if (g + r) % 256 != 0 {
      var s := (g + r) as real;
      assert x * s == (g - r) as real;
      ProductSign(x, s);
    }
  }

  /** A quotient whose numerator is bounded by its positive denominator lies
      in [-1, 1]. */
  lemma QuotientBounds(x: real, s: real, d: real)
    requires s > 0.0 && x * s == d && -s <= d <= s
    ensures -1.0 <= x <= 1.0
  {
    ProductSign(x - 1.0, s);
    ProductSign(x + 1.0, s);
  }

  /** The sign of a product with a positive factor is the sign of the other
      factor. */
  lemma ProductSign(u: real, s: real)
    requires s > 0.0
    ensures u > 0.0 ==> u * s > 0.0
    ensures u < 0.0 ==> u * s < 0.0
    ensures u == 0.0 ==> u * s == 0.0
  {
  }

  /** The wrap in the guard in action: green 56 and red 200 give 0.0 where
      the true ratio is -0.5625. */
  lemma NgrdiWrapExample()
    ensures Ngrdi(56, 200) == 0.0
    ensures (56 - 200) as real / (56 + 200) as real == -0.5625
  {
  }

  /** Python's int() on a float: truncation toward zero. */
  function TruncToInt(v: real): (n: int)
    ensures 0.0 <= v ==> n as real <= v < n as real + 1.0
    ensures v < 0.0 ==> n as real - 1.0 < v <= n as real
  {
    if v >= 0.0 then v.Floor else -((-v).Floor)
  }
}
