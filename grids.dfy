/** Rectangular grids of cells (numpy 2-D arrays), boolean masks over them,
    counting the true cells of a mask (np.sum) and numpy broadcasting of a
    mask against a larger grid. */
module Grids {

  type Mask = seq<seq<bool>>

  /** Number of columns, read from the first row. */
  function Cols<T>(g: seq<seq<T>>): nat {
    if |g| == 0 then 0 else |g[0]|
  }

  /** `g` has `h` rows of `w` cells each. */
  predicate HasShape<T>(g: seq<seq<T>>, h: nat, w: nat) {
    |g| == h && forall i :: 0 <= i < h ==> |g[i]| == w
  }

  /** Every row is as long as the first one. */
  predicate IsRect<T>(g: seq<seq<T>>) {
    HasShape(g, |g|, Cols(g))
  }

  /** A rectangular grid with at least one row and one column: the shape of
      every decoded image and of every mask derived from one. */
  predicate IsGrid<T>(g: seq<seq<T>>) {
    |g| >= 1 && Cols(g) >= 1 && IsRect(g)
  }

  /** Number of true cells in one row. */
  function RowCount(row: seq<bool>): (n: nat)
    ensures n <= |row|
  {
    if row == [] then 0
    else RowCount(row[..|row| - 1]) + (if row[|row| - 1] then 1 else 0)
  }

  /** Number of true cells of a mask, as np.sum counts them: never more
      than the h * w cells of a rectangular mask. */
  function Count(m: Mask): (n: nat)
    ensures IsRect(m) ==> n <= |m| * Cols(m)
  {
    if m == [] then 0
    else
      var h := |m| - 1;
      var front := m[..h];
      assert IsRect(m) ==> HasShape(front, h, Cols(m)) && (h > 0 ==> Cols(front) == Cols(m));
      assert h * Cols(m) + Cols(m) == |m| * Cols(m);
      Count(front) + RowCount(m[h])
  }

  /** Counting is monotone in the mask. */
  lemma {:induction false} RowCountMono(a: seq<bool>, b: seq<bool>)
    requires |a| == |b|
    requires forall k :: 0 <= k < |a| && a[k] ==> b[k]
    ensures RowCount(a) <= RowCount(b)
  {
    if a != [] {
      RowCountMono(a[..|a| - 1], b[..|b| - 1]);
    }
  }

  lemma {:induction false} CountMono(a: Mask, b: Mask)
    requires |a| == |b|
    requires forall i :: 0 <= i < |a| ==> |a[i]| == |b[i]|
    requires forall i, j :: 0 <= i < |a| && 0 <= j < |a[i]| && a[i][j] ==> b[i][j]
    ensures Count(a) <= Count(b)
  {
    if a != [] {
      var n := |a| - 1;
      CountMono(a[..n], b[..n]);
      RowCountMono(a[n], b[n]);
    }
  }

  /** Counting is additive over two disjoint masks whose union is a third. */
  lemma {:induction false} RowCountSplit(a: seq<bool>, b: seq<bool>, c: seq<bool>)
    requires |a| == |b| == |c|
    requires forall k :: 0 <= k < |c| ==> !(a[k] && b[k]) && (c[k] == (a[k] || b[k]))
    ensures RowCount(a) + RowCount(b) == RowCount(c)
  {
    if c != [] {
      var n := |c| - 1;
      RowCountSplit(a[..n], b[..n], c[..n]);
    }
  }

  lemma {:induction false} CountSplit(a: Mask, b: Mask, c: Mask)
    requires |a| == |b| == |c|
    requires forall i :: 0 <= i < |c| ==> |a[i]| == |b[i]| == |c[i]|
    requires forall i, j :: 0 <= i < |c| && 0 <= j < |c[i]| ==>
               !(a[i][j] && b[i][j]) && (c[i][j] == (a[i][j] || b[i][j]))
    ensures Count(a) + Count(b) == Count(c)
  {
    if c != [] {
      var n := |c| - 1;
      CountSplit(a[..n], b[..n], c[..n]);
      RowCountSplit(a[n], b[n], c[n]);
    }
  }

  /** Two rows that differ in every cell count, together, every cell. */
  lemma {:induction false} RowCountComplement(a: seq<bool>, b: seq<bool>)
    requires |a| == |b|
    requires forall k :: 0 <= k < |a| ==> a[k] != b[k]
    ensures RowCount(a) + RowCount(b) == |a|
  {
    if a != [] {
      var n := |a| - 1;
      RowCountComplement(a[..n], b[..n]);
    }
  }

  /** Two h x w masks that differ in every cell count, together, h * w
      cells. */
  lemma {:induction false} CountComplement(a: Mask, b: Mask, h: nat, w: nat)
    requires HasShape(a, h, w) && HasShape(b, h, w)
    requires forall i, j :: 0 <= i < h && 0 <= j < w ==> a[i][j] != b[i][j]
    ensures Count(a) + Count(b) == h * w
  {
    if h > 0 {
      var fa, fb := a[..h - 1], b[..h - 1];
      assert Count(a) == Count(fa) + RowCount(a[h - 1]);
      assert Count(b) == Count(fb) + RowCount(b[h - 1]);
      CountComplement(fa, fb, h - 1, w);
      RowCountComplement(a[h - 1], b[h - 1]);
      assert (h - 1) * w + w == h * w;
    }
  }

  /** An all-true h x w mask counts h * w cells. */
  lemma {:induction false} AllTrueCount(m: Mask, h: nat, w: nat)
    requires HasShape(m, h, w)
    requires forall i, j :: 0 <= i < h && 0 <= j < w ==> m[i][j]
    ensures Count(m) == h * w
  {
    if h > 0 {
      var front := m[..h - 1];
      AllTrueCount(front, h - 1, w);
      AllTrueRowCount(m[h - 1]);
    }
  }

  lemma {:induction false} AllTrueRowCount(row: seq<bool>)
    requires forall k :: 0 <= k < |row| ==> row[k]
    ensures RowCount(row) == |row|
  {
    if row != [] {
      AllTrueRowCount(row[..|row| - 1]);
    }
  }

  /** A count is zero exactly when no cell is set. */
  lemma {:induction false} RowCountZero(row: seq<bool>)
    ensures RowCount(row) == 0 <==> forall k :: 0 <= k < |row| ==> !row[k]
  {
    if row != [] {
      RowCountZero(row[..|row| - 1]);
      assert forall k :: 0 <= k < |row| - 1 ==> row[..|row| - 1][k] == row[k];
    }
  }

  lemma {:induction false} CountZero(m: Mask)
    ensures Count(m) == 0 <==> forall i, j :: 0 <= i < |m| && 0 <= j < |m[i]| ==> !m[i][j]
  {
    if m != [] {
      var n := |m| - 1;
      CountZero(m[..n]);
      RowCountZero(m[n]);
      assert forall i :: 0 <= i < n ==> m[..n][i] == m[i];
    }
  }

  /** numpy broadcasting of `m` against an h x w array, followed by boolean
      indexing of that array: it goes through exactly when every dimension of
      `m` equals the array's or is 1. A mask of the array's own shape always
      fits, and so does a 1 x 1 mask, whatever the array's shape. */
  predicate Fits<T>(m: seq<seq<T>>, h: nat, w: nat): (b: bool)
    ensures h >= 1 && w >= 1 && HasShape(m, h, w) ==> b
    ensures IsGrid(m) && |m| == 1 && Cols(m) == 1 ==> b
    ensures b ==> IsGrid(m)
  {
    IsGrid(m) && (|m| == h || |m| == 1) && (Cols(m) == w || Cols(m) == 1)
  }

  /** The h x w view numpy builds from `m` by stretching its size-1 dimensions. */
  function Expand<T>(m: seq<seq<T>>, h: nat, w: nat): (e: seq<seq<T>>)
    requires Fits(m, h, w)
    ensures HasShape(e, h, w)
  {
    seq(h, i requires 0 <= i < h =>
      seq(w, j requires 0 <= j < w =>
        m[if |m| == 1 then 0 else i][if Cols(m) == 1 then 0 else j]))
  }

  /** Broadcasting a mask against its own shape changes nothing. */
  lemma ExpandSameShape<T>(m: seq<seq<T>>)
    requires IsGrid(m)
    ensures Expand(m, |m|, Cols(m)) == m
  {
    var e := Expand(m, |m|, Cols(m));
    forall i | 0 <= i < |m| ensures e[i] == m[i] {
    }
  }

  /** Broadcasting an empty mask yields an empty mask. */
  lemma ExpandCountZero(m: Mask, h: nat, w: nat)
    requires Fits(m, h, w)
    requires Count(m) == 0
    ensures Count(Expand(m, h, w)) == 0
  {
    CountZero(m);
    CountZero(Expand(m, h, w));
  }

  /** The 1 x 1 true mask broadcasts to the all-true mask. */
  lemma ExpandUnit(h: nat, w: nat)
    ensures forall i, j :: 0 <= i < h && 0 <= j < w ==> Expand([[true]], h, w)[i][j]
  {
    var u: Mask := [[true]];
    assert Cols(u) == 1 && IsGrid(u);
    forall i, j | 0 <= i < h && 0 <= j < w ensures Expand(u, h, w)[i][j] {
      assert Expand(u, h, w)[i][j] == u[0][0];
    }
  }
}
