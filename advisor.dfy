/** The visible steps of the threshold suggestion in main.py: the index
    values of the leaf pixels that are handed to the clustering, and the
    choice of the index threshold from the cluster centres it returns. Otsu's
    threshold and the k-means centres themselves are inputs. */
module Advisor {
  import opened Grids
  import opened Pixels
  import opened Pipeline

  /** `values[mask]` on one row: the values under the mask, in order. The
      value of the k-th cell lands at the position given by the number of
      true cells before it. */
  function RowSelect(v: seq<real>, m: seq<bool>): (r: seq<real>)
    requires |v| == |m|
    ensures |r| == RowCount(m)
    ensures forall x :: x in r ==> exists k :: 0 <= k < |m| && m[k] && v[k] == x
    ensures forall k :: 0 <= k < |m| && m[k] ==>
              RowCount(m[..k]) < |r| && r[RowCount(m[..k])] == v[k]
  {
    if m == [] then []
    else
      var n := |m| - 1;
      var front := RowSelect(v[..n], m[..n]);
      var r := front + (if m[n] then [v[n]] else []);
      assert forall k :: 0 <= k < |m| && m[k] ==>
               RowCount(m[..k]) < |r| && r[RowCount(m[..k])] == v[k] by {
        forall k | 0 <= k < |m| && m[k]
          ensures RowCount(m[..k]) < |r| && r[RowCount(m[..k])] == v[k]
        {
          if k < n {
            assert m[..n][..k] == m[..k];
            assert m[..n][k] && v[..n][k] == v[k];
          } else {
            assert m[..k] == m[..n];
          }
        }
      }
      r
  }

  /** `ngrdi[mascara_hojas]`: the index values of the leaf pixels, row by
      row (where each one lands is stated by SelectAt). */
  function Select(idx: IndexMap, leaf: Mask): (r: seq<real>)
    requires |idx| == |leaf| && forall i :: 0 <= i < |idx| ==> |idx[i]| == |leaf[i]|
    ensures |r| == Count(leaf)
    ensures forall x :: x in r ==> exists i, j :: 0 <= i < |leaf| && 0 <= j < |leaf[i]| && leaf[i][j] && idx[i][j] == x
  {
    if leaf == [] then []
    else
      var n := |leaf| - 1;
      var front := Select(idx[..n], leaf[..n]);
      var last := RowSelect(idx[n], leaf[n]);
      assert Count(leaf) == Count(leaf[..n]) + RowCount(leaf[n]);
      forall x | x in front + last
        ensures exists i, j :: 0 <= i < |leaf| && 0 <= j < |leaf[i]| && leaf[i][j] && idx[i][j] == x
      {
        if x in front {
          var i, j :| 0 <= i < n && 0 <= j < |leaf[..n][i]| && leaf[..n][i][j] && idx[..n][i][j] == x;
          assert leaf[i][j] && idx[i][j] == x;
        } else {
          var j :| 0 <= j < |leaf[n]| && leaf[n][j] && idx[n][j] == x;
          assert leaf[n][j] && idx[n][j] == x;
        }
      }
      front + last
  }

  /** The value of leaf pixel (i, j) lands in `ngrdi[mascara_hojas]` after
      the leaf pixels of the rows above it and those to its left. */
  lemma {:induction false} SelectAt(idx: IndexMap, leaf: Mask, i: nat, j: nat)
    requires |idx| == |leaf| && forall i :: 0 <= i < |idx| ==> |idx[i]| == |leaf[i]|
    requires i < |leaf| && j < |leaf[i]| && leaf[i][j]
    ensures Count(leaf[..i]) + RowCount(leaf[i][..j]) < |Select(idx, leaf)|
    ensures Select(idx, leaf)[Count(leaf[..i]) + RowCount(leaf[i][..j])] == idx[i][j]
  {
    var n := |leaf| - 1;
    var front := Select(idx[..n], leaf[..n]);
    var last := RowSelect(idx[n], leaf[n]);
    assert Select(idx, leaf) == front + last;
    if i < n {
      SelectAt(idx[..n], leaf[..n], i, j);
      assert leaf[..n][..i] == leaf[..i];
      assert leaf[..n][i] == leaf[i] && idx[..n][i] == idx[i];
    } else {
      assert leaf[..i] == leaf[..n];
    }
  }

  /** The data the clustering is fitted on: the index value of every leaf
      pixel of the BGR image under the Otsu threshold, in row-major order,
      each in [-1, 1]. */
  function ClusterInput(img: Image, ub: int): (v: seq<real>)
    requires IsRect(img)
    ensures |v| == Count(LeafMask(img, BGR, ub))
    ensures forall x :: x in v ==> -1.0 <= x <= 1.0
    ensures var leaf := LeafMask(img, BGR, ub);
            forall i, j :: 0 <= i < |img| && 0 <= j < Cols(img) && leaf[i][j] ==>
              Count(leaf[..i]) + RowCount(leaf[i][..j]) < |v| &&
              v[Count(leaf[..i]) + RowCount(leaf[i][..j])] == IndexMapOf(img, BGR)[i][j]
  {
    var idx, leaf := IndexMapOf(img, BGR), LeafMask(img, BGR, ub);
    IndexMapBounds(img, BGR);
    forall i, j | 0 <= i < |img| && 0 <= j < Cols(img) && leaf[i][j]
      ensures Count(leaf[..i]) + RowCount(leaf[i][..j]) < |Select(idx, leaf)|
      ensures Select(idx, leaf)[Count(leaf[..i]) + RowCount(leaf[i][..j])] == idx[i][j]
    {
      SelectAt(idx, leaf, i, j);
    }
    Select(idx, leaf)
  }

  predicate Sorted(s: seq<real>) {
    forall i, j :: 0 <= i < j < |s| ==> s[i] <= s[j]
  }

  function Insert(x: real, s: seq<real>): (r: seq<real>)
    requires Sorted(s)
    ensures Sorted(r) && multiset(r) == multiset(s) + multiset{x}
  {
    if s == [] then [x]
    else if x <= s[0] then
      ConsSorted(x, s);
      [x] + s
    else
      var rest := Insert(x, s[1..]);
      assert s == [s[0]] + s[1..];
      assert forall k :: 0 <= k < |rest| ==> s[0] <= rest[k] by {
        forall k | 0 <= k < |rest| ensures s[0] <= rest[k] {
          assert rest[k] in multiset(rest);
          assert rest[k] == x || rest[k] in multiset(s[1..]);
        }
      }
      ConsSorted(s[0], rest);
      assert multiset([s[0]] + rest) == multiset{s[0]} + multiset(rest);
      [s[0]] + rest
  }

  /** A head no larger than any element of a sorted tail keeps it sorted. */
  lemma ConsSorted(h: real, t: seq<real>)
    requires Sorted(t) && forall k :: 0 <= k < |t| ==> h <= t[k]
    ensures Sorted([h] + t)
  {
    var r := [h] + t;
    forall i, j | 0 <= i < j < |r| ensures r[i] <= r[j] {
      assert r[j] == t[j - 1];
      if i > 0 {
        assert r[i] == t[i - 1];
      }
    }
  }

  /** `clu_cent.sort()`: the centres in ascending order. */
  function Sort(s: seq<real>): (r: seq<real>)
    ensures Sorted(r) && multiset(r) == multiset(s)
  {
    if s == [] then []
    else
      assert s == [s[0]] + s[1..];
      Insert(s[0], Sort(s[1..]))
  }

  /** Two positions holding one value make it occur twice. */
  lemma TwiceInMultiset(c: seq<real>, j: nat, k: nat)
    requires j < k < |c| && c[j] == c[k]
    ensures multiset(c)[c[j]] >= 2
  {
    assert c == c[..k] + [c[k]] + c[k + 1..];
    assert c[j] in c[..k];
  }

  /** A strictly smallest head occurs once in a sorted sequence. */
  lemma UniqueHead(s: seq<real>)
    requires Sorted(s) && |s| >= 2 && s[0] < s[1]
    ensures multiset(s)[s[0]] == 1
  {
    assert s == [s[0]] + s[1..];
    assert s[0] !in s[1..];
  }

  /** The mean of the two smallest centres is at least the smallest centre,
      and at most one centre lies strictly below it. */
  lemma MeanOfTwoSmallest(c: seq<real>)
    requires |c| >= 2
    ensures var ui := (Sort(c)[0] + Sort(c)[1]) / 2.0;
            (exists k :: 0 <= k < |c| && c[k] <= ui) &&
            (forall j, k :: 0 <= j < k < |c| ==> ui <= c[j] || ui <= c[k])
  {
    var s := Sort(c);
    var ui := (s[0] + s[1]) / 2.0;
    assert |s| == |c| by {
      assert |multiset(s)| == |multiset(c)|;
    }
    assert s[0] in multiset(c);
    var k0 :| 0 <= k0 < |c| && c[k0] == s[0];
    forall j, k | 0 <= j < k < |c| ensures ui <= c[j] || ui <= c[k] {
      if c[j] < ui && c[k] < ui {
        BelowMeanIsHead(s, c[j]);
        BelowMeanIsHead(s, c[k]);
        TwiceInMultiset(c, j, k);
        UniqueHead(s);
        assert false;
      }
    }
  }

  /** In a sorted sequence, a value below the mean of the first two elements
      can only be the first, which is then strictly smallest. */
  lemma BelowMeanIsHead(s: seq<real>, v: real)
    requires Sorted(s) && |s| >= 2 && v in multiset(s) && v < (s[0] + s[1]) / 2.0
    ensures v == s[0] && s[0] < s[1]
  {
    var p :| 0 <= p < |s| && s[p] == v;
    assert s[0] <= s[1] && s[1] <= s[|s| - 1];
  }

  /** `np.mean(clu_cent[:2])` after sorting: the suggested index threshold.
      It lies between the smallest and the second-smallest centre, and in
      [-1, 1] when the centres do. */
  function SuggestIndexThreshold(centers: seq<real>): (ui: real)
    requires |centers| >= 2
    ensures exists k :: 0 <= k < |centers| && centers[k] <= ui
    ensures forall j, k :: 0 <= j < k < |centers| ==> ui <= centers[j] || ui <= centers[k]
    ensures (forall k :: 0 <= k < |centers| ==> -1.0 <= centers[k] <= 1.0) ==> -1.0 <= ui <= 1.0
  {
    MeanOfTwoSmallest(centers);
    var s := Sort(centers);
    assert s[0] in multiset(centers) && s[1] in multiset(centers);
    (s[0] + s[1]) / 2.0
  }
}
