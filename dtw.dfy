/**
 * Dynamic time warping of two series of numbers: the cost of a pair is
 * their distance, and the table entry for the first `i` and `j` values is
 * that cost plus the cheapest of its three neighbours above and to the
 * left. The borders of the table are infinite except for its corner.
 */
module Dtw {

  /** A table entry: a real cost, or numpy's `inf`. */
  datatype Ext = Fin(v: real) | Inf

  /** `x + e`, where anything plus `inf` is `inf`. */
  function Plus(x: real, e: Ext): Ext {
    match e
    case Inf => Inf
    case Fin(y) => Fin(x + y)
  }

  /** The smaller entry, `inf` being larger than every real. */
  function Min(a: Ext, b: Ext): Ext {
    match (a, b)
    case (Inf, _) => b
    case (_, Inf) => a
    case (Fin(x), Fin(y)) => if x <= y then a else b
  }

  /** `np.min` of three entries. */
  function Min3(a: Ext, b: Ext, c: Ext): Ext {
    Min(Min(a, b), c)
  }

  /**
   * `DTWCost`: the Euclidean norm of the one-element vector `[y - x]`,
   * that is, the distance between the two values.
   */
  function Cost(x: real, y: real): (c: real)
    ensures c >= 0.0
    ensures c == 0.0 <==> x == y
  {
    if y - x >= 0.0 then y - x else x - y
  }

  /** The cost does not depend on the order of the two values. */
  lemma CostSymmetric(x: real, y: real)
    ensures Cost(x, y) == Cost(y, x)
  {
  }

  /**
   * Row `i` of the table filled from the left: the border entry is `inf`,
   * and entry `j` is the cost of `x` against `b[j - 1]` plus the cheapest
   * of the entry above (in `prev`), the entry to the left and the entry
   * above-left. `Cells(x, b, prev, j)` is the row up to entry `j`.
   */
  function Cells(x: real, b: seq<real>, prev: seq<Ext>, j: nat): (r: seq<Ext>)
    requires |prev| == |b| + 1 && j <= |b|
    ensures |r| == j + 1
    decreases j
  {
    if j == 0 then [Inf]
    else
      var left := Cells(x, b, prev, j - 1);
      left + [Plus(Cost(x, b[j - 1]), Min3(prev[j], left[j - 1], prev[j - 1]))]
  }

  /** Row `i` of the table for `a` (rows) and `b` (columns); row 0 is the corner 0 followed by `inf`. */
  function Row(a: seq<real>, b: seq<real>, i: nat): (r: seq<Ext>)
    requires i <= |a|
    ensures |r| == |b| + 1
    decreases i
  {
    if i == 0 then [Fin(0.0)] + seq(|b|, _ => Inf)
    else Cells(a[i - 1], b, Row(a, b, i - 1), |b|)
  }

  /** The entry `DTW[i, j]`. */
  function Table(a: seq<real>, b: seq<real>, i: nat, j: nat): Ext
    requires i <= |a| && j <= |b|
  {
    Row(a, b, i)[j]
  }

  /** Filling further to the right leaves the entries already filled alone. */
  lemma {:induction false} CellsPrefix(x: real, b: seq<real>, prev: seq<Ext>, j: nat, k: nat)
    requires |prev| == |b| + 1 && k <= j <= |b|
    ensures Cells(x, b, prev, j)[k] == Cells(x, b, prev, k)[k]
    decreases j
  {
    if k < j {
      CellsPrefix(x, b, prev, j - 1, k);
    }
  }

  /** `DTWDistance`: the bottom-right entry of the table. */
  function Distance(a: seq<real>, b: seq<real>): Ext {
    Table(a, b, |a|, |b|)
  }

  /** The corner is 0 and the rest of the first row and column is `inf`. */
  lemma TableBorders(a: seq<real>, b: seq<real>)
    ensures Table(a, b, 0, 0) == Fin(0.0)
    ensures forall i :: 0 < i <= |a| ==> Table(a, b, i, 0) == Inf
    ensures forall j :: 0 < j <= |b| ==> Table(a, b, 0, j) == Inf
  {
    forall i | 0 < i <= |a|
      ensures Table(a, b, i, 0) == Inf
    {
      CellsPrefix(a[i - 1], b, Row(a, b, i - 1), |b|, 0);
    }
  }

  /** The smaller of two entries is one of them, is `inf` only when both are, and is at most each finite one. */
  lemma MinIsLeast(a: Ext, b: Ext)
    ensures Min(a, b) == a || Min(a, b) == b
    ensures Min(a, b).Inf? <==> a.Inf? && b.Inf?
    ensures Min(a, b).Fin? ==> (a.Fin? ==> Min(a, b).v <= a.v) && (b.Fin? ==> Min(a, b).v <= b.v)
  {
  }

  /** The smaller of two entries does not depend on their order. */
  lemma MinCommutes(a: Ext, b: Ext)
    ensures Min(a, b) == Min(b, a)
  {
  }

  /** An entry one step inside the borders is its cost plus the cheapest neighbour. */
  lemma TableStep(a: seq<real>, b: seq<real>, i: nat, j: nat)
    requires 0 < i <= |a| && 0 < j <= |b|
    ensures Table(a, b, i, j) ==
      Plus(Cost(a[i - 1], b[j - 1]), Min3(Table(a, b, i - 1, j), Table(a, b, i, j - 1), Table(a, b, i - 1, j - 1)))
  {
    var prev := Row(a, b, i - 1);
    CellsPrefix(a[i - 1], b, prev, |b|, j);
    CellsPrefix(a[i - 1], b, prev, |b|, j - 1);
    CellsPrefix(a[i - 1], b, prev, j, j - 1);
  }

  /** No entry is a negative real. */
  lemma {:induction false} TableNotNegative(a: seq<real>, b: seq<real>, i: nat, j: nat)
    requires i <= |a| && j <= |b|
    ensures Table(a, b, i, j).Fin? ==> Table(a, b, i, j).v >= 0.0
    decreases i + j
  {
    TableBorders(a, b);
    if i > 0 && j > 0 {
      TableNotNegative(a, b, i - 1, j);
      TableNotNegative(a, b, i, j - 1);
      TableNotNegative(a, b, i - 1, j - 1);
      TableStep(a, b, i, j);
    }
  }

  /** Every entry away from the borders is finite, as is the corner. */
  lemma {:induction false} TableFiniteInside(a: seq<real>, b: seq<real>, i: nat, j: nat)
    requires i <= |a| && j <= |b|
    requires (i == 0) == (j == 0)
    ensures Table(a, b, i, j).Fin?
    decreases i + j
  {
    TableBorders(a, b);
    if i > 0 {
      TableStep(a, b, i, j);
      if i == 1 && j == 1 {
      } else if i == 1 {
        TableFiniteInside(a, b, i, j - 1);
      } else if j == 1 {
        TableFiniteInside(a, b, i - 1, j);
      } else {
        TableFiniteInside(a, b, i - 1, j - 1);
      }
    }
  }

  /** Swapping the two series transposes the table. */
  lemma {:induction false} TableSymmetric(a: seq<real>, b: seq<real>, i: nat, j: nat)
    requires i <= |a| && j <= |b|
    ensures Table(a, b, i, j) == Table(b, a, j, i)
    decreases i + j
  {
    TableBorders(a, b);
    TableBorders(b, a);
    if i > 0 && j > 0 {
      TableSymmetric(a, b, i - 1, j);
      TableSymmetric(a, b, i, j - 1);
      TableSymmetric(a, b, i - 1, j - 1);
      CostSymmetric(a[i - 1], b[j - 1]);
      TableStep(a, b, i, j);
      TableStep(b, a, j, i);
      MinCommutes(Table(a, b, i - 1, j), Table(a, b, i, j - 1));
    }
  }

  /**
   * The distance is 0 when both series are empty and `inf` when exactly
   * one is; otherwise it is finite, not negative, and the same in either
   * order.
   */
  lemma DistanceProperties(a: seq<real>, b: seq<real>)
    ensures |a| == 0 && |b| == 0 ==> Distance(a, b) == Fin(0.0)
    ensures (|a| == 0) != (|b| == 0) ==> Distance(a, b) == Inf
    ensures |a| > 0 && |b| > 0 ==> Distance(a, b).Fin? && Distance(a, b).v >= 0.0
    ensures Distance(a, b) == Distance(b, a)
  {
    TableBorders(a, b);
    TableNotNegative(a, b, |a|, |b|);
    if |a| > 0 && |b| > 0 {
      TableFiniteInside(a, b, |a|, |b|);
    }
    TableSymmetric(a, b, |a|, |b|);
  }

  /** Along the diagonal of a series against itself every entry is 0. */
  lemma {:induction false} TableSelfDiagonal(a: seq<real>, i: nat)
    requires i <= |a|
    ensures Table(a, a, i, i) == Fin(0.0)
  {
    TableBorders(a, a);
    if i > 0 {
      TableSelfDiagonal(a, i - 1);
      TableNotNegative(a, a, i - 1, i);
      TableNotNegative(a, a, i, i - 1);
      TableStep(a, a, i, i);
    }
  }

  /** A series is at distance 0 from itself. */
  lemma DistanceToSelf(a: seq<real>)
    ensures Distance(a, a) == Fin(0.0)
  {
    TableSelfDiagonal(a, |a|);
  }

  /**
   * `DTWDistance`: the table is an `(n+1) x (m+1)` array, zero-filled,
   * with its first column and then its first row set to `inf` and its
   * corner to 0, filled row by row; the result is its last entry.
   */
  method DTWDistance(arr1: seq<real>, arr2: seq<real>) returns (r: Ext)
    ensures r == Distance(arr1, arr2)
  {
    var nRows, nCols := |arr1|, |arr2|;
    var dtw := new Ext[nRows + 1, nCols + 1]((_, _) => Fin(0.0));
    for ii := 0 to nRows + 1
      invariant forall p :: 0 <= p < ii ==> dtw[p, 0] == Inf
    {
      dtw[ii, 0] := Inf;
    }
    for jj := 0 to nCols + 1
      invariant forall p :: 0 < p <= nRows ==> dtw[p, 0] == Inf
      invariant forall q :: 0 <= q < jj ==> dtw[0, q] == Inf
    {
      dtw[0, jj] := Inf;
    }
    dtw[0, 0] := Fin(0.0);
    for ii := 1 to nRows + 1
      invariant forall p, q :: 0 <= p < ii && 0 <= q <= nCols ==> dtw[p, q] == Table(arr1, arr2, p, q)
      invariant forall p :: ii <= p <= nRows ==> dtw[p, 0] == Inf
    {
      FillRow(arr1, arr2, dtw, ii);
    }
    r := dtw[nRows, nCols];
  }

  /** The inner loop of `DTWDistance`: row `ii` from its left border and the row above it. */
  method FillRow(arr1: seq<real>, arr2: seq<real>, dtw: array2<Ext>, ii: nat)
    requires 0 < ii <= |arr1| && dtw.Length0 == |arr1| + 1 && dtw.Length1 == |arr2| + 1
    requires forall p, q :: 0 <= p < ii && 0 <= q <= |arr2| ==> dtw[p, q] == Table(arr1, arr2, p, q)
    requires forall p :: ii <= p <= |arr1| ==> dtw[p, 0] == Inf
    modifies dtw
    ensures forall p, q :: 0 <= p <= ii && 0 <= q <= |arr2| ==> dtw[p, q] == Table(arr1, arr2, p, q)
    ensures forall p :: ii < p <= |arr1| ==> dtw[p, 0] == Inf
  {
    assert dtw[ii, 0] == Table(arr1, arr2, ii, 0) by {
      TableBorders(arr1, arr2);
    }
    for jj := 1 to |arr2| + 1
      invariant forall p, q :: 0 <= p < ii && 0 <= q <= |arr2| ==> dtw[p, q] == Table(arr1, arr2, p, q)
      invariant forall q :: 0 <= q < jj ==> dtw[ii, q] == Table(arr1, arr2, ii, q)
      invariant forall p :: ii < p <= |arr1| ==> dtw[p, 0] == Inf
    {
      var cost := Cost(arr1[ii - 1], arr2[jj - 1]);
      TableStep(arr1, arr2, ii, jj);
      dtw[ii, jj] := Plus(cost, Min3(dtw[ii - 1, jj], dtw[ii, jj - 1], dtw[ii - 1, jj - 1]));
    }
  }
}
