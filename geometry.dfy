// Index and slab arithmetic of the FFT analysis step: the row-major
// flattening used by the staging loops, the number of whole rows that fit
// in the transform library's local allocation, and the exclusive prefix sum
// that places each rank's rows in the global array.

module Geometry {

  /** The global (d0, d1, d2) extent of a 3-D field; d0 varies slowest. */
  datatype Shape3 = Shape3(d0: nat, d1: nat, d2: nat)
  {
    function Size(): nat { d0 * d1 * d2 }
  }

  // ---------------------------------------------------------------------
  // Row-major flattening
  // ---------------------------------------------------------------------

  /** Position of cell (i, j, k) of a row-major block whose two fast extents are d1, d2. */
  function FlatIndex(i: nat, j: nat, k: nat, d1: nat, d2: nat): nat
  {
    i * d1 * d2 + j * d2 + k
  }

  lemma MulLeMonotone(a: nat, b: nat, c: nat)
    requires a <= b
    ensures a * c <= b * c
  {
  }

  lemma MulAssoc(a: nat, b: nat, c: nat)
    ensures a * b * c == a * (b * c)
  {
  }

  lemma MulAddDistrib(a: nat, b: nat, c: nat)
    ensures (a + b) * c == a * c + b * c
  {
  }

  lemma MulCancel(a: nat, b: nat, c: nat)
    requires c > 0 && a * c == b * c
    ensures a == b
  {
  }

  /** Cells of an n x d1 x d2 block land strictly below n * d1 * d2. */
  lemma FlatIndexBound(i: nat, j: nat, k: nat, n: nat, d1: nat, d2: nat)
    requires i < n && j < d1 && k < d2
    ensures FlatIndex(i, j, k, d1, d2) < n * d1 * d2
    ensures FlatIndex(i, j, k, d1, d2) < (i + 1) * d1 * d2
  {
    var m := d1 * d2;
    calc {
      j * d2 + k;
    <  j * d2 + d2;
    == { MulAddDistrib(j, 1, d2); }
      (j + 1) * d2;
    <= { MulLeMonotone(j + 1, d1, d2); }
      m;
    }
    calc {
      FlatIndex(i, j, k, d1, d2);
    == { MulAssoc(i, d1, d2); }
      i * m + (j * d2 + k);
    <  i * m + m;
    == { MulAddDistrib(i, 1, m); }
      (i + 1) * m;
    }
    MulAssoc(i + 1, d1, d2);
    MulLeMonotone(i + 1, n, m);
    MulAssoc(n, d1, d2);
  }

  /** Distinct cells of the block have distinct positions. */
  lemma FlatIndexInjective(i: nat, j: nat, k: nat, i': nat, j': nat, k': nat, d1: nat, d2: nat)
    requires j < d1 && k < d2 && j' < d1 && k' < d2
    requires FlatIndex(i, j, k, d1, d2) == FlatIndex(i', j', k', d1, d2)
    ensures i == i' && j == j' && k == k'
  {
    if i < i' {
      FlatIndexBound(i, j, k, i', d1, d2);
    } else if i' < i {
      FlatIndexBound(i', j', k', i, d1, d2);
    }
    assert i == i';
    assert i * d1 * d2 == i' * d1 * d2;
    assert j * d2 + k == j' * d2 + k';
    if j < j' {
      FlatIndexBound(0, j, k, 1, j', d2);
    } else if j' < j {
      FlatIndexBound(0, j', k', 1, j, d2);
    }
  }

  /** Every position below n * d1 * d2 is the flattening of exactly one cell of the block. */
  lemma FlatIndexOnto(t: nat, n: nat, d1: nat, d2: nat)
    requires t < n * d1 * d2
    ensures d1 > 0 && d2 > 0
    ensures t / (d1 * d2) < n && t % (d1 * d2) / d2 < d1 && t % d2 < d2
    ensures FlatIndex(t / (d1 * d2), t % (d1 * d2) / d2, t % d2, d1, d2) == t
  {
    PositiveExtents(t, n, d1, d2);
    UnflattenInRange(t, n, d1, d2);
    UnflattenFlattens(t, n, d1, d2);
  }

  lemma UnflattenInRange(t: nat, n: nat, d1: nat, d2: nat)
    requires d1 > 0 && d2 > 0 && t < n * (d1 * d2)
    ensures t / (d1 * d2) < n && t % (d1 * d2) / d2 < d1 && t % d2 < d2
  {
    DivLess(t, n, d1 * d2);
    DivLess(t % (d1 * d2), d1, d2);
  }

  lemma UnflattenFlattens(t: nat, n: nat, d1: nat, d2: nat)
    requires d1 > 0 && d2 > 0 && t < n * (d1 * d2)
    ensures FlatIndex(t / (d1 * d2), t % (d1 * d2) / d2, t % d2, d1, d2) == t
  {
    var m := d1 * d2;
    DivMod(t, m);
    DivMod(t % m, d2);
    Recombine(t, d1, d2, t / m, t % m, t % m / d2, t % m % d2);
  }

  /** A value below n * m has quotient below n. */
  lemma DivLess(t: nat, n: nat, m: nat)
    requires m > 0 && t < n * m
    ensures t / m < n
  {
    DivMod(t, m);
    if t / m >= n {
      MulLeMonotone(n, t / m, m);
    }
  }

  /** Plane, row and column put back together give the position, and the column is the position modulo d2. */
  lemma Recombine(t: nat, d1: nat, d2: nat, i: nat, rest: nat, j: nat, k: nat)
    requires d1 > 0 && d2 > 0
    requires t == i * (d1 * d2) + rest && rest == j * d2 + k && k < d2
    ensures FlatIndex(i, j, k, d1, d2) == t && t % d2 == k
  {
    MulAssoc(i, d1, d2);
    MulAddDistrib(i * d1, j, d2);
    DivModUnique(t, d2, i * d1 + j, k);
  }

  lemma PositiveExtents(t: nat, n: nat, d1: nat, d2: nat)
    requires t < n * d1 * d2
    ensures d1 > 0 && d2 > 0 && t < n * (d1 * d2)
  {
    assert (d1 == 0 || d2 == 0) ==> n * d1 * d2 == 0;
  }

  lemma DivMod(a: nat, m: nat)
    requires m > 0
    ensures a == a / m * m + a % m && a % m < m
  {
  }

  lemma DivModUnique(a: nat, m: nat, q: nat, r: nat)
    requires m > 0 && r < m && a == q * m + r
    ensures a / m == q && a % m == r
  {
    var q', r' := a / m, a % m;
    assert a == q' * m + r';
    if q < q' {
      MulLeMonotone(q + 1, q', m);
      assert false;
    } else if q' < q {
      MulLeMonotone(q' + 1, q, m);
      assert false;
    }
  }

  /** Moving past the last k of a row is the first cell of the next row. */
  lemma FlatIndexNextRow(i: nat, j: nat, d1: nat, d2: nat)
    ensures FlatIndex(i, j, d2, d1, d2) == FlatIndex(i, j + 1, 0, d1, d2)
  {
  }

  /** Moving past the last row of a plane is the first cell of the next plane. */
  lemma FlatIndexNextPlane(i: nat, d1: nat, d2: nat)
    ensures FlatIndex(i, d1, 0, d1, d2) == FlatIndex(i + 1, 0, 0, d1, d2)
  {
    assert (i + 1) * d1 * d2 == i * d1 * d2 + d1 * d2;
  }

  // ---------------------------------------------------------------------
  // Rows held by the local allocation
  // ---------------------------------------------------------------------

  /**
   * x_dim: the number of whole d1 x d2 planes in an allocation of
   * allocLocal complex cells, computed as allocLocal / d1 / d2.
   */
  function XDim(allocLocal: nat, d1: nat, d2: nat): nat
    requires d1 > 0 && d2 > 0
  {
    allocLocal / d1 / d2
  }

  /** x_dim is the largest number of whole d1 x d2 planes that fit in the allocation. */
  lemma XDimBounds(allocLocal: nat, d1: nat, d2: nat)
    requires d1 > 0 && d2 > 0
    ensures XDim(allocLocal, d1, d2) * d1 * d2 <= allocLocal < (XDim(allocLocal, d1, d2) + 1) * d1 * d2
  {
    var q1 := allocLocal / d1;
    TwoDivisions(allocLocal, d1, d2, q1, allocLocal % d1, q1 / d2, q1 % d2);
  }

  /** The remainders of dividing first by d1 and then by d2 together stay below d1 * d2. */
  lemma TwoDivisions(a: nat, d1: nat, d2: nat, q1: nat, r1: nat, x: nat, r2: nat)
    requires a == q1 * d1 + r1 && r1 < d1
    requires q1 == x * d2 + r2 && r2 < d2
    ensures x * d1 * d2 <= a < (x + 1) * d1 * d2
  {
    calc {
      a;
    == (x * d2 + r2) * d1 + r1;
    == x * d1 * d2 + (r2 * d1 + r1);
    }
    calc {
      r2 * d1 + r1;
    <  (r2 + 1) * d1;
    <= { MulLeMonotone(r2 + 1, d2, d1); }
      d2 * d1;
    }
    assert (x + 1) * d1 * d2 == x * d1 * d2 + d1 * d2;
  }

  /** The x_dim planes account for the whole allocation exactly when d1 * d2 divides it. */
  lemma XDimExact(allocLocal: nat, d1: nat, d2: nat)
    requires d1 > 0 && d2 > 0
    ensures XDim(allocLocal, d1, d2) * d1 * d2 == allocLocal <==> allocLocal % (d1 * d2) == 0
  {
    var x := XDim(allocLocal, d1, d2);
    var m := d1 * d2;
    XDimBounds(allocLocal, d1, d2);
    assert x * d1 * d2 == x * m;
    DivModUnique(allocLocal, m, x, allocLocal - x * m);
  }

  /**
   * The cells of the x_dim whole planes, the part of a rank's buffer the
   * staging loops write, fit in the allocation and leave less than one plane
   * of it unwritten. With the first step's x_dim this discharges the
   * buffer-size precondition of Staging.ProcessStep.
   */
  lemma SlabFits(allocLocal: nat, d1: nat, d2: nat)
    requires d1 > 0 && d2 > 0
    ensures XDim(allocLocal, d1, d2) * d1 * d2 <= allocLocal < XDim(allocLocal, d1, d2) * d1 * d2 + d1 * d2
  {
    var x := XDim(allocLocal, d1, d2);
    XDimBounds(allocLocal, d1, d2);
    MulAssoc(x + 1, d1, d2);
    MulAddDistrib(x, 1, d1 * d2);
    MulAssoc(x, d1, d2);
  }

  // ---------------------------------------------------------------------
  // Prefix sums over ranks
  // ---------------------------------------------------------------------

  /** Sum of a sequence of per-rank values, in rank order. */
  function Sum(xs: seq<nat>): nat
  {
    if xs == [] then 0 else xs[0] + Sum(xs[1..])
  }

  lemma {:induction false} SumAppend(xs: seq<nat>, x: nat)
    ensures Sum(xs + [x]) == Sum(xs) + x
  {
    if xs != [] {
      assert (xs + [x])[1..] == xs[1..] + [x];
      SumAppend(xs[1..], x);
    }
  }

  lemma SumPrefixStep(xs: seq<nat>, r: nat)
    requires r < |xs|
    ensures Sum(xs[..r + 1]) == Sum(xs[..r]) + xs[r]
  {
    assert xs[..r + 1] == xs[..r] + [xs[r]];
    SumAppend(xs[..r], xs[r]);
  }

  /** The running totals a reduction along the ranks produces, starting from acc. */
  function ScanFrom(acc: nat, xs: seq<nat>): (r: seq<nat>)
    ensures |r| == |xs|
    decreases |xs|
  {
    if xs == [] then [] else [acc + xs[0]] + ScanFrom(acc + xs[0], xs[1..])
  }

  /** Inclusive sum scan: entry r is the total of ranks 0 ..= r (what MPI_Scan with MPI_SUM returns on rank r). */
  function InclusiveScan(xs: seq<nat>): (r: seq<nat>)
    ensures |r| == |xs|
  {
    ScanFrom(0, xs)
  }

  lemma {:induction false} ScanFromIsPrefixSum(acc: nat, xs: seq<nat>, r: nat)
    requires r < |xs|
    ensures ScanFrom(acc, xs)[r] == acc + Sum(xs[..r + 1])
    decreases |xs|
  {
    if r == 0 {
      assert xs[..1][1..] == [];
    } else {
      ScanFromIsPrefixSum(acc + xs[0], xs[1..], r - 1);
      assert xs[..r + 1][1..] == xs[1..][..r];
    }
  }

  /** Entry r of the inclusive scan is the sum of the values of ranks 0 through r. */
  lemma InclusiveScanIsPrefixSum(xs: seq<nat>, r: nat)
    requires r < |xs|
    ensures InclusiveScan(xs)[r] == Sum(xs[..r + 1])
    ensures InclusiveScan(xs)[r] >= xs[r]
  {
    ScanFromIsPrefixSum(0, xs, r);
    SumPrefixStep(xs, r);
  }

  /**
   * x_off of rank r: the inclusive scan minus the rank's own contribution.
   * It is the number of planes held by all lower ranks.
   */
  function XOff(xDims: seq<nat>, r: nat): (off: nat)
    requires r < |xDims|
    ensures off == Sum(xDims[..r])
  {
    InclusiveScanIsPrefixSum(xDims, r);
    SumPrefixStep(xDims, r);
    InclusiveScan(xDims)[r] - xDims[r]
  }

  /** Consecutive ranks' plane intervals [x_off, x_off + x_dim) meet without gap or overlap. */
  lemma XOffAdjacent(xDims: seq<nat>, r: nat)
    requires r + 1 < |xDims|
    ensures XOff(xDims, r + 1) == XOff(xDims, r) + xDims[r]
  {
    SumPrefixStep(xDims, r);
  }

  lemma {:induction false} XOffMonotone(xDims: seq<nat>, r: nat, s: nat)
    requires r < s < |xDims|
    ensures XOff(xDims, r) + xDims[r] <= XOff(xDims, s)
    decreases s - r
  {
    XOffAdjacent(xDims, r);
    if r + 1 < s {
      XOffMonotone(xDims, r + 1, s);
    }
  }

  /** Lower ranks' intervals end before higher ranks' begin, so no two ranks share a plane. */
  lemma XOffDisjoint(xDims: seq<nat>, r: nat, s: nat, p: nat)
    requires r < |xDims| && s < |xDims| && r != s
    requires XOff(xDims, r) <= p < XOff(xDims, r) + xDims[r]
    ensures !(XOff(xDims, s) <= p < XOff(xDims, s) + xDims[s])
  {
    if r < s {
      XOffMonotone(xDims, r, s);
    } else {
      XOffMonotone(xDims, s, r);
    }
  }

  /** The first rank starts at plane 0 and the last rank ends at the total number of planes. */
  lemma XOffCovers(xDims: seq<nat>)
    requires |xDims| > 0
    ensures XOff(xDims, 0) == 0
    ensures XOff(xDims, |xDims| - 1) + xDims[|xDims| - 1] == Sum(xDims)
  {
    SumPrefixStep(xDims, |xDims| - 1);
    assert xDims[..|xDims|] == xDims;
  }

  /** Each rank's value multiplied by c (planes to flattened cells, with c = d1 * d2). */
  function Scaled(xs: seq<nat>, c: nat): seq<nat>
  {
    seq(|xs|, t requires 0 <= t < |xs| => xs[t] * c)
  }

  /** Multiplying every value by c multiplies the total by c. */
  lemma {:induction false} SumOfMultiples(xs: seq<nat>, ys: seq<nat>, c: nat)
    requires |xs| == |ys|
    requires forall t :: 0 <= t < |xs| ==> ys[t] == xs[t] * c
    ensures Sum(ys) == Sum(xs) * c
  {
    if xs != [] {
      SumOfMultiples(xs[1..], ys[1..], c);
      MulAddDistrib(xs[0], Sum(xs[1..]), c);
    }
  }

  lemma SumScaled(xs: seq<nat>, c: nat)
    ensures Sum(Scaled(xs, c)) == Sum(xs) * c
  {
    SumOfMultiples(xs, Scaled(xs, c), c);
  }
}
