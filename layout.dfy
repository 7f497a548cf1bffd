// The output side of the analysis: which variables are defined on the first
// step and with what global shape, per-rank start and per-rank count; which
// variables are written every step; the first-step check that compares the
// transform library's local allocation with an even split of the field.

module Layout {
  import opened Geometry
  import opened Cli

  /** An output variable definition: name, global shape, this rank's start and count. */
  datatype VarDef = VarDef(name: string, shape: seq<nat>, start: seq<nat>, count: seq<nat>)

  const FftNames: seq<string> := ["u_fft_real", "u_fft_imag", "v_fft_real", "v_fft_imag"]
  const FieldNames: seq<string> := ["u_real", "u_imag", "v_real", "v_imag"]

  /** Variables written in every output step, in order: the four transforms, then the originals when passthrough is on. */
  function StepPuts(cfg: Config): (names: seq<string>)
    ensures |names| == if cfg.outputFftOnly then 4 else 8
    ensures names[..4] == FftNames
    ensures !cfg.outputFftOnly ==> names[4..] == FieldNames
  {
    FftNames + (if cfg.outputFftOnly then [] else FieldNames)
  }

  /** Passthrough is on exactly when argv[3] is "0", and each step then writes 8 variables instead of 4. */
  lemma PutsPerStep(argv: seq<string>)
    requires |argv| >= 3
    ensures ParseArgs(argv).Proceed?
    ensures |StepPuts(ParseArgs(argv).config)| == if |argv| >= 4 && argv[3] == "0" then 8 else 4
  {
  }

  // ---------------------------------------------------------------------
  // Per-rank geometry fixed on the first step
  // ---------------------------------------------------------------------

  /** What one rank derives from the transform library's allocation: alloc_local, x_dim and x_off. */
  datatype RankLayout = RankLayout(allocLocal: nat, xDim: nat, xOff: nat)

  /** x_dim of every rank taking part in the scan, in rank order: the whole d1 x d2 planes that fit in its allocation. */
  function XDims(allocs: seq<nat>, d1: nat, d2: nat): (xs: seq<nat>)
    requires d1 > 0 && d2 > 0
    ensures |xs| == |allocs|
    ensures forall r :: 0 <= r < |allocs| ==> xs[r] * (d1 * d2) <= allocs[r] < (xs[r] + 1) * (d1 * d2)
  {
    PlanesFit(allocs, d1, d2);
    seq(|allocs|, r requires 0 <= r < |allocs| => XDim(allocs[r], d1, d2))
  }

  lemma PlanesFit(allocs: seq<nat>, d1: nat, d2: nat)
    requires d1 > 0 && d2 > 0
    ensures forall r :: 0 <= r < |allocs| ==>
      XDim(allocs[r], d1, d2) * (d1 * d2) <= allocs[r] < (XDim(allocs[r], d1, d2) + 1) * (d1 * d2)
  {
    forall r | 0 <= r < |allocs|
      ensures XDim(allocs[r], d1, d2) * (d1 * d2) <= allocs[r] < (XDim(allocs[r], d1, d2) + 1) * (d1 * d2)
    {
      XDimBounds(allocs[r], d1, d2);
      MulAssoc(XDim(allocs[r], d1, d2), d1, d2);
      MulAssoc(XDim(allocs[r], d1, d2) + 1, d1, d2);
    }
  }

  /**
   * The layout of rank `rank`, given the local allocation of every rank in
   * the scan: its own x_dim, and as x_off the inclusive scan of the x_dims
   * minus its own.
   */
  function LayoutOf(allocs: seq<nat>, rank: nat, d1: nat, d2: nat): (l: RankLayout)
    requires rank < |allocs| && d1 > 0 && d2 > 0
    ensures l.allocLocal == allocs[rank]
    ensures l.xDim == XDim(l.allocLocal, d1, d2)
    ensures l.xOff == Sum(XDims(allocs, d1, d2)[..rank])
  {
    var xDims := XDims(allocs, d1, d2);
    RankLayout(allocs[rank], xDims[rank], XOff(xDims, rank))
  }

  /** First flattened position the rank writes in each FFT output variable. */
  function FftStart(l: RankLayout, u: Shape3): nat
  {
    l.xOff * u.d1 * u.d2
  }

  /**
   * The output variables defined once on the first step. The FFT outputs are
   * 1-D of length d0*d1*d2, placed at x_off*d1*d2 with alloc_local entries.
   * The passthrough copies keep the 3-D shape of their input field but take
   * start (x_off, 0, 0) and count (x_dim, d1, d2) with d1, d2 from the u
   * field, for both u and v.
   */
  function DefineOutputs(cfg: Config, u: Shape3, v: Shape3, l: RankLayout): (defs: seq<VarDef>)
    ensures |defs| == |StepPuts(cfg)|
    ensures forall t :: 0 <= t < |defs| ==> defs[t].name == StepPuts(cfg)[t]
    ensures forall t :: 0 <= t < 4 ==>
      defs[t].shape == [u.Size()] && defs[t].start == [FftStart(l, u)] && defs[t].count == [l.allocLocal]
    ensures forall t :: 4 <= t < |defs| ==>
      defs[t].start == [l.xOff, 0, 0] && defs[t].count == [l.xDim, u.d1, u.d2]
    ensures !cfg.outputFftOnly ==>
      defs[4].shape == defs[5].shape == [u.d0, u.d1, u.d2] &&
      defs[6].shape == defs[7].shape == [v.d0, v.d1, v.d2]
  {
    var fft := seq(4, t requires 0 <= t < 4 => VarDef(FftNames[t], [u.Size()], [FftStart(l, u)], [l.allocLocal]));
    if cfg.outputFftOnly then
      fft
    else
      var start, count := [l.xOff, 0, 0], [l.xDim, u.d1, u.d2];
      fft + [VarDef("u_real", [u.d0, u.d1, u.d2], start, count),
             VarDef("u_imag", [u.d0, u.d1, u.d2], start, count),
             VarDef("v_real", [v.d0, v.d1, v.d2], start, count),
             VarDef("v_imag", [v.d0, v.d1, v.d2], start, count)]
  }

  // ---------------------------------------------------------------------
  // How the ranks' FFT output ranges fit together
  // ---------------------------------------------------------------------

  /** The flattened start of a rank is the number of cells in the whole planes of all lower ranks. */
  lemma FftStartIsLowerCells(allocs: seq<nat>, rank: nat, u: Shape3)
    requires rank < |allocs| && u.d1 > 0 && u.d2 > 0
    ensures FftStart(LayoutOf(allocs, rank, u.d1, u.d2), u)
         == Sum(Scaled(XDims(allocs, u.d1, u.d2)[..rank], u.d1 * u.d2))
  {
    var xs := XDims(allocs, u.d1, u.d2);
    SumScaled(xs[..rank], u.d1 * u.d2);
    MulAssoc(Sum(xs[..rank]), u.d1, u.d2);
  }

  /** Rank r's allocation is a whole number of d1 x d2 planes. */
  predicate WholePlanesAt(allocs: seq<nat>, r: nat, d1: nat, d2: nat)
    requires r < |allocs| && d1 > 0 && d2 > 0
  {
    allocs[r] % (d1 * d2) == 0
  }

  /** An allocation that is a whole number of planes is exactly x_dim planes. */
  lemma WholePlanes(allocs: seq<nat>, d1: nat, d2: nat)
    requires d1 > 0 && d2 > 0
    requires forall r :: 0 <= r < |allocs| ==> WholePlanesAt(allocs, r, d1, d2)
    ensures forall r :: 0 <= r < |allocs| ==> XDims(allocs, d1, d2)[r] * (d1 * d2) == allocs[r]
  {
    var xs := XDims(allocs, d1, d2);
    forall r | 0 <= r < |allocs|
      ensures xs[r] * (d1 * d2) == allocs[r]
    {
      assert WholePlanesAt(allocs, r, d1, d2);
      XDimExact(allocs[r], d1, d2);
      MulAssoc(xs[r], d1, d2);
    }
  }

  /** Whole-plane allocations total the planes they hold times the plane size. */
  lemma WholePlanesTotal(allocs: seq<nat>, d1: nat, d2: nat)
    requires d1 > 0 && d2 > 0
    requires forall r :: 0 <= r < |allocs| ==> WholePlanesAt(allocs, r, d1, d2)
    ensures forall r :: 0 <= r < |allocs| ==> XDims(allocs, d1, d2)[r] * (d1 * d2) == allocs[r]
    ensures Sum(allocs) == Sum(XDims(allocs, d1, d2)) * (d1 * d2)
  {
    WholePlanes(allocs, d1, d2);
    SumOfMultiples(XDims(allocs, d1, d2), allocs, d1 * d2);
  }

  /** Rank r's FFT output range ends where rank r + 1's begins when rank r holds whole planes. */
  lemma FftRangesAdjacent(allocs: seq<nat>, r: nat, u: Shape3)
    requires r + 1 < |allocs| && u.d1 > 0 && u.d2 > 0
    requires WholePlanesAt(allocs, r, u.d1, u.d2)
    ensures FftStart(LayoutOf(allocs, r, u.d1, u.d2), u) + allocs[r] == FftStart(LayoutOf(allocs, r + 1, u.d1, u.d2), u)
  {
    var m := u.d1 * u.d2;
    var xs := XDims(allocs, u.d1, u.d2);
    XDimExact(allocs[r], u.d1, u.d2);
    MulAssoc(xs[r], u.d1, u.d2);
    XOffAdjacent(xs, r);
    MulAddDistrib(XOff(xs, r), xs[r], m);
    MulAssoc(XOff(xs, r), u.d1, u.d2);
    MulAssoc(XOff(xs, r + 1), u.d1, u.d2);
  }

  /** The last rank's FFT output range ends at the total of all allocations when every rank before it holds whole planes. */
  lemma FftRangesEnd(allocs: seq<nat>, u: Shape3)
    requires |allocs| > 0 && u.d1 > 0 && u.d2 > 0
    requires forall r :: 0 <= r < |allocs| - 1 ==> WholePlanesAt(allocs, r, u.d1, u.d2)
    ensures FftStart(LayoutOf(allocs, |allocs| - 1, u.d1, u.d2), u) + allocs[|allocs| - 1] == Sum(allocs)
  {
    var xs := XDims(allocs, u.d1, u.d2);
    var m := u.d1 * u.d2;
    forall r | 0 <= r < |allocs| - 1
      ensures xs[r] * m == allocs[r]
    {
      assert WholePlanesAt(allocs, r, u.d1, u.d2);
      XDimExact(allocs[r], u.d1, u.d2);
      MulAssoc(xs[r], u.d1, u.d2);
    }
    LastPlanesEnd(allocs, xs, m);
    MulAssoc(XOff(xs, |allocs| - 1), u.d1, u.d2);
  }

  lemma LastPlanesEnd(allocs: seq<nat>, xs: seq<nat>, m: nat)
    requires |allocs| == |xs| > 0
    requires forall r :: 0 <= r < |allocs| - 1 ==> xs[r] * m == allocs[r]
    ensures XOff(xs, |xs| - 1) * m + allocs[|xs| - 1] == Sum(allocs)
  {
    var last := |xs| - 1;
    SumOfMultiples(xs[..last], allocs[..last], m);
    SumPrefixStep(allocs, last);
    assert allocs[..last + 1] == allocs;
  }

  /**
   * When every rank's allocation but possibly the last one's is a whole
   * number of planes, consecutive ranks' FFT output ranges
   * [start, start + alloc_local) meet without gap or overlap, the first
   * starts at 0 and the last ends at the total of all allocations.
   */
  lemma FftRangesTile(allocs: seq<nat>, u: Shape3)
    requires |allocs| > 0 && u.d1 > 0 && u.d2 > 0
    requires forall r :: 0 <= r < |allocs| - 1 ==> WholePlanesAt(allocs, r, u.d1, u.d2)
    ensures FftStart(LayoutOf(allocs, 0, u.d1, u.d2), u) == 0
    ensures forall r :: 0 <= r < |allocs| - 1 ==>
      FftStart(LayoutOf(allocs, r, u.d1, u.d2), u) + allocs[r] == FftStart(LayoutOf(allocs, r + 1, u.d1, u.d2), u)
    ensures FftStart(LayoutOf(allocs, |allocs| - 1, u.d1, u.d2), u) + allocs[|allocs| - 1] == Sum(allocs)
  {
    XOffCovers(XDims(allocs, u.d1, u.d2));
    forall r | 0 <= r < |allocs| - 1
      ensures FftStart(LayoutOf(allocs, r, u.d1, u.d2), u) + allocs[r] == FftStart(LayoutOf(allocs, r + 1, u.d1, u.d2), u)
    {
      FftRangesAdjacent(allocs, r, u);
    }
    FftRangesEnd(allocs, u);
  }

  /**
   * When a rank's allocation is not a whole number of planes, its FFT output
   * range runs past the start of the next rank's range: the two ranks write
   * overlapping parts of the output variable.
   */
  lemma FftRangesOverlapWhenPadded(allocs: seq<nat>, r: nat, u: Shape3)
    requires r + 1 < |allocs| && u.d1 > 0 && u.d2 > 0
    requires !WholePlanesAt(allocs, r, u.d1, u.d2)
    ensures FftStart(LayoutOf(allocs, r, u.d1, u.d2), u) + allocs[r] > FftStart(LayoutOf(allocs, r + 1, u.d1, u.d2), u)
  {
    var m := u.d1 * u.d2;
    var xs := XDims(allocs, u.d1, u.d2);
    XDimExact(allocs[r], u.d1, u.d2);
    XDimBounds(allocs[r], u.d1, u.d2);
    XOffAdjacent(xs, r);
    MulAddDistrib(XOff(xs, r), xs[r], m);
    MulAssoc(XOff(xs, r), u.d1, u.d2);
    MulAssoc(XOff(xs, r + 1), u.d1, u.d2);
    MulAssoc(xs[r], u.d1, u.d2);
  }

  // ---------------------------------------------------------------------
  // The first-step reconciliation check
  // ---------------------------------------------------------------------

  /**
   * True when the transform library's local allocation equals an even split of
   * the field over the communicator. On failure the program prints an error
   * and carries on; the abort that follows it in the code is commented out.
   */
  function Reconciled(allocLocal: nat, u: Shape3, commSize: nat): bool
    requires commSize > 0
  {
    allocLocal == u.Size() / commSize
  }

  lemma {:induction false} SumConstant(xs: seq<nat>, c: nat)
    requires forall r :: 0 <= r < |xs| ==> xs[r] == c
    ensures Sum(xs) == |xs| * c
  {
    if xs != [] {
      SumConstant(xs[1..], c);
    }
  }

  /**
   * If the check passes on every rank and the rank count divides the field,
   * the allocations add up to the whole field, and when in addition each
   * allocation is a whole number of planes, the x_dims add up to d0.
   */
  lemma ReconciledCoversField(allocs: seq<nat>, u: Shape3)
    requires |allocs| > 0 && u.Size() % |allocs| == 0
    requires forall r :: 0 <= r < |allocs| ==> Reconciled(allocs[r], u, |allocs|)
    ensures Sum(allocs) == u.Size()
    ensures u.d1 > 0 && u.d2 > 0 && (u.Size() / |allocs|) % (u.d1 * u.d2) == 0 ==>
      Sum(XDims(allocs, u.d1, u.d2)) == u.d0
  {
    var p := |allocs|;
    SumConstant(allocs, u.Size() / p);
    if u.d1 > 0 && u.d2 > 0 && (u.Size() / p) % (u.d1 * u.d2) == 0 {
      forall r | 0 <= r < p
        ensures WholePlanesAt(allocs, r, u.d1, u.d2)
      {
        assert allocs[r] == u.Size() / p;
      }
      PlanesCoverField(allocs, u);
    }
  }

  /** Whole-plane allocations that add up to the field hold d0 planes between them. */
  lemma PlanesCoverField(allocs: seq<nat>, u: Shape3)
    requires u.d1 > 0 && u.d2 > 0
    requires forall r :: 0 <= r < |allocs| ==> WholePlanesAt(allocs, r, u.d1, u.d2)
    requires Sum(allocs) == u.Size()
    ensures Sum(XDims(allocs, u.d1, u.d2)) == u.d0
  {
    var m := u.d1 * u.d2;
    var xs := XDims(allocs, u.d1, u.d2);
    WholePlanesTotal(allocs, u.d1, u.d2);
    MulAssoc(u.d0, u.d1, u.d2);
    MulCancel(Sum(xs), u.d0, m);
  }
}
