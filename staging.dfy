// Per-step work on one rank: copy each field pair into the interleaved
// complex input buffer of the transform, run the transform, and split the
// interleaved output buffer back into a real and an imaginary array. The
// element type is generic: no arithmetic is done on the values here.

module Staging {
  import opened Geometry

  /** The buffer after staging n cells: cell t < n holds (re[t], im[t]); the others keep their previous contents. */
  function Staged<T>(buf: seq<(T, T)>, re: seq<T>, im: seq<T>, n: nat): (r: seq<(T, T)>)
    requires n <= |buf| && n <= |re| && n <= |im|
    ensures |r| == |buf|
  {
    seq(|buf|, t requires 0 <= t < |buf| => if t < n then (re[t], im[t]) else buf[t])
  }

  /** Real parts of an interleaved buffer. */
  function Reals<T>(cells: seq<(T, T)>): (r: seq<T>)
    ensures |r| == |cells|
  {
    seq(|cells|, t requires 0 <= t < |cells| => cells[t].0)
  }

  /** Imaginary parts of an interleaved buffer. */
  function Imags<T>(cells: seq<(T, T)>): (r: seq<T>)
    ensures |r| == |cells|
  {
    seq(|cells|, t requires 0 <= t < |cells| => cells[t].1)
  }

  /** Splitting a staged buffer gives back the two fields over the staged cells, and the old contents elsewhere. */
  lemma StageRoundTrip<T>(buf: seq<(T, T)>, re: seq<T>, im: seq<T>, n: nat)
    requires n <= |buf| && n <= |re| && n <= |im|
    ensures Reals(Staged(buf, re, im, n))[..n] == re[..n]
    ensures Imags(Staged(buf, re, im, n))[..n] == im[..n]
    ensures Reals(Staged(buf, re, im, n))[n..] == Reals(buf)[n..]
    ensures Imags(Staged(buf, re, im, n))[n..] == Imags(buf)[n..]
  {
    var s := Staged(buf, re, im, n);
    assert forall t :: 0 <= t < n ==> Reals(s)[..n][t] == re[..n][t];
    assert forall t :: 0 <= t < n ==> Imags(s)[..n][t] == im[..n][t];
    assert forall t :: 0 <= t < |buf| - n ==> Reals(s)[n..][t] == Reals(buf)[n..][t];
    assert forall t :: 0 <= t < |buf| - n ==> Imags(s)[n..][t] == Imags(buf)[n..][t];
  }

  /**
   * Staging a second field pair over the same n cells erases every trace of
   * the first: the v transform sees only v data and the cells the u field
   * never reached, which are those of the buffer before either staging.
   */
  lemma StageOverwrites<T>(buf: seq<(T, T)>, ure: seq<T>, uim: seq<T>, vre: seq<T>, vim: seq<T>, n: nat)
    requires n <= |buf| && n <= |ure| && n <= |uim| && n <= |vre| && n <= |vim|
    ensures Staged(Staged(buf, ure, uim, n), vre, vim, n) == Staged(buf, vre, vim, n)
  {
    var a, b := Staged(Staged(buf, ure, uim, n), vre, vim, n), Staged(buf, vre, vim, n);
    assert forall t :: 0 <= t < |buf| ==> a[t] == b[t];
  }

  /** Cells [0, p) of buf hold the staged pairs and the others still hold `was`. */
  ghost predicate StagedUpTo<T>(buf: array<(T, T)>, was: seq<(T, T)>, re: seq<T>, im: seq<T>, p: nat)
    reads buf
  {
    |was| == buf.Length && p <= buf.Length && p <= |re| && p <= |im| &&
    (forall t :: 0 <= t < p ==> buf[t] == (re[t], im[t])) &&
    (forall t :: p <= t < buf.Length ==> buf[t] == was[t])
  }

  /**
   * The staging loop: for i < x_dim, j < d1, k < d2 copy re and im at
   * i*d1*d2 + j*d2 + k into that cell of buf. Row-major order visits the
   * positions 0, 1, 2, ... in turn, so after the loops exactly the first
   * x_dim*d1*d2 cells have been written.
   */
  method StageIn<T>(buf: array<(T, T)>, re: seq<T>, im: seq<T>, xDim: nat, d1: nat, d2: nat)
    requires xDim * d1 * d2 <= buf.Length
    requires xDim * d1 * d2 <= |re| && xDim * d1 * d2 <= |im|
    modifies buf
    ensures buf[..] == Staged(old(buf[..]), re, im, xDim * d1 * d2)
    ensures forall t :: 0 <= t < xDim * d1 * d2 ==> buf[t] == (re[t], im[t])
    ensures forall t :: xDim * d1 * d2 <= t < buf.Length ==> buf[t] == old(buf[t])
  {
    ghost var was := buf[..];
    ghost var n := xDim * d1 * d2;
    var i := 0;
    while i < xDim
      invariant i <= xDim
      invariant FlatIndex(i, 0, 0, d1, d2) <= n
      invariant StagedUpTo(buf, was, re, im, FlatIndex(i, 0, 0, d1, d2))
    {
      var j := 0;
      while j < d1
        invariant j <= d1
        invariant FlatIndex(i, j, 0, d1, d2) <= n
        invariant StagedUpTo(buf, was, re, im, FlatIndex(i, j, 0, d1, d2))
      {
        var k := 0;
        while k < d2
          invariant k <= d2
          invariant FlatIndex(i, j, k, d1, d2) <= n
          invariant StagedUpTo(buf, was, re, im, FlatIndex(i, j, k, d1, d2))
        {
          var idx := i * d1 * d2 + j * d2 + k;
          FlatIndexBound(i, j, k, xDim, d1, d2);
          buf[idx] := (re[idx], im[idx]);
          k := k + 1;
        }
        FlatIndexNextRow(i, j, d1, d2);
        j := j + 1;
      }
      FlatIndexNextPlane(i, d1, d2);
      i := i + 1;
    }
    assert FlatIndex(xDim, 0, 0, d1, d2) == n;
    assert forall t :: 0 <= t < buf.Length ==> buf[..][t] == Staged(was, re, im, n)[t];
  }

  /** The output loop: for i < alloc_local, re[i] and im[i] take the two parts of out[i]; nothing else changes. */
  method StageOut<T>(out: array<(T, T)>, re: array<T>, im: array<T>, allocLocal: nat)
    requires allocLocal <= out.Length && allocLocal <= re.Length && allocLocal <= im.Length
    requires re != im && re as object != out as object && im as object != out as object
    modifies re, im
    ensures re[..allocLocal] == Reals(out[..allocLocal])
    ensures im[..allocLocal] == Imags(out[..allocLocal])
    ensures re[allocLocal..] == old(re[allocLocal..]) && im[allocLocal..] == old(im[allocLocal..])
  {
    for i := 0 to allocLocal
      invariant forall t :: 0 <= t < i ==> re[t] == out[t].0 && im[t] == out[t].1
      invariant forall t :: i <= t < re.Length ==> re[t] == old(re[t])
      invariant forall t :: i <= t < im.Length ==> im[t] == old(im[t])
    {
      re[i] := out[i].0;
      im[i] := out[i].1;
    }
    assert forall t :: 0 <= t < allocLocal ==> re[..allocLocal][t] == Reals(out[..allocLocal])[t];
    assert forall t :: 0 <= t < allocLocal ==> im[..allocLocal][t] == Imags(out[..allocLocal])[t];
  }

  /**
   * Executing the transform plan: it reads the whole input buffer and
   * overwrites the whole output buffer. The numerics of the transform are
   * not modelled; `transform` stands for them.
   */
  method Execute<T>(inBuf: array<(T, T)>, outBuf: array<(T, T)>, transform: seq<(T, T)> -> seq<(T, T)>)
    requires inBuf != outBuf
    requires |transform(inBuf[..])| == outBuf.Length
    modifies outBuf
    ensures outBuf[..] == transform(inBuf[..])
  {
    var input := inBuf[..];
    var result := transform(input);
    forall t | 0 <= t < outBuf.Length {
      outBuf[t] := result[t];
    }
    assert forall t :: 0 <= t < outBuf.Length ==> outBuf[..][t] == result[t];
    assert forall t :: 0 <= t < inBuf.Length ==> inBuf[..][t] == input[t];
    assert inBuf[..] == input && outBuf[..] == result;
  }

  /**
   * One step of the analysis on one rank: stage u, transform, split into the
   * u outputs; stage v, transform, split into the v outputs. x_dim is the
   * value computed on the first step; d1 and d2 are this step's extents of
   * the u field, which bound the staging loops of both fields.
   */
  method ProcessStep<T>(inBuf: array<(T, T)>, outBuf: array<(T, T)>, transform: seq<(T, T)> -> seq<(T, T)>,
                        uRe: seq<T>, uIm: seq<T>, vRe: seq<T>, vIm: seq<T>, xDim: nat, d1: nat, d2: nat,
                        uFftRe: array<T>, uFftIm: array<T>, vFftRe: array<T>, vFftIm: array<T>)
    requires inBuf != outBuf && outBuf.Length == inBuf.Length
    requires forall s: seq<(T, T)> :: |s| == inBuf.Length ==> |transform(s)| == |s|
    requires var n := xDim * d1 * d2;
      n <= inBuf.Length && n <= |uRe| && n <= |uIm| && n <= |vRe| && n <= |vIm|
    requires uFftRe.Length == uFftIm.Length == vFftRe.Length == vFftIm.Length == inBuf.Length
    requires uFftRe != uFftIm && uFftRe != vFftRe && uFftRe != vFftIm
    requires uFftIm != vFftRe && uFftIm != vFftIm && vFftRe != vFftIm
    requires {inBuf as object, outBuf} !! {uFftRe as object, uFftIm, vFftRe, vFftIm}
    modifies inBuf, outBuf, uFftRe, uFftIm, vFftRe, vFftIm
    ensures var n := xDim * d1 * d2;
      var uIn := Staged(old(inBuf[..]), uRe, uIm, n);
      var vIn := Staged(old(inBuf[..]), vRe, vIm, n);
      uFftRe[..] == Reals(transform(uIn)) && uFftIm[..] == Imags(transform(uIn)) &&
      vFftRe[..] == Reals(transform(vIn)) && vFftIm[..] == Imags(transform(vIn)) &&
      inBuf[..] == vIn && outBuf[..] == transform(vIn)
  {
    var allocLocal := inBuf.Length;
    ghost var n := xDim * d1 * d2;
    ghost var was := inBuf[..];

    StageIn(inBuf, uRe, uIm, xDim, d1, d2);
    Execute(inBuf, outBuf, transform);
    StageOut(outBuf, uFftRe, uFftIm, allocLocal);
    assert outBuf[..allocLocal] == outBuf[..];

    StageIn(inBuf, vRe, vIm, xDim, d1, d2);
    StageOverwrites(was, uRe, uIm, vRe, vIm, n);
    Execute(inBuf, outBuf, transform);
    StageOut(outBuf, vFftRe, vFftIm, allocLocal);
    assert outBuf[..allocLocal] == outBuf[..];
    assert uFftRe[..allocLocal] == uFftRe[..] && uFftIm[..allocLocal] == uFftIm[..];
    assert vFftRe[..allocLocal] == vFftRe[..] && vFftIm[..allocLocal] == vFftIm[..];
  }

  /**
   * Cells past the slab are never staged: whatever the buffer held there
   * before a step is what the transform sees there, for u and for v.
   */
  lemma StagingKeepsPadding<T>(buf: seq<(T, T)>, re: seq<T>, im: seq<T>, n: nat)
    requires n <= |buf| && n <= |re| && n <= |im|
    ensures Staged(buf, re, im, n)[n..] == buf[n..]
  {
    assert forall t :: 0 <= t < |buf| - n ==> Staged(buf, re, im, n)[n..][t] == buf[n..][t];
  }
}
