/**
 * The action gradient (`QFM.action_gradient`): the residual whose roots
 * are the periodic action curves. A trial curve is a Fourier series in
 * `zeta/qq`; at its samples the field gives the right-hand sides of the
 * field-line equations, and the residual compares them with the curve's
 * own derivatives, either harmonic by harmonic ("fourier") or sample by
 * sample ("real"), after the area equation `tcn[0] == a`.
 */
module Residual {
  import opened Common
  import opened Config
  import opened DofCodec
  import opened Spectral

  /** `qN = qq * pqNtor`: the toroidal modes of one curve. */
  function Modes(p: Params, qq: nat): nat
  {
    qq * p.pqNtor
  }

  /** `Nfft = MM * qq * pqNtor`: the samples of one curve in "fourier" mode. */
  function Samples(p: Params, qq: nat): nat
  {
    p.MM() * Modes(p, qq)
  }

  /** A usable configuration has modes, and more than twice as many samples as modes. */
  lemma ModesAndSamples(p: Params, qq: nat)
    requires qq >= 1 && Usable(p)
    ensures Modes(p, qq) >= 1
    ensures Samples(p, qq) / 2 == p.nfftMultiplier * Modes(p, qq) >= Modes(p, qq)
  {
    var qN := Modes(p, qq);
    MulPositive(qq, p.pqNtor);
    MulPositive(p.nfftMultiplier, qN);
    assert Samples(p, qq) == 2 * (p.nfftMultiplier * qN);
  }

  /** A product of naturals is at least its second factor when the first is positive. */
  lemma MulPositive(x: nat, y: nat)
    requires x >= 1
    ensures x * y >= y
  {
  }

  /** The rotational transform `iota = pp/qq` of the sought orbit (true division). */
  function Iota(pp: int, qq: nat): (iota: real)
    requires qq >= 1
    ensures iota * (qq as real) == pp as real
  {
    pp as real / qq as real
  }

  /** `c * nlist / qq`: each coefficient times its mode number over `qq` (d/dzeta of one harmonic). */
  function Harmonics(c: seq<real>, qq: nat): (h: seq<real>)
    requires qq >= 1
    ensures |h| == |c|
    ensures |c| >= 1 ==> h[0] == 0.0
  {
    seq(|c|, n requires 0 <= n < |c| => c[n] * (n as real) / (qq as real))
  }

  /** Every entry negated. */
  function Negate(s: seq<real>): (r: seq<real>)
    ensures |r| == |s| && forall k :: 0 <= k < |s| ==> r[k] + s[k] == 0.0
  {
    seq(|s|, k requires 0 <= k < |s| => -s[k])
  }

  /**
   * The partial sum `sum_{m < n} cn[m] cos(m z/qq) + sn[m] sin(m z/qq)`,
   * the "fourier" evaluation of a curve coordinate at `zeta = z`.
   */
  function Series(num: Numerics, cn: seq<real>, sn: seq<real>, qq: nat, z: real, n: nat): (x: real)
    requires qq >= 1 && n <= |cn| && n <= |sn|
    ensures (forall m :: 0 <= m < n ==> cn[m] == 0.0 && sn[m] == 0.0) ==> x == 0.0
  {
    if n == 0 then 0.0
    else
      var m := n - 1;
      var arg := (m as real) * z / (qq as real);
      Series(num, cn, sn, qq, z, m) + cn[m] * num.cos(arg) + sn[m] * num.sin(arg)
  }

  /**
   * A spectrum holding only its mean harmonic evaluates to that mean, given
   * that the trigonometric functions are exact at zero.
   */
  lemma {:induction false} SeriesOfMean(num: Numerics, cn: seq<real>, sn: seq<real>, qq: nat, z: real, n: nat)
    requires qq >= 1 && 1 <= n <= |cn| && n <= |sn|
    requires num.cos(0.0) == 1.0 && num.sin(0.0) == 0.0
    requires forall m :: 1 <= m < n ==> cn[m] == 0.0 && sn[m] == 0.0
    ensures Series(num, cn, sn, qq, z, n) == cn[0]
  {
    if n == 1 {
      assert (0 as real) * z / (qq as real) == 0.0;
    } else {
      SeriesOfMean(num, cn, sn, qq, z, n - 1);
    }
  }

  /** The field-line right-hand sides `(B^rho/B^zeta - nv/B^zeta, B^theta/B^zeta)` at one point. */
  function FieldRhs(num: Numerics, nv: real, r: real, t: real, z: real): (rhs: (real, real))
    ensures var b := num.field(r, t, z); rhs.0 + nv * b.2 == b.0 && rhs.1 == b.1
  {
    var b := num.field(r, t, z);
    (b.0 - nv * b.2, b.1)
  }

  /** `np.arange(0, Nfft) * dz` with `dz = 2 pi / (MM * pqNtor)`. */
  function FourierGrid(num: Numerics, p: Params, qq: nat): (zeta: seq<real>)
    requires Usable(p)
    ensures |zeta| == Samples(p, qq)
    ensures |zeta| >= 1 ==> zeta[0] == 0.0
  {
    MulPositive(p.MM(), p.pqNtor);
    var dz := 2.0 * num.pi / ((p.MM() * p.pqNtor) as real);
    seq(Samples(p, qq), k requires 0 <= k => (k as real) * dz)
  }

  /** `np.linspace(0, 2 qq pi, n, endpoint=False)`. */
  function RealGrid(num: Numerics, qq: nat, n: nat): (z: seq<real>)
    ensures |z| == n
    ensures n >= 1 ==> z[0] == 0.0
    ensures forall k :: 0 <= k < n ==> z[k] == (k as real) * (2.0 * (qq as real) * num.pi / (n as real))
  {
    seq(n, k requires 0 <= k < n => (k as real) * (2.0 * (qq as real) * num.pi / (n as real)))
  }

  /** The right-hand sides at the samples `(r[k], t[k], z[k])`. */
  function RhsSamples(num: Numerics, nv: real, r: seq<real>, t: seq<real>, z: seq<real>): (rhs: (seq<real>, seq<real>))
    requires |r| == |t| == |z|
    ensures |rhs.0| == |r| && |rhs.1| == |r|
    ensures forall k :: 0 <= k < |r| ==> rhs.0[k] == FieldRhs(num, nv, r[k], t[k], z[k]).0 && rhs.1[k] == FieldRhs(num, nv, r[k], t[k], z[k]).1
  {
    (seq(|r|, k requires 0 <= k < |r| => FieldRhs(num, nv, r[k], t[k], z[k]).0),
     seq(|r|, k requires 0 <= k < |r| => FieldRhs(num, nv, r[k], t[k], z[k]).1))
  }

  // ---------------------------------------------------------------------
  // "fourier" mode

  /**
   * The "fourier" residual from the spectra `g` of the radial and `f` of
   * the angular right-hand side: the area equation, then for every kept
   * harmonic the curve's derivative coefficient minus the right-hand
   * side's, the sine equations of the first and last harmonics dropped, and
   * `iota` added to the angular mean.
   */
  function FourierEquations(c: Curve, qN: nat, iota: real, a: real, qq: nat,
                            g: (seq<real>, seq<real>), f: (seq<real>, seq<real>)): (ff: seq<real>)
    requires qq >= 1 && qN >= 1 && ValidCurve(c, qN)
    requires |g.0| > qN && |g.1| > qN && |f.0| > qN && |f.1| > qN
    ensures |ff| == 4 * qN + 1 && ff[0] == c.tcn[0] - a
  {
    var dr, dt := Harmonics(c.rsn, qq), Harmonics(c.tsn, qq);
    var mr, mt := Negate(Harmonics(c.rcn, qq)), Negate(Harmonics(c.tcn, qq));
    seq(4 * qN + 1, k requires 0 <= k < 4 * qN + 1 =>
      if k == 0 then c.tcn[0] - a
      else if k < qN + 2 then dr[k - 1] - g.0[k - 1]
      else if k < 2 * qN + 1 then mr[k - qN - 1] - g.1[k - qN - 1]
      else if k == 2 * qN + 1 then dt[0] - f.0[0] + iota
      else if k < 3 * qN + 2 then dt[k - 2 * qN - 1] - f.0[k - 2 * qN - 1]
      else mt[k - 3 * qN - 1] - f.1[k - 3 * qN - 1])
  }

  /** The harmonic equations the "fourier" residual imposes, one conjunct per block. */
  predicate FourierBalanced(c: Curve, qN: nat, iota: real, a: real, qq: nat,
                            g: (seq<real>, seq<real>), f: (seq<real>, seq<real>))
    requires qq >= 1 && qN >= 1 && ValidCurve(c, qN)
    requires |g.0| > qN && |g.1| > qN && |f.0| > qN && |f.1| > qN
  {
    && c.tcn[0] == a
    && (forall n :: 0 <= n <= qN ==> Harmonics(c.rsn, qq)[n] == g.0[n])
    && (forall n :: 1 <= n < qN ==> -Harmonics(c.rcn, qq)[n] == g.1[n])
    && (forall n :: 0 <= n <= qN ==> Harmonics(c.tsn, qq)[n] + (if n == 0 then iota else 0.0) == f.0[n])
    && (forall n :: 1 <= n < qN ==> -Harmonics(c.tcn, qq)[n] == f.1[n])
  }

  /** The "fourier" residual vanishes exactly when every harmonic equation holds. */
  lemma {:induction false} FourierEquationsVanish(c: Curve, qN: nat, iota: real, a: real, qq: nat,
                                                  g: (seq<real>, seq<real>), f: (seq<real>, seq<real>))
    requires qq >= 1 && qN >= 1 && ValidCurve(c, qN)
    requires |g.0| > qN && |g.1| > qN && |f.0| > qN && |f.1| > qN
    ensures FourierEquations(c, qN, iota, a, qq, g, f) == Zeros(4 * qN + 1) <==> FourierBalanced(c, qN, iota, a, qq, g, f)
  {
    var ff := FourierEquations(c, qN, iota, a, qq, g, f);
    FourierEquationsBlocks(c, qN, iota, a, qq, g, f);
    if ff == Zeros(4 * qN + 1) {
      assert forall k :: 0 <= k < 4 * qN + 1 ==> ff[k] == 0.0;
    }
    if FourierBalanced(c, qN, iota, a, qq, g, f) {
      forall k | 0 <= k < 4 * qN + 1 ensures ff[k] == 0.0 {
        if k == 0 {
        } else if k < qN + 2 {
          assert ff[(k - 1) + 1] == ff[k];
        } else if k < 2 * qN + 1 {
          assert ff[(k - qN - 1) + qN + 1] == ff[k];
        } else if k == 2 * qN + 1 {
        } else if k < 3 * qN + 2 {
          assert ff[(k - 2 * qN - 1) + 2 * qN + 1] == ff[k];
        } else {
          assert ff[(k - 3 * qN - 1) + 3 * qN + 1] == ff[k];
        }
      }
      assert ff == Zeros(4 * qN + 1);
    }
  }

  /** Where each harmonic equation sits in the "fourier" residual. */
  lemma FourierEquationsBlocks(c: Curve, qN: nat, iota: real, a: real, qq: nat,
                               g: (seq<real>, seq<real>), f: (seq<real>, seq<real>))
    requires qq >= 1 && qN >= 1 && ValidCurve(c, qN)
    requires |g.0| > qN && |g.1| > qN && |f.0| > qN && |f.1| > qN
    ensures var ff := FourierEquations(c, qN, iota, a, qq, g, f);
      && (forall n :: 0 <= n <= qN ==> ff[n + 1] == Harmonics(c.rsn, qq)[n] - g.0[n])
      && (forall n :: 1 <= n < qN ==> ff[n + qN + 1] == -Harmonics(c.rcn, qq)[n] - g.1[n])
      && ff[2 * qN + 1] == Harmonics(c.tsn, qq)[0] - f.0[0] + iota
      && (forall n :: 1 <= n <= qN ==> ff[n + 2 * qN + 1] == Harmonics(c.tsn, qq)[n] - f.0[n])
      && (forall n :: 1 <= n < qN ==> ff[n + 3 * qN + 1] == -Harmonics(c.tcn, qq)[n] - f.1[n])
  {
  }

  /** The radius of a curve at `zeta = z` in "fourier" mode: `sum rcn cos + rsn sin`. */
  function RadiusAt(num: Numerics, c: Curve, qq: nat, z: real): real
    requires qq >= 1 && |c.rsn| == |c.rcn|
  {
    Series(num, c.rcn, c.rsn, qq, z, |c.rcn|)
  }

  /** The angle of a curve at `zeta = z` in "fourier" mode: `sum tcn cos + tsn sin`, plus `iota z`. */
  function AngleAt(num: Numerics, c: Curve, iota: real, qq: nat, z: real): real
    requires qq >= 1 && |c.tsn| == |c.tcn|
  {
    Series(num, c.tcn, c.tsn, qq, z, |c.tcn|) + iota * z
  }

  /** The samples of a curve and the right-hand sides at them, on the "fourier" grid. */
  function FourierRhs(num: Numerics, p: Params, c: Curve, iota: real, qq: nat): (rhs: (seq<real>, seq<real>))
    requires qq >= 1 && Usable(p) && |c.rsn| == |c.rcn| && |c.tsn| == |c.tcn|
    ensures |rhs.0| == Samples(p, qq) && |rhs.1| == Samples(p, qq)
    ensures var zeta := FourierGrid(num, p, qq);
      forall k :: 0 <= k < |zeta| ==>
        && rhs.0[k] == FieldRhs(num, c.nv, RadiusAt(num, c, qq, zeta[k]), AngleAt(num, c, iota, qq, zeta[k]), zeta[k]).0
        && rhs.1[k] == FieldRhs(num, c.nv, RadiusAt(num, c, qq, zeta[k]), AngleAt(num, c, iota, qq, zeta[k]), zeta[k]).1
  {
    var zeta := FourierGrid(num, p, qq);
    var r := seq(|zeta|, k requires 0 <= k < |zeta| => RadiusAt(num, c, qq, zeta[k]));
    var t := seq(|zeta|, k requires 0 <= k < |zeta| => AngleAt(num, c, iota, qq, zeta[k]));
    RhsSamples(num, c.nv, r, t, zeta)
  }

  /** The samples `r = rcn[0]`, `theta = tcn[0] + iota zeta` of a curve that holds only its means. */
  function MeanLine(c: Curve, iota: real, zeta: seq<real>): (rt: (seq<real>, seq<real>))
    requires |c.rcn| >= 1 && |c.tcn| >= 1
    ensures |rt.0| == |zeta| && |rt.1| == |zeta|
  {
    (seq(|zeta|, k requires 0 <= k < |zeta| => c.rcn[0]),
     seq(|zeta|, k requires 0 <= k < |zeta| => c.tcn[0] + iota * zeta[k]))
  }

  /** The Fourier series of a curve at each sample of `zeta`, with `iota zeta` added to the angle. */
  lemma {:induction false} CurveOfMeans(num: Numerics, c: Curve, iota: real, qq: nat, zeta: seq<real>)
    requires qq >= 1 && |c.rsn| == |c.rcn| >= 1 && |c.tsn| == |c.tcn| >= 1
    requires num.cos(0.0) == 1.0 && num.sin(0.0) == 0.0
    requires forall m :: 1 <= m < |c.rcn| ==> c.rcn[m] == 0.0 && c.rsn[m] == 0.0
    requires forall m :: 1 <= m < |c.tcn| ==> c.tcn[m] == 0.0 && c.tsn[m] == 0.0
    ensures seq(|zeta|, k requires 0 <= k < |zeta| => RadiusAt(num, c, qq, zeta[k])) == MeanLine(c, iota, zeta).0
    ensures seq(|zeta|, k requires 0 <= k < |zeta| => AngleAt(num, c, iota, qq, zeta[k])) == MeanLine(c, iota, zeta).1
  {
    forall k | 0 <= k < |zeta|
      ensures RadiusAt(num, c, qq, zeta[k]) == c.rcn[0]
      ensures AngleAt(num, c, iota, qq, zeta[k]) == c.tcn[0] + iota * zeta[k]
    {
      SeriesOfMean(num, c.rcn, c.rsn, qq, zeta[k], |c.rcn|);
      SeriesOfMean(num, c.tcn, c.tsn, qq, zeta[k], |c.tcn|);
    }
    var line := MeanLine(c, iota, zeta);
    assert forall k :: 0 <= k < |zeta| ==> line.0[k] == c.rcn[0] && line.1[k] == c.tcn[0] + iota * zeta[k];
  }

  /**
   * A curve with no harmonic but its means, such as the first trial
   * `r = rguess`, is sampled on the straight line `r = rcn[0]`,
   * `theta = tcn[0] + iota zeta`, given that the trigonometric functions are
   * exact at zero.
   */
  lemma {:induction false} FourierRhsOfMeans(num: Numerics, p: Params, c: Curve, iota: real, qq: nat)
    requires qq >= 1 && Usable(p) && |c.rsn| == |c.rcn| >= 1 && |c.tsn| == |c.tcn| >= 1
    requires num.cos(0.0) == 1.0 && num.sin(0.0) == 0.0
    requires forall m :: 1 <= m < |c.rcn| ==> c.rcn[m] == 0.0 && c.rsn[m] == 0.0
    requires forall m :: 1 <= m < |c.tcn| ==> c.tcn[m] == 0.0 && c.tsn[m] == 0.0
    ensures var zeta := FourierGrid(num, p, qq);
      var line := MeanLine(c, iota, zeta);
      FourierRhs(num, p, c, iota, qq) == RhsSamples(num, c.nv, line.0, line.1, zeta)
  {
    CurveOfMeans(num, c, iota, qq, FourierGrid(num, p, qq));
  }

  /** The "fourier" residual of a valid curve with `qN = qq * pqNtor` modes. */
  function FourierResidual(num: Numerics, p: Params, c: Curve, pp: int, qq: nat, a: real): (ff: seq<real>)
    requires qq >= 1 && Usable(p) && ValidCurve(c, Modes(p, qq))
    ensures |ff| == 4 * Modes(p, qq) + 1 && ff[0] == c.tcn[0] - a
  {
    ModesAndSamples(p, qq);
    var rhs := FourierRhs(num, p, c, Iota(pp, qq), qq);
    FourierEquations(c, Modes(p, qq), Iota(pp, qq), a, qq, Rfft1D(num, rhs.0), Rfft1D(num, rhs.1))
  }

  // ---------------------------------------------------------------------
  // "real" mode

  /** The "real" residual: the area equation, then `rdot - rhs_rdot`, then `tdot - rhs_tdot`. */
  function RealEquations(area: real, a: real, rdot: seq<real>, tdot: seq<real>, rhsR: seq<real>, rhsT: seq<real>): (ff: seq<real>)
    requires |tdot| == |rdot| && |rhsR| == |rdot| && |rhsT| == |rdot|
    ensures |ff| == 2 * |rdot| + 1 && ff[0] == area - a
  {
    var n := |rdot|;
    seq(2 * n + 1, k requires 0 <= k < 2 * n + 1 =>
      if k == 0 then area - a
      else if k < n + 1 then rdot[k - 1] - rhsR[k - 1]
      else tdot[k - n - 1] - rhsT[k - n - 1])
  }

  /** The "real" residual vanishes exactly when the curve's velocities equal the field's at every sample. */
  lemma {:induction false} RealEquationsVanish(area: real, a: real, rdot: seq<real>, tdot: seq<real>, rhsR: seq<real>, rhsT: seq<real>)
    requires |tdot| == |rdot| && |rhsR| == |rdot| && |rhsT| == |rdot|
    ensures RealEquations(area, a, rdot, tdot, rhsR, rhsT) == Zeros(2 * |rdot| + 1) <==>
      area == a && rdot == rhsR && tdot == rhsT
  {
    var ff, n := RealEquations(area, a, rdot, tdot, rhsR, rhsT), |rdot|;
    assert forall k :: 0 <= k < n ==> ff[k + 1] == rdot[k] - rhsR[k];
    assert forall k :: 0 <= k < n ==> ff[k + n + 1] == tdot[k] - rhsT[k];
    if ff == Zeros(2 * n + 1) {
      assert forall k :: 0 <= k < 2 * n + 1 ==> ff[k] == 0.0;
      assert rdot == rhsR;
      assert tdot == rhsT;
    }
    if area == a && rdot == rhsR && tdot == rhsT {
      forall k | 0 <= k < 2 * n + 1 ensures ff[k] == 0.0 {
        if 1 <= k < n + 1 {
          assert ff[(k - 1) + 1] == rdot[k - 1] - rhsR[k - 1];
        } else if k >= n + 1 {
          assert ff[(k - n - 1) + n + 1] == tdot[k - n - 1] - rhsT[k - n - 1];
        }
      }
      assert ff == Zeros(2 * n + 1);
    }
  }

  /** `irfft1D(c, s) + shift` at every sample. */
  function Shifted(f: seq<real>, shift: seq<real>): (g: seq<real>)
    requires |shift| == |f|
    ensures |g| == |f|
  {
    seq(|f|, k requires 0 <= k < |f| => f[k] + shift[k])
  }

  /** The curve's velocities `(rdot, tdot)` in "real" mode: the derivative spectra transformed, `iota` added to `tdot`. */
  function RealVelocities(num: Numerics, c: Curve, iota: real, qq: nat): (v: (seq<real>, seq<real>))
    requires qq >= 1 && |c.rcn| >= 2 && ValidCurve(c, |c.rcn| - 1)
    ensures |v.0| == 2 * (|c.rcn| - 1) && |v.1| == 2 * (|c.rcn| - 1)
  {
    var rdot := Irfft1D(num, Harmonics(c.rsn, qq), Negate(Harmonics(c.rcn, qq)), 1);
    var tdot := Irfft1D(num, Harmonics(c.tsn, qq), Negate(Harmonics(c.tcn, qq)), 1);
    (rdot, Shifted(tdot, seq(|tdot|, k => iota)))
  }

  /** The "real" residual of a valid curve. */
  function RealResidual(num: Numerics, c: Curve, pp: int, qq: nat, a: real): (ff: seq<real>)
    requires qq >= 1 && |c.rcn| >= 2 && ValidCurve(c, |c.rcn| - 1)
    ensures |ff| == 4 * (|c.rcn| - 1) + 1 && ff[0] == c.tcn[0] - a
  {
    var iota := Iota(pp, qq);
    var r := Irfft1D(num, c.rcn, c.rsn, 1);
    var z := RealGrid(num, qq, |r|);
    var t := Shifted(Irfft1D(num, c.tcn, c.tsn, 1), seq(|z|, k requires 0 <= k < |z| => iota * z[k]));
    var rhs := RhsSamples(num, c.nv, r, t, z);
    var v := RealVelocities(num, c, iota, qq);
    RealEquations(c.tcn[0], a, v.0, v.1, rhs.0, rhs.1)
  }

  // ---------------------------------------------------------------------
  // The residual

  /**
   * `action_gradient(xx, pp, qq, a, mode)` for a vector of the length the
   * solver builds, `4 * qq * pqNtor + 1`. An unknown mode is the
   * `ValueError`; otherwise the residual has the vector's length and its
   * first entry is the area equation `tcn[0] - a`, read off the vector.
   */
  function ActionGradient(num: Numerics, p: Params, xx: seq<real>, pp: int, qq: nat, a: real): (ff: Result<seq<real>>)
    requires qq >= 1 && Usable(p) && |xx| == 4 * Modes(p, qq) + 1
    ensures ff.Err? <==> !KnownMode(p)
    ensures ff.Err? ==> ff.error == InvalidMode
    ensures ff.Ok? ==> |ff.value| == |xx| && ff.value[0] == xx[3 * Modes(p, qq)] - 1.0 - a
  {
    ModesAndSamples(p, qq);
    UnpackOf(xx, Modes(p, qq));
    var c := Unpack(xx);
    if p.gradientMode == "fourier" then Ok(FourierResidual(num, p, c, pp, qq, a))
    else if p.gradientMode == "real" then Ok(RealResidual(num, c, pp, qq, a))
    else Err(InvalidMode)
  }

  /**
   * At a root of the "fourier" residual the trial curve is an orbit in the
   * harmonic sense: its area is `a`, the mean of `B^theta/B^zeta` along it
   * is `pp/qq`, the mean radial velocity is zero, and every kept harmonic
   * of the curve's derivative matches the field's.
   */
  lemma FourierRoot(num: Numerics, p: Params, xx: seq<real>, pp: int, qq: nat, a: real)
    requires qq >= 1 && Usable(p) && |xx| == 4 * Modes(p, qq) + 1
    requires p.gradientMode == "fourier"
    ensures ModesAndSamplesHold(p, qq)
    ensures ActionGradient(num, p, xx, pp, qq, a) == Ok(Zeros(|xx|)) <==>
      FourierBalanced(Unpack(xx), Modes(p, qq), Iota(pp, qq), a, qq,
                      Rfft1D(num, FourierRhs(num, p, Unpack(xx), Iota(pp, qq), qq).0),
                      Rfft1D(num, FourierRhs(num, p, Unpack(xx), Iota(pp, qq), qq).1))
    ensures ActionGradient(num, p, xx, pp, qq, a) == Ok(Zeros(|xx|)) ==>
      && Unpack(xx).tcn[0] == a
      && Rfft1D(num, FourierRhs(num, p, Unpack(xx), Iota(pp, qq), qq).1).0[0] == Iota(pp, qq)
      && Rfft1D(num, FourierRhs(num, p, Unpack(xx), Iota(pp, qq), qq).0).0[0] == 0.0
  {
    ModesAndSamples(p, qq);
    var c, qN, iota := Unpack(xx), Modes(p, qq), Iota(pp, qq);
    var rhs := FourierRhs(num, p, c, iota, qq);
    FourierEquationsVanish(c, qN, iota, a, qq, Rfft1D(num, rhs.0), Rfft1D(num, rhs.1));
  }

  /** The facts about the mode and sample counts that make the "fourier" spectra long enough. */
  predicate ModesAndSamplesHold(p: Params, qq: nat)
  {
    Modes(p, qq) >= 1 && Samples(p, qq) >= 1 && Samples(p, qq) / 2 + 1 > Modes(p, qq)
  }

  /**
   * The "real" balance of a curve: its area is `a` and its velocities equal
   * the field's right-hand sides at every one of its samples.
   */
  predicate RealBalanced(num: Numerics, c: Curve, pp: int, qq: nat, a: real)
    requires qq >= 1 && |c.rcn| >= 2 && ValidCurve(c, |c.rcn| - 1)
  {
    var iota := Iota(pp, qq);
    var r := Irfft1D(num, c.rcn, c.rsn, 1);
    var z := RealGrid(num, qq, |r|);
    var t := Shifted(Irfft1D(num, c.tcn, c.tsn, 1), seq(|z|, k requires 0 <= k < |z| => iota * z[k]));
    var rhs := RhsSamples(num, c.nv, r, t, z);
    var v := RealVelocities(num, c, iota, qq);
    && c.tcn[0] == a && v.0 == rhs.0 && v.1 == rhs.1
  }

  /**
   * At a root of the "real" residual the trial curve is an orbit sample by
   * sample, and conversely: the residual vanishes exactly when the decoded
   * curve is `RealBalanced`.
   */
  lemma RealRoot(num: Numerics, p: Params, xx: seq<real>, pp: int, qq: nat, a: real)
    requires qq >= 1 && Usable(p) && |xx| == 4 * Modes(p, qq) + 1
    requires p.gradientMode == "real"
    ensures Modes(p, qq) >= 1 && ValidCurve(Unpack(xx), Modes(p, qq))
    ensures ActionGradient(num, p, xx, pp, qq, a) == Ok(Zeros(|xx|)) <==> RealBalanced(num, Unpack(xx), pp, qq, a)
  {
    ModesAndSamples(p, qq);
    UnpackOf(xx, Modes(p, qq));
    var c, iota := Unpack(xx), Iota(pp, qq);
    var r := Irfft1D(num, c.rcn, c.rsn, 1);
    var z := RealGrid(num, qq, |r|);
    var t := Shifted(Irfft1D(num, c.tcn, c.tsn, 1), seq(|z|, k requires 0 <= k < |z| => iota * z[k]));
    var rhs := RhsSamples(num, c.nv, r, t, z);
    var v := RealVelocities(num, c, iota, qq);
    RealEquationsVanish(c.tcn[0], a, v.0, v.1, rhs.0, rhs.1);
  }
}
