/**
 * `QFM.action(pp, qq)`: solves the `fM` action curves of increasing area,
 * samples each curve along `zeta` over `q` toroidal turns, folds the
 * samples into a surface over `(alpha, zeta)`, shears it into
 * `(vartheta, zeta)` with `vartheta = alpha + (p/q) zeta`, and returns the
 * 2D Fourier spectra of the radius and the angle over that surface.
 */
module Action {
  import opened Common
  import opened Config
  import opened DofCodec
  import opened Spectral
  import opened Winding
  import opened Residual
  import opened Continuation

  /** The spectra `action` returns, in its order `(scn_surf, tsn_surf, ssn_surf, tcn_surf)`. */
  datatype Surface = Surface(rcn: Matrix, tsn: Matrix, rsn: Matrix, tcn: Matrix)

  /**
   * The shapes of `action`: `qN` modes, `fM` curves, and a curve sampled at
   * `2 (MM/2) qN == q fM` points, which the fold cuts into `q` pieces of `fM`.
   */
  lemma ActionShapes(p: Params, qq: nat)
    requires qq >= 1 && Usable(p)
    ensures Modes(p, qq) >= 1 && p.MM() * p.pqNtor >= 1
    ensures 2 * p.nfftMultiplier * Modes(p, qq) == qq * (p.MM() * p.pqNtor)
    ensures p.pqNtor < p.MM() * p.pqNtor <= qq * (p.MM() * p.pqNtor)
  {
    ModesAndSamples(p, qq);
    var m, n := p.nfftMultiplier, p.pqNtor;
    MulPositive(m, n);
    MulPositive(qq, 2 * m * n);
    calc {
      2 * m * (qq * n);
      == qq * (2 * m * n);
      == qq * (p.MM() * n);
    }
    assert p.MM() * n == 2 * (m * n);
  }

  /** The converged curves of steps `0..n-1`: `Solved(j)` for each `j`. */
  function Curves(solve: (seq<real>, real) -> Solution, qN: nat, rguess: real, dt: real, n: nat): (cs: seq<Curve>)
    requires qN >= 1 && KeepsLength(solve, 4 * qN + 1)
    ensures |cs| == n && forall j :: 0 <= j < n ==> cs[j] == Solved(solve, qN, rguess, dt, j)
  {
    seq(n, j requires 0 <= j => Solved(solve, qN, rguess, dt, j))
  }

  /**
   * One curve sampled along `zeta`: its radius `irfft1D(rcn, rsn, mult)`
   * and its angle with the mean removed, `irfft1D(tcn[0 := 0], tsn, mult)`.
   */
  function CurveSamples(num: Numerics, mult: nat, qN: nat, c: Curve): (s: (seq<real>, seq<real>))
    requires qN >= 1 && mult >= 1 && ValidCurve(c, qN)
    ensures |s.0| == 2 * mult * qN && |s.1| == 2 * mult * qN
  {
    (Irfft1D(num, c.rcn, c.rsn, mult), Irfft1D(num, MeanFree(c), c.tsn, mult))
  }

  /** The angle harmonics with the mean `tcn[0]` set to zero. */
  function MeanFree(c: Curve): (s: seq<real>)
    ensures |s| == |c.tcn| && (|s| >= 1 ==> s[0] == 0.0)
    ensures forall k :: 1 <= k < |s| ==> s[k] == c.tcn[k]
  {
    if |c.tcn| == 0 then [] else c.tcn[0 := 0.0]
  }

  /** The angle samples do not see the mean angle `tcn[0]` of the curve. */
  lemma {:induction false} AngleSamplesIgnoreMean(num: Numerics, mult: nat, qN: nat, c: Curve, x: real)
    requires qN >= 1 && mult >= 1 && ValidCurve(c, qN)
    ensures ValidCurve(c.(tcn := c.tcn[0 := x]), qN)
    ensures CurveSamples(num, mult, qN, c.(tcn := c.tcn[0 := x])).1 == CurveSamples(num, mult, qN, c).1
    ensures CurveSamples(num, mult, qN, c.(tcn := c.tcn[0 := x])).0 == CurveSamples(num, mult, qN, c).0
  {
    assert c.tcn[0 := x][0 := 0.0] == c.tcn[0 := 0.0];
  }

  /** The radius samples of every curve, one row per curve (`r`). */
  function RadialRows(num: Numerics, mult: nat, qN: nat, cs: seq<Curve>): (r: Matrix)
    requires qN >= 1 && mult >= 1 && forall j :: 0 <= j < |cs| ==> ValidCurve(cs[j], qN)
    ensures IsMatrix(r, |cs|, 2 * mult * qN)
  {
    seq(|cs|, j requires 0 <= j < |cs| => CurveSamples(num, mult, qN, cs[j]).0)
  }

  /** The mean-free angle samples of every curve, one row per curve (`t`). */
  function AngleRows(num: Numerics, mult: nat, qN: nat, cs: seq<Curve>): (t: Matrix)
    requires qN >= 1 && mult >= 1 && forall j :: 0 <= j < |cs| ==> ValidCurve(cs[j], qN)
    ensures IsMatrix(t, |cs|, 2 * mult * qN)
  {
    seq(|cs|, j requires 0 <= j < |cs| => CurveSamples(num, mult, qN, cs[j]).1)
  }

  /** The surface over `(alpha, zeta)` after the fold: row `row` is `FoldedRow` after all `q` periods. */
  function Folded(r: Matrix, pp: int, qq: nat, fM: nat): (a: Matrix)
    requires qq >= 1 && fM >= 1 && IsMatrix(r, fM, qq * fM)
    ensures IsMatrix(a, qq * fM, qq * fM)
  {
    seq(qq * fM, row requires 0 <= row < qq * fM => FoldedRow(r, pp, qq, fM, fM, row, qq))
  }

  /** A row of `q` blocks of `fM` rows lies in a block below `q`. */
  lemma RowBlock(row: nat, fM: nat, qq: nat)
    requires fM >= 1 && row < qq * fM
    ensures row / fM < qq
  {
    if row / fM >= qq {
      MulMono(qq, row / fM, fM);
    }
  }

  /**
   * When `p` and `q` are coprime the fold leaves no gap: every row of block
   * `b` holds its curve rotated by the one period `i` with `p i mod q == b`.
   */
  lemma {:induction false} FoldedCoprime(r: Matrix, pp: int, qq: nat, fM: nat, row: nat)
    requires qq >= 1 && fM >= 1 && IsMatrix(r, fM, qq * fM) && Coprime(pp, qq) && row < qq * fM
    ensures row / fM < qq
    ensures var i := LastHit(pp, qq, row / fM, qq);
      && 0 <= i < qq && (pp * i) % qq == row / fM
      && (forall i' :: 0 <= i' < qq && (pp * i') % qq == row / fM ==> i' == i)
      && i * fM <= qq * fM
      && Folded(r, pp, qq, fM)[row] == Rotate(r[row % fM], i * fM)
  {
    RowBlock(row, fM, qq);
    CoprimeFoldWritesEachBlockOnce(pp, qq, row / fM);
    var i := LastHit(pp, qq, row / fM, qq);
    MulMono(i, qq, fM);
  }

  /**
   * When `p` and `q` share a factor the fold leaves a gap: no period lands
   * in block 1, whose `fM` rows stay zero.
   */
  lemma {:induction false} FoldedGap(r: Matrix, pp: int, qq: nat, fM: nat)
    requires qq >= 1 && fM >= 1 && IsMatrix(r, fM, qq * fM) && !Coprime(pp, qq)
    ensures 2 * fM <= qq * fM
    ensures forall row :: fM <= row < 2 * fM ==> Folded(r, pp, qq, fM)[row] == Zeros(qq * fM)
  {
    NonCoprimeFoldMissesBlockOne(pp, qq);
    MulMono(2, qq, fM);
    forall row | fM <= row < 2 * fM ensures Folded(r, pp, qq, fM)[row] == Zeros(qq * fM) {
      BlockRow(1, row - fM, fM, qq);
      assert row / fM == 1;
    }
  }

  /** Column `i` of a matrix. */
  function Col(a: Matrix, i: nat): (c: seq<real>)
    requires forall k :: 0 <= k < |a| ==> i < |a[k]|
    ensures |c| == |a|
  {
    seq(|a|, k requires 0 <= k < |a| => a[k][i])
  }

  /** The shear into `(vartheta, zeta)`: column `i` moves down by `i p` rows, cyclically. */
  function Sheared(a: Matrix, pp: int, ncols: nat): (v: Matrix)
    requires |a| >= 1 && forall k :: 0 <= k < |a| ==> ncols <= |a[k]|
    ensures IsMatrix(v, |a|, ncols)
  {
    seq(|a|, k requires 0 <= k < |a| => seq(ncols, i requires 0 <= i < ncols => a[(k - i * pp) % |a|][i]))
  }

  /** Each column of the shear is the original column rotated, with the same values. */
  lemma {:induction false} ShearedColumns(a: Matrix, pp: int, ncols: nat, i: nat)
    requires |a| >= 1 && (forall k :: 0 <= k < |a| ==> ncols <= |a[k]|) && i < ncols
    ensures Col(Sheared(a, pp, ncols), i) == Rotate(Col(a, i), (-(i * pp)) % |a|)
    ensures multiset(Col(Sheared(a, pp, ncols), i)) == multiset(Col(a, i))
  {
    ShiftIsRotation(Col(a, i), Col(Sheared(a, pp, ncols), i), i * pp);
  }

  /**
   * The surface `action` builds from the converged curves `cs`: their radius
   * and mean-free angle samples, folded, sheared, and transformed to
   * `pqMpol` poloidal and `pqNtor` toroidal modes.
   */
  function SurfaceOf(num: Numerics, p: Params, pp: int, qq: nat, cs: seq<Curve>): (s: Surface)
    requires qq >= 1 && Usable(p) && |cs| == p.MM() * p.pqNtor
    requires forall j :: 0 <= j < |cs| ==> ValidCurve(cs[j], Modes(p, qq))
    requires p.pqMpol <= qq * (p.MM() * p.pqNtor) / 2
    ensures IsMatrix(s.rcn, p.pqMpol + 1, 2 * p.pqNtor + 1) && IsMatrix(s.rsn, p.pqMpol + 1, 2 * p.pqNtor + 1)
    ensures IsMatrix(s.tcn, p.pqMpol + 1, 2 * p.pqNtor + 1) && IsMatrix(s.tsn, p.pqMpol + 1, 2 * p.pqNtor + 1)
  {
    ActionShapes(p, qq);
    var qN, fM, mult := Modes(p, qq), p.MM() * p.pqNtor, p.nfftMultiplier;
    var r := Sheared(Folded(RadialRows(num, mult, qN, cs), pp, qq, fM), pp, fM);
    var t := Sheared(Folded(AngleRows(num, mult, qN, cs), pp, qq, fM), pp, fM);
    var rs := Rfft2D(num, r, p.pqMpol, p.pqNtor);
    var ts := Rfft2D(num, t, p.pqMpol, p.pqNtor);
    Surface(rs.0, ts.1, rs.1, ts.0)
  }

  /** The rows of a 2D array, as a matrix. */
  function Entries(a: array2<real>): (m: Matrix)
    reads a
    ensures IsMatrix(m, a.Length0, a.Length1) && forall i :: 0 <= i < a.Length0 ==> m[i] == Row(a, i)
  {
    seq(a.Length0, i requires 0 <= i < a.Length0 reads a => Row(a, i))
  }

  /** `irfft1D(cn, sn, mult)` of two tables: along the last axis, row by row. */
  function Irfft1DRows(num: Numerics, cn: Matrix, sn: Matrix, mult: nat): (f: Matrix)
    requires |cn| == |sn| && mult >= 1
    requires forall j :: 0 <= j < |cn| ==> |cn[j]| == |sn[j]| >= 2
    ensures |f| == |cn|
  {
    seq(|cn|, j requires 0 <= j < |cn| => Irfft1D(num, cn[j], sn[j], mult))
  }

  /** Tables holding the curves' harmonics row by row sample to the curves' radius rows. */
  lemma {:induction false} RadialTables(num: Numerics, mult: nat, qN: nat, cs: seq<Curve>, rc: Matrix, rs: Matrix)
    requires qN >= 1 && mult >= 1 && forall j :: 0 <= j < |cs| ==> ValidCurve(cs[j], qN)
    requires |rc| == |rs| == |cs| && forall j :: 0 <= j < |cs| ==> rc[j] == cs[j].rcn && rs[j] == cs[j].rsn
    ensures forall j :: 0 <= j < |cs| ==> |rc[j]| == |rs[j]| == qN + 1
    ensures Irfft1DRows(num, rc, rs, mult) == RadialRows(num, mult, qN, cs)
  {
    var f, g := Irfft1DRows(num, rc, rs, mult), RadialRows(num, mult, qN, cs);
    forall j | 0 <= j < |cs| ensures f[j] == g[j] {
      assert f[j] == Irfft1D(num, cs[j].rcn, cs[j].rsn, mult);
    }
  }

  /** Tables holding the mean-free angle harmonics sample to the curves' angle rows. */
  lemma {:induction false} AngleTables(num: Numerics, mult: nat, qN: nat, cs: seq<Curve>, tc: Matrix, ts: Matrix)
    requires qN >= 1 && mult >= 1 && forall j :: 0 <= j < |cs| ==> ValidCurve(cs[j], qN)
    requires |tc| == |ts| == |cs| && forall j :: 0 <= j < |cs| ==> tc[j] == MeanFree(cs[j]) && ts[j] == cs[j].tsn
    ensures forall j :: 0 <= j < |cs| ==> |tc[j]| == |ts[j]| == qN + 1
    ensures Irfft1DRows(num, tc, ts, mult) == AngleRows(num, mult, qN, cs)
  {
    var f, g := Irfft1DRows(num, tc, ts, mult), AngleRows(num, mult, qN, cs);
    forall j | 0 <= j < |cs| ensures f[j] == g[j] {
      assert f[j] == Irfft1D(num, MeanFree(cs[j]), cs[j].tsn, mult);
    }
  }

  /** `tcnarr[:, c] = 0`: column `c` becomes zero, every other entry keeps its value. */
  method ZeroColumn(a: array2<real>, c: nat)
    requires c < a.Length1
    modifies a
    ensures forall i :: 0 <= i < a.Length0 ==> Row(a, i) == old(Row(a, i))[c := 0.0]
  {
    ghost var before := Entries(a);
    for i := 0 to a.Length0
      invariant forall i', j :: 0 <= i' < a.Length0 && 0 <= j < a.Length1 ==>
        a[i', j] == if i' < i && j == c then 0.0 else before[i'][j]
    {
      a[i, c] := 0.0;
    }
    forall i | 0 <= i < a.Length0 ensures Row(a, i) == before[i][c := 0.0] {
      assert forall j :: 0 <= j < a.Length1 ==> Row(a, i)[j] == before[i][c := 0.0][j];
    }
  }

  /** The fold loop and then the shear loop of `action`, for one of `r` and `t`. */
  method FoldAndShear(r: Matrix, pp: int, qq: nat, fM: nat) returns (v: Matrix)
    requires qq >= 1 && fM >= 1 && IsMatrix(r, fM, qq * fM) && fM <= qq * fM
    ensures v == Sheared(Folded(r, pp, qq, fM), pp, fM)
  {
    var alpha := Fold(r, pp, qq, fM, fM);
    var vartheta := Resample(alpha, pp, fM);
    v := Entries(vartheta);
    ghost var a := Folded(r, pp, qq, fM);
    assert Entries(alpha) == a;
    forall k | 0 <= k < qq * fM ensures v[k] == Sheared(a, pp, fM)[k] {
      assert forall i :: 0 <= i < fM ==> v[k][i] == alpha[(k - i * pp) % (qq * fM), i];
    }
  }

  /**
   * The two `irfft1D` calls of `action` on the curve tables, with the mean
   * angle column `tcnarr[:, 0]` zeroed in between: the radius and angle
   * samples of the tabulated curves.
   */
  method SampleTables(num: Numerics, mult: nat, qN: nat, t: Tables, ghost cs: seq<Curve>) returns (r: Matrix, th: Matrix)
    requires qN >= 1 && mult >= 1 && Shaped(t, |cs|, qN)
    requires forall j :: 0 <= j < |cs| ==> ValidCurve(cs[j], qN) && RowCurve(t, |cs|, qN, j) == cs[j]
    modifies t.tcn
    ensures forall j :: 0 <= j < |cs| ==> Row(t.tcn, j) == MeanFree(cs[j])
    ensures r == RadialRows(num, mult, qN, cs) && th == AngleRows(num, mult, qN, cs)
  {
    var fM := |cs|;
    assert forall j :: 0 <= j < fM ==> Row(t.rcn, j) == cs[j].rcn && Row(t.rsn, j) == cs[j].rsn && Row(t.tsn, j) == cs[j].tsn && Row(t.tcn, j) == cs[j].tcn;
    r := Irfft1DRows(num, Entries(t.rcn), Entries(t.rsn), mult);
    RadialTables(num, mult, qN, cs, Entries(t.rcn), Entries(t.rsn));
    ZeroColumn(t.tcn, 0);
    th := Irfft1DRows(num, Entries(t.tcn), Entries(t.tsn), mult);
    AngleTables(num, mult, qN, cs, Entries(t.tcn), Entries(t.tsn));
  }

  /** The fold, the shear and the two `rfft2D` calls of `action`, from the samples of the curves `cs`. */
  method SurfaceFromSamples(num: Numerics, p: Params, pp: int, qq: nat, ghost cs: seq<Curve>, r: Matrix, th: Matrix)
    returns (s: Surface)
    requires qq >= 1 && Usable(p) && |cs| == p.MM() * p.pqNtor
    requires forall j :: 0 <= j < |cs| ==> ValidCurve(cs[j], Modes(p, qq))
    requires p.pqMpol <= qq * (p.MM() * p.pqNtor) / 2
    requires r == RadialRows(num, p.nfftMultiplier, Modes(p, qq), cs)
    requires th == AngleRows(num, p.nfftMultiplier, Modes(p, qq), cs)
    ensures s == SurfaceOf(num, p, pp, qq, cs)
  {
    ActionShapes(p, qq);
    var fM := p.MM() * p.pqNtor;
    var rv := FoldAndShear(r, pp, qq, fM);
    var tv := FoldAndShear(th, pp, qq, fM);
    var rs := Rfft2D(num, rv, p.pqMpol, p.pqNtor);
    var ts := Rfft2D(num, tv, p.pqMpol, p.pqNtor);
    s := Surface(rs.0, ts.1, rs.1, ts.0);
  }

  /**
   * `action(pp, qq)`: the continuation of `fM` curves, then the surface built
   * from them; an unknown residual mode raises `InvalidMode`, and otherwise
   * the first curve the solver fails on raises `OrbitNotFound`.
   */
  method Action(num: Numerics, p: Params, solve: (seq<real>, real) -> Solution, pp: int, qq: nat, rguess: real)
    returns (res: Result<Surface>)
    requires qq >= 1 && Usable(p) && KeepsLength(solve, 4 * Modes(p, qq) + 1)
    requires p.pqMpol <= qq * (p.MM() * p.pqNtor) / 2
    ensures Modes(p, qq) >= 1 && p.MM() * p.pqNtor >= 1
    ensures res == Err(InvalidMode) <==> !KnownMode(p)
    ensures KnownMode(p) ==> var qN, fM := Modes(p, qq), p.MM() * p.pqNtor;
      var dt := AreaStep(num, qq, fM);
      && (res.Ok? <==> FirstFailure(solve, qN, rguess, dt, fM) == fM)
      && (res.Ok? ==> res.value == SurfaceOf(num, p, pp, qq, Curves(solve, qN, rguess, dt, fM)))
      && (res.Err? ==> res.error == OrbitNotFound(pp, qq, Target(FirstFailure(solve, qN, rguess, dt, fM), dt)))
  {
    ActionShapes(p, qq);
    var status, tables := SolveCurves(num, p, solve, pp, qq, rguess);
    if status.Err? {
      return Err(status.error);
    }
    var qN, fM := Modes(p, qq), p.MM() * p.pqNtor;
    ghost var cs := Curves(solve, qN, rguess, AreaStep(num, qq, fM), fM);
    var r, th := SampleTables(num, p.nfftMultiplier, qN, tables, cs);
    var surface := SurfaceFromSamples(num, p, pp, qq, cs, r, th);
    res := Ok(surface);
  }
}
