/**
 * `QFM.straighten_boundary(rho, tol, niter)`: finds the map `lambda` of
 * `theta = vartheta + lambda(vartheta, zeta)` on the surface `rho` that
 * makes `B^vartheta / B^zeta` constant. Each round samples `B^theta/B^zeta`
 * on the grid shifted by the current `lambda`, takes its 2D spectrum, reads
 * the rotational transform off the mean mode and solves every other mode
 * for the next `lambda`; the rounds stop at the first one that changes
 * nothing by `tol` or more, or after `niter` rounds.
 */
module Straighten {
  import opened Common
  import opened Config
  import opened Spectral
  import opened Residual

  /** The iterate: the transform `iota` and the spectra `lambda_cn`, `lambda_sn` of `lambda`. */
  datatype State = State(iota: real, cn: Matrix, sn: Matrix)

  /** An iterate for `ntor` modes: both spectra are `(ntor + 1) x (2 ntor + 1)` (`mpol` is `ntor` here). */
  predicate Shaped(s: State, ntor: nat)
  {
    IsMatrix(s.cn, ntor + 1, 2 * ntor + 1) && IsMatrix(s.sn, ntor + 1, 2 * ntor + 1)
  }

  /** Before the first round: `iota = 0` and `lambda = 0`. */
  function Initial(ntor: nat): (s: State)
    ensures Shaped(s, ntor) && s.iota == 0.0
    ensures forall m, j | 0 <= m <= ntor && 0 <= j <= 2 * ntor :: s.cn[m][j] == 0.0 && s.sn[m][j] == 0.0
  {
    State(0.0, ZeroMatrix(ntor + 1, 2 * ntor + 1), ZeroMatrix(ntor + 1, 2 * ntor + 1))
  }

  /**
   * The grid of `straighten_boundary`: `MM * ntor` points each way, an even
   * number, with room for `ntor` modes each way.
   */
  lemma GridShapes(p: Params)
    requires Usable(p)
    ensures var n := p.MM() * p.pqNtor;
      && n % 2 == 0 && n / 2 == p.nfftMultiplier * p.pqNtor && p.pqNtor <= n / 2 && p.pqNtor < n
  {
    MulPositive(p.nfftMultiplier, p.pqNtor);
    assert p.MM() * p.pqNtor == 2 * (p.nfftMultiplier * p.pqNtor);
  }

  // ---------------------------------------------------------------------
  // The stopping rule

  /** `np.max(np.abs(a - b))` for two vectors of the same non-zero length. */
  function MaxDiff(a: seq<real>, b: seq<real>): (d: real)
    requires |a| == |b| >= 1
    ensures forall k :: 0 <= k < |a| ==> Abs(a[k] - b[k]) <= d
    decreases |a|
  {
    if |a| == 1 then Abs(a[0] - b[0])
    else Max(MaxDiff(a[..|a| - 1], b[..|b| - 1]), Abs(a[|a| - 1] - b[|b| - 1]))
  }

  /** The largest change is below `tol` exactly when every change is. */
  lemma {:induction false} MaxDiffBelow(a: seq<real>, b: seq<real>, tol: real)
    requires |a| == |b| >= 1
    ensures MaxDiff(a, b) < tol <==> forall k :: 0 <= k < |a| ==> Abs(a[k] - b[k]) < tol
    decreases |a|
  {
    if |a| > 1 {
      var a', b' := a[..|a| - 1], b[..|b| - 1];
      MaxDiffBelow(a', b', tol);
      if forall k :: 0 <= k < |a| ==> Abs(a[k] - b[k]) < tol {
        assert forall k :: 0 <= k < |a'| ==> Abs(a'[k] - b'[k]) < tol by {
          forall k | 0 <= k < |a'| ensures Abs(a'[k] - b'[k]) < tol {
            assert a'[k] == a[k] && b'[k] == b[k];
          }
        }
      }
    }
  }

  /** `np.max(np.abs(A - B))` for two matrices of the same non-empty shape. */
  function MaxDiff2(a: Matrix, b: Matrix, w: nat): (d: real)
    requires w >= 1 && |a| >= 1 && IsMatrix(a, |a|, w) && IsMatrix(b, |a|, w)
    ensures forall m, j :: 0 <= m < |a| && 0 <= j < w ==> Abs(a[m][j] - b[m][j]) <= d
    decreases |a|
  {
    if |a| == 1 then MaxDiff(a[0], b[0])
    else Max(MaxDiff2(a[..|a| - 1], b[..|b| - 1], w), MaxDiff(a[|a| - 1], b[|b| - 1]))
  }

  /** Every entry of `a` is within `tol` of the entry of `b` at its place. */
  predicate AllWithin(a: Matrix, b: Matrix, w: nat, tol: real)
    requires IsMatrix(a, |a|, w) && IsMatrix(b, |a|, w)
  {
    forall m, j :: 0 <= m < |a| && 0 <= j < w ==> Abs(a[m][j] - b[m][j]) < tol
  }

  /** The largest entry change is below `tol` exactly when every entry change is. */
  lemma {:induction false} MaxDiff2Below(a: Matrix, b: Matrix, w: nat, tol: real)
    requires w >= 1 && |a| >= 1 && IsMatrix(a, |a|, w) && IsMatrix(b, |a|, w)
    ensures MaxDiff2(a, b, w) < tol <==> AllWithin(a, b, w, tol)
    decreases |a|
  {
    var last := |a| - 1;
    MaxDiffBelow(a[last], b[last], tol);
    if |a| > 1 {
      var a', b' := a[..last], b[..last];
      MaxDiff2Below(a', b', w, tol);
      if forall m, j :: 0 <= m < |a| && 0 <= j < w ==> Abs(a[m][j] - b[m][j]) < tol {
        assert forall m, j :: 0 <= m < |a'| && 0 <= j < w ==> Abs(a'[m][j] - b'[m][j]) < tol by {
          forall m, j | 0 <= m < |a'| && 0 <= j < w ensures Abs(a'[m][j] - b'[m][j]) < tol {
            assert a'[m] == a[m] && b'[m] == b[m];
          }
        }
      }
    }
  }

  /** `np.max([erriota, errcn, errsn])`: the largest change of a round. */
  function Change(prev: State, next: State, ntor: nat): (d: real)
    requires Shaped(prev, ntor) && Shaped(next, ntor)
    ensures Abs(next.iota - prev.iota) <= d
    ensures forall m, j :: 0 <= m <= ntor && 0 <= j <= 2 * ntor ==>
      Abs(next.cn[m][j] - prev.cn[m][j]) <= d && Abs(next.sn[m][j] - prev.sn[m][j]) <= d
  {
    Max(Abs(next.iota - prev.iota), Max(MaxDiff2(next.cn, prev.cn, 2 * ntor + 1), MaxDiff2(next.sn, prev.sn, 2 * ntor + 1)))
  }

  /** A round passes the stopping test exactly when `iota` and every coefficient moved by less than `tol`. */
  lemma {:induction false} ChangeBelow(prev: State, next: State, ntor: nat, tol: real)
    requires Shaped(prev, ntor) && Shaped(next, ntor)
    ensures Change(prev, next, ntor) < tol <==>
      && Abs(next.iota - prev.iota) < tol
      && AllWithin(next.cn, prev.cn, 2 * ntor + 1, tol)
      && AllWithin(next.sn, prev.sn, 2 * ntor + 1, tol)
  {
    var w := 2 * ntor + 1;
    MaxDiff2Below(next.cn, prev.cn, w, tol);
    MaxDiff2Below(next.sn, prev.sn, w, tol);
    var dc, ds := MaxDiff2(next.cn, prev.cn, w), MaxDiff2(next.sn, prev.sn, w);
    MaxBelow(dc, ds, tol);
    MaxBelow(Abs(next.iota - prev.iota), Max(dc, ds), tol);
  }

  /** The larger of two numbers is below `tol` exactly when both are. */
  lemma MaxBelow(x: real, y: real, tol: real)
    ensures Max(x, y) < tol <==> x < tol && y < tol
  {
  }

  // ---------------------------------------------------------------------
  // The mode update

  /** `(-mlist[m] * iota + nlist[j])`, the denominator of mode `(m, j)`. */
  function Denominator(m: nat, n: int, iota: real): real
  {
    -(m as real) * iota + (n as real)
  }

  /** Mode `(m, j)` is one the round divides for (every mode but `(0, 0)`) and its denominator is zero. */
  predicate Resonant(m: nat, j: nat, iota: real, nlist: seq<int>)
    requires j < |nlist|
  {
    (m, j) != (0, 0) && Denominator(m, nlist[j], iota) == 0.0
  }

  /** The first column `j >= from` of row `m` with a resonant mode, or `|nlist|` when there is none. */
  function ResonantColumn(m: nat, iota: real, nlist: seq<int>, from: nat): (j: nat)
    requires from <= |nlist|
    ensures from <= j <= |nlist|
    ensures j < |nlist| ==> Resonant(m, j, iota, nlist)
    ensures forall j' :: from <= j' < j ==> !Resonant(m, j', iota, nlist)
    decreases |nlist| - from
  {
    if from == |nlist| then from
    else if Resonant(m, from, iota, nlist) then from
    else ResonantColumn(m, iota, nlist, from + 1)
  }

  /** The first row `m >= from` holding a resonant mode, or `rows` when there is none. */
  function ResonantRow(rows: nat, iota: real, nlist: seq<int>, from: nat): (m: nat)
    requires from <= rows
    ensures from <= m <= rows
    ensures m < rows ==> ResonantColumn(m, iota, nlist, 0) < |nlist|
    ensures forall m', j :: from <= m' < m && 0 <= j < |nlist| ==> !Resonant(m', j, iota, nlist)
    decreases rows - from
  {
    if from == rows then from
    else if ResonantColumn(from, iota, nlist, 0) < |nlist| then from
    else ResonantRow(rows, iota, nlist, from + 1)
  }

  /** The divisor of mode `(m, j)`: the denominator, or its negation when `flip`. */
  function Divisor(m: nat, n: int, iota: real, flip: bool): real
  {
    if flip then (m as real) * iota - (n as real) else Denominator(m, n, iota)
  }

  /** `q` solves `q * d == x`: the mode equation the update solves. */
  predicate Solves(q: real, d: real, x: real)
  {
    q * d == x
  }

  /** `x` divided by the divisor of a mode that is not resonant. */
  function Quotient(x: real, m: nat, j: nat, iota: real, nlist: seq<int>, flip: bool): (q: real)
    requires j < |nlist| && (m, j) != (0, 0) && !Resonant(m, j, iota, nlist)
    ensures Solves(q, Divisor(m, nlist[j], iota, flip), x)
  {
    var d := Divisor(m, nlist[j], iota, flip);
    assert d != 0.0;
    x / d
  }

  /** No mode of the first `rows` rows is resonant. */
  predicate NoResonance(rows: nat, iota: real, nlist: seq<int>)
  {
    forall m, j :: 0 <= m < rows && 0 <= j < |nlist| ==> !Resonant(m, j, iota, nlist)
  }

  /**
   * One row `m` of the update: each `num[j]` divided by the divisor of mode
   * `(m, j)`, and zero at mode `(0, 0)`.
   */
  function Quotients(num: seq<real>, m: nat, iota: real, nlist: seq<int>, flip: bool): (q: seq<real>)
    requires |num| == |nlist| && NoResonance(m + 1, iota, nlist)
    ensures |q| == |nlist|
    ensures m == 0 && |nlist| >= 1 ==> q[0] == 0.0
    ensures forall j :: 0 <= j < |nlist| && (m, j) != (0, 0) ==> Solves(q[j], Divisor(m, nlist[j], iota, flip), num[j])
  {
    seq(|num|, j requires 0 <= j < |num| =>
      if (m, j) == (0, 0) then 0.0 else Quotient(num[j], m, j, iota, nlist, flip))
  }

  /** Fewer rows have no resonant mode either. */
  lemma NoResonanceFewer(rows: nat, k: nat, iota: real, nlist: seq<int>)
    requires k <= rows && NoResonance(rows, iota, nlist)
    ensures NoResonance(k, iota, nlist)
  {
  }

  /** The quotient matrix of `num`, row by row. */
  function QuotientRows(num: Matrix, iota: real, nlist: seq<int>, flip: bool): (q: Matrix)
    requires IsMatrix(num, |num|, |nlist|) && NoResonance(|num|, iota, nlist)
    ensures IsMatrix(q, |num|, |nlist|)
    ensures |num| >= 1 && |nlist| >= 1 ==> q[0][0] == 0.0
    ensures forall m, j :: 0 <= m < |num| && 0 <= j < |nlist| && (m, j) != (0, 0) ==>
      Solves(q[m][j], Divisor(m, nlist[j], iota, flip), num[m][j])
  {
    seq(|num|, m requires 0 <= m < |num| =>
      NoResonanceFewer(|num|, m + 1, iota, nlist);
      Quotients(num[m], m, iota, nlist, flip))
  }

  /**
   * The update of `lambda_cn` and `lambda_sn` from the spectrum `(cn, sn)`:
   * every mode but `(0, 0)` is `sn / (n - m iota)`, respectively
   * `cn / (m iota - n)`, and mode `(0, 0)` is zero. A zero denominator is
   * reported as the first resonant mode in row-major order.
   */
  function ModeUpdate(cn: Matrix, sn: Matrix, iota: real, nlist: seq<int>): (r: Result<(Matrix, Matrix)>)
    requires IsMatrix(cn, |cn|, |nlist|) && IsMatrix(sn, |cn|, |nlist|)
    ensures r.Ok? <==> NoResonance(|cn|, iota, nlist)
    ensures r.Err? ==> && r.error.Resonance? && r.error.m < |cn| && r.error.j < |nlist|
                       && Resonant(r.error.m, r.error.j, iota, nlist)
    ensures r.Ok? ==> IsMatrix(r.value.0, |cn|, |nlist|) && IsMatrix(r.value.1, |cn|, |nlist|)
    ensures r.Ok? && |cn| >= 1 && |nlist| >= 1 ==> r.value.0[0][0] == 0.0 && r.value.1[0][0] == 0.0
    ensures r.Ok? ==> forall m, j :: 0 <= m < |cn| && 0 <= j < |nlist| && (m, j) != (0, 0) ==>
      && Solves(r.value.0[m][j], Divisor(m, nlist[j], iota, false), sn[m][j])
      && Solves(r.value.1[m][j], Divisor(m, nlist[j], iota, true), cn[m][j])
  {
    var m := ResonantRow(|cn|, iota, nlist, 0);
    if m < |cn| then Err(Resonance(m, ResonantColumn(m, iota, nlist, 0)))
    else Ok((QuotientRows(sn, iota, nlist, false), QuotientRows(cn, iota, nlist, true)))
  }

  // ---------------------------------------------------------------------
  // One round and the iteration

  /**
   * The grid of `nfft = MM ntor` points each way fits `ntor` modes: the
   * facts of `GridShapes` that the rounds use, with `nfft` as a number of
   * its own.
   */
  predicate Fits(ntor: nat, nfft: nat)
  {
    ntor >= 1 && nfft % 2 == 0 && ntor <= nfft / 2
  }

  /** The grid of `straighten_boundary` fits its modes. */
  lemma ParamsFit(p: Params)
    requires Usable(p)
    ensures Fits(p.pqNtor, p.MM() * p.pqNtor)
  {
    GridShapes(p);
  }

  /** `irfft2D(lambda_cn, lambda_sn, nfft, nfft)`: `lambda` on the `nfft x nfft` grid. */
  function Lambda(num: Numerics, ntor: nat, nfft: nat, st: State): (lam: Matrix)
    requires Fits(ntor, nfft) && Shaped(st, ntor)
    ensures IsMatrix(lam, nfft, nfft)
  {
    Irfft2D(num, st.cn, st.sn, nfft, nfft)
  }

  /**
   * `Bt_over_Bz` of a round: `B^theta / B^zeta` at `(rho, theta_i + lambda(i, j), zeta_j)`
   * on the `nfft x nfft` grid, `lambda` synthesised from the iterate.
   */
  function FieldSamples(num: Numerics, ntor: nat, nfft: nat, rho: real, st: State): (f: Matrix)
    requires Fits(ntor, nfft) && Shaped(st, ntor)
    ensures IsMatrix(f, nfft, nfft) && nfft >= 1
    ensures var lam, grid := Lambda(num, ntor, nfft, st), RealGrid(num, 1, nfft);
      forall i, j :: 0 <= i < nfft && 0 <= j < nfft ==> f[i][j] == num.field(rho, grid[i] + lam[i][j], grid[j]).1
  {
    FieldOn(num, rho, Lambda(num, ntor, nfft, st), RealGrid(num, 1, nfft))
  }

  /** `B^theta / B^zeta` at `(rho, grid[i] + lam[i][j], grid[j])` for every `i, j`. */
  function FieldOn(num: Numerics, rho: real, lam: Matrix, grid: seq<real>): (f: Matrix)
    requires IsMatrix(lam, |grid|, |grid|)
    ensures IsMatrix(f, |grid|, |grid|)
    ensures forall i, j :: 0 <= i < |grid| && 0 <= j < |grid| ==> f[i][j] == num.field(rho, grid[i] + lam[i][j], grid[j]).1
  {
    var n := |grid|;
    seq(n, i requires 0 <= i < n => seq(n, j requires 0 <= j < n => num.field(rho, grid[i] + lam[i][j], grid[j]).1))
  }

  /** `rfft2D(Bt_over_Bz, mpol, ntor)` of a round: the `(ntor + 1) x (2 ntor + 1)` spectra. */
  function Spectrum(num: Numerics, ntor: nat, nfft: nat, rho: real, st: State): (spec: (Matrix, Matrix))
    requires Fits(ntor, nfft) && Shaped(st, ntor)
    ensures IsMatrix(spec.0, ntor + 1, 2 * ntor + 1) && IsMatrix(spec.1, ntor + 1, 2 * ntor + 1)
  {
    Rfft2D(num, FieldSamples(num, ntor, nfft, rho, st), ntor, ntor)
  }

  /**
   * Every mode of the iterate but `(0, 0)` solves its equation against the
   * spectrum `spec`: `lambda_cn (n - m iota) = sn` and `lambda_sn (m iota - n) = cn`.
   */
  predicate SolvesModes(s: State, spec: (Matrix, Matrix), nlist: seq<int>, ntor: nat)
    requires Shaped(s, ntor) && |nlist| == 2 * ntor + 1
    requires IsMatrix(spec.0, ntor + 1, 2 * ntor + 1) && IsMatrix(spec.1, ntor + 1, 2 * ntor + 1)
  {
    forall m, j :: 0 <= m <= ntor && 0 <= j <= 2 * ntor && (m, j) != (0, 0) ==>
      && Solves(s.cn[m][j], Divisor(m, nlist[j], s.iota, false), spec.1[m][j])
      && Solves(s.sn[m][j], Divisor(m, nlist[j], s.iota, true), spec.0[m][j])
  }

  /**
   * The second half of the loop body, on the spectrum `spec` of
   * `Bt_over_Bz`: `iota` is its mean mode and the next `lambda` solves every
   * other mode of it.
   */
  function Update(spec: (Matrix, Matrix), ntor: nat, nfp: int): (r: Result<State>)
    requires IsMatrix(spec.0, ntor + 1, 2 * ntor + 1) && IsMatrix(spec.1, ntor + 1, 2 * ntor + 1)
    ensures r.Ok? <==> NoResonance(ntor + 1, spec.0[0][0], ModeList(ntor, nfp))
    ensures r.Err? ==> && r.error.Resonance? && r.error.m <= ntor && r.error.j <= 2 * ntor
                       && Resonant(r.error.m, r.error.j, spec.0[0][0], ModeList(ntor, nfp))
    ensures r.Ok? ==> Shaped(r.value, ntor) && r.value.iota == spec.0[0][0]
    ensures r.Ok? ==> r.value.cn[0][0] == 0.0 && r.value.sn[0][0] == 0.0
    ensures r.Ok? ==> SolvesModes(r.value, spec, ModeList(ntor, nfp), ntor)
  {
    var iota := spec.0[0][0];
    match ModeUpdate(spec.0, spec.1, iota, ModeList(ntor, nfp))
    case Err(e) => Err(e)
    case Ok(u) => Ok(State(iota, u.0, u.1))
  }

  /** One pass of the loop body: sample, transform, update. */
  function Round(num: Numerics, ntor: nat, nfft: nat, nfp: int, rho: real, st: State): (r: Result<State>)
    requires Fits(ntor, nfft) && Shaped(st, ntor)
    ensures r.Ok? ==> Shaped(r.value, ntor) && r.value.cn[0][0] == 0.0 && r.value.sn[0][0] == 0.0
    ensures r.Err? ==> r.error.Resonance?
  {
    Update(Spectrum(num, ntor, nfft, rho, st), ntor, nfp)
  }

  /**
   * A round function for iterates of `ntor` modes: defined on every shaped
   * iterate and keeping the shape.
   */
  ghost predicate Rounds(round: State --> Result<State>, ntor: nat)
  {
    && (forall s :: Shaped(s, ntor) ==> round.requires(s))
    && (forall s {:trigger round(s)} :: Shaped(s, ntor) && round.requires(s) && round(s).Ok? ==> Shaped(round(s).value, ntor))
  }

  /** The round of `straighten_boundary` on a surface, as a function of the iterate. */
  function RoundOf(num: Numerics, ntor: nat, nfft: nat, nfp: int, rho: real): (round: State --> Result<State>)
    requires Fits(ntor, nfft)
    ensures Rounds(round, ntor)
    ensures forall s {:trigger round(s)} :: Shaped(s, ntor) ==> round(s) == Round(num, ntor, nfft, nfp, rho, s)
  {
    s requires Shaped(s, ntor) => Round(num, ntor, nfft, nfp, rho, s)
  }

  /**
   * The `for i in range(niter)` loop from the iterate `st` with `k` rounds
   * left: a round whose change is below `tol` ends it (`break`), as does the
   * last round; a failing round fails the loop.
   */
  function Run(round: State --> Result<State>, ntor: nat, tol: real, st: State, k: nat): (r: Result<State>)
    requires Rounds(round, ntor) && Shaped(st, ntor)
    ensures r.Ok? ==> Shaped(r.value, ntor)
    ensures r.Err? ==> k >= 1
    decreases k
  {
    if k == 0 then Ok(st)
    else
      match round(st)
      case Err(e) => Err(e)
      case Ok(next) =>
        if Change(st, next, ntor) < tol then Ok(next) else Run(round, ntor, tol, next, k - 1)
  }

  /** After at least one round, the loop's result, success or failure, is what some round returned. */
  lemma {:induction false} RunFromRound(round: State --> Result<State>, ntor: nat, tol: real, st: State, k: nat)
    requires Rounds(round, ntor) && Shaped(st, ntor) && k >= 1
    ensures exists s :: Shaped(s, ntor) && round(s) == Run(round, ntor, tol, st, k)
    decreases k
  {
    var r := round(st);
    if r.Ok? && !(Change(st, r.value, ntor) < tol) && k > 1 {
      RunFromRound(round, ntor, tol, r.value, k - 1);
    } else {
      assert round(st) == Run(round, ntor, tol, st, k);
    }
  }

  /** A vector differs from itself by nothing. */
  lemma {:induction false} MaxDiffSelf(a: seq<real>)
    requires |a| >= 1
    ensures MaxDiff(a, a) == 0.0
    decreases |a|
  {
    if |a| > 1 {
      MaxDiffSelf(a[..|a| - 1]);
    }
  }

  /** A matrix differs from itself by nothing. */
  lemma {:induction false} MaxDiff2Self(a: Matrix, w: nat)
    requires w >= 1 && |a| >= 1 && IsMatrix(a, |a|, w)
    ensures MaxDiff2(a, a, w) == 0.0
    decreases |a|
  {
    MaxDiffSelf(a[|a| - 1]);
    if |a| > 1 {
      MaxDiff2Self(a[..|a| - 1], w);
    }
  }

  /** A round that leaves the iterate unchanged ends the loop at once with that iterate, whenever `tol > 0`. */
  lemma {:induction false} RunFixedPoint(round: State --> Result<State>, ntor: nat, tol: real, st: State, k: nat)
    requires Rounds(round, ntor) && Shaped(st, ntor) && k >= 1 && tol > 0.0
    requires round(st) == Ok(st)
    ensures Run(round, ntor, tol, st, k) == Ok(st)
  {
    MaxDiff2Self(st.cn, 2 * ntor + 1);
    MaxDiff2Self(st.sn, 2 * ntor + 1);
    assert Change(st, st, ntor) == 0.0;
  }

  /**
   * What `straighten_boundary` returns after at least one round: `lambda`
   * has no `(0, 0)` mode, and `iota` and `lambda` solve the mode equations
   * of `B^theta / B^zeta` sampled at some iterate, `iota` being its mean.
   */
  lemma {:induction false} Straightened(num: Numerics, ntor: nat, nfft: nat, nfp: int, rho: real, tol: real, st: State, k: nat)
    requires Fits(ntor, nfft) && Shaped(st, ntor) && k >= 1
    requires Run(RoundOf(num, ntor, nfft, nfp, rho), ntor, tol, st, k).Ok?
    ensures var r := Run(RoundOf(num, ntor, nfft, nfp, rho), ntor, tol, st, k).value;
      && r.cn[0][0] == 0.0 && r.sn[0][0] == 0.0
      && exists s :: Shaped(s, ntor) && r.iota == Spectrum(num, ntor, nfft, rho, s).0[0][0]
           && SolvesModes(r, Spectrum(num, ntor, nfft, rho, s), ModeList(ntor, nfp), ntor)
  {
    var round := RoundOf(num, ntor, nfft, nfp, rho);
    var r := Run(round, ntor, tol, st, k);
    RunFromRound(round, ntor, tol, st, k);
    var s :| Shaped(s, ntor) && round(s) == r;
    assert Round(num, ntor, nfft, nfp, rho, s) == r;
  }

  /**
   * One pass of the loop body with `k >= 1` rounds left and `target` the
   * loop's result from here: `stop` when the round fails or meets the test
   * (`break`), with `r` the result; otherwise the loop goes on from the
   * iterate in `r`.
   */
  method Step(round: State --> Result<State>, ntor: nat, tol: real, st: State, k: nat, ghost target: Result<State>)
    returns (r: Result<State>, stop: bool)
    requires Rounds(round, ntor) && Shaped(st, ntor) && k >= 1
    requires target == Run(round, ntor, tol, st, k)
    ensures stop ==> r == target
    ensures !stop ==> r.Ok? && Shaped(r.value, ntor) && target == Run(round, ntor, tol, r.value, k - 1)
  {
    r := round(st);
    if r.Err? {
      return r, true;
    }
    stop := Change(st, r.value, ntor) < tol;
  }

  /** The loop of `straighten_boundary`: at most `niter` rounds from `st0`, leaving early as `Run` does. */
  method Iterate(round: State --> Result<State>, ntor: nat, tol: real, st0: State, niter: nat)
    returns (res: Result<State>)
    requires Rounds(round, ntor) && Shaped(st0, ntor)
    ensures res == Run(round, ntor, tol, st0, niter)
  {
    ghost var target := Run(round, ntor, tol, st0, niter);
    var st := st0;
    var k := niter;
    while k > 0
      invariant Shaped(st, ntor) && target == Run(round, ntor, tol, st, k)
    {
      var r, stop := Step(round, ntor, tol, st, k, target);
      if stop {
        return r;
      }
      st, k := r.value, k - 1;
    }
    return Ok(st);
  }

  /**
   * `straighten_boundary(rho, tol, niter)`: the loop from `iota = 0`,
   * `lambda = 0` on the grid of `MM pqNtor` points each way.
   */
  method StraightenBoundary(num: Numerics, p: Params, rho: real, tol: real, niter: nat) returns (res: Result<State>)
    requires Usable(p)
    ensures Fits(p.pqNtor, p.MM() * p.pqNtor)
    ensures res == Run(RoundOf(num, p.pqNtor, p.MM() * p.pqNtor, p.nfp, rho), p.pqNtor, tol, Initial(p.pqNtor), niter)
  {
    ParamsFit(p);
    res := Iterate(RoundOf(num, p.pqNtor, p.MM() * p.pqNtor, p.nfp, rho), p.pqNtor, tol, Initial(p.pqNtor), niter);
  }
}
