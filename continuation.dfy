/**
 * The continuation loop of `QFM.action`: the `fM` action curves are found
 * one after another, curve `j` targeting the area `a = j*dt`, each trial
 * started from the previous solution with its angular mean advanced by
 * `dt`, and the solved spectra stored row by row in five tables.
 */
module Continuation {
  import opened Common
  import opened Config
  import opened DofCodec
  import opened Residual
  import opened Winding

  /** What the root solver hands back: the final vector and whether it converged. */
  datatype Solution = Solution(x: seq<real>, success: bool)

  /** The solver keeps the length of the vector it is started from. */
  ghost predicate KeepsLength(solve: (seq<real>, real) -> Solution, n: nat)
  {
    forall x: seq<real>, a: real :: |x| == n ==> |solve(x, a).x| == n
  }

  /** The first trial curve: everything zero except the radial mean `rguess`. */
  function InitialGuess(qN: nat, rguess: real): (c: Curve)
    ensures ValidCurve(c, qN)
    ensures c.rcn[0] == rguess && c.nv == 0.0 && c.tcn[0] == 0.0
    ensures forall n :: 1 <= n <= qN ==> c.rcn[n] == 0.0 && c.tcn[n] == 0.0
    ensures forall n :: 0 <= n <= qN ==> c.tsn[n] == 0.0 && c.rsn[n] == 0.0
  {
    Curve(0.0, [rguess] + Zeros(qN), Zeros(qN + 1), Zeros(qN + 1), Zeros(qN + 1))
  }

  /**
   * The "fourier" residual samples the first trial on the circle
   * `r = rguess`, `theta = iota zeta`, with the multiplier `nv = 0`.
   */
  lemma {:induction false} InitialGuessOnCircle(num: Numerics, p: Params, qq: nat, rguess: real, iota: real)
    requires qq >= 1 && Usable(p) && num.cos(0.0) == 1.0 && num.sin(0.0) == 0.0
    ensures var zeta := FourierGrid(num, p, qq);
      var c := InitialGuess(Modes(p, qq), rguess);
      FourierRhs(num, p, c, iota, qq)
        == RhsSamples(num, 0.0, seq(|zeta|, k requires 0 <= k < |zeta| => rguess),
                      seq(|zeta|, k requires 0 <= k < |zeta| => 0.0 + iota * zeta[k]), zeta)
  {
    var c := InitialGuess(Modes(p, qq), rguess);
    FourierRhsOfMeans(num, p, c, iota, qq);
  }

  /** A later trial curve: the previous solution with its angular mean `tcn[0]` advanced by `dt`. */
  function NextGuess(c: Curve, dt: real): (g: Curve)
    requires |c.tcn| >= 1
    ensures g.nv == c.nv && g.rcn == c.rcn && g.tsn == c.tsn && g.rsn == c.rsn
    ensures |g.tcn| == |c.tcn| && g.tcn[0] == c.tcn[0] + dt
    ensures forall n :: 1 <= n < |c.tcn| ==> g.tcn[n] == c.tcn[n]
  {
    c.(tcn := c.tcn[0 := c.tcn[0] + dt])
  }

  /** Advancing a valid curve keeps it valid, and its packed vector changes only in the `tcn[0]` slot, by `dt`. */
  lemma {:induction false} NextGuessPacked(c: Curve, qN: nat, dt: real)
    requires qN >= 1 && ValidCurve(c, qN)
    ensures ValidCurve(NextGuess(c, dt), qN)
    ensures |Pack(NextGuess(c, dt))| == |Pack(c)| == 4 * qN + 1
    ensures Pack(NextGuess(c, dt))[3 * qN] == Pack(c)[3 * qN] + dt
    ensures forall k :: 0 <= k < 4 * qN + 1 && k != 3 * qN ==> Pack(NextGuess(c, dt))[k] == Pack(c)[k]
  {
    var g := NextGuess(c, dt);
    LayoutSegments(c, qN);
    LayoutSegments(g, qN);
    var s, s' := Layout(c), Layout(g);
    assert s[..3 * qN] == s'[..3 * qN] by {
      assert s[..3 * qN] == [c.nv] + c.rcn + Inner(c.tsn) + Inner(c.rsn);
      assert s'[..3 * qN] == [g.nv] + g.rcn + Inner(g.tsn) + Inner(g.rsn);
    }
    forall k | 0 <= k < 4 * qN + 1 && k != 3 * qN ensures s'[k] == s[k] {
      if k < 3 * qN {
        assert s[k] == s[..3 * qN][k] && s'[k] == s'[..3 * qN][k];
      } else {
        assert s[k] == c.tcn[k - 3 * qN] && s'[k] == g.tcn[k - 3 * qN];
      }
    }
    assert s'[3 * qN] == g.tcn[0];
  }

  /** `a = j * dt`: the area step `j` targets. */
  function Target(j: nat, dt: real): (a: real)
    ensures j == 0 ==> a == 0.0
    ensures j >= 1 ==> a == ((j - 1) as real) * dt + dt
    ensures dt > 0.0 ==> a >= 0.0
  {
    (j as real) * dt
  }

  /** The packed first trial vector. */
  function FirstTrial(qN: nat, rguess: real): (xx: seq<real>)
    requires qN >= 1
    ensures |xx| == 4 * qN + 1
  {
    UnpackPack(InitialGuess(qN, rguess), qN);
    Pack(InitialGuess(qN, rguess))
  }

  /**
   * The next trial in packed form: the solver's vector `prev` of the
   * previous step with its `tcn[0]` slot advanced by `dt`.
   */
  function NextTrial(qN: nat, dt: real, prev: seq<real>): (xx: seq<real>)
    requires |prev| == 4 * qN + 1
    ensures |xx| == 4 * qN + 1
  {
    prev[3 * qN := prev[3 * qN] + dt]
  }

  /** Unpacking, advancing by `dt` and packing again is `NextTrial`. */
  lemma {:induction false} NextTrialPacks(qN: nat, dt: real, prev: seq<real>)
    requires qN >= 1 && |prev| == 4 * qN + 1
    ensures Pack(NextGuess(Unpack(prev), dt)) == NextTrial(qN, dt, prev)
  {
    var c := Unpack(prev);
    assert ValidCurve(c, qN);
    PackUnpack(prev, qN);
    NextGuessPacked(c, qN, dt);
    var g, n := Pack(NextGuess(c, dt)), NextTrial(qN, dt, prev);
    forall k | 0 <= k < 4 * qN + 1 ensures g[k] == n[k] {
    }
  }

  /**
   * The solver's run of step `j` when every earlier step converged: started
   * from the first trial for `j == 0`, else from the next trial after the
   * solution of step `j - 1`, and targeting the area `j*dt`.
   */
  function Attempt(solve: (seq<real>, real) -> Solution, qN: nat, rguess: real, dt: real, j: nat): (sol: Solution)
    requires qN >= 1 && KeepsLength(solve, 4 * qN + 1)
    ensures |sol.x| == 4 * qN + 1
  {
    if j == 0 then solve(FirstTrial(qN, rguess), Target(j, dt))
    else solve(NextTrial(qN, dt, Attempt(solve, qN, rguess, dt, j - 1).x), Target(j, dt))
  }

  /** The curve step `j` stores: the solver's vector of step `j`, unpacked. */
  function Solved(solve: (seq<real>, real) -> Solution, qN: nat, rguess: real, dt: real, j: nat): (c: Curve)
    requires qN >= 1 && KeepsLength(solve, 4 * qN + 1)
    ensures ValidCurve(c, qN)
  {
    Unpack(Attempt(solve, qN, rguess, dt, j).x)
  }

  /** The five tables `nvarr`, `rcnarr`, `tsnarr`, `rsnarr`, `tcnarr`, one row per curve. */
  datatype Tables = Tables(nv: array<real>, rcn: array2<real>, tsn: array2<real>, rsn: array2<real>, tcn: array2<real>)

  /** `fM` rows of `qN + 1` harmonics each, in five distinct arrays. */
  predicate Shaped(t: Tables, fM: nat, qN: nat)
  {
    && t.nv.Length == fM
    && t.rcn.Length0 == fM && t.rcn.Length1 == qN + 1
    && t.tsn.Length0 == fM && t.tsn.Length1 == qN + 1
    && t.rsn.Length0 == fM && t.rsn.Length1 == qN + 1
    && t.tcn.Length0 == fM && t.tcn.Length1 == qN + 1
    && t.rcn != t.tsn && t.rcn != t.rsn && t.rcn != t.tcn
    && t.tsn != t.rsn && t.tsn != t.tcn && t.rsn != t.tcn
  }

  /** Row `j` of the tables, read back as a curve. */
  function RowCurve(t: Tables, fM: nat, qN: nat, j: nat): (c: Curve)
    reads t.nv, t.rcn, t.tsn, t.rsn, t.tcn
    requires Shaped(t, fM, qN) && j < fM
    ensures c.nv == t.nv[j] && |c.rcn| == qN + 1 && c.rcn == Row(t.rcn, j)
  {
    Curve(t.nv[j], Row(t.rcn, j), Row(t.tsn, j), Row(t.rsn, j), Row(t.tcn, j))
  }

  /** Every step before `n` converged. */
  predicate ConvergedUpTo(solve: (seq<real>, real) -> Solution, qN: nat, rguess: real, dt: real, n: nat)
    requires qN >= 1 && KeepsLength(solve, 4 * qN + 1)
  {
    n == 0 || (ConvergedUpTo(solve, qN, rguess, dt, n - 1) && Attempt(solve, qN, rguess, dt, n - 1).success)
  }

  /** The first step before `n` that did not converge, or `n` when all did. */
  function FirstFailure(solve: (seq<real>, real) -> Solution, qN: nat, rguess: real, dt: real, n: nat): (jf: nat)
    requires qN >= 1 && KeepsLength(solve, 4 * qN + 1)
    ensures jf <= n && ConvergedUpTo(solve, qN, rguess, dt, jf)
    ensures jf < n ==> !Attempt(solve, qN, rguess, dt, jf).success
  {
    if n == 0 then 0
    else
      var earlier := FirstFailure(solve, qN, rguess, dt, n - 1);
      if earlier < n - 1 || !Attempt(solve, qN, rguess, dt, n - 1).success then earlier
      else n
  }

  /** `dt = (2 pi / qq) / fM`: the area step between consecutive curves. */
  function AreaStep(num: Numerics, qq: nat, fM: nat): (dt: real)
    requires qq >= 1 && fM >= 1
    ensures dt * (fM as real) * (qq as real) == 2.0 * num.pi
    ensures num.pi > 0.0 ==> dt > 0.0
  {
    (num.pi * 2.0 / (qq as real)) / (fM as real)
  }

  /** `rcnarr[j, :] = rcn` and so on for the four spectra, then `nvarr[j] = nv`; other rows keep their values. */
  method StoreRow(t: Tables, fM: nat, qN: nat, j: nat, c: Curve)
    requires Shaped(t, fM, qN) && j < fM && ValidCurve(c, qN)
    modifies t.nv, t.rcn, t.tsn, t.rsn, t.tcn
    ensures RowCurve(t, fM, qN, j) == c
    ensures forall j' :: 0 <= j' < fM && j' != j ==> RowCurve(t, fM, qN, j') == old(RowCurve(t, fM, qN, j'))
  {
    WriteRow(t.rcn, j, c.rcn);
    WriteRow(t.tsn, j, c.tsn);
    WriteRow(t.tcn, j, c.tcn);
    WriteRow(t.rsn, j, c.rsn);
    t.nv[j] := c.nv;
  }

  /**
   * The continuation over the steps `j < fM` with area step `dt`: step `j`
   * starts from the first trial or from the curve step `j - 1` stored, and
   * targets `j*dt`; a step that does not converge ends the loop with the
   * `RuntimeError` naming its target area.
   */
  method SolveSteps(solve: (seq<real>, real) -> Solution, qN: nat, fM: nat, dt: real, pp: int, qq: nat, rguess: real)
    returns (res: Result<()>, t: Tables)
    requires qN >= 1 && KeepsLength(solve, 4 * qN + 1)
    ensures fresh(t.nv) && fresh(t.rcn) && fresh(t.tsn) && fresh(t.rsn) && fresh(t.tcn)
    ensures Shaped(t, fM, qN)
    ensures res.Ok? <==> FirstFailure(solve, qN, rguess, dt, fM) == fM
    ensures res.Ok? ==> forall j :: 0 <= j < fM ==> RowCurve(t, fM, qN, j) == Solved(solve, qN, rguess, dt, j)
    ensures res.Err? ==> res.error == OrbitNotFound(pp, qq, Target(FirstFailure(solve, qN, rguess, dt, fM), dt))
  {
    t := NewTables(fM, qN);
    for jpq := 0 to fM
      invariant FirstFailure(solve, qN, rguess, dt, jpq) == jpq
      invariant forall j :: 0 <= j < jpq ==> RowCurve(t, fM, qN, j) == Solved(solve, qN, rguess, dt, j)
    {
      var converged := SolveStep(solve, qN, fM, rguess, dt, t, jpq);
      if !converged {
        FirstFailureStops(solve, qN, rguess, dt, jpq, fM);
        res := Err(OrbitNotFound(pp, qq, Target(FirstFailure(solve, qN, rguess, dt, fM), dt)));
        return;
      }
    }
    res := Ok(());
  }

  /** `np.zeros` for the five tables of `fM` curves with `qN + 1` harmonics. */
  method NewTables(fM: nat, qN: nat) returns (t: Tables)
    ensures fresh(t.nv) && fresh(t.rcn) && fresh(t.tsn) && fresh(t.rsn) && fresh(t.tcn)
    ensures Shaped(t, fM, qN)
    ensures forall j :: 0 <= j < fM ==> RowCurve(t, fM, qN, j) == Curve(0.0, Zeros(qN + 1), Zeros(qN + 1), Zeros(qN + 1), Zeros(qN + 1))
  {
    var nvarr := new real[fM](_ => 0.0);
    var rcnarr := new real[fM, qN + 1]((_, _) => 0.0);
    var tcnarr := new real[fM, qN + 1]((_, _) => 0.0);
    var rsnarr := new real[fM, qN + 1]((_, _) => 0.0);
    var tsnarr := new real[fM, qN + 1]((_, _) => 0.0);
    t := Tables(nvarr, rcnarr, tsnarr, rsnarr, tcnarr);
    forall j | 0 <= j < fM
      ensures RowCurve(t, fM, qN, j) == Curve(0.0, Zeros(qN + 1), Zeros(qN + 1), Zeros(qN + 1), Zeros(qN + 1))
    {
      assert Row(t.rcn, j) == Zeros(qN + 1) && Row(t.tsn, j) == Zeros(qN + 1);
      assert Row(t.rsn, j) == Zeros(qN + 1) && Row(t.tcn, j) == Zeros(qN + 1);
    }
  }

  /**
   * Step `jpq` of the loop: runs the solver from the trial and, when it
   * converged, stores the unpacked solution in row `jpq`.
   */
  method SolveStep(solve: (seq<real>, real) -> Solution, qN: nat, fM: nat, rguess: real, dt: real, t: Tables, jpq: nat)
    returns (converged: bool)
    requires qN >= 1 && KeepsLength(solve, 4 * qN + 1)
    requires Shaped(t, fM, qN) && jpq < fM
    requires jpq > 0 ==> RowCurve(t, fM, qN, jpq - 1) == Solved(solve, qN, rguess, dt, jpq - 1)
    modifies t.nv, t.rcn, t.tsn, t.rsn, t.tcn
    ensures converged == Attempt(solve, qN, rguess, dt, jpq).success
    ensures converged ==> RowCurve(t, fM, qN, jpq) == Solved(solve, qN, rguess, dt, jpq)
    ensures forall j :: 0 <= j < fM && j != jpq ==> RowCurve(t, fM, qN, j) == old(RowCurve(t, fM, qN, j))
  {
    var sol;
    if jpq == 0 {
      sol := FirstStep(solve, qN, rguess, dt);
    } else {
      sol := NextStep(solve, qN, rguess, dt, jpq, RowCurve(t, fM, qN, jpq - 1));
    }
    converged := sol.success;
    if converged {
      StoreRow(t, fM, qN, jpq, Unpack(sol.x));
    }
  }

  /** Step 0: the solver runs from the initial guess towards the area 0. */
  method FirstStep(solve: (seq<real>, real) -> Solution, qN: nat, rguess: real, dt: real) returns (sol: Solution)
    requires qN >= 1 && KeepsLength(solve, 4 * qN + 1)
    ensures sol == Attempt(solve, qN, rguess, dt, 0)
  {
    var guess := InitialGuess(qN, rguess);
    assert Pack(guess) == FirstTrial(qN, rguess);
    sol := solve(Pack(guess), Target(0, dt));
  }

  /**
   * Step `j > 0`: the trial is the stored curve `prev` of step `j - 1`
   * with `tcn[0]` advanced by `dt`; the solver runs from its packed form
   * towards the area `j*dt`.
   */
  method NextStep(solve: (seq<real>, real) -> Solution, qN: nat, rguess: real, dt: real, j: nat, prev: Curve)
    returns (sol: Solution)
    requires qN >= 1 && KeepsLength(solve, 4 * qN + 1)
    requires j > 0 && prev == Solved(solve, qN, rguess, dt, j - 1)
    ensures sol == Attempt(solve, qN, rguess, dt, j)
  {
    NextTrialPacks(qN, dt, Attempt(solve, qN, rguess, dt, j - 1).x);
    var guess := NextGuess(prev, dt);
    sol := solve(Pack(guess), Target(j, dt));
  }

  /** Once step `jf` fails after `jf` converged steps, the first failure before any `n > jf` is `jf`. */
  lemma {:induction false} FirstFailureStops(solve: (seq<real>, real) -> Solution, qN: nat, rguess: real, dt: real, jf: nat, n: nat)
    requires qN >= 1 && KeepsLength(solve, 4 * qN + 1)
    requires jf < n && FirstFailure(solve, qN, rguess, dt, jf) == jf && !Attempt(solve, qN, rguess, dt, jf).success
    ensures FirstFailure(solve, qN, rguess, dt, n) == jf
    decreases n
  {
    if n > jf + 1 {
      FirstFailureStops(solve, qN, rguess, dt, jf, n - 1);
    }
  }

  /**
   * `fM = MM * pqNtor` action curves of the `(pp, qq)` orbit, with area
   * step `dt = (2 pi / qq) / fM`: the continuation of `SolveSteps`. The
   * first call of the solver evaluates the residual, so an unknown residual
   * mode raises its `ValueError` before any curve is solved.
   */
  method SolveCurves(num: Numerics, p: Params, solve: (seq<real>, real) -> Solution, pp: int, qq: nat, rguess: real)
    returns (res: Result<()>, t: Tables)
    requires qq >= 1 && Usable(p) && KeepsLength(solve, 4 * Modes(p, qq) + 1)
    ensures fresh(t.nv) && fresh(t.rcn) && fresh(t.tsn) && fresh(t.rsn) && fresh(t.tcn)
    ensures p.MM() * p.pqNtor >= 1 && ModesAndSamplesHold(p, qq)
    ensures Shaped(t, p.MM() * p.pqNtor, Modes(p, qq))
    ensures res == Err(InvalidMode) <==> !KnownMode(p)
    ensures KnownMode(p) ==> var qN, fM := Modes(p, qq), p.MM() * p.pqNtor;
      var dt := AreaStep(num, qq, fM);
      && (res.Ok? <==> FirstFailure(solve, qN, rguess, dt, fM) == fM)
      && (res.Ok? ==> forall j :: 0 <= j < fM ==> RowCurve(t, fM, qN, j) == Solved(solve, qN, rguess, dt, j))
      && (res.Err? ==> res.error == OrbitNotFound(pp, qq, Target(FirstFailure(solve, qN, rguess, dt, fM), dt)))
  {
    ModesAndSamples(p, qq);
    MulPositive(p.MM(), p.pqNtor);
    var qN, fM := Modes(p, qq), p.MM() * p.pqNtor;
    var dt := AreaStep(num, qq, fM);
    // `root` evaluates the residual at the first trial before anything else.
    var first := ActionGradient(num, p, FirstTrial(qN, rguess), pp, qq, Target(0, dt));
    if first.Err? {
      t := NewTables(fM, qN);
      return Err(first.error), t;
    }
    res, t := SolveSteps(solve, qN, fM, dt, pp, qq, rguess);
  }
}
