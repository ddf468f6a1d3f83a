# QFM solver model

A Dafny model of `pyoculus/solvers/qfm.py`, the quadratic-flux-minimising
(QFM) surface solver of pyoculus. Three things are modelled:

- `action(pp, qq)`. It finds `MM * pqNtor` periodic action curves of
  increasing enclosed area by continuation. Each curve is one root of the
  action gradient. The curves are folded into a surface in `(alpha, zeta)`,
  resampled to `(vartheta, zeta)` and transformed to a 2D spectrum.
- `action_gradient(xx, pp, qq, a)`. It evaluates the equations of one trial
  curve, in real space or in Fourier space, on the curve's packed degrees of
  freedom.
- `straighten_boundary(rho, tol, niter)`. It finds the map `lambda` that
  makes field lines straight on the surface `rho`, by iterating a
  per-mode update until the change is below `tol`.

The modules follow this structure:

- `Common`: errors, results, the numeric oracles, matrices.
- `Config`: the solver parameters of `__init__`.
- `DofCodec`: `_pack_dof` / `_unpack_dof`.
- `Spectral`: `rfft1D`, `irfft1D`, `rfft2D`, `irfft2D` and their mode
  addressing.
- `Winding`: the fold of the curves into `(alpha, zeta)` and the shear to
  `(vartheta, zeta)`. These are in-place loops over `array2`.
- `Residual`: `action_gradient`.
- `Continuation`: the curve-by-curve root finding of `action`. It fills
  `array`/`array2` tables.
- `Action`: the whole of `action`.
- `Straighten`: `straighten_boundary`.

Things the model cannot compute are parameters: the discrete Fourier
bins, trigonometry, `pi`, the magnetic field and the root solver. They
appear as function-valued fields of `Common.Numerics`, or as a solver
function. The field oracle returns the ratios
`(B^rho/B^zeta, B^theta/B^zeta, 1/B^zeta)`. Every quantity the source
derives from the field is one of these ratios or a linear combination of
them.

## Model

| member | source | states |
|---|---|---|
| Config.OrDefault | pyoculus/solvers/qfm.py:33-46 | a parameter the caller gave wins; a missing one takes the default |
| Config.Init | pyoculus/solvers/qfm.py:33-51 | missing parameters default to ntheta 100, nfft_multiplier 2, pqNtor 4, pqMpol 8, mode "real"; `MM = 2 * nfft_multiplier` is even |
| DofCodec.Pack | pyoculus/solvers/qfm.py:365-375 | a valid curve with `qN` modes packs into `4 qN + 1` entries |
| DofCodec.Unpack | pyoculus/solvers/qfm.py:351-363 | `nv = xx[0] - 1`; both sine spectra carry their pinned zero ends; a vector of length `4 qN + 1` decodes to a valid curve of `qN` modes |
| DofCodec.UnpackOf | pyoculus/solvers/qfm.py:356-361 | at length `4 qN + 1` each spectrum is the offset-free slice at its place, unclamped |
| DofCodec.LayoutSegments | pyoculus/solvers/qfm.py:373 | where each spectrum of a valid curve sits in the packed layout |
| DofCodec.UnpackPieces | pyoculus/solvers/qfm.py:356-361 | each decoded piece is the matching offset-free slice |
| DofCodec.UnpackPack | pyoculus/solvers/qfm.py:351-375 | unpacking a packed valid curve gives the curve back |
| DofCodec.PackUnpack | pyoculus/solvers/qfm.py:351-375 | packing an unpacked vector of length `4 qN + 1`, `qN >= 1`, gives the vector back |
| DofCodec.PackUnpackNeedsAMode | pyoculus/solvers/qfm.py:356-373 | a one-entry vector does not survive the round trip |
| Spectral.IdxList | pyoculus/solvers/qfm.py:437 | `idxlist` has `2 ntor + 1` entries, each in `-ntor..ntor` |
| Spectral.IdxListAt | pyoculus/solvers/qfm.py:437 | the closed form of `idxlist` entry by entry |
| Spectral.IdxListIsModeRange | pyoculus/solvers/qfm.py:437 | every mode `-ntor..ntor` appears in `idxlist` exactly once |
| Spectral.ModeList | pyoculus/solvers/qfm.py:96-97 | `nlist[j] = -idxlist[j] * Nfp`: column `j` of the spectrum is toroidal mode `nlist[j]` |
| Spectral.Column | pyoculus/solvers/qfm.py:438 | numpy's negative column index lands inside the row |
| Spectral.ColumnOfMode | pyoculus/solvers/qfm.py:437-438 | the FFT column each mode is read from |
| Spectral.CollisionFreeIff | pyoculus/solvers/qfm.py:469-472 | the scatter writes distinct columns exactly when `2 ntor` is below the row width |
| Spectral.GatherRow | pyoculus/solvers/qfm.py:438-439 | gathered entry `j` is the row's column `idxlist[j]` |
| Spectral.ScatterPrefix | pyoculus/solvers/qfm.py:469-472 | after the first `n` assignments a column holds the last mode written to it; an unwritten column is 0 |
| Spectral.ScatterRow | pyoculus/solvers/qfm.py:469-472 | `pad[idxlist] = row`: a column holds the last mode written to it |
| Spectral.ScatterRowAt | pyoculus/solvers/qfm.py:469-472 | the padded row holds mode `j` at column `idxlist[j]` |
| Spectral.ScatterRowUnused | pyoculus/solvers/qfm.py:466-472 | columns no mode maps to stay zero |
| Spectral.GatherScatter | pyoculus/solvers/qfm.py:437-472 | truncating as `rfft2D` does undoes the padding of `irfft2D` |
| Spectral.Rfft1D | pyoculus/solvers/qfm.py:378-391 | `n/2 + 1` cosine and sine modes; the zero sine mode is 0; the zero cosine mode is bin 0 over `n` |
| Spectral.Irfft1D | pyoculus/solvers/qfm.py:394-408 | the output has `2 * mult * (len - 1)` points |
| Spectral.Rfft2Bins | pyoculus/solvers/qfm.py:416-425 | the normalised bins have `n1/2 + 1` rows of `n2` columns |
| Spectral.Rfft2D | pyoculus/solvers/qfm.py:411-443 | `(mpol+1) x (2 ntor+1)` spectra; entry `[m][j]` is the normalised bin of row `m`, column `idxlist[j]` |
| Spectral.Pad | pyoculus/solvers/qfm.py:466-477 | the padded spectrum has `nfft_theta/2 + 1` rows of `2 (nfft_zeta/2)` columns |
| Spectral.Irfft2D | pyoculus/solvers/qfm.py:446-486 | the output grid is `2 (nfft_theta/2) x 2 (nfft_zeta/2)` |
| Winding.LastHit | pyoculus/solvers/qfm.py:234-247 | the last period `i` whose block `pp i mod qq` is `b`, that is the write that survives |
| Winding.CoprimeFoldWritesEachBlockOnce | pyoculus/solvers/qfm.py:234-247 | for coprime `pp, qq` every block of the folded surface is written by exactly one period |
| Winding.NonCoprimeFoldMissesBlockOne | pyoculus/solvers/qfm.py:234-247 | when `pp` and `qq` share a factor, block 1 is never written |
| Winding.Rotate | pyoculus/solvers/qfm.py:236-247 | a rotated row keeps its length |
| Winding.RotateAt | pyoculus/solvers/qfm.py:236-247 | the two slice writes of one period rotate a row left by `i L` |
| Winding.RotatePermutes | pyoculus/solvers/qfm.py:236-247 | a rotation is a permutation of the row |
| Winding.ShiftIsRotation | pyoculus/solvers/qfm.py:257-259 | reading at `(k - c) mod n` is a rotation and a permutation |
| Winding.WriteRow | pyoculus/solvers/qfm.py:218-222 | writes row `i` and no other row |
| Winding.FoldedRow | pyoculus/solvers/qfm.py:234-247 | the row the fold leaves after `n` periods; a row some period wrote is a permutation of its curve |
| Winding.FoldedRowStep | pyoculus/solvers/qfm.py:234-247 | one period overwrites exactly the rows of block `pp i mod qq` |
| Winding.CopyBlock | pyoculus/solvers/qfm.py:236-247 | the block's rows become the rotated curves; other rows are unchanged |
| Winding.FoldPeriod | pyoculus/solvers/qfm.py:234-247 | after period `i` every row is the fold of the first `i + 1` periods |
| Winding.Fold | pyoculus/solvers/qfm.py:231-247 | a fresh `qq fM x qq L` table whose rows are the fold of all `qq` periods |
| Winding.ShearColumn | pyoculus/solvers/qfm.py:257-259 | column `i` becomes the input column read at `(k - i pp) mod rows`; other columns are unchanged |
| Winding.Resample | pyoculus/solvers/qfm.py:249-259 | `out[k, i] = alpha[(k - i pp) mod rows, i]`; every column is a rotation of the input column |
| Residual.ModesAndSamples | pyoculus/solvers/qfm.py:151-157 | at least one mode; half the sample count is `nfft_multiplier` times the mode count |
| Residual.Iota | pyoculus/solvers/qfm.py:290 | `iota * qq = pp` |
| Residual.Harmonics | pyoculus/solvers/qfm.py:309-310 | the `n/q` scaling keeps the length and zeroes the mean |
| Residual.Negate | pyoculus/solvers/qfm.py:309-310 | a negated spectrum cancels the original |
| Residual.Series | pyoculus/solvers/qfm.py:297-302 | the partial sum of `cn cos + sn sin` over the first `n` harmonics; zero coefficients sum to 0 |
| Residual.FieldRhs | pyoculus/solvers/qfm.py:319-324 | `rhs_rdot = B^rho/B^zeta - nv/B^zeta` and `rhs_tdot = B^theta/B^zeta` at one point |
| Residual.SeriesOfMean | pyoculus/solvers/qfm.py:297-302 | with every harmonic zero, the synthesised series is the mean |
| Residual.CurveOfMeans | pyoculus/solvers/qfm.py:297-303 | a curve holding only its means is sampled on the line `r = rcn[0]`, `theta = tcn[0] + iota zeta` |
| Residual.FourierRhsOfMeans | pyoculus/solvers/qfm.py:297-304 | for such a curve the "fourier" right-hand sides are the field ratios along that line |
| Residual.FourierGrid | pyoculus/solvers/qfm.py:159-165 | `Nfft` toroidal points starting at 0 |
| Residual.RealGrid | pyoculus/solvers/qfm.py:307 | `n` points, point `k` at `k * 2 qq pi / n`, so the first is 0 |
| Residual.RhsSamples | pyoculus/solvers/qfm.py:317-324 | one right-hand side pair per sample point |
| Residual.FourierEquations | pyoculus/solvers/qfm.py:327-344 | `4 qN + 1` equations; the first is `tcn[0] - a` |
| Residual.FourierEquationsBlocks | pyoculus/solvers/qfm.py:334-344 | each block of equations is the harmonic balance of its spectrum, with `+iota` on the mean poloidal one |
| Residual.FourierEquationsVanish | pyoculus/solvers/qfm.py:327-344 | the Fourier residual is zero exactly when the curve balances the field harmonics mode by mode |
| Residual.FourierRhs | pyoculus/solvers/qfm.py:297-324 | one pair per grid point; at point `k` it is `FieldRhs` at the curve's Fourier-series radius and angle (plus `iota zeta`) at `zeta[k]` |
| Residual.FourierResidual | pyoculus/solvers/qfm.py:296-344 | `4 qN + 1` equations; the first is the area equation |
| Residual.RealEquations | pyoculus/solvers/qfm.py:345-347 | `2 n + 1` equations; the first is `area - a` |
| Residual.RealEquationsVanish | pyoculus/solvers/qfm.py:345-347 | the real residual is zero exactly when the area is `a` and both velocities equal the field ratios |
| Residual.Shifted | pyoculus/solvers/qfm.py:308-310 | a shifted sample vector keeps its length |
| Residual.RealVelocities | pyoculus/solvers/qfm.py:309-310 | `rdot` and `tdot` have `2 qN` samples |
| Residual.RealResidual | pyoculus/solvers/qfm.py:305-347 | `4 qN + 1` equations; the first is `tcn[0] - a` |
| Residual.ActionGradient | pyoculus/solvers/qfm.py:266-349 | fails with the mode error exactly for a mode other than "real" and "fourier"; otherwise one equation per degree of freedom, the first being `xx[3 qN] - 1 - a` |
| Residual.FourierRoot | pyoculus/solvers/qfm.py:296-344 | a Fourier-mode root is exactly a balanced curve; at a root the area is `a`, the mean of `B^theta/B^zeta` is `iota` and the mean radial right-hand side is 0 |
| Residual.RealRoot | pyoculus/solvers/qfm.py:305-347 | a real-mode root is exactly a curve of area `a` whose sampled velocities equal the field ratios |
| Continuation.InitialGuess | pyoculus/solvers/qfm.py:180-187 | the first guess is all zero but `rcn[0] = rguess`, and it is a valid curve |
| Continuation.InitialGuessOnCircle | pyoculus/solvers/qfm.py:297-304 | the "fourier" residual samples the first guess on the circle `r = rguess`, `theta = iota zeta`, with `nv = 0` |
| Continuation.NextGuess | pyoculus/solvers/qfm.py:188-194 | the next guess is the previous curve with `tcn[0]` advanced by `dt` |
| Continuation.NextGuessPacked | pyoculus/solvers/qfm.py:188-196 | packed, the next guess differs from the previous one only at entry `3 qN`, by `dt` |
| Continuation.AreaStep | pyoculus/solvers/qfm.py:162 | `dt = (2 pi / qq) / fM`: `fM qq` steps make `2 pi`; positive when `pi` is |
| Continuation.Target | pyoculus/solvers/qfm.py:178 | `a = jpq dt`: 0 for the first curve, then `dt` more for each next curve |
| Continuation.FirstTrial | pyoculus/solvers/qfm.py:180-196 | the first packed guess has `4 qN + 1` entries |
| Continuation.NextTrial | pyoculus/solvers/qfm.py:188-196 | a later packed guess has `4 qN + 1` entries |
| Continuation.NextTrialPacks | pyoculus/solvers/qfm.py:188-196 | advancing the packed solution equals packing the advanced unpacked curve |
| Continuation.Attempt | pyoculus/solvers/qfm.py:197-204 | the solver's answer for curve `j` has `4 qN + 1` entries |
| Continuation.Solved | pyoculus/solvers/qfm.py:205-206 | a converged answer unpacks to a valid curve |
| Continuation.RowCurve | pyoculus/solvers/qfm.py:218-222 | the curve stored in row `j` of the tables |
| Continuation.FirstFailure | pyoculus/solvers/qfm.py:176-216 | the first curve whose solve fails; every earlier solve converged |
| Continuation.FirstFailureStops | pyoculus/solvers/qfm.py:176-216 | once all earlier solves converged and curve `jf` fails, `jf` is the first failure |
| Continuation.StoreRow | pyoculus/solvers/qfm.py:218-222 | writes curve `c` into row `j`; every other row is unchanged |
| Continuation.NewTables | pyoculus/solvers/qfm.py:170-174 | fresh zero tables of `fM` rows |
| Continuation.FirstStep | pyoculus/solvers/qfm.py:180-203 | the first solve is the solver on the first guess |
| Continuation.NextStep | pyoculus/solvers/qfm.py:188-203 | a later solve is the solver on the advanced previous curve |
| Continuation.SolveStep | pyoculus/solvers/qfm.py:176-222 | one pass of the loop: converged as the solver says; on success row `jpq` holds the solved curve; other rows are unchanged |
| Continuation.SolveSteps | pyoculus/solvers/qfm.py:170-222 | succeeds exactly when every solve converges, with row `j` the solved curve `j`; otherwise fails with `(pp, qq, a)` of the first failure |
| Continuation.SolveCurves | pyoculus/solvers/qfm.py:145-222 | fails with the mode error exactly when the residual mode is neither "real" nor "fourier", because the solver evaluates the residual first; otherwise as `SolveSteps` with the `qN`, `fM` and `dt` of `action` |
| Action.ActionShapes | pyoculus/solvers/qfm.py:151-157 | `qN >= 1`, `fM >= 1`, the sample count of a curve is `qq fM` |
| Action.Curves | pyoculus/solvers/qfm.py:218-222 | the tables as a sequence: curve `j` is the solved curve `j` |
| Action.CurveSamples | pyoculus/solvers/qfm.py:225-229 | each curve gives `2 mult qN` radial and angular samples |
| Action.MeanFree | pyoculus/solvers/qfm.py:228 | `tcn` with its mean replaced by 0, the rest unchanged |
| Action.AngleSamplesIgnoreMean | pyoculus/solvers/qfm.py:227-229 | the samples do not depend on a curve's `tcn[0]` |
| Action.RadialRows | pyoculus/solvers/qfm.py:225 | one row of `2 mult qN` radial samples per curve |
| Action.AngleRows | pyoculus/solvers/qfm.py:229 | one row of `2 mult qN` angle samples per curve |
| Action.Folded | pyoculus/solvers/qfm.py:231-247 | the folded surface is `qq fM x qq fM` |
| Action.FoldedCoprime | pyoculus/solvers/qfm.py:234-247 | for coprime `pp, qq` each folded row is its curve rotated by the one period that writes its block |
| Action.FoldedGap | pyoculus/solvers/qfm.py:234-247 | when `pp` and `qq` share a factor, the rows of block 1 stay zero |
| Action.Col | pyoculus/solvers/qfm.py:258-259 | a column has one entry per row |
| Action.Sheared | pyoculus/solvers/qfm.py:249-259 | the resampled surface keeps the rows and has `MM pqNtor` columns |
| Action.ShearedColumns | pyoculus/solvers/qfm.py:256-259 | each resampled column is a rotation, and a permutation, of the folded column |
| Action.SurfaceOf | pyoculus/solvers/qfm.py:224-264 | the four spectra of the surface are `(pqMpol+1) x (2 pqNtor+1)` |
| Action.Entries | pyoculus/solvers/qfm.py:218-222 | the rows of a table as a matrix |
| Action.Irfft1DRows | pyoculus/solvers/qfm.py:225-229 | one output row per input row |
| Action.RadialTables | pyoculus/solvers/qfm.py:225 | `irfft1D` of the stored radial tables is the radial samples of the curves |
| Action.AngleTables | pyoculus/solvers/qfm.py:228-229 | `irfft1D` of the mean-free angle tables is the angle samples of the curves |
| Action.ZeroColumn | pyoculus/solvers/qfm.py:228 | every row has entry `c` set to 0 and nothing else changed |
| Action.FoldAndShear | pyoculus/solvers/qfm.py:231-259 | the two loops give the sheared fold |
| Action.SampleTables | pyoculus/solvers/qfm.py:224-229 | the angle table becomes mean-free; the samples are those of the curves |
| Action.SurfaceFromSamples | pyoculus/solvers/qfm.py:231-264 | fold, shear and `rfft2D` give the surface of the curves |
| Action.Action | pyoculus/solvers/qfm.py:141-264 | fails with the mode error exactly for an unknown residual mode; otherwise succeeds exactly when every curve converges, with the surface of the solved curves, and else fails with `(pp, qq, a)` of the first failure |
| Straighten.Initial | pyoculus/solvers/qfm.py:92-94 | `iota = 0`; both spectra are `(ntor+1) x (2 ntor+1)` and every coefficient is 0 |
| Straighten.GridShapes | pyoculus/solvers/qfm.py:80-84 | the grid has an even number `MM ntor` of points, with room for `ntor` modes |
| Straighten.ParamsFit | pyoculus/solvers/qfm.py:80-84 | the grid fits the modes |
| Straighten.MaxDiff | pyoculus/solvers/qfm.py:132-133 | bounds every entry change of a vector |
| Straighten.MaxDiffBelow | pyoculus/solvers/qfm.py:132-135 | the largest change is below `tol` exactly when every change is |
| Straighten.MaxDiff2 | pyoculus/solvers/qfm.py:132-133 | bounds every entry change of a matrix |
| Straighten.MaxDiff2Below | pyoculus/solvers/qfm.py:132-135 | the largest matrix change is below `tol` exactly when every entry change is |
| Straighten.Change | pyoculus/solvers/qfm.py:131-133 | `np.max([erriota, errcn, errsn])`: bounds the change of `iota` and of every coefficient |
| Straighten.ChangeBelow | pyoculus/solvers/qfm.py:131-135 | a round passes the test exactly when `iota` and every coefficient moved by less than `tol` |
| Straighten.ResonantColumn | pyoculus/solvers/qfm.py:124-127 | the first resonant column of a row; none before it |
| Straighten.ResonantRow | pyoculus/solvers/qfm.py:124-127 | the first row holding a resonant mode; none before it |
| Straighten.Quotient | pyoculus/solvers/qfm.py:124-127 | the quotient solves `q d = x` for a non-resonant mode |
| Straighten.Quotients | pyoculus/solvers/qfm.py:124-129 | one row of the update: mode `(0, 0)` is 0 and every other mode solves its equation |
| Straighten.QuotientRows | pyoculus/solvers/qfm.py:124-129 | the whole update of one spectrum, mode by mode |
| Straighten.ModeUpdate | pyoculus/solvers/qfm.py:122-129 | succeeds exactly when no mode is resonant, else names a resonant mode; mode `(0, 0)` is 0; every other mode solves `lambda_cn (n - m iota) = sn` and `lambda_sn (m iota - n) = cn` |
| Straighten.Lambda | pyoculus/solvers/qfm.py:104 | `lambda` synthesised on the `nfft x nfft` grid |
| Straighten.FieldSamples | pyoculus/solvers/qfm.py:104-118 | an `nfft x nfft` matrix whose entry `[i][j]` is `B^theta/B^zeta` at `(rho, grid[i] + lambda[i][j], grid[j])` |
| Straighten.Spectrum | pyoculus/solvers/qfm.py:120 | the spectrum of the samples is `(ntor+1) x (2 ntor+1)` |
| Straighten.Update | pyoculus/solvers/qfm.py:120-129 | `iota` is the mean mode of the spectrum; the new `lambda` solves every other mode; fails exactly at a resonance |
| Straighten.Round | pyoculus/solvers/qfm.py:104-129 | one pass keeps the shape and zeroes mode `(0, 0)`; it fails only at a resonance |
| Straighten.RoundOf | pyoculus/solvers/qfm.py:99-129 | the round is defined on every shaped iterate and keeps the shape |
| Straighten.Run | pyoculus/solvers/qfm.py:99-136 | the loop keeps the shape of the iterate, and it fails only after a round has run |
| Straighten.RunFromRound | pyoculus/solvers/qfm.py:99-136 | after one round or more, the loop's result is what some round returned |
| Straighten.RunFixedPoint | pyoculus/solvers/qfm.py:131-136 | a round that leaves the iterate unchanged ends the loop at once |
| Straighten.Straightened | pyoculus/solvers/qfm.py:99-138 | the answer has no `(0, 0)` mode, and solves the mode equations of `B^theta/B^zeta` sampled at some iterate, with `iota` its mean |
| Straighten.Step | pyoculus/solvers/qfm.py:99-136 | one pass: the loop stops with the round's result, or goes on from its iterate |
| Straighten.Iterate | pyoculus/solvers/qfm.py:99-136 | the loop computes `Run` |
| Straighten.StraightenBoundary | pyoculus/solvers/qfm.py:58-138 | the loop from `iota = 0`, `lambda = 0` on the `MM pqNtor` grid |

## Left out

- Floating point. All arithmetic is on Dafny's exact `real`. Rounding, `inf` and `nan` are not modelled.
- The FFTs. `np.fft.rfft`, `irfft`, `rfft2` and `irfft2` are oracles: `Numerics.rfftBin`, `irfftSample`, `rfft2Bin` and `irfft2Sample`. The normalisation, halving, doubling, padding and index gathering around them are modelled.
- Trigonometry and `pi`. They are the `Numerics` fields `cos`, `sin` and `pi`.
- The field. `problem.B_many` is the oracle `Numerics.field`. It returns the ratios the source forms from its three components.
- The root solver. `scipy.optimize.root` is a solver function from the trial vector and the target area to a solution. It is assumed to return vectors of the trial's length (`Continuation.KeepsLength`), and nothing else is assumed.
- The solver function is not given `action_gradient`. So the model does not promise that a converged answer is a root of the residual; `Residual.FourierRoot` and `Residual.RealRoot` say what a root is. The one residual error, the `ValueError` for an unknown mode, is modelled: `Continuation.SolveCurves` evaluates the residual at the first trial, as the solver's first call does, and fails with `InvalidMode` there. The method name `method` and the tolerance `1e-8` only choose the solver, so they are not modelled.
- Default arguments. `action` defaults `rguess` to 0.5 and `method` to "hybr" (line 141). `straighten_boundary` defaults `rho` to 1, `tol` to 1e-9 and `niter` to 10 (line 58). Dafny methods have no default arguments, so `Action.Action` and `Straighten.StraightenBoundary` take every value from the caller.
- The resonant divisions of `straighten_boundary`. In numpy a zero denominator gives `inf`/`nan` coefficients. The model fails with `Resonance(m, j)` at the first zero denominator in row-major order instead.
- Straighten.ModeUpdate: numpy would go on dividing after a resonance. The model stops there and does not describe that numpy output.
- The unchecked shapes of the source become preconditions. These are `Config.Usable` (`nfft_multiplier >= 1`, `pqNtor >= 1`), `qq >= 1`, `pqMpol <= qq MM pqNtor / 2` for the surface transform, and a non-empty `xx`.
- Spectral.ScatterRow: when `2 ntor` reaches the row width, two modes share a pad column. This is possible in `straighten_boundary` with `nfft_multiplier = 1`, where modes `-pqNtor` and `+pqNtor` both go to column `pqNtor`. numpy does not document which repeated index of an advanced assignment wins. The model fixes last-write-wins, which is what numpy does in practice.
- Coprimality. `action` does not check that `pp` and `qq` are coprime. The model does not require it. `Winding.NonCoprimeFoldMissesBlockOne` and `Action.FoldedGap` state what happens otherwise.
- Unused values. `z` in `action` (line 226) is never used, and neither is `Bs` in `straighten_boundary`. The `ntheta` parameter is stored but unused. The nulled copy `sin_in_new` in `irfft1D` is never used, so the model passes `sin_in` unchanged.
- Docstrings that disagree with the code; the model follows the code:
  - the `__init__` docstring gives an `nfft_multiplier` default of 4, where the code sets 2;
  - the `irfft1D` docstring says `nfft_multiplier * (len - 1)` output points, where the code returns twice that;
  - the `straighten_boundary` docstring names two results, where the code returns `iota, lambda_sn, lambda_cn`.
- `straighten_boundary` sets `mpol` from `pqNtor` (line 81), so the model uses `ntor` both ways.
- Straighten.Iterate: it counts the rounds that are left down to 0, while the source counts `i` up to `niter`. The rounds and the exits are the same.
- The `self._nlist`, `_zeta`, `_cnzq` and `_snzq` caches that `action` leaves for `action_gradient` are recomputed from the parameters where they are used.
- Exceptions. `ValueError` and `RuntimeError` become `Err` values of `Common.Error`.
