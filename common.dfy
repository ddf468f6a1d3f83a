/**
 * Shared vocabulary of the QFM model: the error conditions the solver
 * raises, a result type carrying them, and dense real matrices (the numpy
 * 2D arrays of the source, as row-major sequences of rows).
 */
module Common {

  /** The exceptional outcomes of the core. */
  datatype Error =
    /** `ValueError`: the residual mode is neither "real" nor "fourier". */
    | InvalidMode
    /** `RuntimeError`: the root solver did not converge for curve target `a`. */
    | OrbitNotFound(pp: int, qq: int, a: real)
    /** A lambda mode whose denominator `n - m*iota` is exactly zero. */
    | Resonance(m: nat, j: nat)

  datatype Result<+T> = Ok(value: T) | Err(error: Error)

  /**
   * The numerical collaborators of the core, each an opaque oracle: the
   * constant pi and the trigonometric functions of the floating-point
   * library, the numpy FFT routines (one bin or one sample of the transform
   * of a given input), the field model and the nonlinear root solver.
   */
  datatype Numerics = Numerics(
    pi: real,
    cos: real -> real,
    sin: real -> real,
    /** Bin `k` of `np.fft.rfft(f)`, as (real part, imaginary part). */
    rfftBin: (seq<real>, nat) -> (real, real),
    /** Sample `k` of `np.fft.irfft(re + 1j*im, n)`. */
    irfftSample: (seq<real>, seq<real>, nat, nat) -> real,
    /** Bin `(m, n)` of `np.fft.rfft2(f, axes=[-1, -2])`, as (real part, imaginary part). */
    rfft2Bin: (seq<seq<real>>, nat, nat) -> (real, real),
    /** Sample `(i, j)` of `np.fft.irfft2(re + 1j*im, axes=[-1, -2])`. */
    irfft2Sample: (seq<seq<real>>, seq<seq<real>>, nat, nat) -> real,
    /**
     * `B_many` at one point `(rho, theta, zeta)`, returned as the ratios the
     * core forms from it: `(B^rho/B^zeta, B^theta/B^zeta, 1/B^zeta)`.
     */
    field: (real, real, real) -> (real, real, real)
  )

  /** A dense matrix: a sequence of rows. */
  type Matrix = seq<seq<real>>

  /** `a` has `rows` rows of `cols` entries each. */
  predicate IsMatrix(a: Matrix, rows: nat, cols: nat)
  {
    |a| == rows && forall i :: 0 <= i < |a| ==> |a[i]| == cols
  }

  /** `np.zeros(n)`. */
  function Zeros(n: nat): (z: seq<real>)
    ensures |z| == n && forall k :: 0 <= k < n ==> z[k] == 0.0
  {
    seq(n, k => 0.0)
  }

  /** `np.zeros([rows, cols])`. */
  function ZeroMatrix(rows: nat, cols: nat): (z: Matrix)
    ensures IsMatrix(z, rows, cols)
    ensures forall i, j :: 0 <= i < rows && 0 <= j < cols ==> z[i][j] == 0.0
  {
    seq(rows, i => Zeros(cols))
  }

  function Abs(x: real): (r: real)
    ensures r >= 0.0 && (r == x || r == -x)
  {
    if x < 0.0 then -x else x
  }

  function Max(x: real, y: real): (r: real)
    ensures r >= x && r >= y && (r == x || r == y)
  {
    if x < y then y else x
  }
}
