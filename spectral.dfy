/**
 * The spectral transform helpers of the QFM solver (`rfft1D`, `irfft1D`,
 * `rfft2D`, `irfft2D`). The numpy transforms themselves are oracles; what is
 * modelled exactly is their normalisation, the shapes they produce and the
 * `idxlist` gather/scatter that maps toroidal mode numbers `-ntor..ntor` to
 * FFT columns.
 */
module Spectral {
  import opened Common

  /** `idxlist = [0, -1, ..., -ntor, ntor, ..., 1]`. */
  function IdxList(ntor: nat): (idx: seq<int>)
    ensures |idx| == 2 * ntor + 1
    ensures forall j :: 0 <= j < |idx| ==> -(ntor as int) <= idx[j] <= ntor
  {
    [0] + seq(ntor, k => -(k + 1)) + seq(ntor, k => ntor - k)
  }

  /** The closed form of `IdxList`, entry by entry. */
  lemma IdxListAt(ntor: nat, j: nat)
    requires j <= 2 * ntor
    ensures IdxList(ntor)[j] == if j == 0 then 0 else if j <= ntor then -(j as int) else 2 * ntor + 1 - j as int
  {
  }

  /** Every toroidal mode number `-ntor..ntor` appears in `IdxList` exactly once. */
  lemma IdxListIsModeRange(ntor: nat, n: int)
    requires -(ntor as int) <= n <= ntor
    ensures exists j :: 0 <= j <= 2 * ntor && IdxList(ntor)[j] == n
    ensures forall j, j' :: 0 <= j <= 2 * ntor && 0 <= j' <= 2 * ntor && IdxList(ntor)[j] == n && IdxList(ntor)[j'] == n ==> j == j'
  {
    var j := if n == 0 then 0 else if n < 0 then -n else 2 * ntor + 1 - n;
    IdxListAt(ntor, j);
    forall j, j' | 0 <= j <= 2 * ntor && 0 <= j' <= 2 * ntor && IdxList(ntor)[j] == n && IdxList(ntor)[j'] == n
      ensures j == j'
    {
      IdxListAt(ntor, j);
      IdxListAt(ntor, j');
    }
  }

  /**
   * The toroidal mode numbers of `straighten_boundary`:
   * `[0, 1, ..., ntor, -ntor, ..., -1] * Nfp`, the negation of `IdxList` scaled by `Nfp`.
   */
  function ModeList(ntor: nat, nfp: int): (n: seq<int>)
    ensures |n| == 2 * ntor + 1
    ensures forall j :: 0 <= j < |n| ==> n[j] == -IdxList(ntor)[j] * nfp
  {
    var n := seq(ntor + 1, k => k) + seq(ntor, k => k - ntor);
    assert forall j :: 0 <= j < |n| ==> n[j] == -IdxList(ntor)[j] by {
      forall j | 0 <= j < |n| ensures n[j] == -IdxList(ntor)[j] {
        IdxListAt(ntor, j);
      }
    }
    seq(|n|, j requires 0 <= j < |n| => n[j] * nfp)
  }

  /** The FFT column numpy addresses with (possibly negative) index `i` in a row of `w` columns. */
  function Column(i: int, w: nat): (c: nat)
    requires w >= 1
    ensures c < w
  {
    i % w
  }

  /** numpy's wrap-around: a negative index in `[-w, 0)` counts from the end. */
  lemma ColumnInRange(i: int, w: nat)
    requires w >= 1 && -(w as int) <= i < w
    ensures Column(i, w) == if i < 0 then i + w else i
  {
    if i < 0 {
      assert i == -1 * w + (i + w);
    }
  }

  /** The column each entry of `idxlist` addresses among `w > ntor` columns. */
  lemma ColumnOfMode(ntor: nat, w: nat, j: nat)
    requires ntor < w && j <= 2 * ntor
    ensures Column(IdxList(ntor)[j], w) == if j == 0 then 0 else if j <= ntor then w - j else 2 * ntor + 1 - j
  {
    IdxListAt(ntor, j);
    ColumnInRange(IdxList(ntor)[j], w);
  }

  /** The `idxlist` columns are pairwise distinct modulo `w`. */
  predicate CollisionFree(ntor: nat, w: nat)
    requires w >= 1
  {
    forall j, j' :: 0 <= j < j' <= 2 * ntor ==> Column(IdxList(ntor)[j], w) != Column(IdxList(ntor)[j'], w)
  }

  /**
   * Scattering `idxlist` into `w` pad columns (as `irfft2D` does) is free of
   * collisions exactly when `w > 2*ntor`, i.e. `ntor < ntor_new` for
   * `w = 2*ntor_new`; numpy accepts the indices when `ntor < w`.
   */
  lemma CollisionFreeIff(ntor: nat, w: nat)
    requires ntor < w
    ensures CollisionFree(ntor, w) <==> 2 * ntor < w
  {
    if 2 * ntor < w {
      forall j, j' | 0 <= j < j' <= 2 * ntor
        ensures Column(IdxList(ntor)[j], w) != Column(IdxList(ntor)[j'], w)
      {
        ColumnOfMode(ntor, w, j);
        ColumnOfMode(ntor, w, j');
      }
    } else {
      // the mode +ntor and the mode ntor - w land in the same column
      var j, j' := w - ntor, ntor + 1;
      ColumnOfMode(ntor, w, j);
      ColumnOfMode(ntor, w, j');
      assert Column(IdxList(ntor)[j], w) == Column(IdxList(ntor)[j'], w);
    }
  }

  /** `rfft2D`'s gather `f[:, idxlist]` on one row: mode `j` read from column `idxlist[j] mod |row|`. */
  function GatherRow(row: seq<real>, ntor: nat): (r: seq<real>)
    requires |row| >= 1
    ensures |r| == 2 * ntor + 1
    ensures forall j :: 0 <= j <= 2 * ntor ==> r[j] == row[Column(IdxList(ntor)[j], |row|)]
  {
    seq(2 * ntor + 1, j requires 0 <= j <= 2 * ntor => row[Column(IdxList(ntor)[j], |row|)])
  }

  /** The first `n` assignments `pad[idxlist[j]] = row[j]` into a zero row of `w` columns. */
  function ScatterPrefix(row: seq<real>, ntor: nat, w: nat, n: nat): (pad: seq<real>)
    requires w >= 1 && n <= |row| == 2 * ntor + 1
    ensures |pad| == w
    ensures forall j :: 0 <= j < n && (forall j' :: j < j' < n ==> Column(IdxList(ntor)[j'], w) != Column(IdxList(ntor)[j], w)) ==>
      pad[Column(IdxList(ntor)[j], w)] == row[j]
    ensures forall c :: 0 <= c < w && (forall j :: 0 <= j < n ==> Column(IdxList(ntor)[j], w) != c) ==> pad[c] == 0.0
    decreases n
  {
    if n == 0 then Zeros(w)
    else ScatterPrefix(row, ntor, w, n - 1)[Column(IdxList(ntor)[n - 1], w) := row[n - 1]]
  }

  /**
   * `irfft2D`'s scatter `pad[idxlist] = row` on one row: a column holds the
   * last mode written to it, and a column no mode is written to stays zero.
   */
  function ScatterRow(row: seq<real>, ntor: nat, w: nat): (pad: seq<real>)
    requires w >= 1 && |row| == 2 * ntor + 1
    ensures |pad| == w
    ensures forall j :: 0 <= j <= 2 * ntor && (forall j' :: j < j' <= 2 * ntor ==> Column(IdxList(ntor)[j'], w) != Column(IdxList(ntor)[j], w)) ==>
      pad[Column(IdxList(ntor)[j], w)] == row[j]
  {
    ScatterPrefix(row, ntor, w, |row|)
  }

  /** Without collisions, after `n` assignments every assigned column holds its mode and the rest are zero. */
  lemma {:induction false} ScatterPrefixAt(row: seq<real>, ntor: nat, w: nat, n: nat, c: nat)
    requires w >= 1 && n <= |row| == 2 * ntor + 1 && c < w
    requires CollisionFree(ntor, w)
    ensures ScatterPrefix(row, ntor, w, n)[c] ==
      if exists j :: 0 <= j < n && Column(IdxList(ntor)[j], w) == c
      then row[var j :| 0 <= j < n && Column(IdxList(ntor)[j], w) == c; j]
      else 0.0
    decreases n
  {
    if n > 0 {
      ScatterPrefixAt(row, ntor, w, n - 1, c);
      var last := Column(IdxList(ntor)[n - 1], w);
      if last == c {
        assert forall j :: 0 <= j < n - 1 ==> Column(IdxList(ntor)[j], w) != last;
      } else {
        assert forall j :: 0 <= j < n && Column(IdxList(ntor)[j], w) == c ==> j < n - 1;
      }
    }
  }

  /** Without collisions the scatter puts mode `j` in column `idxlist[j] mod w`. */
  lemma ScatterRowAt(row: seq<real>, ntor: nat, w: nat, j: nat)
    requires w >= 1 && |row| == 2 * ntor + 1 && j <= 2 * ntor
    requires CollisionFree(ntor, w)
    ensures ScatterRow(row, ntor, w)[Column(IdxList(ntor)[j], w)] == row[j]
  {
    var c := Column(IdxList(ntor)[j], w);
    ScatterPrefixAt(row, ntor, w, |row|, c);
    assert forall j' :: 0 <= j' < j ==> Column(IdxList(ntor)[j'], w) != c;
    assert forall j' :: j < j' <= 2 * ntor ==> Column(IdxList(ntor)[j'], w) != c;
  }

  /** Without collisions a pad column that no mode is scattered to stays zero. */
  lemma ScatterRowUnused(row: seq<real>, ntor: nat, w: nat, c: nat)
    requires w >= 1 && |row| == 2 * ntor + 1 && c < w
    requires CollisionFree(ntor, w)
    requires forall j :: 0 <= j <= 2 * ntor ==> Column(IdxList(ntor)[j], w) != c
    ensures ScatterRow(row, ntor, w)[c] == 0.0
  {
    ScatterPrefixAt(row, ntor, w, |row|, c);
  }

  /** Gathering a collision-free scatter with the same `idxlist` gives the modes back. */
  lemma GatherScatter(row: seq<real>, ntor: nat, w: nat)
    requires |row| == 2 * ntor + 1 && 2 * ntor < w
    ensures GatherRow(ScatterRow(row, ntor, w), ntor) == row
  {
    CollisionFreeIff(ntor, w);
    forall j | 0 <= j <= 2 * ntor ensures GatherRow(ScatterRow(row, ntor, w), ntor)[j] == row[j] {
      ScatterRowAt(row, ntor, w, j);
    }
  }

  /**
   * `rfft1D(f)`: the one-sided cosine/sine spectrum of `f`, normalised by
   * `2/Nfft`, zero mode halved and its sine forced to zero.
   */
  function Rfft1D(num: Numerics, f: seq<real>): (spec: (seq<real>, seq<real>))
    requires |f| >= 1
    ensures |spec.0| == |f| / 2 + 1 && |spec.1| == |f| / 2 + 1
    ensures spec.1[0] == 0.0
    ensures spec.0[0] == num.rfftBin(f, 0).0 / (|f| as real)
  {
    var n := |f| as real;
    (seq(|f| / 2 + 1, k requires 0 <= k => if k == 0 then num.rfftBin(f, k).0 / n * 2.0 / 2.0 else num.rfftBin(f, k).0 / n * 2.0),
     seq(|f| / 2 + 1, k requires 0 <= k => if k == 0 then 0.0 else -num.rfftBin(f, k).1 / n * 2.0))
  }

  /**
   * `irfft1D(cos_in, sin_in, nfft_multiplier)`: builds the complex spectrum
   * `(cos_in - 1j*sin_in) * Nfft` with `Nfft = nfft_multiplier*(len - 1)`,
   * doubles its zero mode and takes `np.fft.irfft(_, 2*Nfft)`. The nulled
   * copy of `sin_in` the source prepares is never used, so the sine input
   * reaches the transform unchanged.
   */
  function Irfft1D(num: Numerics, cosIn: seq<real>, sinIn: seq<real>, mult: nat): (f: seq<real>)
    requires |cosIn| == |sinIn| >= 2 && mult >= 1
    ensures |f| == 2 * mult * (|cosIn| - 1)
  {
    var nfft := mult * (|cosIn| - 1);
    var scale := nfft as real;
    var re := seq(|cosIn|, k requires 0 <= k < |cosIn| => if k == 0 then cosIn[k] * scale * 2.0 else cosIn[k] * scale);
    var im := seq(|sinIn|, k requires 0 <= k < |sinIn| => if k == 0 then -sinIn[k] * scale * 2.0 else -sinIn[k] * scale);
    seq(2 * nfft, k requires 0 <= k => num.irfftSample(re, im, 2 * nfft, k))
  }

  /**
   * The normalised bins of `np.fft.rfft2(f, axes=[-1, -2])`: rows `m` are the
   * one-sided poloidal modes `0..n1/2`, columns the `n2` toroidal FFT
   * columns; the first and the last row are halved (one row halved twice).
   */
  function Rfft2Bins(num: Numerics, f: Matrix, n1: nat, n2: nat, imag: bool): (b: Matrix)
    requires n1 >= 1 && n2 >= 1
    ensures IsMatrix(b, n1 / 2 + 1, n2)
  {
    var rows := n1 / 2 + 1;
    seq(rows, m requires 0 <= m < rows =>
      seq(n2, n requires 0 <= n =>
        var v := if imag then -num.rfft2Bin(f, m, n).1 else num.rfft2Bin(f, m, n).0;
        var x := v / (n1 as real) / (n2 as real) * 2.0;
        var x' := if m == 0 then x / 2.0 else x;
        if m == rows - 1 then x' / 2.0 else x'))
  }

  /** `rfft2D(f, mpol, ntor)`: the normalised 2D bins, truncated to `m <= mpol` and gathered by `idxlist`. */
  function Rfft2D(num: Numerics, f: Matrix, mpol: nat, ntor: nat): (spec: (Matrix, Matrix))
    requires |f| >= 1 && IsMatrix(f, |f|, |f[0]|) && ntor < |f[0]|
    requires mpol <= |f| / 2
    ensures IsMatrix(spec.0, mpol + 1, 2 * ntor + 1) && IsMatrix(spec.1, mpol + 1, 2 * ntor + 1)
    ensures forall m, j :: 0 <= m <= mpol && 0 <= j <= 2 * ntor ==>
      spec.0[m][j] == Rfft2Bins(num, f, |f|, |f[0]|, false)[m][Column(IdxList(ntor)[j], |f[0]|)] &&
      spec.1[m][j] == Rfft2Bins(num, f, |f|, |f[0]|, true)[m][Column(IdxList(ntor)[j], |f[0]|)]
  {
    var c := Rfft2Bins(num, f, |f|, |f[0]|, false);
    var s := Rfft2Bins(num, f, |f|, |f[0]|, true);
    (seq(mpol + 1, m requires 0 <= m <= mpol => GatherRow(c[m], ntor)),
     seq(mpol + 1, m requires 0 <= m <= mpol => GatherRow(s[m], ntor)))
  }

  /**
   * `cn_pad`/`sn_pad` of `irfft2D`: the spectrum scattered by `idxlist` into
   * `rows` rows of `w` zero columns, then its first and last row doubled.
   */
  function Pad(a: Matrix, ntor: nat, rows: nat, w: nat): (pad: Matrix)
    requires w >= 1 && rows >= 1 && |a| <= rows && IsMatrix(a, |a|, 2 * ntor + 1)
    ensures IsMatrix(pad, rows, w)
  {
    seq(rows, m requires 0 <= m < rows =>
      var row := if m < |a| then ScatterRow(a[m], ntor, w) else Zeros(w);
      var f := (if m == 0 then 2.0 else 1.0) * (if m == rows - 1 then 2.0 else 1.0);
      seq(w, c requires 0 <= c < w => row[c] * f))
  }

  /**
   * `irfft2D(cn, sn, nfft_theta, nfft_zeta)`: pads the spectrum to
   * `(nfft_theta//2 + 1, 2*(nfft_zeta//2))` and transforms it back to a grid
   * of `2*(nfft_theta//2)` by `2*(nfft_zeta//2)` points, scaled by
   * `nfft_theta*nfft_zeta/2`.
   */
  function Irfft2D(num: Numerics, cn: Matrix, sn: Matrix, nTheta: nat, nZeta: nat): (f: Matrix)
    requires |cn| >= 1 && |cn[0]| % 2 == 1
    requires IsMatrix(cn, |cn|, |cn[0]|) && IsMatrix(sn, |cn|, |cn[0]|)
    requires |cn| - 1 <= nTheta / 2 && nTheta / 2 >= 1
    requires (|cn[0]| - 1) / 2 < 2 * (nZeta / 2)
    ensures IsMatrix(f, 2 * (nTheta / 2), 2 * (nZeta / 2))
  {
    var ntor := (|cn[0]| - 1) / 2;
    var rows, w := nTheta / 2 + 1, 2 * (nZeta / 2);
    var re := Pad(cn, ntor, rows, w);
    var snPad := Pad(sn, ntor, rows, w);
    var im := seq(rows, m requires 0 <= m < rows => seq(w, c requires 0 <= c < w => -snPad[m][c]));
    var scale := (nTheta * nZeta) as real / 2.0;
    seq(2 * (nTheta / 2), i requires 0 <= i => seq(w, j requires 0 <= j => num.irfft2Sample(re, im, i, j) * scale))
  }
}
