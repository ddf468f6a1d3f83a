/**
 * The orbit degrees-of-freedom codec of the QFM solver: the flat vector
 * handed to the root solver holds the Lagrange multiplier `nv` and the four
 * Fourier spectra of one trial curve, each entry offset by +1.
 */
module DofCodec {

  /** One trial curve: multiplier and radial/angular cosine/sine spectra. */
  datatype Curve = Curve(nv: real, rcn: seq<real>, tsn: seq<real>, rsn: seq<real>, tcn: seq<real>)

  /** A curve with `qN` toroidal modes whose sine spectra have the pinned zero ends. */
  predicate ValidCurve(c: Curve, qN: nat)
  {
    && |c.rcn| == qN + 1 && |c.tsn| == qN + 1 && |c.rsn| == qN + 1 && |c.tcn| == qN + 1
    && c.tsn[0] == 0.0 && c.tsn[qN] == 0.0
    && c.rsn[0] == 0.0 && c.rsn[qN] == 0.0
  }

  /** Every entry of `s` plus `d` (numpy's `s + d` on a vector). */
  function Offset(s: seq<real>, d: real): (r: seq<real>)
    ensures |r| == |s| && forall k :: 0 <= k < |s| ==> r[k] == s[k] + d
  {
    seq(|s|, k requires 0 <= k < |s| => s[k] + d)
  }

  /** Python's `s[i:j]` for non-negative bounds: out-of-range bounds are clamped. */
  function Slice(s: seq<real>, i: nat, j: nat): (r: seq<real>)
  {
    if j <= i || |s| <= i then [] else s[i..if j < |s| then j else |s|]
  }

  /** Python's `s[1:-1]`: `s` without its first and last entries. */
  function Inner(s: seq<real>): (r: seq<real>)
  {
    if |s| <= 2 then [] else s[1..|s| - 1]
  }

  /** The flat, offset-free layout `_pack_dof` concatenates. */
  function Layout(c: Curve): seq<real>
  {
    [c.nv] + c.rcn + Inner(c.tsn) + Inner(c.rsn) + c.tcn
  }

  /** `_pack_dof`: `[nv] ++ rcn ++ tsn[1:-1] ++ rsn[1:-1] ++ tcn`, plus one. */
  function Pack(c: Curve): (xx: seq<real>)
    ensures |c.rcn| >= 2 && ValidCurve(c, |c.rcn| - 1) ==> |xx| == 4 * (|c.rcn| - 1) + 1
  {
    Offset(Layout(c), 1.0)
  }

  /** The number of toroidal modes a vector of this length stands for: `(xx.size - 1) // 4`. */
  function ModeCount(n: nat): nat
    requires n >= 1
  {
    (n - 1) / 4
  }

  /**
   * `_unpack_dof`: slices the vector apart, removes the offset and re-inserts
   * the pinned zero ends of `tsn` and `rsn`. Only `xx[0]` needs the vector to
   * be non-empty; every other slice is clamped as Python clamps it.
   */
  function Unpack(xx: seq<real>): (c: Curve)
    requires |xx| >= 1
    ensures |c.tsn| >= 2 && c.tsn[0] == 0.0 && c.tsn[|c.tsn| - 1] == 0.0
    ensures |c.rsn| >= 2 && c.rsn[0] == 0.0 && c.rsn[|c.rsn| - 1] == 0.0
    ensures forall qN: nat :: qN >= 1 && |xx| == 4 * qN + 1 ==> ValidCurve(c, qN)
    ensures c.nv == xx[0] - 1.0
  {
    var qN, y := ModeCount(|xx|), Offset(xx, -1.0);
    Curve(y[0],
          Slice(y, 1, qN + 2),
          [0.0] + Slice(y, qN + 2, 2 * qN + 1) + [0.0],
          [0.0] + Slice(y, 2 * qN + 1, 3 * qN) + [0.0],
          Slice(y, 3 * qN, |y|))
  }

  /** A sine spectrum with pinned zero ends is its inner part between two zeros. */
  lemma PinnedEnds(s: seq<real>)
    requires |s| >= 2 && s[0] == 0.0 && s[|s| - 1] == 0.0
    ensures [0.0] + Inner(s) + [0.0] == s
  {
  }

  /** The four pieces of a concatenation `[n] + a + b + d + e`, cut where they were joined. */
  lemma ConcatPieces(n: real, a: seq<real>, b: seq<real>, d: seq<real>, e: seq<real>)
    ensures var s, i := [n] + a + b + d + e, 1 + |a|;
      && |s| == i + |b| + |d| + |e|
      && s[1..i] == a && s[i..i + |b|] == b && s[i + |b|..i + |b| + |d|] == d && s[i + |b| + |d|..] == e
  {
    var s1 := [n] + a;
    var s2 := s1 + b;
    var s3 := s2 + d;
    assert s3[..|s2|] == s2 && s2[..|s1|] == s1;
  }

  /** Where each spectrum of a valid curve sits in its layout. */
  lemma LayoutSegments(c: Curve, qN: nat)
    requires qN >= 1 && ValidCurve(c, qN)
    ensures |Layout(c)| == 4 * qN + 1
    ensures Layout(c)[1..qN + 2] == c.rcn
    ensures [0.0] + Layout(c)[qN + 2..2 * qN + 1] + [0.0] == c.tsn
    ensures [0.0] + Layout(c)[2 * qN + 1..3 * qN] + [0.0] == c.rsn
    ensures Layout(c)[3 * qN..] == c.tcn
  {
    ConcatPieces(c.nv, c.rcn, Inner(c.tsn), Inner(c.rsn), c.tcn);
    PinnedEnds(c.tsn);
    PinnedEnds(c.rsn);
  }

  /** `_unpack_dof` of a vector of length `4*qN + 1`, without the clamping of the slices. */
  lemma UnpackOf(xx: seq<real>, qN: nat)
    requires qN >= 1 && |xx| == 4 * qN + 1
    ensures var y := Offset(xx, -1.0);
      Unpack(xx) == Curve(y[0], y[1..qN + 2], [0.0] + y[qN + 2..2 * qN + 1] + [0.0],
                          [0.0] + y[2 * qN + 1..3 * qN] + [0.0], y[3 * qN..])
  {
    assert ModeCount(|xx|) == qN;
  }

  /** Decoding an encoded valid curve gives the curve back exactly. */
  lemma {:induction false} UnpackPack(c: Curve, qN: nat)
    requires qN >= 1 && ValidCurve(c, qN)
    ensures |Pack(c)| == 4 * qN + 1
    ensures Unpack(Pack(c)) == c
  {
    var s := Layout(c);
    LayoutSegments(c, qN);
    OffsetCancels(s, 1.0);
    UnpackOf(Pack(c), qN);
  }

  /** `s[1:-1]` of a spectrum framed by two zeros is what was framed. */
  lemma InnerPinned(x: seq<real>)
    ensures Inner([0.0] + x + [0.0]) == x
  {
  }

  /** Offsetting by `-d` undoes an offset by `d`. */
  lemma OffsetCancels(xx: seq<real>, d: real)
    ensures Offset(Offset(xx, d), -d) == xx
  {
  }

  /** Cutting a vector at four points and concatenating the pieces gives it back. */
  lemma Reassemble(y: seq<real>, i: nat, j: nat, k: nat)
    requires 1 <= i <= j <= k <= |y|
    ensures [y[0]] + y[1..i] + y[i..j] + y[j..k] + y[k..] == y
  {
    assert [y[0]] + y[1..i] == y[..i];
    assert y[..i] + y[i..j] == y[..j];
    assert y[..j] + y[j..k] == y[..k];
    assert y[..k] + y[k..] == y;
  }

  /** The pieces `_unpack_dof` cuts, each the matching slice of the offset-free vector. */
  lemma UnpackPieces(xx: seq<real>, qN: nat)
    requires qN >= 1 && |xx| == 4 * qN + 1
    ensures Unpack(xx).rcn == Offset(xx, -1.0)[1..qN + 2]
    ensures Inner(Unpack(xx).tsn) == Offset(xx, -1.0)[qN + 2..2 * qN + 1]
    ensures Inner(Unpack(xx).rsn) == Offset(xx, -1.0)[2 * qN + 1..3 * qN]
    ensures Unpack(xx).tcn == Offset(xx, -1.0)[3 * qN..]
  {
    UnpackOf(xx, qN);
    var y := Offset(xx, -1.0);
    InnerPinned(y[qN + 2..2 * qN + 1]);
    InnerPinned(y[2 * qN + 1..3 * qN]);
  }

  /** Encoding a decoded vector of length `4*qN + 1`, `qN >= 1`, gives it back. */
  lemma {:induction false} PackUnpack(xx: seq<real>, qN: nat)
    requires qN >= 1 && |xx| == 4 * qN + 1
    ensures Pack(Unpack(xx)) == xx
  {
    var c := Unpack(xx);
    var y := Offset(xx, -1.0);
    UnpackPieces(xx, qN);
    LayoutOf(c, y[1..qN + 2], y[qN + 2..2 * qN + 1], y[2 * qN + 1..3 * qN], y[3 * qN..]);
    Reassemble(y, qN + 2, 2 * qN + 1, 3 * qN);
    assert Layout(c) == y;
    OffsetCancels(xx, -1.0);
  }

  /** The layout of a curve whose four encoded pieces are known. */
  lemma LayoutOf(c: Curve, a: seq<real>, b: seq<real>, d: seq<real>, e: seq<real>)
    requires c.rcn == a && Inner(c.tsn) == b && Inner(c.rsn) == d && c.tcn == e
    ensures Layout(c) == [c.nv] + a + b + d + e
  {
  }

  /**
   * A one-entry vector (no toroidal mode) does not survive the round trip:
   * the solver always has `qN = qq * pqNtor >= 1`, and the codec needs it.
   */
  lemma {:induction false} PackUnpackNeedsAMode(x: real)
    ensures |Pack(Unpack([x]))| == 2
  {
    var c := Unpack([x]);
    assert |c.rcn| == 0 && |c.tcn| == 1 && |c.tsn| == 2 && |c.rsn| == 2;
  }
}
