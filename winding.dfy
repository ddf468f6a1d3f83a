/**
 * The winding arithmetic of `QFM.action`: the fold that stitches the `qq`
 * periods of the action curves into one surface block by block
 * (`idx = pp*i mod qq`), and the cyclic resampling from the curve label
 * `alpha` to the straight-field-line angle `vartheta`.
 */
module Winding {
  import opened Common

  // ---------------------------------------------------------------------
  // Integer facts

  /** Division with remainder determines quotient and remainder. */
  lemma ModUnique(x: int, n: int, q: int, r: int)
    requires n > 0 && 0 <= r < n && x == q * n + r
    ensures x % n == r && x / n == q
  {
    var q', r' := x / n, x % n;
    assert x == q' * n + r';
    assert (q - q') * n == r' - r;
    if q > q' {
      MulAtLeast(q - q', n);
    } else if q < q' {
      MulAtLeast(q' - q, n);
    }
  }

  lemma MulAtLeast(a: int, n: int)
    requires a >= 1 && n >= 0
    ensures a * n >= n
  {
    assert a * n == n + (a - 1) * n;
  }

  /** Adding a multiple of `n` does not change the remainder. */
  lemma ModShift(x: int, m: int, n: int)
    requires n > 0
    ensures (x + m * n) % n == x % n
  {
    assert x == (x / n) * n + x % n;
    assert x + m * n == (x / n + m) * n + x % n;
    ModUnique(x + m * n, n, x / n + m, x % n);
  }

  /** Reducing one summand first does not change the remainder. */
  lemma ModAddMod(a: int, b: int, n: int)
    requires n > 0
    ensures (a + b % n) % n == (a + b) % n
  {
    assert b == (b / n) * n + b % n;
    ModShift(a + b % n, b / n, n);
    assert a + b % n + (b / n) * n == a + b;
  }

  lemma MulMono(i: nat, q: nat, l: nat)
    requires i <= q
    ensures i * l <= q * l
  {
    assert q * l == i * l + (q - i) * l;
  }

  /** Row `b*fM + k` of a matrix of `fM`-row blocks lies in block `b` at offset `k`. */
  lemma BlockRow(b: nat, k: nat, fM: nat, qq: nat)
    requires k < fM && b < qq
    ensures b * fM + k < qq * fM
    ensures (b * fM + k) / fM == b && (b * fM + k) % fM == k
  {
    MulMono(b + 1, qq, fM);
    ModUnique(b * fM + k, fM, b, k);
  }

  // ---------------------------------------------------------------------
  // Greatest common divisor

  function Gcd(a: nat, b: nat): nat
    decreases b
  {
    if b == 0 then a else Gcd(b, a % b)
  }

  /** The gcd divides both arguments. */
  lemma {:induction false} GcdDivides(a: nat, b: nat) returns (ka: int, kb: int)
    ensures ka * Gcd(a, b) == a && kb * Gcd(a, b) == b
    decreases b
  {
    if b == 0 {
      ka, kb := 1, 0;
    } else {
      var kb', kr := GcdDivides(b, a % b);
      ka := DivisorStep(a, b, a / b, a % b, Gcd(a, b), kb', kr);
      kb := kb';
    }
  }

  /** A common divisor `g` of `b` and `m` divides `a = q*b + m`. */
  lemma DivisorStep(a: int, b: int, q: int, m: int, g: int, kb: int, km: int) returns (ka: int)
    requires a == q * b + m && kb * g == b && km * g == m
    ensures ka * g == a
  {
    ka := q * kb + km;
    assert ka * g == q * (kb * g) + km * g;
  }

  /** Bezout's identity: the gcd is an integer combination of the arguments. */
  lemma {:induction false} Bezout(a: nat, b: nat) returns (x: int, y: int)
    ensures x * a + y * b == Gcd(a, b)
    decreases b
  {
    if b == 0 {
      x, y := 1, 0;
    } else {
      var x', y' := Bezout(b, a % b);
      x, y := y', x' - y' * (a / b);
      BezoutStep(a, b, a / b, a % b, x', y');
    }
  }

  /** One Euclid step of Bezout's coefficients: `a = q*b + m`. */
  lemma BezoutStep(a: int, b: int, q: int, m: int, x: int, y: int)
    requires a == q * b + m
    ensures y * a + (x - y * q) * b == x * b + y * m
  {
    assert y * a == y * (q * b) + y * m;
    assert (x - y * q) * b == x * b - y * (q * b);
  }

  function IntAbs(x: int): nat
  {
    if x < 0 then -x else x
  }

  /** `pp` and `qq` are coprime: the rotation number `pp/qq` is in lowest terms. */
  predicate Coprime(pp: int, qq: nat)
  {
    Gcd(IntAbs(pp), qq) == 1
  }

  // ---------------------------------------------------------------------
  // Which curve period lands in which block of the fold

  /** The latest period `i < n` whose block `pp*i mod qq` is `b`, or -1 if none is. */
  function LastHit(pp: int, qq: nat, b: nat, n: nat): (i: int)
    requires qq >= 1
    ensures -1 <= i < n
    ensures i >= 0 ==> (pp * i) % qq == b
    ensures forall i' :: i < i' < n ==> (pp * i') % qq != b
  {
    if n == 0 then -1
    else if (pp * (n - 1)) % qq == b then n - 1
    else LastHit(pp, qq, b, n - 1)
  }

  /** Equal remainders mean the difference is a multiple of the modulus. */
  lemma ModEqDiff(a: int, b: int, n: int) returns (t: int)
    requires n > 0 && a % n == b % n
    ensures a - b == t * n
  {
    assert a == (a / n) * n + a % n;
    assert b == (b / n) * n + b % n;
    t := a / n - b / n;
    assert t * n == (a / n) * n - (b / n) * n;
  }

  /** The only multiple of `n` strictly between `-n` and `n` is zero. */
  lemma SmallMultiple(d: int, m: int, n: int)
    requires n > 0 && d == m * n && -n < d < n
    ensures d == 0
  {
    if m >= 1 {
      MulAtLeast(m, n);
    } else if m <= -1 {
      MulAtLeast(-m, n);
    }
  }

  /** A signed Bezout combination `u*pp + y*qq == 1` for coprime `pp`, `qq`. */
  lemma CoprimeCombination(pp: int, qq: nat) returns (u: int, y: int)
    requires Coprime(pp, qq)
    ensures u * pp + y * qq == 1
  {
    var x, y' := Bezout(IntAbs(pp), qq);
    y := y';
    if pp < 0 {
      u := -x;
      assert u * pp == x * IntAbs(pp);
    } else {
      u := x;
    }
  }

  /** Euclid's lemma in the form the fold needs: `qq | pp*d` and `u*pp + y*qq == 1` give `qq | d`. */
  lemma EuclidStep(pp: int, qq: int, u: int, y: int, d: int, t: int)
    requires u * pp + y * qq == 1 && pp * d == t * qq
    ensures d == (u * t + y * d) * qq
  {
    calc {
      d;
      d * (u * pp + y * qq);
      u * (pp * d) + y * qq * d;
      u * (t * qq) + y * qq * d;
      (u * t + y * d) * qq;
    }
  }

  /** For coprime `pp`, `qq` distinct periods go to distinct blocks. */
  lemma CoprimeInjective(pp: int, qq: nat, i: nat, j: nat)
    requires qq >= 1 && Coprime(pp, qq) && i < qq && j < qq
    requires (pp * i) % qq == (pp * j) % qq
    ensures i == j
  {
    var u, y := CoprimeCombination(pp, qq);
    var t := ModEqDiff(pp * i, pp * j, qq);
    var d := i - j;
    assert pp * d == t * qq;
    EuclidStep(pp, qq, u, y, d, t);
    SmallMultiple(d, u * t + y * d, qq);
  }

  /** `b - y*b*qq - pp*k*qq` regrouped, for `CoprimeSurjective`. */
  lemma SurjectiveStep(pp: int, qq: int, u: int, y: int, b: int, k: int, i: int)
    requires u * pp + y * qq == 1 && u * b == k * qq + i
    ensures pp * i == (-(y * b) - pp * k) * qq + b
  {
    calc {
      pp * i;
      pp * (u * b - k * qq);
      (u * pp) * b - pp * k * qq;
      (1 - y * qq) * b - pp * k * qq;
      (-(y * b) - pp * k) * qq + b;
    }
  }

  /** For coprime `pp`, `qq` every block `b < qq` receives some period. */
  lemma CoprimeSurjective(pp: int, qq: nat, b: nat) returns (i: nat)
    requires qq >= 1 && Coprime(pp, qq) && b < qq
    ensures i < qq && (pp * i) % qq == b
  {
    var u, y := CoprimeCombination(pp, qq);
    i := (u * b) % qq;
    var k := (u * b) / qq;
    assert u * b == k * qq + i;
    SurjectiveStep(pp, qq, u, y, b, k, i);
    ModUnique(pp * i, qq, -(y * b) - pp * k, b);
  }

  /**
   * With `gcd(pp, qq) = 1` the fold writes every block exactly once: block
   * `b` is written by exactly one period, which is the one `LastHit` names.
   */
  lemma CoprimeFoldWritesEachBlockOnce(pp: int, qq: nat, b: nat)
    requires qq >= 1 && Coprime(pp, qq) && b < qq
    ensures LastHit(pp, qq, b, qq) >= 0
    ensures forall i :: 0 <= i < qq && (pp * i) % qq == b ==> i == LastHit(pp, qq, b, qq)
  {
    var w := CoprimeSurjective(pp, qq, b);
    var h := LastHit(pp, qq, b, qq);
    assert h >= w;
    forall i | 0 <= i < qq && (pp * i) % qq == b ensures i == h {
      CoprimeInjective(pp, qq, i, h);
    }
  }

  /** A common divisor of `pp` and `qq` larger than one divides `pp*h - t*qq`, so that is not 1. */
  lemma NoUnitCombination(pp: int, qq: int, g: int, sa: int, kb: int, h: int, t: int)
    requires g >= 2 && sa * g == pp && kb * g == qq
    ensures pp * h - t * qq != 1
  {
    var z := sa * h - t * kb;
    calc {
      z * g;
      (sa * g) * h - t * (kb * g);
      pp * h - t * qq;
    }
    if z >= 1 {
      MulAtLeast(z, g);
    } else {
      MulAtLeast(1 - z, g);
      assert (1 - z) * g == g - z * g;
    }
  }

  /** Euclidean division: `x == t*n + x mod n`. */
  lemma Quotient(x: int, n: int) returns (t: int)
    requires n > 0
    ensures x == t * n + x % n
  {
    t := x / n;
  }

  /** A gcd that is not 1 of `|pp|` and `qq >= 1` is at least 2 and divides both, with signs. */
  lemma LargeCommonDivisor(pp: int, qq: nat) returns (g: int, sa: int, kb: int)
    requires qq >= 1 && !Coprime(pp, qq)
    ensures g >= 2 && sa * g == pp && kb * g == qq && qq >= g
  {
    g := Gcd(IntAbs(pp), qq);
    var ka, kb' := GcdDivides(IntAbs(pp), qq);
    kb := kb';
    assert g >= 2;
    if kb <= 0 {
      MulAtLeast(1 - kb, g);
    }
    MulAtLeast(kb, g);
    sa := if pp < 0 then -ka else ka;
    assert sa * g == pp;
  }

  /**
   * Without `gcd(pp, qq) = 1` (nothing in the source checks it) block 1 is
   * never written: its rows stay at the zeros they were allocated with.
   */
  lemma NonCoprimeFoldMissesBlockOne(pp: int, qq: nat)
    requires qq >= 1 && !Coprime(pp, qq)
    ensures qq >= 2
    ensures LastHit(pp, qq, 1, qq) == -1
  {
    var g, sa, kb := LargeCommonDivisor(pp, qq);
    var h := LastHit(pp, qq, 1, qq);
    if h >= 0 {
      var t := Quotient(pp * h, qq);
      NoUnitCombination(pp, qq, g, sa, kb, h, t);
    }
  }

  // ---------------------------------------------------------------------
  // Cyclic rotation

  /** `s` rotated left by `d`: the slice pair `s[d:]`, `s[:d]` the fold copies. */
  function Rotate<T>(s: seq<T>, d: nat): (r: seq<T>)
    requires d <= |s|
    ensures |r| == |s|
  {
    s[d..] + s[..d]
  }

  /** Entry `k` of a rotation is entry `(k + d) mod |s|` of the original. */
  lemma RotateAt<T>(s: seq<T>, d: nat, k: nat)
    requires d <= |s| && k < |s|
    ensures Rotate(s, d)[k] == s[(k + d) % |s|]
  {
    if k < |s| - d {
      ModUnique(k + d, |s|, 0, k + d);
    } else {
      ModUnique(k + d, |s|, 1, k + d - |s|);
    }
  }

  /** A rotation is a permutation. */
  lemma RotatePermutes<T>(s: seq<T>, d: nat)
    requires d <= |s|
    ensures multiset(Rotate(s, d)) == multiset(s)
  {
    assert s == s[..d] + s[d..];
  }

  /**
   * A sequence that reads `s` at `(k - c) mod |s|` is `s` rotated left by
   * `-c mod |s|`, and so a permutation of `s`.
   */
  lemma ShiftIsRotation<T>(s: seq<T>, t: seq<T>, c: int)
    requires |s| >= 1 && |t| == |s|
    requires forall k :: 0 <= k < |t| ==> t[k] == s[(k - c) % |s|]
    ensures t == Rotate(s, (-c) % |s|)
    ensures multiset(t) == multiset(s)
  {
    var n, d := |s|, (-c) % |s|;
    var rot := Rotate(s, d);
    forall k | 0 <= k < n ensures t[k] == rot[k] {
      ShiftAt(s, c, k);
    }
    RotatePermutes(s, d);
  }

  /** Entry `k` of the rotation by `-c mod |s|` is entry `(k - c) mod |s|`. */
  lemma ShiftAt<T>(s: seq<T>, c: int, k: nat)
    requires |s| >= 1 && k < |s|
    ensures Rotate(s, (-c) % |s|)[k] == s[(k - c) % |s|]
  {
    RotateAt(s, (-c) % |s|, k);
    ModAddMod(k, -c, |s|);
  }

  // ---------------------------------------------------------------------
  // Rows and columns of 2D arrays

  function Row(a: array2<real>, i: nat): (r: seq<real>)
    reads a
    requires i < a.Length0
    ensures |r| == a.Length1 && forall j :: 0 <= j < a.Length1 ==> r[j] == a[i, j]
  {
    seq(a.Length1, j requires 0 <= j < a.Length1 reads a => a[i, j])
  }

  function ColumnOf(a: array2<real>, j: nat): (c: seq<real>)
    reads a
    requires j < a.Length1
    ensures |c| == a.Length0 && forall i :: 0 <= i < a.Length0 ==> c[i] == a[i, j]
  {
    seq(a.Length0, i requires 0 <= i < a.Length0 reads a => a[i, j])
  }

  /** `a[i, :] = row`: row `i` becomes `row`, every other entry keeps its value. */
  method WriteRow(a: array2<real>, i: nat, row: seq<real>)
    requires i < a.Length0 && |row| == a.Length1
    modifies a
    ensures Row(a, i) == row
    ensures forall i', j :: 0 <= i' < a.Length0 && 0 <= j < a.Length1 && i' != i ==> a[i', j] == old(a[i', j])
    ensures forall i' :: 0 <= i' < a.Length0 && i' != i ==> Row(a, i') == old(Row(a, i'))
  {
    for j := 0 to a.Length1
      invariant forall j' :: 0 <= j' < j ==> a[i, j'] == row[j']
      invariant forall i', j' :: 0 <= i' < a.Length0 && 0 <= j' < a.Length1 && i' != i ==> a[i', j'] == old(a[i', j'])
    {
      a[i, j] := row[j];
    }
    forall i' | 0 <= i' < a.Length0 && i' != i ensures Row(a, i') == old(Row(a, i')) {
      assert forall j :: 0 <= j < a.Length1 ==> a[i', j] == old(a[i', j]);
    }
  }

  // ---------------------------------------------------------------------
  // The fold (lines 234-247) and the resampling (lines 256-259)

  /**
   * Row `row = b*fM + k` of the folded surface after the periods `i < n`:
   * curve `k` rotated left by `i*L` columns for the latest such period `i`
   * with block `pp*i mod qq == b`, or zeros when no period went to `b`.
   */
  function FoldedRow(r: Matrix, pp: int, qq: nat, fM: nat, L: nat, row: nat, n: nat): (out: seq<real>)
    requires qq >= 1 && fM >= 1 && row < qq * fM && n <= qq && IsMatrix(r, fM, qq * L)
    ensures |out| == qq * L
    ensures LastHit(pp, qq, row / fM, n) >= 0 ==> multiset(out) == multiset(r[row % fM])
  {
    var b, k := row / fM, row % fM;
    var i := LastHit(pp, qq, b, n);
    if i < 0 then Zeros(qq * L)
    else
      MulMono(i, qq, L);
      RotatePermutes(r[k], i * L);
      Rotate(r[k], i * L)
  }

  /** One period of the fold: `FoldedRow` after period `i` from `FoldedRow` before it. */
  lemma FoldedRowStep(r: Matrix, pp: int, qq: nat, fM: nat, L: nat, row: nat, i: nat)
    requires qq >= 1 && fM >= 1 && row < qq * fM && i < qq && IsMatrix(r, fM, qq * L)
    ensures i * L <= qq * L
    ensures FoldedRow(r, pp, qq, fM, L, row, i + 1) ==
      if row / fM == (pp * i) % qq then Rotate(r[row % fM], i * L) else FoldedRow(r, pp, qq, fM, L, row, i)
  {
    MulMono(i, qq, L);
  }

  /** Row `row` lies in block `b` exactly when `b*fM <= row < b*fM + fM`. */
  lemma InBlock(row: nat, b: nat, fM: nat)
    requires fM >= 1
    ensures row / fM == b <==> b * fM <= row < b * fM + fM
  {
    var q, k := row / fM, row % fM;
    assert row == q * fM + k;
    if q < b {
      MulMono(q + 1, b, fM);
    } else if q > b {
      MulMono(b + 1, q, fM);
    }
  }

  /** `out[base + k, :] = rotate(r[k], d)` for every curve `k`; rows outside the block keep their values. */
  method CopyBlock(out: array2<real>, r: Matrix, base: nat, d: nat)
    requires base + |r| <= out.Length0 && d <= out.Length1
    requires forall k :: 0 <= k < |r| ==> |r[k]| == out.Length1
    modifies out
    ensures forall k :: 0 <= k < |r| ==> Row(out, base + k) == Rotate(r[k], d)
    ensures forall row :: 0 <= row < out.Length0 && !(base <= row < base + |r|) ==> Row(out, row) == old(Row(out, row))
  {
    for k := 0 to |r|
      invariant forall k' :: 0 <= k' < k ==> Row(out, base + k') == Rotate(r[k'], d)
      invariant forall row, j :: 0 <= row < out.Length0 && 0 <= j < out.Length1 && !(base <= row < base + k) ==> out[row, j] == old(out[row, j])
    {
      WriteRow(out, base + k, Rotate(r[k], d));
    }
    forall row | 0 <= row < out.Length0 && !(base <= row < base + |r|) ensures Row(out, row) == old(Row(out, row)) {
      assert forall j :: 0 <= j < out.Length1 ==> out[row, j] == old(out[row, j]);
    }
  }

  /**
   * Folds the `fM` curves `r` (each `qq*L` samples over `qq` toroidal
   * turns) into a `(qq*fM, qq*L)` surface: period `i` of every curve goes to
   * block `idx = pp*i mod qq`, rotated left by `i*L` columns, so a later
   * period overwrites an earlier one with the same block.
   */
  method Fold(r: Matrix, pp: int, qq: nat, fM: nat, L: nat) returns (out: array2<real>)
    requires qq >= 1 && fM >= 1 && IsMatrix(r, fM, qq * L)
    ensures fresh(out) && out.Length0 == qq * fM && out.Length1 == qq * L
    ensures forall row :: 0 <= row < qq * fM ==> Row(out, row) == FoldedRow(r, pp, qq, fM, L, row, qq)
  {
    out := new real[qq * fM, qq * L]((_, _) => 0.0);
    forall row | 0 <= row < qq * fM ensures Row(out, row) == FoldedRow(r, pp, qq, fM, L, row, 0) {
      assert Row(out, row) == Zeros(qq * L);
    }
    for i := 0 to qq
      invariant forall row :: 0 <= row < qq * fM ==> Row(out, row) == FoldedRow(r, pp, qq, fM, L, row, i)
    {
      FoldPeriod(out, r, pp, qq, fM, L, i);
    }
  }

  /** Period `i` of the fold: block `pp*i mod qq` of `out` takes the curves rotated left by `i*L`. */
  method FoldPeriod(out: array2<real>, r: Matrix, pp: int, qq: nat, fM: nat, L: nat, i: nat)
    requires qq >= 1 && fM >= 1 && i < qq && IsMatrix(r, fM, qq * L)
    requires out.Length0 == qq * fM && out.Length1 == qq * L
    requires forall row :: 0 <= row < qq * fM ==> Row(out, row) == FoldedRow(r, pp, qq, fM, L, row, i)
    modifies out
    ensures forall row :: 0 <= row < qq * fM ==> Row(out, row) == FoldedRow(r, pp, qq, fM, L, row, i + 1)
  {
    var idx := (pp * i) % qq;
    MulMono(i, qq, L);
    MulMono(idx + 1, qq, fM);
    var base, d := idx * fM, i * L;
    ghost var before := seq(qq * fM, row requires 0 <= row < qq * fM reads out => Row(out, row));
    CopyBlock(out, r, base, d);
    ghost var after := seq(qq * fM, row requires 0 <= row < qq * fM reads out => Row(out, row));
    FoldAdvance(r, pp, qq, fM, L, i, idx, base, d, before, after);
    assert forall row :: 0 <= row < qq * fM ==> after[row] == Row(out, row);
  }

  /** The rows after period `i`, from the rows before it and the block `base = idx*fM` rewritten with shift `d = i*L`. */
  lemma FoldAdvance(r: Matrix, pp: int, qq: nat, fM: nat, L: nat, i: nat, idx: nat, base: nat, d: nat, before: Matrix, after: Matrix)
    requires qq >= 1 && fM >= 1 && i < qq && IsMatrix(r, fM, qq * L)
    requires idx == (pp * i) % qq && base == idx * fM && d == i * L && d <= qq * L && base + fM <= qq * fM
    requires |before| == qq * fM && |after| == qq * fM
    requires forall row :: 0 <= row < qq * fM ==> before[row] == FoldedRow(r, pp, qq, fM, L, row, i)
    requires forall k :: 0 <= k < fM ==> after[base + k] == Rotate(r[k], d)
    requires forall row :: 0 <= row < qq * fM && !(base <= row < base + fM) ==> after[row] == before[row]
    ensures forall row :: 0 <= row < qq * fM ==> after[row] == FoldedRow(r, pp, qq, fM, L, row, i + 1)
  {
    forall row | 0 <= row < qq * fM ensures after[row] == FoldedRow(r, pp, qq, fM, L, row, i + 1) {
      FoldAdvanceRow(r, pp, qq, fM, L, i, idx, base, d, row);
    }
  }

  /** Row `row` after period `i`: rewritten when it lies in block `idx`, unchanged otherwise. */
  lemma FoldAdvanceRow(r: Matrix, pp: int, qq: nat, fM: nat, L: nat, i: nat, idx: nat, base: nat, d: nat, row: nat)
    requires qq >= 1 && fM >= 1 && i < qq && IsMatrix(r, fM, qq * L) && row < qq * fM
    requires idx == (pp * i) % qq && base == idx * fM && d == i * L && d <= qq * L
    ensures base <= row < base + fM ==> FoldedRow(r, pp, qq, fM, L, row, i + 1) == Rotate(r[row - base], d)
    ensures !(base <= row < base + fM) ==> FoldedRow(r, pp, qq, fM, L, row, i + 1) == FoldedRow(r, pp, qq, fM, L, row, i)
  {
    FoldedRowStep(r, pp, qq, fM, L, row, i);
    InBlock(row, idx, fM);
    if row / fM == idx {
      assert row == base + row % fM;
    }
  }

  /**
   * Converts `(alpha, zeta)` to `(vartheta, zeta)`: column `i < ncols` of the
   * result reads column `i` of `alpha` at row `(k - i*pp) mod qfM`.
   */
  method Resample(alpha: array2<real>, pp: int, ncols: nat) returns (out: array2<real>)
    requires alpha.Length0 >= 1 && ncols <= alpha.Length1
    ensures fresh(out) && out.Length0 == alpha.Length0 && out.Length1 == ncols
    ensures forall k, i :: 0 <= k < out.Length0 && 0 <= i < ncols ==> out[k, i] == alpha[(k - i * pp) % alpha.Length0, i]
    ensures forall i :: 0 <= i < ncols ==>
      && ColumnOf(out, i) == Rotate(ColumnOf(alpha, i), (-(i * pp)) % alpha.Length0)
      && multiset(ColumnOf(out, i)) == multiset(ColumnOf(alpha, i))
  {
    var n := alpha.Length0;
    out := new real[n, ncols]((_, _) => 0.0);
    for i := 0 to ncols
      invariant forall k, i' :: 0 <= k < n && 0 <= i' < i ==> out[k, i'] == alpha[(k - i' * pp) % n, i']
    {
      ShearColumn(out, alpha, pp, i);
    }
    forall i | 0 <= i < ncols
      ensures ColumnOf(out, i) == Rotate(ColumnOf(alpha, i), (-(i * pp)) % n)
      ensures multiset(ColumnOf(out, i)) == multiset(ColumnOf(alpha, i))
    {
      ShiftIsRotation(ColumnOf(alpha, i), ColumnOf(out, i), i * pp);
    }
  }

  /** `out[:, i] = alpha[(arange(n) - i*pp) mod n, i]`; the other columns keep their values. */
  method ShearColumn(out: array2<real>, alpha: array2<real>, pp: int, i: nat)
    requires out != alpha && out.Length0 == alpha.Length0 >= 1 && i < out.Length1 <= alpha.Length1
    modifies out
    ensures forall k, j :: 0 <= k < out.Length0 && 0 <= j < out.Length1 ==>
      out[k, j] == if j == i then alpha[(k - i * pp) % alpha.Length0, i] else old(out[k, j])
  {
    var n, c := alpha.Length0, i * pp;
    for k := 0 to n
      invariant forall k', j :: 0 <= k' < n && 0 <= j < out.Length1 ==>
        out[k', j] == if j == i && k' < k then alpha[(k' - c) % n, i] else old(out[k', j])
    {
      out[k, i] := alpha[(k - c) % n, i];
    }
  }
}
