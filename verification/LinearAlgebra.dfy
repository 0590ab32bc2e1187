/** Real matrices as sequences of rows, and the row operations of Gauss-Jordan elimination. */
module LinearAlgebra {

  type Vec = seq<real>
  type Mat = seq<Vec>

  predicate IsMat(m: Mat, rows: nat, cols: nat) {
    |m| == rows && forall i :: 0 <= i < rows ==> |m[i]| == cols
  }

  /** The first `k` terms of the sum over q of `v[q] * m[q][j]`. */
  function Dot(v: Vec, m: Mat, j: nat, k: nat): real
    requires k <= |v| && k <= |m| && forall q :: 0 <= q < |m| ==> j < |m[q]|
  {
    if k == 0 then 0.0 else Dot(v, m, j, k - 1) + Times(v[k - 1], m[k - 1][j])
  }

  /** The product of two reals, under a name that proofs can match on. */
  function Times(x: real, y: real): real {
    x * y
  }

  /** The row vector `v` times `m`. */
  function VecMat(v: Vec, m: Mat, cols: nat): (r: Vec)
    requires IsMat(m, |v|, cols)
    ensures |r| == cols
  {
    seq(cols, j requires 0 <= j < cols => Dot(v, m, j, |v|))
  }

  /** The matrix product, for `b` with `cols` columns. */
  function Mul(a: Mat, b: Mat, cols: nat): (r: Mat)
    requires IsMat(a, |a|, |b|) && IsMat(b, |b|, cols)
    ensures IsMat(r, |a|, cols)
  {
    seq(|a|, i requires 0 <= i < |a| => VecMat(a[i], b, cols))
  }

  function Unit(n: nat, i: nat): (v: Vec)
    ensures |v| == n
  {
    seq(n, j => if i == j then 1.0 else 0.0)
  }

  function Identity(n: nat): (m: Mat)
    ensures IsMat(m, n, n)
  {
    seq(n, i requires 0 <= i < n => Unit(n, i))
  }

  /** Some matrix inverts `a` on both sides. */
  ghost predicate Invertible(a: Mat, n: nat)
    requires IsMat(a, n, n)
  {
    exists b :: Inverts(b, a, n)
  }

  predicate Inverts(b: Mat, a: Mat, n: nat)
    requires IsMat(a, n, n)
  {
    IsMat(b, n, n) && Mul(b, a, n) == Identity(n) && Mul(a, b, n) == Identity(n)
  }

  // --- sums ---

  lemma {:induction false} DotSetCoefficient(v: Vec, m: Mat, j: nat, k: nat, q: nat, x: real)
    requires k <= |v| && k <= |m| && q < |v| && forall p :: 0 <= p < |m| ==> j < |m[p]|
    ensures Dot(v[q := x], m, j, k) == Dot(v, m, j, k) + if q < k then Times(x - v[q], m[q][j]) else 0.0
  {
    if k > 0 {
      DotSetCoefficient(v, m, j, k - 1, q, x);
      if q == k - 1 {
        Distribute(x, v[q], m[q][j]);
      }
    }
  }

  lemma {:induction false} DotSetRow(v: Vec, m: Mat, j: nat, k: nat, q: nat, row: Vec)
    requires k <= |v| && k <= |m| && q < |m| && (forall p :: 0 <= p < |m| ==> j < |m[p]|) && j < |row|
    ensures Dot(v, m[q := row], j, k) == Dot(v, m, j, k) + if q < k then Times(v[q], row[j] - m[q][j]) else 0.0
  {
    if k > 0 {
      DotSetRow(v, m, j, k - 1, q, row);
      if q == k - 1 {
        Distribute(row[j], m[q][j], v[q]);
      }
    }
  }

  lemma Distribute(a: real, b: real, c: real)
    ensures Times(a - b, c) == Times(a, c) - Times(b, c) && Times(c, a - b) == Times(c, a) - Times(c, b)
  {
  }

  /** `v + f * w`. */
  function Plus(v: Vec, f: real, w: Vec): (r: Vec)
    requires |v| == |w|
    ensures |r| == |v|
  {
    seq(|v|, q requires 0 <= q < |v| => v[q] + Times(f, w[q]))
  }

  lemma {:induction false} DotIsLinear(v: Vec, f: real, w: Vec, m: Mat, j: nat, k: nat)
    requires |v| == |w| && k <= |v| && k <= |m| && forall p :: 0 <= p < |m| ==> j < |m[p]|
    ensures Dot(Plus(v, f, w), m, j, k) == Dot(v, m, j, k) + Times(f, Dot(w, m, j, k))
  {
    if k > 0 {
      DotIsLinear(v, f, w, m, j, k - 1);
      FactorOut(v[k - 1], w[k - 1], m[k - 1][j], f, Dot(w, m, j, k - 1));
    }
  }

  lemma FactorOut(a: real, b: real, c: real, f: real, d: real)
    ensures Times(a + Times(f, b), c) + Times(f, d) == Times(a, c) + Times(f, d + Times(b, c))
  {
    assert (a + f * b) * c == a * c + f * (b * c);
    assert f * (d + b * c) == f * d + f * (b * c);
  }

  /** The sum of a row all of whose terms vanish. */
  lemma {:induction false} DotVanishes(v: Vec, m: Mat, j: nat, k: nat)
    requires k <= |v| && k <= |m| && forall p :: 0 <= p < |m| ==> j < |m[p]|
    requires forall q :: 0 <= q < k ==> v[q] == 0.0 || m[q][j] == 0.0
    ensures Dot(v, m, j, k) == 0.0
  {
    if k > 0 {
      DotVanishes(v, m, j, k - 1);
    }
  }

  /** A sum with a single term left. */
  lemma {:induction false} DotSingle(v: Vec, m: Mat, j: nat, k: nat, s: nat)
    requires s < k <= |v| && k <= |m| && forall p :: 0 <= p < |m| ==> j < |m[p]|
    requires forall q :: 0 <= q < k && q != s ==> v[q] == 0.0 || m[q][j] == 0.0
    ensures Dot(v, m, j, k) == v[s] * m[s][j]
  {
    if s == k - 1 {
      DotVanishes(v, m, j, k - 1);
    } else {
      DotSingle(v, m, j, k - 1, s);
    }
  }

  // --- the product ---

  lemma MulIdentity(a: Mat, n: nat)
    requires IsMat(a, n, n)
    ensures Mul(a, Identity(n), n) == a && Mul(Identity(n), a, n) == a
  {
    forall i, j | 0 <= i < n && 0 <= j < n
      ensures Mul(a, Identity(n), n)[i][j] == a[i][j] && Mul(Identity(n), a, n)[i][j] == a[i][j]
    {
      DotSingle(a[i], Identity(n), j, n, j);
      DotSingle(Identity(n)[i], a, j, n, i);
    }
    forall i | 0 <= i < n ensures Mul(a, Identity(n), n)[i] == a[i] && Mul(Identity(n), a, n)[i] == a[i] {
    }
  }

  /** The vector of the first `k` terms of `v * a`. */
  function Partial(v: Vec, a: Mat, n: nat, k: nat): (r: Vec)
    requires IsMat(a, |v|, n) && k <= |v|
    ensures |r| == n
  {
    seq(n, c requires 0 <= c < n => Dot(v, a, c, k))
  }

  lemma PartialStep(v: Vec, a: Mat, n: nat, k: nat)
    requires IsMat(a, |v|, n) && 1 <= k <= |v|
    ensures Partial(v, a, n, k) == Plus(Partial(v, a, n, k - 1), v[k - 1], a[k - 1])
  {
    var next := Plus(Partial(v, a, n, k - 1), v[k - 1], a[k - 1]);
    forall c | 0 <= c < n ensures Partial(v, a, n, k)[c] == next[c] {
      assert Partial(v, a, n, k - 1)[c] == Dot(v, a, c, k - 1);
    }
  }

  lemma {:induction false} PartialAssociates(v: Vec, a: Mat, b: Mat, n: nat, cols: nat, j: nat, k: nat)
    requires IsMat(a, |v|, n) && IsMat(b, n, cols) && j < cols && k <= |v|
    ensures Dot(Partial(v, a, n, k), b, j, n) == Dot(v, Mul(a, b, cols), j, k)
  {
    if k == 0 {
      DotVanishes(Partial(v, a, n, 0), b, j, n);
    } else {
      PartialAssociates(v, a, b, n, cols, j, k - 1);
      PartialStep(v, a, n, k);
      DotIsLinear(Partial(v, a, n, k - 1), v[k - 1], a[k - 1], b, j, n);
    }
  }

  lemma MulAssociates(a: Mat, b: Mat, c: Mat, n: nat, cols: nat)
    requires IsMat(a, |a|, |b|) && IsMat(b, |b|, n) && IsMat(c, n, cols)
    ensures Mul(Mul(a, b, n), c, cols) == Mul(a, Mul(b, c, cols), cols)
  {
    var left, right := Mul(Mul(a, b, n), c, cols), Mul(a, Mul(b, c, cols), cols);
    forall i | 0 <= i < |a| ensures left[i] == right[i] {
      forall j | 0 <= j < cols ensures left[i][j] == right[i][j] {
        PartialAssociates(a[i], b, c, n, cols, j, |b|);
        assert Partial(a[i], b, n, |b|) == VecMat(a[i], b, n);
      }
    }
  }

  // --- row operations ---

  datatype RowOp =
    | Swap(i: nat, j: nat)
    | Divide(i: nat, d: real)
    | Subtract(to: nat, from: nat, f: real) // row to -= row from * f

  predicate OpOk(op: RowOp, n: nat) {
    match op
    case Swap(i, j) => i < n && j < n && i != j
    case Divide(i, d) => i < n && d != 0.0
    case Subtract(to, from, _) => to < n && from < n && to != from
  }

  function Quotient(v: Vec, d: real): (r: Vec)
    requires d != 0.0
    ensures |r| == |v|
  {
    seq(|v|, j requires 0 <= j < |v| => v[j] / d)
  }

  function Difference(v: Vec, w: Vec, f: real): (r: Vec)
    requires |v| == |w|
    ensures |r| == |v|
  {
    seq(|v|, j requires 0 <= j < |v| => v[j] - Times(w[j], f))
  }

  function Apply(op: RowOp, m: Mat, n: nat, cols: nat): (r: Mat)
    requires IsMat(m, n, cols) && OpOk(op, n)
    ensures IsMat(r, n, cols)
  {
    match op
    case Swap(i, j) => m[i := m[j]][j := m[i]]
    case Divide(i, d) => m[i := Quotient(m[i], d)]
    case Subtract(to, from, f) => m[to := Difference(m[to], m[from], f)]
  }

  /** What the operation does to the coefficients of a combination of rows that is to stay the same. */
  function Adjust(op: RowOp, v: Vec): (r: Vec)
    requires OpOk(op, |v|)
    ensures |r| == |v|
  {
    match op
    case Swap(i, j) => v[i := v[j]][j := v[i]]
    case Divide(i, d) => v[i := v[i] * d]
    case Subtract(to, from, f) => v[from := v[from] + f * v[to]]
  }

  function AdjustAll(op: RowOp, r: Mat, n: nat): (r': Mat)
    requires IsMat(r, n, n) && OpOk(op, n)
    ensures IsMat(r', n, n)
  {
    seq(n, a requires 0 <= a < n => Adjust(op, r[a]))
  }

  lemma AdjustKeepsCombination(op: RowOp, v: Vec, m: Mat, n: nat, cols: nat, j: nat)
    requires IsMat(m, n, cols) && |v| == n && OpOk(op, n) && j < cols
    ensures Dot(Adjust(op, v), Apply(op, m, n, cols), j, n) == Dot(v, m, j, n)
  {
    match op {
      case Swap(p, q) => SwapKeeps(v, m, n, cols, j, p, q);
      case Divide(p, d) => DivideKeeps(v, m, n, cols, j, p, d, Adjust(op, v)[p], Quotient(m[p], d));
      case Subtract(to, from, f) =>
        SubtractKeeps(v, m, n, cols, j, to, from, f, Adjust(op, v)[from], Difference(m[to], m[from], f));
    }
  }

  lemma SwapKeeps(v: Vec, m: Mat, n: nat, cols: nat, j: nat, p: nat, q: nat)
    requires IsMat(m, n, cols) && |v| == n && p < n && q < n && p != q && j < cols
    ensures Dot(v[p := v[q]][q := v[p]], m[p := m[q]][q := m[p]], j, n) == Dot(v, m, j, n)
  {
    var v' := v[p := v[q]][q := v[p]];
    DotSetRow(v', m, j, n, p, m[q]);
    DotSetRow(v', m[p := m[q]], j, n, q, m[p]);
    DotSetCoefficient(v, m, j, n, p, v[q]);
    DotSetCoefficient(v[p := v[q]], m, j, n, q, v[p]);
    SwapCancels(v[p], v[q], m[p][j], m[q][j]);
  }

  lemma DivideKeeps(v: Vec, m: Mat, n: nat, cols: nat, j: nat, p: nat, d: real, x: real, row: Vec)
    requires IsMat(m, n, cols) && |v| == n && p < n && j < cols && d != 0.0
    requires x == v[p] * d && row == Quotient(m[p], d)
    ensures Dot(v[p := x], m[p := row], j, n) == Dot(v, m, j, n)
  {
    DotSetRow(v[p := x], m, j, n, p, row);
    DotSetCoefficient(v, m, j, n, p, x);
    DivideCancels(v[p], x, d, m[p][j], row[j]);
  }

  lemma SubtractKeeps(v: Vec, m: Mat, n: nat, cols: nat, j: nat, to: nat, from: nat, f: real, x: real, row: Vec)
    requires IsMat(m, n, cols) && |v| == n && to < n && from < n && to != from && j < cols
    requires x == v[from] + f * v[to] && row == Difference(m[to], m[from], f)
    ensures Dot(v[from := x], m[to := row], j, n) == Dot(v, m, j, n)
  {
    DotSetRow(v[from := x], m, j, n, to, row);
    DotSetCoefficient(v, m, j, n, from, x);
    SubtractCancels(v[to], v[from], x, f, m[to][j], row[j], m[from][j]);
  }

  lemma SwapCancels(a: real, b: real, x: real, y: real)
    ensures Times(b, y - x) + Times(a, x - y) + Times(b - a, x) + Times(a - b, y) == 0.0
  {
  }

  lemma DivideCancels(a: real, a': real, d: real, x: real, x': real)
    requires d != 0.0 && a' == a * d && x' == x / d
    ensures Times(a', x' - x) + Times(a' - a, x) == 0.0
  {
  }

  lemma SubtractCancels(a: real, b: real, b': real, f: real, x: real, x': real, y: real)
    requires b' == b + f * a && x' == x - Times(y, f)
    ensures Times(a, x' - x) + Times(b' - b, y) == 0.0
  {
  }

  /** Row operations act on a product through its left factor. */
  lemma ApplyMul(op: RowOp, a: Mat, b: Mat, n: nat)
    requires IsMat(a, n, n) && IsMat(b, n, n) && OpOk(op, n)
    ensures Mul(Apply(op, a, n, n), b, n) == Apply(op, Mul(a, b, n), n, n)
  {
    var left, right := Mul(Apply(op, a, n, n), b, n), Apply(op, Mul(a, b, n), n, n);
    forall i | 0 <= i < n ensures left[i] == right[i] {
      match op {
        case Swap(_, _) =>
        case Divide(p, d) =>
          if i == p {
            RowQuotient(a[i], b, n, d);
          }
        case Subtract(to, from, f) =>
          if i == to {
            RowDifference(a[to], a[from], b, n, f);
          }
      }
    }
  }

  lemma RowQuotient(v: Vec, b: Mat, n: nat, d: real)
    requires |v| == n && IsMat(b, n, n) && d != 0.0
    ensures VecMat(Quotient(v, d), b, n) == Quotient(VecMat(v, b, n), d)
  {
    var zero := seq(n, _ => 0.0);
    forall q | 0 <= q < n ensures Quotient(v, d)[q] == Plus(zero, 1.0 / d, v)[q] {
      QuotientAsProduct(v[q], d);
    }
    assert Quotient(v, d) == Plus(zero, 1.0 / d, v);
    forall j | 0 <= j < n ensures Dot(Quotient(v, d), b, j, n) == Dot(v, b, j, n) / d {
      DotIsLinear(zero, 1.0 / d, v, b, j, n);
      DotVanishes(zero, b, j, n);
      QuotientAsProduct(Dot(v, b, j, n), d);
    }
  }

  lemma QuotientAsProduct(x: real, d: real)
    requires d != 0.0
    ensures x / d == 1.0 / d * x
  {
  }

  lemma RowDifference(v: Vec, w: Vec, b: Mat, n: nat, f: real)
    requires |v| == |w| == n && IsMat(b, n, n)
    ensures VecMat(Difference(v, w, f), b, n) == Difference(VecMat(v, b, n), VecMat(w, b, n), f)
  {
    forall q | 0 <= q < n ensures Difference(v, w, f)[q] == Plus(v, -f, w)[q] {
      NegatedFactor(w[q], f);
    }
    assert Difference(v, w, f) == Plus(v, -f, w);
    forall j | 0 <= j < n
      ensures VecMat(Difference(v, w, f), b, n)[j] == Difference(VecMat(v, b, n), VecMat(w, b, n), f)[j]
    {
      DotIsLinear(v, -f, w, b, j, n);
      NegatedFactor(Dot(w, b, j, n), f);
    }
  }

  lemma NegatedFactor(x: real, f: real)
    ensures Times(-f, x) == -Times(x, f)
  {
  }

  // --- what elimination keeps ---

  /** `left` has turned `a` into `m`, and `right` undoes it. */
  predicate Linked(a: Mat, m: Mat, left: Mat, right: Mat, n: nat) {
    && IsMat(a, n, n) && IsMat(m, n, n) && IsMat(left, n, n) && IsMat(right, n, n)
    && Mul(left, a, n) == m
    && Mul(right, m, n) == a
    && Mul(right, left, n) == Identity(n)
  }

  lemma LinkedInitially(a: Mat, n: nat)
    requires IsMat(a, n, n)
    ensures Linked(a, a, Identity(n), Identity(n), n)
  {
    MulIdentity(a, n);
    MulIdentity(Identity(n), n);
  }

  /** Every row swap, scaling and subtraction, done on both `m` and `left`, keeps the link. */
  lemma LinkedAfter(op: RowOp, a: Mat, m: Mat, left: Mat, right: Mat, n: nat)
    requires Linked(a, m, left, right, n) && OpOk(op, n)
    ensures Linked(a, Apply(op, m, n, n), Apply(op, left, n, n), AdjustAll(op, right, n), n)
  {
    ApplyMul(op, left, a, n);
    AdjustMul(op, right, m, n);
    AdjustMul(op, right, left, n);
  }

  lemma AdjustMul(op: RowOp, r: Mat, m: Mat, n: nat)
    requires IsMat(r, n, n) && IsMat(m, n, n) && OpOk(op, n)
    ensures Mul(AdjustAll(op, r, n), Apply(op, m, n, n), n) == Mul(r, m, n)
  {
    var before, after := Mul(r, m, n), Mul(AdjustAll(op, r, n), Apply(op, m, n, n), n);
    forall i | 0 <= i < n ensures after[i] == before[i] {
      forall j | 0 <= j < n ensures after[i][j] == before[i][j] {
        AdjustKeepsCombination(op, r[i], m, n, n, j);
      }
    }
  }

  /** When nothing but the identity is left, `left` is the inverse, on both sides. */
  lemma LinkedToIdentity(a: Mat, left: Mat, right: Mat, n: nat)
    requires Linked(a, Identity(n), left, right, n)
    ensures Inverts(left, a, n)
  {
    MulIdentity(right, n);
  }

  // --- why a zero pivot column means a singular matrix ---

  /** The first `c` columns are those of a unit upper triangular matrix. */
  predicate UnitUpper(m: Mat, n: nat, c: nat) {
    IsMat(m, n, n) && c <= n &&
    forall i, j :: 0 <= i < n && 0 <= j < c && i >= j ==> m[i][j] == if i == j then 1.0 else 0.0
  }

  /** `x` solves rows `k` to `c - 1` of `m x = 0`, with `x[c] == 1` and zeros beyond. */
  ghost predicate SolvesFrom(m: Mat, x: Mat, n: nat, c: nat, k: nat) {
    && IsMat(m, n, n) && IsMat(x, n, 1) && k <= c < n
    && x[c][0] == 1.0
    && (forall q :: c < q < n ==> x[q][0] == 0.0)
    && (forall q :: 0 <= q < k ==> x[q][0] == 0.0)
    && (forall i :: k <= i < c ==> Dot(m[i], x, 0, n) == 0.0)
  }

  /** Back substitution: a non-zero vector that the first `c` rows annihilate. */
  lemma {:induction false} BackSubstitute(m: Mat, n: nat, c: nat, k: nat) returns (x: Mat)
    requires UnitUpper(m, n, c) && k <= c < n
    ensures SolvesFrom(m, x, n, c, k)
    decreases c - k
  {
    if k == c {
      x := seq(n, q => [if q == c then 1.0 else 0.0]);
    } else {
      var y := BackSubstitute(m, n, c, k + 1);
      var row := [-Dot(m[k], y, 0, n)];
      x := y[k := row];
      forall i | k <= i < c ensures Dot(m[i], x, 0, n) == 0.0 {
        DotSetRow(m[i], y, 0, n, k, row);
        assert m[i][k] == if i == k then 1.0 else 0.0;
      }
    }
  }

  /** If column `c` has no pivot left, `m` annihilates a non-zero vector. */
  lemma NoPivotHasKernel(m: Mat, n: nat, c: nat) returns (x: Mat)
    requires UnitUpper(m, n, c) && c < n
    requires forall i :: c <= i < n ==> m[i][c] == 0.0
    ensures IsMat(x, n, 1) && x[c][0] == 1.0
    ensures forall i :: 0 <= i < n ==> Dot(m[i], x, 0, n) == 0.0
  {
    x := BackSubstitute(m, n, c, 0);
    forall i | 0 <= i < n ensures Dot(m[i], x, 0, n) == 0.0 {
      if i >= c {
        DotVanishes(m[i], x, 0, n);
      }
    }
  }

  function ZeroColumn(n: nat): (z: Mat)
    ensures IsMat(z, n, 1)
  {
    seq(n, _ => [0.0])
  }

  lemma ZeroTimes(a: Mat, n: nat)
    requires IsMat(a, n, n)
    ensures Mul(a, ZeroColumn(n), 1) == ZeroColumn(n)
  {
    forall i | 0 <= i < n ensures Mul(a, ZeroColumn(n), 1)[i] == [0.0] {
      DotVanishes(a[i], ZeroColumn(n), 0, n);
    }
  }

  lemma IdentityTimes(x: Mat, n: nat)
    requires IsMat(x, n, 1)
    ensures Mul(Identity(n), x, 1) == x
  {
    forall i | 0 <= i < n ensures Mul(Identity(n), x, 1)[i] == x[i] {
      DotSingle(Identity(n)[i], x, 0, n, i);
    }
  }

  lemma InvertibleHasNoKernel(a: Mat, b: Mat, x: Mat, n: nat)
    requires IsMat(a, n, n) && Inverts(b, a, n) && IsMat(x, n, 1) && Mul(a, x, 1) == ZeroColumn(n)
    ensures x == ZeroColumn(n)
  {
    MulAssociates(b, a, x, n, 1);
    ZeroTimes(b, n);
    IdentityTimes(x, n);
  }

  /** Partial pivoting fails only on singular matrices. */
  lemma NoPivotIsSingular(a: Mat, m: Mat, left: Mat, right: Mat, n: nat, c: nat)
    requires Linked(a, m, left, right, n) && UnitUpper(m, n, c) && c < n
    requires forall i :: c <= i < n ==> m[i][c] == 0.0
    ensures !Invertible(a, n)
  {
    var x := NoPivotHasKernel(m, n, c);
    var zero := ZeroColumn(n);
    forall i | 0 <= i < n ensures Mul(m, x, 1)[i] == [0.0] {
      assert Mul(m, x, 1)[i][0] == Dot(m[i], x, 0, n);
    }
    assert Mul(m, x, 1) == zero;
    MulAssociates(right, m, x, n, 1);
    ZeroTimes(right, n);
    assert x[c] != zero[c];
    forall b ensures !Inverts(b, a, n) {
      if Inverts(b, a, n) {
        InvertibleHasNoKernel(a, b, x, n);
      }
    }
  }
}
