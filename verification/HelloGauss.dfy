/** Gauss-Jordan inversion with partial pivoting and matrix product of src/hellogauss.h, in place on flat
    row-major arrays, over the reals and for any size. */
module HelloGauss {
  import opened Common
  import opened LinearAlgebra

  // --- flat arrays as matrices ---

  lemma RowBounds(i: nat, n: nat)
    requires i < n
    ensures 0 <= i * n <= i * n + n <= n * n && (i + 1) * n == i * n + n
  {
    assert (i + 1) * n <= n * n;
  }

  /** Different rows do not overlap. */
  lemma RowsDisjoint(i: nat, k: nat, n: nat)
    requires i < n && k < n && i != k
    ensures i * n + n <= k * n || k * n + n <= i * n
  {
    if i < k {
      MultiplesApart(i, k, n);
    } else {
      MultiplesApart(k, i, n);
    }
  }

  function Row(s: seq<real>, n: nat, i: nat): (r: Vec)
    requires |s| == n * n && i < n
    ensures |r| == n
  {
    RowBounds(i, n);
    s[i * n..i * n + n]
  }

  /** The matrix stored in a flat buffer: element (i, j) is at `i * n + j`. */
  function Rows(s: seq<real>, n: nat): (m: Mat)
    requires |s| == n * n
    ensures IsMat(m, n, n)
  {
    seq(n, i requires 0 <= i < n => Row(s, n, i))
  }

  lemma At(s: seq<real>, n: nat, i: nat, j: nat)
    requires |s| == n * n && i < n && j < n
    ensures 0 <= i * n + j < n * n && Rows(s, n)[i][j] == s[i * n + j]
  {
    RowBounds(i, n);
  }

  /** A buffer that changes only inside one row changes that row of the matrix. */
  lemma OneRowChanged(before: seq<real>, after: seq<real>, n: nat, i: nat, a: nat, row: Vec)
    requires |before| == |after| == n * n && i < n && |row| == n && a == i * n && a + n <= n * n
    requires forall p :: 0 <= p < n * n && !(a <= p < a + n) ==> after[p] == before[p]
    requires forall p :: a <= p < a + n ==> after[p] == row[p - a]
    ensures Rows(after, n) == Rows(before, n)[i := row]
  {
    forall k | 0 <= k < n ensures Rows(after, n)[k] == Rows(before, n)[i := row][k] {
      RowBounds(k, n);
      if k != i {
        RowsDisjoint(i, k, n);
      }
    }
  }

  function Abs(x: real): (a: real)
    ensures a >= 0.0 && (a == x || a == -x)
  {
    if x >= 0.0 then x else -x
  }

  // --- the loops ---

  /** `gauss_copy`. */
  method Copy(input: array<real>, out: array<real>, n: nat)
    requires input.Length == out.Length == n * n && input != out
    modifies out
    ensures out[..] == input[..]
  {
    for i := 0 to n
      invariant 0 <= i * n <= n * n
      invariant out[..i * n] == input[..i * n]
    {
      RowBounds(i, n);
      for j := 0 to n
        invariant i * n + j <= n * n
        invariant out[..i * n + j] == input[..i * n + j]
      {
        out[i * n + j] := input[i * n + j];
      }
    }
    assert out[..n * n] == out[..] && input[..n * n] == input[..];
  }

  /** The loop that initialises `out`, and `gauss_fill_eye_matrix` of src/rtgauss.cpp. */
  method FillIdentity(out: array<real>, n: nat)
    requires out.Length == n * n
    modifies out
    ensures Rows(out[..], n) == Identity(n)
  {
    for i := 0 to n
      invariant forall k :: 0 <= k < i ==> Rows(out[..], n)[k] == Unit(n, k)
    {
      RowBounds(i, n);
      ghost var before, a := out[..], i * n;
      for j := 0 to n
        invariant forall p :: 0 <= p < |before| && !(a <= p < a + j) ==> out[p] == before[p]
        invariant forall p :: a <= p < a + j ==> out[p] == if i == p - a then 1.0 else 0.0
      {
        out[i * n + j] := if i == j then 1.0 else 0.0;
      }
      OneRowChanged(before, out[..], n, i, a, Unit(n, i));
    }
  }

  /** Partial pivoting: the row at or below `i` with the largest entry in column `i`. */
  method FindPivot(m: array<real>, n: nat, i: nat) returns (imax: nat)
    requires m.Length == n * n && i < n
    ensures i <= imax < n
    ensures forall r :: i <= r < n ==> Abs(Rows(m[..], n)[r][i]) <= Abs(Rows(m[..], n)[imax][i])
  {
    imax := i;
    for i2 := i + 1 to n
      invariant i <= imax < i2
      invariant forall r :: i <= r < i2 ==> Abs(Rows(m[..], n)[r][i]) <= Abs(Rows(m[..], n)[imax][i])
    {
      At(m[..], n, i2, i);
      At(m[..], n, imax, i);
      if Abs(m[i2 * n + i]) > Abs(m[imax * n + i]) {
        imax := i2;
      }
    }
  }

  /** Swaps rows `i` and `k`, element by element, in one buffer. */
  method SwapRows(m: array<real>, n: nat, i: nat, k: nat)
    requires m.Length == n * n && i < k < n
    modifies m
    ensures Rows(m[..], n) == Apply(Swap(i, k), old(Rows(m[..], n)), n, n)
  {
    RowBounds(i, n);
    RowBounds(k, n);
    MultiplesApart(i, k, n);
    ghost var before, a, b := m[..], i * n, k * n;
    for j := 0 to n
      invariant forall p :: 0 <= p < |before| && !(a <= p < a + j) && !(b <= p < b + j) ==> m[p] == before[p]
      invariant forall p :: a <= p < a + j ==> m[p] == before[p - a + b]
      invariant forall p :: b <= p < b + j ==> m[p] == before[p - b + a]
    {
      m[i * n + j], m[k * n + j] := m[k * n + j], m[i * n + j];
    }
    SwappedRows(before, m[..], n, i, k, a, b);
  }

  lemma SwappedRows(before: seq<real>, after: seq<real>, n: nat, i: nat, k: nat, a: nat, b: nat)
    requires |before| == |after| == n * n && i < k < n
    requires a == i * n && a + n <= b == k * n && b + n <= n * n
    requires forall p :: 0 <= p < n * n && !(a <= p < a + n) && !(b <= p < b + n) ==> after[p] == before[p]
    requires forall p :: a <= p < a + n ==> after[p] == before[p - a + b]
    requires forall p :: b <= p < b + n ==> after[p] == before[p - b + a]
    ensures Rows(after, n) == Apply(Swap(i, k), Rows(before, n), n, n)
  {
    var middle := seq(n * n, p requires 0 <= p < n * n => if a <= p < a + n then after[p] else before[p]);
    var x, y := Row(before, n, i), Row(before, n, k);
    OneRowChanged(before, middle, n, i, a, y);
    OneRowChanged(middle, after, n, k, b, x);
  }

  /** Divides row `i` of one buffer by `d`. */
  method DivideRow(m: array<real>, n: nat, i: nat, d: real)
    requires m.Length == n * n && i < n && d != 0.0
    modifies m
    ensures Rows(m[..], n) == Apply(Divide(i, d), old(Rows(m[..], n)), n, n)
  {
    RowBounds(i, n);
    ghost var before, a := m[..], i * n;
    ghost var row := Quotient(Row(before, n, i), d);
    for j := 0 to n
      invariant forall p :: 0 <= p < |before| && !(a <= p < a + j) ==> m[p] == before[p]
      invariant forall p :: a <= p < a + j ==> m[p] == row[p - a]
    {
      m[i * n + j] := m[i * n + j] / d;
    }
    OneRowChanged(before, m[..], n, i, a, row);
  }

  /** The inner loop of a subtraction, for the rows that start at `a` and `b`. */
  method SubtractSegment(m: array<real>, a: nat, b: nat, n: nat, f: real)
    requires a + n <= m.Length && b + n <= m.Length && (a + n <= b || b + n <= a)
    modifies m
    ensures forall p :: 0 <= p < m.Length && !(a <= p < a + n) ==> m[p] == old(m[p])
    ensures m[a..a + n] == Difference(old(m[a..a + n]), old(m[b..b + n]), f)
  {
    ghost var before := m[..];
    ghost var row := Difference(before[a..a + n], before[b..b + n], f);
    for j := 0 to n
      invariant forall p :: 0 <= p < m.Length && !(a <= p < a + j) ==> m[p] == before[p]
      invariant forall q :: 0 <= q < j ==> m[a + q] == row[q]
    {
      assert m[a + j] == before[a..a + n][j] && m[b + j] == before[b..b + n][j];
      m[a + j] := m[a + j] - m[b + j] * f;
    }
    assert m[a..a + n] == row;
  }

  /** Subtracts `f` times row `from` from row `to` in one buffer. */
  method SubtractRow(m: array<real>, n: nat, to: nat, from: nat, f: real)
    requires m.Length == n * n && to < n && from < n && to != from
    modifies m
    ensures Rows(m[..], n) == Apply(Subtract(to, from, f), old(Rows(m[..], n)), n, n)
  {
    RowBounds(to, n);
    RowBounds(from, n);
    RowsDisjoint(to, from, n);
    ghost var before := m[..];
    ghost var row := Difference(Row(before, n, to), Row(before, n, from), f);
    SubtractSegment(m, to * n, from * n, n, f);
    ghost var after, a := m[..], to * n;
    assert before[a..a + n] == Row(before, n, to) && after[a..a + n] == row;
    OneRowChanged(before, after, n, to, a, row);
  }

  // --- the shape of `m` ---

  /** Column `c` has its unit pivot, and zeros in the rows after it up to `k`. */
  predicate Reduced(m: Mat, n: nat, c: nat, k: nat) {
    UnitUpper(m, n, c) && c < k <= n && m[c][c] == 1.0 && forall r :: c < r < k ==> m[r][c] == 0.0
  }

  lemma PivotReduces(m: Mat, n: nat, c: nat)
    requires UnitUpper(m, n, c) && c < n && m[c][c] != 0.0
    ensures Reduced(Apply(Divide(c, m[c][c]), m, n, n), n, c, c + 1)
  {
  }

  lemma SubtractReduces(m: Mat, n: nat, c: nat, k: nat)
    requires Reduced(m, n, c, k) && k < n
    ensures Reduced(Apply(Subtract(k, c, m[k][c]), m, n, n), n, c, k + 1)
  {
  }

  lemma SwapKeepsUpper(m: Mat, n: nat, c: nat, k: nat)
    requires UnitUpper(m, n, c) && c < k < n
    ensures UnitUpper(Apply(Swap(c, k), m, n, n), n, c)
  {
  }

  /** Unit upper triangular, with the columns from `c` on already cleared above the diagonal, and column
      `c - 1` cleared in the rows from `k` up to the diagonal. */
  predicate Cleared(m: Mat, n: nat, c: nat, k: nat) {
    && UnitUpper(m, n, n) && k <= c <= n
    && (forall r, q :: 0 <= r < q < n && c <= q ==> m[r][q] == 0.0)
    && (c > 0 ==> forall r :: k <= r < c - 1 ==> m[r][c - 1] == 0.0)
  }

  lemma SubtractClears(m: Mat, n: nat, i: nat, k: nat, f: real)
    requires Cleared(m, n, i + 1, k + 1) && k < i && f == m[k][i]
    ensures Cleared(Apply(Subtract(k, i, f), m, n, n), n, i + 1, k)
  {
  }

  lemma ColumnCleared(m: Mat, n: nat, c: nat)
    requires Cleared(m, n, c + 1, 0)
    ensures Cleared(m, n, c, c)
  {
  }

  lemma ClearedIsIdentity(m: Mat, n: nat)
    requires Cleared(m, n, 0, 0)
    ensures m == Identity(n)
  {
    forall i | 0 <= i < n ensures m[i] == Identity(n)[i] {
    }
  }

  // --- gauss_invert, one column ---

  /** The swap that brings the pivot to the diagonal. */
  method PlacePivot(ghost a: Mat, m: array<real>, out: array<real>, ghost right: Mat, n: nat, i: nat)
    returns (ghost right': Mat)
    requires m.Length == out.Length == n * n && m != out && i < n
    requires Linked(a, Rows(m[..], n), Rows(out[..], n), right, n) && UnitUpper(Rows(m[..], n), n, i)
    modifies m, out
    ensures Linked(a, Rows(m[..], n), Rows(out[..], n), right', n) && UnitUpper(Rows(m[..], n), n, i)
    ensures forall r :: i <= r < n ==> Abs(Rows(m[..], n)[r][i]) <= Abs(Rows(m[..], n)[i][i])
  {
    right' := right;
    var imax := FindPivot(m, n, i);
    if i != imax {
      SwapKeepsUpper(Rows(m[..], n), n, i, imax);
      right' := SwapBoth(a, m, out, right, n, i, imax);
    }
  }

  /** The subtractions of row `i` from the rows below it. */
  method EliminateBelow(ghost a: Mat, m: array<real>, out: array<real>, ghost right: Mat, n: nat, i: nat)
    returns (ghost right': Mat)
    requires m.Length == out.Length == n * n && m != out && i < n
    requires Linked(a, Rows(m[..], n), Rows(out[..], n), right, n) && Reduced(Rows(m[..], n), n, i, i + 1)
    modifies m, out
    ensures Linked(a, Rows(m[..], n), Rows(out[..], n), right', n) && UnitUpper(Rows(m[..], n), n, i + 1)
  {
    right' := right;
    for i2 := i + 1 to n
      invariant Linked(a, Rows(m[..], n), Rows(out[..], n), right', n)
      invariant Reduced(Rows(m[..], n), n, i, i2)
    {
      At(m[..], n, i2, i);
      var f := m[i2 * n + i];
      SubtractReduces(Rows(m[..], n), n, i, i2);
      right' := SubtractBoth(a, m, out, right', n, i2, i, f);
    }
  }

  /** One iteration of the forward phase. It fails only when no pivot is left, and then `a` is singular. */
  method ForwardColumn(ghost a: Mat, m: array<real>, out: array<real>, ghost right: Mat, n: nat, i: nat)
    returns (ok: bool, ghost right': Mat)
    requires m.Length == out.Length == n * n && m != out && i < n
    requires Linked(a, Rows(m[..], n), Rows(out[..], n), right, n) && UnitUpper(Rows(m[..], n), n, i)
    modifies m, out
    ensures !ok ==> !Invertible(a, n)
    ensures ok ==> Linked(a, Rows(m[..], n), Rows(out[..], n), right', n) && UnitUpper(Rows(m[..], n), n, i + 1)
  {
    right' := PlacePivot(a, m, out, right, n, i);
    At(m[..], n, i, i);
    var d := m[i * n + i];
    if d == 0.0 {
      NoPivotIsSingular(a, Rows(m[..], n), Rows(out[..], n), right', n, i);
      return false, right';
    }
    PivotReduces(Rows(m[..], n), n, i);
    right' := DivideBoth(a, m, out, right', n, i, d);
    right' := EliminateBelow(a, m, out, right', n, i);
    ok := true;
  }

  /** Clears one element above the diagonal. */
  method ClearEntry(ghost a: Mat, m: array<real>, out: array<real>, ghost right: Mat, n: nat, i: nat, i2: nat)
    returns (ghost right': Mat)
    requires m.Length == out.Length == n * n && m != out && i2 < i < n
    requires Linked(a, Rows(m[..], n), Rows(out[..], n), right, n) && Cleared(Rows(m[..], n), n, i + 1, i2 + 1)
    modifies m, out
    ensures Linked(a, Rows(m[..], n), Rows(out[..], n), right', n) && Cleared(Rows(m[..], n), n, i + 1, i2)
  {
    At(m[..], n, i2, i);
    var f := m[i2 * n + i];
    SubtractClears(Rows(m[..], n), n, i, i2, f);
    right' := SubtractBoth(a, m, out, right, n, i2, i, f);
  }

  /** One iteration of the backward phase: clears column `i` above the diagonal. */
  method BackwardColumn(ghost a: Mat, m: array<real>, out: array<real>, ghost right: Mat, n: nat, i: nat)
    returns (ghost right': Mat)
    requires m.Length == out.Length == n * n && m != out && i < n
    requires Linked(a, Rows(m[..], n), Rows(out[..], n), right, n) && Cleared(Rows(m[..], n), n, i + 1, i + 1)
    modifies m, out
    ensures Linked(a, Rows(m[..], n), Rows(out[..], n), right', n) && Cleared(Rows(m[..], n), n, i, i)
  {
    right' := right;
    for i2 := i downto 0
      invariant Linked(a, Rows(m[..], n), Rows(out[..], n), right', n)
      invariant Cleared(Rows(m[..], n), n, i + 1, i2)
    {
      right' := ClearEntry(a, m, out, right', n, i, i2);
    }
    ColumnCleared(Rows(m[..], n), n, i);
  }

  method SwapBoth(ghost a: Mat, m: array<real>, out: array<real>, ghost right: Mat, n: nat, i: nat, k: nat)
    returns (ghost right': Mat)
    requires m.Length == out.Length == n * n && m != out && i < k < n
    requires Linked(a, Rows(m[..], n), Rows(out[..], n), right, n)
    modifies m, out
    ensures Rows(m[..], n) == Apply(Swap(i, k), old(Rows(m[..], n)), n, n)
    ensures Linked(a, Rows(m[..], n), Rows(out[..], n), right', n)
  {
    LinkedAfter(Swap(i, k), a, Rows(m[..], n), Rows(out[..], n), right, n);
    right' := AdjustAll(Swap(i, k), right, n);
    SwapRows(m, n, i, k);
    SwapRows(out, n, i, k);
  }

  method DivideBoth(ghost a: Mat, m: array<real>, out: array<real>, ghost right: Mat, n: nat, i: nat, d: real)
    returns (ghost right': Mat)
    requires m.Length == out.Length == n * n && m != out && i < n && d != 0.0
    requires Linked(a, Rows(m[..], n), Rows(out[..], n), right, n)
    modifies m, out
    ensures Rows(m[..], n) == Apply(Divide(i, d), old(Rows(m[..], n)), n, n)
    ensures Linked(a, Rows(m[..], n), Rows(out[..], n), right', n)
  {
    LinkedAfter(Divide(i, d), a, Rows(m[..], n), Rows(out[..], n), right, n);
    right' := AdjustAll(Divide(i, d), right, n);
    DivideRow(m, n, i, d);
    DivideRow(out, n, i, d);
  }

  method SubtractBoth(ghost a: Mat, m: array<real>, out: array<real>, ghost right: Mat, n: nat,
                      to: nat, from: nat, f: real)
    returns (ghost right': Mat)
    requires m.Length == out.Length == n * n && m != out && to < n && from < n && to != from
    requires Linked(a, Rows(m[..], n), Rows(out[..], n), right, n)
    modifies m, out
    ensures Rows(m[..], n) == Apply(Subtract(to, from, f), old(Rows(m[..], n)), n, n)
    ensures Linked(a, Rows(m[..], n), Rows(out[..], n), right', n)
  {
    LinkedAfter(Subtract(to, from, f), a, Rows(m[..], n), Rows(out[..], n), right, n);
    right' := AdjustAll(Subtract(to, from, f), right, n);
    SubtractRow(m, n, to, from, f);
    SubtractRow(out, n, to, from, f);
  }

  // --- gauss_invert, outermost loops ---

  /** `gauss_invert`. Where the C code would divide by a zero pivot, the method stops and returns false.
      That happens exactly for the matrices that have no inverse; for all others `out` is the inverse, on
      both sides. */
  method Invert(input: array<real>, out: array<real>, n: nat) returns (ok: bool)
    requires input.Length == out.Length == n * n && input != out
    modifies out
    ensures ok <==> Invertible(Rows(input[..], n), n)
    ensures ok ==> Inverts(Rows(out[..], n), Rows(input[..], n), n)
  {
    ghost var a := Rows(input[..], n);
    var m := new real[n * n];
    Copy(input, m, n);
    FillIdentity(out, n);
    ghost var right := Identity(n);
    LinkedInitially(a, n);
    for i := 0 to n
      invariant Linked(a, Rows(m[..], n), Rows(out[..], n), right, n)
      invariant UnitUpper(Rows(m[..], n), n, i)
    {
      ok, right := ForwardColumn(a, m, out, right, n, i);
      if !ok {
        return false;
      }
    }
    for i := n downto 0
      invariant Linked(a, Rows(m[..], n), Rows(out[..], n), right, n)
      invariant Cleared(Rows(m[..], n), n, i, i)
    {
      right := BackwardColumn(a, m, out, right, n, i);
    }
    ClearedIsIdentity(Rows(m[..], n), n);
    LinkedToIdentity(a, Rows(out[..], n), right, n);
    ok := true;
  }
}
