/**
 * gaussian_elimination: forward elimination without pivoting followed by
 * back substitution, over exact reals. The value-level functions below
 * describe each pass; the method runs the source's loops over local copies
 * of A and b and is proved to return the functions' solution, which solves
 * the original system whenever every pivot is nonzero.
 */
module LinearSystem {
  import opened VectorSum

  type Matrix = seq<seq<real>>

  /** n rows, each with at least n entries (only the first n are read). */
  predicate Shaped(a: Matrix, n: nat) {
    |a| == n && forall r :: 0 <= r < n ==> |a[r]| >= n
  }

  /** x solves the first n equations of a x = b. */
  predicate Solves(a: Matrix, b: seq<real>, x: seq<real>, n: nat)
    requires Shaped(a, n) && |b| >= n && |x| >= n
  {
    forall r :: 0 <= r < n ==> RangeDot(a[r], x, 0, n) == b[r]
  }

  predicate UpperTriangular(u: Matrix, n: nat)
    requires Shaped(u, n)
  {
    forall r, col :: 0 <= col < r < n ==> u[r][col] == 0.0
  }

  /**
   * A[k][i] / A[i][i]. The zero-pivot branch never arises under
   * NonzeroPivots; it only makes the function total.
   */
  function Factor(m: Matrix, n: nat, i: nat, k: nat): real
    requires Shaped(m, n) && i < n && k < n
  {
    if m[i][i] == 0.0 then 0.0 else m[k][i] / m[i][i]
  }

  /** Row k minus f times row i, on columns i <= j < hi only. */
  function RowOp(rowK: seq<real>, rowI: seq<real>, f: real, i: nat, hi: nat): (r: seq<real>)
    requires hi <= |rowK| && hi <= |rowI|
    ensures |r| == |rowK|
  {
    seq(|rowK|, j requires 0 <= j < |rowK| => if i <= j < hi then rowK[j] - f * rowI[j] else rowK[j])
  }

  /** Pass i of forward elimination on the matrix: every row k > i is reduced by row i. */
  function MatPass(m: Matrix, n: nat, i: nat): (r: Matrix)
    requires Shaped(m, n) && i < n
    ensures Shaped(r, n)
  {
    seq(n, k requires 0 <= k < n => if k > i then RowOp(m[k], m[i], Factor(m, n, i, k), i, n) else m[k])
  }

  /** Pass i on the right-hand side, with the factors of the matrix before the pass. */
  function RhsPass(m: Matrix, c: seq<real>, n: nat, i: nat): (r: seq<real>)
    requires Shaped(m, n) && |c| >= n && i < n
    ensures |r| == |c|
  {
    seq(|c|, k requires 0 <= k < |c| => if i < k < n then c[k] - Factor(m, n, i, k) * c[i] else c[k])
  }

  /** The matrix after passes 0 .. p - 1. */
  function ForwardM(a: Matrix, n: nat, p: nat): (r: Matrix)
    requires Shaped(a, n) && p <= n
    ensures Shaped(r, n)
    decreases p
  {
    if p == 0 then a else MatPass(ForwardM(a, n, p - 1), n, p - 1)
  }

  /** The right-hand side after passes 0 .. p - 1. */
  function ForwardC(a: Matrix, b: seq<real>, n: nat, p: nat): (r: seq<real>)
    requires Shaped(a, n) && |b| >= n && p <= n
    ensures |r| == |b|
    decreases p
  {
    if p == 0 then b else RhsPass(ForwardM(a, n, p - 1), ForwardC(a, b, n, p - 1), n, p - 1)
  }

  /** The pivot that pass i divides by: entry (i, i) after passes 0 .. i - 1. */
  function Pivot(a: Matrix, n: nat, i: nat): real
    requires Shaped(a, n) && i < n
  {
    ForwardM(a, n, i)[i][i]
  }

  predicate NonzeroPivots(a: Matrix, n: nat)
    requires Shaped(a, n)
  {
    forall i :: 0 <= i < n ==> Pivot(a, n, i) != 0.0
  }

  /**
   * The solution vector after back substitution has filled indices
   * i .. n - 1 (the lower indices still hold the initial 0.0).
   */
  function BackSubst(u: Matrix, c: seq<real>, n: nat, i: nat): (x: seq<real>)
    requires Shaped(u, n) && |c| >= n && i <= n
    requires forall r :: i <= r < n ==> u[r][r] != 0.0
    ensures |x| == n
    decreases n - i
  {
    if i == n then seq(n, _ => 0.0)
    else
      var x' := BackSubst(u, c, n, i + 1);
      x'[i := (c[i] - RangeDot(u[i], x', i + 1, n)) / u[i][i]]
  }

  // ---------------------------------------------------------------------
  // Forward elimination

  /** Pass i changes only rows k > i, and in them only columns i <= j < n. */
  lemma MatPassFrame(m: Matrix, n: nat, i: nat, k: nat, j: nat)
    requires Shaped(m, n) && i < n && k < n && j < |m[k]|
    ensures k <= i ==> MatPass(m, n, i)[k] == m[k]
    ensures k > i && !(i <= j < n) ==> MatPass(m, n, i)[k][j] == m[k][j]
    ensures k > i && i <= j < n ==> MatPass(m, n, i)[k][j] == m[k][j] - Factor(m, n, i, k) * m[i][j]
  {
  }

  /** Row k > i after pass i, and entry k of the right-hand side. */
  lemma PassEntries(m: Matrix, c: seq<real>, n: nat, i: nat, k: nat)
    requires Shaped(m, n) && |c| >= n && i < k < n
    ensures MatPass(m, n, i)[k] == RowOp(m[k], m[i], Factor(m, n, i, k), i, n)
    ensures RhsPass(m, c, n, i)[k] == c[k] - Factor(m, n, i, k) * c[i]
  {
  }

  /** Pass i leaves rows 0 .. i and the entries of c outside i + 1 .. n - 1 as they were. */
  lemma PassUnchanged(m: Matrix, c: seq<real>, n: nat, i: nat)
    requires Shaped(m, n) && |c| >= n && i < n
    ensures forall r :: 0 <= r <= i ==> MatPass(m, n, i)[r] == m[r]
    ensures forall r :: 0 <= r < |c| && !(i < r < n) ==> RhsPass(m, c, n, i)[r] == c[r]
  {
  }

  /** Pass i stopped before row hi: rows i < k < hi reduced, the others as in m. */
  ghost function PassedRows(m: Matrix, n: nat, i: nat, hi: nat): (r: Matrix)
    requires Shaped(m, n) && i < n
  {
    seq(n, k requires 0 <= k < n => if i < k < hi then RowOp(m[k], m[i], Factor(m, n, i, k), i, n) else m[k])
  }

  /** The right-hand side of pass i stopped before entry hi. */
  ghost function PassedRhs(m: Matrix, c: seq<real>, n: nat, i: nat, hi: nat): (r: seq<real>)
    requires Shaped(m, n) && |c| >= n && i < n
  {
    seq(|c|, k requires 0 <= k < |c| => if i < k < hi && k < n then c[k] - Factor(m, n, i, k) * c[i] else c[k])
  }

  /** Before the k loop nothing is reduced; after it, the whole pass is done. */
  lemma PassedEnds(m: Matrix, c: seq<real>, n: nat, i: nat)
    requires Shaped(m, n) && |c| >= n && i < n
    ensures PassedRows(m, n, i, i + 1) == m && PassedRhs(m, c, n, i, i + 1) == c
    ensures PassedRows(m, n, i, n) == MatPass(m, n, i) && PassedRhs(m, c, n, i, n) == RhsPass(m, c, n, i)
  {
    assert PassedRows(m, n, i, i + 1) == m;
    assert PassedRhs(m, c, n, i, i + 1) == c;
  }

  /** One more iteration of the k loop replaces row k by its reduction. */
  lemma PassedRowsStep(m: Matrix, n: nat, i: nat, k: nat)
    requires Shaped(m, n) && i < k < n
    ensures PassedRows(m, n, i, k + 1) == PassedRows(m, n, i, k)[k := RowOp(m[k], m[i], Factor(m, n, i, k), i, n)]
  {
    var rows, rows' := PassedRows(m, n, i, k + 1), PassedRows(m, n, i, k)[k := RowOp(m[k], m[i], Factor(m, n, i, k), i, n)];
    forall r | 0 <= r < n
      ensures rows[r] == rows'[r]
    {
    }
    assert |rows| == |rows'|;
  }

  /** One more iteration of the k loop replaces entry k of the right-hand side likewise. */
  lemma PassedRhsStep(m: Matrix, c: seq<real>, n: nat, i: nat, k: nat)
    requires Shaped(m, n) && |c| >= n && i < k < n
    ensures PassedRhs(m, c, n, i, k + 1) == PassedRhs(m, c, n, i, k)[k := c[k] - Factor(m, n, i, k) * c[i]]
  {
    var rhs, rhs' := PassedRhs(m, c, n, i, k + 1), PassedRhs(m, c, n, i, k)[k := c[k] - Factor(m, n, i, k) * c[i]];
    forall r | 0 <= r < |c|
      ensures rhs[r] == rhs'[r]
    {
    }
    assert |rhs| == |rhs'|;
  }

  /** Pass p - 1 leaves row i < p as it was. */
  lemma ForwardStepKeepsRow(a: Matrix, n: nat, p: nat, i: nat)
    requires Shaped(a, n) && i < p <= n
    ensures ForwardM(a, n, p)[i] == ForwardM(a, n, p - 1)[i]
  {
    var m := ForwardM(a, n, p - 1);
    assert ForwardM(a, n, p) == MatPass(m, n, p - 1);
  }

  /** Row i is final once pass i - 1 is done. */
  lemma {:induction false} ForwardRowStable(a: Matrix, n: nat, i: nat, p: nat)
    requires Shaped(a, n) && i < n && i <= p <= n
    ensures ForwardM(a, n, p)[i] == ForwardM(a, n, i)[i]
    decreases p
  {
    if p == i {
    } else {
      ForwardRowStable(a, n, i, p - 1);
      ForwardStepKeepsRow(a, n, p, i);
    }
  }

  /** Subtracting a / d times d from a leaves nothing. */
  lemma PivotCancels(a: real, d: real)
    requires d != 0.0
    ensures a - (a / d) * d == 0.0
  {
  }

  /** With a nonzero pivot, pass i zeroes column i below the diagonal and keeps the earlier zeros. */
  lemma PassZeroesColumn(m: Matrix, n: nat, i: nat)
    requires Shaped(m, n) && i < n && m[i][i] != 0.0
    requires forall r, col :: 0 <= col < i && col < r < n ==> m[r][col] == 0.0
    ensures forall r, col :: 0 <= col <= i && col < r < n ==> MatPass(m, n, i)[r][col] == 0.0
  {
    var p := MatPass(m, n, i);
    forall r, col | 0 <= col < i && col < r < n
      ensures p[r][col] == 0.0
    {
      MatPassFrame(m, n, i, r, col);
    }
    forall r | i < r < n
      ensures p[r][i] == 0.0
    {
      MatPassFrame(m, n, i, r, i);
      var a, d := m[r][i], m[i][i];
      assert Factor(m, n, i, r) == a / d;
      PivotCancels(a, d);
    }
  }

  /** After passes 0 .. p - 1 with nonzero pivots, columns < p are zero below the diagonal. */
  lemma {:induction false} ForwardZeros(a: Matrix, n: nat, p: nat)
    requires Shaped(a, n) && p <= n
    requires forall i :: 0 <= i < p ==> Pivot(a, n, i) != 0.0
    ensures forall r, col :: 0 <= col < p && col < r < n ==> ForwardM(a, n, p)[r][col] == 0.0
    decreases p
  {
    if p > 0 {
      var q := p - 1;
      ForwardZeros(a, n, q);
      var m := ForwardM(a, n, q);
      assert m[q][q] == Pivot(a, n, q);
      PassZeroesColumn(m, n, q);
      assert ForwardM(a, n, p) == MatPass(m, n, q);
    }
  }

  /** Forward elimination produces an upper-triangular matrix. */
  lemma ForwardUpperTriangular(a: Matrix, n: nat)
    requires Shaped(a, n) && NonzeroPivots(a, n)
    ensures UpperTriangular(ForwardM(a, n, n), n)
  {
    ForwardZeros(a, n, n);
  }

  /** The diagonal of the eliminated matrix is the sequence of pivots. */
  lemma ForwardDiagonal(a: Matrix, n: nat)
    requires Shaped(a, n)
    ensures forall i :: 0 <= i < n ==> ForwardM(a, n, n)[i][i] == Pivot(a, n, i)
  {
    forall i | 0 <= i < n
      ensures ForwardM(a, n, n)[i][i] == Pivot(a, n, i)
    {
      ForwardRowStable(a, n, i, n);
    }
  }

  /** Where row i is zero, reducing row r by it changes nothing, so RowOp is a full linear combination. */
  lemma RowOpLinear(rowR: seq<real>, rowI: seq<real>, f: real, i: nat, n: nat)
    requires i <= n <= |rowR| && n <= |rowI|
    requires forall col :: 0 <= col < i ==> rowI[col] == 0.0
    ensures forall j :: 0 <= j < n ==> RowOp(rowR, rowI, f, i, n)[j] == rowR[j] - f * rowI[j]
  {
    forall j | 0 <= j < n
      ensures RowOp(rowR, rowI, f, i, n)[j] == rowR[j] - f * rowI[j]
    {
      if j < i {
        assert rowI[j] == 0.0;
      }
    }
  }

  /** One reduced row: if row r after the pass is satisfied, so is row r before it. */
  lemma PassRowKeepsSolution(rowR: seq<real>, rowI: seq<real>, cr: real, ci: real, f: real,
                             n: nat, i: nat, x: seq<real>)
    requires n <= |rowR| && n <= |rowI| && n <= |x| && i < n
    requires forall col :: 0 <= col < i ==> rowI[col] == 0.0
    requires RangeDot(rowI, x, 0, n) == ci
    requires RangeDot(RowOp(rowR, rowI, f, i, n), x, 0, n) == cr - f * ci
    ensures RangeDot(rowR, x, 0, n) == cr
  {
    var u := RowOp(rowR, rowI, f, i, n);
    RowOpLinear(rowR, rowI, f, i, n);
    RangeDotLinear(u, rowR, rowI, f, x, 0, n);
  }

  /**
   * A solution of the system after pass i solves the system before it,
   * provided row i is already zero left of the diagonal.
   */
  lemma PassKeepsSolutions(m: Matrix, c: seq<real>, n: nat, i: nat, x: seq<real>)
    requires Shaped(m, n) && |c| >= n && i < n && |x| >= n
    requires forall col :: 0 <= col < i ==> m[i][col] == 0.0
    requires Solves(MatPass(m, n, i), RhsPass(m, c, n, i), x, n)
    ensures Solves(m, c, x, n)
  {
    var m', c' := MatPass(m, n, i), RhsPass(m, c, n, i);
    forall r | 0 <= r < n
      ensures RangeDot(m[r], x, 0, n) == c[r]
    {
      assert RangeDot(m'[r], x, 0, n) == c'[r];
      PassUnchanged(m, c, n, i);
      if r > i {
        assert RangeDot(m'[i], x, 0, n) == c'[i];
        PassEntries(m, c, n, i, r);
        PassRowKeepsSolution(m[r], m[i], c[r], c[i], Factor(m, n, i, r), n, i, x);
      }
    }
  }

  /** Every solution of the eliminated system after p passes solves the original one. */
  lemma {:induction false} ForwardKeepsSolutions(a: Matrix, b: seq<real>, n: nat, p: nat, x: seq<real>)
    requires Shaped(a, n) && |b| >= n && p <= n && |x| >= n
    requires forall i :: 0 <= i < p ==> Pivot(a, n, i) != 0.0
    requires Solves(ForwardM(a, n, p), ForwardC(a, b, n, p), x, n)
    ensures Solves(a, b, x, n)
    decreases p
  {
    if p > 0 {
      var q := p - 1;
      var m, c := ForwardM(a, n, q), ForwardC(a, b, n, q);
      assert ForwardM(a, n, p) == MatPass(m, n, q);
      assert ForwardC(a, b, n, p) == RhsPass(m, c, n, q);
      ForwardZeros(a, n, q);
      assert forall col :: 0 <= col < q ==> m[q][col] == 0.0;
      PassKeepsSolutions(m, c, n, q, x);
      ForwardKeepsSolutions(a, b, n, q, x);
    }
  }

  // ---------------------------------------------------------------------
  // Back substitution

  /** Entry j of the vector is fixed once back substitution has reached it. */
  lemma {:induction false} BackSubstStable(u: Matrix, c: seq<real>, n: nat, i: nat, j: nat)
    requires Shaped(u, n) && |c| >= n && i <= j < n
    requires forall r :: i <= r < n ==> u[r][r] != 0.0
    ensures BackSubst(u, c, n, i)[j] == BackSubst(u, c, n, j)[j]
    decreases j - i
  {
    if i < j { BackSubstStable(u, c, n, i + 1, j); }
  }

  /** Division by a nonzero real is undone by multiplication. */
  lemma MulDiv(p: real, q: real)
    requires q != 0.0
    ensures q * (p / q) == p
  {
  }

  /**
   * One row of a triangular system: a row zero left of its diagonal entry is
   * satisfied by x when row[r] * x[r] makes up what the entries right of r
   * (where x agrees with x') leave of cr.
   */
  lemma TriangularRowSolves(row: seq<real>, x: seq<real>, x': seq<real>, cr: real, r: nat, n: nat)
    requires r < n <= |row| && n <= |x| && n <= |x'|
    requires forall j :: 0 <= j < r ==> row[j] == 0.0
    requires forall j :: r + 1 <= j < n ==> x[j] == x'[j]
    requires row[r] * x[r] == cr - RangeDot(row, x', r + 1, n)
    ensures RangeDot(row, x, 0, n) == cr
  {
    RangeDotSplit(row, x, 0, r, n);
    RangeDotSplit(row, x, r, r + 1, n);
    RangeDotZeroRow(row, x, 0, r);
    RangeDotCongruent(row, row, x, x', r + 1, n);
    assert RangeDot(row, x, r, r + 1) == row[r] * x[r];
  }

  /** The finished vector agrees with the partial one on the indices already filled. */
  lemma BackSubstAgrees(u: Matrix, c: seq<real>, n: nat, i: nat)
    requires Shaped(u, n) && |c| >= n && i <= n
    requires forall q :: 0 <= q < n ==> u[q][q] != 0.0
    ensures forall j :: i <= j < n ==> BackSubst(u, c, n, 0)[j] == BackSubst(u, c, n, i)[j]
  {
    forall j | i <= j < n
      ensures BackSubst(u, c, n, 0)[j] == BackSubst(u, c, n, i)[j]
    {
      BackSubstStable(u, c, n, 0, j);
      BackSubstStable(u, c, n, i, j);
    }
  }

  /** Row r of an upper-triangular system is satisfied by the back-substituted vector. */
  lemma BackSubstRowSolves(u: Matrix, c: seq<real>, n: nat, r: nat)
    requires Shaped(u, n) && |c| >= n && r < n
    requires forall col :: 0 <= col < r ==> u[r][col] == 0.0
    requires forall q :: 0 <= q < n ==> u[q][q] != 0.0
    ensures RangeDot(u[r], BackSubst(u, c, n, 0), 0, n) == c[r]
  {
    var x, x1 := BackSubst(u, c, n, 0), BackSubst(u, c, n, r + 1);
    var p, v := u[r][r], c[r] - RangeDot(u[r], x1, r + 1, n);
    BackSubstStable(u, c, n, 0, r);
    assert x[r] == v / p;
    MulDiv(v, p);
    BackSubstAgrees(u, c, n, r + 1);
    TriangularRowSolves(u[r], x, x1, c[r], r, n);
  }

  /** Back substitution solves an upper-triangular system with nonzero diagonal. */
  lemma BackSubstSolves(u: Matrix, c: seq<real>, n: nat)
    requires Shaped(u, n) && |c| >= n && UpperTriangular(u, n)
    requires forall r :: 0 <= r < n ==> u[r][r] != 0.0
    ensures Solves(u, c, BackSubst(u, c, n, 0), n)
  {
    forall r | 0 <= r < n
      ensures RangeDot(u[r], BackSubst(u, c, n, 0), 0, n) == c[r]
    {
      BackSubstRowSolves(u, c, n, r);
    }
  }

  /** The vector gaussian_elimination returns. */
  function Solution(a: Matrix, b: seq<real>, n: nat): (x: seq<real>)
    requires Shaped(a, n) && |b| >= n && NonzeroPivots(a, n)
    ensures |x| == n
  {
    ForwardDiagonal(a, n);
    BackSubst(ForwardM(a, n, n), ForwardC(a, b, n, n), n, 0)
  }

  /** With nonzero pivots, elimination followed by back substitution solves a x = b. */
  lemma SolutionSolves(a: Matrix, b: seq<real>, n: nat)
    requires Shaped(a, n) && |b| >= n && NonzeroPivots(a, n)
    ensures Solves(a, b, Solution(a, b, n), n)
  {
    ForwardDiagonal(a, n);
    ForwardUpperTriangular(a, n);
    BackSubstSolves(ForwardM(a, n, n), ForwardC(a, b, n, n), n);
    ForwardKeepsSolutions(a, b, n, n, Solution(a, b, n));
  }

  // ---------------------------------------------------------------------
  // The imperative algorithm

  /** Extending RowOp by one column is one more in-place update. */
  lemma RowOpStep(rowK: seq<real>, rowI: seq<real>, f: real, i: nat, j: nat)
    requires i <= j < |rowK| && j < |rowI|
    ensures RowOp(rowK, rowI, f, i, j + 1) == RowOp(rowK, rowI, f, i, j)[j := rowK[j] - f * rowI[j]]
  {
    var lhs, rhs := RowOp(rowK, rowI, f, i, j + 1), RowOp(rowK, rowI, f, i, j)[j := rowK[j] - f * rowI[j]];
    assert |lhs| == |rhs|;
    forall q | 0 <= q < |lhs|
      ensures lhs[q] == rhs[q]
    {
    }
  }

  /** The innermost loop: A[k][j] -= factor * A[i][j] for i <= j < n. */
  method ReduceRow(rowK: seq<real>, rowI: seq<real>, factor: real, i: nat, n: nat) returns (r: seq<real>)
    requires i <= n <= |rowK| && n <= |rowI|
    ensures r == RowOp(rowK, rowI, factor, i, n)
    ensures forall j :: 0 <= j < |r| && !(i <= j < n) ==> r[j] == rowK[j]
  {
    r := rowK;
    assert r == RowOp(rowK, rowI, factor, i, i);
    var j := i;
    while j < n
      invariant i <= j <= n
      invariant r == RowOp(rowK, rowI, factor, i, j)
    {
      RowOpStep(rowK, rowI, factor, i, j);
      r := r[j := r[j] - factor * rowI[j]];
      j := j + 1;
    }
  }

  /** The body of the k loop: the factor A[k][i] / A[i][i], row k reduced by it, and b[k] likewise. */
  method EliminateRow(rowK: seq<real>, rowI: seq<real>, bk: real, bi: real, i: nat, n: nat)
    returns (factor: real, row: seq<real>, bk': real)
    requires i < n <= |rowK| && n <= |rowI| && rowI[i] != 0.0
    ensures factor == rowK[i] / rowI[i]
    ensures row == RowOp(rowK, rowI, factor, i, n)
    ensures bk' == bk - factor * bi
  {
    factor := rowK[i] / rowI[i];
    row := ReduceRow(rowK, rowI, factor, i, n);
    bk' := bk - factor * bi;
  }

  /** One pass of the forward loop: every row k > i is reduced by row i, and so is b. */
  method EliminateBelow(M: Matrix, c: seq<real>, n: nat, i: nat) returns (M': Matrix, c': seq<real>)
    requires Shaped(M, n) && |c| >= n && i < n
    requires M[i][i] != 0.0
    ensures M' == MatPass(M, n, i) && c' == RhsPass(M, c, n, i)
  {
    PassedEnds(M, c, n, i);
    M', c' := M, c;
    var k := i + 1;
    while k < n
      invariant i + 1 <= k <= n
      invariant M' == PassedRows(M, n, i, k)
      invariant c' == PassedRhs(M, c, n, i, k)
    {
      PassedRowsStep(M, n, i, k);
      PassedRhsStep(M, c, n, i, k);
      assert M'[k] == M[k] && M'[i] == M[i] && c'[k] == c[k] && c'[i] == c[i];
      var factor, row, bk := EliminateRow(M'[k], M'[i], c'[k], c'[i], i, n);
      assert factor == Factor(M, n, i, k);
      assert bk == c[k] - Factor(M, n, i, k) * c[i];
      M' := M'[k := row];
      c' := c'[k := bk];
      k := k + 1;
    }
  }

  /** The inner back-substitution loop: x[r] = b[r], then x[r] -= A[r][j] * x[j] for r < j < n. */
  method SubtractSolved(row: seq<real>, x: seq<real>, cr: real, r: nat, n: nat) returns (x': seq<real>)
    requires r < n <= |row| && n <= |x|
    ensures x' == x[r := cr - RangeDot(row, x, r + 1, n)]
  {
    x' := x[r := cr];
    var j := r + 1;
    while j < n
      invariant r + 1 <= j <= n
      invariant x' == x[r := cr - RangeDot(row, x, r + 1, j)]
    {
      ghost var d := RangeDot(row, x, r + 1, j);
      ghost var t := row[j] * x[j];
      assert RangeDot(row, x, r + 1, j + 1) == d + t;
      x' := x'[r := x'[r] - row[j] * x'[j]];
      assert x'[r] == (cr - d) - t;
      j := j + 1;
    }
  }

  /** The back-substitution loop, from the last row up. */
  method BackSubstitute(U: Matrix, c: seq<real>, n: nat) returns (x: seq<real>)
    requires Shaped(U, n) && |c| >= n
    requires forall r :: 0 <= r < n ==> U[r][r] != 0.0
    ensures x == BackSubst(U, c, n, 0)
  {
    x := seq(n, _ => 0.0);
    var r: int := n - 1;
    while r >= 0
      invariant -1 <= r < n
      invariant x == BackSubst(U, c, n, r + 1)
    {
      x := SubtractSolved(U[r], x, c[r], r, n);
      x := x[r := x[r] / U[r][r]];
      assert x == BackSubst(U, c, n, r);
      r := r - 1;
    }
  }

  /** The forward-elimination loop of gaussian_elimination, over passes i = 0 .. n - 1. */
  method ForwardEliminate(A: Matrix, b: seq<real>, n: nat) returns (M: Matrix, c: seq<real>)
    requires Shaped(A, n) && |b| >= n
    requires NonzeroPivots(A, n)
    ensures M == ForwardM(A, n, n) && c == ForwardC(A, b, n, n)
  {
    M, c := A, b;
    var i := 0;
    while i < n
      invariant 0 <= i <= n
      invariant M == ForwardM(A, n, i) && c == ForwardC(A, b, n, i)
    {
      assert M[i][i] != 0.0 by {
        assert Pivot(A, n, i) == M[i][i];
      }
      ghost var M0, c0 := M, c;
      M, c := EliminateBelow(M, c, n, i);
      assert ForwardM(A, n, i + 1) == MatPass(M0, n, i);
      assert ForwardC(A, b, n, i + 1) == RhsPass(M0, c0, n, i);
      i := i + 1;
    }
  }

  /** gaussian_elimination(A, b): forward elimination on copies of A and b, then back substitution. */
  method GaussianElimination(A: Matrix, b: seq<real>) returns (x: seq<real>)
    requires Shaped(A, |A|) && |b| >= |A|
    requires NonzeroPivots(A, |A|)
    ensures x == Solution(A, b, |A|)
    ensures |x| == |A| && Solves(A, b, x, |A|)
  {
    var n := |A|;
    var M, c := ForwardEliminate(A, b, n);
    ForwardDiagonal(A, n);
    x := BackSubstitute(M, c, n);
    SolutionSolves(A, b, n);
  }

  // ---------------------------------------------------------------------
  // The system in main

  function MainA(): Matrix {
    [[2.0, -1.0, 1.0], [1.0, 3.0, 2.0], [1.0, -1.0, 2.0]]
  }

  function MainB(): seq<real> {
    [3.0, 13.0, 2.0]
  }

  /** A pass over a 3 x 3 matrix, written out row by row. */
  lemma MatPass3(m: Matrix, i: nat)
    requires Shaped(m, 3) && i < 3 && |m[0]| == 3 && |m[1]| == 3 && |m[2]| == 3
    ensures MatPass(m, 3, i) == [
      m[0],
      if 1 > i then RowOp(m[1], m[i], Factor(m, 3, i, 1), i, 3) else m[1],
      if 2 > i then RowOp(m[2], m[i], Factor(m, 3, i, 2), i, 3) else m[2]]
  {
  }

  /** RowOp on rows of length 3, written out entry by entry. */
  lemma RowOp3(rowK: seq<real>, rowI: seq<real>, f: real, i: nat)
    requires |rowK| == 3 && |rowI| == 3
    ensures RowOp(rowK, rowI, f, i, 3) == [
      if i <= 0 then rowK[0] - f * rowI[0] else rowK[0],
      if i <= 1 then rowK[1] - f * rowI[1] else rowK[1],
      if i <= 2 then rowK[2] - f * rowI[2] else rowK[2]]
  {
    var r := RowOp(rowK, rowI, f, i, 3);
    assert r[0] == (if i <= 0 then rowK[0] - f * rowI[0] else rowK[0]);
    assert r[1] == (if i <= 1 then rowK[1] - f * rowI[1] else rowK[1]);
    assert r[2] == (if i <= 2 then rowK[2] - f * rowI[2] else rowK[2]);
  }

  /** Elimination of the system in main: pivots 2, 7/2 and 12/7, right-hand side (3, 23/2, 15/7). */
  lemma MainSystemEliminated()
    ensures Shaped(MainA(), 3)
    ensures ForwardM(MainA(), 3, 3) == [[2.0, -1.0, 1.0], [0.0, 3.5, 1.5], [0.0, 0.0, 12.0 / 7.0]]
    ensures ForwardC(MainA(), MainB(), 3, 3) == [3.0, 11.5, 15.0 / 7.0]
    ensures NonzeroPivots(MainA(), 3)
  {
    var a := MainA();
    var m1 := ForwardM(a, 3, 1);
    assert m1 == MatPass(a, 3, 0);
    MatPass3(a, 0);
    assert Factor(a, 3, 0, 1) == 0.5 && Factor(a, 3, 0, 2) == 0.5;
    RowOp3(a[1], a[0], 0.5, 0);
    RowOp3(a[2], a[0], 0.5, 0);
    assert m1 == [[2.0, -1.0, 1.0], [0.0, 3.5, 1.5], [0.0, -0.5, 1.5]];
    var m2 := ForwardM(a, 3, 2);
    assert m2 == MatPass(m1, 3, 1);
    MatPass3(m1, 1);
    assert Factor(m1, 3, 1, 2) == -1.0 / 7.0;
    RowOp3(m1[2], m1[1], -1.0 / 7.0, 1);
    assert m2 == [[2.0, -1.0, 1.0], [0.0, 3.5, 1.5], [0.0, 0.0, 12.0 / 7.0]];
    assert ForwardM(a, 3, 3) == MatPass(m2, 3, 2);
    MatPass3(m2, 2);
    var c1 := ForwardC(a, MainB(), 3, 1);
    assert c1 == RhsPass(a, MainB(), 3, 0);
    assert c1 == [3.0, 11.5, 0.5];
    var c2 := ForwardC(a, MainB(), 3, 2);
    assert c2 == RhsPass(m1, c1, 3, 1);
    assert c2 == [3.0, 11.5, 15.0 / 7.0];
    assert ForwardC(a, MainB(), 3, 3) == RhsPass(m2, c2, 3, 2);
    assert Pivot(a, 3, 0) == 2.0 && Pivot(a, 3, 1) == 3.5 && Pivot(a, 3, 2) == 12.0 / 7.0;
  }

  /** The system in main has exactly one solution, (9/4, 11/4, 5/4). */
  lemma MainSystemUniqueSolution(x: seq<real>)
    requires |x| == 3
    requires Shaped(MainA(), 3)
    ensures Solves(MainA(), MainB(), x, 3) <==> x == [2.25, 2.75, 1.25]
  {
    var a := MainA();
    assert RangeDot(a[0], x, 0, 3) == 2.0 * x[0] - x[1] + x[2];
    assert RangeDot(a[1], x, 0, 3) == x[0] + 3.0 * x[1] + 2.0 * x[2];
    assert RangeDot(a[2], x, 0, 3) == x[0] - x[1] + 2.0 * x[2];
  }

  /** main: solving the example system returns (9/4, 11/4, 5/4), not the (1, 3, 1) its comment claims. */
  method SolveMainSystem() returns (x: seq<real>)
    ensures x == [2.25, 2.75, 1.25]
    ensures x != [1.0, 3.0, 1.0]
  {
    MainSystemEliminated();
    x := GaussianElimination(MainA(), MainB());
    MainSystemUniqueSolution(x);
  }
}
