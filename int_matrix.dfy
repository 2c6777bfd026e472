/**
 * multiply_matrices: C = A B over int, with C zero-initialised and each
 * entry accumulated over the inner dimension B.size().
 */
module IntMatrix {

  type IntMatrix = seq<seq<int>>

  /**
   * What the loops index: B is non-empty (cols is B[0].size()), every row
   * of A has at least B.size() entries and every row of B at least cols.
   */
  predicate Conformable(a: IntMatrix, b: IntMatrix) {
    |b| > 0 &&
    (forall i :: 0 <= i < |a| ==> |a[i]| >= |b|) &&
    (forall k :: 0 <= k < |b| ==> |b[k]| >= |b[0]|)
  }

  /** Sum of row[k] * B[k][j] for k < hi. */
  function EntrySum(row: seq<int>, b: IntMatrix, j: nat, hi: nat): int
    requires hi <= |row| && hi <= |b|
    requires forall k :: 0 <= k < hi ==> j < |b[k]|
    decreases hi
  {
    if hi == 0 then 0 else EntrySum(row, b, j, hi - 1) + row[hi - 1] * b[hi - 1][j]
  }

  /** The n x n identity matrix. */
  function Identity(n: nat): (m: IntMatrix)
    ensures |m| == n && forall k :: 0 <= k < n ==> |m[k]| == n
  {
    seq(n, k => seq(n, j => if k == j then 1 else 0))
  }

  /** multiply_matrices(A, B) */
  method MultiplyMatrices(A: IntMatrix, B: IntMatrix) returns (C: IntMatrix)
    requires Conformable(A, B)
    ensures |C| == |A| && forall i :: 0 <= i < |C| ==> |C[i]| == |B[0]|
    ensures forall i, j :: 0 <= i < |A| && 0 <= j < |B[0]| ==> C[i][j] == EntrySum(A[i], B, j, |B|)
  {
    var rows, cols, inner := |A|, |B[0]|, |B|;
    C := seq(rows, _ => seq(cols, _ => 0));
    var i := 0;
    while i < rows
      invariant 0 <= i <= rows && |C| == rows
      invariant forall r :: 0 <= r < rows ==> |C[r]| == cols
      invariant forall r, j :: 0 <= r < i && 0 <= j < cols ==> C[r][j] == EntrySum(A[r], B, j, inner)
      invariant forall r, j :: i <= r < rows && 0 <= j < cols ==> C[r][j] == 0
    {
      var j := 0;
      while j < cols
        invariant 0 <= j <= cols && |C| == rows
        invariant forall r :: 0 <= r < rows ==> |C[r]| == cols
        invariant forall r, q :: 0 <= r < rows && 0 <= q < cols ==>
          C[r][q] == if r < i || (r == i && q < j) then EntrySum(A[r], B, q, inner) else 0
      {
        var k := 0;
        while k < inner
          invariant 0 <= k <= inner && |C| == rows
          invariant forall r :: 0 <= r < rows ==> |C[r]| == cols
          invariant C[i][j] == EntrySum(A[i], B, j, k)
          invariant forall r, q :: 0 <= r < rows && 0 <= q < cols && (r, q) != (i, j) ==>
            C[r][q] == if r < i || (r == i && q < j) then EntrySum(A[r], B, q, inner) else 0
        {
          C := C[i := C[i][j := C[i][j] + A[i][k] * B[k][j]]];
          k := k + 1;
        }
        j := j + 1;
      }
      i := i + 1;
    }
  }

  /** Only column j of row hi - 1 of the identity is nonzero, so the sum picks out row[j]. */
  lemma {:induction false} EntrySumIdentity(row: seq<int>, n: nat, j: nat, hi: nat)
    requires hi <= n && n <= |row| && j < n
    ensures EntrySum(row, Identity(n), j, hi) == if j < hi then row[j] else 0
    decreases hi
  {
    if hi > 0 { EntrySumIdentity(row, n, j, hi - 1); }
  }

  /** A times the identity is A. */
  lemma ProductWithIdentity(a: IntMatrix, n: nat, i: nat, j: nat)
    requires n > 0 && Conformable(a, Identity(n)) && i < |a| && j < n
    ensures EntrySum(a[i], Identity(n), j, n) == a[i][j]
  {
    EntrySumIdentity(a[i], n, j, n);
  }

  /** A zero column of B gives a zero column of C. */
  lemma {:induction false} EntrySumZeroColumn(row: seq<int>, b: IntMatrix, j: nat, hi: nat)
    requires hi <= |row| && hi <= |b|
    requires forall k :: 0 <= k < hi ==> j < |b[k]| && b[k][j] == 0
    ensures EntrySum(row, b, j, hi) == 0
    decreases hi
  {
    if hi > 0 { EntrySumZeroColumn(row, b, j, hi - 1); }
  }

  /** main: {{1,2,3},{4,5,6}} times {{7,8},{9,10},{11,12}} is {{58,64},{139,154}}. */
  method IntMatrixMain() returns (C: IntMatrix)
    ensures C == [[58, 64], [139, 154]]
  {
    var A := [[1, 2, 3], [4, 5, 6]];
    var B := [[7, 8], [9, 10], [11, 12]];
    C := MultiplyMatrices(A, B);
    assert EntrySum(A[0], B, 0, 3) == 58 && EntrySum(A[0], B, 1, 3) == 64;
    assert EntrySum(A[1], B, 0, 3) == 139 && EntrySum(A[1], B, 1, 3) == 154;
    assert C[0] == [58, 64] && C[1] == [139, 154];
  }
}
