/**
 * matrix_vector_multiply: w = A v with w zero-initialised and accumulated
 * row by row, over exact reals.
 */
module MatrixVector {
  import opened VectorSum

  /** Every row has at least the vector's length (the source indexes A[i][j] for j < v.size()). */
  predicate RowsCover(a: seq<seq<real>>, v: seq<real>) {
    forall i :: 0 <= i < |a| ==> |a[i]| >= |v|
  }

  /** The product the loop computes: entry i is the dot product of row i with v. */
  function Product(a: seq<seq<real>>, v: seq<real>): (w: seq<real>)
    requires RowsCover(a, v)
    ensures |w| == |a|
  {
    seq(|a|, i requires 0 <= i < |a| => RangeDot(a[i], v, 0, |v|))
  }

  /** matrix_vector_multiply(A, v) */
  method MatrixVectorMultiply(A: seq<seq<real>>, v: seq<real>) returns (w: seq<real>)
    requires RowsCover(A, v)
    ensures |w| == |A|
    ensures forall i :: 0 <= i < |A| ==> w[i] == RangeDot(A[i], v, 0, |v|)
    ensures w == Product(A, v)
  {
    var m, n := |A|, |v|;
    w := seq(m, _ => 0.0);
    var i := 0;
    while i < m
      invariant 0 <= i <= m && |w| == m
      invariant forall r :: 0 <= r < i ==> w[r] == RangeDot(A[r], v, 0, n)
      invariant forall r :: i <= r < m ==> w[r] == 0.0
    {
      var j := 0;
      while j < n
        invariant 0 <= j <= n && |w| == m
        invariant forall r :: 0 <= r < i ==> w[r] == RangeDot(A[r], v, 0, n)
        invariant forall r :: i < r < m ==> w[r] == 0.0
        invariant w[i] == RangeDot(A[i], v, 0, j)
      {
        w := w[i := w[i] + A[i][j] * v[j]];
        j := j + 1;
      }
      i := i + 1;
    }
  }

  /** Multiplying by the zero vector or by an empty vector gives all zeros. */
  lemma ProductOfZeroVector(a: seq<seq<real>>, v: seq<real>)
    requires RowsCover(a, v)
    requires forall j :: 0 <= j < |v| ==> v[j] == 0.0
    ensures Product(a, v) == seq(|a|, _ => 0.0)
  {
    forall i | 0 <= i < |a|
      ensures Product(a, v)[i] == 0.0
    {
      RangeDotZeroVector(a[i], v, 0, |v|);
    }
  }

  /** Dot products are additive in the vector. */
  lemma {:induction false} RangeDotAdditive(row: seq<real>, x: seq<real>, y: seq<real>, s: seq<real>, hi: nat)
    requires hi <= |row| && hi <= |x| && hi <= |y| && hi <= |s|
    requires forall j :: 0 <= j < hi ==> s[j] == x[j] + y[j]
    ensures RangeDot(row, s, 0, hi) == RangeDot(row, x, 0, hi) + RangeDot(row, y, 0, hi)
    decreases hi
  {
    if hi > 0 {
      RangeDotAdditive(row, x, y, s, hi - 1);
      assert row[hi - 1] * s[hi - 1] == row[hi - 1] * x[hi - 1] + row[hi - 1] * y[hi - 1];
    }
  }

  /** Hence A x + A y = A (x + y). */
  lemma ProductAdditive(a: seq<seq<real>>, x: seq<real>, y: seq<real>, s: seq<real>)
    requires |x| == |y| == |s| && RowsCover(a, x)
    requires forall j :: 0 <= j < |s| ==> s[j] == x[j] + y[j]
    ensures forall i :: 0 <= i < |a| ==> Product(a, s)[i] == Product(a, x)[i] + Product(a, y)[i]
  {
    forall i | 0 <= i < |a|
      ensures Product(a, s)[i] == Product(a, x)[i] + Product(a, y)[i]
    {
      RangeDotAdditive(a[i], x, y, s, |s|);
    }
  }

  /** main: [[1,2,3],[4,5,6],[7,8,9]] times (1,2,3) is (14, 32, 50). */
  method MatrixVectorMain() returns (result: seq<real>)
    ensures result == [14.0, 32.0, 50.0]
  {
    var A := [[1.0, 2.0, 3.0], [4.0, 5.0, 6.0], [7.0, 8.0, 9.0]];
    var v := [1.0, 2.0, 3.0];
    result := MatrixVectorMultiply(A, v);
    assert RangeDot(A[0], v, 0, 3) == 14.0;
    assert RangeDot(A[1], v, 0, 3) == 32.0;
    assert RangeDot(A[2], v, 0, 3) == 50.0;
  }
}
