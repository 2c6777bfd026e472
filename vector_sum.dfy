/**
 * Partial dot products over exact reals, accumulated left to right the way
 * the source's `+=` / `-=` inner loops accumulate them.
 */
module VectorSum {

  /** Sum of row[j] * x[j] for lo <= j < hi. */
  function RangeDot(row: seq<real>, x: seq<real>, lo: nat, hi: nat): real
    requires hi <= |row| && hi <= |x|
    decreases hi
  {
    if hi <= lo then 0.0 else RangeDot(row, x, lo, hi - 1) + row[hi - 1] * x[hi - 1]
  }

  lemma {:induction false} RangeDotSplit(row: seq<real>, x: seq<real>, lo: nat, mid: nat, hi: nat)
    requires lo <= mid <= hi <= |row| && hi <= |x|
    ensures RangeDot(row, x, lo, hi) == RangeDot(row, x, lo, mid) + RangeDot(row, x, mid, hi)
    decreases hi
  {
    if hi > mid { RangeDotSplit(row, x, lo, mid, hi - 1); }
  }

  /** Only the entries in [lo, hi) matter. */
  lemma {:induction false} RangeDotCongruent(row: seq<real>, row': seq<real>, x: seq<real>, x': seq<real>, lo: nat, hi: nat)
    requires hi <= |row| && hi <= |x| && hi <= |row'| && hi <= |x'|
    requires forall j :: lo <= j < hi ==> row[j] == row'[j] && x[j] == x'[j]
    ensures RangeDot(row, x, lo, hi) == RangeDot(row', x', lo, hi)
    decreases hi
  {
    if hi > lo { RangeDotCongruent(row, row', x, x', lo, hi - 1); }
  }

  /** A row that is zero on [lo, hi) contributes nothing. */
  lemma {:induction false} RangeDotZeroRow(row: seq<real>, x: seq<real>, lo: nat, hi: nat)
    requires hi <= |row| && hi <= |x|
    requires forall j :: lo <= j < hi ==> row[j] == 0.0
    ensures RangeDot(row, x, lo, hi) == 0.0
    decreases hi
  {
    if hi > lo { RangeDotZeroRow(row, x, lo, hi - 1); }
  }

  /** A vector that is zero on [lo, hi) contributes nothing. */
  lemma {:induction false} RangeDotZeroVector(row: seq<real>, x: seq<real>, lo: nat, hi: nat)
    requires hi <= |row| && hi <= |x|
    requires forall j :: lo <= j < hi ==> x[j] == 0.0
    ensures RangeDot(row, x, lo, hi) == 0.0
    decreases hi
  {
    if hi > lo { RangeDotZeroVector(row, x, lo, hi - 1); }
  }

  /** Row operations: if u = v - f * w on [lo, hi), the dot products combine the same way. */
  lemma {:induction false} RangeDotLinear(u: seq<real>, v: seq<real>, w: seq<real>, f: real, x: seq<real>, lo: nat, hi: nat)
    requires hi <= |u| && hi <= |v| && hi <= |w| && hi <= |x|
    requires forall j :: lo <= j < hi ==> u[j] == v[j] - f * w[j]
    ensures RangeDot(u, x, lo, hi) == RangeDot(v, x, lo, hi) - f * RangeDot(w, x, lo, hi)
    decreases hi
  {
    if hi > lo {
      RangeDotLinear(u, v, w, f, x, lo, hi - 1);
      assert u[hi - 1] * x[hi - 1] == v[hi - 1] * x[hi - 1] - f * (w[hi - 1] * x[hi - 1]);
    }
  }
}
