/**
 * Value-level specification of the FDTD leakage mock: N x N x N grids of
 * reals, the two interior-only stencils, the k = 0 boundary-ring leakage
 * metric, the cubic shielding damper and the step loop, with the facts the
 * imperative model in module FdtdVolume is proved against.
 */
module FdtdGrid {

  type Grid = seq<seq<seq<real>>>

  /** g has extent n on all three axes. */
  predicate IsCube(g: Grid, n: nat) {
    |g| == n &&
    forall i :: 0 <= i < n ==> |g[i]| == n && forall j :: 0 <= j < n ==> |g[i][j]| == n
  }

  /** The cells both stencils write: 1 <= i, j, k <= n - 2. */
  predicate Interior(n: nat, i: int, j: int, k: int) {
    1 <= i < n - 1 && 1 <= j < n - 1 && 1 <= k < n - 1
  }

  function Abs(x: real): real {
    if x < 0.0 then -x else x
  }

  function ZeroGrid(n: nat): (g: Grid)
    ensures IsCube(g, n)
    ensures forall i, j, k :: 0 <= i < n && 0 <= j < n && 0 <= k < n ==> g[i][j][k] == 0.0
  {
    seq(n, i => seq(n, j => seq(n, k => 0.0)))
  }

  /** Two cubes of the same extent that agree cell by cell are equal. */
  lemma {:induction false} CubeExtensional(g: Grid, h: Grid, n: nat)
    requires IsCube(g, n) && IsCube(h, n)
    requires forall i, j, k :: 0 <= i < n && 0 <= j < n && 0 <= k < n ==> g[i][j][k] == h[i][j][k]
    ensures g == h
  {
    forall i | 0 <= i < n
      ensures g[i] == h[i]
    {
      forall j | 0 <= j < n
        ensures g[i][j] == h[i][j]
      {
        assert |g[i][j]| == |h[i][j]| == n;
      }
    }
  }

  // ---------------------------------------------------------------------
  // Electric update

  /** New value of one E cell; only B is read besides the cell itself. */
  function ElectricCell(e: Grid, b: Grid, n: nat, dt: real, i: int, j: int, k: int): real
    requires IsCube(e, n) && IsCube(b, n)
    requires 0 <= i < n && 0 <= j < n && 0 <= k < n
  {
    if Interior(n, i, j, k) then
      e[i][j][k] - dt * ((b[i][j+1][k] - b[i][j-1][k]) / 2.0 - (b[i+1][j][k] - b[i-1][j][k]) / 2.0)
    else
      e[i][j][k]
  }

  /** Every E cell updated at once from the same B. */
  function ElectricStep(e: Grid, b: Grid, n: nat, dt: real): (r: Grid)
    requires IsCube(e, n) && IsCube(b, n)
    ensures IsCube(r, n)
    ensures forall i, j, k :: 0 <= i < n && 0 <= j < n && 0 <= k < n ==>
      r[i][j][k] == ElectricCell(e, b, n, dt, i, j, k)
  {
    seq(n, i requires 0 <= i < n =>
      seq(n, j requires 0 <= j < n =>
        seq(n, k requires 0 <= k < n => ElectricCell(e, b, n, dt, i, j, k))))
  }

  // ---------------------------------------------------------------------
  // Magnetic update

  /** New value of one B cell; reads E and J besides the cell itself. */
  function MagneticCell(b: Grid, e: Grid, cur: Grid, n: nat, dt: real, mu0: real, i: int, j: int, k: int): real
    requires IsCube(b, n) && IsCube(e, n) && IsCube(cur, n)
    requires 0 <= i < n && 0 <= j < n && 0 <= k < n
  {
    if Interior(n, i, j, k) then
      b[i][j][k] + dt * ((e[i][j+1][k] - e[i][j-1][k]) / 2.0 - (e[i+1][j][k] - e[i-1][j][k]) / 2.0
                         + mu0 * cur[i][j][k])
    else
      b[i][j][k]
  }

  function MagneticStep(b: Grid, e: Grid, cur: Grid, n: nat, dt: real, mu0: real): (r: Grid)
    requires IsCube(b, n) && IsCube(e, n) && IsCube(cur, n)
    ensures IsCube(r, n)
    ensures forall i, j, k :: 0 <= i < n && 0 <= j < n && 0 <= k < n ==>
      r[i][j][k] == MagneticCell(b, e, cur, n, dt, mu0, i, j, k)
  {
    seq(n, i requires 0 <= i < n =>
      seq(n, j requires 0 <= j < n =>
        seq(n, k requires 0 <= k < n => MagneticCell(b, e, cur, n, dt, mu0, i, j, k))))
  }

  // ---------------------------------------------------------------------
  // Shielding

  predicate InRegion(x: int, y: int, z: int, t: int, i: int, j: int, k: int) {
    x <= i < x + t && y <= j < y + t && z <= k < z + t
  }

  /** The cube [x, x+t) x [y, y+t) x [z, z+t) lies within [0, n) (or is empty). */
  predicate RegionFits(n: nat, x: int, y: int, z: int, t: int) {
    t <= 0 || (0 <= x && x + t <= n && 0 <= y && y + t <= n && 0 <= z && z + t <= n)
  }

  function ShieldCell(g: Grid, n: nat, x: int, y: int, z: int, t: int, i: int, j: int, k: int): real
    requires IsCube(g, n) && 0 <= i < n && 0 <= j < n && 0 <= k < n
  {
    if InRegion(x, y, z, t, i, j, k) then g[i][j][k] * 0.1 else g[i][j][k]
  }

  function Shield(g: Grid, n: nat, x: int, y: int, z: int, t: int): (r: Grid)
    requires IsCube(g, n)
    ensures IsCube(r, n)
    ensures forall i, j, k :: 0 <= i < n && 0 <= j < n && 0 <= k < n ==>
      r[i][j][k] == ShieldCell(g, n, x, y, z, t, i, j, k)
  {
    seq(n, i requires 0 <= i < n =>
      seq(n, j requires 0 <= j < n =>
        seq(n, k requires 0 <= k < n => ShieldCell(g, n, x, y, z, t, i, j, k))))
  }

  // ---------------------------------------------------------------------
  // The step loop

  /** The three grids E, B and J of one simulation. */
  datatype Fields = Fields(e: Grid, b: Grid, j: Grid)

  predicate FieldsOk(f: Fields, n: nat) {
    IsCube(f.e, n) && IsCube(f.b, n) && IsCube(f.j, n)
  }

  /** One step: the electric update, then the magnetic update reading the new E. */
  function Step(f: Fields, n: nat, dt: real, mu0: real): (r: Fields)
    requires FieldsOk(f, n)
    ensures FieldsOk(r, n) && r.j == f.j
  {
    var e' := ElectricStep(f.e, f.b, n, dt);
    Fields(e', MagneticStep(f.b, e', f.j, n, dt, mu0), f.j)
  }

  function Simulate(f: Fields, n: nat, dt: real, mu0: real, steps: nat): (r: Fields)
    requires FieldsOk(f, n)
    ensures FieldsOk(r, n) && r.j == f.j
    decreases steps
  {
    if steps == 0 then f else Step(Simulate(f, n, dt, mu0, steps - 1), n, dt, mu0)
  }

  function ShieldFields(f: Fields, n: nat, x: int, y: int, z: int, t: int): (r: Fields)
    requires FieldsOk(f, n)
    ensures FieldsOk(r, n)
  {
    Fields(Shield(f.e, n, x, y, z, t), Shield(f.b, n, x, y, z, t), f.j)
  }

  // ---------------------------------------------------------------------
  // Leakage: sum of |E[i][j][0]| over the ring i in {0, n-1} or j in {0, n-1}

  predicate OnRing(n: nat, i: int, j: int) {
    i == 0 || i == n - 1 || j == 0 || j == n - 1
  }

  function RingTerm(e: Grid, n: nat, i: int, j: int): real
    requires IsCube(e, n) && 0 <= i < n && 0 <= j < n
  {
    if OnRing(n, i, j) then Abs(e[i][j][0]) else 0.0
  }

  /** Sum of RingTerm over row i, columns 0 .. j - 1. */
  function RowLeakage(e: Grid, n: nat, i: int, j: nat): real
    requires IsCube(e, n) && 0 <= i < n && j <= n
  {
    if j == 0 then 0.0 else RowLeakage(e, n, i, j - 1) + RingTerm(e, n, i, j - 1)
  }

  /** Sum of the full rows 0 .. i - 1. */
  function LeakageUpTo(e: Grid, n: nat, i: nat): real
    requires IsCube(e, n) && i <= n
  {
    if i == 0 then 0.0 else LeakageUpTo(e, n, i - 1) + RowLeakage(e, n, i - 1, n)
  }

  function Leakage(e: Grid, n: nat): real
    requires IsCube(e, n)
  {
    LeakageUpTo(e, n, n)
  }

  // ---------------------------------------------------------------------
  // Lemmas

  lemma {:induction false} RowLeakageNonNegative(e: Grid, n: nat, i: int, j: nat)
    requires IsCube(e, n) && 0 <= i < n && j <= n
    ensures RowLeakage(e, n, i, j) >= 0.0
  {
    if j > 0 { RowLeakageNonNegative(e, n, i, j - 1); }
  }

  /** The leakage metric is never negative. */
  lemma LeakageNonNegative(e: Grid, n: nat)
    requires IsCube(e, n)
    ensures Leakage(e, n) >= 0.0
  {
    LeakageUpToNonNegative(e, n, n);
  }

  lemma {:induction false} LeakageUpToNonNegative(e: Grid, n: nat, i: nat)
    requires IsCube(e, n) && i <= n
    ensures LeakageUpTo(e, n, i) >= 0.0
  {
    if i > 0 {
      LeakageUpToNonNegative(e, n, i - 1);
      RowLeakageNonNegative(e, n, i - 1, n);
    }
  }

  /** The ring cells of two grids are related by |e1| <= |e2|. */
  predicate RingDominated(e1: Grid, e2: Grid, n: nat)
    requires IsCube(e1, n) && IsCube(e2, n)
  {
    forall i, j :: 0 <= i < n && 0 <= j < n && OnRing(n, i, j) ==> Abs(e1[i][j][0]) <= Abs(e2[i][j][0])
  }

  lemma {:induction false} RowLeakageMonotone(e1: Grid, e2: Grid, n: nat, i: int, j: nat)
    requires IsCube(e1, n) && IsCube(e2, n) && 0 <= i < n && j <= n
    requires RingDominated(e1, e2, n)
    ensures RowLeakage(e1, n, i, j) <= RowLeakage(e2, n, i, j)
  {
    if j > 0 { RowLeakageMonotone(e1, e2, n, i, j - 1); }
  }

  lemma {:induction false} LeakageUpToMonotone(e1: Grid, e2: Grid, n: nat, i: nat)
    requires IsCube(e1, n) && IsCube(e2, n) && i <= n
    requires RingDominated(e1, e2, n)
    ensures LeakageUpTo(e1, n, i) <= LeakageUpTo(e2, n, i)
  {
    if i > 0 {
      LeakageUpToMonotone(e1, e2, n, i - 1);
      RowLeakageMonotone(e1, e2, n, i - 1, n);
    }
  }

  /** Leakage is monotone in the magnitudes of the ring cells. */
  lemma LeakageMonotone(e1: Grid, e2: Grid, n: nat)
    requires IsCube(e1, n) && IsCube(e2, n)
    requires RingDominated(e1, e2, n)
    ensures Leakage(e1, n) <= Leakage(e2, n)
  {
    LeakageUpToMonotone(e1, e2, n, n);
  }

  /** Grids that agree on every ring cell at k = 0 have the same leakage. */
  lemma LeakageReadsOnlyRing(e1: Grid, e2: Grid, n: nat)
    requires IsCube(e1, n) && IsCube(e2, n)
    requires forall i, j :: 0 <= i < n && 0 <= j < n && OnRing(n, i, j) ==> e1[i][j][0] == e2[i][j][0]
    ensures Leakage(e1, n) == Leakage(e2, n)
  {
    LeakageMonotone(e1, e2, n);
    LeakageMonotone(e2, e1, n);
  }

  /** The electric update leaves every non-interior cell alone. */
  lemma ElectricStepKeepsBoundary(e: Grid, b: Grid, n: nat, dt: real, i: int, j: int, k: int)
    requires IsCube(e, n) && IsCube(b, n) && 0 <= i < n && 0 <= j < n && 0 <= k < n
    requires !Interior(n, i, j, k)
    ensures ElectricStep(e, b, n, dt)[i][j][k] == e[i][j][k]
  {
  }

  lemma MagneticStepKeepsBoundary(b: Grid, e: Grid, cur: Grid, n: nat, dt: real, mu0: real, i: int, j: int, k: int)
    requires IsCube(b, n) && IsCube(e, n) && IsCube(cur, n) && 0 <= i < n && 0 <= j < n && 0 <= k < n
    requires !Interior(n, i, j, k)
    ensures MagneticStep(b, e, cur, n, dt, mu0)[i][j][k] == b[i][j][k]
  {
  }

  /** A step never writes a boundary cell of E or B, nor any cell of J. */
  lemma {:induction false} SimulateKeepsBoundary(f: Fields, n: nat, dt: real, mu0: real, steps: nat, i: int, j: int, k: int)
    requires FieldsOk(f, n) && 0 <= i < n && 0 <= j < n && 0 <= k < n
    requires !Interior(n, i, j, k)
    ensures Simulate(f, n, dt, mu0, steps).e[i][j][k] == f.e[i][j][k]
    ensures Simulate(f, n, dt, mu0, steps).b[i][j][k] == f.b[i][j][k]
    ensures Simulate(f, n, dt, mu0, steps).j == f.j
    decreases steps
  {
    if steps > 0 {
      SimulateKeepsBoundary(f, n, dt, mu0, steps - 1, i, j, k);
      var g := Simulate(f, n, dt, mu0, steps - 1);
      ElectricStepKeepsBoundary(g.e, g.b, n, dt, i, j, k);
    }
  }

  /** The electric update does not change the leakage. */
  lemma ElectricStepKeepsLeakage(e: Grid, b: Grid, n: nat, dt: real)
    requires IsCube(e, n) && IsCube(b, n)
    ensures Leakage(ElectricStep(e, b, n, dt), n) == Leakage(e, n)
  {
    var e' := ElectricStep(e, b, n, dt);
    forall i, j | 0 <= i < n && 0 <= j < n && OnRing(n, i, j)
      ensures e'[i][j][0] == e[i][j][0]
    {
      ElectricStepKeepsBoundary(e, b, n, dt, i, j, 0);
    }
    LeakageReadsOnlyRing(e', e, n);
  }

  /** Leakage is invariant under any number of simulation steps. */
  lemma {:induction false} SimulateKeepsLeakage(f: Fields, n: nat, dt: real, mu0: real, steps: nat)
    requires FieldsOk(f, n)
    ensures Leakage(Simulate(f, n, dt, mu0, steps).e, n) == Leakage(f.e, n)
    decreases steps
  {
    if steps > 0 {
      SimulateKeepsLeakage(f, n, dt, mu0, steps - 1);
      var g := Simulate(f, n, dt, mu0, steps - 1);
      ElectricStepKeepsLeakage(g.e, g.b, n, dt);
    }
  }

  /** With E and J all zero, the magnetic update leaves B as it is. */
  lemma MagneticStepWithoutSources(b: Grid, n: nat, dt: real, mu0: real)
    requires IsCube(b, n)
    ensures MagneticStep(b, ZeroGrid(n), ZeroGrid(n), n, dt, mu0) == b
  {
    var r := MagneticStep(b, ZeroGrid(n), ZeroGrid(n), n, dt, mu0);
    CubeExtensional(r, b, n);
  }

  /** With B all zero, the electric update leaves E as it is. */
  lemma ElectricStepWithoutField(e: Grid, n: nat, dt: real)
    requires IsCube(e, n)
    ensures ElectricStep(e, ZeroGrid(n), n, dt) == e
  {
    var r := ElectricStep(e, ZeroGrid(n), n, dt);
    CubeExtensional(r, e, n);
  }

  /** From all-zero grids, every number of steps leaves every field at zero. */
  lemma {:induction false} SimulateFromZero(n: nat, dt: real, mu0: real, steps: nat)
    ensures Simulate(Fields(ZeroGrid(n), ZeroGrid(n), ZeroGrid(n)), n, dt, mu0, steps)
         == Fields(ZeroGrid(n), ZeroGrid(n), ZeroGrid(n))
    decreases steps
  {
    if steps > 0 {
      SimulateFromZero(n, dt, mu0, steps - 1);
      ElectricStepWithoutField(ZeroGrid(n), n, dt);
      MagneticStepWithoutSources(ZeroGrid(n), n, dt, mu0);
    }
  }

  lemma {:induction false} LeakageUpToZero(n: nat, i: nat)
    requires i <= n
    ensures LeakageUpTo(ZeroGrid(n), n, i) == 0.0
  {
    if i > 0 {
      LeakageUpToZero(n, i - 1);
      RowLeakageZero(n, i - 1, n);
    }
  }

  lemma {:induction false} RowLeakageZero(n: nat, i: int, j: nat)
    requires 0 <= i < n && j <= n
    ensures RowLeakage(ZeroGrid(n), n, i, j) == 0.0
  {
    if j > 0 { RowLeakageZero(n, i, j - 1); }
  }

  /** All-zero fields have zero leakage. */
  lemma LeakageOfZero(n: nat)
    ensures Leakage(ZeroGrid(n), n) == 0.0
  {
    LeakageUpToZero(n, n);
  }

  /** Shielding scales exactly the cells of its cube by 1/10. */
  lemma ShieldScalesRegion(g: Grid, n: nat, x: int, y: int, z: int, t: int, i: int, j: int, k: int)
    requires IsCube(g, n) && 0 <= i < n && 0 <= j < n && 0 <= k < n
    ensures InRegion(x, y, z, t, i, j, k) ==> Shield(g, n, x, y, z, t)[i][j][k] == g[i][j][k] / 10.0
    ensures !InRegion(x, y, z, t, i, j, k) ==> Shield(g, n, x, y, z, t)[i][j][k] == g[i][j][k]
  {
  }

  /** Shielding never increases the leakage. */
  lemma ShieldDoesNotIncreaseLeakage(e: Grid, n: nat, x: int, y: int, z: int, t: int)
    requires IsCube(e, n)
    ensures Leakage(Shield(e, n, x, y, z, t), n) <= Leakage(e, n)
  {
    var s := Shield(e, n, x, y, z, t);
    forall i, j | 0 <= i < n && 0 <= j < n && OnRing(n, i, j)
      ensures Abs(s[i][j][0]) <= Abs(e[i][j][0])
    {
      assert s[i][j][0] == ShieldCell(e, n, x, y, z, t, i, j, 0);
    }
    LeakageMonotone(s, e, n);
  }
}
