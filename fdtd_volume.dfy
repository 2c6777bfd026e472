/**
 * The FDTD leakage mock as a class: the three global grids become fields
 * of a FieldVolume, updated in place cell by cell by the same nested loops as
 * the source. Each method is proved against the value-level functions of
 * module FdtdGrid.
 */
module FdtdVolume {
  import opened FdtdGrid

  /** Permeability of free space (mu_0 in the source). */
  const Mu0: real := 0.0000012566370614
  /** Time step in seconds (delta_time in the source). */
  const DeltaTime: real := 0.000000001

  /** Lexicographic progress of a triple loop: cell (a, b, c) is visited before (i, j, k). */
  predicate Before(a: int, b: int, c: int, i: int, j: int, k: int) {
    a < i || (a == i && (b < j || (b == j && c < k)))
  }

  /** Steps for which the progress test step % (steps / 10) is defined on every iteration. */
  predicate StepsOk(numSteps: int) {
    numSteps <= 0 || numSteps >= 10
  }

  function StepCount(numSteps: int): nat {
    if numSteps < 0 then 0 else numSteps
  }

  /** One row with the cells k, zStart <= k < zStart + thickness, scaled by 1/10. */
  function ScaledRow(row: seq<real>, zStart: int, thickness: int): (r: seq<real>)
    ensures |r| == |row|
    ensures forall c :: 0 <= c < |row| ==>
      r[c] == if zStart <= c < zStart + thickness then row[c] * 0.1 else row[c]
  {
    seq(|row|, c requires 0 <= c < |row| => if zStart <= c < zStart + thickness then row[c] * 0.1 else row[c])
  }

  /** Inside the cube's (i, j) footprint, ScaledRow is exactly row (i, j) of Shield. */
  lemma ScaledRowIsShieldRow(g: Grid, n: nat, x: int, y: int, z: int, t: int, i: int, j: int)
    requires IsCube(g, n) && 0 <= i < n && 0 <= j < n
    requires x <= i < x + t && y <= j < y + t
    ensures ScaledRow(g[i][j], z, t) == Shield(g, n, x, y, z, t)[i][j]
  {
    assert forall c :: 0 <= c < n ==>
      ScaledRow(g[i][j], z, t)[c] == ShieldCell(g, n, x, y, z, t, i, j, c);
  }

  class FieldVolume {
    /** Grid extent on every axis. */
    const n: nat
    /** electric_field, magnetic_field and current_density. */
    var E: Grid
    var B: Grid
    var J: Grid

    ghost predicate Valid()
      reads this
    {
      IsCube(E, n) && IsCube(B, n) && IsCube(J, n)
    }

    function State(): Fields
      reads this
    {
      Fields(E, B, J)
    }

    /** The grids as main resizes them: extent gridSize, every value zero. */
    constructor (gridSize: nat)
      ensures Valid() && n == gridSize
      ensures E == ZeroGrid(gridSize) && B == ZeroGrid(gridSize) && J == ZeroGrid(gridSize)
    {
      n := gridSize;
      E := ZeroGrid(gridSize);
      B := ZeroGrid(gridSize);
      J := ZeroGrid(gridSize);
    }

    /** update_electric_field: the interior of E moves by -dt times a difference of B. */
    method UpdateElectricField()
      requires Valid() && n >= 1
      modifies this
      ensures Valid()
      ensures E == ElectricStep(old(E), B, n, DeltaTime)
      ensures B == old(B) && J == old(J)
    {
      ghost var e0 := E;
      ghost var target := ElectricStep(e0, B, n, DeltaTime);
      var i := 1;
      while i < n - 1
        invariant 1 <= i <= if n < 2 then 1 else n - 1
        invariant IsCube(E, n) && B == old(B) && J == old(J)
        invariant forall a, b, c :: 0 <= a < n && 0 <= b < n && 0 <= c < n ==>
          E[a][b][c] == if a < i then target[a][b][c] else e0[a][b][c]
      {
        var j := 1;
        while j < n - 1
          invariant 1 <= j <= n - 1
          invariant IsCube(E, n) && B == old(B) && J == old(J)
          invariant forall a, b, c :: 0 <= a < n && 0 <= b < n && 0 <= c < n ==>
            E[a][b][c] == if Before(a, b, c, i, j, 0) then target[a][b][c] else e0[a][b][c]
        {
          var k := 1;
          while k < n - 1
            invariant 1 <= k <= n - 1
            invariant IsCube(E, n) && B == old(B) && J == old(J)
            invariant forall a, b, c :: 0 <= a < n && 0 <= b < n && 0 <= c < n ==>
              E[a][b][c] == if Before(a, b, c, i, j, k) then target[a][b][c] else e0[a][b][c]
          {
            var v := E[i][j][k] - DeltaTime * (
              (B[i][j+1][k] - B[i][j-1][k]) / 2.0
              - (B[i+1][j][k] - B[i-1][j][k]) / 2.0);
            E := E[i := E[i][j := E[i][j][k := v]]];
            k := k + 1;
          }
          j := j + 1;
        }
        i := i + 1;
      }
      CubeExtensional(E, target, n);
    }

    /** update_magnetic_field: the interior of B moves by dt times a difference of E plus mu_0 J. */
    method UpdateMagneticField()
      requires Valid() && n >= 1
      modifies this
      ensures Valid()
      ensures B == MagneticStep(old(B), E, J, n, DeltaTime, Mu0)
      ensures E == old(E) && J == old(J)
    {
      ghost var b0 := B;
      ghost var target := MagneticStep(b0, E, J, n, DeltaTime, Mu0);
      var i := 1;
      while i < n - 1
        invariant 1 <= i <= if n < 2 then 1 else n - 1
        invariant IsCube(B, n) && E == old(E) && J == old(J)
        invariant forall a, b, c :: 0 <= a < n && 0 <= b < n && 0 <= c < n ==>
          B[a][b][c] == if a < i then target[a][b][c] else b0[a][b][c]
      {
        var j := 1;
        while j < n - 1
          invariant 1 <= j <= n - 1
          invariant IsCube(B, n) && E == old(E) && J == old(J)
          invariant forall a, b, c :: 0 <= a < n && 0 <= b < n && 0 <= c < n ==>
            B[a][b][c] == if Before(a, b, c, i, j, 0) then target[a][b][c] else b0[a][b][c]
        {
          var k := 1;
          while k < n - 1
            invariant 1 <= k <= n - 1
            invariant IsCube(B, n) && E == old(E) && J == old(J)
            invariant forall a, b, c :: 0 <= a < n && 0 <= b < n && 0 <= c < n ==>
              B[a][b][c] == if Before(a, b, c, i, j, k) then target[a][b][c] else b0[a][b][c]
          {
            var v := B[i][j][k] + DeltaTime * (
              (E[i][j+1][k] - E[i][j-1][k]) / 2.0
              - (E[i+1][j][k] - E[i-1][j][k]) / 2.0
              + Mu0 * J[i][j][k]);
            B := B[i := B[i][j := B[i][j][k := v]]];
            k := k + 1;
          }
          j := j + 1;
        }
        i := i + 1;
      }
      CubeExtensional(B, target, n);
    }

    /** run_fdtd_simulation: numSteps rounds of the electric then the magnetic update. */
    method RunFdtdSimulation(numSteps: int)
      requires Valid() && n >= 1
      requires StepsOk(numSteps)
      modifies this
      ensures Valid()
      ensures State() == Simulate(old(State()), n, DeltaTime, Mu0, StepCount(numSteps))
    {
      var step := 0;
      while step < numSteps
        invariant 0 <= step <= StepCount(numSteps)
        invariant Valid()
        invariant State() == Simulate(old(State()), n, DeltaTime, Mu0, step)
      {
        UpdateElectricField();
        UpdateMagneticField();
        step := step + 1;
      }
    }

    /** analyze_em_leakage: sum of |E[i][j][0]| over the boundary ring of the k = 0 slice. */
    method AnalyzeEmLeakage() returns (totalLeakage: real)
      requires Valid()
      ensures totalLeakage == Leakage(E, n)
      ensures totalLeakage >= 0.0
    {
      totalLeakage := 0.0;
      var i := 0;
      while i < n
        invariant 0 <= i <= n
        invariant totalLeakage == LeakageUpTo(E, n, i)
      {
        var j := 0;
        while j < n
          invariant 0 <= j <= n
          invariant totalLeakage == LeakageUpTo(E, n, i) + RowLeakage(E, n, i, j)
        {
          if i == 0 || i == n - 1 || j == 0 || j == n - 1 {
            totalLeakage := totalLeakage + Abs(E[i][j][0]);
          }
          j := j + 1;
        }
        i := i + 1;
      }
      LeakageNonNegative(E, n);
    }

    /** The innermost loop of apply_shielding: row (i, j) of E and of B, from k = zStart on. */
    method ShieldRow(i: nat, j: nat, zStart: int, thickness: int)
      requires Valid() && i < n && j < n
      requires thickness > 0 ==> 0 <= zStart && zStart + thickness <= n
      modifies this
      ensures Valid() && J == old(J)
      ensures E == old(E)[i := old(E)[i][j := ScaledRow(old(E)[i][j], zStart, thickness)]]
      ensures B == old(B)[i := old(B)[i][j := ScaledRow(old(B)[i][j], zStart, thickness)]]
    {
      ghost var e, b := old(E)[i][j], old(B)[i][j];
      var k := zStart;
      while k < zStart + thickness
        invariant thickness > 0 ==> zStart <= k <= zStart + thickness
        invariant thickness <= 0 ==> k == zStart
        invariant Valid() && J == old(J)
        invariant forall a :: 0 <= a < n && a != i ==> E[a] == old(E)[a] && B[a] == old(B)[a]
        invariant forall b :: 0 <= b < n && b != j ==> E[i][b] == old(E)[i][b] && B[i][b] == old(B)[i][b]
        invariant forall c :: 0 <= c < n ==> E[i][j][c] == if zStart <= c < k then e[c] * 0.1 else e[c]
        invariant forall c :: 0 <= c < n ==> B[i][j][c] == if zStart <= c < k then b[c] * 0.1 else b[c]
      {
        E := E[i := E[i][j := E[i][j][k := E[i][j][k] * 0.1]]];
        B := B[i := B[i][j := B[i][j][k := B[i][j][k] * 0.1]]];
        k := k + 1;
      }
      assert E[i][j] == ScaledRow(e, zStart, thickness);
      assert B[i][j] == ScaledRow(b, zStart, thickness);
      assert E[i] == old(E)[i][j := ScaledRow(e, zStart, thickness)];
      assert B[i] == old(B)[i][j := ScaledRow(b, zStart, thickness)];
    }

    /** apply_shielding: scale E and B by 0.1 on the cube [x, x+t) x [y, y+t) x [z, z+t). */
    method ApplyShielding(xStart: int, yStart: int, zStart: int, thickness: int)
      requires Valid()
      requires RegionFits(n, xStart, yStart, zStart, thickness)
      modifies this
      ensures Valid()
      ensures E == Shield(old(E), n, xStart, yStart, zStart, thickness)
      ensures B == Shield(old(B), n, xStart, yStart, zStart, thickness)
      ensures J == old(J)
    {
      ghost var e0, b0 := E, B;
      ghost var eTarget := Shield(e0, n, xStart, yStart, zStart, thickness);
      ghost var bTarget := Shield(b0, n, xStart, yStart, zStart, thickness);
      var i := xStart;
      while i < xStart + thickness
        invariant thickness > 0 ==> xStart <= i <= xStart + thickness
        invariant Valid() && J == old(J)
        invariant forall a, b, c :: 0 <= a < n && 0 <= b < n && 0 <= c < n ==>
          E[a][b][c] == (if a < i then eTarget[a][b][c] else e0[a][b][c]) &&
          B[a][b][c] == (if a < i then bTarget[a][b][c] else b0[a][b][c])
      {
        var j := yStart;
        while j < yStart + thickness
          invariant yStart <= j <= yStart + thickness
          invariant Valid() && J == old(J)
          invariant forall a, b, c :: 0 <= a < n && 0 <= b < n && 0 <= c < n ==>
            E[a][b][c] == (if Before(a, b, c, i, j, 0) then eTarget[a][b][c] else e0[a][b][c]) &&
            B[a][b][c] == (if Before(a, b, c, i, j, 0) then bTarget[a][b][c] else b0[a][b][c])
        {
          ShieldRow(i, j, zStart, thickness);
          j := j + 1;
        }
        i := i + 1;
      }
      CubeExtensional(E, eTarget, n);
      CubeExtensional(B, bTarget, n);
    }
  }

  /**
   * The sequence in main after the grids are set up: run, measure, and when
   * the leakage exceeds the threshold shield the cube and run again. The
   * leakage is not measured a second time.
   */
  method DetectAndShield(v: FieldVolume, numSteps: int, threshold: real,
                         x: int, y: int, z: int, t: int)
    returns (leakage: real, shielded: bool)
    requires v.Valid() && v.n >= 1
    requires StepsOk(numSteps)
    requires Leakage(v.E, v.n) > threshold ==> RegionFits(v.n, x, y, z, t)
    modifies v
    ensures v.Valid()
    ensures leakage == Leakage(old(v.E), v.n)
    ensures shielded <==> leakage > threshold
    ensures v.State() ==
      var first := Simulate(old(v.State()), v.n, DeltaTime, Mu0, StepCount(numSteps));
      if shielded then Simulate(ShieldFields(first, v.n, x, y, z, t), v.n, DeltaTime, Mu0, StepCount(numSteps))
      else first
  {
    v.RunFdtdSimulation(numSteps);
    leakage := v.AnalyzeEmLeakage();
    SimulateKeepsLeakage(old(v.State()), v.n, DeltaTime, Mu0, StepCount(numSteps));
    shielded := leakage > threshold;
    if shielded {
      v.ApplyShielding(x, y, z, t);
      v.RunFdtdSimulation(numSteps);
    }
  }

  /**
   * main: a 100-cell cube of zeros, 1000 steps, threshold 1.0, shield at
   * (10, 10, 10) with thickness 10. The fields stay zero, so the measured
   * leakage is 0, the shielding branch is never taken, and all three grids
   * end as they began.
   */
  method LeakageDetectionMain() returns (v: FieldVolume, leakage: real, shielded: bool)
    ensures leakage == 0.0 && !shielded
    ensures v.n == 100 && v.State() == Fields(ZeroGrid(100), ZeroGrid(100), ZeroGrid(100))
  {
    v := new FieldVolume(100);
    LeakageOfZero(100);
    SimulateFromZero(100, DeltaTime, Mu0, 1000);
    leakage, shielded := DetectAndShield(v, 1000, 1.0, 10, 10, 10, 10);
  }
}
