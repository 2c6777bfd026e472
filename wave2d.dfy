/**
 * The 2D wave-propagation demo: two global grid_size x grid_size grids E
 * and B, each updated in place on its interior from the other. main starts
 * the two updates on two threads behind one mutex, so they run one after
 * the other in an order the scheduler picks.
 */
module Wave2D {

  type Plane = seq<seq<real>>

  /** grid_size in the source. */
  const GridSize: nat := 100
  /** dt and dx in the source. */
  const Dt: real := 0.01
  const Dx: real := 0.1

  predicate IsSquare(g: Plane, n: nat) {
    |g| == n && forall i :: 0 <= i < n ==> |g[i]| == n
  }

  /** The cells the updates write: 1 <= i, j <= n - 2. */
  predicate Inner(n: nat, i: int, j: int) {
    1 <= i < n - 1 && 1 <= j < n - 1
  }

  function ZeroPlane(n: nat): (g: Plane)
    ensures IsSquare(g, n)
    ensures forall i, j :: 0 <= i < n && 0 <= j < n ==> g[i][j] == 0.0
  {
    seq(n, i => seq(n, j => 0.0))
  }

  lemma {:induction false} PlaneExtensional(g: Plane, h: Plane, n: nat)
    requires IsSquare(g, n) && IsSquare(h, n)
    requires forall i, j :: 0 <= i < n && 0 <= j < n ==> g[i][j] == h[i][j]
    ensures g == h
  {
    forall i | 0 <= i < n
      ensures g[i] == h[i]
    {
      assert |g[i]| == |h[i]| == n;
    }
  }

  function ElectricCell(e: Plane, b: Plane, n: nat, dt: real, dx: real, i: int, j: int): real
    requires IsSquare(e, n) && IsSquare(b, n) && 0 <= i < n && 0 <= j < n && dx != 0.0
  {
    if Inner(n, i, j) then e[i][j] + dt * (b[i+1][j] - b[i][j]) / dx else e[i][j]
  }

  function MagneticCell(b: Plane, e: Plane, n: nat, dt: real, dx: real, i: int, j: int): real
    requires IsSquare(b, n) && IsSquare(e, n) && 0 <= i < n && 0 <= j < n && dx != 0.0
  {
    if Inner(n, i, j) then b[i][j] + dt * (e[i][j+1] - e[i][j]) / dx else b[i][j]
  }

  function ElectricStep(e: Plane, b: Plane, n: nat, dt: real, dx: real): (r: Plane)
    requires IsSquare(e, n) && IsSquare(b, n) && dx != 0.0
    ensures IsSquare(r, n)
    ensures forall i, j :: 0 <= i < n && 0 <= j < n ==> r[i][j] == ElectricCell(e, b, n, dt, dx, i, j)
  {
    seq(n, i requires 0 <= i < n => seq(n, j requires 0 <= j < n => ElectricCell(e, b, n, dt, dx, i, j)))
  }

  function MagneticStep(b: Plane, e: Plane, n: nat, dt: real, dx: real): (r: Plane)
    requires IsSquare(b, n) && IsSquare(e, n) && dx != 0.0
    ensures IsSquare(r, n)
    ensures forall i, j :: 0 <= i < n && 0 <= j < n ==> r[i][j] == MagneticCell(b, e, n, dt, dx, i, j)
  {
    seq(n, i requires 0 <= i < n => seq(n, j requires 0 <= j < n => MagneticCell(b, e, n, dt, dx, i, j)))
  }

  /** E and B after both updates, the electric one first when electricFirst holds. */
  function BothUpdates(e: Plane, b: Plane, n: nat, dt: real, dx: real, electricFirst: bool): (r: (Plane, Plane))
    requires IsSquare(e, n) && IsSquare(b, n) && dx != 0.0
    ensures IsSquare(r.0, n) && IsSquare(r.1, n)
  {
    if electricFirst then
      var e' := ElectricStep(e, b, n, dt, dx);
      (e', MagneticStep(b, e', n, dt, dx))
    else
      var b' := MagneticStep(b, e, n, dt, dx);
      (ElectricStep(e, b', n, dt, dx), b')
  }

  /** Neither update, in either order, writes row or column 0 or n - 1 of either grid. */
  lemma BothUpdatesKeepBorder(e: Plane, b: Plane, n: nat, dt: real, dx: real, electricFirst: bool, i: int, j: int)
    requires IsSquare(e, n) && IsSquare(b, n) && dx != 0.0
    requires 0 <= i < n && 0 <= j < n && !Inner(n, i, j)
    ensures BothUpdates(e, b, n, dt, dx, electricFirst).0[i][j] == e[i][j]
    ensures BothUpdates(e, b, n, dt, dx, electricFirst).1[i][j] == b[i][j]
  {
  }

  /** An interior cell does move when its neighbour difference is nonzero. */
  lemma ElectricStepMovesInterior(e: Plane, b: Plane, n: nat, dt: real, dx: real, i: int, j: int)
    requires IsSquare(e, n) && IsSquare(b, n) && dx != 0.0
    requires 0 <= i < n && 0 <= j < n && Inner(n, i, j)
    requires dt != 0.0 && b[i+1][j] != b[i][j]
    ensures ElectricStep(e, b, n, dt, dx)[i][j] != e[i][j]
  {
    var d := b[i+1][j] - b[i][j];
    assert dt * d != 0.0;
    assert dt * d / dx != 0.0;
  }

  /** Starting from all-zero grids, both updates in either order leave everything zero. */
  lemma BothUpdatesFromZero(n: nat, dt: real, dx: real, electricFirst: bool)
    requires dx != 0.0
    ensures BothUpdates(ZeroPlane(n), ZeroPlane(n), n, dt, dx, electricFirst) == (ZeroPlane(n), ZeroPlane(n))
  {
    var z := ZeroPlane(n);
    PlaneExtensional(ElectricStep(z, z, n, dt, dx), z, n);
    PlaneExtensional(MagneticStep(z, z, n, dt, dx), z, n);
  }

  /** The two global grids of the demo. */
  class WaveGrid {
    const size: nat
    var E: Plane
    var B: Plane

    ghost predicate Valid()
      reads this
    {
      IsSquare(E, size) && IsSquare(B, size)
    }

    /** Both grids of extent n, every value 0.0. */
    constructor (n: nat)
      ensures Valid() && size == n && E == ZeroPlane(n) && B == ZeroPlane(n)
    {
      size := n;
      E := ZeroPlane(n);
      B := ZeroPlane(n);
    }

    /** update_electric_field(dt, dx) */
    method UpdateElectricField(dt: real, dx: real)
      requires Valid() && dx != 0.0
      modifies this
      ensures Valid()
      ensures E == ElectricStep(old(E), B, size, dt, dx) && B == old(B)
    {
      ghost var e0 := E;
      ghost var target := ElectricStep(e0, B, size, dt, dx);
      var i := 1;
      while i < size - 1
        invariant 1 <= i <= if size < 2 then 1 else size - 1
        invariant IsSquare(E, size) && B == old(B)
        invariant forall a, c :: 0 <= a < size && 0 <= c < size ==>
          E[a][c] == if a < i then target[a][c] else e0[a][c]
      {
        var j := 1;
        while j < size - 1
          invariant 1 <= j <= size - 1
          invariant IsSquare(E, size) && B == old(B)
          invariant forall a, c :: 0 <= a < size && 0 <= c < size ==>
            E[a][c] == if a < i || (a == i && c < j) then target[a][c] else e0[a][c]
        {
          E := E[i := E[i][j := E[i][j] + dt * (B[i+1][j] - B[i][j]) / dx]];
          j := j + 1;
        }
        i := i + 1;
      }
      PlaneExtensional(E, target, size);
    }

    /** update_magnetic_field(dt, dx) */
    method UpdateMagneticField(dt: real, dx: real)
      requires Valid() && dx != 0.0
      modifies this
      ensures Valid()
      ensures B == MagneticStep(old(B), E, size, dt, dx) && E == old(E)
    {
      ghost var b0 := B;
      ghost var target := MagneticStep(b0, E, size, dt, dx);
      var i := 1;
      while i < size - 1
        invariant 1 <= i <= if size < 2 then 1 else size - 1
        invariant IsSquare(B, size) && E == old(E)
        invariant forall a, c :: 0 <= a < size && 0 <= c < size ==>
          B[a][c] == if a < i then target[a][c] else b0[a][c]
      {
        var j := 1;
        while j < size - 1
          invariant 1 <= j <= size - 1
          invariant IsSquare(B, size) && E == old(E)
          invariant forall a, c :: 0 <= a < size && 0 <= c < size ==>
            B[a][c] == if a < i || (a == i && c < j) then target[a][c] else b0[a][c]
        {
          B := B[i := B[i][j := B[i][j] + dt * (E[i][j+1] - E[i][j]) / dx]];
          j := j + 1;
        }
        i := i + 1;
      }
      PlaneExtensional(B, target, size);
    }

    /**
     * The two threads of main: the mutex lets one update run to completion
     * before the other starts, in an order given here by electricFirst.
     */
    method RunBothThreads(dt: real, dx: real, electricFirst: bool)
      requires Valid() && dx != 0.0
      modifies this
      ensures Valid()
      ensures (E, B) == BothUpdates(old(E), old(B), size, dt, dx, electricFirst)
    {
      if electricFirst {
        UpdateElectricField(dt, dx);
        UpdateMagneticField(dt, dx);
      } else {
        UpdateMagneticField(dt, dx);
        UpdateElectricField(dt, dx);
      }
    }
  }

  /** main: zero grids of extent 100, both threads once; both grids end all zero. */
  method WaveMain(electricFirst: bool) returns (w: WaveGrid)
    ensures w.E == ZeroPlane(GridSize) && w.B == ZeroPlane(GridSize)
  {
    w := new WaveGrid(GridSize);
    w.RunBothThreads(Dt, Dx, electricFirst);
    BothUpdatesFromZero(GridSize, Dt, Dx, electricFirst);
  }
}
