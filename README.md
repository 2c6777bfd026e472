# Numerical kernels and data containers of Principia_Mathematica-, in Dafny

This project models the small array algorithms of the repository, and proves
properties of those models:

- **FDTD leakage mock.** Three N×N×N grids: the electric field E, the magnetic field B and the current density J.
  - Interior-only update stencils for E and B.
  - A step loop.
  - A leakage sum over the boundary ring of the k = 0 slice.
  - A shielding operation that damps a cube of cells by 1/10.
  - The run / measure / shield / rerun sequence of `main`.
- **2D wave demo.** Two interior-only stencils on the grids E and B. Each of the two threads runs one of them, under one mutex.
- **Linear algebra kernels.**
  - Gaussian elimination without pivoting, followed by back substitution.
  - A real matrix-vector product.
  - An integer matrix-matrix product.
- **Variant DataFrame.** `dataFrame_cxx/dataFrame.cxx` and its older copy `df_old.cxx` share one model. It has:
  - columns of int/double/char/string cells, with parallel names
  - the row-count check of `add_column`
  - the numeric-column test
  - numeric extraction
  - the numeric matrix
  - the entrywise product of two frames
- **Demo containers** of `data_architecture_demo.cxx`: `DataPoint`, the analyzer's `data_`, the demo `DataFrame`, and `Calculator<int>::add`.

**How the model is written.**

- **Arithmetic.**
  - `double` is modelled as exact `real`.
  - The damping factor is exactly 1/10.
  - `mu_0` and `delta_time` are constants with the source's values.
- **State.** The in-place grids and matrices are `seq` fields of classes (`FieldVolume`, `WaveGrid`), or local `seq` copies (Gaussian elimination). They are reassigned cell by cell in the same nested loops as the source.
- **Specifications.**
  - Every such method is proved equal to a value-level function of its inputs, for example `ElectricStep`, `Shield`, `Simulate`, `ForwardM`, `BackSubst` or `NumericMatrixOf`.
  - The properties are proved about those functions.
- **Errors.** A thrown exception becomes a `Failure`, or a `Fail` status, carrying the exception's kind.
- **Preconditions.** Most undefined behaviour the source leaves to its callers is a `requires`. Examples:
  - an out-of-range index
  - a zero pivot
  - a division by zero in the progress test
  - signed overflow in `Calculator<int>::add`

  Two overflows are not excluded: those of the integer matrix product and of the progress percentage. Both are listed under "## Left out".

Modules, one per source file (the FDTD file has two):

- `FdtdGrid` and `FdtdVolume`: the FDTD file. `FdtdGrid` holds the value-level grid functions. `FdtdVolume` holds the class.
- `Wave2D`: `Electromagnetic_Wave_Propagation_Sim/main.cxx`.
- `LinearSystem`: `tensor_dir/System_of_Linear_Equations.cxx`.
- `MatrixVector`: `tensor_dir/matrix_vector_MULTI.cxx`.
- `IntMatrix`: `tensor_dir/tensor_iterators_loops/example.cxx`.
- `VariantFrame`: both DataFrame files.
- `ArchitectureDemo`: `data_architecture_demo.cxx`.

`VectorSum` holds the partial dot product that the three linear-algebra modules share.

## Model

| member | source | states |
|---|---|---|
| FdtdVolume.FieldVolume.UpdateElectricField | cybersecurity_Maxwell_equation/FDTD-Based_Electromagnetic_Leakage_Detection_for_Secure_Hardware_Design.cxx:102-115 | E becomes ElectricStep of the old E and B; B and J are unchanged |
| FdtdGrid.ElectricStep | cybersecurity_Maxwell_equation/FDTD-Based_Electromagnetic_Leakage_Detection_for_Secure_Hardware_Design.cxx:104-111 | the result is a cube; each interior cell is old − dt·((B[i][j+1][k]−B[i][j−1][k])/2 − (B[i+1][j][k]−B[i−1][j][k])/2), every other cell is unchanged |
| FdtdGrid.ElectricStepKeepsBoundary | cybersecurity_Maxwell_equation/FDTD-Based_Electromagnetic_Leakage_Detection_for_Secure_Hardware_Design.cxx:104-106 | no cell outside 1 ≤ i,j,k ≤ N−2 is written |
| FdtdVolume.FieldVolume.UpdateMagneticField | cybersecurity_Maxwell_equation/FDTD-Based_Electromagnetic_Leakage_Detection_for_Secure_Hardware_Design.cxx:119-133 | B becomes MagneticStep of the old B, E and J; E and J are unchanged |
| FdtdGrid.MagneticStep | cybersecurity_Maxwell_equation/FDTD-Based_Electromagnetic_Leakage_Detection_for_Secure_Hardware_Design.cxx:121-129 | each interior cell gains dt·(E differences + mu_0·J[i][j][k]); every other cell is unchanged |
| FdtdGrid.MagneticStepKeepsBoundary | cybersecurity_Maxwell_equation/FDTD-Based_Electromagnetic_Leakage_Detection_for_Secure_Hardware_Design.cxx:121-123 | no B cell outside the interior is written |
| FdtdGrid.MagneticStepWithoutSources | cybersecurity_Maxwell_equation/FDTD-Based_Electromagnetic_Leakage_Detection_for_Secure_Hardware_Design.cxx:125-129 | with E and J all zero, the magnetic update leaves B exactly as it was |
| FdtdGrid.ElectricStepWithoutField | cybersecurity_Maxwell_equation/FDTD-Based_Electromagnetic_Leakage_Detection_for_Secure_Hardware_Design.cxx:108-111 | with B all zero, the electric update leaves E exactly as it was |
| FdtdVolume.FieldVolume.RunFdtdSimulation | cybersecurity_Maxwell_equation/FDTD-Based_Electromagnetic_Leakage_Detection_for_Secure_Hardware_Design.cxx:137-148 | the state after the call is Simulate of the old state over max(num_steps, 0) rounds of the electric and then the magnetic update; it requires num_steps ≤ 0 or ≥ 10, so that the progress test does not divide by zero |
| FdtdGrid.SimulateKeepsBoundary | cybersecurity_Maxwell_equation/FDTD-Based_Electromagnetic_Leakage_Detection_for_Secure_Hardware_Design.cxx:138-141 | after any number of steps, every non-interior cell of E and B is unchanged, and J is unchanged |
| FdtdGrid.SimulateFromZero | cybersecurity_Maxwell_equation/FDTD-Based_Electromagnetic_Leakage_Detection_for_Secure_Hardware_Design.cxx:187-192 | from the all-zero grids of main, any number of steps leaves all three fields zero |
| FdtdVolume.FieldVolume.AnalyzeEmLeakage | cybersecurity_Maxwell_equation/FDTD-Based_Electromagnetic_Leakage_Detection_for_Secure_Hardware_Design.cxx:152-164 | it mutates nothing; the result is Leakage(E), the sum of \|E[i][j][0]\| over the cells with i or j on the border, and it is ≥ 0 |
| FdtdGrid.LeakageNonNegative | cybersecurity_Maxwell_equation/FDTD-Based_Electromagnetic_Leakage_Detection_for_Secure_Hardware_Design.cxx:153-163 | the leakage sum is never negative |
| FdtdGrid.LeakageReadsOnlyRing | cybersecurity_Maxwell_equation/FDTD-Based_Electromagnetic_Leakage_Detection_for_Secure_Hardware_Design.cxx:154-159 | two grids that agree on the k = 0 ring cells have equal leakage |
| FdtdGrid.LeakageMonotone | cybersecurity_Maxwell_equation/FDTD-Based_Electromagnetic_Leakage_Detection_for_Secure_Hardware_Design.cxx:159 | the leakage is monotone in the magnitudes of the ring cells |
| FdtdGrid.ElectricStepKeepsLeakage | cybersecurity_Maxwell_equation/FDTD-Based_Electromagnetic_Leakage_Detection_for_Secure_Hardware_Design.cxx:104-106 | the electric update does not change the leakage |
| FdtdGrid.SimulateKeepsLeakage | cybersecurity_Maxwell_equation/FDTD-Based_Electromagnetic_Leakage_Detection_for_Secure_Hardware_Design.cxx:138-141 | the leakage is invariant under any number of simulation steps |
| FdtdGrid.LeakageOfZero | cybersecurity_Maxwell_equation/FDTD-Based_Electromagnetic_Leakage_Detection_for_Secure_Hardware_Design.cxx:187 | all-zero fields have leakage 0 |
| FdtdVolume.ScaledRowIsShieldRow | cybersecurity_Maxwell_equation/FDTD-Based_Electromagnetic_Leakage_Detection_for_Secure_Hardware_Design.cxx:170-176 | inside the cube's footprint, the row that the k loop produces is the matching row of Shield |
| FdtdVolume.FieldVolume.ShieldRow | cybersecurity_Maxwell_equation/FDTD-Based_Electromagnetic_Leakage_Detection_for_Secure_Hardware_Design.cxx:172-176 | the k loop scales cells (i, j, k) of E and of B by 1/10 for z_start ≤ k < z_start + thickness; every other cell and J are unchanged |
| FdtdVolume.FieldVolume.ApplyShielding | cybersecurity_Maxwell_equation/FDTD-Based_Electromagnetic_Leakage_Detection_for_Secure_Hardware_Design.cxx:168-179 | E and B become Shield of their old values and J is unchanged; it requires the cube to lie within the grid (the source has no bounds check) |
| FdtdGrid.ShieldScalesRegion | cybersecurity_Maxwell_equation/FDTD-Based_Electromagnetic_Leakage_Detection_for_Secure_Hardware_Design.cxx:170-175 | exactly the cells of [x,x+t)×[y,y+t)×[z,z+t) are multiplied by 1/10; every other cell is unchanged |
| FdtdGrid.ShieldDoesNotIncreaseLeakage | cybersecurity_Maxwell_equation/FDTD-Based_Electromagnetic_Leakage_Detection_for_Secure_Hardware_Design.cxx:152-179 | the leakage after shielding is ≤ the leakage before |
| FdtdVolume.DetectAndShield | cybersecurity_Maxwell_equation/FDTD-Based_Electromagnetic_Leakage_Detection_for_Secure_Hardware_Design.cxx:192-203 | the measured leakage is that of the initial E (the run does not change it); the shield branch is taken iff leakage > threshold; the final state is the run, or the run then the shield then the run again; the cube must lie inside the grid only when the shield branch is taken |
| FdtdVolume.LeakageDetectionMain | cybersecurity_Maxwell_equation/FDTD-Based_Electromagnetic_Leakage_Detection_for_Secure_Hardware_Design.cxx:181-206 | main measures a leakage of 0 and never shields, and E, B and J end as the all-zero grids of extent 100 |
| Wave2D.WaveGrid.UpdateElectricField | Electromagnetic_Wave_Propagation_Sim/main.cxx:19-27 | E becomes ElectricStep of the old E and B, and B is unchanged; it requires dx ≠ 0 |
| Wave2D.ElectricStep | Electromagnetic_Wave_Propagation_Sim/main.cxx:21-24 | each interior cell is old + dt·(B[i+1][j]−B[i][j])/dx; every other cell is unchanged |
| Wave2D.WaveGrid.UpdateMagneticField | Electromagnetic_Wave_Propagation_Sim/main.cxx:30-38 | B becomes MagneticStep of the old B and E, and E is unchanged |
| Wave2D.MagneticStep | Electromagnetic_Wave_Propagation_Sim/main.cxx:32-35 | each interior cell is old + dt·(E[i][j+1]−E[i][j])/dx; every other cell is unchanged |
| Wave2D.ElectricStepMovesInterior | Electromagnetic_Wave_Propagation_Sim/main.cxx:24 | an interior cell does change when dt ≠ 0 and its B difference is nonzero |
| Wave2D.BothUpdatesKeepBorder | Electromagnetic_Wave_Propagation_Sim/main.cxx:19-38 | in either order, rows and columns 0 and n−1 of both grids are never written |
| Wave2D.WaveGrid.RunBothThreads | Electromagnetic_Wave_Propagation_Sim/main.cxx:45-50 | the two threads, serialised by the mutex, give BothUpdates in the chosen order |
| Wave2D.BothUpdatesFromZero | Electromagnetic_Wave_Propagation_Sim/main.cxx:13-50 | from zero grids, both orders leave E and B all zero |
| Wave2D.WaveMain | Electromagnetic_Wave_Propagation_Sim/main.cxx:40-50 | after main's two threads, both grids of extent 100 are all zero |
| LinearSystem.ReduceRow | tensor_dir/System_of_Linear_Equations.cxx:56-58 | the inner loop returns row k minus factor times row i on columns i ≤ j < n; the other columns are unchanged |
| LinearSystem.EliminateRow | tensor_dir/System_of_Linear_Equations.cxx:53-61 | the factor is A[k][i]/A[i][i]; row k becomes row k minus factor times row i on columns i ≤ j < n; b[k] becomes b[k] − factor·b[i]; it requires A[i][i] ≠ 0 |
| LinearSystem.EliminateBelow | tensor_dir/System_of_Linear_Equations.cxx:51-62 | with a nonzero pivot, pass i equals MatPass and RhsPass: only rows k > i change, with factor A[k][i]/A[i][i] |
| LinearSystem.MatPassFrame | tensor_dir/System_of_Linear_Equations.cxx:49-62 | pass i leaves rows ≤ i (the pivot row among them) and columns < i unchanged |
| LinearSystem.ForwardEliminate | tensor_dir/System_of_Linear_Equations.cxx:49-63 | the forward loop yields ForwardM and ForwardC after n passes; it requires every pivot to be nonzero |
| LinearSystem.ForwardRowStable | tensor_dir/System_of_Linear_Equations.cxx:49-63 | row i of the matrix is final once pass i is reached: every later pass changes only the rows below its pivot row |
| LinearSystem.ForwardZeros | tensor_dir/System_of_Linear_Equations.cxx:51-58 | after p passes with nonzero pivots, the columns < p are zero below the diagonal |
| LinearSystem.ForwardUpperTriangular | tensor_dir/System_of_Linear_Equations.cxx:49-63 | after forward elimination the matrix is upper triangular |
| LinearSystem.ForwardDiagonal | tensor_dir/System_of_Linear_Equations.cxx:53-76 | the diagonal of the eliminated matrix is the sequence of pivots that the passes divide by |
| LinearSystem.PassKeepsSolutions | tensor_dir/System_of_Linear_Equations.cxx:51-62 | when row i is already zero left of the diagonal, any solution of the system after pass i solves the system before it |
| LinearSystem.ForwardKeepsSolutions | tensor_dir/System_of_Linear_Equations.cxx:49-63 | with the pivots of the first p passes nonzero, any solution of the system after p passes solves the original A x = b |
| LinearSystem.SubtractSolved | tensor_dir/System_of_Linear_Equations.cxx:68-73 | x[i] = b[i] followed by the inner loop leaves x[i] = b[i] − Σ_{i<j<n} A[i][j]·x[j] and every other entry of x unchanged |
| LinearSystem.BackSubstitute | tensor_dir/System_of_Linear_Equations.cxx:66-77 | the back-substitution loop yields BackSubst: x[i] = (b[i] − Σ_{j>i} A[i][j]·x[j]) / A[i][i], from the last row up |
| LinearSystem.BackSubstStable | tensor_dir/System_of_Linear_Equations.cxx:67-77 | x[j] is final once the loop has passed row j |
| LinearSystem.BackSubstRowSolves | tensor_dir/System_of_Linear_Equations.cxx:66-77 | when row r is zero left of the diagonal and the diagonal is nonzero, the back-substituted vector satisfies equation r |
| LinearSystem.BackSubstSolves | tensor_dir/System_of_Linear_Equations.cxx:66-77 | back substitution solves an upper-triangular system with a nonzero diagonal |
| LinearSystem.SolutionSolves | tensor_dir/System_of_Linear_Equations.cxx:46-77 | with nonzero pivots, the returned vector satisfies the original A x = b |
| LinearSystem.GaussianElimination | tensor_dir/System_of_Linear_Equations.cxx:9-79 | A and b are values (copies); the result has length n = A.size(), equals Solution and solves A x = b; it requires every pivot to be nonzero |
| LinearSystem.MainSystemEliminated | tensor_dir/System_of_Linear_Equations.cxx:135-147 | main's system eliminates to [[2,−1,1],[0,7/2,3/2],[0,0,12/7]] with right-hand side (3, 23/2, 15/7), not the [0 0 2 \| 2] of the comment; all pivots are nonzero |
| LinearSystem.MainSystemUniqueSolution | tensor_dir/System_of_Linear_Equations.cxx:111-131 | the system in main is solved by exactly one vector, (9/4, 11/4, 5/4), so the claimed (1, 3, 1) is not a solution |
| LinearSystem.SolveMainSystem | tensor_dir/System_of_Linear_Equations.cxx:135-147 | gaussian_elimination on main's system returns (9/4, 11/4, 5/4), which differs from (1, 3, 1) |
| VectorSum.RangeDotLinear | tensor_dir/System_of_Linear_Equations.cxx:57-61 | a row operation u = v − f·w carries over to the dot products with any x |
| VectorSum.RangeDotSplit | tensor_dir/System_of_Linear_Equations.cxx:71-73 | a partial dot product splits at any midpoint |
| MatrixVector.MatrixVectorMultiply | tensor_dir/matrix_vector_MULTI.cxx:22-37 | the result is a new vector of length A.size(); w[i] = Σ_{j < v.size()} A[i][j]·v[j], i.e. Product(A, v); it requires every row to have ≥ v.size() entries |
| MatrixVector.ProductOfZeroVector | tensor_dir/matrix_vector_MULTI.cxx:26-33 | a zero or empty vector gives all zeros |
| MatrixVector.ProductAdditive | tensor_dir/matrix_vector_MULTI.cxx:29-33 | A(x + y) = A x + A y, entry by entry |
| MatrixVector.MatrixVectorMain | tensor_dir/matrix_vector_MULTI.cxx:39-51 | main's product is (14, 32, 50) |
| IntMatrix.MultiplyMatrices | tensor_dir/tensor_iterators_loops/example.cxx:4-21 | C has A.size() rows and B[0].size() columns, with C[i][j] = Σ_{k < B.size()} A[i][k]·B[k][j]; it requires B non-empty, rows of A of length ≥ B.size() and rows of B of length ≥ cols |
| IntMatrix.EntrySumIdentity | tensor_dir/tensor_iterators_loops/example.cxx:14-16 | against the identity, the inner sum picks out row[j] |
| IntMatrix.ProductWithIdentity | tensor_dir/tensor_iterators_loops/example.cxx:12-18 | A times the identity has the entries of A |
| IntMatrix.EntrySumZeroColumn | tensor_dir/tensor_iterators_loops/example.cxx:14-16 | a zero column of B gives a zero column of C |
| IntMatrix.IntMatrixMain | tensor_dir/tensor_iterators_loops/example.cxx:24-27 | main's product is {{58,64},{139,154}} |
| VariantFrame.DataFrame.AddColumn | dataFrame_cxx/dataFrame.cxx:34-41 | it fails with invalid_argument iff the frame is non-empty and the column size differs from columns[0].size(), leaving the frame unchanged; otherwise it appends the name and the column; it keeps one name per column and a common row count |
| VariantFrame.IsNumericColumn | dataFrame_cxx/dataFrame.cxx:72-76 | all_of over the cells: true iff every cell holds int or double, and hence true for an empty column |
| VariantFrame.ExtractNumericColumn | dataFrame_cxx/dataFrame.cxx:79-94 | it fails with invalid_argument iff the column is not numeric; otherwise it returns the cells converted to real, in a vector of the column's length |
| VariantFrame.NumericColumnsAtIndices | dataFrame_cxx/dataFrame.cxx:102-106 | the collected columns are the frame read at the positions of NumericIndices, in frame order |
| VariantFrame.NumericIndicesExact | dataFrame_cxx/dataFrame.cxx:102-106 | those positions are exactly the numeric columns (both directions) |
| VariantFrame.NumericColumnsEmpty | dataFrame_cxx/dataFrame.cxx:108-110 | nothing is collected iff no column is numeric |
| VariantFrame.NumericMatrixOf | dataFrame_cxx/dataFrame.cxx:97-119 | a successful build is well formed, with columns[0].size() rows |
| VariantFrame.NumericMatrixFails | dataFrame_cxx/dataFrame.cxx:108-110 | the build fails, with runtime_error, iff no column is numeric |
| VariantFrame.NumericMatrixColumns | dataFrame_cxx/dataFrame.cxx:113-116 | matrix column i is the i-th numeric frame column, converted to reals |
| VariantFrame.DataFrame.BuildNumericMatrix | dataFrame_cxx/dataFrame.cxx:97-119 | the loops return NumericMatrixOf(columns); it requires a non-empty frame (columns[0] is read unconditionally) whose columns have a common length |
| VariantFrame.EntrywiseProduct | dataFrame_cxx/dataFrame.cxx:127-132 | it fails with invalid_argument iff the shapes differ; otherwise the result has the same shape |
| VariantFrame.EntrywiseProductEntry | dataFrame_cxx/dataFrame.cxx:132 | each entry of the result is the product of the two entries at the same place |
| VariantFrame.EntrywiseProductCommutes | dataFrame_cxx/dataFrame.cxx:132 | the entrywise product is commutative, errors included |
| VariantFrame.EntrywiseProductOnes | dataFrame_cxx/dataFrame.cxx:132 | multiplying by a same-shaped matrix of ones gives the matrix back |
| VariantFrame.ElementwiseMultiply | dataFrame_cxx/dataFrame.cxx:122-133 | an error building df1 is returned first, then one building df2; otherwise the result is the EntrywiseProduct of the two matrices |
| VariantFrame.FirstFrameFailsFirst | dataFrame_cxx/dataFrame.cxx:122-126 | a df1 with only a char column and an empty df2 give runtime_error from df1, and df2 is never read |
| VariantFrame.ProductFrames | dataFrame_cxx/dataFrame.cxx:152-168 | main's four add_column calls build df1 with the columns (1, 2, 3) and (1.5, 2.5, 3.5) and df2 with (4, 5, 6) and (2, 3, 4), both valid frames |
| VariantFrame.FrameProductMain | dataFrame_cxx/dataFrame.cxx:151-181 | main's product, with the intended conversion, is the columns (4, 10, 18) and (3, 7.5, 14) |
| VariantFrame.ExtractAsWritten | dataFrame_cxx/dataFrame.cxx:79-94 | as written: invalid_argument iff the column is not numeric; otherwise the vector's uninitialised storage comes back unchanged |
| VariantFrame.ExtractAsWrittenLosesValues | dataFrame_cxx/dataFrame.cxx:86-91 | as written, the column [1] can come back as [0.0] and not as [1.0] |
| VariantFrame.ExtractAsWrittenCorrectOnlyBy | dataFrame_cxx/df_old.cxx:94-98 | as written, the right values come back only if the storage already held them |
| VariantFrame.NumericColumnsSnoc | dataFrame_cxx/df_old.cxx:109-113 | adding a column at the end adds it to the collected columns exactly when it is numeric |
| VariantFrame.MixedColumnsMatrix | dataFrame_cxx/df_old.cxx:172-181 | of the int, double, char and string columns in main, the matrix keeps the first two: 3 rows, (1, 2, 3), (1.5, 2.5, 3.5) |
| VariantFrame.MixedFrame | dataFrame_cxx/df_old.cxx:169-181 | the four add_column calls of main all succeed, appending the columns and names in order |
| VariantFrame.MixedFrameMain | dataFrame_cxx/df_old.cxx:169-190 | build_numeric_matrix in main's analysis returns the 3×2 matrix of the int and double columns |
| ArchitectureDemo.StatisticalAnalyzer.AddDataPoint | data_architecture_demo.cxx:23-25 | dp is appended at the end of data_, and the earlier entries are unchanged |
| ArchitectureDemo.StatisticalAnalyzer.Process | data_architecture_demo.cxx:38-40 | data_ is unchanged |
| ArchitectureDemo.DataFrame.AddColumn | data_architecture_demo.cxx:49-52 | appends to both columns_ and column_names_, keeping their lengths equal |
| ArchitectureDemo.RaggedColumnsAccepted | data_architecture_demo.cxx:49-52 | there is no row-count check: columns of lengths 1 and 2 are both accepted |
| ArchitectureDemo.Add | data_architecture_demo.cxx:63-65 | the result is a + b; the sum must fit in a 32-bit int |
| ArchitectureDemo.ArchitectureMain | data_architecture_demo.cxx:87-102 | the analyzer holds the DataPoint (1, 42.5, "Sample Label") with its fields as given, the frame holds one column named Column1, and the sum is 8 |

## Left out

- **Concurrency.** The mutexes and `lock_guard`s of the FDTD file, and the two threads of the wave demo. Every call is modelled as sequential. The two threads become `RunBothThreads`' choice of order.
- **Floating point.** Rounding, accuracy, NaN and infinity are not modelled: `double` is exact `real`. `epsilon_0` is unused in the source and is not modelled.
- **I/O and timing.**
  - All printing: `print_dataframe`, the progress text of `run_fdtd_simulation`, and every output of `main`.
  - The `chrono` timing.
  - The `Logger` singleton of `data_architecture_demo.cxx`.
- **Printing demos.** The tensor printing demos (`tensor_dir/3d_tensor.cxx`, `2D_3D_tensor.cxx`, `tensor_iterators_loops/1D..4D_it_loop.cxx`) and `tensor_dir/tensor_layer.cxx` only print or hold literals. They are not part of this model.
- **Eigen code.**
  - `tensor_dir/optimizer_problem/main.cxx` evaluates Eigen expressions on literals. It is not part of this model.
  - The means and covariance in `analyze_data_frame` (df_old.cxx:130-150) are not modelled. Only its call to `build_numeric_matrix` is.
  - Eigen vectors and matrices are sequences of reals. A matrix is stored as its list of columns.
- **Physics comments.** The physics the FDTD comments describe is not modelled, only the code. Three places where the code differs from the comments:
  - The leakage scan covers only the k = 0 ring, not the whole boundary shell.
  - The magnetic update reads the E already advanced in the same step.
  - `main` never measures the leakage after the rerun.
- FdtdVolume.FieldVolume.RunFdtdSimulation: requires num_steps ≤ 0 or ≥ 10, because `step % (num_steps / 10)` divides by zero for 1 to 9 steps.
- FdtdVolume.FieldVolume.RunFdtdSimulation: does not exclude the 32-bit overflow of the progress percentage `step * 100 / num_steps`. That product overflows once a printed step reaches 21,474,837, which takes num_steps of about 2.4·10^7 or more. The model leaves the progress text out, so it accepts those step counts.
- FdtdVolume.FieldVolume.ApplyShielding: requires the cube to lie inside the grid (or thickness ≤ 0), because the source indexes without a bounds check.
- **Pivots.**
  - LinearSystem.GaussianElimination: requires every pivot it divides by to be nonzero, because there is no pivoting, despite the comment at line 50.
  - The factor in `Factor` is defined as 0 for a zero pivot only to make the function total. That case never arises under the precondition.
- Wave2D.WaveGrid.UpdateElectricField and Wave2D.WaveGrid.UpdateMagneticField: require dx ≠ 0.
- **Loop bounds.**
  - The wave updates loop to `grid_size`, a constant 100. The model loops to the grids' extent, which `WaveMain` sets to 100.
  - The FDTD updates loop to `size() − 1` of an unsigned size, so the model requires N ≥ 1.
- IntMatrix.MultiplyMatrices: does not model C++ `int` overflow of the products and sums, because Dafny's `int` is unbounded.
- ArchitectureDemo.Add: is modelled for `Calculator<int>` only, the one instantiation used, with the no-overflow precondition that signed arithmetic demands.
- **Demo class structure.** `DataProcessor`'s pure virtual `process` and the inheritance are flattened into `StatisticalAnalyzer`. The `DataPoint` constructor is the datatype constructor. The field `label` is named `dataLabel` because `label` is a Dafny keyword.
- **Helper methods.** `gaussian_elimination` is one function in the source. The model splits its loops into the helper methods `ReduceRow`, `EliminateRow`, `EliminateBelow`, `ForwardEliminate`, `SubtractSolved` and `BackSubstitute`, with the same loop order and updates. Likewise, the innermost loop of `apply_shielding` is the helper method `ShieldRow`.
- **DataFrame values.**
  - `extract_numeric_column` is modelled as intended (see Findings) by `ExtractNumericColumn`. `BuildNumericMatrix`, `ElementwiseMultiply` and the two `main` models use that corrected version. As written, their values are indeterminate.
  - VariantFrame.DataFrame.BuildNumericMatrix: requires all columns to have the row count of the first. Eigen's column assignment needs this only of the numeric columns, but `add_column` keeps it of all columns.

## Findings

| source | as written | input that shows it | evidently intended | confidence | as-written member | corrected member |
|---|---|---|---|---|---|---|
| dataFrame_cxx/dataFrame.cxx:86-91 (same code at dataFrame_cxx/df_old.cxx:94-98) | `decltype(val)` of the `auto&&` parameter is `const int&` or `const double&`, never `int` or `double`, so the `if constexpr` branch never runs. No entry of the uninitialised `VectorXd` is written. | the column {1}: the returned vector holds whatever its storage held (0.0 say), not 1.0 | each cell converted with `static_cast<double>` (e.g. by testing `std::decay_t<decltype(val)>`) | not executed | VariantFrame.ExtractAsWrittenLosesValues | VariantFrame.ExtractNumericColumn |
