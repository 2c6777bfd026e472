/**
 * The variant DataFrame of dataFrame.cxx and its older copy df_old.cxx:
 * columns of int/double/char/string cells with parallel column names, the
 * row-count check of add_column, the numeric-column test, extraction of
 * numeric columns into real vectors, the numeric matrix (stored column by
 * column, as Eigen's matrix.col(i) fills it) and the entrywise product.
 * A thrown exception becomes a Failure carrying the exception's kind.
 */
module VariantFrame {

  /** DataFrameElement: std::variant<int, double, char, std::string>. */
  datatype Element =
    | IntElem(i: int)
    | DoubleElem(d: real)
    | CharElem(ch: char)
    | StringElem(s: string)

  type Column = seq<Element>

  /** The two exception types the functions throw. */
  datatype Error = InvalidArgument | RuntimeError

  datatype Result<T> = Success(value: T) | Failure(error: Error)

  /** The outcome of add_column, which returns nothing or throws. */
  datatype Status = Ok | Fail(error: Error)

  /** A numeric matrix with `rows` rows, stored as its list of columns. */
  datatype NumericMatrix = NumericMatrix(rows: nat, cols: seq<seq<real>>)

  predicate WellFormed(m: NumericMatrix) {
    forall k :: 0 <= k < |m.cols| ==> |m.cols[k]| == m.rows
  }

  /** The cell test of is_numeric_column: holds int or double. */
  predicate IsNumeric(e: Element) {
    e.IntElem? || e.DoubleElem?
  }

  /** is_numeric_column: std::all_of over the cells, checked front to back. */
  function IsNumericColumn(column: Column): (r: bool)
    ensures r <==> forall i :: 0 <= i < |column| ==> IsNumeric(column[i])
  {
    if |column| == 0 then true
    else IsNumeric(column[0]) && IsNumericColumn(column[1..])
  }

  /** All columns have the row count of the first one. */
  predicate Rectangular(columns: seq<Column>) {
    forall k :: 0 <= k < |columns| ==> |columns[k]| == |columns[0]|
  }

  /** static_cast<double> of a numeric cell. */
  function AsReal(e: Element): real
    requires IsNumeric(e)
  {
    if e.IntElem? then e.i as real else e.d
  }

  /** The values a numeric column converts to, cell by cell. */
  function Values(column: Column): (v: seq<real>)
    requires IsNumericColumn(column)
    ensures |v| == |column|
  {
    seq(|column|, i requires 0 <= i < |column| => AsReal(column[i]))
  }

  /** The numeric columns, in frame order. */
  function NumericColumns(columns: seq<Column>): (r: seq<Column>)
    ensures |r| <= |columns|
    ensures forall k :: 0 <= k < |r| ==> IsNumericColumn(r[k]) && r[k] in columns
    decreases |columns|
  {
    if |columns| == 0 then []
    else
      var rest := NumericColumns(columns[..|columns| - 1]);
      var last := columns[|columns| - 1];
      if IsNumericColumn(last) then rest + [last] else rest
  }

  /** The frame positions of the numeric columns, strictly increasing. */
  function NumericIndices(columns: seq<Column>): (r: seq<nat>)
    ensures forall k :: 0 <= k < |r| ==> r[k] < |columns|
    ensures forall k, l :: 0 <= k < l < |r| ==> r[k] < r[l]
    decreases |columns|
  {
    if |columns| == 0 then []
    else
      var rest := NumericIndices(columns[..|columns| - 1]);
      if IsNumericColumn(columns[|columns| - 1]) then rest + [|columns| - 1] else rest
  }

  /** NumericColumns is the frame read at the positions NumericIndices lists. */
  lemma {:induction false} NumericColumnsAtIndices(columns: seq<Column>)
    ensures |NumericIndices(columns)| == |NumericColumns(columns)|
    ensures forall k :: 0 <= k < |NumericIndices(columns)| ==>
      NumericColumns(columns)[k] == columns[NumericIndices(columns)[k]]
    decreases |columns|
  {
    if |columns| > 0 {
      var init := columns[..|columns| - 1];
      NumericColumnsAtIndices(init);
      var idx, rest := NumericIndices(init), NumericColumns(init);
      forall k | 0 <= k < |idx|
        ensures rest[k] == columns[idx[k]]
      {
        assert init[idx[k]] == columns[idx[k]];
      }
    }
  }

  /** NumericIndices lists every numeric position and no other. */
  lemma {:induction false} NumericIndicesExact(columns: seq<Column>)
    ensures forall p :: 0 <= p < |columns| ==>
      (IsNumericColumn(columns[p]) <==> p in NumericIndices(columns))
    decreases |columns|
  {
    if |columns| > 0 {
      var init := columns[..|columns| - 1];
      NumericIndicesExact(init);
      forall p | 0 <= p < |columns|
        ensures IsNumericColumn(columns[p]) <==> p in NumericIndices(columns)
      {
        if p < |init| {
          assert init[p] == columns[p];
          assert p != |columns| - 1;
        }
      }
    }
  }

  /** The frame has no numeric column exactly when NumericColumns is empty. */
  lemma {:induction false} NumericColumnsEmpty(columns: seq<Column>)
    ensures NumericColumns(columns) == [] <==> forall k :: 0 <= k < |columns| ==> !IsNumericColumn(columns[k])
    decreases |columns|
  {
    if |columns| > 0 {
      var init := columns[..|columns| - 1];
      NumericColumnsEmpty(init);
      assert forall p :: 0 <= p < |init| ==> init[p] == columns[p];
    }
  }

  /** Values of a list of numeric columns. */
  function ValuesOf(columns: seq<Column>): (vs: seq<seq<real>>)
    requires forall k :: 0 <= k < |columns| ==> IsNumericColumn(columns[k])
    ensures |vs| == |columns| && forall k :: 0 <= k < |vs| ==> |vs[k]| == |columns[k]|
  {
    seq(|columns|, k requires 0 <= k < |columns| => Values(columns[k]))
  }

  /**
   * What build_numeric_matrix returns: columns[0].size() rows and one matrix
   * column per numeric frame column, or runtime_error when there is none.
   */
  function NumericMatrixOf(columns: seq<Column>): (r: Result<NumericMatrix>)
    requires |columns| > 0 && Rectangular(columns)
    ensures r.Success? ==> WellFormed(r.value) && r.value.rows == |columns[0]|
  {
    var numeric := NumericColumns(columns);
    if |numeric| == 0 then Failure(RuntimeError)
    else Success(NumericMatrix(|columns[0]|, ValuesOf(numeric)))
  }

  /** build_numeric_matrix fails with runtime_error exactly when no column is numeric. */
  lemma NumericMatrixFails(columns: seq<Column>)
    requires |columns| > 0 && Rectangular(columns)
    ensures NumericMatrixOf(columns).Failure? <==> forall k :: 0 <= k < |columns| ==> !IsNumericColumn(columns[k])
    ensures NumericMatrixOf(columns).Failure? ==> NumericMatrixOf(columns).error == RuntimeError
  {
    NumericColumnsEmpty(columns);
  }

  /** Column i of the built matrix is the i-th numeric frame column, converted to reals. */
  lemma NumericMatrixColumns(columns: seq<Column>, i: nat)
    requires |columns| > 0 && Rectangular(columns)
    requires NumericMatrixOf(columns).Success?
    requires i < |NumericMatrixOf(columns).value.cols|
    ensures i < |NumericIndices(columns)|
    ensures IsNumericColumn(columns[NumericIndices(columns)[i]])
    ensures NumericMatrixOf(columns).value.cols[i] == Values(columns[NumericIndices(columns)[i]])
  {
    NumericColumnsAtIndices(columns);
  }

  // ---------------------------------------------------------------------
  // extract_numeric_column

  /**
   * extract_numeric_column as written: the `if constexpr` compares the
   * reference type of `val` with int and double, which never matches, so no
   * cell of the result is written and the vector keeps whatever its
   * uninitialised storage held, given here as `storage`.
   */
  function ExtractAsWritten(column: Column, storage: seq<real>): (r: Result<seq<real>>)
    requires |storage| == |column|
    ensures r.Failure? <==> !IsNumericColumn(column)
    ensures r.Success? ==> r.value == storage
  {
    if !IsNumericColumn(column) then Failure(InvalidArgument) else Success(storage)
  }

  /** As written, the column [1] can come back as [0.0]: its value is lost. */
  lemma ExtractAsWrittenLosesValues()
    ensures IsNumericColumn([IntElem(1)])
    ensures ExtractAsWritten([IntElem(1)], [0.0]) == Success([0.0])
    ensures Values([IntElem(1)]) == [1.0]
    ensures ExtractAsWritten([IntElem(1)], [0.0]) != Success(Values([IntElem(1)]))
  {
    assert Values([IntElem(1)])[0] == 1.0;
  }

  /** As written, the conversion is right only when the storage happened to hold it already. */
  lemma ExtractAsWrittenCorrectOnlyBy(column: Column, storage: seq<real>)
    requires |storage| == |column| && IsNumericColumn(column)
    ensures ExtractAsWritten(column, storage) == Success(Values(column)) <==> storage == Values(column)
  {
  }

  /**
   * extract_numeric_column as intended: invalid_argument for a non-numeric
   * column, otherwise each cell converted to double.
   */
  method ExtractNumericColumn(column: Column) returns (r: Result<seq<real>>)
    ensures r.Failure? <==> !IsNumericColumn(column)
    ensures r.Failure? ==> r.error == InvalidArgument
    ensures r.Success? ==> r.value == Values(column) && |r.value| == |column|
  {
    if !IsNumericColumn(column) {
      return Failure(InvalidArgument);
    }
    var result := seq(|column|, _ => 0.0);
    var i := 0;
    while i < |column|
      invariant 0 <= i <= |column| && |result| == |column|
      invariant forall p :: 0 <= p < i ==> result[p] == AsReal(column[p])
    {
      var v := if column[i].IntElem? then column[i].i as real else column[i].d;
      result := result[i := v];
      i := i + 1;
    }
    return Success(result);
  }

  // ---------------------------------------------------------------------
  // entrywise product

  /**
   * elementwise_multiply after both matrices are built: invalid_argument when
   * the shapes differ, otherwise the entrywise product.
   */
  function EntrywiseProduct(m1: NumericMatrix, m2: NumericMatrix): (r: Result<NumericMatrix>)
    requires WellFormed(m1) && WellFormed(m2)
    ensures r.Failure? <==> m1.rows != m2.rows || |m1.cols| != |m2.cols|
    ensures r.Failure? ==> r.error == InvalidArgument
    ensures r.Success? ==> WellFormed(r.value) && r.value.rows == m1.rows && |r.value.cols| == |m1.cols|
  {
    if m1.rows != m2.rows || |m1.cols| != |m2.cols| then Failure(InvalidArgument)
    else Success(NumericMatrix(m1.rows,
      seq(|m1.cols|, c requires 0 <= c < |m1.cols| =>
        seq(m1.rows, row requires 0 <= row < m1.rows => m1.cols[c][row] * m2.cols[c][row]))))
  }

  /** The entrywise product is commutative. */
  lemma EntrywiseProductCommutes(m1: NumericMatrix, m2: NumericMatrix)
    requires WellFormed(m1) && WellFormed(m2)
    ensures EntrywiseProduct(m1, m2) == EntrywiseProduct(m2, m1)
  {
    if EntrywiseProduct(m1, m2).Success? {
      var p, q := EntrywiseProduct(m1, m2).value, EntrywiseProduct(m2, m1).value;
      assert |p.cols| == |q.cols|;
      forall c | 0 <= c < |p.cols|
        ensures p.cols[c] == q.cols[c]
      {
        assert |p.cols[c]| == |q.cols[c]|;
        forall row | 0 <= row < p.rows
          ensures p.cols[c][row] == q.cols[c][row]
        {
          assert p.cols[c][row] == m1.cols[c][row] * m2.cols[c][row];
        }
      }
      assert p.cols == q.cols;
      assert p == q;
    }
  }

  /** Each entry of the product is the product of the two entries at the same place. */
  lemma EntrywiseProductEntry(m1: NumericMatrix, m2: NumericMatrix, c: nat, row: nat)
    requires WellFormed(m1) && WellFormed(m2)
    requires EntrywiseProduct(m1, m2).Success? && c < |m1.cols| && row < m1.rows
    ensures EntrywiseProduct(m1, m2).value.cols[c][row] == m1.cols[c][row] * m2.cols[c][row]
  {
  }

  /** Multiplying by a same-shaped matrix of ones gives the matrix back. */
  lemma EntrywiseProductOnes(m: NumericMatrix, ones: NumericMatrix)
    requires WellFormed(m) && WellFormed(ones)
    requires ones.rows == m.rows && |ones.cols| == |m.cols|
    requires forall c, row :: 0 <= c < |ones.cols| && 0 <= row < ones.rows ==> ones.cols[c][row] == 1.0
    ensures EntrywiseProduct(m, ones) == Success(m)
  {
    var p := EntrywiseProduct(m, ones).value;
    forall c | 0 <= c < |m.cols|
      ensures p.cols[c] == m.cols[c]
    {
      assert |p.cols[c]| == |m.cols[c]|;
      forall row | 0 <= row < m.rows
        ensures p.cols[c][row] == m.cols[c][row]
      {
        assert p.cols[c][row] == m.cols[c][row] * 1.0;
      }
    }
    assert p.cols == m.cols;
    assert p == m;
  }

  // ---------------------------------------------------------------------
  // The frame

  /** struct DataFrame: the columns and their names, grown by add_column. */
  class DataFrame {
    var columns: seq<Column>
    var columnNames: seq<string>

    /** What add_column keeps: one name per column and a common row count. */
    ghost predicate Valid()
      reads this
    {
      |columns| == |columnNames| && Rectangular(columns)
    }

    /** A default-constructed DataFrame: no columns, no names. */
    constructor ()
      ensures Valid() && columns == [] && columnNames == []
    {
      columns := [];
      columnNames := [];
    }

    /**
     * add_column: invalid_argument when the frame already has a column and
     * the new one's size differs from columns[0]; otherwise the name and the
     * column are appended at the end.
     */
    method AddColumn(name: string, column: Column) returns (status: Status)
      modifies this
      ensures status.Fail? <==> |old(columns)| > 0 && |old(columns)[0]| != |column|
      ensures status.Fail? ==> status.error == InvalidArgument
      ensures status.Fail? ==> columns == old(columns) && columnNames == old(columnNames)
      ensures status.Ok? ==> columns == old(columns) + [column] && columnNames == old(columnNames) + [name]
      ensures old(Valid()) ==> Valid()
    {
      if |columns| > 0 && |columns[0]| != |column| {
        return Fail(InvalidArgument);
      }
      columnNames := columnNames + [name];
      columns := columns + [column];
      return Ok;
    }

    /**
     * build_numeric_matrix: the numeric columns are extracted in frame order
     * and copied into the matrix one column at a time. columns[0] is read
     * unconditionally, so the frame must have a column.
     */
    method BuildNumericMatrix() returns (r: Result<NumericMatrix>)
      requires Valid() && |columns| > 0
      ensures r == NumericMatrixOf(columns)
    {
      var numRows := |columns[0]|;
      var numericColumns: seq<seq<real>> := [];
      var i := 0;
      while i < |columns|
        invariant 0 <= i <= |columns|
        invariant numericColumns == ValuesOf(NumericColumns(columns[..i]))
      {
        assert columns[..i + 1][..i] == columns[..i];
        if IsNumericColumn(columns[i]) {
          var extracted := ExtractNumericColumn(columns[i]);
          numericColumns := numericColumns + [extracted.value];
        }
        i := i + 1;
      }
      assert columns[..|columns|] == columns;
      if |numericColumns| == 0 {
        return Failure(RuntimeError);
      }
      var matrix := seq(|numericColumns|, _ => seq(numRows, _ => 0.0));
      var c := 0;
      while c < |numericColumns|
        invariant 0 <= c <= |numericColumns| && |matrix| == |numericColumns|
        invariant forall k :: 0 <= k < c ==> matrix[k] == numericColumns[k]
      {
        matrix := matrix[c := numericColumns[c]];
        c := c + 1;
      }
      assert matrix == numericColumns;
      return Success(NumericMatrix(numRows, matrix));
    }
  }

  /**
   * elementwise_multiply(df1, df2): build both numeric matrices (an error of
   * the first one is thrown first), then the entrywise product.
   */
  method ElementwiseMultiply(df1: DataFrame, df2: DataFrame) returns (r: Result<NumericMatrix>)
    requires df1.Valid() && |df1.columns| > 0
    requires NumericMatrixOf(df1.columns).Success? ==> df2.Valid() && |df2.columns| > 0
    ensures NumericMatrixOf(df1.columns).Failure? ==> r == NumericMatrixOf(df1.columns)
    ensures NumericMatrixOf(df1.columns).Success? && NumericMatrixOf(df2.columns).Failure? ==>
      r == NumericMatrixOf(df2.columns)
    ensures NumericMatrixOf(df1.columns).Success? && NumericMatrixOf(df2.columns).Success? ==>
      r == EntrywiseProduct(NumericMatrixOf(df1.columns).value, NumericMatrixOf(df2.columns).value)
  {
    var matrix1 := df1.BuildNumericMatrix();
    if matrix1.Failure? {
      return matrix1;
    }
    var matrix2 := df2.BuildNumericMatrix();
    if matrix2.Failure? {
      return matrix2;
    }
    r := EntrywiseProduct(matrix1.value, matrix2.value);
  }

  /**
   * A df1 without numeric columns makes elementwise_multiply throw
   * runtime_error before df2 is read, even when df2 is empty.
   */
  method FirstFrameFailsFirst() returns (r: Result<NumericMatrix>)
    ensures r == Failure(RuntimeError)
  {
    var df1 := new DataFrame();
    var s := df1.AddColumn("Chars", [CharElem('A')]);
    var df2 := new DataFrame();
    r := ElementwiseMultiply(df1, df2);
  }

  // ---------------------------------------------------------------------
  // The two main programs

  /** Two frames of two numeric columns each, as main in dataFrame.cxx builds them. */
  method ProductFrames() returns (df1: DataFrame, df2: DataFrame)
    ensures fresh(df1) && fresh(df2)
    ensures df1.Valid() && df1.columns == [[IntElem(1), IntElem(2), IntElem(3)],
                                          [DoubleElem(1.5), DoubleElem(2.5), DoubleElem(3.5)]]
    ensures df2.Valid() && df2.columns == [[IntElem(4), IntElem(5), IntElem(6)],
                                          [DoubleElem(2.0), DoubleElem(3.0), DoubleElem(4.0)]]
  {
    df1 := new DataFrame();
    df2 := new DataFrame();
    var s := df1.AddColumn("Integers", [IntElem(1), IntElem(2), IntElem(3)]);
    s := df1.AddColumn("Doubles", [DoubleElem(1.5), DoubleElem(2.5), DoubleElem(3.5)]);
    s := df2.AddColumn("Integers", [IntElem(4), IntElem(5), IntElem(6)]);
    s := df2.AddColumn("Doubles", [DoubleElem(2.0), DoubleElem(3.0), DoubleElem(4.0)]);
  }

  /** Appending a column to the frame appends it to NumericColumns exactly when it is numeric. */
  lemma NumericColumnsSnoc(columns: seq<Column>, c: Column)
    ensures NumericColumns(columns + [c]) == NumericColumns(columns) + (if IsNumericColumn(c) then [c] else [])
  {
    assert (columns + [c])[..|columns|] == columns;
  }

  /** Two numeric columns followed by two others: NumericColumns keeps the first two. */
  lemma TwoThenTwo(c0: Column, c1: Column, c2: Column, c3: Column)
    requires IsNumericColumn(c0) && IsNumericColumn(c1)
    requires !IsNumericColumn(c2) && !IsNumericColumn(c3)
    ensures NumericColumns([c0, c1, c2, c3]) == [c0, c1]
  {
    NumericColumnsSnoc([], c0);
    assert [] + [c0] == [c0];
    NumericColumnsSnoc([c0], c1);
    assert [c0] + [c1] == [c0, c1];
    NumericColumnsSnoc([c0, c1], c2);
    assert [c0, c1] + [c2] == [c0, c1, c2];
    NumericColumnsSnoc([c0, c1, c2], c3);
    assert [c0, c1, c2] + [c3] == [c0, c1, c2, c3];
  }

  /** A two-column frame of numeric columns builds into the matrix of their values. */
  lemma TwoNumericColumns(c0: Column, c1: Column)
    requires |c0| == |c1| > 0 && IsNumericColumn(c0) && IsNumericColumn(c1)
    ensures NumericMatrixOf([c0, c1]) == Success(NumericMatrix(|c0|, [Values(c0), Values(c1)]))
  {
    NumericColumnsSnoc([], c0);
    assert [] + [c0] == [c0];
    NumericColumnsSnoc([c0], c1);
    assert [c0] + [c1] == [c0, c1];
    assert NumericColumns([c0, c1]) == [c0, c1];
    assert ValuesOf([c0, c1]) == [Values(c0), Values(c1)];
  }

  /**
   * main in dataFrame.cxx: with values converted as intended, the product of
   * (1, 2, 3 | 1.5, 2.5, 3.5) and (4, 5, 6 | 2, 3, 4) is (4, 10, 18 | 3, 7.5, 14).
   */
  method FrameProductMain() returns (r: Result<NumericMatrix>)
    ensures r == Success(NumericMatrix(3, [[4.0, 10.0, 18.0], [3.0, 7.5, 14.0]]))
  {
    var df1, df2 := ProductFrames();
    TwoNumericColumns(df1.columns[0], df1.columns[1]);
    TwoNumericColumns(df2.columns[0], df2.columns[1]);
    assert Values(df1.columns[0]) == [1.0, 2.0, 3.0] && Values(df1.columns[1]) == [1.5, 2.5, 3.5];
    assert Values(df2.columns[0]) == [4.0, 5.0, 6.0] && Values(df2.columns[1]) == [2.0, 3.0, 4.0];
    r := ElementwiseMultiply(df1, df2);
    var p := r.value;
    assert p.cols[0] == [4.0, 10.0, 18.0];
    assert p.cols[1] == [3.0, 7.5, 14.0];
    assert p.cols == [[4.0, 10.0, 18.0], [3.0, 7.5, 14.0]];
  }

  function MixedColumns(): seq<Column> {
    [[IntElem(1), IntElem(2), IntElem(3)],
     [DoubleElem(1.5), DoubleElem(2.5), DoubleElem(3.5)],
     [CharElem('A'), CharElem('B'), CharElem('C')],
     [StringElem("Alice"), StringElem("Bob"), StringElem("Charlie")]]
  }

  /** Of the int, double, char and string columns, the matrix keeps the first two. */
  lemma MixedColumnsMatrix()
    ensures Rectangular(MixedColumns())
    ensures NumericMatrixOf(MixedColumns()) == Success(NumericMatrix(3, [[1.0, 2.0, 3.0], [1.5, 2.5, 3.5]]))
  {
    var cs := MixedColumns();
    var c0, c1, c2, c3 := cs[0], cs[1], cs[2], cs[3];
    assert IsNumericColumn(c0) && IsNumericColumn(c1);
    assert !IsNumericColumn(c2) && !IsNumericColumn(c3);
    TwoThenTwo(c0, c1, c2, c3);
    assert [c0, c1, c2, c3] == cs;
    assert ValuesOf([c0, c1]) == [Values(c0), Values(c1)];
    assert Values(c0) == [1.0, 2.0, 3.0];
    assert Values(c1) == [1.5, 2.5, 3.5];
  }

  /** The frame main in df_old.cxx builds with four add_column calls. */
  method MixedFrame() returns (df: DataFrame)
    ensures df.Valid() && df.columns == MixedColumns()
    ensures df.columnNames == ["Integers", "Doubles", "Chars", "Strings"]
  {
    df := new DataFrame();
    var s := df.AddColumn("Integers", [IntElem(1), IntElem(2), IntElem(3)]);
    s := df.AddColumn("Doubles", [DoubleElem(1.5), DoubleElem(2.5), DoubleElem(3.5)]);
    s := df.AddColumn("Chars", [CharElem('A'), CharElem('B'), CharElem('C')]);
    s := df.AddColumn("Strings", [StringElem("Alice"), StringElem("Bob"), StringElem("Charlie")]);
  }

  /** main in df_old.cxx up to build_numeric_matrix: the numeric matrix of the mixed frame. */
  method MixedFrameMain() returns (r: Result<NumericMatrix>)
    ensures r == Success(NumericMatrix(3, [[1.0, 2.0, 3.0], [1.5, 2.5, 3.5]]))
  {
    var df := MixedFrame();
    MixedColumnsMatrix();
    r := df.BuildNumericMatrix();
  }
}
