/**
 * data_architecture_demo: a DataPoint record, an append-only processor whose
 * process() does nothing, a DataFrame that appends columns and names without
 * checking row counts, and Calculator<int>::add.
 */
module ArchitectureDemo {

  /** struct DataPoint: its constructor stores id, value and label (dataLabel, since label is a Dafny keyword) as given. */
  datatype DataPoint = DataPoint(id: int, value: real, dataLabel: string)

  /**
   * StatisticalAnalyzer with the data_ member it inherits from
   * DataProcessor; process() is the override, which leaves data_ alone.
   */
  class StatisticalAnalyzer {
    var data: seq<DataPoint>

    constructor ()
      ensures data == []
    {
      data := [];
    }

    /** DataProcessor::addDataPoint: push_back onto data_. */
    method AddDataPoint(dp: DataPoint)
      modifies this
      ensures data == old(data) + [dp]
      ensures |data| == |old(data)| + 1 && data[|data| - 1] == dp
      ensures forall k :: 0 <= k < |old(data)| ==> data[k] == old(data)[k]
    {
      data := data + [dp];
    }

    /** StatisticalAnalyzer::process: an empty body. */
    method Process()
      modifies this
      ensures data == old(data)
    {
    }
  }

  /** The demo's DataFrame: columns and names appended side by side. */
  class DataFrame {
    var columns: seq<seq<real>>
    var columnNames: seq<string>

    /** One name per column. */
    ghost predicate Valid()
      reads this
    {
      |columns| == |columnNames|
    }

    constructor ()
      ensures Valid() && columns == [] && columnNames == []
    {
      columns := [];
      columnNames := [];
    }

    /** addColumn: push_back onto both lists; any column length is accepted. */
    method AddColumn(column: seq<real>, name: string)
      modifies this
      ensures columns == old(columns) + [column]
      ensures columnNames == old(columnNames) + [name]
      ensures old(Valid()) ==> Valid()
    {
      columns := columns + [column];
      columnNames := columnNames + [name];
    }
  }

  /** C++ int: 32-bit two's complement. */
  newtype Int32 = x: int | -0x8000_0000 <= x < 0x8000_0000

  predicate FitsInt32(x: int) {
    -0x8000_0000 <= x < 0x8000_0000
  }

  /**
   * Calculator<int>::add. Signed overflow is undefined behaviour in C++, so
   * the sum must fit in an int.
   */
  function Add(a: Int32, b: Int32): (r: Int32)
    requires FitsInt32(a as int + b as int)
    ensures r as int == a as int + b as int
  {
    a + b
  }

  /** addColumn checks nothing: a 1-row column followed by a 2-row column is accepted. */
  method RaggedColumnsAccepted() returns (df: DataFrame)
    ensures df.columns == [[1.0], [1.0, 2.0]] && df.columnNames == ["a", "b"]
    ensures |df.columns[0]| != |df.columns[1]|
  {
    df := new DataFrame();
    df.AddColumn([1.0], "a");
    df.AddColumn([1.0, 2.0], "b");
  }

  /**
   * main without its printing and logging: one data point added to an
   * analyzer, one column added to a frame, and 3 + 5 computed.
   */
  method ArchitectureMain() returns (analyzer: StatisticalAnalyzer, df: DataFrame, sum: Int32)
    ensures analyzer.data == [DataPoint(1, 42.5, "Sample Label")]
    ensures analyzer.data[0].id == 1 && analyzer.data[0].value == 42.5 && analyzer.data[0].dataLabel == "Sample Label"
    ensures df.columns == [[1.0, 2.0, 3.0]] && df.columnNames == ["Column1"]
    ensures sum == 8
  {
    var dp1 := DataPoint(1, 42.5, "Sample Label");
    analyzer := new StatisticalAnalyzer();
    analyzer.AddDataPoint(dp1);
    analyzer.Process();
    df := new DataFrame();
    df.AddColumn([1.0, 2.0, 3.0], "Column1");
    sum := Add(3, 5);
  }
}
