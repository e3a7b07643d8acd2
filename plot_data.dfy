/** plotresults.py, reading the table: every line of the CSV file has its
    newlines removed and is split at commas; the first row is the header and
    the remaining rows are transposed into columns, cut to the shortest row.
    The sorted, duplicate-free class and configuration lists come from the
    last two columns.  The file is given as its sequence of lines. */
module PlotData {
  import opened Wrappers
  import opened Text
  import opened Sorting

  /** The table as the plotting functions receive it, with the class and
      configuration lists that the program keeps in globals. */
  datatype Data = Data(header: seq<string>, cols: seq<seq<string>>, classes: seq<string>, configurations: seq<string>)

  /** `table[0]` of an empty file, or `cols[-2]` with fewer than two columns. */
  datatype ReadError = EmptyFile | TooFewColumns(width: nat)

  /** Everything that stops one of the table computations. */
  datatype PlotError =
    | MissingColumn(name: string)          // `header.index` raised ValueError
    | ColumnOutOfRange(name: string)       // `cols[...]` raised IndexError
    | InvalidStatus(line: nat, status: string)
    | BadFloat(line: nat)                  // `float` raised ValueError on the time of the row on this line
    | NoRuns(configuration: string)        // `par10/total` with no run of the configuration
    | NoConfigurations                     // `mean` of an empty list of counts
    | ConfigurationCount(count: nat)       // the scatter plot's assertion failed

  /** `x.replace("\n", "").split(",")` */
  function Fields(line: string): seq<string>
  {
    Split(Remove(line, '\n'), ',')
  }

  /** The length of the shortest row: how many tuples `zip` produces. */
  function MinWidth(rows: seq<seq<string>>): (w: nat)
    requires rows != []
    ensures forall i :: 0 <= i < |rows| ==> w <= |rows[i]|
    ensures exists i :: 0 <= i < |rows| && w == |rows[i]|
  {
    if |rows| == 1 then |rows[0]|
    else
      var w := MinWidth(rows[..|rows| - 1]);
      assert forall i :: 0 <= i < |rows| - 1 ==> rows[..|rows| - 1][i] == rows[i];
      if |rows[|rows| - 1]| < w then |rows[|rows| - 1]| else w
  }

  /** `list(zip(*rows))` */
  function Transpose(rows: seq<seq<string>>): seq<seq<string>>
  {
    if rows == [] then []
    else
      var w := MinWidth(rows);
      seq(w, k requires 0 <= k < w => seq(|rows|, i requires 0 <= i < |rows| => rows[i][k]))
  }

  /** Every column has one entry per row, and entry `i` of column `k` is
      field `k` of row `i`. */
  lemma TransposeEntries(rows: seq<seq<string>>)
    ensures rows != [] ==> |Transpose(rows)| == MinWidth(rows)
    ensures rows == [] ==> Transpose(rows) == []
    ensures forall k :: 0 <= k < |Transpose(rows)| ==> |Transpose(rows)[k]| == |rows|
    ensures forall k, i :: 0 <= k < |Transpose(rows)| && 0 <= i < |rows| ==> k < |rows[i]| && Transpose(rows)[k][i] == rows[i][k]
  {
  }

  /** `[x.replace("\n", "").split(",") for x in raw]` */
  function Table(raw: seq<string>): (t: seq<seq<string>>)
    ensures |t| == |raw|
  {
    seq(|raw|, i requires 0 <= i < |raw| => Fields(raw[i]))
  }

  /** readData on the lines of the file. */
  function ReadData(raw: seq<string>): (r: Result<Data, ReadError>)
    ensures r == Err(EmptyFile) <==> raw == []
    ensures r.Ok? ==> WellFormed(r.value)
    ensures r.Ok? ==> && StrictlySorted(r.value.classes) && (forall y :: y in r.value.classes <==> y in ClassCol(r.value))
                      && StrictlySorted(r.value.configurations) && (forall y :: y in r.value.configurations <==> y in ConfigCol(r.value))
  {
    if raw == [] then Err(EmptyFile)
    else
      var table := Table(raw);
      FromRows(table[0], table[1..])
  }

  /** The table after its header line: the data rows transposed, and the
      class and configuration lists taken from the last two columns. */
  function FromRows(header: seq<string>, rows: seq<seq<string>>): (r: Result<Data, ReadError>)
    ensures r.Err? ==> r == Err(TooFewColumns(|Transpose(rows)|))
    ensures r.Ok? ==> r.value.header == header && r.value.cols == Transpose(rows) && WellFormed(r.value)
    ensures r.Ok? ==> && StrictlySorted(r.value.classes) && (forall y :: y in r.value.classes <==> y in ClassCol(r.value))
                      && StrictlySorted(r.value.configurations) && (forall y :: y in r.value.configurations <==> y in ConfigCol(r.value))
  {
    var cols := Transpose(rows);
    TransposeHeights(rows);
    if |cols| < 2 then Err(TooFewColumns(|cols|))
    else Ok(WithLists(header, cols))
  }

  /** Every column of the transpose has one entry per row. */
  lemma TransposeHeights(rows: seq<seq<string>>)
    ensures forall k :: 0 <= k < |Transpose(rows)| ==> |Transpose(rows)[k]| == |rows|
  {
  }

  /** `classes = sorted(set(cols[-2]))`, `configurations = sorted(set(cols[-1]))` */
  function WithLists(header: seq<string>, cols: seq<seq<string>>): (d: Data)
    requires |cols| >= 2
    ensures d.header == header && d.cols == cols
    ensures StrictlySorted(d.classes) && forall y :: y in d.classes <==> y in cols[|cols| - 2]
    ensures StrictlySorted(d.configurations) && forall y :: y in d.configurations <==> y in cols[|cols| - 1]
  {
    Data(header, cols, SortedDistinct(cols[|cols| - 2]), SortedDistinct(cols[|cols| - 1]))
  }

  /** The file reads exactly when it has a data row and every data row
      has at least two fields. */
  lemma ReadDataSucceeds(raw: seq<string>)
    ensures ReadData(raw).Ok? <==> |raw| >= 2 && forall i :: 1 <= i < |raw| ==> |Table(raw)[i]| >= 2
  {
    if raw != [] {
      var table := Table(raw);
      var rows := table[1..];
      TransposeEntries(rows);
      assert forall i :: 1 <= i < |raw| ==> rows[i - 1] == table[i];
      if rows != [] {
        var i :| 0 <= i < |rows| && MinWidth(rows) == |rows[i]|;
        assert rows[i] == table[i + 1];
      }
    }
  }

  /** There are as many columns as the shortest data row has fields. */
  lemma ReadDataWidth(raw: seq<string>)
    requires ReadData(raw).Ok?
    ensures var d := ReadData(raw).value;
            var t := Table(raw);
            && (forall i :: 1 <= i < |raw| ==> |d.cols| <= |t[i]|)
            && (exists i :: 1 <= i < |raw| && |d.cols| == |t[i]|)
  {
    ReadDataRows(raw);
    FromRowsShape(Table(raw)[0], Table(raw)[1..]);
  }

  /** A file with lines is read as its header line and its data rows. */
  lemma ReadDataRows(raw: seq<string>)
    requires raw != []
    ensures ReadData(raw) == FromRows(Table(raw)[0], Table(raw)[1..])
  {
  }

  /** The header is the first line's fields; every column has one entry
      per data line, and entry `i` of column `k` is field `k` of data line
      `i + 1`. */
  lemma ReadDataTranspose(raw: seq<string>)
    requires ReadData(raw).Ok?
    ensures ReadData(raw).value.header == Table(raw)[0]
    ensures var d := ReadData(raw).value;
            forall k, i :: 0 <= k < |d.cols| && 0 <= i < |raw| - 1 ==>
              |d.cols[k]| == |raw| - 1 && d.cols[k][i] == Table(raw)[i + 1][k]
  {
    var table := Table(raw);
    var rows := table[1..];
    FromRowsShape(table[0], rows);
    ReadDataRows(raw);
    var d := FromRows(table[0], rows).value;
    forall k, j | 0 <= k < |d.cols| && 0 <= j < |raw| - 1
      ensures |d.cols[k]| == |raw| - 1 && d.cols[k][j] == table[j + 1][k]
    {
      assert rows[j] == table[j + 1];
    }
  }

  /** The columns of the data rows: as many as the shortest row has
      fields, one entry per row, entry `i` of column `k` field `k` of row `i`. */
  lemma FromRowsShape(header: seq<string>, rows: seq<seq<string>>)
    requires FromRows(header, rows).Ok?
    ensures var d := FromRows(header, rows).value;
            && d.header == header
            && (forall i :: 0 <= i < |rows| ==> |d.cols| <= |rows[i]|)
            && (exists i :: 0 <= i < |rows| && |d.cols| == |rows[i]|)
            && forall k, i :: 0 <= k < |d.cols| && 0 <= i < |rows| ==> |d.cols[k]| == |rows| && d.cols[k][i] == rows[i][k]
  {
    TransposeEntries(rows);
    var i :| 0 <= i < |rows| && MinWidth(rows) == |rows[i]|;
  }

  /** At least the class and configuration columns, all of one height. */
  predicate WellFormed(d: Data)
  {
    && |d.cols| >= 2
    && forall k :: 0 <= k < |d.cols| ==> |d.cols[k]| == |d.cols[0]|
  }

  /** The number of data rows. */
  function Height(d: Data): nat
    requires WellFormed(d)
  {
    |d.cols[0]|
  }

  /** `cols[-2]` */
  function ClassCol(d: Data): (c: seq<string>)
    requires WellFormed(d)
    ensures |c| == Height(d)
  {
    d.cols[|d.cols| - 2]
  }

  /** `cols[-1]` */
  function ConfigCol(d: Data): (c: seq<string>)
    requires WellFormed(d)
    ensures |c| == Height(d)
  {
    d.cols[|d.cols| - 1]
  }

  /** `xs.index(x)`: the first position of `x`, or None for ValueError. */
  function IndexOf(xs: seq<string>, x: string): (r: Option<nat>)
    ensures r.Some? <==> x in xs
    ensures r.Some? ==> r.value < |xs| && xs[r.value] == x && x !in xs[..r.value]
  {
    if xs == [] then None
    else if xs[0] == x then Some(0)
    else
      var r := IndexOf(xs[1..], x);
      assert xs == [xs[0]] + xs[1..];
      if r.Some? then
        assert xs[..r.value + 1] == [xs[0]] + xs[1..][..r.value];
        Some(r.value + 1)
      else None
  }

  /** `cols[header.index(name)]` */
  function Column(d: Data, name: string): (r: Result<seq<string>, PlotError>)
    ensures r.Ok? <==> name in d.header && IndexOf(d.header, name).value < |d.cols|
    ensures r.Ok? ==> r.value == d.cols[IndexOf(d.header, name).value]
    ensures r.Err? ==> r.error == (if name in d.header then ColumnOutOfRange(name) else MissingColumn(name))
  {
    match IndexOf(d.header, name)
    case None => Err(MissingColumn(name))
    case Some(k) => if k < |d.cols| then Ok(d.cols[k]) else Err(ColumnOutOfRange(name))
  }

  /** Three columns looked up in order; the first failing lookup stops. */
  function Columns3(d: Data, a: string, b: string, c: string): (r: Result<(seq<string>, seq<string>, seq<string>), PlotError>)
    ensures r.Ok? <==> Column(d, a).Ok? && Column(d, b).Ok? && Column(d, c).Ok?
    ensures r.Ok? ==> r.value == (Column(d, a).value, Column(d, b).value, Column(d, c).value)
    ensures r.Err? ==> if Column(d, a).Err? then r.error == Column(d, a).error
                       else if Column(d, b).Err? then r.error == Column(d, b).error
                       else r.error == Column(d, c).error
  {
    match Column(d, a)
    case Err(e) => Err(e)
    case Ok(x) =>
      match Column(d, b)
      case Err(e) => Err(e)
      case Ok(y) =>
        match Column(d, c)
        case Err(e) => Err(e)
        case Ok(z) => Ok((x, y, z))
  }

  /** A column found in a well-formed table has one entry per row. */
  lemma ColumnHeight(d: Data, name: string)
    requires WellFormed(d) && Column(d, name).Ok?
    ensures |Column(d, name).value| == Height(d)
  {
  }
}
