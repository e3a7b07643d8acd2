/** The result file written by parseresults.py and read back by
    plotresults.py: when no cell holds a comma or a newline, reading the
    written lines gives back the header and the transposed rows. */
module CsvRoundTrip {
  import opened Wrappers
  import opened Text
  import opened ParseResults
  import opened PlotData

  /** No cell can be confused with a separator of the file. */
  predicate CleanCells(cells: seq<string>)
  {
    forall k :: 0 <= k < |cells| ==> ',' !in cells[k] && '\n' !in cells[k]
  }

  /** The lines `writeCSV` prints for a header and a table. */
  function Written(header: seq<string>, table: seq<seq<string>>): seq<string>
  {
    [Join(header, ',') + "\n"] + RowLines(table)
  }

  /** Line `i` of the data lines is row `i` joined by commas. */
  lemma {:induction false} RowLinesAt(table: seq<seq<string>>)
    ensures |RowLines(table)| == |table|
    ensures forall i :: 0 <= i < |table| ==> RowLines(table)[i] == Join(table[i], ',') + "\n"
  {
    if table != [] {
      RowLinesAt(table[..|table| - 1]);
    }
  }

  /** A character in no part and different from the separator is not in
      the joined string. */
  lemma {:induction false} NotInJoin(parts: seq<string>, c: char, d: char)
    requires c != d && forall k :: 0 <= k < |parts| ==> c !in parts[k]
    ensures c !in Join(parts, d)
  {
    if |parts| > 1 {
      NotInJoin(parts[1..], c, d);
    }
  }

  /** Removing the newline of a line without another newline gives the
      line's text. */
  lemma {:induction false} RemoveNewline(a: string)
    requires '\n' !in a
    ensures Remove(a + "\n", '\n') == a
  {
    assert (a + "\n")[..|a|] == a;
  }

  /** Reading a written line gives back its cells. */
  lemma FieldsOfJoin(cells: seq<string>)
    requires |cells| >= 1 && CleanCells(cells)
    ensures Fields(Join(cells, ',') + "\n") == cells
  {
    NotInJoin(cells, '\n', ',');
    RemoveNewline(Join(cells, ','));
    SplitJoin(cells, ',');
  }

  /** Line `i + 1` of the written file reads back as row `i`. */
  lemma WrittenRow(header: seq<string>, table: seq<seq<string>>, i: nat)
    requires i < |table| && |table[i]| >= 1 && CleanCells(table[i])
    ensures |Table(Written(header, table))| == |table| + 1
    ensures Table(Written(header, table))[i + 1] == table[i]
  {
    RowLinesAt(table);
    assert Written(header, table)[i + 1] == Join(table[i], ',') + "\n";
    FieldsOfJoin(table[i]);
  }

  /** The table read from a written file: the header is the header
      written, and the columns are the transpose of the rows. */
  lemma WrittenTable(header: seq<string>, table: seq<seq<string>>)
    requires |header| >= 1 && CleanCells(header)
    requires forall i :: 0 <= i < |table| ==> |table[i]| >= 1 && CleanCells(table[i])
    ensures Table(Written(header, table)) == [header] + table
  {
    var t := Table(Written(header, table));
    var expected := [header] + table;
    RowLinesAt(table);
    assert |t| == |expected|;
    forall j | 0 <= j < |t|
      ensures t[j] == expected[j]
    {
      if j == 0 {
        FieldsOfJoin(header);
      } else {
        WrittenRow(header, table, j - 1);
      }
    }
  }

  /** Written with at least one row of at least two cells each, the file
      reads back as the header written and the transpose of the rows:
      entry `i` of column `k` is cell `k` of row `i`. */
  lemma ReadWritten(header: seq<string>, table: seq<seq<string>>)
    requires |header| >= 1 && CleanCells(header)
    requires table != [] && forall i :: 0 <= i < |table| ==> |table[i]| >= 2 && CleanCells(table[i])
    ensures ReadData(Written(header, table)).Ok?
    ensures var d := ReadData(Written(header, table)).value;
            && d.header == header
            && d.cols == Transpose(table)
            && (forall k, i :: 0 <= k < |d.cols| && 0 <= i < |table| ==> d.cols[k][i] == table[i][k])
  {
    var lines := Written(header, table);
    WrittenTable(header, table);
    assert Table(lines)[1..] == table;
    TransposeEntries(table);
    var i :| 0 <= i < |table| && MinWidth(table) == |table[i]|;
  }

  /** A file with only the header line has no columns to take the classes
      from. */
  lemma ReadHeaderOnly(header: seq<string>)
    requires |header| >= 1 && CleanCells(header)
    ensures ReadData(Written(header, [])) == Err(TooFewColumns(0))
  {
    WrittenTable(header, []);
  }
}
