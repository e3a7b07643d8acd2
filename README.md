# Batch experiment results: parsing, filtering and aggregation

This project models the non-plotting core of three scripts that handle the
results of solver experiment runs:

- `parseresults.py` reads every run's `.log` file and its `.out`/`.err`
  siblings into a fixed vector of 20 values. Each vector gets the run's
  class (from its directory) and configuration (from the results
  directory's name) appended. A worker processes only the `.log` files
  whose running index `i` has `i % modulus == remainder`. The table is
  written as comma-separated lines.
- `filter.py` reads a list of easy `class/instance` pairs. It drops the
  lines of a result table that belong to one of them, always keeping the
  header.
- `plotresults.py` reads the table back into a header and columns, with the
  sorted classes and configurations. It then computes the statistics of
  every configuration: run counts per status and the PAR10 sum, in which
  every unsolved run counts ten timeouts. It also builds the series that
  the plots and the reports are drawn from:
  - the sorted runtimes of each (class, configuration) pair for the cactus
    plot;
  - the solved counts per family;
  - the times of every instance, grouped by `name__class`;
  - the two name-ordered series of the scatter plot.

Files are sequences of lines. The directory walk is a sequence of
(directory, file names) entries, and the files that can be opened are a map
from path to lines. Times are exact reals. `float` is modelled on decimal
text, and an entry it rejects is an error value. Every Python exception the
code can raise on its inputs becomes an error value of a `Result`:

- `ValueError` from `list.index`, unpacking or `float`;
- `IndexError` from a short row;
- `ZeroDivisionError` from `i % 0` or `par10 / total`;
- `StatisticsError` from `mean([])`;
- `AssertionError` in the scatter plot;
- the exit on an unknown status.

Modules: `Wrappers` (Option, Result), `Text` (Python string operations:
`split`, `join`, `strip`, `rfind`, slices with negative indices, string
order), `Sorting` (sorted de-duplication, Python's stable `list.sort` as
insertion, subsequences), `Decimal` (`float` on decimal text), `Filter`,
`ParseResults`, `PlotData`, `PlotStats`, `PlotSeries`, `PlotOutliers` and
`CsvRoundTrip`.

Loops that update state are methods. `ReadEasy` states the set it builds
and the line it fails at directly. The others are proved equal to a fold
function over the prefix processed so far: `ReadAndFilter`,
`LogLine`, `LogFile`, `CounterLine`, `CounterFile`, `GetValuesFromLogAndOutFile`,
`WalkDirectory`, `WalkTree`, `WalkResults`, `WriteCSV`, `TallyRows`, `PrintStats`,
`GroupConfiguration`, `PositiveMeans` and `FindOutliers`. The properties
are lemmas about those functions. The pure comprehensions followed by a
sort (cactus, scatter, families) are functions.

Where the docstring of `walkResults` and the code differ, the model follows the code:

- The class of a directory is `_ALL_` only when its last path component
  equals the whole `in_dir` string. If `in_dir` contains a `/`, even the
  top directory gets its own name as class (`ParseResults.TopLevelClass`).

## Model

| member | source | states |
|---|---|---|
| Filter.EasyEntry | filter.py:9 | a line gives a pair exactly when its stripped text splits at `/` into two parts; the parts hold no `/` and rejoin to the stripped line |
| Filter.ReadEasy | filter.py:5-11 | succeeds exactly when every line unpacks into two parts; the set holds exactly the pairs of the lines; otherwise the error names the first line that does not unpack and its number of parts |
| Filter.FirstMalformed | filter.py:18-20 | the first line, after the header, whose cells have no second-to-last entry; none means every such line has two cells |
| Filter.FilterFile | filter.py:13-24 | an empty file is an error (`next` fails); it succeeds exactly when every line after the header has two cells; the result starts with the header unchanged |
| Filter.ReadAndFilter | filter.py:13-24 | the loop computes `FilterFile` |
| Filter.FilterMembership | filter.py:18-23 | a line after the header is kept exactly when its (second-to-last cell, first cell) is not an easy pair |
| Filter.FilterIsSubsequence | filter.py:18-23 | the kept lines are an order-preserving subsequence of the input |
| Filter.FilterEmptySet | filter.py:22 | with no easy pairs every line is kept |
| Filter.FilterKeepsWellFormed | filter.py:19-21 | every kept line again has two cells |
| Filter.FilterIdempotent | filter.py:22-23 | filtering the kept lines again with the same set keeps them all |
| Filter.FilterAntitone | filter.py:22-23 | filtering with a larger set keeps a subsequence of what a smaller set keeps |
| Filter.FilterFileContents | filter.py:16-23 | after the header the output is a subsequence of the input, holding exactly the lines that are not easy, each as often as in the input |
| Filter.FilterCount | filter.py:18-23 | an easy line is dropped every time, and any other line is kept as often as it occurs |
| Filter.FilterFileIdempotent | filter.py:13-24 | running the filter on its own output returns that output |
| Filter.FilterFileEmptySet | filter.py:22 | with an empty easy set the file comes back unchanged |
| ParseResults.InstanceNameIsBaseName | parseresults.py:42 | the instance name is the part of the path after its last `/`, less its last four characters (empty when shorter) |
| ParseResults.LastToken | parseresults.py:7 | the value of the `result:`/`status:` pattern is whitespace-free and is how the line (without its newline) ends |
| ParseResults.SecondLastToken | parseresults.py:7 | the `time:`/`space:` pattern matches exactly when a single blank precedes the last word; the value is whitespace-free |
| ParseResults.SecondLastTokenShape | parseresults.py:7 | a matching line is some text ending in a space (or nothing), then the value, a blank and the last word |
| ParseResults.FirstLabel | parseresults.py:48-53 | the label considered is the first in the order `time:`, `space:`, `result:`, `status:` that occurs in the line; none occurs otherwise |
| ParseResults.LogLineWrites | parseresults.py:46-53 | a log line changes only the slot of its first label, and only when the pattern matches, to the matched value |
| ParseResults.ScanLogLastWriter | parseresults.py:45-53 | a slot holds the value of the last line that writes it |
| ParseResults.ScanLogUnwritten | parseresults.py:45-53 | a slot no line writes keeps its initial value |
| ParseResults.SampleLine | parseresults.py:46-47 | a line containing `sample:` changes nothing |
| ParseResults.ScanLogAppend | parseresults.py:45-53 | reading two runs of lines is reading the first, then the second from where it left off |
| ParseResults.ScanLogIgnoresSamples | parseresults.py:46-47 | removing a `sample:` line from anywhere in the log leaves the values unchanged |
| ParseResults.StatusRewrite | parseresults.py:55-56 | afterwards status `ok` implies result `10` or `20`; only the status can change, and only from `ok` to `time` |
| ParseResults.FirstPrefix | parseresults.py:62-65 | the identifier used is the first in list order that starts the line |
| ParseResults.CounterLineUpdate | parseresults.py:62-65 | the slot of the first identifier that starts the line gets the stripped rest of the line; every other slot is unchanged |
| ParseResults.ScanCounters | parseresults.py:61-65 | reading a counter file leaves every slot below its block unchanged |
| ParseResults.ScanCountersLastWriter | parseresults.py:61-65 | a counter ends with the stripped rest of the last line that starts with its identifier, later lines overwriting earlier ones |
| ParseResults.ScanCountersUnwritten | parseresults.py:61-65 | a counter no line starts with keeps its value |
| ParseResults.ScanCountersFrame | parseresults.py:71-74 | slots outside the file's block of counters are unchanged |
| ParseResults.WithCountersFrame | parseresults.py:58-74 | reading a counter file, present or not, changes only its block of counters |
| ParseResults.RunValuesLogged | parseresults.py:41-75 | the first five values come from the log file and its status rewrite alone |
| ParseResults.RunValuesStatus | parseresults.py:55-56 | in the final vector status `ok` implies result `10` or `20` |
| ParseResults.RunValuesUnwritten | parseresults.py:41-42 | a log that never writes a slot leaves it as the instance name (slot 0) or its header name |
| ParseResults.RunValuesOutCounter | parseresults.py:58-65 | an `.out` counter in the final vector is the stripped rest of the last line of the `.out` file that announces it |
| ParseResults.RunValuesErrCounter | parseresults.py:67-74 | an `.err` counter in the final vector is the stripped rest of the last line of the `.err` file that announces it |
| ParseResults.RunValuesOutCounterMissing | parseresults.py:58-65 | an `.out` counter that is missing, or whose file is missing, stays `NA` |
| ParseResults.RunValuesErrCounterMissing | parseresults.py:67-74 | an `.err` counter that is missing, or whose file is missing, stays `NA` |
| ParseResults.LoggedCounter | parseresults.py:41-56 | the `.log` file and the status rewrite leave every `.out` and `.err` counter at `NA` |
| ParseResults.LogLine | parseresults.py:46-53 | the label loop with its `break` computes `LogLineUpdate` |
| ParseResults.LogFile | parseresults.py:44-53 | the line loop over the `.log` file computes `ScanLog` |
| ParseResults.CounterLine | parseresults.py:62-65 | the identifier loop with its `break` computes `CounterLineUpdate` |
| ParseResults.CounterFile | parseresults.py:60-65 | the line loop computes `ScanCounters` |
| ParseResults.GetValuesFromLogAndOutFile | parseresults.py:31-75 | computes `RunValues`: log, status rewrite, `.out` and then `.err` counters, each file read only when it exists |
| ParseResults.Configuration | parseresults.py:95-98 | the text after the last `_` of the directory name when there is one, otherwise its last three characters (all of a shorter name) |
| ParseResults.ClassName | parseresults.py:104-108 | the last path component of the directory, or `_ALL_` exactly when that component is the results directory's name (or is `_ALL_` itself) |
| ParseResults.TopLevelClass | parseresults.py:104-108 | the results directory itself is class `_ALL_` exactly when its name has no `/` or ends in `_ALL_` |
| ParseResults.SubdirectoryClass | parseresults.py:104-108 | a subdirectory of the results directory is the class of its own name |
| ParseResults.LogFileInstanceName | parseresults.py:109-112 | a `.log` file found on the walk has its file name less `.log` as instance name |
| ParseResults.LogsInListed | parseresults.py:109-110 | every file counted is a `.log` file of that directory |
| ParseResults.PyMod | parseresults.py:111 | Python's `%`: the result lies between 0 and the modulus, has its sign, is congruent to the dividend modulo the modulus, and agrees with the Euclidean remainder for a positive modulus |
| ParseResults.Row | parseresults.py:112-114 | a table row has as many entries as the header: 20 values, class and configuration |
| ParseResults.WalkDirectory | parseresults.py:101-115 | one directory adds its `.log` files to the count and the rows of those whose index is this worker's; `i % 0` fails at the first `.log` file |
| ParseResults.VisitLog | parseresults.py:110-115 | a `.log` file raises the running index by one and adds its row, with class and configuration, exactly when its index is this worker's |
| ParseResults.VisitFile | parseresults.py:109-115 | one file of a directory: `i % 0` fails exactly at a `.log` file; otherwise the index and the table are those of the `.log` files so far |
| ParseResults.VisitDirectory | parseresults.py:102-115 | one entry of the walk: a failure means a zero modulus and a `.log` file on the walk; otherwise the index and the table are those of the entries so far |
| ParseResults.WalkTree | parseresults.py:100-116 | the walk loop computes `WalkTable` of the `.log` files met, in walk order |
| ParseResults.WalkResults | parseresults.py:80-116 | computes `WalkSpec`: the rows of the `.log` files whose running index `i` satisfies `i % modulus == remainder`, in walk order, or the division by zero |
| ParseResults.SharesPartition | parseresults.py:131-135 | the shares of the workers `0 .. modulus-1` together hold every element exactly as often as the whole list |
| ParseResults.TableSharesPartition | parseresults.py:131-135 | for any files, every worker's table is computed, and their concatenation is a permutation of the one-worker table |
| ParseResults.SelectAll | parseresults.py:111 | a single worker selects every row, in order |
| ParseResults.WalkSharesPartition | parseresults.py:131-135 | every worker's walk succeeds, and their concatenated tables are a permutation of the one-worker table |
| ParseResults.WalkRowWidth | parseresults.py:109-115 | every row of the table has 22 entries, the length of the header |
| ParseResults.WriteCSV | parseresults.py:118-123 | the file is the joined header line followed by one comma-joined line per row |
| PlotData.MinWidth | plotresults.py:148 | `zip` produces as many columns as the shortest row has fields |
| PlotData.TransposeEntries | plotresults.py:148 | column `k` has one entry per row, and entry `i` is field `k` of row `i` |
| PlotData.ReadData | plotresults.py:142-153 | an empty file fails (`table[0]`); the lists of classes and configurations are strictly sorted and hold exactly the values of the last two columns |
| PlotData.FromRows | plotresults.py:147-152 | the header is kept and the columns are the transpose of the data rows; fewer than two columns is the IndexError of `cols[-2]` |
| PlotData.FromRowsShape | plotresults.py:148 | the columns are as many as the shortest row has fields, one entry per row, entry `i` of column `k` being field `k` of row `i` |
| PlotData.WithLists | plotresults.py:149-152 | `sorted(set(...))` of the last two columns: strictly sorted, with exactly their values |
| PlotData.ReadDataSucceeds | plotresults.py:146-150 | the file reads exactly when it has a data line and every data line has at least two fields |
| PlotData.ReadDataWidth | plotresults.py:146-148 | there are exactly as many columns as the data line with the fewest fields has |
| PlotData.ReadDataTranspose | plotresults.py:146-148 | the header is the first line's fields, and entry `i` of column `k` is field `k` of data line `i + 1` |
| PlotData.IndexOf | plotresults.py:24-26 | `list.index`: the first position of the name, and ValueError exactly when it is absent |
| PlotData.Column | plotresults.py:24-26 | the column found by name; ValueError for a missing name, IndexError for a name beyond the columns |
| PlotData.Columns3 | plotresults.py:24-26 | three lookups in order; the first that fails gives the error |
| PlotStats.ZeroStats | plotresults.py:27 | the counters exist for exactly the five statuses |
| PlotStats.Tally | plotresults.py:30-43 | after rows of one configuration the counters still cover exactly the five statuses |
| PlotStats.TallyFirstBad | plotresults.py:33-43 | the rows of a configuration are counted exactly when none has an unknown status or an unparsable solved time; otherwise the error names the first such row, at line `i + 2` |
| PlotStats.TallyTotal | plotresults.py:31-39 | `total` is the number of rows of the configuration |
| PlotStats.TallyStatus | plotresults.py:32-38 | each status counter is the number of rows of the configuration with that status |
| PlotStats.TallyCounts | plotresults.py:35-39 | the five counters add up to `total` |
| PlotStats.TallyPar10 | plotresults.py:40-43 | PAR10 is the sum of the solved runs' times plus `TIMEOUT*PENALTY` for each of the `total - ok` other runs |
| PlotStats.TallySum | plotresults.py:40-43 | the PAR10 sum is the solved runs' times plus the penalty summed over the other runs |
| PlotStats.TallyUnsolved | plotresults.py:38-43 | the runs that were not solved number `total - ok` |
| PlotStats.TallyMonotone | plotresults.py:40-41 | raising the time of one solved run of the configuration strictly raises its PAR10 sum |
| PlotStats.TallyOtherRow | plotresults.py:29-34 | a row of another configuration does not change a configuration's counts: they start afresh for each configuration |
| PlotStats.TallyNext | plotresults.py:33-43 | one more row: another configuration's row changes nothing; an unknown status or an unparsable solved time stops at line `i + 2`; otherwise `total` and the status counter rise by one and PAR10 by the time or the penalty |
| PlotStats.AllStats | plotresults.py:29-54 | one result per configuration, each the counts of its rows, each with at least one run |
| PlotStats.AllStatsRowErrors | plotresults.py:29-54 | when every configuration listed occurs in the column, the only failures are an unknown status or an unparsable time |
| PlotStats.StatsFromFile | plotresults.py:23-55 | on a table as read from a file whose `Configuration` header names the last column, printStats never divides by zero |
| PlotStats.StatsConfigured | plotresults.py:23-54 | when the `Configuration` column is the last and holds every configuration listed, printStats stops, if at all, at a column lookup or a row, never at the division by zero |
| PlotStats.TallyRows | plotresults.py:30-43 | the row loop computes `Tally`, stopping at the first invalid row |
| PlotStats.CountRow | plotresults.py:34-43 | one pass of the row loop takes the counts of the rows before it to those including it |
| PlotStats.PrintStats | plotresults.py:23-55 | computes `Stats`: the columns looked up in order, then the counts of every configuration, stopping at the first failure |
| PlotSeries.Matches | plotresults.py:63 | the rows of a (class, configuration) pair, strictly increasing, and every such row |
| PlotSeries.RawCactusRows | plotresults.py:63 | the comprehension has one entry per row of the pair, in row order: its time when solved, `TIMEOUT` otherwise |
| PlotSeries.RawCactusFails | plotresults.py:63 | the comprehension fails exactly when a solved row of the pair has an unparsable time, at the first such row |
| PlotSeries.CactusSeriesSorted | plotresults.py:63-64 | the series is ascending, has one entry per row of the pair, and is a permutation of those rows' times with unsolved runs at `TIMEOUT` |
| PlotSeries.Label | plotresults.py:68-70 | the legend is the configuration for class `_ALL_`, otherwise `class-configuration` |
| PlotSeries.ClassCurves | plotresults.py:62-70 | one curve per configuration |
| PlotSeries.ClassCurvesEntries | plotresults.py:62-70 | curve `j` is labelled with configuration `j` and plots that pair's sorted series |
| PlotSeries.AllCurves | plotresults.py:61-70 | one list of curves per class, in class order |
| PlotSeries.CactusCurve | plotresults.py:57-70 | curve `j` of class `k` belongs to class `k` and configuration `j`, with their label and sorted series |
| PlotSeries.SolvedAtMostRuns | plotresults.py:84 | a pair's solved count is at most its number of rows |
| PlotSeries.SolvedCountZero | plotresults.py:84 | a pair's solved count is zero exactly when none of its rows has status `ok` |
| PlotSeries.Solved | plotresults.py:82-84 | one solved count per configuration |
| PlotSeries.SumZero | plotresults.py:85-86 | the counts sum to zero (mean 0) exactly when no count is positive |
| PlotSeries.FamilyList | plotresults.py:81-92 | every family listed is a class with its solved counts per configuration, and some count is positive |
| PlotSeries.FamilyListed | plotresults.py:85-92 | a class is listed exactly when some configuration solved one of its runs |
| PlotSeries.FamilyListOrder | plotresults.py:81-92 | the families listed follow the class order |
| PlotSeries.Families | plotresults.py:77-92 | `mean` of no counts fails exactly when there are classes but no configurations; otherwise the result is the list of families |
| PlotSeries.ConfigRows | plotresults.py:127 | the rows of a configuration, strictly increasing, and every such row |
| PlotSeries.ConfigRowsCount | plotresults.py:127 | a configuration has as many rows as printStats counts runs for it |
| PlotSeries.RawPoints | plotresults.py:127 | the comprehension fails only at an unparsable time |
| PlotSeries.RawPointsRows | plotresults.py:127 | one point per row of the configuration, in row order: its instance name and its time |
| PlotSeries.RawPointsFail | plotresults.py:127 | the comprehension fails exactly when a solved row of the configuration has an unparsable time |
| PlotSeries.ScatterPoints | plotresults.py:127-128 | sorting the points fails only where the comprehension does |
| PlotSeries.ScatterPointsSorted | plotresults.py:127-128 | one point per row of the configuration, ordered by instance name, a permutation of the rows' points |
| PlotSeries.ScatterValuesBounded | plotresults.py:127-129 | every plotted value is at least 0.00001 or is `TIMEOUT` |
| PlotSeries.Scatter | plotresults.py:120-129 | the assertion fails exactly when there are not two configurations |
| PlotSeries.ScatterSeries | plotresults.py:121-129 | with two configurations, series `j` is the name-ordered values of configuration `j` |
| PlotOutliers.Append | plotresults.py:109 | appending adds the key if new, extends its list by the time and leaves every other list alone |
| PlotOutliers.GroupRows | plotresults.py:107-109 | the rows of a configuration keep every key listed once, and fail only at an unparsable time |
| PlotOutliers.GroupAll | plotresults.py:106-109 | the same over all configurations |
| PlotOutliers.GroupRowsTimes | plotresults.py:107-109 | after one configuration a key's list is its earlier list followed by the times of that configuration's rows of the key, in row order |
| PlotOutliers.GroupAllTimes | plotresults.py:105-109 | an instance has a list exactly when a run of a listed configuration has its key; the list holds those runs' times, configuration by configuration |
| PlotOutliers.GroupRowsFails | plotresults.py:107-109 | a configuration's rows fail exactly when one of them has an unparsable time |
| PlotOutliers.Candidates | plotresults.py:110-115 | the candidate instances are exactly those whose times have a positive sum, that is a positive mean |
| PlotOutliers.OutliersCandidates | plotresults.py:101-115 | for the table: a candidate is exactly an instance whose list has a positive sum |
| PlotOutliers.GroupConfiguration | plotresults.py:107-109 | the row loop computes `GroupRows` |
| PlotOutliers.PositiveMeans | plotresults.py:110-115 | the second loop computes `Candidates` in dictionary order |
| PlotOutliers.FindOutliers | plotresults.py:101-115 | computes `Outliers`: the column lookups, the lists of all configurations, then the candidates |
| CsvRoundTrip.FieldsOfJoin | plotresults.py:146 | a written line whose cells hold no comma or newline reads back as its cells |
| CsvRoundTrip.WrittenRow | parseresults.py:121-122 | the written line of row `i` reads back as that row |
| CsvRoundTrip.WrittenTable | parseresults.py:118-123 | the written file splits back into the header and the rows |
| CsvRoundTrip.ReadWritten | plotresults.py:142-153 | a written table with at least one row of at least two cells reads back as the header written and the transpose of the rows |
| CsvRoundTrip.ReadHeaderOnly | plotresults.py:148-149 | a file with only a header has no class column to read |
| Text.JoinSplit | plotresults.py:146 | the parts of `split` hold no separator and `join` puts them back together |
| Text.SplitJoin | parseresults.py:120-122 | splitting a join of separator-free parts gives the parts back |
| Text.RFind | parseresults.py:96 | `rfind`: -1 exactly when the character is absent, otherwise its last position |
| Text.Remove | plotresults.py:146 | `replace("\n", "")`: no newline is left, and text without one is unchanged |
| Text.RemoveChar | plotresults.py:146 | one character is removed exactly when it is the newline, and kept otherwise |
| Text.RemoveAppend | plotresults.py:146 | removing from a concatenation removes from each part, so every other character is kept in order |
| Decimal.ParseRealAccepts | plotresults.py:41 | `float` succeeds exactly on decimal text: an optional sign, then ASCII digits with at most one point and at least one digit |
| Decimal.ParseRealWhole | plotresults.py:63 | text without a point reads as the value of its digits, negated after a `-` |
| Decimal.ParseRealPoint | plotresults.py:109 | text with a point reads as its whole digits plus its fraction digits over the matching power of ten, negated after a `-` |
| Decimal.ParseRealNat | plotresults.py:127 | the decimal text of a natural number reads back as that number |
| Sorting.SortedDistinct | plotresults.py:149-152 | `sorted(set(...))`: strictly ascending, holding exactly the values of the list |
| Sorting.StrictlySortedUnique | plotresults.py:149-152 | two strictly sorted lists with the same values are equal |
| Sorting.SortBy | plotresults.py:128 | `list.sort` by a key: the result is sorted and a permutation of the input |

## Left out

- Plotting, legends, colours, axes and `mp.show`. The model has the series handed to the plots, not `maxLenX` or the axis limits.
- Printing and formatting of the reports, including the `%d` truncation of `par10 / total` and the `print` of the easy set size. `PrintStats` returns the counts of each configuration, and the division by zero is the `NoRuns` error.
- `mean`, `pvariance`, `pstdev` and the `std`/`relstd` values. Only the test `mean == 0` is modelled, as an equivalent statement about the sum.
- The sorts that rank the families and the outliers. These sorts only reorder, so the results are in class order and dictionary order.
- Floating point. Times are exact reals, so float rounding in sums is not modelled.
- `float` accepts only decimal text (sign, ASCII digits, one point) after stripping. Exponents, `inf`, `nan`, underscores and non-ASCII decimal digits (full-width, Arabic-Indic), which Python accepts, are rejected.
- The time column is parsed up front into `Option` values, with `None` where `float` raises. The code only uses the entries `float` would be called on, so the raised error is the same.
- File I/O, `os.path.isfile`, `os.walk` and the pruning of hidden directories. Files are line sequences, the walk is a list of entries, and existing files are a map from path to lines.
- General regular expressions. The three patterns are written out as token functions (last token, token before the last blank, last path component).
- `multiprocessing.Pool`. Only the arithmetic split of the files between the workers and the concatenation of their tables are modelled.
- `argparse` and `sys.argv`. The timeout is a parameter, and `PENALTY` is the constant 10.
- ParseResults.WriteCSV takes the header as a parameter. The program passes its 22-name header.
- Sorting.SortBy: stability is not proved. It inserts each element after all elements that are not greater, as Python's stable sort orders ties.
