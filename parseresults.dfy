/** parseresults.py: one table row per solver run, scraped from the run's
    `.log` file and its optional `.out` and `.err` siblings, and the walk over
    a results directory that names the configuration and the classes and hands
    every `modulus`-th `.log` file to one worker.  The file system is a map
    from paths to the lines of the files that exist; the directory walk is the
    sequence of (directory, file names) pairs `os.walk` produces. */
module ParseResults {
  import opened Wrappers
  import opened Text

  /** The column names of the table. */
  function Header(): seq<string>
  {
    ["Name", "Time", "Space", "Result", "Status", "LC", "LT", "FDA", "BT", "BTDL", "TD",
     "LD", "FLD", "DCR", "PI", "LR", "TRD", "TRR", "DEPQBFFDA", "DEPQBFBT", "Class", "Configuration"]
  }

  /** The labels of the `.log` file; label `m` feeds value slot `m + 1`. */
  function LogLabels(): seq<string>
  {
    ["time:", "space:", "result:", "status:"]
  }

  /** Solver counter `m` of the `.out` file, for value slot `m + 5`. */
  function OutLabel(m: nat): string
  {
    match m
    case 0 => "Number of learned clauses:"
    case 1 => "Number of learned terms:"
    case 2 => "Fraction of decisions among assignments:"
    case 3 => "Number of backtracks:"
    case 4 => "Number of backtracks caused by dependency learning:"
    case 5 => "Number of trivial dependencies:"
    case 6 => "Number of learned dependencies:"
    case 7 => "Learned dependencies as a fraction of trivial:"
    case 8 => "Number of dependency conflicts resolved by RRS:"
    case 9 => "Number of proven independencies:"
    case 10 => "Number of literals reduced thanks to RRS:"
    case 11 => "Amount of time spent computing RRS deps (s):"
    case _ => "Amount of time spent on generalized forall reduction (s):"
  }

  /** The thirteen solver counters of the `.out` file, slots 5 to 17. */
  function OutLabels(): seq<string>
  {
    seq(13, OutLabel)
  }

  /** The counters of the `.err` file, slots 18 and 19. */
  function ErrLabels(): seq<string>
  {
    ["dec. per assignm.:", "backtracks:"]
  }

  /** `len(log_identifiers)`, where the `.out` counters start. */
  const OUT_BASE: nat := 5
  /** Where the `.err` counters start: after the thirteen `.out` counters. */
  const ERR_BASE: nat := 18
  /** Name, Time, Space, Result, Status and the fifteen counters. */
  const VALUE_COUNT: nat := 20

  type Values = v: seq<string> | |v| == VALUE_COUNT witness seq(VALUE_COUNT, _ => "NA")

  /** `filename[filename.rfind("/")+1:-4]` */
  function InstanceName(filename: string): string
  {
    Slice(filename, RFind(filename, '/') + 1, -4)
  }

  /** The instance name is the file's base name without its last four
      characters (its `.log` extension). */
  lemma InstanceNameIsBaseName(filename: string)
    ensures var base := AfterLast(filename, '/');
            InstanceName(filename) == if |base| >= 4 then base[..|base| - 4] else []
  {
    RFindAfterLast(filename, '/');
    var r := RFind(filename, '/');
    var base := filename[r + 1..];
    if |base| >= 4 {
      assert base[..|base| - 4] == filename[r + 1..|filename| - 4];
    }
  }

  function InitialValues(filename: string): Values
  {
    (["Name", "Time", "Space", "Result", "Status"] + seq(VALUE_COUNT - OUT_BASE, _ => "NA"))[0 := InstanceName(filename)]
  }

  /** The line without the one newline at its end before which `$` matches. */
  function Chomp(s: string): string
  {
    if s != [] && s[|s| - 1] == '\n' then s[..|s| - 1] else s
  }

  /** What `[^\s]*$` finds: the last whitespace-free word of the line. It
      always matches, perhaps the empty word. */
  function LastToken(s: string): (r: string)
    ensures NoSpace(r)
    ensures var t := Chomp(s); |r| <= |t| && t[|t| - |r|..] == r
  {
    TrailingWord(Chomp(s))
  }

  /** What group 1 of `([^\s]*) [^\s]*$` finds: the word before the last
      one, when the two are separated by a single blank; no match otherwise. */
  function SecondLastToken(s: string): (r: Option<string>)
    ensures r.Some? ==> NoSpace(r.value)
    ensures r.Some? <==> var t := Chomp(s); var last := TrailingWord(t);
                          |last| < |t| && t[|t| - |last| - 1] == ' '
  {
    var t := Chomp(s);
    var last := TrailingWord(t);
    if |last| < |t| && t[|t| - |last| - 1] == ' ' then Some(TrailingWord(t[..|t| - |last| - 1]))
    else None
  }

  /** A match of the two-word pattern splits the line into a prefix ending
      in whitespace (or empty), the word, one blank and the last word. */
  lemma SecondLastTokenShape(s: string)
    requires SecondLastToken(s).Some?
    ensures var t := Chomp(s); var w := SecondLastToken(s).value; var last := LastToken(s);
            var rest := t[..|t| - |w| - |last| - 1];
            t == rest + w + " " + last && (rest == [] || IsSpace(rest[|rest| - 1]))
  {
    var t := Chomp(s);
    var last := TrailingWord(t);
    var n := |t| - |last| - 1;
    assert t[n] == ' ' && last == t[n + 1..];
    var u := t[..n];
    var w := TrailingWord(u);
    assert SecondLastToken(s) == Some(w) && LastToken(s) == last;
    assert |u| == n && w == u[n - |w|..];
    TrailingWordDelimited(u);
    TwoWords(t, n, w, last);
  }

  /** Cutting a line at a blank at `n`, with `w` the word that precedes it
      and `last` what follows it. */
  lemma TwoWords(t: string, n: nat, w: string, last: string)
    requires n < |t| && t[n] == ' ' && last == t[n + 1..]
    requires |w| <= n && w == t[..n][n - |w|..]
    requires |w| < n ==> IsSpace(t[..n][n - |w| - 1])
    ensures var rest := t[..|t| - |w| - |last| - 1];
            t == rest + w + " " + last && (rest == [] || IsSpace(rest[|rest| - 1]))
  {
    assert t[..n][n - |w|..] == t[n - |w|..n];
    assert t == t[..n - |w|] + t[n - |w|..n] + [t[n]] + t[n + 1..];
  }

  /** The regular expression of value slot `slot` applied to the line. */
  function LogMatch(slot: nat, s: string): Option<string>
    requires 1 <= slot <= |LogLabels()|
  {
    if slot <= 2 then SecondLastToken(s) else Some(LastToken(s))
  }

  /** The first of the labels from index `from` on that occurs in the line. */
  function FirstLabel(s: string, from: nat): (r: Option<nat>)
    requires from <= |LogLabels()|
    ensures r.Some? ==> from <= r.value < |LogLabels()| && Contains(s, LogLabels()[r.value])
    ensures r.Some? ==> forall m :: from <= m < r.value ==> !Contains(s, LogLabels()[m])
    ensures r.None? ==> forall m :: from <= m < |LogLabels()| ==> !Contains(s, LogLabels()[m])
    decreases |LogLabels()| - from
  {
    if from == |LogLabels()| then None
    else if Contains(s, LogLabels()[from]) then Some(from)
    else FirstLabel(s, from + 1)
  }

  /** The line sets value slot `slot`: it is not a sample line, the slot's
      label is the first label in it, and the slot's expression matches. */
  predicate Writes(s: string, slot: nat)
  {
    && 1 <= slot <= |LogLabels()|
    && !Contains(s, "sample:")
    && FirstLabel(s, 0) == Some(slot - 1)
    && LogMatch(slot, s).Some?
  }

  /** One line of the `.log` file. */
  function LogLineUpdate(values: Values, s: string): Values
  {
    if Contains(s, "sample:") then values
    else match FirstLabel(s, 0)
      case None => values
      case Some(m) =>
        match LogMatch(m + 1, s)
        case None => values
        case Some(v) => values[m + 1 := v]
  }

  /** A line changes exactly the slot it writes, to what its expression
      matched, and nothing else. */
  lemma LogLineWrites(values: Values, s: string, j: nat)
    requires j < VALUE_COUNT
    ensures !Writes(s, j) ==> LogLineUpdate(values, s)[j] == values[j]
    ensures Writes(s, j) ==> LogLineUpdate(values, s)[j] == LogMatch(j, s).value
  {
    var u := LogLineUpdate(values, s);
    if !Contains(s, "sample:") {
      var f := FirstLabel(s, 0);
      if f.Some? && LogMatch(f.value + 1, s).Some? {
        var w := f.value + 1;
        assert u == values[w := LogMatch(w, s).value];
        assert Writes(s, j) <==> j == w;
      } else {
        assert u == values && !Writes(s, j);
      }
    }
  }

  /** All lines of the `.log` file, in order. */
  function ScanLog(values: Values, lines: seq<string>): Values
  {
    if lines == [] then values
    else LogLineUpdate(ScanLog(values, lines[..|lines| - 1]), lines[|lines| - 1])
  }

  /** A slot holds what the last line that writes it put there. */
  lemma {:induction false} ScanLogLastWriter(values: Values, lines: seq<string>, slot: nat, k: nat)
    requires k < |lines| && Writes(lines[k], slot)
    requires forall j :: k < j < |lines| ==> !Writes(lines[j], slot)
    ensures ScanLog(values, lines)[slot] == LogMatch(slot, lines[k]).value
  {
    var init := lines[..|lines| - 1];
    if k < |lines| - 1 {
      ScanLogLastWriter(values, init, slot, k);
    }
    LogLineWrites(ScanLog(values, init), lines[|lines| - 1], slot);
  }

  /** A slot that no line writes keeps its value. */
  lemma {:induction false} ScanLogUnwritten(values: Values, lines: seq<string>, slot: nat)
    requires slot < VALUE_COUNT
    requires forall j :: 0 <= j < |lines| ==> !Writes(lines[j], slot)
    ensures ScanLog(values, lines)[slot] == values[slot]
  {
    if lines != [] {
      ScanLogUnwritten(values, lines[..|lines| - 1], slot);
      LogLineWrites(ScanLog(values, lines[..|lines| - 1]), lines[|lines| - 1], slot);
    }
  }

  lemma SampleLine(values: Values, s: string)
    requires Contains(s, "sample:")
    ensures LogLineUpdate(values, s) == values
  {
  }

  /** Scanning two pieces of a file is scanning the first, then the second. */
  lemma {:induction false} ScanLogAppend(values: Values, a: seq<string>, b: seq<string>)
    ensures ScanLog(values, a + b) == ScanLog(ScanLog(values, a), b)
  {
    if b == [] {
      assert a + b == a;
    } else {
      var init := b[..|b| - 1];
      ScanLogAppend(values, a, init);
      assert (a + b)[..|a + b| - 1] == a + init;
    }
  }

  /** A line containing `sample:` can be dropped from the file anywhere
      without changing any value. */
  lemma ScanLogIgnoresSamples(values: Values, before: seq<string>, s: string, after: seq<string>)
    requires Contains(s, "sample:")
    ensures ScanLog(values, before + [s] + after) == ScanLog(values, before + after)
  {
    ScanLogAppend(values, before + [s], after);
    ScanLogAppend(values, before, after);
    assert (before + [s])[..|before|] == before;
    SampleLine(ScanLog(values, before), s);
  }

  /** `ok` without the result code of a solved instance counts as a timeout. */
  function StatusRewrite(values: Values): (r: Values)
    ensures r[4] == "ok" ==> r[3] == "10" || r[3] == "20"
    ensures forall j :: 0 <= j < VALUE_COUNT && j != 4 ==> r[j] == values[j]
    ensures r[4] != values[4] ==> values[4] == "ok" && r[4] == "time"
  {
    if values[4] == "ok" && values[3] != "10" && values[3] != "20" then values[4 := "time"] else values
  }

  /** The first of the labels from index `from` on that the line starts with. */
  function FirstPrefix(s: string, labels: seq<string>, from: nat): (r: Option<nat>)
    requires from <= |labels|
    ensures r.Some? ==> from <= r.value < |labels| && StartsWith(s, labels[r.value])
    ensures r.Some? ==> forall m :: from <= m < r.value ==> !StartsWith(s, labels[m])
    ensures r.None? ==> forall m :: from <= m < |labels| ==> !StartsWith(s, labels[m])
    decreases |labels| - from
  {
    if from == |labels| then None
    else if StartsWith(s, labels[from]) then Some(from)
    else FirstPrefix(s, labels, from + 1)
  }

  /** One line of a counter file: the slot of the first label the line
      starts with gets the rest of the line, stripped; nothing else changes. */
  function CounterLineUpdate(values: Values, s: string, labels: seq<string>, base: nat): (r: Values)
    requires base + |labels| <= VALUE_COUNT
    ensures forall j :: 0 <= j < VALUE_COUNT && (j < base || FirstPrefix(s, labels, 0) != Some(j - base)) ==> r[j] == values[j]
    ensures FirstPrefix(s, labels, 0).Some? ==>
              var m := FirstPrefix(s, labels, 0).value; r[base + m] == Strip(s[|labels[m]|..])
  {
    match FirstPrefix(s, labels, 0)
    case None => values
    case Some(m) => values[base + m := Strip(s[|labels[m]|..])]
  }

  function ScanCounters(values: Values, lines: seq<string>, labels: seq<string>, base: nat): (r: Values)
    requires base + |labels| <= VALUE_COUNT
    ensures forall j :: 0 <= j < base ==> r[j] == values[j]
  {
    if lines == [] then values
    else CounterLineUpdate(ScanCounters(values, lines[..|lines| - 1], labels, base), lines[|lines| - 1], labels, base)
  }

  /** A counter that no line of its file announces keeps its value. */
  lemma {:induction false} ScanCountersUnwritten(values: Values, lines: seq<string>, labels: seq<string>, base: nat, m: nat)
    requires base + |labels| <= VALUE_COUNT && m < |labels|
    requires forall j :: 0 <= j < |lines| ==> FirstPrefix(lines[j], labels, 0) != Some(m)
    ensures ScanCounters(values, lines, labels, base)[base + m] == values[base + m]
  {
    if lines != [] {
      ScanCountersUnwritten(values, lines[..|lines| - 1], labels, base, m);
    }
  }

  /** A counter holds the stripped rest of the last line that announces it. */
  lemma {:induction false} ScanCountersLastWriter(values: Values, lines: seq<string>, labels: seq<string>, base: nat, m: nat, k: nat)
    requires base + |labels| <= VALUE_COUNT && m < |labels|
    requires k < |lines| && FirstPrefix(lines[k], labels, 0) == Some(m)
    requires forall j :: k < j < |lines| ==> FirstPrefix(lines[j], labels, 0) != Some(m)
    ensures ScanCounters(values, lines, labels, base)[base + m] == Strip(lines[k][|labels[m]|..])
  {
    if k < |lines| - 1 {
      ScanCountersLastWriter(values, lines[..|lines| - 1], labels, base, m, k);
    }
  }

  /** Counter slots outside the file's own range are never touched. */
  lemma {:induction false} ScanCountersFrame(values: Values, lines: seq<string>, labels: seq<string>, base: nat, j: nat)
    requires base + |labels| <= VALUE_COUNT && j < VALUE_COUNT && (j < base || base + |labels| <= j)
    ensures ScanCounters(values, lines, labels, base)[j] == values[j]
  {
    if lines != [] {
      ScanCountersFrame(values, lines[..|lines| - 1], labels, base, j);
    }
  }

  /** `filename[:-3] + "out"` and `filename[:-3] + "err"` */
  function Sibling(filename: string, ext: string): string
  {
    Slice(filename, 0, -3) + ext
  }

  /** The values the `.log` file gives, after the status rewrite. */
  function Logged(filename: string, lines: seq<string>): Values
  {
    StatusRewrite(ScanLog(InitialValues(filename), lines))
  }

  /** The counters of the file `name`, when it exists. */
  function WithCounters(values: Values, name: string, fs: map<string, seq<string>>, labels: seq<string>, base: nat): Values
    requires base + |labels| <= VALUE_COUNT
  {
    if name in fs then ScanCounters(values, fs[name], labels, base) else values
  }

  /** getValuesFromLogAndOutFile as a function of the file system. */
  function RunValues(filename: string, fs: map<string, seq<string>>): Values
    requires filename in fs
  {
    var outFile := Sibling(filename, "out");
    var counted := WithCounters(Logged(filename, fs[filename]), outFile, fs, OutLabels(), OUT_BASE);
    WithCounters(counted, Sibling(outFile, "err"), fs, ErrLabels(), ERR_BASE)
  }

  lemma WithCountersFrame(values: Values, name: string, fs: map<string, seq<string>>, labels: seq<string>, base: nat, j: nat)
    requires base + |labels| <= VALUE_COUNT && j < VALUE_COUNT && (j < base || base + |labels| <= j)
    ensures WithCounters(values, name, fs, labels, base)[j] == values[j]
  {
    if name in fs {
      ScanCountersFrame(values, fs[name], labels, base, j);
    }
  }

  /** The first five values (name, time, space, result, status) come from
      the `.log` file alone. */
  lemma RunValuesLogged(filename: string, fs: map<string, seq<string>>, slot: nat)
    requires filename in fs && slot < OUT_BASE
    ensures RunValues(filename, fs)[slot] == Logged(filename, fs[filename])[slot]
  {
    var outFile := Sibling(filename, "out");
    var logged := Logged(filename, fs[filename]);
    WithCountersFrame(logged, outFile, fs, OutLabels(), OUT_BASE, slot);
    var counted := WithCounters(logged, outFile, fs, OutLabels(), OUT_BASE);
    WithCountersFrame(counted, Sibling(outFile, "err"), fs, ErrLabels(), ERR_BASE, slot);
  }

  /** A status of `ok` in the row always comes with result 10 or 20. */
  lemma RunValuesStatus(filename: string, fs: map<string, seq<string>>)
    requires filename in fs
    ensures RunValues(filename, fs)[4] == "ok" ==> RunValues(filename, fs)[3] in {"10", "20"}
  {
    RunValuesLogged(filename, fs, 3);
    RunValuesLogged(filename, fs, 4);
  }

  /** The name column is the instance name, and a column among Time,
      Space, Result and Status that no line of the `.log` file sets keeps
      its column title. */
  lemma RunValuesUnwritten(filename: string, fs: map<string, seq<string>>, slot: nat)
    requires filename in fs && slot < OUT_BASE
    requires forall j :: 0 <= j < |fs[filename]| ==> !Writes(fs[filename][j], slot)
    ensures slot == 0 ==> RunValues(filename, fs)[slot] == InstanceName(filename)
    ensures slot != 0 ==> RunValues(filename, fs)[slot] == Header()[slot]
  {
    RunValuesLogged(filename, fs, slot);
    ScanLogUnwritten(InitialValues(filename), fs[filename], slot);
  }

  /** A counter of the `.out` file that no line announces is `NA`. */
  lemma RunValuesOutCounterMissing(filename: string, fs: map<string, seq<string>>, m: nat)
    requires filename in fs && m < |OutLabels()|
    requires var outFile := Sibling(filename, "out");
             outFile in fs ==> forall j :: 0 <= j < |fs[outFile]| ==> FirstPrefix(fs[outFile][j], OutLabels(), 0) != Some(m)
    ensures RunValues(filename, fs)[OUT_BASE + m] == "NA"
  {
    var outFile := Sibling(filename, "out");
    var logged := Logged(filename, fs[filename]);
    LoggedCounter(filename, fs[filename], OUT_BASE + m);
    if outFile in fs {
      ScanCountersUnwritten(logged, fs[outFile], OutLabels(), OUT_BASE, m);
    }
    var counted := WithCounters(logged, outFile, fs, OutLabels(), OUT_BASE);
    WithCountersFrame(counted, Sibling(outFile, "err"), fs, ErrLabels(), ERR_BASE, OUT_BASE + m);
  }

  /** A counter of the `.out` file holds the stripped rest of the last line
      that announces it. */
  lemma RunValuesOutCounter(filename: string, fs: map<string, seq<string>>, m: nat, k: nat)
    requires filename in fs && m < |OutLabels()|
    requires var outFile := Sibling(filename, "out");
             && outFile in fs && k < |fs[outFile]| && FirstPrefix(fs[outFile][k], OutLabels(), 0) == Some(m)
             && forall j :: k < j < |fs[outFile]| ==> FirstPrefix(fs[outFile][j], OutLabels(), 0) != Some(m)
    ensures RunValues(filename, fs)[OUT_BASE + m] == Strip(fs[Sibling(filename, "out")][k][|OutLabels()[m]|..])
  {
    var outFile := Sibling(filename, "out");
    var logged := Logged(filename, fs[filename]);
    ScanCountersLastWriter(logged, fs[outFile], OutLabels(), OUT_BASE, m, k);
    var counted := WithCounters(logged, outFile, fs, OutLabels(), OUT_BASE);
    WithCountersFrame(counted, Sibling(outFile, "err"), fs, ErrLabels(), ERR_BASE, OUT_BASE + m);
  }

  /** A counter of the `.err` file holds the stripped rest of the last line
      that announces it. */
  lemma RunValuesErrCounter(filename: string, fs: map<string, seq<string>>, m: nat, k: nat)
    requires filename in fs && m < |ErrLabels()|
    requires var errFile := Sibling(Sibling(filename, "out"), "err");
             && errFile in fs && k < |fs[errFile]| && FirstPrefix(fs[errFile][k], ErrLabels(), 0) == Some(m)
             && forall j :: k < j < |fs[errFile]| ==> FirstPrefix(fs[errFile][j], ErrLabels(), 0) != Some(m)
    ensures RunValues(filename, fs)[ERR_BASE + m] == Strip(fs[Sibling(Sibling(filename, "out"), "err")][k][|ErrLabels()[m]|..])
  {
    var outFile := Sibling(filename, "out");
    var errFile := Sibling(outFile, "err");
    var counted := WithCounters(Logged(filename, fs[filename]), outFile, fs, OutLabels(), OUT_BASE);
    assert RunValues(filename, fs) == WithCounters(counted, errFile, fs, ErrLabels(), ERR_BASE);
    ScanCountersLastWriter(counted, fs[errFile], ErrLabels(), ERR_BASE, m, k);
  }

  /** A counter of the `.err` file that no line announces is `NA`. */
  lemma RunValuesErrCounterMissing(filename: string, fs: map<string, seq<string>>, m: nat)
    requires filename in fs && m < |ErrLabels()|
    requires var errFile := Sibling(Sibling(filename, "out"), "err");
             errFile in fs ==> forall j :: 0 <= j < |fs[errFile]| ==> FirstPrefix(fs[errFile][j], ErrLabels(), 0) != Some(m)
    ensures RunValues(filename, fs)[ERR_BASE + m] == "NA"
  {
    var outFile := Sibling(filename, "out");
    var errFile := Sibling(outFile, "err");
    var logged := Logged(filename, fs[filename]);
    LoggedCounter(filename, fs[filename], ERR_BASE + m);
    WithCountersFrame(logged, outFile, fs, OutLabels(), OUT_BASE, ERR_BASE + m);
    var counted := WithCounters(logged, outFile, fs, OutLabels(), OUT_BASE);
    assert RunValues(filename, fs) == WithCounters(counted, errFile, fs, ErrLabels(), ERR_BASE);
    if errFile in fs {
      ScanCountersUnwritten(counted, fs[errFile], ErrLabels(), ERR_BASE, m);
    }
  }

  /** No line of the `.log` file writes a counter slot. */
  lemma LoggedCounter(filename: string, lines: seq<string>, slot: nat)
    requires OUT_BASE <= slot < VALUE_COUNT
    ensures Logged(filename, lines)[slot] == "NA"
  {
    assert |LogLabels()| < OUT_BASE;
    ScanLogUnwritten(InitialValues(filename), lines, slot);
  }

  /** The label loop of one `.log` line; its `break` is a `return`, as
      nothing follows the loop. */
  method LogLine(values: Values, s: string) returns (r: Values)
    ensures r == LogLineUpdate(values, s)
  {
    r := values;
    if Contains(s, "sample:") {
      return;
    }
    for i := 1 to |LogLabels()| + 1
      invariant FirstLabel(s, 0) == FirstLabel(s, i - 1)
    {
      if Contains(s, LogLabels()[i - 1]) {
        var m := LogMatch(i, s);
        if m.Some? {
          r := values[i := m.value];
        }
        return;
      }
    }
  }

  /** The prefix loop of one counter-file line, with its `break`. */
  method CounterLine(values: Values, s: string, labels: seq<string>, base: nat) returns (r: Values)
    requires base + |labels| <= VALUE_COUNT
    ensures r == CounterLineUpdate(values, s, labels, base)
  {
    r := values;
    var i := 0;
    while i < |labels|
      invariant 0 <= i <= |labels|
      invariant FirstPrefix(s, labels, 0) == FirstPrefix(s, labels, i)
    {
      if StartsWith(s, labels[i]) {
        r := values[base + i := Strip(s[|labels[i]|..])];
        break;
      }
      i := i + 1;
    }
  }

  /** getValuesFromLogAndOutFile: the twenty values scraped for one run. */
  method GetValuesFromLogAndOutFile(filename: string, fs: map<string, seq<string>>) returns (values: Values)
    requires filename in fs
    ensures values == RunValues(filename, fs)
  {
    values := LogFile(InitialValues(filename), fs[filename]);
    if values[4] == "ok" && values[3] != "10" && values[3] != "20" {
      values := values[4 := "time"];
    }
    assert values == Logged(filename, fs[filename]);
    var outFile := Sibling(filename, "out");
    if outFile in fs {
      values := CounterFile(values, fs[outFile], OutLabels(), OUT_BASE);
    }
    assert values == WithCounters(Logged(filename, fs[filename]), outFile, fs, OutLabels(), OUT_BASE);
    var errFile := Sibling(outFile, "err");
    if errFile in fs {
      values := CounterFile(values, fs[errFile], ErrLabels(), ERR_BASE);
    }
  }

  /** The loop over the lines of the `.log` file. */
  method LogFile(values: Values, lines: seq<string>) returns (r: Values)
    ensures r == ScanLog(values, lines)
  {
    r := values;
    var k := 0;
    while k < |lines|
      invariant 0 <= k <= |lines|
      invariant r == ScanLog(values, lines[..k])
    {
      assert lines[..k + 1][..k] == lines[..k];
      r := LogLine(r, lines[k]);
      k := k + 1;
    }
    assert lines[..k] == lines;
  }

  method CounterFile(values: Values, lines: seq<string>, labels: seq<string>, base: nat) returns (r: Values)
    requires base + |labels| <= VALUE_COUNT
    ensures r == ScanCounters(values, lines, labels, base)
  {
    r := values;
    var k := 0;
    while k < |lines|
      invariant 0 <= k <= |lines|
      invariant r == ScanCounters(values, lines[..k], labels, base)
    {
      assert lines[..k + 1][..k] == lines[..k];
      r := CounterLine(r, lines[k], labels, base);
      k := k + 1;
    }
    assert lines[..k] == lines;
  }

  /** The configuration: what follows the last `_` of the directory name, or
      its last three characters when it has no `_`. */
  function Configuration(inDir: string): (r: string)
    ensures '_' in inDir ==> r == AfterLast(inDir, '_')
    ensures '_' !in inDir ==> r == if |inDir| <= 3 then inDir else inDir[|inDir| - 3..]
  {
    RFindAfterLast(inDir, '_');
    var configuration := Slice(inDir, -3, |inDir|);
    var idx := RFind(inDir, '_');
    if idx != -1 then Slice(inDir, idx + 1, |inDir|) else configuration
  }

  /** The class: the last component of the directory being walked, or
      `_ALL_` when that component is the results directory's name itself. */
  function ClassName(root: string, inDir: string): (r: string)
    ensures r == "_ALL_" <==> AfterLast(root, '/') == inDir || AfterLast(root, '/') == "_ALL_"
    ensures r != "_ALL_" ==> r == AfterLast(root, '/')
  {
    var classname := AfterLast(root, '/');
    if classname == inDir then "_ALL_" else classname
  }

  /** Files directly in the results directory get the class `_ALL_` exactly
      when the directory was named without any `/` (or its last component
      is itself `_ALL_`); with a path such as `runs/results_A` they get the
      class `results_A`. */
  lemma TopLevelClass(inDir: string)
    ensures ClassName(inDir, inDir) == "_ALL_" <==> '/' !in inDir || AfterLast(inDir, '/') == "_ALL_"
  {
    if '/' !in inDir {
      AfterLastAt(inDir, '/', 0);
    }
  }

  /** A class subdirectory `inDir/sub` gives its own name as the class. */
  lemma SubdirectoryClass(inDir: string, sub: string)
    requires '/' !in sub && sub != inDir && sub != "_ALL_"
    ensures ClassName(inDir + "/" + sub, inDir) == sub
  {
    var root := inDir + "/" + sub;
    assert root[|inDir| + 1..] == sub;
    AfterLastAt(root, '/', |inDir| + 1);
  }

  /** `os.path.join(root, f)` for a file name `f` that is not absolute. */
  function PathJoin(root: string, f: string): string
  {
    if root == [] || root[|root| - 1] == '/' then root + f else root + "/" + f
  }

  /** The name column of a run is its `.log` file's name without `.log`. */
  lemma LogFileInstanceName(root: string, f: string)
    requires EndsWith(f, ".log") && '/' !in f
    ensures InstanceName(PathJoin(root, f)) == f[..|f| - 4]
  {
    var path := PathJoin(root, f);
    var q := |path| - |f|;
    assert path[q..] == f;
    assert q > 0 ==> path[q - 1] == '/';
    AfterLastAt(path, '/', q);
    InstanceNameIsBaseName(path);
  }

  /** One directory of the walk: its path and the names of its files. */
  datatype DirEntry = DirEntry(root: string, files: seq<string>)

  /** A `.log` file found on the walk, by directory and name, with the class
      of its directory. */
  datatype LogRef = LogRef(root: string, file: string, cls: string)

  /** `i % 0` raised ZeroDivisionError. */
  datatype WalkError = ZeroModulus

  predicate IsLogName(f: string)
  {
    EndsWith(f, ".log")
  }

  /** The `.log` files of one directory, in listing order. */
  function LogsIn(root: string, cls: string, files: seq<string>): seq<LogRef>
  {
    if files == [] then []
    else
      var f := files[|files| - 1];
      LogsIn(root, cls, files[..|files| - 1]) + (if IsLogName(f) then [LogRef(root, f, cls)] else [])
  }

  /** The `.log` files in walk order: the files that advance the counter `i`. */
  function LogRefs(walk: seq<DirEntry>, inDir: string): seq<LogRef>
  {
    if walk == [] then []
    else
      var last := walk[|walk| - 1];
      LogRefs(walk[..|walk| - 1], inDir) + LogsIn(last.root, ClassName(last.root, inDir), last.files)
  }

  /** Every `.log` file of the directory can be opened. */
  predicate DirReadable(root: string, files: seq<string>, fs: map<string, seq<string>>)
  {
    forall f :: f in files && IsLogName(f) ==> PathJoin(root, f) in fs
  }

  /** Every `.log` file the walk lists can be opened. */
  predicate Readable(walk: seq<DirEntry>, fs: map<string, seq<string>>)
  {
    forall e :: 0 <= e < |walk| ==> DirReadable(walk[e].root, walk[e].files, fs)
  }

  predicate ReadableRefs(refs: seq<LogRef>, fs: map<string, seq<string>>)
  {
    forall k :: 0 <= k < |refs| ==> PathJoin(refs[k].root, refs[k].file) in fs
  }

  /** Every entry found in a directory is a `.log` file listed there. */
  lemma {:induction false} LogsInListed(root: string, cls: string, files: seq<string>)
    ensures forall k :: 0 <= k < |LogsIn(root, cls, files)| ==> var r := LogsIn(root, cls, files)[k];
              r.root == root && r.cls == cls && r.file in files && IsLogName(r.file)
  {
    if files != [] {
      var init := files[..|files| - 1];
      LogsInListed(root, cls, init);
      assert forall f :: f in init ==> f in files;
    }
  }

  lemma ReadableAppend(done: seq<LogRef>, root: string, cls: string, files: seq<string>, fs: map<string, seq<string>>)
    requires ReadableRefs(done, fs) && DirReadable(root, files, fs)
    ensures ReadableRefs(done + LogsIn(root, cls, files), fs)
  {
    var here := LogsIn(root, cls, files);
    LogsInListed(root, cls, files);
    forall k | 0 <= k < |done + here| ensures PathJoin((done + here)[k].root, (done + here)[k].file) in fs {
      if k >= |done| {
        assert (done + here)[k] == here[k - |done|];
      }
    }
  }

  lemma {:induction false} ReadableLogRefs(walk: seq<DirEntry>, inDir: string, fs: map<string, seq<string>>)
    requires Readable(walk, fs)
    ensures ReadableRefs(LogRefs(walk, inDir), fs)
  {
    if walk != [] {
      var init := walk[..|walk| - 1];
      assert Readable(init, fs) by {
        forall e | 0 <= e < |init| ensures DirReadable(init[e].root, init[e].files, fs) {
          assert init[e] == walk[e];
        }
      }
      ReadableLogRefs(init, inDir, fs);
      var last := walk[|walk| - 1];
      ReadableAppend(LogRefs(init, inDir), last.root, ClassName(last.root, inDir), last.files, fs);
    }
  }

  /** Python's `i % m`, whose result has the sign of `m`. */
  function PyMod(i: int, m: int): (r: int)
    requires m != 0
    ensures m > 0 ==> 0 <= r < m
    ensures m < 0 ==> m < r <= 0
    ensures m > 0 ==> r == i % m
    ensures r % m == i % m
  {
    var r := i % m;
    if m < 0 && r != 0 then r + m else r
  }

  /** The elements whose index `i` satisfies `i % modulus == remainder`. */
  function Select<T>(xs: seq<T>, remainder: int, modulus: int): (r: seq<T>)
    requires modulus != 0
    ensures |r| <= |xs|
  {
    if xs == [] then []
    else Select(xs[..|xs| - 1], remainder, modulus) + (if PyMod(|xs| - 1, modulus) == remainder then [xs[|xs| - 1]] else [])
  }

  lemma SelectSnoc<T>(xs: seq<T>, x: T, remainder: int, modulus: int)
    requires modulus != 0
    ensures Select(xs + [x], remainder, modulus)
         == Select(xs, remainder, modulus) + (if PyMod(|xs|, modulus) == remainder then [x] else [])
  {
    assert (xs + [x])[..|xs|] == xs;
  }

  /** The table row of one run: its values, then class and configuration. */
  function Row(ref: LogRef, configuration: string, fs: map<string, seq<string>>): (r: seq<string>)
    requires PathJoin(ref.root, ref.file) in fs
    ensures |r| == VALUE_COUNT + 2
  {
    RunValues(PathJoin(ref.root, ref.file), fs) + [ref.cls, configuration]
  }

  /** The rows of the runs, in walk order. */
  function Rows(refs: seq<LogRef>, configuration: string, fs: map<string, seq<string>>): (r: seq<seq<string>>)
    requires ReadableRefs(refs, fs)
    ensures |r| == |refs|
    ensures forall k :: 0 <= k < |r| ==> |r[k]| == VALUE_COUNT + 2
  {
    if refs == [] then []
    else Rows(refs[..|refs| - 1], configuration, fs) + [Row(refs[|refs| - 1], configuration, fs)]
  }

  lemma RowsSnoc(refs: seq<LogRef>, x: LogRef, configuration: string, fs: map<string, seq<string>>)
    requires ReadableRefs(refs + [x], fs)
    ensures ReadableRefs(refs, fs) && PathJoin(x.root, x.file) in fs
    ensures Rows(refs + [x], configuration, fs) == Rows(refs, configuration, fs) + [Row(x, configuration, fs)]
  {
    assert (refs + [x])[..|refs|] == refs;
    assert (refs + [x])[|refs|] == x;
  }

  /** The table of the `.log` files `refs` in walk order, all in the
      configuration `configuration`: the rows whose running index `i` has
      `i % modulus == remainder`, or the division by zero that the first
      `.log` file meets when `modulus` is 0. */
  function WalkTable(refs: seq<LogRef>, configuration: string, fs: map<string, seq<string>>, remainder: int, modulus: int): Result<seq<seq<string>>, WalkError>
    requires ReadableRefs(refs, fs)
  {
    if modulus == 0 then (if refs == [] then Ok([]) else Err(ZeroModulus))
    else Ok(Select(Rows(refs, configuration, fs), remainder, modulus))
  }

  /** walkResults as a function: the table of the `.log` files of the walk,
      in the configuration the directory's name gives. */
  function WalkSpec(inDir: string, walk: seq<DirEntry>, fs: map<string, seq<string>>, remainder: int, modulus: int): Result<seq<seq<string>>, WalkError>
    requires Readable(walk, fs)
  {
    ReadableLogRefs(walk, inDir, fs);
    WalkTable(LogRefs(walk, inDir), Configuration(inDir), fs, remainder, modulus)
  }

  lemma LogsInSnoc(root: string, cls: string, files: seq<string>, k: nat)
    requires k < |files|
    ensures LogsIn(root, cls, files[..k + 1]) == LogsIn(root, cls, files[..k]) + (if IsLogName(files[k]) then [LogRef(root, files[k], cls)] else [])
  {
    assert files[..k + 1][..k] == files[..k];
  }

  /** The files handled so far, one file further into the directory. */
  lemma DoneSnoc(done: seq<LogRef>, root: string, cls: string, files: seq<string>, k: nat)
    requires k < |files|
    ensures IsLogName(files[k]) ==> done + LogsIn(root, cls, files[..k + 1]) == done + LogsIn(root, cls, files[..k]) + [LogRef(root, files[k], cls)]
    ensures !IsLogName(files[k]) ==> done + LogsIn(root, cls, files[..k + 1]) == done + LogsIn(root, cls, files[..k])
  {
    LogsInSnoc(root, cls, files, k);
  }

  /** The `.log` files of a prefix of a directory come first. */
  lemma {:induction false} LogsInPrefix(root: string, cls: string, files: seq<string>, k: nat)
    requires k <= |files|
    ensures |LogsIn(root, cls, files[..k])| <= |LogsIn(root, cls, files)|
  {
    if k < |files| {
      LogsInPrefix(root, cls, files[..|files| - 1], k);
      assert files[..|files| - 1][..k] == files[..k];
    } else {
      assert files[..k] == files;
    }
  }

  /** The `.log` files of a prefix of the walk come first. */
  lemma {:induction false} LogRefsPrefix(walk: seq<DirEntry>, inDir: string, e: nat)
    requires e <= |walk|
    ensures |LogRefs(walk[..e], inDir)| <= |LogRefs(walk, inDir)|
  {
    if e == |walk| {
      assert walk[..e] == walk;
    } else {
      var init := walk[..|walk| - 1];
      var last := walk[|walk| - 1];
      assert init[..e] == walk[..e];
      LogRefsPrefix(init, inDir, e);
      assert LogRefs(walk, inDir) == LogRefs(init, inDir) + LogsIn(last.root, ClassName(last.root, inDir), last.files);
    }
  }

  /** The `.log` files of the walk up to entry `e`, and one entry more. */
  lemma LogRefsSnoc(walk: seq<DirEntry>, inDir: string, e: nat)
    requires e < |walk|
    ensures LogRefs(walk[..e + 1], inDir)
            == LogRefs(walk[..e], inDir) + LogsIn(walk[e].root, ClassName(walk[e].root, inDir), walk[e].files)
  {
    assert walk[..e + 1][..e] == walk[..e];
  }

  /** One `.log` file more on the walk: it is readable, and the row of its
      values, class and configuration is added to the worker's share exactly
      when its index falls to it. */
  lemma WalkStep(cur: seq<LogRef>, x: LogRef, configuration: string, fs: map<string, seq<string>>, remainder: int, modulus: int)
    requires modulus != 0
    requires ReadableRefs(cur, fs) && PathJoin(x.root, x.file) in fs
    ensures ReadableRefs(cur + [x], fs)
    ensures PyMod(|cur|, modulus) == remainder ==>
              Select(Rows(cur + [x], configuration, fs), remainder, modulus)
              == Select(Rows(cur, configuration, fs), remainder, modulus)
                 + [RunValues(PathJoin(x.root, x.file), fs) + [x.cls, configuration]]
    ensures PyMod(|cur|, modulus) != remainder ==>
              Select(Rows(cur + [x], configuration, fs), remainder, modulus) == Select(Rows(cur, configuration, fs), remainder, modulus)
  {
    assert ReadableRefs(cur + [x], fs) by {
      assert forall j :: 0 <= j < |cur| ==> (cur + [x])[j] == cur[j];
    }
    RowsSnoc(cur, x, configuration, fs);
    SelectSnoc(Rows(cur, configuration, fs), Row(x, configuration, fs), remainder, modulus);
  }

  /** One `.log` file of the walk, at running index `i`: when the index falls
      to this worker, the file's values, class and configuration are added
      as a row; the index advances either way. */
  method VisitLog(classname: string, configuration: string, root: string, f: string,
                  fs: map<string, seq<string>>, remainder: int, modulus: int, ghost cur: seq<LogRef>,
                  i: int, table: seq<seq<string>>)
    returns (i': int, table': seq<seq<string>>)
    requires modulus != 0
    requires ReadableRefs(cur, fs) && PathJoin(root, f) in fs && i == |cur|
    requires table == Select(Rows(cur, configuration, fs), remainder, modulus)
    ensures ReadableRefs(cur + [LogRef(root, f, classname)], fs)
    ensures i' == i + 1
    ensures table' == Select(Rows(cur + [LogRef(root, f, classname)], configuration, fs), remainder, modulus)
  {
    WalkStep(cur, LogRef(root, f, classname), configuration, fs, remainder, modulus);
    table' := table;
    if PyMod(i, modulus) == remainder {
      var values := GetValuesFromLogAndOutFile(PathJoin(root, f), fs);
      table' := table + [values + [classname, configuration]];
    }
    i' := i + 1;
  }

  /** The state of the walk after the `.log` files `refs`: the running
      index has counted them, and the table holds the rows of those whose
      index is in the worker's share (none when `modulus` is 0, which the
      first `.log` file stops). */
  ghost predicate Progress(refs: seq<LogRef>, configuration: string, fs: map<string, seq<string>>,
                           remainder: int, modulus: int, i: int, table: seq<seq<string>>)
  {
    && ReadableRefs(refs, fs) && i == |refs|
    && (modulus == 0 ==> refs == [] && table == [])
    && (modulus != 0 ==> table == Select(Rows(refs, configuration, fs), remainder, modulus))
  }

  /** One entry of a directory's file list: a `.log` file is handled as
      VisitLog says, or meets the division by zero when `modulus` is 0; any
      other file is passed over. */
  method VisitFile(configuration: string, classname: string, root: string, files: seq<string>, k: nat,
                   fs: map<string, seq<string>>, remainder: int, modulus: int, ghost done: seq<LogRef>,
                   ghost cur: seq<LogRef>, i: int, table: seq<seq<string>>)
    returns (i': int, table': seq<seq<string>>, failed: bool)
    requires k < |files| && DirReadable(root, files, fs)
    requires cur == done + LogsIn(root, classname, files[..k])
    requires Progress(cur, configuration, fs, remainder, modulus, i, table)
    ensures failed <==> modulus == 0 && IsLogName(files[k])
    ensures failed ==> LogsIn(root, classname, files) != []
    ensures !failed ==> Progress(done + LogsIn(root, classname, files[..k + 1]), configuration, fs, remainder, modulus, i', table')
  {
    DoneSnoc(done, root, classname, files, k);
    i', table', failed := i, table, false;
    if IsLogName(files[k]) {
      if modulus == 0 {
        LogsInPrefix(root, classname, files, k + 1);
        return i, table, true;
      }
      assert PathJoin(root, files[k]) in fs;
      i', table' := VisitLog(classname, configuration, root, files[k], fs, remainder, modulus, cur, i, table);
    }
  }

  /** The inner loop of the walk for one directory, whose class has been
      named: handle each of its files in turn. */
  method WalkDirectory(configuration: string, classname: string, root: string, files: seq<string>,
                       fs: map<string, seq<string>>, remainder: int, modulus: int, ghost done: seq<LogRef>,
                       i0: int, table0: seq<seq<string>>)
    returns (i: int, table: seq<seq<string>>, failed: bool)
    requires DirReadable(root, files, fs)
    requires Progress(done, configuration, fs, remainder, modulus, i0, table0)
    ensures ReadableRefs(done + LogsIn(root, classname, files), fs)
    ensures failed <==> modulus == 0 && LogsIn(root, classname, files) != []
    ensures !failed ==> Progress(done + LogsIn(root, classname, files), configuration, fs, remainder, modulus, i, table)
  {
    ReadableAppend(done, root, classname, files, fs);
    i, table, failed := i0, table0, false;
    var k := 0;
    ghost var cur := done;
    assert done + LogsIn(root, classname, files[..k]) == done;
    while k < |files|
      invariant 0 <= k <= |files|
      invariant cur == done + LogsIn(root, classname, files[..k])
      invariant Progress(cur, configuration, fs, remainder, modulus, i, table)
    {
      i, table, failed := VisitFile(configuration, classname, root, files, k, fs, remainder, modulus, done, cur, i, table);
      if failed {
        return;
      }
      cur := done + LogsIn(root, classname, files[..k + 1]);
      k := k + 1;
    }
    assert files[..k] == files;
  }

  /** One directory of the walk: its class is named, then its files are
      handled as WalkDirectory says. */
  method VisitDirectory(inDir: string, configuration: string, walk: seq<DirEntry>, e: nat,
                        fs: map<string, seq<string>>, remainder: int, modulus: int, ghost cur: seq<LogRef>,
                        i: int, table: seq<seq<string>>)
    returns (i': int, table': seq<seq<string>>, failed: bool)
    requires e < |walk| && Readable(walk, fs)
    requires cur == LogRefs(walk[..e], inDir)
    requires Progress(cur, configuration, fs, remainder, modulus, i, table)
    ensures failed ==> modulus == 0 && LogRefs(walk, inDir) != []
    ensures !failed ==> Progress(LogRefs(walk[..e + 1], inDir), configuration, fs, remainder, modulus, i', table')
  {
    LogRefsSnoc(walk, inDir, e);
    var classname := ClassName(walk[e].root, inDir);
    i', table', failed := WalkDirectory(configuration, classname, walk[e].root, walk[e].files, fs,
                                        remainder, modulus, cur, i, table);
    if failed {
      LogRefsPrefix(walk, inDir, e + 1);
    }
  }

  /** The loop of walkResults over the directories of the walk, once the
      configuration is known. */
  method WalkTree(inDir: string, configuration: string, walk: seq<DirEntry>, fs: map<string, seq<string>>,
                  remainder: int, modulus: int)
    returns (r: Result<seq<seq<string>>, WalkError>)
    requires Readable(walk, fs)
    ensures ReadableRefs(LogRefs(walk, inDir), fs)
    ensures r == WalkTable(LogRefs(walk, inDir), configuration, fs, remainder, modulus)
  {
    ReadableLogRefs(walk, inDir, fs);
    var resultTable: seq<seq<string>> := [];
    var i := 0;
    var e := 0;
    ghost var cur: seq<LogRef> := [];
    while e < |walk|
      invariant 0 <= e <= |walk|
      invariant cur == LogRefs(walk[..e], inDir)
      invariant Progress(cur, configuration, fs, remainder, modulus, i, resultTable)
    {
      var failed;
      i, resultTable, failed := VisitDirectory(inDir, configuration, walk, e, fs, remainder, modulus, cur, i, resultTable);
      if failed {
        return Err(ZeroModulus);
      }
      cur := LogRefs(walk[..e + 1], inDir);
      e := e + 1;
    }
    assert walk[..e] == walk;
    return Ok(resultTable);
  }

  /** walkResults over the walk, with the worker's share `remainder` of
      `modulus`. */
  method WalkResults(inDir: string, walk: seq<DirEntry>, fs: map<string, seq<string>>, remainder: int, modulus: int)
    returns (r: Result<seq<seq<string>>, WalkError>)
    requires Readable(walk, fs)
    ensures r == WalkSpec(inDir, walk, fs, remainder, modulus)
  {
    var configuration := Configuration(inDir);
    r := WalkTree(inDir, configuration, walk, fs, remainder, modulus);
  }

  /** The workers' tables concatenated, as the main program collects them. */
  function Flatten<T>(tables: seq<seq<T>>): seq<T>
  {
    if tables == [] then [] else tables[0] + Flatten(tables[1..])
  }

  lemma {:induction false} FlattenAddOne<T>(a: seq<seq<T>>, b: seq<seq<T>>, j: nat, x: T)
    requires |a| == |b| && j < |a|
    requires b[j] == a[j] + [x]
    requires forall r :: 0 <= r < |a| && r != j ==> b[r] == a[r]
    ensures multiset(Flatten(b)) == multiset(Flatten(a)) + multiset{x}
  {
    if j > 0 {
      FlattenAddOne(a[1..], b[1..], j - 1, x);
    } else {
      assert a[1..] == b[1..];
    }
  }

  /** The shares of the workers `0 .. modulus-1`. */
  function Shares<T>(xs: seq<T>, modulus: int): seq<seq<T>>
    requires modulus > 0
  {
    seq(modulus, r requires 0 <= r < modulus => Select(xs, r, modulus))
  }

  /** Every element lands in exactly one worker's share: the shares taken
      together are the whole list, each element as often as it occurs. */
  lemma {:induction false} SharesPartition<T>(xs: seq<T>, modulus: int)
    requires modulus > 0
    ensures multiset(Flatten(Shares(xs, modulus))) == multiset(xs)
  {
    if xs == [] {
      var a := Shares(xs, modulus);
      EmptySharesFlatten(a);
    } else {
      var init := xs[..|xs| - 1];
      var x := xs[|xs| - 1];
      SharesPartition(init, modulus);
      var j := PyMod(|xs| - 1, modulus);
      assert xs == init + [x];
      SharesSnoc(init, x, modulus);
      FlattenAddOne(Shares(init, modulus), Shares(xs, modulus), j, x);
    }
  }

  /** One more element joins the share of worker `PyMod(|xs|, modulus)`
      only. */
  lemma SharesSnoc<T>(xs: seq<T>, x: T, modulus: int)
    requires modulus > 0
    ensures var a, b, j := Shares(xs, modulus), Shares(xs + [x], modulus), PyMod(|xs|, modulus);
            && |a| == |b| == modulus && 0 <= j < modulus
            && b[j] == a[j] + [x]
            && forall r :: 0 <= r < modulus && r != j ==> b[r] == a[r]
  {
    var a, b := Shares(xs, modulus), Shares(xs + [x], modulus);
    forall r | 0 <= r < modulus
      ensures b[r] == Select(xs, r, modulus) + (if PyMod(|xs|, modulus) == r then [x] else [])
    {
      SelectSnoc(xs, x, r, modulus);
    }
  }

  lemma {:induction false} EmptySharesFlatten<T>(a: seq<seq<T>>)
    requires forall r :: 0 <= r < |a| ==> a[r] == []
    ensures Flatten(a) == []
  {
    if a != [] {
      EmptySharesFlatten(a[1..]);
    }
  }

  /** With a single worker every element is selected, in order. */
  lemma {:induction false} SelectAll<T>(xs: seq<T>)
    ensures Select(xs, 0, 1) == xs
  {
    if xs != [] {
      SelectAll(xs[..|xs| - 1]);
    }
  }

  /** The workers' tables of the same `.log` files, concatenated, hold the
      rows of the single-worker table, each exactly once. */
  lemma TableSharesPartition(refs: seq<LogRef>, configuration: string, fs: map<string, seq<string>>, modulus: int)
    requires ReadableRefs(refs, fs) && modulus > 0
    ensures forall r :: 0 <= r < modulus ==> WalkTable(refs, configuration, fs, r, modulus).Ok?
    ensures WalkTable(refs, configuration, fs, 0, 1).Ok?
    ensures multiset(Flatten(seq(modulus, r requires 0 <= r < modulus => WalkTable(refs, configuration, fs, r, modulus).value)))
         == multiset(WalkTable(refs, configuration, fs, 0, 1).value)
  {
    var rows := Rows(refs, configuration, fs);
    SharesPartition(rows, modulus);
    SelectAll(rows);
    forall r | 0 <= r < modulus
      ensures WalkTable(refs, configuration, fs, r, modulus) == Ok(Select(rows, r, modulus))
    {
    }
    assert seq(modulus, r requires 0 <= r < modulus => WalkTable(refs, configuration, fs, r, modulus).value) == Shares(rows, modulus);
  }

  /** The main program's concatenation of the workers' tables holds the rows
      of the single-worker table, each exactly once. */
  lemma WalkSharesPartition(inDir: string, walk: seq<DirEntry>, fs: map<string, seq<string>>, modulus: int)
    requires Readable(walk, fs) && modulus > 0
    ensures forall r :: 0 <= r < modulus ==> WalkSpec(inDir, walk, fs, r, modulus).Ok?
    ensures WalkSpec(inDir, walk, fs, 0, 1).Ok?
    ensures multiset(Flatten(seq(modulus, r requires 0 <= r < modulus => WalkSpec(inDir, walk, fs, r, modulus).value)))
         == multiset(WalkSpec(inDir, walk, fs, 0, 1).value)
  {
    ReadableLogRefs(walk, inDir, fs);
    var refs := LogRefs(walk, inDir);
    var configuration := Configuration(inDir);
    TableSharesPartition(refs, configuration, fs, modulus);
    var walkShares := seq(modulus, r requires 0 <= r < modulus => WalkSpec(inDir, walk, fs, r, modulus).value);
    var tableShares := seq(modulus, r requires 0 <= r < modulus => WalkTable(refs, configuration, fs, r, modulus).value);
    forall r | 0 <= r < modulus
      ensures WalkSpec(inDir, walk, fs, r, modulus) == WalkTable(refs, configuration, fs, r, modulus)
      ensures walkShares[r] == tableShares[r]
    {
    }
    assert walkShares == tableShares;
    assert WalkSpec(inDir, walk, fs, 0, 1) == WalkTable(refs, configuration, fs, 0, 1);
  }

  /** Every row of the table has one entry per column of the header. */
  lemma WalkRowWidth(inDir: string, walk: seq<DirEntry>, fs: map<string, seq<string>>, remainder: int, modulus: int)
    requires Readable(walk, fs)
    requires WalkSpec(inDir, walk, fs, remainder, modulus).Ok?
    ensures forall row :: row in WalkSpec(inDir, walk, fs, remainder, modulus).value ==> |row| == |Header()| == 22
  {
    ReadableLogRefs(walk, inDir, fs);
    if modulus != 0 {
      SelectElements(Rows(LogRefs(walk, inDir), Configuration(inDir), fs), remainder, modulus);
    }
  }

  lemma {:induction false} SelectElements<T>(xs: seq<T>, remainder: int, modulus: int)
    requires modulus != 0
    ensures forall y :: y in Select(xs, remainder, modulus) ==> y in xs
  {
    if xs != [] {
      SelectElements(xs[..|xs| - 1], remainder, modulus);
    }
  }

  /** The data lines of the written file, one per row. */
  function RowLines(table: seq<seq<string>>): seq<string>
  {
    if table == [] then [] else RowLines(table[..|table| - 1]) + [Join(table[|table| - 1], ',') + "\n"]
  }

  /** writeCSV: the header line, then one comma-separated line per row. The
      header is passed in; the program passes Header(). */
  method WriteCSV(header: seq<string>, table: seq<seq<string>>) returns (lines: seq<string>)
    ensures lines == [Join(header, ',') + "\n"] + RowLines(table)
  {
    lines := [Join(header, ',') + "\n"];
    var k := 0;
    while k < |table|
      invariant 0 <= k <= |table|
      invariant lines == [Join(header, ',') + "\n"] + RowLines(table[..k])
    {
      assert table[..k + 1][..k] == table[..k];
      lines := lines + [Join(table[k], ',') + "\n"];
      k := k + 1;
    }
    assert table[..k] == table;
  }
}
