/** plotresults.py, printStats: for every configuration, the number of its
    runs, how many ended with each status of a fixed vocabulary, and the
    PAR10 sum (the time of every solved run plus a penalty of ten timeouts
    for every other run).  An unknown status stops the program.  The
    printed report is the sequence of per-configuration counts. */
module PlotStats {
  import opened Wrappers
  import opened Decimal
  import opened PlotData

  /** The statuses the counters exist for. */
  const STATUS_KEYS: set<string> := {"ok", "time", "memory", "fault", "signal(9)"}

  /** The factor applied to the timeout for a run that was not solved. */
  const PENALTY: int := 10

  /** What is printed for one configuration, before the division of the
      PAR10 sum by the number of runs. */
  datatype Counts = Counts(total: nat, stats: map<string, nat>, par10: real)

  function ZeroStats(): (m: map<string, nat>)
    ensures m.Keys == STATUS_KEYS
  {
    map["ok" := 0, "time" := 0, "memory" := 0, "fault" := 0, "signal(9)" := 0]
  }

  /** `float` of every entry of the Time column; None where it raises. */
  function Parsed(timecol: seq<string>): (r: seq<Option<real>>)
    ensures |r| == |timecol|
  {
    seq(|timecol|, i requires 0 <= i < |timecol| => ParseReal(timecol[i]))
  }

  /** The value of a time that parsed; 0 otherwise. */
  function TimeOf(t: Option<real>): real
  {
    match t
    case Some(v) => v
    case None => 0.0
  }

  /** Three columns of one height: the parsed Time column, Status and
      Configuration. */
  predicate Aligned(times: seq<Option<real>>, statuses: seq<string>, configs: seq<string>)
  {
    |times| == |statuses| == |configs|
  }

  /** A row the loop can count: its status has a counter, and a solved run's
      time is a number. */
  predicate ValidRow(times: seq<Option<real>>, statuses: seq<string>, i: nat)
    requires i < |times| == |statuses|
  {
    statuses[i] in STATUS_KEYS && (statuses[i] == "ok" ==> times[i].Some?)
  }

  /** What stops the loop at an invalid row; data row `i` is line `i + 2`
      of the file. */
  function RowError(times: seq<Option<real>>, statuses: seq<string>, i: nat): PlotError
    requires i < |times| == |statuses|
  {
    if statuses[i] !in STATUS_KEYS then InvalidStatus(i + 2, statuses[i]) else BadFloat(i + 2)
  }

  /** The first invalid row of the configuration among the first `n`. */
  function FirstBad(config: string, times: seq<Option<real>>, statuses: seq<string>, configs: seq<string>, n: nat): (r: Option<nat>)
    requires Aligned(times, statuses, configs) && n <= |statuses|
    ensures r.Some? ==> r.value < n && configs[r.value] == config && !ValidRow(times, statuses, r.value)
    ensures r.Some? ==> forall i :: 0 <= i < r.value && configs[i] == config ==> ValidRow(times, statuses, i)
    ensures r.None? <==> forall i :: 0 <= i < n && configs[i] == config ==> ValidRow(times, statuses, i)
  {
    if n == 0 then None
    else
      var r := FirstBad(config, times, statuses, configs, n - 1);
      if r.Some? then r
      else if configs[n - 1] == config && !ValidRow(times, statuses, n - 1) then Some(n - 1)
      else None
  }

  /** The inner loop over the first `n` rows for one configuration, from
      freshly reset counters. */
  function Tally(config: string, times: seq<Option<real>>, statuses: seq<string>, configs: seq<string>, timeout: int, n: nat)
    : (r: Result<Counts, PlotError>)
    requires Aligned(times, statuses, configs) && n <= |statuses|
    ensures r.Ok? ==> r.value.stats.Keys == STATUS_KEYS
  {
    if n == 0 then Ok(Counts(0, ZeroStats(), 0.0))
    else
      match Tally(config, times, statuses, configs, timeout, n - 1)
      case Err(e) => Err(e)
      case Ok(c) => Count(c, config, times[n - 1], statuses[n - 1], configs[n - 1], timeout, n + 1)
  }

  /** What one row, on line `line` of the file, does to the counters of
      the configuration `config`. */
  function Count(c: Counts, config: string, time: Option<real>, status: string, rowConfig: string, timeout: int, line: nat)
    : (r: Result<Counts, PlotError>)
    ensures r.Ok? ==> r.value.stats.Keys == c.stats.Keys
  {
    if rowConfig != config then Ok(c)
    else if status !in c.stats then Err(InvalidStatus(line, status))
    else
      var counted := c.(total := c.total + 1, stats := c.stats[status := c.stats[status] + 1]);
      if status == "ok" then
        match time
        case None => Err(BadFloat(line))
        case Some(t) => Ok(counted.(par10 := c.par10 + t))
      else Ok(counted.(par10 := c.par10 + (timeout * PENALTY) as real))
  }

  /** The loop stops exactly at the first invalid row of the configuration,
      with that row's error. */
  lemma {:induction false} TallyFirstBad(config: string, times: seq<Option<real>>, statuses: seq<string>, configs: seq<string>, timeout: int, n: nat)
    requires Aligned(times, statuses, configs) && n <= |statuses|
    ensures var r := Tally(config, times, statuses, configs, timeout, n);
            && (r.Ok? <==> FirstBad(config, times, statuses, configs, n).None?)
            && (r.Err? ==> r.error == RowError(times, statuses, FirstBad(config, times, statuses, configs, n).value))
  {
    if n > 0 {
      TallyFirstBad(config, times, statuses, configs, timeout, n - 1);
    }
  }

  /** The number of the first `n` rows with configuration `config`. */
  function RunCount(config: string, configs: seq<string>, n: nat): nat
    requires n <= |configs|
  {
    if n == 0 then 0 else RunCount(config, configs, n - 1) + (if configs[n - 1] == config then 1 else 0)
  }

  /** The number of the first `n` rows with configuration `config` and
      status `status`. */
  function StatusCount(config: string, status: string, statuses: seq<string>, configs: seq<string>, n: nat): nat
    requires n <= |configs| == |statuses|
  {
    if n == 0 then 0
    else StatusCount(config, status, statuses, configs, n - 1) + (if configs[n - 1] == config && statuses[n - 1] == status then 1 else 0)
  }

  /** The sum of the times of the solved runs of the configuration. */
  function SolvedTime(config: string, times: seq<Option<real>>, statuses: seq<string>, configs: seq<string>, n: nat): real
    requires Aligned(times, statuses, configs) && n <= |statuses|
  {
    if n == 0 then 0.0
    else SolvedTime(config, times, statuses, configs, n - 1) + (if configs[n - 1] == config && statuses[n - 1] == "ok" then TimeOf(times[n - 1]) else 0.0)
  }

  /** `total` counts the configuration's runs. */
  lemma {:induction false} TallyTotal(config: string, times: seq<Option<real>>, statuses: seq<string>, configs: seq<string>, timeout: int, n: nat)
    requires Aligned(times, statuses, configs) && n <= |statuses|
    requires Tally(config, times, statuses, configs, timeout, n).Ok?
    ensures Tally(config, times, statuses, configs, timeout, n).value.total == RunCount(config, configs, n)
  {
    if n > 0 {
      TallyTotal(config, times, statuses, configs, timeout, n - 1);
    }
  }

  /** The counter of each status counts the configuration's runs with that
      status. */
  lemma {:induction false} TallyStatus(config: string, times: seq<Option<real>>, statuses: seq<string>, configs: seq<string>, timeout: int,
                                       n: nat, s: string)
    requires Aligned(times, statuses, configs) && n <= |statuses| && s in STATUS_KEYS
    requires Tally(config, times, statuses, configs, timeout, n).Ok?
    ensures Tally(config, times, statuses, configs, timeout, n).value.stats[s] == StatusCount(config, s, statuses, configs, n)
  {
    if n > 0 {
      TallyStatus(config, times, statuses, configs, timeout, n - 1, s);
    }
  }

  /** The five counters together make up the total. */
  lemma {:induction false} TallyCounts(config: string, times: seq<Option<real>>, statuses: seq<string>, configs: seq<string>, timeout: int, n: nat)
    requires Aligned(times, statuses, configs) && n <= |statuses|
    requires Tally(config, times, statuses, configs, timeout, n).Ok?
    ensures var c := Tally(config, times, statuses, configs, timeout, n).value;
            c.total == c.stats["ok"] + c.stats["time"] + c.stats["memory"] + c.stats["fault"] + c.stats["signal(9)"]
  {
    if n > 0 {
      TallyCounts(config, times, statuses, configs, timeout, n - 1);
    }
  }

  /** The number of the first `n` rows of the configuration that were not
      solved. */
  function UnsolvedCount(config: string, statuses: seq<string>, configs: seq<string>, n: nat): nat
    requires n <= |configs| == |statuses|
  {
    if n == 0 then 0
    else UnsolvedCount(config, statuses, configs, n - 1) + (if configs[n - 1] == config && statuses[n - 1] != "ok" then 1 else 0)
  }

  /** The PAR10 sum is the solved runs' time plus ten timeouts for every
      run that was not solved. */
  lemma TallyPar10(config: string, times: seq<Option<real>>, statuses: seq<string>, configs: seq<string>, timeout: int, n: nat)
    requires Aligned(times, statuses, configs) && n <= |statuses|
    requires Tally(config, times, statuses, configs, timeout, n).Ok?
    ensures var c := Tally(config, times, statuses, configs, timeout, n).value;
            c.par10 == SolvedTime(config, times, statuses, configs, n) + (timeout * PENALTY) as real * UnsolvedCount(config, statuses, configs, n) as real
    ensures var c := Tally(config, times, statuses, configs, timeout, n).value;
            UnsolvedCount(config, statuses, configs, n) == c.total - c.stats["ok"]
  {
    TallySum(config, times, statuses, configs, timeout, n);
    PenaltyScale(config, statuses, configs, (timeout * PENALTY) as real, n);
    TallyUnsolved(config, times, statuses, configs, timeout, n);
  }

  /** The sum of the penalties of the unsolved runs. */
  function PenaltySum(config: string, statuses: seq<string>, configs: seq<string>, p: real, n: nat): real
    requires n <= |configs| == |statuses|
  {
    if n == 0 then 0.0
    else PenaltySum(config, statuses, configs, p, n - 1) + (if configs[n - 1] == config && statuses[n - 1] != "ok" then p else 0.0)
  }

  lemma {:induction false} TallySum(config: string, times: seq<Option<real>>, statuses: seq<string>, configs: seq<string>, timeout: int, n: nat)
    requires Aligned(times, statuses, configs) && n <= |statuses|
    requires Tally(config, times, statuses, configs, timeout, n).Ok?
    ensures Tally(config, times, statuses, configs, timeout, n).value.par10
         == SolvedTime(config, times, statuses, configs, n) + PenaltySum(config, statuses, configs, (timeout * PENALTY) as real, n)
  {
    if n > 0 {
      TallySum(config, times, statuses, configs, timeout, n - 1);
    }
  }

  lemma {:induction false} PenaltyScale(config: string, statuses: seq<string>, configs: seq<string>, p: real, n: nat)
    requires n <= |configs| == |statuses|
    ensures PenaltySum(config, statuses, configs, p, n) == p * UnsolvedCount(config, statuses, configs, n) as real
  {
    if n > 0 {
      PenaltyScale(config, statuses, configs, p, n - 1);
      var k := UnsolvedCount(config, statuses, configs, n - 1);
      assert p * (k + 1) as real == p * k as real + p;
    }
  }

  lemma {:induction false} TallyUnsolved(config: string, times: seq<Option<real>>, statuses: seq<string>, configs: seq<string>, timeout: int, n: nat)
    requires Aligned(times, statuses, configs) && n <= |statuses|
    requires Tally(config, times, statuses, configs, timeout, n).Ok?
    ensures var c := Tally(config, times, statuses, configs, timeout, n).value;
            UnsolvedCount(config, statuses, configs, n) == c.total - c.stats["ok"]
  {
    if n > 0 {
      TallyUnsolved(config, times, statuses, configs, timeout, n - 1);
    }
  }

  /** Only the time of a solved run of the configuration enters the sum. */
  lemma {:induction false} SolvedTimeIncreases(config: string, times1: seq<Option<real>>, times2: seq<Option<real>>, statuses: seq<string>, configs: seq<string>, i: nat, n: nat)
    requires Aligned(times1, statuses, configs) && Aligned(times2, statuses, configs) && i < n <= |statuses|
    requires forall j :: 0 <= j < |times1| && j != i ==> times1[j] == times2[j]
    requires configs[i] == config && statuses[i] == "ok" && TimeOf(times1[i]) < TimeOf(times2[i])
    ensures SolvedTime(config, times1, statuses, configs, n) < SolvedTime(config, times2, statuses, configs, n)
  {
    if i < n - 1 {
      SolvedTimeIncreases(config, times1, times2, statuses, configs, i, n - 1);
    } else {
      SolvedTimeSame(config, times1, times2, statuses, configs, n - 1);
    }
  }

  lemma {:induction false} SolvedTimeSame(config: string, times1: seq<Option<real>>, times2: seq<Option<real>>, statuses: seq<string>, configs: seq<string>, n: nat)
    requires Aligned(times1, statuses, configs) && Aligned(times2, statuses, configs) && n <= |statuses|
    requires forall j :: 0 <= j < n ==> times1[j] == times2[j]
    ensures SolvedTime(config, times1, statuses, configs, n) == SolvedTime(config, times2, statuses, configs, n)
  {
    if n > 0 {
      SolvedTimeSame(config, times1, times2, statuses, configs, n - 1);
    }
  }

  /** Raising the time of one solved run raises the PAR10 sum. */
  lemma TallyMonotone(config: string, times1: seq<Option<real>>, times2: seq<Option<real>>, statuses: seq<string>, configs: seq<string>, timeout: int, i: nat)
    requires Aligned(times1, statuses, configs) && Aligned(times2, statuses, configs) && i < |statuses|
    requires forall j :: 0 <= j < |times1| && j != i ==> times1[j] == times2[j]
    requires configs[i] == config && statuses[i] == "ok" && TimeOf(times1[i]) < TimeOf(times2[i])
    requires Tally(config, times1, statuses, configs, timeout, |statuses|).Ok?
    requires Tally(config, times2, statuses, configs, timeout, |statuses|).Ok?
    ensures Tally(config, times1, statuses, configs, timeout, |statuses|).value.par10
          < Tally(config, times2, statuses, configs, timeout, |statuses|).value.par10
  {
    var n := |statuses|;
    TallyPar10(config, times1, statuses, configs, timeout, n);
    TallyPar10(config, times2, statuses, configs, timeout, n);
    TallyTotal(config, times1, statuses, configs, timeout, n);
    TallyTotal(config, times2, statuses, configs, timeout, n);
    SolvedTimeIncreases(config, times1, times2, statuses, configs, i, n);
  }

  /** A row of another configuration does not affect the counts: the
      counters start afresh for each configuration. */
  lemma {:induction false} TallyOtherRow(config: string, times: seq<Option<real>>, statuses: seq<string>, configs: seq<string>, timeout: int,
                                         i: nat, time: Option<real>, status: string, other: string, n: nat)
    requires Aligned(times, statuses, configs) && i < |statuses| && n <= |statuses|
    requires configs[i] != config && other != config
    ensures Tally(config, times[i := time], statuses[i := status], configs[i := other], timeout, n)
         == Tally(config, times, statuses, configs, timeout, n)
  {
    if n > 0 {
      var t2, s2, c2 := times[i := time], statuses[i := status], configs[i := other];
      var k := n - 1;
      TallyOtherRow(config, times, statuses, configs, timeout, i, time, status, other, k);
      var t := Tally(config, times, statuses, configs, timeout, k);
      if t.Ok? {
        TallyNext(config, t2, s2, c2, timeout, k, t.value);
        TallyNext(config, times, statuses, configs, timeout, k, t.value);
        if k != i {
          assert t2[k] == times[k] && s2[k] == statuses[k] && c2[k] == configs[k];
        }
      } else {
        TallyStops(config, t2, s2, c2, timeout, k, n);
        TallyStops(config, times, statuses, configs, timeout, k, n);
      }
    }
  }

  /** The outer loop over the configurations, each tallied over all rows. */
  function AllStats(configurations: seq<string>, times: seq<Option<real>>, statuses: seq<string>, configs: seq<string>, timeout: int)
    : (r: Result<seq<Counts>, PlotError>)
    requires Aligned(times, statuses, configs)
    ensures r.Ok? ==> |r.value| == |configurations|
    ensures r.Ok? ==> forall j :: 0 <= j < |configurations| ==>
                        Tally(configurations[j], times, statuses, configs, timeout, |statuses|) == Ok(r.value[j])
                        && r.value[j].total > 0
  {
    if configurations == [] then Ok([])
    else
      var m := |configurations| - 1;
      match AllStats(configurations[..m], times, statuses, configs, timeout)
      case Err(e) => Err(e)
      case Ok(cs) =>
        match Tally(configurations[m], times, statuses, configs, timeout, |statuses|)
        case Err(e) => Err(e)
        case Ok(c) => if c.total == 0 then Err(NoRuns(configurations[m])) else Ok(cs + [c])
  }

  /** printStats over the table. */
  function Stats(d: Data, timeout: int): Result<seq<Counts>, PlotError>
    requires WellFormed(d)
  {
    match Columns3(d, "Time", "Status", "Configuration")
    case Err(e) => Err(e)
    case Ok(cs) =>
      ColumnHeight(d, "Time");
      ColumnHeight(d, "Status");
      ColumnHeight(d, "Configuration");
      AllStats(d.configurations, Parsed(cs.0), cs.1, cs.2, timeout)
  }

  /** A configuration that has a run is never divided by zero runs. */
  lemma {:induction false} RunCountPositive(config: string, configs: seq<string>, n: nat, i: nat)
    requires i < n <= |configs| && configs[i] == config
    ensures RunCount(config, configs, n) > 0
  {
    if i < n - 1 {
      RunCountPositive(config, configs, n - 1, i);
    }
  }

  /** When every configuration listed has a run, the only errors are the
      ones of a row. */
  lemma {:induction false} AllStatsRowErrors(configurations: seq<string>, times: seq<Option<real>>, statuses: seq<string>, configs: seq<string>, timeout: int)
    requires Aligned(times, statuses, configs)
    requires forall j :: 0 <= j < |configurations| ==> configurations[j] in configs
    ensures AllStats(configurations, times, statuses, configs, timeout).Err? ==>
              AllStats(configurations, times, statuses, configs, timeout).error.InvalidStatus?
              || AllStats(configurations, times, statuses, configs, timeout).error.BadFloat?
  {
    if configurations != [] {
      var m := |configurations| - 1;
      var init := configurations[..m];
      assert forall j :: 0 <= j < |init| ==> init[j] == configurations[j];
      AllStatsRowErrors(init, times, statuses, configs, timeout);
      var t := Tally(configurations[m], times, statuses, configs, timeout, |statuses|);
      TallyFirstBad(configurations[m], times, statuses, configs, timeout, |statuses|);
      if t.Ok? {
        assert configurations[m] in configs;
        var i :| 0 <= i < |configs| && configs[i] == configurations[m];
        TallyTotal(configurations[m], times, statuses, configs, timeout, |statuses|);
        RunCountPositive(configurations[m], configs, |statuses|, i);
      }
    }
  }

  /** The program stopped, if at all, at a missing column or at a row:
      an unknown status or a time that is not a number. */
  predicate StopsOnlyAtRow(r: Result<seq<Counts>, PlotError>)
  {
    r.Err? ==> r.error.InvalidStatus? || r.error.BadFloat? || r.error.MissingColumn? || r.error.ColumnOutOfRange?
  }

  /** printStats on a table read from a file whose header names the last
      column `Configuration` never divides by zero: it stops only at an
      unknown status or a time that is not a number. */
  lemma StatsFromFile(raw: seq<string>, d: Data, timeout: int)
    requires ReadData(raw) == Ok(d) && IndexOf(d.header, "Configuration") == Some(|d.cols| - 1)
    ensures StopsOnlyAtRow(Stats(d, timeout))
  {
    StatsConfigured(d, timeout);
  }

  /** printStats on a table whose `Configuration` column is the last one
      and holds every configuration listed stops only at a row. */
  lemma StatsConfigured(d: Data, timeout: int)
    requires WellFormed(d) && IndexOf(d.header, "Configuration") == Some(|d.cols| - 1)
    requires forall y :: y in d.configurations ==> y in ConfigCol(d)
    ensures StopsOnlyAtRow(Stats(d, timeout))
  {
    var cr := Columns3(d, "Time", "Status", "Configuration");
    if cr.Ok? {
      var cs := cr.value;
      ColumnHeight(d, "Time");
      ColumnHeight(d, "Status");
      ColumnHeight(d, "Configuration");
      assert cs.2 == ConfigCol(d);
      assert forall j :: 0 <= j < |d.configurations| ==> d.configurations[j] in cs.2;
      AllStatsRowErrors(d.configurations, Parsed(cs.0), cs.1, cs.2, timeout);
    }
  }

  /** Once a row has stopped the loop, later rows change nothing. */
  lemma {:induction false} TallyStops(config: string, times: seq<Option<real>>, statuses: seq<string>, configs: seq<string>, timeout: int, n0: nat, n: nat)
    requires Aligned(times, statuses, configs) && n0 <= n <= |statuses|
    requires Tally(config, times, statuses, configs, timeout, n0).Err?
    ensures Tally(config, times, statuses, configs, timeout, n) == Tally(config, times, statuses, configs, timeout, n0)
  {
    if n > n0 {
      TallyStops(config, times, statuses, configs, timeout, n0, n - 1);
    }
  }

  /** Once a configuration has stopped the program, later ones change nothing. */
  lemma {:induction false} AllStatsStops(configurations: seq<string>, times: seq<Option<real>>, statuses: seq<string>, configs: seq<string>, timeout: int, j: nat)
    requires Aligned(times, statuses, configs) && j <= |configurations|
    requires AllStats(configurations[..j], times, statuses, configs, timeout).Err?
    ensures AllStats(configurations, times, statuses, configs, timeout) == AllStats(configurations[..j], times, statuses, configs, timeout)
  {
    if j < |configurations| {
      var m := |configurations| - 1;
      assert configurations[..m][..j] == configurations[..j];
      AllStatsStops(configurations[..m], times, statuses, configs, timeout, j);
    } else {
      assert configurations[..j] == configurations;
    }
  }

  /** One more row. */
  lemma TallyNext(config: string, times: seq<Option<real>>, statuses: seq<string>, configs: seq<string>, timeout: int, i: nat, c: Counts)
    requires Aligned(times, statuses, configs) && i < |statuses|
    requires Tally(config, times, statuses, configs, timeout, i) == Ok(c)
    ensures configs[i] != config ==> Tally(config, times, statuses, configs, timeout, i + 1) == Ok(c)
    ensures configs[i] == config && statuses[i] !in c.stats ==>
              Tally(config, times, statuses, configs, timeout, i + 1) == Err(InvalidStatus(i + 2, statuses[i]))
    ensures configs[i] == config && statuses[i] == "ok" && times[i].None? ==>
              Tally(config, times, statuses, configs, timeout, i + 1) == Err(BadFloat(i + 2))
    ensures configs[i] == config && statuses[i] in c.stats && statuses[i] == "ok" && times[i].Some? ==>
              Tally(config, times, statuses, configs, timeout, i + 1)
              == Ok(Counts(c.total + 1, c.stats[statuses[i] := c.stats[statuses[i]] + 1], c.par10 + times[i].value))
    ensures configs[i] == config && statuses[i] in c.stats && statuses[i] != "ok" ==>
              Tally(config, times, statuses, configs, timeout, i + 1)
              == Ok(Counts(c.total + 1, c.stats[statuses[i] := c.stats[statuses[i]] + 1], c.par10 + (timeout * PENALTY) as real))
  {
  }

  /** One more configuration. */
  lemma AllStatsNext(configurations: seq<string>, times: seq<Option<real>>, statuses: seq<string>, configs: seq<string>, timeout: int,
                     j: nat, cs: seq<Counts>)
    requires Aligned(times, statuses, configs) && j < |configurations|
    requires AllStats(configurations[..j], times, statuses, configs, timeout) == Ok(cs)
    ensures var t := Tally(configurations[j], times, statuses, configs, timeout, |statuses|);
            AllStats(configurations[..j + 1], times, statuses, configs, timeout)
            == if t.Err? then Err(t.error)
               else if t.value.total == 0 then Err(NoRuns(configurations[j]))
               else Ok(cs + [t.value])
  {
    assert configurations[..j + 1][..j] == configurations[..j];
  }

  /** The inner loop of printStats for one configuration, over the Time
      column parsed as `float` would parse each entry where it is used. */
  method TallyRows(config: string, times: seq<Option<real>>, statuscol: seq<string>, configcol: seq<string>, timeout: int)
    returns (r: Result<Counts, PlotError>)
    requires |times| == |statuscol| == |configcol|
    ensures r == Tally(config, times, statuscol, configcol, timeout, |statuscol|)
  {
    var c := Counts(0, ZeroStats(), 0.0);
    for i := 0 to |statuscol|
      invariant Tally(config, times, statuscol, configcol, timeout, i) == Ok(c)
    {
      var next := CountRow(config, times, statuscol, configcol, timeout, i, c);
      if next.Err? {
        TallyStops(config, times, statuscol, configcol, timeout, i + 1, |statuscol|);
        return next;
      }
      c := next.value;
    }
    return Ok(c);
  }

  /** One pass of the inner loop of printStats: row `i` updates the
      counters when it belongs to the configuration. */
  method CountRow(config: string, times: seq<Option<real>>, statuscol: seq<string>, configcol: seq<string>, timeout: int,
                  i: nat, c: Counts) returns (r: Result<Counts, PlotError>)
    requires |times| == |statuscol| == |configcol| && i < |statuscol|
    requires Tally(config, times, statuscol, configcol, timeout, i) == Ok(c)
    ensures r == Tally(config, times, statuscol, configcol, timeout, i + 1)
  {
    TallyNext(config, times, statuscol, configcol, timeout, i, c);
    var total, stats, par10 := c.total, c.stats, c.par10;
    var status := statuscol[i];
    if configcol[i] == config {
      if status !in stats {
        return Err(InvalidStatus(i + 2, status));
      }
      stats := stats[status := stats[status] + 1];
      total := total + 1;
      if status == "ok" {
        var t := times[i];
        if t.None? {
          return Err(BadFloat(i + 2));
        }
        par10 := par10 + t.value;
      } else {
        par10 := par10 + (timeout * PENALTY) as real;
      }
    }
    return Ok(Counts(total, stats, par10));
  }

  /** printStats: the counters and the PAR10 sum are reset for every
      configuration and updated row by row. */
  method PrintStats(d: Data, timeout: int) returns (r: Result<seq<Counts>, PlotError>)
    requires WellFormed(d)
    ensures r == Stats(d, timeout)
  {
    var cr := Columns3(d, "Time", "Status", "Configuration");
    if cr.Err? {
      return Err(cr.error);
    }
    ColumnHeight(d, "Time");
    ColumnHeight(d, "Status");
    ColumnHeight(d, "Configuration");
    var (timecol, statuscol, configcol) := cr.value;
    var times := Parsed(timecol);
    var result: seq<Counts> := [];
    var j := 0;
    while j < |d.configurations|
      invariant 0 <= j <= |d.configurations|
      invariant AllStats(d.configurations[..j], times, statuscol, configcol, timeout) == Ok(result)
    {
      var config := d.configurations[j];
      AllStatsNext(d.configurations, times, statuscol, configcol, timeout, j, result);
      var c := TallyRows(config, times, statuscol, configcol, timeout);
      if c.Err? {
        AllStatsStops(d.configurations, times, statuscol, configcol, timeout, j + 1);
        return Err(c.error);
      }
      if c.value.total == 0 {
        AllStatsStops(d.configurations, times, statuscol, configcol, timeout, j + 1);
        return Err(NoRuns(config));
      }
      result := result + [c.value];
      j := j + 1;
    }
    assert d.configurations[..j] == d.configurations;
    return Ok(result);
  }
}
