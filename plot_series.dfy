/** plotresults.py, the series handed to the plots and the family report:
    the sorted runtimes of every (class, configuration) pair for the cactus
    plot, the solved counts per family, and the two name-ordered runtime
    series of the scatter plot.  Runtimes are the parsed Time column; a run
    that was not solved counts as the timeout. */
module PlotSeries {
  import opened Wrappers
  import opened Text
  import opened Sorting
  import opened PlotData
  import opened PlotStats

  /** The floor the scatter plot puts under a solved run's time. */
  const MIN_TIME: real := 0.00001

  /** Row `i` belongs to class `cls` and configuration `config`. */
  predicate IsMatch(classes: seq<string>, configs: seq<string>, cls: string, config: string, i: nat)
    requires i < |classes| == |configs|
  {
    classes[i] == cls && configs[i] == config
  }

  /** A solved run whose time `float` rejects. */
  predicate Unparsed(times: seq<Option<real>>, statuses: seq<string>, i: nat)
    requires i < |times| == |statuses|
  {
    statuses[i] == "ok" && times[i].None?
  }

  /** The rows of `cls` and `config` among the first `n`, in row order. */
  function Matches(classes: seq<string>, configs: seq<string>, cls: string, config: string, n: nat): (r: seq<nat>)
    requires n <= |classes| == |configs|
    ensures forall j :: 0 <= j < |r| ==> r[j] < n && IsMatch(classes, configs, cls, config, r[j])
    ensures forall j, k :: 0 <= j < k < |r| ==> r[j] < r[k]
    ensures forall i :: 0 <= i < n && IsMatch(classes, configs, cls, config, i) ==> i in r
  {
    if n == 0 then []
    else
      var r := Matches(classes, configs, cls, config, n - 1);
      if IsMatch(classes, configs, cls, config, n - 1) then r + [n - 1] else r
  }

  /** The time of a row in the cactus plot: its parsed time when solved,
      the timeout otherwise. */
  function RowTime(times: seq<Option<real>>, statuses: seq<string>, timeout: int, i: nat): real
    requires i < |times| == |statuses|
  {
    if statuses[i] == "ok" then TimeOf(times[i]) else timeout as real
  }

  /** The times of the given rows, in their order. */
  function RowTimes(times: seq<Option<real>>, statuses: seq<string>, timeout: int, rows: seq<nat>): (r: seq<real>)
    requires |times| == |statuses| && forall j :: 0 <= j < |rows| ==> rows[j] < |times|
    ensures |r| == |rows| && forall j :: 0 <= j < |rows| ==> r[j] == RowTime(times, statuses, timeout, rows[j])
  {
    seq(|rows|, j requires 0 <= j < |rows| => RowTime(times, statuses, timeout, rows[j]))
  }

  /** The list comprehension of cactusPlot over the first `n` rows, before
      the sort; `float` is applied to the solved rows of the pair only. */
  function RawCactus(times: seq<Option<real>>, statuses: seq<string>, classes: seq<string>, configs: seq<string>,
                     cls: string, config: string, timeout: int, n: nat): Result<seq<real>, PlotError>
    requires Aligned(times, statuses, configs) && |classes| == |configs| && n <= |statuses|
  {
    if n == 0 then Ok([])
    else
      match RawCactus(times, statuses, classes, configs, cls, config, timeout, n - 1)
      case Err(e) => Err(e)
      case Ok(col) =>
        var i := n - 1;
        if !IsMatch(classes, configs, cls, config, i) then Ok(col)
        else if Unparsed(times, statuses, i) then Err(BadFloat(i + 2))
        else Ok(col + [RowTime(times, statuses, timeout, i)])
  }

  /** The comprehension has one entry per row of the pair, in row order:
      the row's time when solved and the timeout otherwise. */
  lemma {:induction false} RawCactusRows(times: seq<Option<real>>, statuses: seq<string>, classes: seq<string>, configs: seq<string>,
                                         cls: string, config: string, timeout: int, n: nat)
    requires Aligned(times, statuses, configs) && |classes| == |configs| && n <= |statuses|
    requires RawCactus(times, statuses, classes, configs, cls, config, timeout, n).Ok?
    ensures var col := RawCactus(times, statuses, classes, configs, cls, config, timeout, n).value;
            var m := Matches(classes, configs, cls, config, n);
            |col| == |m| && forall j :: 0 <= j < |m| ==> col[j] == RowTime(times, statuses, timeout, m[j])
  {
    if n > 0 {
      RawCactusRows(times, statuses, classes, configs, cls, config, timeout, n - 1);
    }
  }

  /** The comprehension fails exactly when a solved row of the pair has a
      time that is not a number, and then at the first such row. */
  lemma {:induction false} RawCactusFails(times: seq<Option<real>>, statuses: seq<string>, classes: seq<string>, configs: seq<string>,
                                          cls: string, config: string, timeout: int, n: nat)
    requires Aligned(times, statuses, configs) && |classes| == |configs| && n <= |statuses|
    ensures var r := RawCactus(times, statuses, classes, configs, cls, config, timeout, n);
            r.Err? <==> exists i :: 0 <= i < n && IsMatch(classes, configs, cls, config, i) && Unparsed(times, statuses, i)
    ensures var r := RawCactus(times, statuses, classes, configs, cls, config, timeout, n);
            r.Err? ==> exists i :: && 0 <= i < n && IsMatch(classes, configs, cls, config, i) && Unparsed(times, statuses, i)
                                  && r.error == BadFloat(i + 2)
                                  && forall k :: 0 <= k < i && IsMatch(classes, configs, cls, config, k) ==> !Unparsed(times, statuses, k)
  {
    if n > 0 {
      RawCactusFails(times, statuses, classes, configs, cls, config, timeout, n - 1);
    }
  }

  predicate RealLe(a: real, b: real)
  {
    a <= b
  }

  lemma RealLeTotal()
    ensures Total(RealLe)
  {
  }

  /** `col.sort()` after the comprehension. */
  function CactusSeries(times: seq<Option<real>>, statuses: seq<string>, classes: seq<string>, configs: seq<string>,
                        cls: string, config: string, timeout: int): Result<seq<real>, PlotError>
    requires Aligned(times, statuses, configs) && |classes| == |configs|
  {
    match RawCactus(times, statuses, classes, configs, cls, config, timeout, |statuses|)
    case Err(e) => Err(e)
    case Ok(col) =>
      RealLeTotal();
      Ok(SortBy(col, RealLe))
  }

  /** Numbers ordered pair by pair are ordered throughout. */
  lemma {:induction false} AscendingThroughout(s: seq<real>, j: nat, k: nat)
    requires SortedBy(s, RealLe) && j <= k < |s|
    ensures s[j] <= s[k]
  {
    if j < k {
      AscendingThroughout(s, j, k - 1);
    }
  }

  /** The cactus series of a pair is ascending, has one entry per row of the
      pair, and is a permutation of those rows' times, each solved row
      contributing its time and every other row the timeout. */
  lemma CactusSeriesSorted(times: seq<Option<real>>, statuses: seq<string>, classes: seq<string>, configs: seq<string>,
                           cls: string, config: string, timeout: int)
    requires Aligned(times, statuses, configs) && |classes| == |configs|
    requires CactusSeries(times, statuses, classes, configs, cls, config, timeout).Ok?
    ensures var s := CactusSeries(times, statuses, classes, configs, cls, config, timeout).value;
            var m := Matches(classes, configs, cls, config, |statuses|);
            && (forall j, k :: 0 <= j <= k < |s| ==> s[j] <= s[k])
            && |s| == |m|
            && multiset(s) == multiset(RowTimes(times, statuses, timeout, m))
  {
    var s := CactusSeries(times, statuses, classes, configs, cls, config, timeout).value;
    var m := Matches(classes, configs, cls, config, |statuses|);
    var col := RawCactus(times, statuses, classes, configs, cls, config, timeout, |statuses|).value;
    RawCactusRows(times, statuses, classes, configs, cls, config, timeout, |statuses|);
    assert col == RowTimes(times, statuses, timeout, m);
    forall j, k | 0 <= j <= k < |s| ensures s[j] <= s[k] {
      AscendingThroughout(s, j, k);
    }
  }

  /** The legend label of a pair: the configuration alone for the class
      `_ALL_`. */
  function Label(cls: string, config: string): (r: string)
    ensures cls == "_ALL_" ==> r == config
    ensures cls != "_ALL_" ==> r == cls + "-" + config
  {
    if cls != "_ALL_" then cls + "-" + config else config
  }

  /** One line of the cactus plot. */
  datatype Curve = Curve(legend: string, series: seq<real>)

  /** The inner loop of cactusPlot: a curve per configuration, the first
      failing configuration stopping the plot. */
  function ClassCurves(times: seq<Option<real>>, statuses: seq<string>, classes: seq<string>, configs: seq<string>,
                       cls: string, configurations: seq<string>, timeout: int): (r: Result<seq<Curve>, PlotError>)
    requires Aligned(times, statuses, configs) && |classes| == |configs|
    ensures r.Ok? ==> |r.value| == |configurations|
  {
    if configurations == [] then Ok([])
    else
      var m := |configurations| - 1;
      match ClassCurves(times, statuses, classes, configs, cls, configurations[..m], timeout)
      case Err(e) => Err(e)
      case Ok(curves) =>
        match CactusSeries(times, statuses, classes, configs, cls, configurations[m], timeout)
        case Err(e) => Err(e)
        case Ok(s) => Ok(curves + [Curve(Label(cls, configurations[m]), s)])
  }

  /** Curve `j` of a class is labelled with configuration `j` and plots
      that pair's sorted series. */
  lemma {:induction false} ClassCurvesEntries(times: seq<Option<real>>, statuses: seq<string>, classes: seq<string>, configs: seq<string>,
                                              cls: string, configurations: seq<string>, timeout: int)
    requires Aligned(times, statuses, configs) && |classes| == |configs|
    requires ClassCurves(times, statuses, classes, configs, cls, configurations, timeout).Ok?
    ensures var r := ClassCurves(times, statuses, classes, configs, cls, configurations, timeout).value;
            forall j :: 0 <= j < |configurations| ==>
              && r[j].legend == Label(cls, configurations[j])
              && CactusSeries(times, statuses, classes, configs, cls, configurations[j], timeout) == Ok(r[j].series)
  {
    if configurations != [] {
      var m := |configurations| - 1;
      var init := configurations[..m];
      var prev := ClassCurves(times, statuses, classes, configs, cls, init, timeout);
      var last := CactusSeries(times, statuses, classes, configs, cls, configurations[m], timeout);
      assert prev.Ok? && last.Ok?;
      var r := ClassCurves(times, statuses, classes, configs, cls, configurations, timeout).value;
      assert r == prev.value + [Curve(Label(cls, configurations[m]), last.value)];
      ClassCurvesEntries(times, statuses, classes, configs, cls, init, timeout);
      forall j | 0 <= j < |configurations|
        ensures r[j].legend == Label(cls, configurations[j])
        ensures CactusSeries(times, statuses, classes, configs, cls, configurations[j], timeout) == Ok(r[j].series)
      {
        if j < m {
          assert init[j] == configurations[j] && r[j] == prev.value[j];
        } else {
          assert r[j] == Curve(Label(cls, configurations[m]), last.value);
        }
      }
    }
  }

  /** The outer loop of cactusPlot, over the classes. */
  function AllCurves(times: seq<Option<real>>, statuses: seq<string>, classes: seq<string>, configs: seq<string>,
                     classList: seq<string>, configurations: seq<string>, timeout: int): (r: Result<seq<seq<Curve>>, PlotError>)
    requires Aligned(times, statuses, configs) && |classes| == |configs|
    ensures r.Ok? ==> |r.value| == |classList|
    ensures r.Ok? ==> forall k :: 0 <= k < |classList| ==>
                        ClassCurves(times, statuses, classes, configs, classList[k], configurations, timeout) == Ok(r.value[k])
  {
    if classList == [] then Ok([])
    else
      var m := |classList| - 1;
      match AllCurves(times, statuses, classes, configs, classList[..m], configurations, timeout)
      case Err(e) => Err(e)
      case Ok(rows) =>
        match ClassCurves(times, statuses, classes, configs, classList[m], configurations, timeout)
        case Err(e) => Err(e)
        case Ok(curves) =>
          assert forall k :: 0 <= k < m ==> classList[..m][k] == classList[k];
          Ok(rows + [curves])
  }

  /** The curves of cactusPlot, grouped by class. */
  function Cactus(d: Data, timeout: int): Result<seq<seq<Curve>>, PlotError>
    requires WellFormed(d)
  {
    match Column(d, "Time")
    case Err(e) => Err(e)
    case Ok(timecol) =>
      match Column(d, "Status")
      case Err(e) => Err(e)
      case Ok(statuscol) =>
        ColumnHeight(d, "Time");
        ColumnHeight(d, "Status");
        AllCurves(Parsed(timecol), statuscol, ClassCol(d), ConfigCol(d), d.classes, d.configurations, timeout)
  }

  /** Curve `j` of class `k` is labelled with the pair and plots the sorted
      series of that pair. */
  lemma CactusCurve(d: Data, timeout: int, k: nat, j: nat)
    requires WellFormed(d) && Cactus(d, timeout).Ok?
    requires k < |d.classes| && j < |d.configurations|
    ensures var c := Cactus(d, timeout).value;
            && |c| == |d.classes| && |c[k]| == |d.configurations|
            && c[k][j].legend == Label(d.classes[k], d.configurations[j])
            && CactusSeries(Parsed(Column(d, "Time").value), Column(d, "Status").value, ClassCol(d), ConfigCol(d),
                            d.classes[k], d.configurations[j], timeout) == Ok(c[k][j].series)
  {
    ColumnHeight(d, "Time");
    ColumnHeight(d, "Status");
    var times := Parsed(Column(d, "Time").value);
    var statuses := Column(d, "Status").value;
    ClassCurvesEntries(times, statuses, ClassCol(d), ConfigCol(d), d.classes[k], d.configurations, timeout);
  }

  /** The number of solved runs of the pair among the first `n` rows. */
  function SolvedCount(classes: seq<string>, configs: seq<string>, statuses: seq<string>, cls: string, config: string, n: nat): nat
    requires n <= |classes| == |configs| == |statuses|
  {
    if n == 0 then 0
    else SolvedCount(classes, configs, statuses, cls, config, n - 1)
         + (if IsMatch(classes, configs, cls, config, n - 1) && statuses[n - 1] == "ok" then 1 else 0)
  }

  /** A pair never solves more runs than it has. */
  lemma {:induction false} SolvedAtMostRuns(classes: seq<string>, configs: seq<string>, statuses: seq<string>, cls: string, config: string, n: nat)
    requires n <= |classes| == |configs| == |statuses|
    ensures SolvedCount(classes, configs, statuses, cls, config, n) <= |Matches(classes, configs, cls, config, n)|
  {
    if n > 0 {
      SolvedAtMostRuns(classes, configs, statuses, cls, config, n - 1);
    }
  }

  /** The solved runs of the pair are exactly the rows of the pair whose
      status is `ok`: none means none is. */
  lemma {:induction false} SolvedCountZero(classes: seq<string>, configs: seq<string>, statuses: seq<string>, cls: string, config: string, n: nat)
    requires n <= |classes| == |configs| == |statuses|
    ensures SolvedCount(classes, configs, statuses, cls, config, n) == 0
        <==> forall i :: 0 <= i < n && IsMatch(classes, configs, cls, config, i) ==> statuses[i] != "ok"
  {
    if n > 0 {
      SolvedCountZero(classes, configs, statuses, cls, config, n - 1);
    }
  }

  /** `solved`: one count per configuration. */
  function Solved(classes: seq<string>, configs: seq<string>, statuses: seq<string>, cls: string, configurations: seq<string>): (r: seq<nat>)
    requires |classes| == |configs| == |statuses|
    ensures |r| == |configurations|
  {
    seq(|configurations|, j requires 0 <= j < |configurations| => SolvedCount(classes, configs, statuses, cls, configurations[j], |statuses|))
  }

  function Sum(s: seq<nat>): nat
  {
    if s == [] then 0 else Sum(s[..|s| - 1]) + s[|s| - 1]
  }

  /** Some configuration solved a run of the family. */
  predicate AnySolved(s: seq<nat>)
  {
    exists j :: 0 <= j < |s| && s[j] > 0
  }

  /** The mean of the counts is zero exactly when no count is positive. */
  lemma {:induction false} SumZero(s: seq<nat>)
    ensures Sum(s) == 0 <==> !AnySolved(s)
  {
    if s != [] {
      var init := s[..|s| - 1];
      SumZero(init);
      assert forall j :: 0 <= j < |init| ==> init[j] == s[j];
      if AnySolved(init) {
        var j :| 0 <= j < |init| && init[j] > 0;
        assert s[j] > 0;
      }
    }
  }

  /** A row of the family report, before the spread columns. */
  datatype Family = Family(cls: string, solved: seq<nat>)

  /** The loop of analyzeFamilies: the families in class order, each with
      its solved counts, those with mean zero left out. */
  function FamilyList(classes: seq<string>, configs: seq<string>, statuses: seq<string>, classList: seq<string>, configurations: seq<string>)
    : (r: seq<Family>)
    requires |classes| == |configs| == |statuses|
    ensures |r| <= |classList|
    ensures forall f :: f in r ==> f.cls in classList && f.solved == Solved(classes, configs, statuses, f.cls, configurations) && AnySolved(f.solved)
  {
    if classList == [] then []
    else
      var m := |classList| - 1;
      var rest := FamilyList(classes, configs, statuses, classList[..m], configurations);
      var solved := Solved(classes, configs, statuses, classList[m], configurations);
      if AnySolved(solved) then rest + [Family(classList[m], solved)] else rest
  }

  /** A family is listed exactly when some configuration solved one of its
      runs. */
  lemma {:induction false} FamilyListed(classes: seq<string>, configs: seq<string>, statuses: seq<string>, classList: seq<string>,
                                        configurations: seq<string>, cls: string)
    requires |classes| == |configs| == |statuses| && cls in classList
    ensures (exists f :: f in FamilyList(classes, configs, statuses, classList, configurations) && f.cls == cls)
        <==> AnySolved(Solved(classes, configs, statuses, cls, configurations))
  {
    var m := |classList| - 1;
    var r := FamilyList(classes, configs, statuses, classList, configurations);
    var rest := FamilyList(classes, configs, statuses, classList[..m], configurations);
    var solved := Solved(classes, configs, statuses, cls, configurations);
    if cls in classList[..m] {
      FamilyListed(classes, configs, statuses, classList[..m], configurations, cls);
      if AnySolved(solved) {
        var f :| f in rest && f.cls == cls;
        assert f in r;
      }
    } else {
      assert classList[m] == cls;
      if AnySolved(solved) {
        assert Family(cls, solved) in r;
      }
    }
  }

  /** The class column of the report. */
  function ClassNames(fs: seq<Family>): (r: seq<string>)
    ensures |r| == |fs| && forall j :: 0 <= j < |fs| ==> r[j] == fs[j].cls
  {
    seq(|fs|, j requires 0 <= j < |fs| => fs[j].cls)
  }

  /** The families are listed in the order of the class list. */
  lemma {:induction false} FamilyListOrder(classes: seq<string>, configs: seq<string>, statuses: seq<string>, classList: seq<string>,
                                           configurations: seq<string>)
    requires |classes| == |configs| == |statuses|
    ensures IsSubsequence(ClassNames(FamilyList(classes, configs, statuses, classList, configurations)), classList)
  {
    var r := FamilyList(classes, configs, statuses, classList, configurations);
    var names := ClassNames(r);
    if classList != [] {
      var m := |classList| - 1;
      var rest := FamilyList(classes, configs, statuses, classList[..m], configurations);
      var restNames := ClassNames(rest);
      FamilyListOrder(classes, configs, statuses, classList[..m], configurations);
      assert classList == classList[..m] + [classList[m]];
      if r == rest {
        assert names == restNames;
        SubsequenceSnoc(restNames, classList[..m], classList[m]);
      } else {
        assert names == restNames + [classList[m]];
        SubsequenceSnocBoth(restNames, classList[..m], classList[m]);
      }
    }
  }

  /** analyzeFamilies up to the spread computation: `mean` of the counts
      of a class raises when there is no configuration. */
  function Families(d: Data): (r: Result<seq<Family>, PlotError>)
    requires WellFormed(d)
    ensures r == Err(NoConfigurations)
        <==> Column(d, "Time").Ok? && Column(d, "Status").Ok? && d.classes != [] && d.configurations == []
    ensures r.Ok? ==> && Column(d, "Status").Ok? && |Column(d, "Status").value| == Height(d)
                      && r.value == FamilyList(ClassCol(d), ConfigCol(d), Column(d, "Status").value, d.classes, d.configurations)
  {
    match Column(d, "Time")
    case Err(e) => Err(e)
    case Ok(_) =>
      match Column(d, "Status")
      case Err(e) => Err(e)
      case Ok(statuscol) =>
        ColumnHeight(d, "Status");
        if d.classes != [] && d.configurations == [] then Err(NoConfigurations)
        else Ok(FamilyList(ClassCol(d), ConfigCol(d), statuscol, d.classes, d.configurations))
  }

  /** The rows of configuration `config` among the first `n`, in row order. */
  function ConfigRows(configs: seq<string>, config: string, n: nat): (r: seq<nat>)
    requires n <= |configs|
    ensures forall j :: 0 <= j < |r| ==> r[j] < n && configs[r[j]] == config
    ensures forall j, k :: 0 <= j < k < |r| ==> r[j] < r[k]
    ensures forall i :: 0 <= i < n && configs[i] == config ==> i in r
  {
    if n == 0 then []
    else
      var r := ConfigRows(configs, config, n - 1);
      if configs[n - 1] == config then r + [n - 1] else r
  }

  /** A configuration has as many rows as printStats counts for it. */
  lemma {:induction false} ConfigRowsCount(configs: seq<string>, config: string, n: nat)
    requires n <= |configs|
    ensures |ConfigRows(configs, config, n)| == RunCount(config, configs, n)
  {
    if n > 0 {
      ConfigRowsCount(configs, config, n - 1);
    }
  }

  /** Python's `max(a, b)` on numbers. */
  function Max(a: real, b: real): real
  {
    if b > a then b else a
  }

  /** The time of a row in the scatter plot: a solved run's time, but at
      least `MIN_TIME`, and the timeout for any other run. */
  function ScatterTime(times: seq<Option<real>>, statuses: seq<string>, timeout: int, i: nat): real
    requires i < |times| == |statuses|
  {
    if statuses[i] == "ok" then Max(TimeOf(times[i]), MIN_TIME) else timeout as real
  }

  /** A point of the scatter plot before it is ordered: instance name and time. */
  type Point = (string, real)

  /** The points of the given rows, in their order. */
  function RowPoints(times: seq<Option<real>>, statuses: seq<string>, names: seq<string>, timeout: int, rows: seq<nat>): (r: seq<Point>)
    requires |times| == |statuses| == |names| && forall j :: 0 <= j < |rows| ==> rows[j] < |times|
    ensures |r| == |rows| && forall j :: 0 <= j < |rows| ==> r[j] == (names[rows[j]], ScatterTime(times, statuses, timeout, rows[j]))
  {
    seq(|rows|, j requires 0 <= j < |rows| => (names[rows[j]], ScatterTime(times, statuses, timeout, rows[j])))
  }

  /** The list comprehension of scatterPlot for one configuration over the
      first `n` rows. */
  function RawPoints(times: seq<Option<real>>, statuses: seq<string>, names: seq<string>, configs: seq<string>,
                     config: string, timeout: int, n: nat): (r: Result<seq<Point>, PlotError>)
    requires Aligned(times, statuses, configs) && |names| == |configs| && n <= |statuses|
    ensures r.Err? ==> r.error.BadFloat?
  {
    if n == 0 then Ok([])
    else
      match RawPoints(times, statuses, names, configs, config, timeout, n - 1)
      case Err(e) => Err(e)
      case Ok(ps) =>
        var i := n - 1;
        if configs[i] != config then Ok(ps)
        else if Unparsed(times, statuses, i) then Err(BadFloat(i + 2))
        else Ok(ps + [(names[i], ScatterTime(times, statuses, timeout, i))])
  }

  /** One point per row of the configuration, in row order, named after the
      row's instance. */
  lemma {:induction false} RawPointsRows(times: seq<Option<real>>, statuses: seq<string>, names: seq<string>, configs: seq<string>,
                                         config: string, timeout: int, n: nat)
    requires Aligned(times, statuses, configs) && |names| == |configs| && n <= |statuses|
    requires RawPoints(times, statuses, names, configs, config, timeout, n).Ok?
    ensures var ps := RawPoints(times, statuses, names, configs, config, timeout, n).value;
            var m := ConfigRows(configs, config, n);
            |ps| == |m| && forall j :: 0 <= j < |m| ==> ps[j] == (names[m[j]], ScatterTime(times, statuses, timeout, m[j]))
  {
    if n > 0 {
      RawPointsRows(times, statuses, names, configs, config, timeout, n - 1);
    }
  }

  /** The comprehension fails exactly when a solved row of the
      configuration has a time that is not a number. */
  lemma {:induction false} RawPointsFail(times: seq<Option<real>>, statuses: seq<string>, names: seq<string>, configs: seq<string>,
                                         config: string, timeout: int, n: nat)
    requires Aligned(times, statuses, configs) && |names| == |configs| && n <= |statuses|
    ensures RawPoints(times, statuses, names, configs, config, timeout, n).Err?
        <==> exists i :: 0 <= i < n && configs[i] == config && Unparsed(times, statuses, i)
  {
    if n > 0 {
      RawPointsFail(times, statuses, names, configs, config, timeout, n - 1);
    }
  }

  /** `key=itemgetter(0)`: points compared by instance name. */
  predicate NameLe(p: Point, q: Point)
  {
    StrLe(p.0, q.0)
  }

  lemma NameLeTotal()
    ensures Total(NameLe)
  {
    forall p: Point, q: Point ensures NameLe(p, q) || NameLe(q, p) {
      StrLeTotal(p.0, q.0);
    }
  }

  /** `data[j].sort(key=itemgetter(0))` */
  function ScatterPoints(times: seq<Option<real>>, statuses: seq<string>, names: seq<string>, configs: seq<string>,
                         config: string, timeout: int): (r: Result<seq<Point>, PlotError>)
    requires Aligned(times, statuses, configs) && |names| == |configs|
    ensures r.Err? ==> r.error.BadFloat?
  {
    match RawPoints(times, statuses, names, configs, config, timeout, |statuses|)
    case Err(e) => Err(e)
    case Ok(ps) =>
      NameLeTotal();
      Ok(SortBy(ps, NameLe))
  }

  /** The ordered points of a configuration: one per row of it, ordered by
      instance name, and a permutation of the rows' points. */
  lemma ScatterPointsSorted(times: seq<Option<real>>, statuses: seq<string>, names: seq<string>, configs: seq<string>,
                            config: string, timeout: int)
    requires Aligned(times, statuses, configs) && |names| == |configs|
    requires ScatterPoints(times, statuses, names, configs, config, timeout).Ok?
    ensures var ps := ScatterPoints(times, statuses, names, configs, config, timeout).value;
            var m := ConfigRows(configs, config, |statuses|);
            && |ps| == |m| == RunCount(config, configs, |statuses|)
            && (forall j :: 0 < j < |ps| ==> StrLe(ps[j - 1].0, ps[j].0))
            && multiset(ps) == multiset(RowPoints(times, statuses, names, timeout, m))
  {
    var m := ConfigRows(configs, config, |statuses|);
    var raw := RawPoints(times, statuses, names, configs, config, timeout, |statuses|).value;
    RawPointsRows(times, statuses, names, configs, config, timeout, |statuses|);
    ConfigRowsCount(configs, config, |statuses|);
    assert raw == RowPoints(times, statuses, names, timeout, m);
  }

  /** `[x[1] for x in data[j]]` */
  function Values(ps: seq<Point>): (r: seq<real>)
    ensures |r| == |ps| && forall j :: 0 <= j < |ps| ==> r[j] == ps[j].1
  {
    seq(|ps|, j requires 0 <= j < |ps| => ps[j].1)
  }

  /** Every value plotted is a solved run's time, at least `MIN_TIME`, or
      the timeout. */
  lemma ScatterValuesBounded(times: seq<Option<real>>, statuses: seq<string>, names: seq<string>, configs: seq<string>,
                             config: string, timeout: int)
    requires Aligned(times, statuses, configs) && |names| == |configs|
    requires ScatterPoints(times, statuses, names, configs, config, timeout).Ok?
    ensures var v := Values(ScatterPoints(times, statuses, names, configs, config, timeout).value);
            forall j :: 0 <= j < |v| ==> v[j] >= MIN_TIME || v[j] == timeout as real
  {
    var ps := ScatterPoints(times, statuses, names, configs, config, timeout).value;
    var m := ConfigRows(configs, config, |statuses|);
    var raw := RowPoints(times, statuses, names, timeout, m);
    ScatterPointsSorted(times, statuses, names, configs, config, timeout);
    forall k | 0 <= k < |raw| ensures InScale(raw[k], timeout) {}
    PermutationInScale(ps, raw, timeout);
  }

  /** A plotted point's value is at least `MIN_TIME` or the timeout. */
  predicate InScale(p: Point, timeout: int)
  {
    p.1 >= MIN_TIME || p.1 == timeout as real
  }

  /** A permutation of points in scale holds only points in scale. */
  lemma PermutationInScale(ps: seq<Point>, raw: seq<Point>, timeout: int)
    requires multiset(ps) == multiset(raw)
    requires forall k :: 0 <= k < |raw| ==> InScale(raw[k], timeout)
    ensures forall j :: 0 <= j < |ps| ==> InScale(ps[j], timeout)
  {
    forall j | 0 <= j < |ps| ensures InScale(ps[j], timeout) {
      assert ps[j] in multiset(raw);
      var k :| 0 <= k < |raw| && raw[k] == ps[j];
    }
  }

  /** The two series of scatterPlot; the assertion on the number of
      configurations is checked before any column is looked up. */
  function Scatter(d: Data, timeout: int): (r: Result<(seq<real>, seq<real>), PlotError>)
    requires WellFormed(d)
    ensures r == Err(ConfigurationCount(|d.configurations|)) <==> |d.configurations| != 2
  {
    if |d.configurations| != 2 then Err(ConfigurationCount(|d.configurations|))
    else
      match Columns3(d, "Time", "Status", "Name")
      case Err(e) =>
        assert e.MissingColumn? || e.ColumnOutOfRange?;
        Err(e)
      case Ok(cs) =>
        ColumnHeight(d, "Time");
        ColumnHeight(d, "Status");
        ColumnHeight(d, "Name");
        var times := Parsed(cs.0);
        match ScatterPoints(times, cs.1, cs.2, ConfigCol(d), d.configurations[0], timeout)
        case Err(e) => Err(e)
        case Ok(xs) =>
          match ScatterPoints(times, cs.1, cs.2, ConfigCol(d), d.configurations[1], timeout)
          case Err(e) => Err(e)
          case Ok(ys) => Ok((Values(xs), Values(ys)))
  }

  /** Series `j` of the scatter plot holds the ordered values of
      configuration `j`. */
  lemma ScatterSeries(d: Data, timeout: int)
    requires WellFormed(d) && Scatter(d, timeout).Ok?
    ensures |d.configurations| == 2
    ensures var cs := Columns3(d, "Time", "Status", "Name").value;
            && |cs.0| == |cs.1| == |cs.2| == Height(d)
            && var times := Parsed(cs.0);
               && Scatter(d, timeout).value.0 == Values(ScatterPoints(times, cs.1, cs.2, ConfigCol(d), d.configurations[0], timeout).value)
               && Scatter(d, timeout).value.1 == Values(ScatterPoints(times, cs.1, cs.2, ConfigCol(d), d.configurations[1], timeout).value)
  {
    ColumnHeight(d, "Time");
    ColumnHeight(d, "Status");
    ColumnHeight(d, "Name");
  }
}
