/** plotresults.py, findOutliers up to the ranking: the time of every run
    of a listed configuration is appended to the list of its instance,
    keyed `name__class`, configuration by configuration; the instances
    whose mean time is positive are the outlier candidates. */
module PlotOutliers {
  import opened Wrappers
  import opened PlotData
  import opened PlotStats

  /** The key of an instance of a class. */
  function Key(name: string, cls: string): string
  {
    name + "__" + cls
  }

  /** A `defaultdict(list)`: the keys in the order they were first
      appended to, and the list of each. */
  datatype Groups = Groups(keys: seq<string>, data: map<string, seq<real>>)

  const EMPTY: Groups := Groups([], map[])

  /** Every key is listed once, and exactly the keys of the map are
      listed. */
  ghost predicate Valid(g: Groups)
  {
    && (forall j, k :: 0 <= j < k < |g.keys| ==> g.keys[j] != g.keys[k])
    && (forall k :: k in g.data <==> k in g.keys)
  }

  /** `instance_data[key].append(t)` */
  function Append(g: Groups, key: string, t: real): (r: Groups)
    requires Valid(g)
    ensures Valid(r)
    ensures r.data.Keys == g.data.Keys + {key}
    ensures r.data[key] == (if key in g.data then g.data[key] else []) + [t]
    ensures forall k :: k in g.data && k != key ==> r.data[k] == g.data[k]
  {
    if key in g.data then Groups(g.keys, g.data[key := g.data[key] + [t]])
    else Groups(g.keys + [key], g.data[key := [t]])
  }

  /** The inner loop over the first `n` rows for one configuration,
      starting from the lists built so far. */
  function GroupRows(g: Groups, config: string, times: seq<Option<real>>, names: seq<string>, classes: seq<string>, configs: seq<string>, n: nat)
    : (r: Result<Groups, PlotError>)
    requires Valid(g) && |times| == |names| == |classes| == |configs| && n <= |configs|
    ensures r.Ok? ==> Valid(r.value)
    ensures r.Err? ==> r.error.BadFloat?
  {
    if n == 0 then Ok(g)
    else
      match GroupRows(g, config, times, names, classes, configs, n - 1)
      case Err(e) => Err(e)
      case Ok(h) =>
        var i := n - 1;
        if configs[i] != config then Ok(h)
        else if times[i].None? then Err(BadFloat(i + 2))
        else Ok(Append(h, Key(names[i], classes[i]), times[i].value))
  }

  /** The outer loop over the configurations. */
  function GroupAll(configurations: seq<string>, times: seq<Option<real>>, names: seq<string>, classes: seq<string>, configs: seq<string>)
    : (r: Result<Groups, PlotError>)
    requires |times| == |names| == |classes| == |configs|
    ensures r.Ok? ==> Valid(r.value)
    ensures r.Err? ==> r.error.BadFloat?
  {
    if configurations == [] then Ok(EMPTY)
    else
      var m := |configurations| - 1;
      match GroupAll(configurations[..m], times, names, classes, configs)
      case Err(e) => Err(e)
      case Ok(g) => GroupRows(g, configurations[m], times, names, classes, configs, |configs|)
  }

  /** The times, in row order, of the runs of `config` among the first `n`
      rows whose instance has key `key`: the reference the lists are
      checked against. */
  function KeyTimes(key: string, config: string, times: seq<Option<real>>, names: seq<string>, classes: seq<string>, configs: seq<string>, n: nat)
    : seq<real>
    requires |times| == |names| == |classes| == |configs| && n <= |configs|
  {
    if n == 0 then []
    else
      var i := n - 1;
      KeyTimes(key, config, times, names, classes, configs, n - 1)
        + (if configs[i] == config && Key(names[i], classes[i]) == key then [TimeOf(times[i])] else [])
  }

  /** The same over the configurations in order. */
  function AllKeyTimes(key: string, configurations: seq<string>, times: seq<Option<real>>, names: seq<string>, classes: seq<string>, configs: seq<string>)
    : seq<real>
    requires |times| == |names| == |classes| == |configs|
  {
    if configurations == [] then []
    else
      var m := |configurations| - 1;
      AllKeyTimes(key, configurations[..m], times, names, classes, configs)
        + KeyTimes(key, configurations[m], times, names, classes, configs, |configs|)
  }

  /** The list of a key after the rows of one configuration: the list
      before, followed by that configuration's times of the key. */
  lemma {:induction false} GroupRowsTimes(g: Groups, config: string, times: seq<Option<real>>, names: seq<string>, classes: seq<string>,
                                          configs: seq<string>, n: nat, key: string)
    requires Valid(g) && |times| == |names| == |classes| == |configs| && n <= |configs|
    requires GroupRows(g, config, times, names, classes, configs, n).Ok?
    ensures var h := GroupRows(g, config, times, names, classes, configs, n).value;
            var ts := KeyTimes(key, config, times, names, classes, configs, n);
            && (key in h.data <==> key in g.data || ts != [])
            && (key in h.data ==> h.data[key] == (if key in g.data then g.data[key] else []) + ts)
  {
    if n > 0 {
      var i := n - 1;
      GroupRowsTimes(g, config, times, names, classes, configs, i, key);
      var h := GroupRows(g, config, times, names, classes, configs, i).value;
      GroupRowsNext(g, config, times, names, classes, configs, i, h);
      if configs[i] == config && Key(names[i], classes[i]) == key {
        var before := if key in g.data then g.data[key] else [];
        var ts := KeyTimes(key, config, times, names, classes, configs, i);
        assert before + ts + [TimeOf(times[i])] == before + (ts + [TimeOf(times[i])]);
      }
    }
  }

  /** Instance `key` has a list exactly when a run of a listed
      configuration has that key, and the list holds the times of those
      runs, configuration by configuration and row by row. */
  lemma {:induction false} GroupAllTimes(configurations: seq<string>, times: seq<Option<real>>, names: seq<string>, classes: seq<string>,
                                         configs: seq<string>, key: string)
    requires |times| == |names| == |classes| == |configs|
    requires GroupAll(configurations, times, names, classes, configs).Ok?
    ensures var g := GroupAll(configurations, times, names, classes, configs).value;
            var ts := AllKeyTimes(key, configurations, times, names, classes, configs);
            && (key in g.data <==> ts != [])
            && (key in g.data ==> g.data[key] == ts)
  {
    if configurations != [] {
      var m := |configurations| - 1;
      GroupAllTimes(configurations[..m], times, names, classes, configs, key);
      var g := GroupAll(configurations[..m], times, names, classes, configs).value;
      GroupRowsTimes(g, configurations[m], times, names, classes, configs, |configs|, key);
    }
  }

  /** The grouping stops exactly at a run of a listed configuration whose
      time is not a number. */
  lemma {:induction false} GroupRowsFails(g: Groups, config: string, times: seq<Option<real>>, names: seq<string>, classes: seq<string>,
                                          configs: seq<string>, n: nat)
    requires Valid(g) && |times| == |names| == |classes| == |configs| && n <= |configs|
    ensures GroupRows(g, config, times, names, classes, configs, n).Err?
        <==> exists i :: 0 <= i < n && configs[i] == config && times[i].None?
  {
    if n > 0 {
      GroupRowsFails(g, config, times, names, classes, configs, n - 1);
    }
  }

  function Sum(s: seq<real>): real
  {
    if s == [] then 0.0 else Sum(s[..|s| - 1]) + s[|s| - 1]
  }

  /** Every key in the order has a list. */
  predicate KeysListed(g: Groups)
  {
    forall k :: k in g.keys ==> k in g.data
  }

  /** The keys, in order, whose list has a positive sum, that is a positive
      mean. */
  function Candidates(g: Groups, n: nat): (r: seq<string>)
    requires KeysListed(g) && n <= |g.keys|
    ensures forall k :: k in r <==> k in g.keys[..n] && Sum(g.data[k]) > 0.0
  {
    if n == 0 then []
    else
      var rest := Candidates(g, n - 1);
      assert g.keys[..n] == g.keys[..n - 1] + [g.keys[n - 1]];
      var k := g.keys[n - 1];
      if Sum(g.data[k]) > 0.0 then rest + [k] else rest
  }

  /** findOutliers over the table: the lists of the instances and the
      instances whose mean is positive. */
  function Outliers(d: Data): Result<(Groups, seq<string>), PlotError>
    requires WellFormed(d)
  {
    match Columns3(d, "Time", "Status", "Name")
    case Err(e) => Err(e)
    case Ok(cs) =>
      ColumnHeight(d, "Time");
      ColumnHeight(d, "Name");
      match GroupAll(d.configurations, Parsed(cs.0), cs.2, ClassCol(d), ConfigCol(d))
      case Err(e) => Err(e)
      case Ok(g) => Ok((g, Candidates(g, |g.keys|)))
  }

  /** A candidate is an instance with a list whose sum is positive, and
      every such instance is a candidate. */
  lemma OutliersCandidates(d: Data, key: string)
    requires WellFormed(d) && Outliers(d).Ok?
    ensures var (g, cands) := Outliers(d).value;
            && Valid(g)
            && (key in cands <==> key in g.data && Sum(g.data[key]) > 0.0)
  {
    var (g, cands) := Outliers(d).value;
    assert g.keys[..|g.keys|] == g.keys;
  }

  /** The rows of one configuration appended in order. */
  lemma GroupRowsNext(g: Groups, config: string, times: seq<Option<real>>, names: seq<string>, classes: seq<string>, configs: seq<string>,
                      i: nat, h: Groups)
    requires Valid(g) && |times| == |names| == |classes| == |configs| && i < |configs|
    requires GroupRows(g, config, times, names, classes, configs, i) == Ok(h)
    ensures configs[i] != config ==> GroupRows(g, config, times, names, classes, configs, i + 1) == Ok(h)
    ensures configs[i] == config && times[i].None? ==> GroupRows(g, config, times, names, classes, configs, i + 1) == Err(BadFloat(i + 2))
    ensures configs[i] == config && times[i].Some? ==>
              GroupRows(g, config, times, names, classes, configs, i + 1) == Ok(Append(h, Key(names[i], classes[i]), times[i].value))
  {
  }

  /** Once a row has stopped the loop, later rows change nothing. */
  lemma {:induction false} GroupRowsStops(g: Groups, config: string, times: seq<Option<real>>, names: seq<string>, classes: seq<string>,
                                          configs: seq<string>, n0: nat, n: nat)
    requires Valid(g) && |times| == |names| == |classes| == |configs| && n0 <= n <= |configs|
    requires GroupRows(g, config, times, names, classes, configs, n0).Err?
    ensures GroupRows(g, config, times, names, classes, configs, n) == GroupRows(g, config, times, names, classes, configs, n0)
  {
    if n > n0 {
      GroupRowsStops(g, config, times, names, classes, configs, n0, n - 1);
    }
  }

  /** Once a configuration has stopped the loop, later ones change nothing. */
  lemma {:induction false} GroupAllStops(configurations: seq<string>, times: seq<Option<real>>, names: seq<string>, classes: seq<string>,
                                         configs: seq<string>, j: nat)
    requires |times| == |names| == |classes| == |configs| && j <= |configurations|
    requires GroupAll(configurations[..j], times, names, classes, configs).Err?
    ensures GroupAll(configurations, times, names, classes, configs) == GroupAll(configurations[..j], times, names, classes, configs)
  {
    if j < |configurations| {
      var m := |configurations| - 1;
      assert configurations[..m][..j] == configurations[..j];
      GroupAllStops(configurations[..m], times, names, classes, configs, j);
    } else {
      assert configurations[..j] == configurations;
    }
  }

  /** The inner loop of findOutliers for one configuration. */
  method GroupConfiguration(g: Groups, config: string, times: seq<Option<real>>, names: seq<string>, classes: seq<string>, configs: seq<string>)
    returns (r: Result<Groups, PlotError>)
    requires Valid(g) && |times| == |names| == |classes| == |configs|
    ensures r == GroupRows(g, config, times, names, classes, configs, |configs|)
  {
    var keys := g.keys;
    var data := g.data;
    var i := 0;
    while i < |names|
      invariant 0 <= i <= |names|
      invariant GroupRows(g, config, times, names, classes, configs, i) == Ok(Groups(keys, data))
    {
      GroupRowsNext(g, config, times, names, classes, configs, i, Groups(keys, data));
      if configs[i] == config {
        var t := times[i];
        if t.None? {
          GroupRowsStops(g, config, times, names, classes, configs, i + 1, |configs|);
          return Err(BadFloat(i + 2));
        }
        var key := names[i] + "__" + classes[i];
        if key in data {
          data := data[key := data[key] + [t.value]];
        } else {
          keys := keys + [key];
          data := data[key := [t.value]];
        }
      }
      i := i + 1;
    }
    return Ok(Groups(keys, data));
  }

  /** The second loop of findOutliers: the instances whose mean time is
      positive, in the order of the dictionary. */
  method PositiveMeans(g: Groups) returns (cands: seq<string>)
    requires KeysListed(g)
    ensures cands == Candidates(g, |g.keys|)
  {
    cands := [];
    for k := 0 to |g.keys|
      invariant cands == Candidates(g, k)
    {
      var instance := g.keys[k];
      if Sum(g.data[instance]) > 0.0 {
        cands := cands + [instance];
      }
    }
  }

  /** findOutliers: the lists built configuration by configuration, then
      the candidates. */
  method FindOutliers(d: Data) returns (r: Result<(Groups, seq<string>), PlotError>)
    requires WellFormed(d)
    ensures r == Outliers(d)
  {
    var cr := Columns3(d, "Time", "Status", "Name");
    if cr.Err? {
      return Err(cr.error);
    }
    ColumnHeight(d, "Time");
    ColumnHeight(d, "Name");
    var (timecol, _, namecol) := cr.value;
    var times := Parsed(timecol);
    var classes, configs := ClassCol(d), ConfigCol(d);
    var g := EMPTY;
    var j := 0;
    while j < |d.configurations|
      invariant 0 <= j <= |d.configurations|
      invariant GroupAll(d.configurations[..j], times, namecol, classes, configs) == Ok(g)
    {
      assert d.configurations[..j + 1][..j] == d.configurations[..j];
      var next := GroupConfiguration(g, d.configurations[j], times, namecol, classes, configs);
      if next.Err? {
        GroupAllStops(d.configurations, times, namecol, classes, configs, j + 1);
        return Err(next.error);
      }
      g := next.value;
      j := j + 1;
    }
    assert d.configurations[..j] == d.configurations;
    var cands := PositiveMeans(g);
    return Ok((g, cands));
  }
}
