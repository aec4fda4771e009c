/**
 * The executive dashboard: the KPI cards in the display currency, the trend
 * series at monthly, quarterly or annual granularity (from static files or,
 * behind the database switch, bucketed from monthly database rows), and the
 * database load that overlays monthly metrics on the static series.
 */
module Executive {
  import opened Common
  import opened Lists
  import opened Grouping
  import opened Currency

  // ---------------------------------------------------------------------------
  // KPI cards
  // ---------------------------------------------------------------------------

  const IntegrationKeys: seq<string> := ["contracted_mrr", "contracted_arr", "contracted_clients"]

  /** The client counts whose targets are blanked. */
  const NoTargetKeys: seq<string> := ["live_clients", "contracted_clients"]

  /**
   * `displayKpis`: on a copy of the KPIs, the money keys and their targets
   * are divided by the rate when the currency is 'USD' and they are present
   * and non-null; then the contracted figures read 'Integration In
   * Progress' and the client targets are null, whatever the currency.
   */
  method DisplayKpis(kpis: Record, currency: string) returns (converted: Record)
    ensures forall k :: k in converted <==> k in kpis || k in IntegrationKeys || k in TargetKeys(NoTargetKeys)
    ensures forall k :: k in IntegrationKeys ==> converted[k] == Text(IntegrationInProgress)
    ensures forall k :: k in TargetKeys(NoTargetKeys) ==> converted[k] == Null
    ensures forall k :: k in kpis && k !in IntegrationKeys && k !in TargetKeys(NoTargetKeys) ==>
                 converted[k] == (if currency == "USD" && k in CurrencyKeys + TargetKeys(CurrencyKeys) && kpis[k] != Null
                                  then DivRate(kpis[k]) else kpis[k])
  {
    converted := kpis;
    if currency == "USD" {
      converted := ConvertCurrencyKeys(converted, false);
    }
    converted := SetKeys(converted, IntegrationKeys, Text(IntegrationInProgress));
    converted := SetKeys(converted, TargetKeys(NoTargetKeys), Null);
  }

  /** `displayTrendData`: INR shows the series as is; any other currency divides the non-null money columns of every row. */
  method DisplayTrendData(items: seq<Record>, currency: string) returns (out: seq<Record>)
    ensures currency == "INR" ==> out == items
    ensures |out| == |items|
    ensures forall i :: 0 <= i < |items| ==> out[i].Keys == items[i].Keys
    ensures currency != "INR" ==>
              forall i, k :: 0 <= i < |items| && k in items[i] ==>
                out[i][k] == (if k in TrendCurrencyKeys && items[i][k] != Null then DivRate(items[i][k]) else items[i][k])
  {
    if currency == "INR" {
      return items;
    }
    assert Distinct(TrendCurrencyKeys);
    out := [];
    var i := 0;
    while i < |items|
      invariant 0 <= i <= |items|
      invariant |out| == i
      invariant forall j :: 0 <= j < i ==> out[j].Keys == items[j].Keys
      invariant forall j, k :: 0 <= j < i && k in items[j] ==>
                  out[j][k] == (if k in TrendCurrencyKeys && items[j][k] != Null then DivRate(items[j][k]) else items[j][k])
    {
      var newItem := DivideKeys(items[i], TrendCurrencyKeys, false);
      out := out + [newItem];
      i := i + 1;
    }
  }

  // ---------------------------------------------------------------------------
  // Trend series
  // ---------------------------------------------------------------------------

  /** `parseISO(r.date)`: None when the row has no well-formed date. */
  function DateOf(r: Record): Option<Date>
  {
    if "date" in r && r["date"].IsoDate? then Some(r["date"].date) else None
  }

  /**
   * `{ ...d, label: d.monthLabel || format(parseISO(d.date), "MMM ''yy") }`:
   * formatting an invalid date throws.
   */
  function MonthlyLabel(d: Record): (r: Result<Record>)
    ensures r.Ok? ==> r.value.Keys == d.Keys + {"label"} && forall k :: k in d && k != "label" ==> r.value[k] == d[k]
    ensures "monthLabel" in d && Truthy(d["monthLabel"]) ==> r == Ok(d["label" := d["monthLabel"]])
    ensures r.Err? <==> !("monthLabel" in d && Truthy(d["monthLabel"])) && DateOf(d).None?
  {
    if "monthLabel" in d && Truthy(d["monthLabel"]) then Ok(d["label" := d["monthLabel"]])
    else match DateOf(d)
      case Some(dt) => Ok(d["label" := Text(FormatMonthYear(dt))])
      case None => Err("Invalid time value")
  }

  /** The monthly series with labels, row for row; the first row that cannot be labelled throws. */
  function MonthlyLabels(ds: seq<Record>): (r: Result<seq<Record>>)
    ensures r.Ok? <==> forall i :: 0 <= i < |ds| ==> MonthlyLabel(ds[i]).Ok?
    ensures r.Ok? ==> |r.value| == |ds| && forall i :: 0 <= i < |ds| ==> r.value[i] == MonthlyLabel(ds[i]).value
  {
    if ds == [] then Ok([])
    else
      var tail := ds[1..];
      assert forall i :: 1 <= i < |ds| ==> ds[i] == tail[i - 1];
      match MonthlyLabel(ds[0])
      case Err(e) => Err(e)
      case Ok(first) =>
        match MonthlyLabels(tail)
        case Err(e) => Err(e)
        case Ok(rest) => Ok([first] + rest)
  }

  /** The four ratio metrics a bucket averages. */
  const AveragedKeys: seq<string> := ["nrr", "rule_of_80", "gm_percent", "ebitda_percent"]

  /** `values.map(v => v[key]).filter(v => v !== undefined && v !== null)`. */
  function DefinedValues(values: seq<Record>, key: string): (r: seq<Value>)
    ensures forall x :: x in r ==> x != Null
    ensures r == [] <==> forall i :: 0 <= i < |values| ==> key !in values[i] || values[i][key] == Null
  {
    if values == [] then []
    else
      var init, last := values[..|values| - 1], values[|values| - 1];
      assert forall i :: 0 <= i < |init| ==> init[i] == values[i];
      DefinedValues(init, key) + (if key in last && last[key] != Null then [last[key]] else [])
  }

  function Nums(vs: seq<Value>): (r: seq<real>)
    requires forall i :: 0 <= i < |vs| ==> vs[i].Num?
    ensures |r| == |vs| && forall i :: 0 <= i < |vs| ==> r[i] == vs[i].n
  {
    seq(|vs|, i requires 0 <= i < |vs| => vs[i].n)
  }

  /**
   * `vs.reduce((sum, val) => sum + val, 0) / vs.length` on defined values:
   * the mean when all are numbers; a string or NaN among them makes the sum
   * a string or NaN, and the quotient NaN.
   */
  function AverageOf(vs: seq<Value>): (r: Value)
    requires vs != []
    ensures (forall i :: 0 <= i < |vs| ==> vs[i].Num?) ==> r.Num? && IsMeanOf(r.n, Nums(vs))
    ensures (exists i :: 0 <= i < |vs| && !vs[i].Num?) ==> r == NaN
  {
    if forall i :: 0 <= i < |vs| ==> vs[i].Num? then Num(Mean(Nums(vs))) else NaN
  }

  /** The averaged value of one metric in a bucket: the mean of the defined values, else the last row's own value. */
  function Averaged(values: seq<Record>, key: string): (r: Option<Value>)
    requires values != []
    ensures DefinedValues(values, key) == [] ==> r == Get(values[|values| - 1], key)
    ensures var defined := DefinedValues(values, key);
      defined != [] && (forall i :: 0 <= i < |defined| ==> defined[i].Num?) ==>
        r.Some? && r.value.Num? && IsMeanOf(r.value.n, Nums(defined))
    ensures var defined := DefinedValues(values, key);
      (exists i :: 0 <= i < |defined| && !defined[i].Num?) ==> r == Some(NaN)
  {
    var defined := DefinedValues(values, key);
    if |defined| > 0 then Some(AverageOf(defined)) else Get(values[|values| - 1], key)
  }

  /** Writes the averaged metrics over r (an undefined average leaves the key undefined). */
  function WithAverages(r: Record, values: seq<Record>, keys: seq<string>): (o: Record)
    requires values != []
    ensures forall k :: k !in keys ==> Get(o, k) == Get(r, k)
    ensures forall k :: k in keys ==> Get(o, k) == (if Averaged(values, k).Some? then Averaged(values, k) else Get(r, k))
  {
    if keys == [] then r
    else
      var o := WithAverages(r, values, keys[..|keys| - 1]);
      var k := keys[|keys| - 1];
      assert forall x :: x in keys <==> x in keys[..|keys| - 1] || x == k by {
        assert keys == keys[..|keys| - 1] + [k];
      }
      match Averaged(values, k)
      case Some(v) => o[k := v]
      case None => o
  }

  /**
   * One database bucket: `{ ...lastValueInPeriod, label: key, ...averagedMetrics }`.
   * Point-in-time fields come from the last row, the four ratio metrics are averaged.
   */
  function Bucket(key: string, values: seq<Record>): (r: Record)
    requires values != []
    ensures Get(r, "label") == Some(Text(key))
    ensures forall k :: k != "label" && k !in AveragedKeys ==> Get(r, k) == Get(values[|values| - 1], k)
    ensures forall k :: k in AveragedKeys ==> Get(r, k) == Averaged(values, k)
  {
    assert "label" !in AveragedKeys;
    WithAverages(values[|values| - 1]["label" := Text(key)], values, AveragedKeys)
  }

  /**
   * An averaged ratio of a bucket is the mean of the numbers recorded for it
   * in the bucket's rows (nulls and missing values left out); a text among
   * them makes it NaN.
   */
  lemma BucketAverage(key: string, values: seq<Record>, m: string)
    requires values != [] && m in AveragedKeys
    ensures var defined := DefinedValues(values, m);
      defined != [] && (forall i :: 0 <= i < |defined| ==> defined[i].Num?) ==>
        Get(Bucket(key, values), m).Some? && Bucket(key, values)[m].Num?
        && IsMeanOf(Bucket(key, values)[m].n, Nums(defined))
    ensures var defined := DefinedValues(values, m);
      (exists i :: 0 <= i < |defined| && !defined[i].Num?) ==> Get(Bucket(key, values), m) == Some(NaN)
  {
    assert Get(Bucket(key, values), m) == Averaged(values, m);
  }

  /** An averaged ratio lies between the smallest and largest value recorded in the bucket. */
  lemma BucketAverageBounds(key: string, values: seq<Record>, m: string, lo: real, hi: real)
    requires values != [] && m in AveragedKeys
    requires forall i :: 0 <= i < |values| ==> m !in values[i] || values[i][m] == Null
                                                 || (values[i][m].Num? && lo <= values[i][m].n <= hi)
    requires exists i :: 0 <= i < |values| && m in values[i] && values[i][m] != Null
    ensures Get(Bucket(key, values), m).Some?
    ensures Bucket(key, values)[m].Num? && lo <= Bucket(key, values)[m].n <= hi
  {
    var defined := DefinedValues(values, m);
    DefinedValuesBounded(values, m, lo, hi);
    MeanBounds(Nums(defined), lo, hi);
  }

  lemma {:induction false} DefinedValuesBounded(values: seq<Record>, m: string, lo: real, hi: real)
    requires forall i :: 0 <= i < |values| ==> m !in values[i] || values[i][m] == Null
                                                 || (values[i][m].Num? && lo <= values[i][m].n <= hi)
    ensures forall i :: 0 <= i < |DefinedValues(values, m)| ==>
              DefinedValues(values, m)[i].Num? && lo <= DefinedValues(values, m)[i].n <= hi
    decreases |values|
  {
    if values != [] {
      DefinedValuesBounded(values[..|values| - 1], m, lo, hi);
    }
  }

  /** A metric that is null or missing in every row of a bucket falls back to the last row's own (null or undefined) value. */
  lemma BucketAllNullFallsBack(key: string, values: seq<Record>, m: string)
    requires values != [] && m in AveragedKeys
    requires forall i :: 0 <= i < |values| ==> m !in values[i] || values[i][m] == Null
    ensures Get(Bucket(key, values), m) == Get(values[|values| - 1], m)
  {
  }

  /** The key of a row for the database buckets: `Q<quarter> <yyyy>` for quarterly, the year otherwise. */
  function PeriodKey(granularity: string, r: Record): (k: PropKey)
    ensures granularity == "quarterly" ==> k.Name?
  {
    match DateOf(r)
    case Some(d) =>
      if granularity == "quarterly" then Name("Q" + NatToString(CalendarQuarter(d)) + " " + NatToString(d.year))
      else if d.year <= MaxArrayIndex then Index(d.year)
      else Name(NatToString(d.year))
    case None =>
      if granularity == "quarterly" then Name("QNaN NaN") else Name("NaN")
  }

  /** The largest array index: "4294967294" is an integer-like property name, "4294967295" is not. */
  const MaxArrayIndex: nat := 4294967294

  function PeriodKeyOf(granularity: string): Record -> PropKey
  {
    r => PeriodKey(granularity, r)
  }

  /** The property name as a string, the bucket's label. */
  function KeyLabel(k: PropKey): string
  {
    match k
    case Index(n) => NatToString(n)
    case Name(s) => s
  }

  /** The bucket keys of the database rows, in `Object.entries` order. */
  function BucketKeys(granularity: string, rows: seq<Record>): seq<PropKey>
  {
    EntriesOrder(Dedup(KeysOf(rows, PeriodKeyOf(granularity))))
  }

  /**
   * The database branch of `aggregatedTrendData`: nothing for no rows,
   * labelled rows for monthly, and otherwise one bucket per key, in
   * `Object.entries` order.
   */
  method DatabaseAggregated(granularity: string, trendData: seq<Record>) returns (r: Result<seq<Record>>)
    ensures trendData == [] ==> r == Ok([])
    ensures trendData != [] && granularity == "monthly" ==> r == MonthlyLabels(trendData)
    ensures trendData != [] && granularity != "monthly" ==>
              r.Ok? && |r.value| == |BucketKeys(granularity, trendData)|
              && forall i :: 0 <= i < |r.value| ==>
                   var k := BucketKeys(granularity, trendData)[i];
                   GroupOf(trendData, PeriodKeyOf(granularity), k) != []
                   && r.value[i] == Bucket(KeyLabel(k), GroupOf(trendData, PeriodKeyOf(granularity), k))
  {
    if |trendData| == 0 {
      return Ok([]);
    }
    if granularity == "monthly" {
      return MonthlyLabels(trendData);
    }
    var keys, groups := GroupBy(trendData, PeriodKeyOf(granularity));
    var ordered := EntriesOrder(keys);
    EntriesOrderListsKeys(keys);
    r := Ok(seq(|ordered|, i requires 0 <= i < |ordered| => Bucket(KeyLabel(ordered[i]), groups[ordered[i]])));
  }

  /** Quarterly database buckets come in first-appearance order of their keys. */
  lemma QuarterlyBucketsInFirstAppearanceOrder(rows: seq<Record>)
    ensures BucketKeys("quarterly", rows) == Dedup(KeysOf(rows, PeriodKeyOf("quarterly")))
  {
    var ks := Dedup(KeysOf(rows, PeriodKeyOf("quarterly")));
    assert forall i :: 0 <= i < |ks| ==> ks[i].Name? by {
      forall i | 0 <= i < |ks|
        ensures ks[i].Name?
      {
        assert ks[i] in KeysOf(rows, PeriodKeyOf("quarterly"));
      }
    }
    EntriesOrderOfNames(ks);
    DedupOfDistinct(ks);
  }

  /** Annual database buckets of dated rows come in ascending year order. */
  lemma AnnualBucketsAscending(rows: seq<Record>)
    requires forall i :: 0 <= i < |rows| ==> DateOf(rows[i]).Some? && DateOf(rows[i]).value.year <= MaxArrayIndex
    ensures forall i, j :: 0 <= i < j < |BucketKeys("annual", rows)| ==>
              BucketKeys("annual", rows)[i].Index? && BucketKeys("annual", rows)[j].Index?
              && BucketKeys("annual", rows)[i].n < BucketKeys("annual", rows)[j].n
  {
    var ks := Dedup(KeysOf(rows, PeriodKeyOf("annual")));
    assert forall i :: 0 <= i < |ks| ==> ks[i].Index? by {
      forall i | 0 <= i < |ks|
        ensures ks[i].Index?
      {
        assert ks[i] in KeysOf(rows, PeriodKeyOf("annual"));
        var j :| 0 <= j < |rows| && KeysOf(rows, PeriodKeyOf("annual"))[j] == ks[i];
        assert ks[i] == PeriodKey("annual", rows[j]);
      }
    }
    EntriesOrderOfIndexes(ks);
    assert BucketKeys("annual", rows) == EntriesOrder(ks);
  }

  /**
   * The static branch: the pre-aggregated quarterly or annual series, and
   * for any other granularity the monthly series with labels.
   */
  function StaticAggregated(granularity: string, monthly: seq<Record>, quarterly: seq<Record>, annual: seq<Record>): (r: Result<seq<Record>>)
    ensures granularity == "quarterly" ==> r == Ok(quarterly)
    ensures granularity == "annual" ==> r == Ok(annual)
    ensures granularity != "quarterly" && granularity != "annual" ==> r == MonthlyLabels(monthly)
    ensures granularity != "quarterly" && granularity != "annual" ==>
              (r.Ok? ==> |r.value| == |monthly|
                          && forall i :: 0 <= i < |monthly| ==> Get(r.value[i], "label").Some?)
  {
    if granularity == "quarterly" then Ok(quarterly)
    else if granularity == "annual" then Ok(annual)
    else MonthlyLabels(monthly)
  }

  /** `aggregatedTrendData`, with the `USE_DATABASE` switch as a parameter. */
  method AggregatedTrendData(useDatabase: bool, granularity: string, trendData: seq<Record>,
                             monthly: seq<Record>, quarterly: seq<Record>, annual: seq<Record>)
    returns (r: Result<seq<Record>>)
    ensures !useDatabase ==> r == StaticAggregated(granularity, monthly, quarterly, annual)
    ensures useDatabase && trendData == [] ==> r == Ok([])
  {
    if useDatabase {
      r := DatabaseAggregated(granularity, trendData);
    } else {
      r := StaticAggregated(granularity, monthly, quarterly, annual);
    }
  }

  // ---------------------------------------------------------------------------
  // Database load
  // ---------------------------------------------------------------------------

  /** A row of the metric store; `regionCode` is None when the row has no region. */
  datatype Metric = Metric(metricName: string, regionCode: Option<string>, period: Date, value: Value)

  predicate IsGlobal(m: Metric, name: string)
  {
    m.metricName == name && m.regionCode == Some("GLOBAL")
  }

  /** `findLatestMetric(name)`: the index of the first GLOBAL metric with that name. */
  function FindLatestMetric(metrics: seq<Metric>, name: string): (r: Option<nat>)
    ensures r.Some? ==> r.value < |metrics| && IsGlobal(metrics[r.value], name)
                        && forall j :: 0 <= j < r.value ==> !IsGlobal(metrics[j], name)
    ensures r.None? <==> forall j :: 0 <= j < |metrics| ==> !IsGlobal(metrics[j], name)
  {
    if metrics == [] then None
    else if IsGlobal(metrics[0], name) then Some(0)
    else
      match FindLatestMetric(metrics[1..], name)
      case None => None
      case Some(i) => Some(i + 1)
  }

  /** `if (metric) newKpis[key] = metric.value`. */
  function OverrideWith(kpis: Record, metrics: seq<Metric>, name: string, key: string): (r: Record)
    ensures forall k :: k != key ==> Get(r, k) == Get(kpis, k)
    ensures Get(r, key) == (match FindLatestMetric(metrics, name)
                            case Some(i) => Some(metrics[i].value)
                            case None => Get(kpis, key))
  {
    match FindLatestMetric(metrics, name)
    case Some(i) => kpis[key := metrics[i].value]
    case None => kpis
  }

  /**
   * The KPI cards of the database load: the static KPIs with MRR (and ARR as
   * twelve times it), EBITDA %, GM % and headcount replaced by the first
   * GLOBAL metric of that name, where there is one.
   */
  function OverrideKpis(live: Record, metrics: seq<Metric>): (r: Record)
    ensures forall k :: k !in {"live_mrr", "live_arr", "ebitda_percent", "gm_percent", "headcount"} ==> Get(r, k) == Get(live, k)
  {
    var k := MrrOverride(live, metrics);
    var k := OverrideWith(k, metrics, "EBITDA %", "ebitda_percent");
    var k := OverrideWith(k, metrics, "GM %", "gm_percent");
    OverrideWith(k, metrics, "Headcount", "headcount")
  }

  /** The MRR step: live MRR becomes the metric's value and live ARR twelve times it, when there is one. */
  function MrrOverride(live: Record, metrics: seq<Metric>): (r: Record)
    ensures forall k :: k != "live_mrr" && k != "live_arr" ==> Get(r, k) == Get(live, k)
    ensures FindLatestMetric(metrics, "MRR").None? ==> r == live
    ensures FindLatestMetric(metrics, "MRR").Some? ==>
              var v := metrics[FindLatestMetric(metrics, "MRR").value].value;
              Get(r, "live_mrr") == Some(v) && Get(r, "live_arr") == Some(TimesJs(Some(v), 12.0))
  {
    assert "live_arr" != "live_mrr" by {
      assert "live_arr"[5] != "live_mrr"[5];
    }
    match FindLatestMetric(metrics, "MRR")
    case Some(i) => live["live_mrr" := metrics[i].value]["live_arr" := TimesJs(Some(metrics[i].value), 12.0)]
    case None => live
  }

  /** The three later steps touch neither live MRR nor live ARR. */
  lemma OverrideKeepsMrr(live: Record, metrics: seq<Metric>)
    ensures Get(OverrideKpis(live, metrics), "live_mrr") == Get(MrrOverride(live, metrics), "live_mrr")
    ensures Get(OverrideKpis(live, metrics), "live_arr") == Get(MrrOverride(live, metrics), "live_arr")
  {
    assert |"live_mrr"| == |"live_arr"| == 8;
  }

  /** The database KPIs keep every static fallback value except the four overridden metrics (and ARR). */
  lemma OverrideKpisKeepsOthers(live: Record, metrics: seq<Metric>, k: string)
    requires k !in {"live_mrr", "live_arr", "ebitda_percent", "gm_percent", "headcount"}
    ensures Get(OverrideKpis(live, metrics), k) == Get(live, k)
  {
  }

  /** With a GLOBAL MRR metric, live MRR is its value and live ARR twelve times it; without one, both keep the static values. */
  lemma OverrideKpisMrr(live: Record, metrics: seq<Metric>)
    ensures var r := OverrideKpis(live, metrics);
      match FindLatestMetric(metrics, "MRR")
      case Some(i) =>
        Get(r, "live_mrr") == Some(metrics[i].value)
        && Get(r, "live_arr") == Some(TimesJs(Some(metrics[i].value), 12.0))
        && (metrics[i].value.Num? ==> r["live_arr"] == Num(12.0 * metrics[i].value.n))
      case None =>
        Get(r, "live_mrr") == Get(live, "live_mrr") && Get(r, "live_arr") == Get(live, "live_arr")
  {
    var r, m := OverrideKpis(live, metrics), MrrOverride(live, metrics);
    assert Get(r, "live_mrr") == Get(m, "live_mrr") && Get(r, "live_arr") == Get(m, "live_arr") by {
      OverrideKeepsMrr(live, metrics);
    }
    match FindLatestMetric(metrics, "MRR") {
      case Some(i) =>
        var v := metrics[i].value;
        assert Get(r, "live_arr") == Some(TimesJs(Some(v), 12.0));
        if v.Num? {
          assert r["live_arr"] == Num(v.n * 12.0);
          assert v.n * 12.0 == 12.0 * v.n;
        }
      case None =>
    }
  }

  /** An absent EBITDA % metric leaves the static value; a present one sets the first GLOBAL value. */
  lemma OverrideKpisEbitda(live: Record, metrics: seq<Metric>)
    ensures Get(OverrideKpis(live, metrics), "ebitda_percent") ==
              match FindLatestMetric(metrics, "EBITDA %")
              case Some(i) => Some(metrics[i].value)
              case None => Get(live, "ebitda_percent")
  {
  }

  /** `keyMap[metric.metric_name]`: the trend column a GLOBAL metric fills. */
  function ChartKey(name: string): (r: Option<string>)
    ensures r.Some? ==> r.value !in {"date", "monthLabel", "live_arr"}
  {
    if name == "MRR" then Some("live_mrr")
    else if name == "EBITDA %" then Some("ebitda_percent")
    else if name == "GM %" then Some("gm_percent")
    else if name == "Headcount" then Some("headcount")
    else if name == "NRR" then Some("nrr")
    else if name == "Rule of 80" then Some("rule_of_80")
    else if name == "Live Clients" then Some("live_clients")
    else None
  }

  /** A month entry carries a well-formed date and a label. */
  predicate IsMonthEntry(e: Record)
  {
    "date" in e && e["date"].IsoDate? && "monthLabel" in e
  }

  /** A new month entry: `{ date: metric.period, monthLabel }`, the label from the locale. */
  function NewMonthEntry(m: Metric, localeLabel: Date -> string): (e: Record)
    ensures IsMonthEntry(e) && e["date"] == IsoDate(m.period)
  {
    map["date" := IsoDate(m.period), "monthLabel" := Text(localeLabel(m.period))]
  }

  /** Records one metric in its month entry: only GLOBAL metrics with a charted name set a field. */
  function ApplyMetric(entry: Record, m: Metric): (r: Record)
    ensures IsMonthEntry(entry) ==> IsMonthEntry(r) && r["date"] == entry["date"] && r["monthLabel"] == entry["monthLabel"]
  {
    if m.regionCode == Some("GLOBAL") && ChartKey(m.metricName).Some? then entry[ChartKey(m.metricName).value := m.value]
    else entry
  }

  /** The `acc` object after reducing the metrics: one entry per "YYYY-MM" month. */
  function MonthEntries(ms: seq<Metric>, localeLabel: Date -> string): (acc: map<(nat, int), Record>)
    ensures forall mk :: mk in acc <==> exists i :: 0 <= i < |ms| && MonthKey(ms[i].period) == mk
    ensures forall mk :: mk in acc ==> IsMonthEntry(acc[mk])
  {
    if ms == [] then map[]
    else
      var init, m := ms[..|ms| - 1], ms[|ms| - 1];
      var acc := MonthEntries(init, localeLabel);
      var mk := MonthKey(m.period);
      assert forall i :: 0 <= i < |init| ==> init[i] == ms[i];
      acc[mk := ApplyMetric(if mk in acc then acc[mk] else NewMonthEntry(m, localeLabel), m)]
  }

  /** The value of the last GLOBAL metric in month mk whose name maps to column c. */
  function LastChartValue(ms: seq<Metric>, mk: (nat, int), c: string): Option<Value>
  {
    if ms == [] then None
    else
      var m := ms[|ms| - 1];
      if MonthKey(m.period) == mk && m.regionCode == Some("GLOBAL") && ChartKey(m.metricName) == Some(c) then Some(m.value)
      else LastChartValue(ms[..|ms| - 1], mk, c)
  }

  /** The first metric of month mk. */
  function FirstOfMonth(ms: seq<Metric>, mk: (nat, int)): Metric
    requires exists i :: 0 <= i < |ms| && MonthKey(ms[i].period) == mk
  {
    if MonthKey(ms[0].period) == mk then ms[0]
    else
      assert forall i :: 1 <= i < |ms| ==> ms[i] == ms[1..][i - 1];
      FirstOfMonth(ms[1..], mk)
  }

  /**
   * Each chart column of a month entry holds the value of the last GLOBAL
   * metric of that month and name (later metrics overwrite earlier ones);
   * a column no GLOBAL metric fills is absent.
   */
  lemma {:induction false} MonthEntryColumns(ms: seq<Metric>, localeLabel: Date -> string, mk: (nat, int), c: string)
    requires mk in MonthEntries(ms, localeLabel)
    requires c !in {"date", "monthLabel"}
    ensures Get(MonthEntries(ms, localeLabel)[mk], c) == LastChartValue(ms, mk, c)
    decreases |ms|
  {
    var init, m := ms[..|ms| - 1], ms[|ms| - 1];
    var acc := MonthEntries(init, localeLabel);
    if mk in acc {
      MonthEntryColumns(init, localeLabel, mk, c);
    } else {
      LastChartValueNone(init, mk, c);
    }
  }

  lemma {:induction false} LastChartValueNone(ms: seq<Metric>, mk: (nat, int), c: string)
    requires forall i :: 0 <= i < |ms| ==> MonthKey(ms[i].period) != mk
    ensures LastChartValue(ms, mk, c) == None
    decreases |ms|
  {
    if ms != [] {
      LastChartValueNone(ms[..|ms| - 1], mk, c);
    }
  }

  /** A month entry's date and label come from the first metric of that month. */
  lemma {:induction false} MonthEntryDate(ms: seq<Metric>, localeLabel: Date -> string, mk: (nat, int))
    requires mk in MonthEntries(ms, localeLabel)
    ensures MonthEntries(ms, localeLabel)[mk]["date"] == IsoDate(FirstOfMonth(ms, mk).period)
    ensures MonthEntries(ms, localeLabel)[mk]["monthLabel"] == Text(localeLabel(FirstOfMonth(ms, mk).period))
    decreases |ms|
  {
    var init, m := ms[..|ms| - 1], ms[|ms| - 1];
    var acc := MonthEntries(init, localeLabel);
    if mk in acc {
      MonthEntryDate(init, localeLabel, mk);
      FirstOfMonthPrefix(ms, mk);
    } else {
      FirstOfMonthIsLast(ms, mk);
    }
  }

  lemma {:induction false} FirstOfMonthPrefix(ms: seq<Metric>, mk: (nat, int))
    requires |ms| > 0
    requires exists i :: 0 <= i < |ms| - 1 && MonthKey(ms[i].period) == mk
    ensures FirstOfMonth(ms, mk) == FirstOfMonth(ms[..|ms| - 1], mk)
    decreases |ms|
  {
    if MonthKey(ms[0].period) != mk {
      assert ms[1..][..|ms[1..]| - 1] == ms[..|ms| - 1][1..];
      var i :| 0 <= i < |ms| - 1 && MonthKey(ms[i].period) == mk;
      assert ms[1..][i - 1] == ms[i];
      FirstOfMonthPrefix(ms[1..], mk);
    }
  }

  lemma {:induction false} FirstOfMonthIsLast(ms: seq<Metric>, mk: (nat, int))
    requires |ms| > 0 && MonthKey(ms[|ms| - 1].period) == mk
    requires forall i :: 0 <= i < |ms| - 1 ==> MonthKey(ms[i].period) != mk
    ensures FirstOfMonth(ms, mk) == ms[|ms| - 1]
    decreases |ms|
  {
    if |ms| > 1 {
      FirstOfMonthIsLast(ms[1..], mk);
    }
  }

  /** A metric outside GLOBAL, or with a name the chart does not map, adds no column to its month. */
  lemma NonChartMetricAddsNoColumn(ms: seq<Metric>, m: Metric, localeLabel: Date -> string)
    requires m.regionCode != Some("GLOBAL") || ChartKey(m.metricName).None?
    requires MonthKey(m.period) in MonthEntries(ms, localeLabel)
    ensures MonthEntries(ms + [m], localeLabel) == MonthEntries(ms, localeLabel)
  {
    assert (ms + [m])[..|ms|] == ms;
  }

  /** `if (dbData.live_mrr !== undefined) dbData.live_arr = dbData.live_mrr * 12`. */
  function WithLiveArr(r: Record): (o: Record)
    ensures "live_mrr" in r ==> o == r["live_arr" := TimesJs(Some(r["live_mrr"]), 12.0)]
    ensures "live_mrr" !in r ==> o == r
    ensures DateOf(o) == DateOf(r)
  {
    if "live_mrr" in r then r["live_arr" := TimesJs(Some(r["live_mrr"]), 12.0)] else r
  }

  /** `new Date(a.date) < new Date(b.date)`, for rows with well-formed dates. */
  predicate DateBefore(a: Record, b: Record)
  {
    DateOf(a).Some? && DateOf(b).Some? && DateLt(DateOf(a).value, DateOf(b).value)
  }

  /** Every row has a well-formed date. */
  predicate AllDated(s: seq<Record>)
  {
    forall i :: 0 <= i < |s| ==> DateOf(s[i]).Some?
  }

  /** Ascending by date: no row comes after a row it precedes in time. */
  predicate SortedByDate(s: seq<Record>)
  {
    forall i, j :: 0 <= i < j < |s| ==> !DateBefore(s[j], s[i])
  }

  /**
   * `rows.sort((a, b) => new Date(a.date) - new Date(b.date))`, in place: an
   * insertion sort that moves a row down only past rows strictly later than it.
   */
  method SortByDate(a: array<Record>)
    requires AllDated(a[..])
    modifies a
    ensures SortedByDate(a[..])
    ensures multiset(a[..]) == multiset(old(a[..]))
  {
    if a.Length == 0 {
      return;
    }
    var i := 1;
    while i < a.Length
      invariant 1 <= i <= a.Length
      invariant AllDated(a[..])
      invariant SortedByDate(a[..i])
      invariant multiset(a[..]) == multiset(old(a[..]))
    {
      InsertDated(a, i);
      i := i + 1;
    }
    assert a[..a.Length] == a[..];
  }

  /** Moves a[i] down past every earlier row strictly later than it. */
  method InsertDated(a: array<Record>, i: int)
    requires 0 <= i < a.Length && AllDated(a[..]) && SortedByDate(a[..i])
    modifies a
    ensures AllDated(a[..]) && SortedByDate(a[..i + 1])
    ensures multiset(a[..]) == multiset(old(a[..]))
  {
    var j := i;
    DatedInsertionStart(a[..], i);
    while j > 0 && DateBefore(a[j], a[j - 1])
      invariant 0 <= j <= i
      invariant multiset(a[..]) == multiset(old(a[..]))
      invariant DatedInserting(a[..], j, i)
    {
      DatedSwapDown(a, j, i);
      j := j - 1;
    }
    DatedInsertionDone(a[..], j, i);
  }

  /**
   * Insertion of s[i] is under way and has reached position j: every pair
   * up to i not involving j is in order, and s[j] is not later than any
   * row after it up to i.
   */
  ghost predicate DatedInserting(s: seq<Record>, j: int, i: int)
  {
    0 <= j <= i < |s| && AllDated(s)
    && (forall p, q :: 0 <= p < q <= i && p != j && q != j ==> !DateBefore(s[q], s[p]))
    && (forall q :: j < q <= i ==> !DateBefore(s[q], s[j]))
  }

  lemma DatedInsertionStart(s: seq<Record>, i: int)
    requires 0 <= i < |s| && AllDated(s) && SortedByDate(s[..i])
    ensures DatedInserting(s, i, i)
  {
    forall p, q | 0 <= p < q < i
      ensures !DateBefore(s[q], s[p])
    {
      assert s[..i][p] == s[p] && s[..i][q] == s[q];
    }
  }

  /** Swaps the row being inserted at j with its predecessor. */
  method DatedSwapDown(a: array<Record>, j: int, i: int)
    requires 0 < j <= i < a.Length
    requires DateBefore(a[j], a[j - 1])
    requires DatedInserting(a[..], j, i)
    modifies a
    ensures multiset(a[..]) == multiset(old(a[..]))
    ensures DatedInserting(a[..], j - 1, i)
  {
    ghost var s := a[..];
    a[j - 1], a[j] := a[j], a[j - 1];
    assert a[..] == s[j - 1 := s[j]][j := s[j - 1]];
    DatedSwapStep(s, j, i);
    SwapPermutes(s, j);
  }

  lemma DatedSwapStep(s: seq<Record>, j: int, i: int)
    requires 0 < j <= i < |s|
    requires DateBefore(s[j], s[j - 1])
    requires DatedInserting(s, j, i)
    ensures DatedInserting(s[j - 1 := s[j]][j := s[j - 1]], j - 1, i)
  {
  }

  lemma DatedInsertionDone(s: seq<Record>, j: int, i: int)
    requires DatedInserting(s, j, i)
    requires j == 0 || !DateBefore(s[j], s[j - 1])
    ensures SortedByDate(s[..i + 1])
  {
    forall p, q | 0 <= p < q <= i
      ensures !DateBefore(s[q], s[p])
    {
      if q == j && p < j - 1 {
        assert !DateBefore(s[j - 1], s[p]);
      }
    }
    var t := s[..i + 1];
    assert forall p, q :: 0 <= p < q < |t| ==> t[p] == s[p] && t[q] == s[q];
  }

  /** Sorts a copy of the rows by date. */
  method SortedCopy(rows: seq<Record>) returns (sorted: seq<Record>)
    requires AllDated(rows)
    ensures SortedByDate(sorted)
    ensures multiset(sorted) == multiset(rows)
  {
    var a := new Record[|rows|](i requires 0 <= i < |rows| => rows[i]);
    assert a[..] == rows;
    SortByDate(a);
    sorted := a[..];
  }

  function MetricMonth(m: Metric): (nat, int)
  {
    MonthKey(m.period)
  }

  /** The months of the metrics, in first-appearance order (`Object.values` order of the month entries). */
  function MonthOrder(ms: seq<Metric>): seq<(nat, int)>
  {
    Dedup(KeysOf(ms, MetricMonth))
  }

  /** The month entries in `Object.values` order, each with live ARR derived. */
  function MonthValues(ms: seq<Metric>, localeLabel: Date -> string): (r: seq<Record>)
    ensures AllDated(r)
  {
    var order := MonthOrder(ms);
    var acc := MonthEntries(ms, localeLabel);
    MonthOrderMembership(ms, localeLabel);
    var r := seq(|order|, i requires 0 <= i < |order| => WithLiveArr(acc[order[i]]));
    assert forall i :: 0 <= i < |r| ==> DateOf(r[i]).Some? by {
      forall i | 0 <= i < |r|
        ensures DateOf(r[i]).Some?
      {
        assert DateOf(acc[order[i]]).Some?;
      }
    }
    r
  }

  /** One step of the reduce over the metrics. */
  lemma MonthStep(ms: seq<Metric>, i: nat, localeLabel: Date -> string)
    requires i < |ms|
    ensures MonthEntries(ms[..i + 1], localeLabel) ==
              var acc := MonthEntries(ms[..i], localeLabel);
              var mk := MonthKey(ms[i].period);
              acc[mk := ApplyMetric(if mk in acc then acc[mk] else NewMonthEntry(ms[i], localeLabel), ms[i])]
    ensures MonthOrder(ms[..i + 1]) ==
              if MonthKey(ms[i].period) in MonthOrder(ms[..i]) then MonthOrder(ms[..i])
              else MonthOrder(ms[..i]) + [MonthKey(ms[i].period)]
  {
    assert ms[..i + 1][..i] == ms[..i];
    assert ms[..i + 1] == ms[..i] + [ms[i]];
    KeysOfSnoc(ms[..i], ms[i], MetricMonth);
    DedupSnoc(KeysOf(ms[..i], MetricMonth), MetricMonth(ms[i]));
  }

  /** A month has an entry exactly when it is in the month order. */
  lemma MonthOrderMembership(ms: seq<Metric>, localeLabel: Date -> string)
    ensures forall mk :: mk in MonthEntries(ms, localeLabel) <==> mk in MonthOrder(ms)
  {
    forall mk | mk in MonthOrder(ms)
      ensures mk in MonthEntries(ms, localeLabel)
    {
      var j :| 0 <= j < |ms| && KeysOf(ms, MetricMonth)[j] == mk;
    }
    forall mk | mk in MonthEntries(ms, localeLabel)
      ensures mk in MonthOrder(ms)
    {
      var j :| 0 <= j < |ms| && MonthKey(ms[j].period) == mk;
      assert KeysOf(ms, MetricMonth)[j] == mk;
    }
  }

  /**
   * The monthly trend rows of the database load: the metrics reduced into
   * month entries, then live ARR derived and the rows sorted by date.
   */
  method MonthlyTrendFromMetrics(metrics: seq<Metric>, localeLabel: Date -> string) returns (rows: seq<Record>)
    ensures SortedByDate(rows)
    ensures multiset(rows) == multiset(MonthValues(metrics, localeLabel))
  {
    var acc: map<(nat, int), Record> := map[];
    var order: seq<(nat, int)> := [];
    var i := 0;
    assert metrics[..i] == [];
    while i < |metrics|
      invariant 0 <= i <= |metrics|
      invariant acc == MonthEntries(metrics[..i], localeLabel)
      invariant order == MonthOrder(metrics[..i])
    {
      var m := metrics[i];
      var mk := MonthKey(m.period);
      assert mk in acc <==> mk in order by {
        MonthOrderMembership(metrics[..i], localeLabel);
      }
      var entry := if mk in acc then acc[mk] else NewMonthEntry(m, localeLabel);
      if mk !in acc {
        order := order + [mk];
      }
      if m.regionCode == Some("GLOBAL") {
        var chartKey := ChartKey(m.metricName);
        if chartKey.Some? {
          entry := entry[chartKey.value := m.value];
        }
      }
      assert entry == ApplyMetric(if mk in acc then acc[mk] else NewMonthEntry(m, localeLabel), m);
      acc := acc[mk := entry];
      assert acc == MonthEntries(metrics[..i + 1], localeLabel) && order == MonthOrder(metrics[..i + 1]) by {
        MonthStep(metrics, i, localeLabel);
      }
      i := i + 1;
      assert acc == MonthEntries(metrics[..i], localeLabel);
      assert order == MonthOrder(metrics[..i]);
    }
    assert metrics[..i] == metrics;
    var values := MonthValues(metrics, localeLabel);
    rows := SortedCopy(values);
  }

  // ---------------------------------------------------------------------------
  // Merging the database months into the static series
  // ---------------------------------------------------------------------------

  /** `a.date.substring(0, 7) === b.date.substring(0, 7)`. */
  predicate SameMonth(a: Record, b: Record)
  {
    DateOf(a).Some? && DateOf(b).Some? && MonthKey(DateOf(a).value) == MonthKey(DateOf(b).value)
  }

  /** `processedTrendData.find(d => same month as s)`, as an index. */
  function FindSameMonth(db: seq<Record>, s: Record): (r: Option<nat>)
    ensures r.Some? ==> r.value < |db| && SameMonth(db[r.value], s) && forall j :: 0 <= j < r.value ==> !SameMonth(db[j], s)
    ensures r.None? ==> forall j :: 0 <= j < |db| ==> !SameMonth(db[j], s)
  {
    if db == [] then None
    else if SameMonth(db[0], s) then Some(0)
    else
      match FindSameMonth(db[1..], s)
      case None => None
      case Some(i) => Some(i + 1)
  }

  /** `{ ...staticEntry, ...dbEntry }`: the database fields override the static ones; no match leaves the entry as it is. */
  function Overlay(s: Record, db: seq<Record>): (r: Record)
    ensures DateOf(s).Some? ==> SameMonth(r, s)
    ensures FindSameMonth(db, s).None? ==> r == s
    ensures FindSameMonth(db, s).Some? ==>
              var d := db[FindSameMonth(db, s).value];
              r.Keys == s.Keys + d.Keys && (forall k :: k in d ==> r[k] == d[k])
              && (forall k :: k in s && k !in d ==> r[k] == s[k])
  {
    match FindSameMonth(db, s)
    case Some(i) => s + db[i]
    case None => s
  }

  function Overlaid(staticRows: seq<Record>, db: seq<Record>): (r: seq<Record>)
    ensures |r| == |staticRows| && forall i :: 0 <= i < |staticRows| ==> r[i] == Overlay(staticRows[i], db)
  {
    seq(|staticRows|, i requires 0 <= i < |staticRows| => Overlay(staticRows[i], db))
  }

  /** `combined.some(e => same month as d)`. */
  predicate AnySameMonth(rows: seq<Record>, d: Record)
  {
    exists j :: 0 <= j < |rows| && SameMonth(rows[j], d)
  }

  /** The `forEach` that appends each database row whose month the combined series lacks. */
  function AppendNewMonths(combined: seq<Record>, db: seq<Record>): (r: seq<Record>)
    ensures combined <= r && |r| <= |combined| + |db|
    ensures forall i :: |combined| <= i < |r| ==> r[i] in db
    decreases |db|
  {
    if db == [] then combined
    else
      var next := if AnySameMonth(combined, db[0]) then combined else combined + [db[0]];
      var r := AppendNewMonths(next, db[1..]);
      assert forall i :: |combined| <= i < |r| ==> r[i] in db by {
        forall i | |combined| <= i < |r|
          ensures r[i] in db
        {
          if i < |next| {
            assert r[i] == next[i] == db[0];
          } else {
            assert r[i] in db[1..];
          }
        }
      }
      r
  }

  /**
   * The merge of the database load: the staticRows months overlaid with the
   * database rows, the database months the staticRows series lacks appended,
   * and the whole sorted by date.
   */
  method CombineTrend(staticRows: seq<Record>, db: seq<Record>) returns (combined: seq<Record>)
    requires AllDated(staticRows) && AllDated(db)
    ensures SortedByDate(combined)
    ensures multiset(combined) == multiset(AppendNewMonths(Overlaid(staticRows, db), db))
  {
    combined := Overlaid(staticRows, db);
    assert AllDated(combined);
    var i := 0;
    while i < |db|
      invariant 0 <= i <= |db|
      invariant AllDated(combined)
      invariant AppendNewMonths(combined, db[i..]) == AppendNewMonths(Overlaid(staticRows, db), db)
    {
      assert db[i..][1..] == db[i + 1..];
      if !AnySameMonth(combined, db[i]) {
        combined := combined + [db[i]];
      }
      i := i + 1;
    }
    combined := SortedCopy(combined);
  }

  /** The series being built is never shortened: it stays a prefix of the result. */
  /** After the merge, every database month is present. */
  lemma {:induction false} AppendNewMonthsCovers(combined: seq<Record>, db: seq<Record>)
    requires AllDated(db)
    ensures forall i :: 0 <= i < |db| ==> AnySameMonth(AppendNewMonths(combined, db), db[i])
    decreases |db|
  {
    if db != [] {
      var next := if AnySameMonth(combined, db[0]) then combined else combined + [db[0]];
      var tail := db[1..];
      var r := AppendNewMonths(combined, db);
      assert r == AppendNewMonths(next, tail);
      AppendNewMonthsCovers(next, tail);
      forall i | 0 <= i < |db|
        ensures AnySameMonth(r, db[i])
      {
        if i == 0 {
          assert AnySameMonth(next, db[0]) by {
            if !AnySameMonth(combined, db[0]) {
              assert next[|combined|] == db[0];
            }
          }
          var j :| 0 <= j < |next| && SameMonth(next[j], db[0]);
          assert r[j] == next[j];
        } else {
          assert db[i] == tail[i - 1];
        }
      }
    }
  }

  /** No two rows share a month. */
  predicate DistinctMonths(rows: seq<Record>)
  {
    forall i, j :: 0 <= i < j < |rows| ==> !SameMonth(rows[i], rows[j])
  }

  /** Appending only months not yet present keeps the months distinct. */
  lemma {:induction false} AppendNewMonthsDistinct(combined: seq<Record>, db: seq<Record>)
    requires DistinctMonths(combined)
    ensures DistinctMonths(AppendNewMonths(combined, db))
    decreases |db|
  {
    if db != [] {
      var next := if AnySameMonth(combined, db[0]) then combined else combined + [db[0]];
      assert DistinctMonths(next) by {
        if !AnySameMonth(combined, db[0]) {
          forall i, j | 0 <= i < j < |next|
            ensures !SameMonth(next[i], next[j])
          {
            if j == |combined| {
              assert !SameMonth(combined[i], db[0]);
            }
          }
        }
      }
      AppendNewMonthsDistinct(next, db[1..]);
    }
  }

  /** Overlaying keeps each staticRows month in place: staticRows months that are distinct stay distinct. */
  lemma OverlaidKeepsMonths(staticRows: seq<Record>, db: seq<Record>)
    requires AllDated(staticRows) && DistinctMonths(staticRows)
    ensures DistinctMonths(Overlaid(staticRows, db))
    ensures forall i :: 0 <= i < |staticRows| ==> SameMonth(Overlaid(staticRows, db)[i], staticRows[i])
  {
  }

  /**
   * The merged series holds every staticRows month once (carrying the database
   * fields where the database has that month) and every database month.
   */
  lemma MergedSeries(staticRows: seq<Record>, db: seq<Record>)
    requires AllDated(staticRows) && AllDated(db) && DistinctMonths(staticRows)
    ensures var r := AppendNewMonths(Overlaid(staticRows, db), db);
      |staticRows| <= |r| && DistinctMonths(r)
      && (forall i :: 0 <= i < |staticRows| ==> r[i] == Overlay(staticRows[i], db) && SameMonth(r[i], staticRows[i]))
      && (forall i :: 0 <= i < |db| ==> AnySameMonth(r, db[i]))
  {
    OverlaidKeepsMonths(staticRows, db);
    AppendNewMonthsDistinct(Overlaid(staticRows, db), db);
    AppendNewMonthsCovers(Overlaid(staticRows, db), db);
  }

  /**
   * `loadDataFromDatabase` on the fetched metrics (the fetch itself is a
   * parameter): the KPI cards and the merged monthly trend.
   */
  method LoadFromDatabase(live: Record, staticMonthly: seq<Record>, allMetrics: seq<Metric>, localeLabel: Date -> string)
    returns (kpis: Record, trend: seq<Record>)
    requires AllDated(staticMonthly)
    ensures kpis == OverrideKpis(live, allMetrics)
    ensures SortedByDate(trend)
    ensures exists processed :: SortedByDate(processed)
              && multiset(processed) == multiset(MonthValues(allMetrics, localeLabel))
              && multiset(trend) == multiset(AppendNewMonths(Overlaid(staticMonthly, processed), processed))
    ensures allMetrics == [] ==> kpis == live && multiset(trend) == multiset(staticMonthly)
  {
    kpis := OverrideKpis(live, allMetrics);
    var processed := MonthlyTrendFromMetrics(allMetrics, localeLabel);
    assert AllDated(processed) by {
      forall i | 0 <= i < |processed|
        ensures DateOf(processed[i]).Some?
      {
        assert processed[i] in multiset(MonthValues(allMetrics, localeLabel));
      }
    }
    trend := CombineTrend(staticMonthly, processed);
    assert SortedByDate(processed)
           && multiset(processed) == multiset(MonthValues(allMetrics, localeLabel))
           && multiset(trend) == multiset(AppendNewMonths(Overlaid(staticMonthly, processed), processed));
    if allMetrics == [] {
      assert processed == [];
      assert Overlaid(staticMonthly, processed) == staticMonthly;
    }
  }
}
