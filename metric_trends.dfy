/**
 * The Metric Trends card: monthly rows re-labelled, or bucketed by
 * calendar quarter or year keeping the last row of each bucket, and the
 * chart rows with ARR derived as twelve times MRR.
 */
module MetricTrends {
  import opened Common
  import opened Grouping
  import Executive

  /** `monthLabel` copied into `label`; an undefined `monthLabel` leaves no label. */
  function WithMonthLabel(d: Record): (r: Record)
    ensures r.Keys == if "monthLabel" in d then d.Keys + {"label"} else d.Keys - {"label"}
    ensures Get(r, "label") == Get(d, "monthLabel")
    ensures forall k :: k in d && k != "label" ==> r[k] == d[k]
  {
    if "monthLabel" in d then d["label" := d["monthLabel"]] else d - {"label"}
  }

  /**
   * The bucket key of a row: `Q<calendar quarter> '<last two digits of year>`
   * for quarterly, the four-digit year for any other granularity. An
   * invalid date gives the NaN spellings.
   */
  function TrendKey(granularity: string, r: Record): (k: PropKey)
    ensures granularity == "quarterly" ==> k.Name?
  {
    match Executive.DateOf(r)
    case Some(d) =>
      if granularity == "quarterly" then Name("Q" + NatToString(CalendarQuarter(d)) + " '" + TwoDigitYear(d.year))
      else if d.year <= Executive.MaxArrayIndex then Index(d.year)
      else Name(NatToString(d.year))
    case None =>
      if granularity == "quarterly" then Name("QNaN 'aN") else Name("NaN")
  }

  function TrendKeyOf(granularity: string): Record -> PropKey
  {
    r => TrendKey(granularity, r)
  }

  /** The output order of the buckets: `Object.entries` of the grouped object. */
  function TrendKeys(granularity: string, data: seq<Record>): seq<PropKey>
  {
    EntriesOrder(Dedup(KeysOf(data, TrendKeyOf(granularity))))
  }

  /** `{ ...lastValue, label: key }`. */
  function LastWithLabel(k: PropKey, values: seq<Record>): (r: Record)
    requires values != []
    ensures Get(r, "label") == Some(Text(Executive.KeyLabel(k)))
    ensures forall f :: f != "label" ==> Get(r, f) == Get(values[|values| - 1], f)
  {
    values[|values| - 1]["label" := Text(Executive.KeyLabel(k))]
  }

  /**
   * `aggregateData`: monthly rows are relabelled one for one; otherwise the
   * rows are grouped under their key and each bucket is its last row with
   * `label` set to the key, in `Object.entries` order.
   */
  method AggregateData(data: seq<Record>, granularity: string) returns (r: seq<Record>)
    ensures granularity == "monthly" ==>
              |r| == |data| && forall i :: 0 <= i < |data| ==> r[i] == WithMonthLabel(data[i])
    ensures granularity != "monthly" ==>
              |r| == |TrendKeys(granularity, data)|
              && forall i :: 0 <= i < |r| ==>
                   var k := TrendKeys(granularity, data)[i];
                   GroupOf(data, TrendKeyOf(granularity), k) != []
                   && r[i] == LastWithLabel(k, GroupOf(data, TrendKeyOf(granularity), k))
  {
    if granularity == "monthly" {
      return seq(|data|, i requires 0 <= i < |data| => WithMonthLabel(data[i]));
    }
    var keys, groups := GroupBy(data, TrendKeyOf(granularity));
    var ordered := EntriesOrder(keys);
    EntriesOrderListsKeys(keys);
    r := seq(|ordered|, i requires 0 <= i < |ordered| => LastWithLabel(ordered[i], groups[ordered[i]]));
  }

  /**
   * Each bucket is the last row of its period: a row of the input with that
   * key after which no row has the key.
   */
  lemma BucketIsLastRow(data: seq<Record>, granularity: string, k: PropKey)
    requires k in TrendKeys(granularity, data)
    ensures GroupOf(data, TrendKeyOf(granularity), k) != []
    ensures var g := GroupOf(data, TrendKeyOf(granularity), k);
            exists j :: 0 <= j < |data| && g[|g| - 1] == data[j] && TrendKey(granularity, data[j]) == k
                        && forall j' :: j < j' < |data| ==> TrendKey(granularity, data[j']) != k
  {
    EntriesOrderListsKeys(Dedup(KeysOf(data, TrendKeyOf(granularity))));
    GroupNonEmpty(data, TrendKeyOf(granularity), k);
    GroupLast(data, TrendKeyOf(granularity), k);
    var g := GroupOf(data, TrendKeyOf(granularity), k);
    var j :| IsLastWithKey(data, TrendKeyOf(granularity), k, j) && data[j] == g[|g| - 1];
    assert TrendKey(granularity, data[j]) == k;
  }

  /** The number of buckets is the number of distinct keys. */
  lemma BucketCount(data: seq<Record>, granularity: string)
    ensures Distinct(TrendKeys(granularity, data))
    ensures forall k :: k in TrendKeys(granularity, data) <==> exists i :: 0 <= i < |data| && TrendKey(granularity, data[i]) == k
  {
    var ks := KeysOf(data, TrendKeyOf(granularity));
    EntriesOrderListsKeys(Dedup(ks));
    forall k | k in TrendKeys(granularity, data)
      ensures exists i :: 0 <= i < |data| && TrendKey(granularity, data[i]) == k
    {
      var i :| 0 <= i < |ks| && ks[i] == k;
    }
    forall k | exists i :: 0 <= i < |data| && TrendKey(granularity, data[i]) == k
      ensures k in TrendKeys(granularity, data)
    {
      var i :| 0 <= i < |data| && TrendKey(granularity, data[i]) == k;
      assert ks[i] == k;
    }
  }

  /** Two dated rows share a quarterly bucket iff they share the calendar quarter and the two-digit year. */
  lemma SameQuarterKey(a: Record, b: Record)
    requires Executive.DateOf(a).Some? && Executive.DateOf(b).Some?
    ensures var da, db := Executive.DateOf(a).value, Executive.DateOf(b).value;
            TrendKey("quarterly", a) == TrendKey("quarterly", b) <==>
              CalendarQuarter(da) == CalendarQuarter(db) && TwoDigitYear(da.year) == TwoDigitYear(db.year)
  {
    var da, db := Executive.DateOf(a).value, Executive.DateOf(b).value;
    var qa, qb := CalendarQuarter(da), CalendarQuarter(db);
    var ya, yb := TwoDigitYear(da.year), TwoDigitYear(db.year);
    var ka, kb := "Q" + NatToString(qa) + " '" + ya, "Q" + NatToString(qb) + " '" + yb;
    assert TrendKey("quarterly", a) == Name(ka);
    assert TrendKey("quarterly", b) == Name(kb);
    if qa == qb && ya == yb {
      assert ka == kb;
    } else {
      assert NatToString(qa) == [DigitChar(qa)];
      assert NatToString(qb) == [DigitChar(qb)];
      LabelParts(DigitChar(qa), ya, DigitChar(qb), yb);
      assert ka != kb;
    }
  }

  /** Quarterly buckets come out in the order their keys first appear. */
  lemma QuarterlyFirstAppearance(data: seq<Record>)
    ensures TrendKeys("quarterly", data) == Dedup(KeysOf(data, TrendKeyOf("quarterly")))
  {
    var ks := Dedup(KeysOf(data, TrendKeyOf("quarterly")));
    assert forall i :: 0 <= i < |ks| ==> ks[i].Name? by {
      forall i | 0 <= i < |ks|
        ensures ks[i].Name?
      {
        assert ks[i] in KeysOf(data, TrendKeyOf("quarterly"));
      }
    }
    EntriesOrderOfNames(ks);
    DedupOfDistinct(ks);
  }

  /**
   * Year buckets of dated rows come out in ascending year order, whatever
   * the input order; the same holds for 'annually' and any other
   * granularity that is not monthly or quarterly.
   */
  lemma YearlyAscending(data: seq<Record>, granularity: string)
    requires granularity != "quarterly"
    requires forall i :: 0 <= i < |data| ==> Executive.DateOf(data[i]).Some? && Executive.DateOf(data[i]).value.year <= Executive.MaxArrayIndex
    ensures forall i, j :: 0 <= i < j < |TrendKeys(granularity, data)| ==>
              TrendKeys(granularity, data)[i].Index? && TrendKeys(granularity, data)[j].Index?
              && TrendKeys(granularity, data)[i].n < TrendKeys(granularity, data)[j].n
  {
    var ks := Dedup(KeysOf(data, TrendKeyOf(granularity)));
    assert forall i :: 0 <= i < |ks| ==> ks[i].Index? by {
      forall i | 0 <= i < |ks|
        ensures ks[i].Index?
      {
        assert ks[i] in KeysOf(data, TrendKeyOf(granularity));
        var j :| 0 <= j < |data| && KeysOf(data, TrendKeyOf(granularity))[j] == ks[i];
        assert ks[i] == TrendKey(granularity, data[j]);
      }
    }
    EntriesOrderOfIndexes(ks);
    assert TrendKeys(granularity, data) == EntriesOrder(ks);
  }

  /** `{ ...d, live_arr: d.live_mrr * 12, contracted_arr: d.contracted_mrr * 12 }`. */
  function ChartRow(d: Record): (r: Record)
    ensures r.Keys == d.Keys + {"live_arr", "contracted_arr"}
    ensures forall k :: k in d && k != "live_arr" && k != "contracted_arr" ==> r[k] == d[k]
    ensures forall x :: Get(d, "live_mrr") == Some(Num(x)) ==> r["live_arr"] == Num(12.0 * x)
    ensures forall x :: Get(d, "contracted_mrr") == Some(Num(x)) ==> r["contracted_arr"] == Num(12.0 * x)
    ensures "live_mrr" !in d ==> r["live_arr"] == NaN
  {
    d["live_arr" := TimesJs(Get(d, "live_mrr"), 12.0)]["contracted_arr" := TimesJs(Get(d, "contracted_mrr"), 12.0)]
  }

  /** `processedChartData`: one chart row per bucket, in order. */
  function ProcessedChartData(chartData: seq<Record>): (r: seq<Record>)
    ensures |r| == |chartData| && forall i :: 0 <= i < |r| ==> r[i] == ChartRow(chartData[i])
  {
    seq(|chartData|, i requires 0 <= i < |chartData| => ChartRow(chartData[i]))
  }
}
