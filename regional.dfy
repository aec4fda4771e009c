/**
 * The regional dashboard: the KPI record of the selected country in the
 * display currency, its trend rows at the chosen granularity, and the list
 * of countries offered by the selector.
 */
module Regional {
  import opened Common
  import opened Lists
  import opened Grouping
  import opened Currency
  import Executive

  /** The regional fields that always read 'Integration In Progress'. */
  const RegionalIntegrationKeys: seq<string> := ["contracted_mrr", "contracted_arr", "contracted_clients", "chs", "accounts_at_risk"]

  /** `c.country === selectedCountry`. */
  predicate IsCountry(r: Record, selected: string)
  {
    Get(r, "country") == Some(Text(selected))
  }

  /** `regionalLiveKpis.find(c => c.country === selectedCountry) || {}`. */
  function SelectKpis(live: seq<Record>, selected: string): (r: Record)
    ensures r == map[] || (r in live && IsCountry(r, selected))
    ensures (forall i :: 0 <= i < |live| ==> !IsCountry(live[i], selected)) ==> r == map[]
    ensures forall i :: 0 <= i < |live| && IsCountry(live[i], selected) ==>
              exists j :: 0 <= j <= i && r == live[j] && IsCountry(live[j], selected)
  {
    if live == [] then map[]
    else if IsCountry(live[0], selected) then live[0]
    else
      var r := SelectKpis(live[1..], selected);
      assert forall i :: 1 <= i < |live| ==> live[i] == live[1..][i - 1];
      assert forall j :: 0 <= j < |live[1..]| ==> live[1..][j] == live[j + 1];
      r
  }

  /** The record `find` returns is the first one of the selected country. */
  lemma {:induction false} SelectKpisFirst(live: seq<Record>, selected: string, i: nat)
    requires i < |live| && IsCountry(live[i], selected)
    requires forall j :: 0 <= j < i ==> !IsCountry(live[j], selected)
    ensures SelectKpis(live, selected) == live[i]
    decreases i
  {
    if i > 0 {
      var tail := live[1..];
      assert !IsCountry(live[0], selected);
      assert tail[i - 1] == live[i];
      assert forall j :: 0 <= j < i - 1 ==> !IsCountry(tail[j], selected) by {
        forall j | 0 <= j < i - 1
          ensures !IsCountry(tail[j], selected)
        {
          assert tail[j] == live[j + 1];
        }
      }
      SelectKpisFirst(tail, selected, i - 1);
      assert SelectKpis(live, selected) == SelectKpis(tail, selected);
    }
  }

  /**
   * The `kpis` memo: a copy of the selected country's record; for 'USD' the
   * money keys are divided whenever present (a null becomes 0) and their
   * targets when present and non-null; then five fields read 'Integration
   * In Progress'.
   */
  method RegionalKpis(live: seq<Record>, selected: string, currency: string) returns (converted: Record)
    ensures var s := SelectKpis(live, selected);
            (forall k :: k in converted <==> k in s || k in RegionalIntegrationKeys)
            && (forall k :: k in RegionalIntegrationKeys ==> converted[k] == Text(IntegrationInProgress))
            && (forall k :: k in s && k !in RegionalIntegrationKeys ==>
                  converted[k] == (if currency == "USD" && (k in CurrencyKeys || (k in TargetKeys(CurrencyKeys) && s[k] != Null))
                                   then DivRate(s[k]) else s[k]))
  {
    converted := SelectKpis(live, selected);
    if currency == "USD" {
      converted := ConvertCurrencyKeys(converted, true);
    }
    converted := SetKeys(converted, RegionalIntegrationKeys, Text(IntegrationInProgress));
  }

  /**
   * `{ ...d, label: parseISO(d.date).toLocaleString(...) }`: the locale
   * month label is a parameter; an unparseable date reads 'Invalid Date'.
   */
  function LocaleLabelled(d: Record, localeLabel: Date -> string): (r: Record)
    ensures r.Keys == d.Keys + {"label"}
    ensures forall k :: k in d && k != "label" ==> r[k] == d[k]
    ensures Executive.DateOf(d).Some? ==> r["label"] == Text(localeLabel(Executive.DateOf(d).value))
  {
    match Executive.DateOf(d)
    case Some(dt) => d["label" := Text(localeLabel(dt))]
    case None => d["label" := Text("Invalid Date")]
  }

  function CountryOf(selected: string): Record -> bool
  {
    r => IsCountry(r, selected)
  }

  /** The source series for a granularity: quarterly, annual, or the labelled monthly rows. */
  function SourceData(granularity: string, monthly: seq<Record>, quarterly: seq<Record>, annual: seq<Record>,
                      localeLabel: Date -> string): (r: seq<Record>)
    ensures granularity == "quarterly" ==> r == quarterly
    ensures granularity == "annual" ==> r == annual
    ensures granularity != "quarterly" && granularity != "annual" ==>
              |r| == |monthly| && forall i :: 0 <= i < |r| ==> r[i] == LocaleLabelled(monthly[i], localeLabel)
  {
    if granularity == "quarterly" then quarterly
    else if granularity == "annual" then annual
    else seq(|monthly|, i requires 0 <= i < |monthly| => LocaleLabelled(monthly[i], localeLabel))
  }

  /** `aggregatedTrendData`: the rows of the source series whose country is the selected one, in order. */
  function AggregatedTrendData(granularity: string, selected: string, monthly: seq<Record>, quarterly: seq<Record>,
                               annual: seq<Record>, localeLabel: Date -> string): (r: seq<Record>)
    ensures forall i :: 0 <= i < |r| ==> IsCountry(r[i], selected)
    ensures forall x :: x in r <==> x in SourceData(granularity, monthly, quarterly, annual, localeLabel) && IsCountry(x, selected)
  {
    Filter(SourceData(granularity, monthly, quarterly, annual, localeLabel), CountryOf(selected))
  }

  /** The trend rows are an order-preserving selection: splitting the source splits the result. */
  lemma TrendRowsKeepOrder(selected: string, xs: seq<Record>, ys: seq<Record>)
    ensures Filter(xs + ys, CountryOf(selected)) == Filter(xs, CountryOf(selected)) + Filter(ys, CountryOf(selected))
  {
    FilterAppend(xs, ys, CountryOf(selected));
  }

  /**
   * `displayTrendData`: INR shows the rows as they are; otherwise the money
   * columns are divided whenever present, so a null becomes 0.
   */
  method DisplayTrendData(items: seq<Record>, currency: string) returns (out: seq<Record>)
    ensures currency == "INR" ==> out == items
    ensures |out| == |items|
    ensures forall i :: 0 <= i < |items| ==> out[i].Keys == items[i].Keys
    ensures currency != "INR" ==>
              forall i, k :: 0 <= i < |items| && k in items[i] ==>
                out[i][k] == (if k in TrendCurrencyKeys then DivRate(items[i][k]) else items[i][k])
  {
    if currency == "INR" {
      return items;
    }
    assert Distinct(TrendCurrencyKeys);
    out := [];
    var i := 0;
    while i < |items|
      invariant 0 <= i <= |items|
      invariant |out| == i
      invariant forall j :: 0 <= j < i ==> out[j].Keys == items[j].Keys
      invariant forall j, k :: 0 <= j < i && k in items[j] ==>
                  out[j][k] == (if k in TrendCurrencyKeys then DivRate(items[j][k]) else items[j][k])
    {
      var newItem := DivideKeys(items[i], TrendCurrencyKeys, true);
      out := out + [newItem];
      i := i + 1;
    }
  }

  function CountryField(r: Record): Option<Value>
  {
    Get(r, "country")
  }

  /** `[...new Set(regionalLiveKpis.map(item => item.country))]`; an undefined country is a member like any other. */
  function Countries(live: seq<Record>): (r: seq<Option<Value>>)
    ensures Distinct(r)
    ensures forall c :: c in r <==> c in KeysOf(live, CountryField)
  {
    Dedup(KeysOf(live, CountryField))
  }

  /** Each country of the records is listed exactly once, in order of first appearance. */
  lemma CountriesOnce(live: seq<Record>)
    ensures Distinct(Countries(live))
    ensures forall c :: c in Countries(live) <==> exists i :: 0 <= i < |live| && CountryField(live[i]) == c
    ensures forall i, j :: 0 <= i < j < |Countries(live)| ==>
              FirstIndex(KeysOf(live, CountryField), Countries(live)[i]) < FirstIndex(KeysOf(live, CountryField), Countries(live)[j])
  {
    var ks := KeysOf(live, CountryField);
    forall c | c in Countries(live)
      ensures exists i :: 0 <= i < |live| && CountryField(live[i]) == c
    {
      var i :| 0 <= i < |ks| && ks[i] == c;
    }
    forall c | exists i :: 0 <= i < |live| && CountryField(live[i]) == c
      ensures c in Countries(live)
    {
      var i :| 0 <= i < |live| && CountryField(live[i]) == c;
      assert ks[i] == c;
    }
    forall i, j | 0 <= i < j < |Countries(live)|
      ensures FirstIndex(ks, Countries(live)[i]) < FirstIndex(ks, Countries(live)[j])
    {
      DedupFirstAppearance(ks, i, j);
    }
  }
}
