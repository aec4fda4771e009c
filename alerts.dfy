/**
 * The alerts page: the severity and text filter over the alert list, the
 * per-severity counts on its cards and the colour and icon of a severity.
 */
module Alerts {
  import opened Common
  import opened Lists

  /** An alert; each text field may be missing. */
  datatype Alert = Alert(id: string, title: Option<string>, description: Option<string>, severity: Option<string>)

  /** `selectedSeverity === "all" || alert.severity === selectedSeverity`. */
  predicate MatchesSeverity(a: Alert, selected: string)
  {
    selected == "all" || a.severity == Some(selected)
  }

  /** `field?.toLowerCase().includes(term.toLowerCase())`: false when the field is missing. */
  predicate FieldContains(field: Option<string>, term: string)
  {
    field.Some? && Contains(ToLower(field.value), ToLower(term))
  }

  /** The title or, failing that, the description contains the term. */
  predicate MatchesSearch(a: Alert, term: string)
  {
    FieldContains(a.title, term) || FieldContains(a.description, term)
  }

  /** The filter's test: an alert passes only with a title or description and only with the chosen severity. */
  function Shown(selected: string, term: string): (shown: Alert -> bool)
    ensures forall a :: shown(a) ==> a.title.Some? || a.description.Some?
    ensures forall a :: shown(a) ==> selected == "all" || a.severity == Some(selected)
    ensures forall a :: shown(a) <==> MatchesSeverity(a, selected) && MatchesSearch(a, term)
  {
    (a: Alert) => MatchesSeverity(a, selected) && MatchesSearch(a, term)
  }

  /** `filteredAlerts`. */
  function FilteredAlerts(alerts: seq<Alert>, selected: string, term: string): (r: seq<Alert>)
    ensures forall a :: a in r <==> a in alerts && MatchesSeverity(a, selected) && MatchesSearch(a, term)
    ensures exists idx :: Embeds(idx, r, alerts)
  {
    FilterKeepsOrder(alerts, Shown(selected, term));
    Filter(alerts, Shown(selected, term))
  }

  /**
   * With severity 'all' and an empty search the page shows exactly the
   * alerts that have a title or a description: one with neither is hidden
   * whatever is typed.
   */
  lemma EmptySearchShowsTitled(alerts: seq<Alert>, a: Alert)
    requires a in alerts
    ensures a in FilteredAlerts(alerts, "all", "") <==> a.title.Some? || a.description.Some?
  {
    if a.title.Some? {
      ContainsEmpty(ToLower(a.title.value));
    }
    if a.description.Some? {
      ContainsEmpty(ToLower(a.description.value));
    }
    assert ToLower("") == "";
  }

  /** An alert without title and description is never shown. */
  lemma UntitledNeverShown(alerts: seq<Alert>, selected: string, term: string, a: Alert)
    requires a.title.None? && a.description.None?
    ensures a !in FilteredAlerts(alerts, selected, term)
  {
  }

  /** Narrowing the severity from 'all' to one value only hides alerts. */
  lemma SeverityNarrows(alerts: seq<Alert>, selected: string, term: string)
    ensures forall a :: a in FilteredAlerts(alerts, selected, term) ==> a in FilteredAlerts(alerts, "all", term)
    ensures selected != "all" ==> forall a :: a in FilteredAlerts(alerts, selected, term) ==> a.severity == Some(selected)
  {
  }

  function HasSeverity(s: string): Alert -> bool
  {
    (a: Alert) => a.severity == Some(s)
  }

  /** `alerts.filter(a => a.severity === s).length`. */
  function SeverityCount(alerts: seq<Alert>, s: string): (c: nat)
    ensures c <= |alerts|
    ensures c == 0 <==> forall i :: 0 <= i < |alerts| ==> alerts[i].severity != Some(s)
  {
    assert (forall i :: 0 <= i < |alerts| ==> alerts[i].severity != Some(s)) <==> Filter(alerts, HasSeverity(s)) == [] by {
      var f := Filter(alerts, HasSeverity(s));
      if f != [] {
        assert f[0] in alerts;
      }
      if exists i :: 0 <= i < |alerts| && alerts[i].severity == Some(s) {
        var i :| 0 <= i < |alerts| && alerts[i].severity == Some(s);
        assert alerts[i] in f;
      }
    }
    |Filter(alerts, HasSeverity(s))|
  }

  /** Reference count: the alerts whose severity is exactly s, one by one. */
  function CountSeverity(alerts: seq<Alert>, s: string): nat
    decreases |alerts|
  {
    if alerts == [] then 0
    else CountSeverity(alerts[..|alerts| - 1], s) + (if alerts[|alerts| - 1].severity == Some(s) then 1 else 0)
  }

  /** Each card counts the alerts of exactly its severity. */
  lemma {:induction false} SeverityCountIsCount(alerts: seq<Alert>, s: string)
    ensures SeverityCount(alerts, s) == CountSeverity(alerts, s)
    decreases |alerts|
  {
    if alerts != [] {
      SeverityCountIsCount(alerts[..|alerts| - 1], s);
    }
  }

  /** The Critical, High and Medium cards count disjoint sets of alerts. */
  lemma {:induction false} CardCountsDisjoint(alerts: seq<Alert>)
    ensures SeverityCount(alerts, "Critical") + SeverityCount(alerts, "High") + SeverityCount(alerts, "Medium") <= |alerts|
    decreases |alerts|
  {
    SeverityCountIsCount(alerts, "Critical");
    SeverityCountIsCount(alerts, "High");
    SeverityCountIsCount(alerts, "Medium");
    if alerts != [] {
      var init := alerts[..|alerts| - 1];
      CardCountsDisjoint(init);
      SeverityCountIsCount(init, "Critical");
      SeverityCountIsCount(init, "High");
      SeverityCountIsCount(init, "Medium");
    }
  }

  /** With an empty search and every alert titled, the selected severity shows its card's count. */
  lemma SelectedSeverityMatchesCard(alerts: seq<Alert>, s: string)
    requires s != "all"
    requires forall i :: 0 <= i < |alerts| ==> alerts[i].title.Some?
    ensures |FilteredAlerts(alerts, s, "")| == SeverityCount(alerts, s)
  {
    forall a: Alert | a.title.Some?
      ensures Shown(s, "")(a) == HasSeverity(s)(a)
    {
      ContainsEmpty(ToLower(a.title.value));
      assert ToLower("") == "";
    }
    FilterSameOn(alerts, Shown(s, ""), HasSeverity(s));
  }

  /** Filters that agree on every element of a list select the same elements. */
  lemma {:induction false} FilterSameOn(xs: seq<Alert>, p: Alert -> bool, q: Alert -> bool)
    requires forall i :: 0 <= i < |xs| ==> p(xs[i]) == q(xs[i])
    ensures Filter(xs, p) == Filter(xs, q)
    decreases |xs|
  {
    if xs != [] {
      FilterSameOn(xs[..|xs| - 1], p, q);
    }
  }

  /** `getSeverityColor(severity)`. */
  function SeverityColor(severity: Option<string>): (colour: string)
    ensures colour == "text-slate-600 bg-slate-50 border-slate-200" <==>
              severity.None? || severity.value !in KnownSeverities - {"Low"}
  {
    match severity
    case Some("Critical") => "text-red-600 bg-red-50 border-red-200"
    case Some("High") => "text-amber-600 bg-amber-50 border-amber-200"
    case Some("Medium") => "text-blue-600 bg-blue-50 border-blue-200"
    case Some("Low") => "text-slate-600 bg-slate-50 border-slate-200"
    case _ => "text-slate-600 bg-slate-50 border-slate-200"
  }

  datatype Icon = AlertTriangleRed | AlertTriangleAmber | TrendingUpBlue | EyeSlate | BellSlate

  /** `getSeverityIcon(severity)`. */
  function SeverityIcon(severity: Option<string>): (icon: Icon)
    ensures icon == BellSlate <==> severity.None? || severity.value !in KnownSeverities
    ensures severity == Some("Critical") || severity == Some("High") <==> icon.AlertTriangleRed? || icon.AlertTriangleAmber?
  {
    match severity
    case Some("Critical") => AlertTriangleRed
    case Some("High") => AlertTriangleAmber
    case Some("Medium") => TrendingUpBlue
    case Some("Low") => EyeSlate
    case _ => BellSlate
  }

  const KnownSeverities: set<string> := {"Critical", "High", "Medium", "Low"}

  /**
   * A missing or unknown severity is drawn in slate with the bell; the
   * bell appears for nothing else, and only Low shares the slate colour.
   */
  lemma SeverityFallback(severity: Option<string>)
    ensures severity.None? || severity.value !in KnownSeverities ==>
              SeverityColor(severity) == "text-slate-600 bg-slate-50 border-slate-200" && SeverityIcon(severity) == BellSlate
    ensures SeverityIcon(severity) == BellSlate <==> severity.None? || severity.value !in KnownSeverities
    ensures SeverityColor(severity) == "text-slate-600 bg-slate-50 border-slate-200" <==>
              severity.None? || severity.value !in KnownSeverities - {"Low"}
  {
  }
}
