/**
 * The data uploader's effects on the stores: the revenue table replaced
 * wholesale by the parsed rows, the MRR metric of the latest month and the
 * monthly financial metrics upserted, and the status of the upload card.
 * The remote entity stores are in-memory sequences of records with ids.
 */
module DataUploader {
  import opened Common
  import opened Lists
  import opened UploadParsing

  // ---------------------------------------------------------------------------
  // The revenue table
  // ---------------------------------------------------------------------------

  datatype StoredRow = StoredRow(id: nat, row: RevenueRow)

  predicate UniqueIds(rs: seq<StoredRow>)
  {
    forall i, j :: 0 <= i < j < |rs| ==> rs[i].id != rs[j].id
  }

  function OtherId(id: nat): StoredRow -> bool
  {
    (r: StoredRow) => r.id != id
  }

  function RowsOf(rs: seq<StoredRow>): (r: seq<RevenueRow>)
    ensures |r| == |rs| && forall i :: 0 <= i < |rs| ==> r[i] == rs[i].row
  {
    seq(|rs|, i requires 0 <= i < |rs| => rs[i].row)
  }

  /** Deleting the id of the first record of a list with unique ids leaves the rest. */
  lemma DeleteFirst(rs: seq<StoredRow>)
    requires rs != [] && UniqueIds(rs)
    ensures Filter(rs, OtherId(rs[0].id)) == rs[1..]
  {
    var p, head, tail := OtherId(rs[0].id), [rs[0]], rs[1..];
    assert Filter(head, p) == [] by {
      assert head[..0] == [];
    }
    assert Filter(tail, p) == tail by {
      forall i | 0 <= i < |tail|
        ensures p(tail[i])
      {
        assert tail[i] == rs[i + 1];
      }
      FilterAll(tail, p);
    }
    assert rs == head + tail;
    FilterAppend(head, tail, p);
  }

  /** The `RevenueData` entity. */
  class RevenueStore {
    var records: seq<StoredRow>
    var nextId: nat

    ghost predicate Valid()
      reads this
    {
      UniqueIds(records) && forall i :: 0 <= i < |records| ==> records[i].id < nextId
    }

    function Rows(): seq<RevenueRow>
      reads this
    {
      RowsOf(records)
    }

    constructor ()
      ensures Valid() && records == []
    {
      records := [];
      nextId := 0;
    }

    /** `RevenueData.delete(id)`: every record with that id is removed. */
    method Delete(id: nat)
      requires Valid()
      modifies this
      ensures Valid()
      ensures records == Filter(old(records), OtherId(id)) && nextId == old(nextId)
    {
      var kept := Filter(records, OtherId(id));
      assert forall i :: 0 <= i < |kept| ==> kept[i] in records;
      assert UniqueIds(kept) by {
        KeptUnique(records, id);
      }
      records := kept;
    }

    /** `RevenueData.bulkCreate(rows)`: each row stored under a fresh id, in order. */
    method BulkCreate(rows: seq<RevenueRow>)
      requires Valid()
      modifies this
      ensures Valid()
      ensures Rows() == old(Rows()) + rows
    {
      var i := 0;
      while i < |rows|
        invariant 0 <= i <= |rows|
        invariant Valid()
        invariant Rows() == old(Rows()) + rows[..i]
      {
        assert rows[..i + 1] == rows[..i] + [rows[i]];
        records := records + [StoredRow(nextId, rows[i])];
        nextId := nextId + 1;
        i := i + 1;
      }
      assert rows[..i] == rows;
    }

    /**
     * The replacement in `handleRevenueUpload`: every record listed is
     * deleted, one by one, then the parsed rows are created; the table
     * then holds exactly the parsed rows.
     */
    method ReplaceAll(rows: seq<RevenueRow>)
      requires Valid()
      modifies this
      ensures Valid()
      ensures Rows() == rows
    {
      var oldData := records;
      var i := 0;
      while i < |oldData|
        invariant 0 <= i <= |oldData|
        invariant Valid()
        invariant records == oldData[i..]
      {
        DeleteFirst(records);
        Delete(oldData[i].id);
        i := i + 1;
      }
      BulkCreate(rows);
    }
  }

  /** Removing records keeps the ids unique. */
  lemma {:induction false} KeptUnique(rs: seq<StoredRow>, id: nat)
    requires UniqueIds(rs)
    ensures UniqueIds(Filter(rs, OtherId(id)))
    decreases |rs|
  {
    if rs != [] {
      var init, x := rs[..|rs| - 1], rs[|rs| - 1];
      KeptUnique(init, id);
      var k := Filter(init, OtherId(id));
      if x.id != id {
        forall i | 0 <= i < |k|
          ensures k[i].id != x.id
        {
          assert k[i] in init;
          var j :| 0 <= j < |init| && init[j] == k[i];
          assert rs[j] == init[j];
        }
      }
    }
  }

  // ---------------------------------------------------------------------------
  // The metric table and its upsert
  // ---------------------------------------------------------------------------

  datatype StoredMetric = StoredMetric(id: nat, fields: Record)

  /** The metric table: its records and the next fresh id. */
  datatype MetricState = MetricState(metrics: seq<StoredMetric>, nextId: nat)

  /** `Metric.filter(query)` keeps a record iff every field of the query is present with the same value. */
  predicate Matches(m: StoredMetric, query: Record)
  {
    forall k :: k in query ==> k in m.fields && m.fields[k] == query[k]
  }

  /** `existing[0]`: the first record the query matches. */
  function FirstMatch(ms: seq<StoredMetric>, query: Record): (r: Option<nat>)
    ensures r.Some? ==> r.value < |ms| && Matches(ms[r.value], query)
                        && forall j :: 0 <= j < r.value ==> !Matches(ms[j], query)
    ensures r.None? ==> forall j :: 0 <= j < |ms| ==> !Matches(ms[j], query)
  {
    if ms == [] then None
    else if Matches(ms[0], query) then Some(0)
    else
      match FirstMatch(ms[1..], query)
      case None => None
      case Some(i) => Some(i + 1)
  }

  /**
   * The upsert: the first record the query matches gets the new fields
   * (`Metric.update` merges them), and without one the record is created
   * under a fresh id.
   */
  function Upserted(s: MetricState, query: Record, rec: Record): (r: MetricState)
    ensures FirstMatch(s.metrics, query).Some? ==> |r.metrics| == |s.metrics| && r.nextId == s.nextId
    ensures FirstMatch(s.metrics, query).None? ==> r.metrics == s.metrics + [StoredMetric(s.nextId, rec)] && r.nextId == s.nextId + 1
  {
    match FirstMatch(s.metrics, query)
    case Some(i) => MetricState(s.metrics[i := StoredMetric(s.metrics[i].id, s.metrics[i].fields + rec)], s.nextId)
    case None => MetricState(s.metrics + [StoredMetric(s.nextId, rec)], s.nextId + 1)
  }

  /** The record agrees with the query on every field of the query. */
  predicate Covers(rec: Record, query: Record)
  {
    forall k :: k in query ==> k in rec && rec[k] == query[k]
  }

  /** After an upsert the query finds a record carrying all the new fields, and nothing else was touched. */
  lemma UpsertedFinds(s: MetricState, query: Record, rec: Record)
    requires Covers(rec, query)
    ensures var r := Upserted(s, query, rec);
            var i := FirstMatch(r.metrics, query);
            i.Some? && (forall k :: k in rec ==> k in r.metrics[i.value].fields && r.metrics[i.value].fields[k] == rec[k])
            && forall j :: 0 <= j < |s.metrics| && j != i.value ==> r.metrics[j] == s.metrics[j]
  {
    var r := Upserted(s, query, rec);
    match FirstMatch(s.metrics, query)
    case Some(i) =>
      assert Matches(r.metrics[i], query);
      assert forall j :: 0 <= j < i ==> r.metrics[j] == s.metrics[j];
    case None =>
      assert Matches(r.metrics[|s.metrics|], query);
      assert forall j :: 0 <= j < |s.metrics| ==> r.metrics[j] == s.metrics[j];
  }

  /** Upserting the same record twice is the same as once: no duplicate is ever created. */
  lemma UpsertIdempotent(s: MetricState, query: Record, rec: Record)
    requires Covers(rec, query)
    ensures Upserted(Upserted(s, query, rec), query, rec) == Upserted(s, query, rec)
  {
    var r := Upserted(s, query, rec);
    UpsertedFinds(s, query, rec);
    var i := FirstMatch(r.metrics, query).value;
    match FirstMatch(s.metrics, query)
    case Some(i0) =>
      assert forall j :: 0 <= j < i0 ==> r.metrics[j] == s.metrics[j];
      assert Matches(r.metrics[i0], query);
      assert i == i0;
      assert r.metrics[i].fields + rec == r.metrics[i].fields;
      assert r.metrics[i := StoredMetric(r.metrics[i].id, r.metrics[i].fields + rec)] == r.metrics;
    case None =>
      assert forall j :: 0 <= j < |s.metrics| ==> r.metrics[j] == s.metrics[j];
      assert i == |s.metrics|;
      assert rec + rec == rec;
      assert r.metrics[i := StoredMetric(r.metrics[i].id, r.metrics[i].fields + rec)] == r.metrics;
  }

  function NameOf(m: StoredMetric): Option<Value>
  {
    Get(m.fields, "metric_name")
  }

  /**
   * From a to b, only metrics whose name is one of `names` were updated,
   * their names stayed in `names`, and the metrics added all carry one.
   */
  predicate OnlyNamesChanged(a: seq<StoredMetric>, b: seq<StoredMetric>, names: set<Value>)
  {
    |a| <= |b|
    && (forall i :: 0 <= i < |a| && (NameOf(a[i]).None? || NameOf(a[i]).value !in names) ==> b[i] == a[i])
    && (forall i :: 0 <= i < |a| && NameOf(a[i]).Some? && NameOf(a[i]).value in names ==>
          NameOf(b[i]).Some? && NameOf(b[i]).value in names)
    && (forall i :: |a| <= i < |b| ==> NameOf(b[i]).Some? && NameOf(b[i]).value in names)
  }

  lemma OnlyNamesChangedTrans(a: seq<StoredMetric>, b: seq<StoredMetric>, c: seq<StoredMetric>, names: set<Value>)
    requires OnlyNamesChanged(a, b, names) && OnlyNamesChanged(b, c, names)
    ensures OnlyNamesChanged(a, c, names)
  {
  }

  /** An upsert keyed on a name in `names` changes only metrics of those names. */
  lemma UpsertedOnlyName(s: MetricState, query: Record, rec: Record, names: set<Value>)
    requires "metric_name" in query && query["metric_name"] in names && Covers(rec, query)
    ensures OnlyNamesChanged(s.metrics, Upserted(s, query, rec).metrics, names)
  {
    var r := Upserted(s, query, rec);
    match FirstMatch(s.metrics, query)
    case Some(i) =>
      assert NameOf(s.metrics[i]) == Some(query["metric_name"]);
      assert NameOf(r.metrics[i]) == Some(query["metric_name"]);
    case None =>
      assert NameOf(r.metrics[|s.metrics|]) == Some(query["metric_name"]);
  }

  /** The `Metric` entity. */
  class MetricStore {
    var metrics: seq<StoredMetric>
    var nextId: nat

    function State(): MetricState
      reads this
    {
      MetricState(metrics, nextId)
    }

    constructor ()
      ensures State() == MetricState([], 0)
    {
      metrics := [];
      nextId := 0;
    }

    /** `Metric.filter(query)`, then `Metric.update(existing[0].id, rec)` or `Metric.create(rec)`. */
    method Upsert(query: Record, rec: Record)
      modifies this
      ensures State() == Upserted(old(State()), query, rec)
    {
      var i := 0;
      while i < |metrics| && !Matches(metrics[i], query)
        invariant 0 <= i <= |metrics|
        invariant forall j :: 0 <= j < i ==> !Matches(metrics[j], query)
      {
        i := i + 1;
      }
      if i < |metrics| {
        assert FirstMatch(metrics, query) == Some(i);
        metrics := metrics[i := StoredMetric(metrics[i].id, metrics[i].fields + rec)];
      } else {
        assert FirstMatch(metrics, query) == None;
        metrics := metrics + [StoredMetric(nextId, rec)];
        nextId := nextId + 1;
      }
    }

    /**
     * `processAndStoreRevenueMetrics`: nothing for no rows; otherwise the
     * latest month's MRR upserted under (metric_name, period).
     */
    method ProcessRevenueMetrics(data: seq<RevenueRow>)
      modifies this
      ensures State() == RevenueMetricState(old(State()), data)
    {
      if |data| == 0 {
        return;
      }
      Upsert(MrrQuery(data), LatestMetric(data));
    }

    /**
     * `processAndStoreFinancialMetrics`: for each row in turn, its period
     * is formatted (an invalid one throws, leaving the earlier upserts in
     * place) and each of its three financial values that is set is
     * upserted under (metric_name, period, region_code).
     */
    method ProcessFinancialMetrics(rows: seq<Record>) returns (err: Option<string>)
      modifies this
      ensures (State(), err) == FinancialState(old(State()), rows)
    {
      var i := 0;
      while i < |rows|
        invariant 0 <= i <= |rows|
        invariant FinancialState(State(), rows[i..]) == FinancialState(old(State()), rows)
      {
        var row := rows[i];
        assert rows[i..][1..] == rows[i + 1..];
        match FinancialPeriod(row)
        case Err(e) =>
          return Some(e);
        case Ok(period) =>
          var j := 0;
          ghost var start := State();
          while j < |FinancialFields|
            invariant 0 <= j <= |FinancialFields|
            invariant RowUpserts(State(), row, period, FinancialFields[j..]) == RowUpserts(start, row, period, FinancialFields)
          {
            var (name, field) := FinancialFields[j];
            assert FinancialFields[j..][1..] == FinancialFields[j + 1..];
            if IsSet(Get(row, field)) {
              Upsert(FinancialQuery(name, period, row), FinancialRecord(name, period, row, row[field]));
            }
            j := j + 1;
          }
          i := i + 1;
      }
      return None;
    }
  }

  /** The key of the MRR metric: its name and the start of the latest month. */
  function MrrQuery(data: seq<RevenueRow>): (q: Record)
    requires data != []
    ensures Covers(LatestMetric(data), q) && "metric_name" in q && q["metric_name"] == Text("MRR")
  {
    map["metric_name" := Text("MRR"), "period" := IsoDate(StartOfMonth(LatestPeriod(data)))]
  }

  function RevenueMetricState(s: MetricState, data: seq<RevenueRow>): MetricState
  {
    if data == [] then s else Upserted(s, MrrQuery(data), LatestMetric(data))
  }

  /** After the revenue metrics step, looking up MRR for the latest month finds the new total. */
  lemma RevenueMetricStored(s: MetricState, data: seq<RevenueRow>)
    requires data != []
    ensures var r := RevenueMetricState(s, data);
            var i := FirstMatch(r.metrics, MrrQuery(data));
            i.Some? && Get(r.metrics[i.value].fields, "value") == Some(Num(LatestMonthMrr(data)))
            && Get(r.metrics[i.value].fields, "currency") == Some(Text("INR"))
  {
    UpsertedFinds(s, MrrQuery(data), LatestMetric(data));
  }

  /** The financial metrics: display name and row field. */
  const FinancialFields: seq<(string, string)> := [("EBITDA %", "ebitda_percent"), ("GM %", "gm_percent"), ("Headcount", "headcount")]

  const FinancialNames: set<Value> := {Text("EBITDA %"), Text("GM %"), Text("Headcount")}

  /** `metric.value !== null && metric.value !== undefined && metric.value !== ''`. */
  predicate IsSet(v: Option<Value>): (filled: bool)
    ensures filled ==> v.Some? && v.value != Null
    ensures v == None || v == Some(Null) || v == Some(Text("")) ==> !filled
    ensures v.Some? && v.value.Num? ==> filled
  {
    v.Some? && v.value != Null && v.value != Text("")
  }

  /** `format(startOfMonth(parseISO(row.period)), 'yyyy-MM-dd')`: throws unless the period is an ISO date. */
  function FinancialPeriod(row: Record): (r: Result<Date>)
    ensures r.Ok? <==> Get(row, "period").Some? && Get(row, "period").value.IsoDate?
    ensures r.Ok? ==> r.value == StartOfMonth(row["period"].date)
  {
    if "period" in row && row["period"].IsoDate? then Ok(StartOfMonth(row["period"].date))
    else Err("Invalid time value")
  }

  /** The query of a financial upsert; an undefined region code is left out of it. */
  function FinancialQuery(name: string, period: Date, row: Record): (q: Record)
    ensures "metric_name" in q && q["metric_name"] == Text(name)
  {
    map["metric_name" := Text(name), "period" := IsoDate(period)]
      + (if "region_code" in row then map["region_code" := row["region_code"]] else map[])
  }

  /** The record of a financial upsert: the query's fields and `parseFloat` of the value. */
  function FinancialRecord(name: string, period: Date, row: Record, v: Value): (rec: Record)
    ensures Covers(rec, FinancialQuery(name, period, row))
    ensures Get(rec, "value") == Some(JsParseFloat(v))
  {
    FinancialQuery(name, period, row)["value" := JsParseFloat(v)]
  }

  /** The upserts of one row over the given financial fields, in order. */
  function RowUpserts(s: MetricState, row: Record, period: Date, fields: seq<(string, string)>): MetricState
    decreases |fields|
  {
    if fields == [] then s
    else
      var (name, field) := fields[0];
      var next := if IsSet(Get(row, field))
                  then Upserted(s, FinancialQuery(name, period, row), FinancialRecord(name, period, row, row[field]))
                  else s;
      RowUpserts(next, row, period, fields[1..])
  }

  /** The financial rows processed in order: the store reached, and the error that stopped it, if any. */
  function FinancialState(s: MetricState, rows: seq<Record>): (MetricState, Option<string>)
    decreases |rows|
  {
    if rows == [] then (s, None)
    else
      match FinancialPeriod(rows[0])
      case Err(e) => (s, Some(e))
      case Ok(period) => FinancialState(RowUpserts(s, rows[0], period, FinancialFields), rows[1..])
  }

  /** One row's upserts touch only metrics named 'EBITDA %', 'GM %' or 'Headcount'. */
  lemma {:induction false} RowUpsertsOnlyFinancial(s: MetricState, row: Record, period: Date, fields: seq<(string, string)>)
    requires forall i :: 0 <= i < |fields| ==> Text(fields[i].0) in FinancialNames
    ensures OnlyNamesChanged(s.metrics, RowUpserts(s, row, period, fields).metrics, FinancialNames)
    decreases |fields|
  {
    if fields != [] {
      var (name, field) := fields[0];
      var next := if IsSet(Get(row, field))
                  then Upserted(s, FinancialQuery(name, period, row), FinancialRecord(name, period, row, row[field]))
                  else s;
      if IsSet(Get(row, field)) {
        UpsertedOnlyName(s, FinancialQuery(name, period, row), FinancialRecord(name, period, row, row[field]), FinancialNames);
      }
      RowUpsertsOnlyFinancial(next, row, period, fields[1..]);
      OnlyNamesChangedTrans(s.metrics, next.metrics, RowUpserts(next, row, period, fields[1..]).metrics, FinancialNames);
    }
  }

  /**
   * A financial upload adds or updates only 'EBITDA %', 'GM %' and
   * 'Headcount' metrics: every other metric keeps its place and content.
   */
  lemma {:induction false} FinancialOnlyItsMetrics(s: MetricState, rows: seq<Record>)
    ensures OnlyNamesChanged(s.metrics, FinancialState(s, rows).0.metrics, FinancialNames)
    decreases |rows|
  {
    if rows != [] {
      match FinancialPeriod(rows[0])
      case Err(_) =>
      case Ok(period) =>
        var next := RowUpserts(s, rows[0], period, FinancialFields);
        RowUpsertsOnlyFinancial(s, rows[0], period, FinancialFields);
        FinancialOnlyItsMetrics(next, rows[1..]);
        OnlyNamesChangedTrans(s.metrics, next.metrics, FinancialState(next, rows[1..]).0.metrics, FinancialNames);
    }
  }

  /** A row whose three financial values are all null, undefined or '' upserts nothing. */
  lemma EmptyRowSkipped(s: MetricState, row: Record, period: Date)
    requires !IsSet(Get(row, "ebitda_percent")) && !IsSet(Get(row, "gm_percent")) && !IsSet(Get(row, "headcount"))
    ensures RowUpserts(s, row, period, FinancialFields) == s
  {
    assert FinancialFields[1..][1..][1..] == [];
  }

  /** A row whose period is not a date stops the upload there: the rows after it are not processed. */
  lemma {:induction false} FinancialStopsAtBadPeriod(s: MetricState, rows: seq<Record>, bad: Record, rest: seq<Record>)
    requires FinancialPeriod(bad).Err?
    ensures FinancialState(s, rows + [bad] + rest).1.Some?
    ensures FinancialState(s, rows + [bad] + rest) == FinancialState(s, rows + [bad])
    decreases |rows|
  {
    if rows == [] {
      assert rows + [bad] + rest == [bad] + rest;
      assert rows + [bad] == [bad];
    } else {
      assert (rows + [bad] + rest)[0] == rows[0];
      assert (rows + [bad] + rest)[1..] == rows[1..] + [bad] + rest;
      assert (rows + [bad])[1..] == rows[1..] + [bad];
      if FinancialPeriod(rows[0]).Ok? {
        FinancialStopsAtBadPeriod(RowUpserts(s, rows[0], FinancialPeriod(rows[0]).value, FinancialFields), rows[1..], bad, rest);
      }
    }
  }

  // ---------------------------------------------------------------------------
  // The upload card and the page's handlers
  // ---------------------------------------------------------------------------

  datatype Status = Idle | Uploading | Processing | Success | Failed

  /** A file chosen in the browser, known by its name. */
  datatype FileRef = FileRef(name: string)

  /** The `Uploader` card: the chosen file, its status and its message. */
  class Uploader {
    var file: Option<FileRef>
    var fileName: string
    var status: Status
    var message: string

    constructor ()
      ensures file == None && fileName == "" && status == Idle && message == ""
    {
      file := None;
      fileName := "";
      status := Idle;
      message := "";
    }

    /** The button's `disabled`: no file, the page is busy, or an upload is under way. */
    predicate ButtonDisabled(disabled: bool): (off: bool)
      reads this
      ensures file.None? || disabled ==> off
      ensures !off ==> file.Some? && !disabled && status != Uploading && status != Processing
    {
      file.None? || disabled || status == Uploading || status == Processing
    }

    /** `handleFileChange` and `handleDrop`: a chosen file resets the status and clears the message. */
    method ChooseFile(selected: Option<FileRef>)
      modifies this
      ensures selected.Some? ==> file == selected && fileName == selected.value.name && status == Idle && message == ""
      ensures selected.None? ==> file == old(file) && fileName == old(fileName) && status == old(status) && message == old(message)
    {
      if selected.Some? {
        file := selected;
        fileName := selected.value.name;
        status := Idle;
        message := "";
      }
    }

    /** `handleUploadClick`: without a file, an error; with one, the page's upload handler runs. */
    method UploadClick() returns (proceed: bool)
      modifies this
      ensures proceed <==> file.Some?
      ensures !proceed ==> status == Failed && message == "Please select a file first."
      ensures proceed ==> status == old(status) && message == old(message)
      ensures file == old(file) && fileName == old(fileName)
    {
      if file.None? {
        status := Failed;
        message := "Please select a file first.";
        return false;
      }
      return true;
    }

    method SetState(s: Status, m: string)
      modifies this
      ensures status == s && message == m && file == old(file) && fileName == old(fileName)
    {
      status := s;
      message := m;
    }
  }

  /** The data import page: its busy flag, over the two stores. */
  class UploaderPage {
    var isProcessing: bool

    constructor ()
      ensures !isProcessing
    {
      isProcessing := false;
    }

    /**
     * `handleRevenueUpload`: on success the revenue table holds exactly the
     * parsed rows, the latest month's MRR is upserted and the card reports
     * the row count; on any error both stores are untouched and the card
     * shows the error. The page is never left busy.
     */
    method HandleRevenueUpload(up: Uploader, rev: RevenueStore, met: MetricStore, extraction: Result<Extraction>)
      requires rev.Valid()
      modifies this, up, rev, met
      ensures !isProcessing && rev.Valid()
      ensures up.file == old(up.file) && up.fileName == old(up.fileName)
      ensures ParseRevenue(extraction).Ok? ==>
                var rows := ParseRevenue(extraction).value;
                rev.Rows() == rows && met.State() == RevenueMetricState(old(met.State()), rows)
                && up.status == Success
                && up.message == "Successfully imported and processed " + NatToString(|rows|) + " revenue records."
      ensures ParseRevenue(extraction).Err? ==>
                rev.records == old(rev.records) && met.State() == old(met.State())
                && up.status == Failed && up.message == "An error occurred: " + ParseRevenue(extraction).message
    {
      isProcessing := true;
      up.SetState(Uploading, "Uploading revenue file...");
      if extraction.Ok? {
        up.SetState(Processing, "File uploaded. Extracting atomic revenue data...");
      }
      var parsed := ParseRevenue(extraction);
      match parsed {
        case Err(e) =>
          up.SetState(Failed, "An error occurred: " + e);
        case Ok(rows) =>
          up.SetState(Processing, "Storing " + NatToString(|rows|) + " raw data records...");
          rev.ReplaceAll(rows);
          up.SetState(Processing, "Aggregating data and calculating MRR KPI...");
          met.ProcessRevenueMetrics(rows);
          up.SetState(Success, "Successfully imported and processed " + NatToString(|rows|) + " revenue records.");
      }
      isProcessing := false;
    }

    /**
     * `handleFinancialsUpload`: the extracted rows are upserted in order; a
     * failed extraction or an empty file changes nothing, while a row with
     * an invalid period stops the upload with the earlier rows' metrics
     * already stored.
     */
    method HandleFinancialsUpload(up: Uploader, met: MetricStore, extraction: Result<Extraction>)
      modifies this, up, met
      ensures !isProcessing
      ensures up.file == old(up.file) && up.fileName == old(up.fileName)
      ensures !Extracted(extraction) ==> met.State() == old(met.State()) && up.status == Failed
                                         && up.message == "An error occurred: " + FinancialExtractionError(extraction)
      ensures Extracted(extraction) && extraction.value.records.value == [] ==>
                met.State() == old(met.State()) && up.status == Failed
                && up.message == "An error occurred: No valid data rows found in the file."
      ensures Extracted(extraction) && extraction.value.records.value != [] ==>
                var rows := extraction.value.records.value;
                var (state, err) := FinancialState(old(met.State()), rows);
                met.State() == state
                && (err.None? ==> up.status == Success
                                  && up.message == "Successfully imported and processed " + NatToString(|rows|) + " financial records.")
                && (err.Some? ==> up.status == Failed && up.message == "An error occurred: " + err.value)
    {
      isProcessing := true;
      up.SetState(Uploading, "Uploading financial metrics file...");
      match extraction {
        case Err(_) =>
          up.SetState(Failed, "An error occurred: " + FinancialExtractionError(extraction));
        case Ok(x) =>
          up.SetState(Processing, "File uploaded. Extracting financial metrics...");
          if x.status != "success" || x.records.None? {
            up.SetState(Failed, "An error occurred: " + FinancialExtractionError(extraction));
          } else if |x.records.value| == 0 {
            up.SetState(Failed, "An error occurred: No valid data rows found in the file.");
          } else {
            var rows := x.records.value;
            up.SetState(Processing, "Processing " + NatToString(|rows|) + " monthly records...");
            var err := met.ProcessFinancialMetrics(rows);
            if err.Some? {
              up.SetState(Failed, "An error occurred: " + err.value);
            } else {
              up.SetState(Success, "Successfully imported and processed " + NatToString(|rows|) + " financial records.");
            }
          }
      }
      isProcessing := false;
    }
  }

  /**
   * Why a financial extraction gave no rows: the upload's own error, or the
   * integration's details, or the default text when it gave none.
   */
  function FinancialExtractionError(extraction: Result<Extraction>): (reason: string)
    requires !Extracted(extraction)
    ensures extraction.Err? ==> reason == extraction.message
    ensures extraction.Ok? && extraction.value.details != "" ==> reason == extraction.value.details
    ensures extraction.Ok? && extraction.value.details == "" ==>
              reason == "Failed to extract financial data. Check file format."
  {
    match extraction
    case Err(e) => e
    case Ok(x) => if x.details != "" then x.details else "Failed to extract financial data. Check file format."
  }

  /** While an upload is under way the button cannot start another. */
  lemma BusyDisablesButton(up: Uploader, disabled: bool)
    requires up.status == Uploading || up.status == Processing
    ensures up.ButtonDisabled(disabled)
  {
  }
}
