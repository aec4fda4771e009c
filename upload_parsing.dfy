/**
 * The revenue file of the data uploader, from extracted rows to stored
 * records: each row's date becomes the first day of its month, the MRR
 * and NRR strings lose their thousands separators before `parseFloat`,
 * rows without a date are dropped, and the total MRR of the latest month
 * becomes the MRR metric.
 */
module UploadParsing {
  import opened Common
  import opened Lists

  // ---------------------------------------------------------------------------
  // Numbers
  // ---------------------------------------------------------------------------

  /** `s.replace(/,/g, '')`: the characters of s other than commas, in order. */
  function StripCommas(s: string): (r: string)
    ensures ',' !in r
    ensures forall c :: c in r <==> c in s && c != ','
    ensures |r| <= |s|
  {
    if s == [] then ""
    else (if s[0] == ',' then "" else [s[0]]) + StripCommas(s[1..])
  }

  /** A comma anywhere in the text is ignored: it reads as the text without it. */
  lemma {:induction false} CommaIgnored(a: string, b: string)
    ensures StripCommas(a + "," + b) == StripCommas(a + b)
    decreases |a|
  {
    if a == [] {
      assert a + "," + b == "," + b;
      assert ("," + b)[1..] == b;
      assert a + b == b;
    } else {
      assert (a + "," + b)[0] == a[0] && (a + "," + b)[1..] == a[1..] + "," + b;
      assert (a + b)[0] == a[0] && (a + b)[1..] == a[1..] + b;
      CommaIgnored(a[1..], b);
    }
  }

  /** Text without commas is left as it is. */
  lemma {:induction false} StripCommasNone(s: string)
    requires ',' !in s
    ensures StripCommas(s) == s
    decreases |s|
  {
    if s != [] {
      assert s[0] != ',';
      StripCommasNone(s[1..]);
      assert s == [s[0]] + s[1..];
    }
  }

  /** The length of the run of decimal digits that starts s. */
  function DigitRun(s: string): (n: nat)
    ensures n <= |s|
    ensures forall i :: 0 <= i < n ==> IsDigit(s[i])
    ensures n < |s| ==> !IsDigit(s[n])
  {
    if s == [] || !IsDigit(s[0]) then 0 else 1 + DigitRun(s[1..])
  }

  /** A run of digits followed by a non-digit (or nothing) is read to its end. */
  lemma {:induction false} DigitRunOf(s: string, rest: string)
    requires forall i :: 0 <= i < |s| ==> IsDigit(s[i])
    requires rest == [] || !IsDigit(rest[0])
    ensures DigitRun(s + rest) == |s|
    decreases |s|
  {
    if s != [] {
      assert (s + rest)[1..] == s[1..] + rest;
      DigitRunOf(s[1..], rest);
    } else {
      assert s + rest == rest;
    }
  }

  function Pow10(n: nat): (r: nat)
    ensures r >= 1
  {
    if n == 0 then 1 else 10 * Pow10(n - 1)
  }

  /** The digits of the fraction after the integer digits `body[..n]`, empty when no '.' follows them. */
  function FractionDigits(body: string, n: nat): (frac: string)
    requires n <= |body|
    ensures forall i :: 0 <= i < |frac| ==> IsDigit(frac[i])
  {
    if n < |body| && body[n] == '.' then body[n + 1..][..DigitRun(body[n + 1..])] else ""
  }

  /** The value of fraction digits: `0.d1d2...`. */
  function FractionValue(frac: string): real
    requires forall i :: 0 <= i < |frac| ==> IsDigit(frac[i])
  {
    if frac == "" then 0.0 else DigitsValue(frac) as real / Pow10(|frac|) as real
  }

  /** The unsigned number that starts `body`, if it starts with one. */
  function Magnitude(body: string): Option<real>
  {
    var n := DigitRun(body);
    var frac := FractionDigits(body, n);
    if n == 0 && frac == "" then None
    else Some(DigitsValue(body[..n]) as real + FractionValue(frac))
  }

  /**
   * `parseFloat(s)` on decimal text: an optional sign, digits, and an
   * optional fraction, read as far as they go; text that does not start
   * with a number is NaN.
   */
  function ParseFloat(s: string): (r: Value)
    ensures r.Num? || r == NaN
  {
    var neg := |s| > 0 && s[0] == '-';
    var body := if |s| > 0 && (s[0] == '-' || s[0] == '+') then s[1..] else s;
    match Magnitude(body)
    case None => NaN
    case Some(x) => Num(if neg then -x else x)
  }

  /** Digits followed by anything that cannot continue a number read as the digits' value. */
  lemma ParseFloatDigits(s: string, rest: string)
    requires s != [] && forall i :: 0 <= i < |s| ==> IsDigit(s[i])
    requires rest == [] || (!IsDigit(rest[0]) && rest[0] != '.')
    ensures ParseFloat(s + rest) == Num(DigitsValue(s) as real)
  {
    var t := s + rest;
    assert t[0] == s[0];
    assert !(t[0] == '-' || t[0] == '+');
    DigitRunOf(s, rest);
    assert t[..|s|] == s;
    assert FractionDigits(t, |s|) == "" by {
      if |s| < |t| {
        assert t[|s|] == rest[0];
      }
    }
    assert Magnitude(t) == Some(DigitsValue(s) as real);
  }

  /** Reading the decimal rendering of a whole number gives that number. */
  lemma ParseFloatOfNat(n: nat)
    ensures ParseFloat(NatToString(n)) == Num(n as real)
  {
    ParseFloatDigits(NatToString(n), "");
    assert NatToString(n) + "" == NatToString(n);
    NatToStringRoundTrip(n);
  }

  /** Unstripped, a grouped number stops at its first comma: "1,234" reads as 1. */
  lemma ParseFloatStopsAtComma(a: nat, b: string)
    ensures ParseFloat(NatToString(a) + "," + b) == Num(a as real)
  {
    var digits, rest := NatToString(a), "," + b;
    assert digits + "," + b == digits + rest;
    assert ParseFloat(digits + rest) == Num(DigitsValue(digits) as real) by {
      assert rest[0] == ',';
      ParseFloatDigits(digits, rest);
    }
    NatToStringRoundTrip(a);
  }

  /** Stripped, the digit groups join up: "1,234" reads as 1234. */
  lemma GroupedNumber(a: nat, b: nat)
    ensures ParseFloat(StripCommas(NatToString(a) + "," + NatToString(b))) == ParseFloat(NatToString(a) + NatToString(b))
    ensures ParseFloat(NatToString(a) + NatToString(b)) == Num(DigitsValue(NatToString(a) + NatToString(b)) as real)
  {
    var s := NatToString(a) + NatToString(b);
    assert StripCommas(NatToString(a) + "," + NatToString(b)) == s by {
      CommaIgnored(NatToString(a), NatToString(b));
      assert ',' !in s by {
        assert forall i :: 0 <= i < |s| ==> IsDigit(s[i]);
      }
      StripCommasNone(s);
    }
    ParseFloatDigits(s, "");
    assert s + "" == s;
  }

  /** `parseFloat(v)` of a value: a number is itself, an ISO date string reads as its year, `null` as the text "null". */
  function JsParseFloat(v: Value): (r: Value)
    ensures r.Num? || r == NaN
    ensures v.Num? ==> r == v
  {
    match v
    case Text(s) => ParseFloat(s)
    case Num(x) => Num(x)
    case IsoDate(d) => Num(d.year as real)
    case _ => NaN
  }

  /**
   * `v ? parseFloat(String(v).replace(/,/g, '')) : 0`: a missing or falsy
   * value is 0; text is read without its commas.
   */
  function NumberField(v: Option<Value>): (r: Value)
    ensures r.Num? || r == NaN
    ensures v.None? || !Truthy(v.value) ==> r == Num(0.0)
    ensures v.Some? && v.value.Text? && v.value.s != "" ==> r == ParseFloat(StripCommas(v.value.s))
  {
    if v.None? || !Truthy(v.value) then Num(0.0)
    else match v.value
      case Text(s) => ParseFloat(StripCommas(s))
      case Num(x) => Num(x)
      case IsoDate(d) => Num(d.year as real)
      case _ => NaN
  }

  // ---------------------------------------------------------------------------
  // Rows
  // ---------------------------------------------------------------------------

  /** A normalised revenue row, as stored. */
  datatype RevenueRow = RevenueRow(lleCode: Option<Value>, clientName: Option<Value>, product: Option<Value>,
                                   period: Date, uom: Option<Value>, mrr: Value, nrr: Value,
                                   country: Option<Value>, region: Option<Value>)

  /**
   * `row['yyyy_mm_dd'] ? format(startOfMonth(parseISO(...)), 'yyyy-MM-dd') : null`:
   * a falsy date gives no period, an ISO date the first day of its month,
   * and any other value makes `format` throw.
   */
  function PeriodOf(v: Option<Value>): (r: Result<Option<Date>>)
    ensures v.None? || !Truthy(v.value) ==> r == Ok(None)
    ensures v.Some? && v.value.IsoDate? ==> r == Ok(Some(StartOfMonth(v.value.date)))
    ensures r.Ok? && r.value.Some? ==> r.value.value.day == 1
  {
    if v.None? || !Truthy(v.value) then Ok(None)
    else if v.value.IsoDate? then Ok(Some(StartOfMonth(v.value.date)))
    else Err("Invalid time value")
  }

  /** One extracted row normalised; `None` when the row has no date and is filtered out. */
  function NormaliseRow(row: Record): (r: Result<Option<RevenueRow>>)
    ensures r.Err? <==> PeriodOf(Get(row, "yyyy_mm_dd")).Err?
    ensures r.Ok? ==> (r.value.None? <==> PeriodOf(Get(row, "yyyy_mm_dd")).value.None?)
    ensures r.Ok? && r.value.Some? ==>
              Some(r.value.value.period) == PeriodOf(Get(row, "yyyy_mm_dd")).value
              && r.value.value.mrr == NumberField(Get(row, "MRR")) && r.value.value.nrr == NumberField(Get(row, "NRR"))
  {
    match PeriodOf(Get(row, "yyyy_mm_dd"))
    case Err(e) => Err(e)
    case Ok(None) => Ok(None)
    case Ok(Some(p)) =>
      Ok(Some(RevenueRow(Get(row, "LLE-code"), Get(row, "Name of the Client"), Get(row, "Product"), p,
                         Get(row, "UoM"), NumberField(Get(row, "MRR")), NumberField(Get(row, "NRR")),
                         Get(row, "Country"), Get(row, "Region"))))
  }

  /**
   * The `map` then `filter(row => row.period)` over the extracted rows: any
   * row whose date cannot be formatted throws; otherwise the dated rows,
   * normalised, in order.
   */
  function ParsedRows(records: seq<Record>): (r: Result<seq<RevenueRow>>)
    ensures r.Ok? ==> |r.value| <= |records|
    ensures r.Ok? ==> forall i :: 0 <= i < |r.value| ==> r.value[i].period.day == 1
  {
    if records == [] then Ok([])
    else
      var init, last := records[..|records| - 1], records[|records| - 1];
      assert forall i :: 0 <= i < |init| ==> init[i] == records[i];
      match ParsedRows(init)
      case Err(e) => Err(e)
      case Ok(rows) =>
        match NormaliseRow(last)
        case Err(e) => Err(e)
        case Ok(None) => Ok(rows)
        case Ok(Some(row)) => Ok(rows + [row])
  }

  /** The rows fail to parse exactly when one of them has a date that cannot be formatted. */
  lemma {:induction false} ParsedRowsError(records: seq<Record>)
    ensures ParsedRows(records).Err? <==> exists i :: 0 <= i < |records| && NormaliseRow(records[i]).Err?
    decreases |records|
  {
    if records != [] {
      var init, last := records[..|records| - 1], records[|records| - 1];
      ParsedRowsError(init);
      assert forall i :: 0 <= i < |init| ==> init[i] == records[i];
      if ParsedRows(init).Err? {
        var i :| 0 <= i < |init| && NormaliseRow(init[i]).Err?;
        assert NormaliseRow(records[i]).Err?;
      }
    }
  }

  /** A file none of whose rows has a date parses to no rows at all. */
  lemma {:induction false} ParsedRowsUndated(records: seq<Record>)
    requires forall i :: 0 <= i < |records| ==> NormaliseRow(records[i]) == Ok(None)
    ensures ParsedRows(records) == Ok([])
    decreases |records|
  {
    if records != [] {
      var init := records[..|records| - 1];
      assert forall i :: 0 <= i < |init| ==> init[i] == records[i];
      ParsedRowsUndated(init);
    }
  }

  /** What the extraction integration returned: its status, its rows if any, and its error details. */
  datatype Extraction = Extraction(status: string, records: Option<seq<Record>>, details: string)

  /** The upload and the extraction succeeded and returned rows. */
  predicate Extracted(extraction: Result<Extraction>)
  {
    extraction.Ok? && extraction.value.status == "success" && extraction.value.records.Some?
  }

  /**
   * The checks of `handleRevenueUpload` up to storage: a failed upload or
   * extraction (its message, or the details, or the default text), a row
   * whose date cannot be formatted, or no dated row at all is an error;
   * otherwise the normalised rows.
   */
  function ParseRevenue(extraction: Result<Extraction>): (r: Result<seq<RevenueRow>>)
    ensures r.Ok? ==> r.value != []
    ensures Extracted(extraction) && ParsedRows(extraction.value.records.value) == Ok([]) ==>
              r == Err("No valid data rows found in the file.")
    ensures Extracted(extraction) && ParsedRows(extraction.value.records.value).Err? ==>
              r == ParsedRows(extraction.value.records.value)
    ensures Extracted(extraction) && ParsedRows(extraction.value.records.value).Ok?
            && ParsedRows(extraction.value.records.value).value != [] ==>
              r == ParsedRows(extraction.value.records.value)
    ensures extraction.Ok? && (extraction.value.status != "success" || extraction.value.records.None?) ==>
              r == Err(if extraction.value.details != "" then extraction.value.details else "Failed to extract data. Check file format.")
  {
    match extraction
    case Err(e) => Err(e)
    case Ok(x) =>
      if x.status != "success" || x.records.None? then
        Err(if x.details != "" then x.details else "Failed to extract data. Check file format.")
      else
        match ParsedRows(x.records.value)
        case Err(e) => Err(e)
        case Ok(rows) => if rows == [] then Err("No valid data rows found in the file.") else Ok(rows)
  }

  // ---------------------------------------------------------------------------
  // The latest-month MRR metric
  // ---------------------------------------------------------------------------

  /** The `reduce` that keeps the later period (`>`), starting from the first row's. */
  function LatestPeriod(data: seq<RevenueRow>): (d: Date)
    requires data != []
    ensures exists i :: 0 <= i < |data| && data[i].period == d
    ensures forall i :: 0 <= i < |data| ==> DateLe(data[i].period, d)
  {
    if |data| == 1 then data[0].period
    else
      var init, last := data[..|data| - 1], data[|data| - 1];
      var m := LatestPeriod(init);
      assert forall i :: 0 <= i < |init| ==> init[i] == data[i];
      DateLtTotal(m, last.period);
      if DateLt(m, last.period) then last.period else m
  }

  /** `item.mrr || 0`: NaN, like 0, counts as 0. */
  function MrrOrZero(r: RevenueRow): real
  {
    if r.mrr.Num? then r.mrr.n else 0.0
  }

  function MrrsOf(rows: seq<RevenueRow>): (r: seq<real>)
    ensures |r| == |rows| && forall i :: 0 <= i < |rows| ==> r[i] == MrrOrZero(rows[i])
  {
    seq(|rows|, i requires 0 <= i < |rows| => MrrOrZero(rows[i]))
  }

  function InMonth(mk: (nat, int)): RevenueRow -> bool
  {
    (r: RevenueRow) => MonthKey(r.period) == mk
  }

  /** The total MRR of the rows whose `yyyy-MM` is that of the latest period. */
  function LatestMonthMrr(data: seq<RevenueRow>): (total: real)
    requires data != []
    ensures (forall i :: 0 <= i < |data| ==> MonthKey(data[i].period) == MonthKey(data[0].period)) ==>
              total == Sum(MrrsOf(data))
  {
    assert (forall i :: 0 <= i < |data| ==> MonthKey(data[i].period) == MonthKey(data[0].period)) ==>
             Filter(data, InMonth(MonthKey(LatestPeriod(data)))) == data by {
      if forall i :: 0 <= i < |data| ==> MonthKey(data[i].period) == MonthKey(data[0].period) {
        var j :| 0 <= j < |data| && data[j].period == LatestPeriod(data);
        FilterAll(data, InMonth(MonthKey(LatestPeriod(data))));
      }
    }
    Sum(MrrsOf(Filter(data, InMonth(MonthKey(LatestPeriod(data))))))
  }

  /** The metric `processAndStoreRevenueMetrics` upserts: MRR of the latest month, in INR. */
  function LatestMetric(data: seq<RevenueRow>): (m: Record)
    requires data != []
    ensures m.Keys == {"metric_name", "period", "value", "currency"}
    ensures m["metric_name"] == Text("MRR") && m["currency"] == Text("INR")
    ensures m["period"] == IsoDate(StartOfMonth(LatestPeriod(data)))
  {
    map["metric_name" := Text("MRR"), "period" := IsoDate(StartOfMonth(LatestPeriod(data))),
        "value" := Num(LatestMonthMrr(data)), "currency" := Text("INR")]
  }

  /** A row of an earlier month than the latest changes neither the latest period nor the total. */
  lemma EarlierRowIgnored(data: seq<RevenueRow>, r: RevenueRow)
    requires data != []
    requires DateLt(r.period, LatestPeriod(data)) && MonthKey(r.period) != MonthKey(LatestPeriod(data))
    ensures LatestPeriod(data + [r]) == LatestPeriod(data)
    ensures LatestMonthMrr(data + [r]) == LatestMonthMrr(data)
  {
    var d := data + [r];
    var p := InMonth(MonthKey(LatestPeriod(data)));
    assert LatestPeriod(d) == LatestPeriod(data) by {
      assert d[..|d| - 1] == data;
      DateLtTotal(r.period, LatestPeriod(data));
    }
    assert Filter(d, p) == Filter(data, p) by {
      FilterAppend(data, [r], p);
      assert Filter([r], p) == [] by {
        assert [r][..0] == [];
      }
    }
  }

  lemma SumMrrsSnoc(rows: seq<RevenueRow>, r: RevenueRow)
    ensures Sum(MrrsOf(rows + [r])) == Sum(MrrsOf(rows)) + MrrOrZero(r)
  {
    assert MrrsOf(rows + [r]) == MrrsOf(rows) + [MrrOrZero(r)];
    SumAppend(MrrsOf(rows), [MrrOrZero(r)]);
    assert Sum([MrrOrZero(r)]) == MrrOrZero(r) by {
      assert [MrrOrZero(r)][..0] == [];
    }
  }

  /** A row of the latest month adds its MRR to the total. */
  lemma SameMonthRowAdds(data: seq<RevenueRow>, r: RevenueRow)
    requires data != []
    requires r.period == LatestPeriod(data)
    ensures LatestPeriod(data + [r]) == LatestPeriod(data)
    ensures LatestMonthMrr(data + [r]) == LatestMonthMrr(data) + MrrOrZero(r)
  {
    var d := data + [r];
    assert LatestPeriod(d) == LatestPeriod(data) by {
      assert d[..|d| - 1] == data;
    }
    var p := InMonth(MonthKey(LatestPeriod(data)));
    assert Filter(d, p) == Filter(data, p) + [r] by {
      FilterAppend(data, [r], p);
      assert Filter([r], p) == [r] by {
        assert [r][..0] == [];
      }
    }
    SumMrrsSnoc(Filter(data, p), r);
  }

  /** A row of a later period starts a new latest month. */
  lemma LaterRowTakesOver(data: seq<RevenueRow>, r: RevenueRow)
    requires data != []
    requires DateLt(LatestPeriod(data), r.period)
    ensures LatestPeriod(data + [r]) == r.period
  {
    var d := data + [r];
    assert d[..|d| - 1] == data;
  }
}
