# Revenue dashboard core, modelled in Dafny

This project models the data logic of a React KPI dashboard. It does not
model the charts and cards. It covers:
- how monthly revenue records are rolled up into fiscal-year, fiscal-quarter,
  calendar-quarter and year buckets;
- how KPIs and trend series are converted from INR to USD at the fixed rate
  84.5 (written 169/2);
- how database metrics are merged into the static monthly series;
- how uploaded revenue and financial files are normalised and stored by
  delete-then-create and upsert;
- the small string and list rules of the pages:
  - URL to page name;
  - the at-risk table's sort and badges;
  - the customer-health filters;
  - the alert filter and counts;
  - the region toggle;
  - the role-based navigation;
- the state machines of the session, the sign-in form, the upload card and
  the typewriter text.

Each source file has one module. Pure JavaScript expressions are
`function`s. `useMemo` bodies that loop with `forEach` or update a copy
step by step are `method`s with loops. React state that event handlers
update is a `class` whose methods update fields.

Modelling conventions:
- **Plain objects** are `map<string, Value>`. An absent key is JavaScript's
  `undefined`.
- **Values** (`Common.Value`) are a number, `null`, a string, an ISO date
  string or `NaN`.
- **Arithmetic on values** is written out with JavaScript's coercions: a
  `null` divided by the rate is 0, and a missing value times 12 is `NaN`.
- **Dates** are (year, month, day) and read as UTC.
- **`Object.entries` key order** is modelled exactly:
  - integer-like keys such as `"2024"` come first, in ascending numeric
    order;
  - all other keys follow in insertion order (module `Grouping`).
- **Remote calls** are parameters of the methods that use them:
  `Metric.list`, `User.me`, `UploadFile` and `ExtractDataFromUploadedFile`.
- **Remote stores** are classes holding a sequence: `RevenueData` and
  `Metric`.
- **Browser local storage** is a `map<string, string>` field of the
  session class.

Modules:
- `Common`, `Lists` and `Grouping` hold the shared vocabulary:
  - option and result types, dates, JavaScript values and the rate;
  - decimal rendering, lower-casing and substring search;
  - `filter` with its order-preservation property, sums and means;
  - first-appearance deduplication, grouping, and `Object.entries` order.
- `Quarterly` models the fiscal-year and fiscal-quarter aggregation helpers.
- `Currency` holds the USD conversion loops shared by two pages.
- `Executive`, `MetricTrends` and `Regional` model the three dashboards'
  KPI and trend logic.
- `UploadParsing` and `DataUploader` model the import page.
- `Pages` models URL-to-page resolution.
- `CustomerHealth` and `AtRiskTable` model the customer-success cockpit and
  its table.
- `Alerts` models the alerts page.
- `RegionalFilter` models the region filter and the selections it reports to its parent.
- `Layout` models the navigation and sidebar.
- `Auth` and `Login` model the session and the sign-in form.
- `Typewriter` models the typing effect.

The repository's description says only non-admins are limited to the
three dashboards. The code is narrower than that, and the model follows
the code:
- a user whose role is neither `'admin'` nor `'user'` is listed on no
  navigation entry;
- such a user therefore sees an empty navigation (`Layout.OtherRoleSeesNothing`).

## Model

| member | source | states |
|---|---|---|
| Common.CalendarQuarter | src/pages/ExecutiveDashboard.jsx:234 | the calendar quarter q is 1..4 and is the one whose three months contain the date's month |
| Common.MonthAbbrev | src/pages/ExecutiveDashboard.jsx:227 | the `MMM` part of the fallback label is three letters |
| Common.DateLtTotal | src/pages/ExecutiveDashboard.jsx:148 | date order, used by the trend sort, is total and asymmetric |
| Common.DivRate | src/pages/ExecutiveDashboard.jsx:188 | `v / 84.5` in JavaScript: a number is divided, `null` gives 0, NaN, an ISO date string or other text gives NaN (numeric strings are not coerced) |
| Common.TimesJs | src/pages/ExecutiveDashboard.jsx:144 | `v * 12` in JavaScript: a number is multiplied, `null` gives 0, `undefined` NaN (numeric strings are not coerced) |
| Common.DivRateInverse | src/pages/ExecutiveDashboard.jsx:188 | dividing x*84.5 by the rate gives back x (84500 INR is 1000 USD) |
| Common.DigitChar | src/utils/quarterly.js:35 | a digit's character has that digit's value |
| Common.NatToString | src/utils/quarterly.js:35 | `String(n)` is a non-empty run of digits, one digit exactly for n < 10 |
| Common.NatToStringRoundTrip | src/utils/quarterly.js:35 | reading back the decimal rendering of n gives n |
| Common.NatToStringInjective | src/utils/quarterly.js:35 | distinct numbers have distinct renderings |
| Common.SliceLast2 | src/utils/quarterly.js:35 | `slice(-2)` is the last two characters (or the whole of a shorter string) and is a suffix |
| Common.TwoDigitYear | src/utils/quarterly.js:35 | the year's `slice(-2)` is two digits for years from 10 on |
| Common.LabelParts | src/utils/quarterly.js:35 | a label `Q<c> '<y>` determines its quarter character and year part, both directions |
| Common.TwoDigits | src/pages/ExecutiveDashboard.jsx:227 | date-fns `yy`: two digits whose value is the number |
| Common.FormatMonthYear | src/pages/ExecutiveDashboard.jsx:227 | `format(date, "MMM ''yy")` is 7 characters: month abbreviation, ` '`, and the year modulo 100 |
| Common.ToLower | src/pages/index.jsx:62 | `toLowerCase` keeps the length and lowers each character |
| Common.ContainsEmpty | src/pages/CustomerHealth.jsx:33 | every string includes the empty string |
| Common.ContainsIffOccurs | src/pages/CustomerHealth.jsx:33 | `includes` holds iff some slice of the string equals the term |
| Lists.Filter | src/pages/CustomerHealth.jsx:29 | `filter` keeps exactly the elements that pass, no more than the input |
| Lists.FilterCounts | src/components/regional/RegionalFilter.jsx:24 | `filter` keeps every copy of an element that passes and no copy of one that fails |
| Lists.FilterAppend | src/pages/RegionalDashboard.jsx:110 | filtering a concatenation is concatenating the filtered parts |
| Lists.FilterAll | src/pages/CustomerHealth.jsx:32-34 | a filter every element passes returns the whole list |
| Lists.FilterNone | src/pages/CustomerHealth.jsx:29 | a filter no element passes returns the empty list |
| Lists.FilterKeepsOrder | src/pages/AlertsInsights.jsx:49-54 | what `filter` keeps embeds into the input at strictly increasing positions |
| Lists.FilterEmbedding | src/pages/AlertsInsights.jsx:49-54 | the positions kept, as a witness of the embedding |
| Lists.SumAppend | src/pages/CustomerHealth.jsx:30 | the `reduce` sum of a concatenation is the sum of the parts |
| Lists.SumBounds | src/utils/quarterly.js:41 | n values between lo and hi sum to between n*lo and n*hi |
| Lists.Mean | src/utils/quarterly.js:44 | the mean times the count is the sum |
| Lists.MeanBounds | src/pages/ExecutiveDashboard.jsx:251 | the mean lies between any bounds of the values |
| Grouping.Dedup | src/pages/RegionalDashboard.jsx:138 | `[...new Set(xs)]` has the same elements as xs, without repetition |
| Grouping.DedupFirstAppearance | src/pages/RegionalDashboard.jsx:138 | deduplicated elements keep the order of their first appearance |
| Grouping.DedupOfDistinct | src/pages/RegionalDashboard.jsx:138 | a list without repetitions deduplicates to itself |
| Grouping.GroupOf | src/components/dashboards/MetricTrendsSection.jsx:51-54 | a key's group holds exactly the elements with that key, and is no longer than the input |
| Grouping.GroupNonEmpty | src/components/dashboards/MetricTrendsSection.jsx:51-54 | a key that occurs has a non-empty group |
| Grouping.GroupEmpty | src/components/dashboards/MetricTrendsSection.jsx:51-54 | a key that does not occur has the empty group |
| Grouping.GroupLast | src/components/dashboards/MetricTrendsSection.jsx:60 | a group's last element is the last input element with that key |
| Grouping.GroupsPartition | src/utils/quarterly.js:36-37 | the groups' sizes add up to the input's length: each element is in exactly one group |
| Grouping.GroupBy | src/pages/ExecutiveDashboard.jsx:230-242 | the grouping `reduce`: keys in first-appearance order, each group as `GroupOf` |
| Grouping.AscendingKeys | src/components/dashboards/MetricTrendsSection.jsx:58 | integer-like keys come out strictly ascending with the same members |
| Grouping.AscendingKeysIgnoreInsertionOrder | src/components/dashboards/MetricTrendsSection.jsx:58 | integer-like key order depends only on which keys occur |
| Grouping.AscendingKeysIsDedupReordered | src/components/dashboards/MetricTrendsSection.jsx:58 | the ascending keys are a permutation of the first-appearance keys |
| Grouping.DistinctSameElements | src/components/dashboards/MetricTrendsSection.jsx:58 | two repetition-free lists with the same members are permutations |
| Grouping.EntriesOrderListsKeys | src/components/dashboards/MetricTrendsSection.jsx:58 | `Object.entries` lists every key once: a permutation of the inserted keys |
| Grouping.EntriesOrderOfNames | src/components/dashboards/MetricTrendsSection.jsx:58 | without integer-like keys, entries come in insertion order |
| Grouping.EntriesOrderOfIndexes | src/components/dashboards/MetricTrendsSection.jsx:58 | integer-like keys come back in strictly ascending numeric order |
| Quarterly.MrrValues | src/utils/quarterly.js:13 | each row's `accrued_mrr`, null and undefined read as 0 |
| Quarterly.ValidTargets | src/utils/quarterly.js:14 | the defined targets; empty iff every row's target is null or undefined |
| Quarterly.ValidTargetsAppend | src/utils/quarterly.js:14 | the target filter distributes over concatenation |
| Quarterly.AnnualPoint | src/utils/quarterly.js:8-21 | a fiscal year's record: its label, the MRR sum over in-window rows, and the target sum or null when no in-window row has one |
| Quarterly.AnnualAccrued | src/utils/quarterly.js:2-22 | always exactly two records, "FY 24" then "FY 25" |
| Quarterly.WindowsDisjoint | src/utils/quarterly.js:4-12 | no row lies in both fiscal-year windows |
| Quarterly.EmptyWindow | src/utils/quarterly.js:13-15 | an empty window gives MRR 0 (never null) and target null |
| Quarterly.AnnualIgnoresOutside | src/utils/quarterly.js:9-12 | a row outside both windows, or undated, changes neither record |
| Quarterly.AnnualAddsRow | src/utils/quarterly.js:9-13 | a row inside FY 24 adds its MRR (null as 0) to FY 24 and leaves FY 25 unchanged |
| Quarterly.FiscalQuarter | src/utils/quarterly.js:31-34 | Apr-Jun is 1, Jul-Sep 2, Oct-Dec 3, Jan-Mar 4, each both ways |
| Quarterly.QuarterYear | src/utils/quarterly.js:34 | the label year is always the calendar year: the `year + 1` branch is never taken |
| Quarterly.QuarterLabel | src/utils/quarterly.js:35 | `Q<n> '<yy>` of the date; an invalid date gives `Q4 'aN` |
| Quarterly.QuarterLabelShape | src/utils/quarterly.js:35 | a label is 6 characters: `Q`, a digit 1..4, space, apostrophe, two year digits |
| Quarterly.SameQuarterLabel | src/utils/quarterly.js:29-37 | two dated rows share a group iff same fiscal quarter and same two-digit year |
| Quarterly.QuarterPoint | src/utils/quarterly.js:41-49 | a quarter's MRR times its size is the MRR sum (nulls as 0); its target is the mean of the defined targets, null iff none |
| Quarterly.QuarterlyAccrued | src/utils/quarterly.js:24-51 | one record per quarter label, in first-appearance order, each computed from that label's group |
| Quarterly.QuarterGroupsPartition | src/utils/quarterly.js:36-37 | every row lands in exactly one quarter group |
| Quarterly.NullMrrCountsInDenominator | src/utils/quarterly.js:41 | a group of null-MRR rows averages 0: null rows count in the denominator |
| Quarterly.QuarterMrrBounds | src/utils/quarterly.js:41 | a quarter's MRR lies between the smallest and largest monthly value |
| Currency.TargetKeys | src/pages/ExecutiveDashboard.jsx:191 | `${key}_target` of each key, in order |
| Currency.MoneyKeysDistinct | src/pages/ExecutiveDashboard.jsx:184-195 | the four money keys and four target keys are eight distinct names |
| Currency.ConvertCurrencyKeys | src/pages/ExecutiveDashboard.jsx:183-196 | the USD loop (shared with src/pages/RegionalDashboard.jsx:67-80): money keys divided when present (and non-null, unless nulls become 0), targets when present and non-null, all else kept |
| Currency.DivideKeys | src/pages/ExecutiveDashboard.jsx:285-289 | the listed keys that are present (and non-null unless nulls are converted) are divided; no key is added or removed |
| Currency.SetKeys | src/pages/ExecutiveDashboard.jsx:205-207 | the listed keys get the value, every other key is kept |
| Executive.DisplayKpis | src/pages/ExecutiveDashboard.jsx:179-220 | USD divides the present non-null money keys and targets; contracted figures read 'Integration In Progress' and client targets are null whatever the currency; every other key unchanged |
| Executive.DisplayTrendData | src/pages/ExecutiveDashboard.jsx:278-292 | INR is the identity; otherwise same length and keys, only non-null `live_arr`, `contracted_arr`, `target_arr` divided |
| Executive.MonthlyLabel | src/pages/ExecutiveDashboard.jsx:227 | `label` is a truthy `monthLabel`, else the formatted date; it throws iff neither exists |
| Executive.MonthlyLabels | src/pages/ExecutiveDashboard.jsx:274 | the labelled series row for row, failing iff some row cannot be labelled |
| Executive.DefinedValues | src/pages/ExecutiveDashboard.jsx:249 | the defined values of a metric; empty iff the metric is null or missing in every row |
| Executive.Nums | src/pages/ExecutiveDashboard.jsx:251 | the numbers of numeric values, in order |
| Executive.AverageOf | src/pages/ExecutiveDashboard.jsx:251 | `reduce((sum, val) => sum + val, 0) / length`: the mean when every value is a number, NaN when a text is among them |
| Executive.Averaged | src/pages/ExecutiveDashboard.jsx:248-257 | the mean of the metric's defined values when they are all numbers, NaN when a text is among them, and the last row's own value when none is defined |
| Executive.WithAverages | src/pages/ExecutiveDashboard.jsx:259-263 | averaged keys are overwritten when an average exists, all other keys kept |
| Executive.Bucket | src/pages/ExecutiveDashboard.jsx:244-264 | a bucket is labelled by its key, its non-averaged fields are the last row's, and each of the four averaged metrics is that metric's `Averaged` value over the bucket |
| Executive.BucketAverage | src/pages/ExecutiveDashboard.jsx:248-251 | each averaged ratio of a bucket is the mean of the numbers recorded for it in the bucket's rows (nulls and missing values left out), NaN if a text is among them |
| Executive.BucketAverageBounds | src/pages/ExecutiveDashboard.jsx:248-257 | an averaged ratio lies between the smallest and largest value in the bucket |
| Executive.DefinedValuesBounded | src/pages/ExecutiveDashboard.jsx:249 | bounds on the rows carry over to the defined values |
| Executive.BucketAllNullFallsBack | src/pages/ExecutiveDashboard.jsx:253-254 | a metric null or missing in every row keeps the last row's value |
| Executive.PeriodKey | src/pages/ExecutiveDashboard.jsx:233-237 | a quarterly key is never integer-like, so quarterly buckets keep insertion order |
| Executive.DatabaseAggregated | src/pages/ExecutiveDashboard.jsx:223-264 | no rows give []; monthly labels the rows; otherwise one bucket per key, in `Object.entries` order |
| Executive.QuarterlyBucketsInFirstAppearanceOrder | src/pages/ExecutiveDashboard.jsx:244 | quarterly buckets follow first appearance of their keys |
| Executive.AnnualBucketsAscending | src/pages/ExecutiveDashboard.jsx:244 | annual buckets come out in strictly ascending year order |
| Executive.StaticAggregated | src/pages/ExecutiveDashboard.jsx:266-274 | quarterly and annual return the static arrays; any other granularity gives exactly `MonthlyLabels` of the monthly series: same length, every row labelled |
| Executive.AggregatedTrendData | src/pages/ExecutiveDashboard.jsx:222-276 | the `USE_DATABASE` switch picks the static or database branch |
| Executive.FindLatestMetric | src/pages/ExecutiveDashboard.jsx:93-94 | the first GLOBAL metric of that name, none iff there is no such metric |
| Executive.OverrideWith | src/pages/ExecutiveDashboard.jsx:105-107 | a present metric sets its key; absent, the static value stays; no other key changes |
| Executive.OverrideKpisKeepsOthers | src/pages/ExecutiveDashboard.jsx:91-107 | every key other than the four metrics and `live_arr` keeps the static fallback |
| Executive.OverrideKpisMrr | src/pages/ExecutiveDashboard.jsx:101-104 | with an MRR metric, `live_mrr` is its value and `live_arr` twelve times it; without, both are static |
| Executive.OverrideKpis | src/pages/ExecutiveDashboard.jsx:91-107 | the KPI cards start from the static record: every key other than `live_mrr`, `live_arr` and the three other metric keys reads as it did there |
| Executive.MrrOverride | src/pages/ExecutiveDashboard.jsx:101-104 | with an MRR metric `live_mrr` is its value and `live_arr` twelve times it; without one the record is unchanged; no other key changes |
| Executive.OverrideKpisEbitda | src/pages/ExecutiveDashboard.jsx:105 | EBITDA % is the first GLOBAL value, or the static value |
| Executive.ChartKey | src/pages/ExecutiveDashboard.jsx:123-132 | the key map never targets `date`, `monthLabel` or `live_arr` |
| Executive.MonthEntries | src/pages/ExecutiveDashboard.jsx:112-138 | one entry per `YYYY-MM` month of the metrics, each with a date and a month label |
| Executive.ApplyMetric | src/pages/ExecutiveDashboard.jsx:122-135 | recording a metric keeps a month entry a month entry, with its date and month label untouched |
| Executive.MonthEntryColumns | src/pages/ExecutiveDashboard.jsx:122-136 | each column of a month is the last GLOBAL metric of that month mapped to it, absent if none |
| Executive.LastChartValueNone | src/pages/ExecutiveDashboard.jsx:122-136 | a month with no metric has no value in any column |
| Executive.MonthEntryDate | src/pages/ExecutiveDashboard.jsx:114-119 | a month's date and label come from its first metric |
| Executive.FirstOfMonthPrefix | src/pages/ExecutiveDashboard.jsx:114 | a later metric does not change a month's first metric |
| Executive.FirstOfMonthIsLast | src/pages/ExecutiveDashboard.jsx:114-119 | a month's only metric is its first |
| Executive.NonChartMetricAddsNoColumn | src/pages/ExecutiveDashboard.jsx:122-136 | a non-GLOBAL or unmapped metric of an existing month changes nothing |
| Executive.WithLiveArr | src/pages/ExecutiveDashboard.jsx:143-145 | `live_arr = live_mrr * 12` whenever `live_mrr` is defined, otherwise the row is unchanged |
| Executive.SortByDate | src/pages/ExecutiveDashboard.jsx:166 | the in-place sort leaves the rows ascending by date and a permutation of the input |
| Executive.SortedCopy | src/pages/ExecutiveDashboard.jsx:148 | a sorted copy: ascending by date, same rows |
| Executive.MonthValues | src/pages/ExecutiveDashboard.jsx:141-147 | every month entry, with ARR derived, carries a date, so it can be sorted |
| Executive.MonthStep | src/pages/ExecutiveDashboard.jsx:112-138 | one step of the `reduce` adds or updates exactly the metric's month |
| Executive.MonthOrderMembership | src/pages/ExecutiveDashboard.jsx:141 | a month has an entry iff it is in the `Object.values` order |
| Executive.MonthlyTrendFromMetrics | src/pages/ExecutiveDashboard.jsx:112-148 | the processed series is the month entries, sorted by date |
| Executive.FindSameMonth | src/pages/ExecutiveDashboard.jsx:154 | the first database row of the same month, none iff no row shares it |
| Executive.Overlay | src/pages/ExecutiveDashboard.jsx:153-156 | with no match the static row as is; with a match database fields override; the month is kept |
| Executive.Overlaid | src/pages/ExecutiveDashboard.jsx:153-156 | the static series overlaid row for row |
| Executive.CombineTrend | src/pages/ExecutiveDashboard.jsx:153-166 | the merged series sorted by date, a permutation of overlay-then-append |
| Executive.AppendNewMonths | src/pages/ExecutiveDashboard.jsx:159-163 | the series being built stays a prefix of the result, which grows by at most one row per database row, each appended row taken from the database rows |
| Executive.AppendNewMonthsCovers | src/pages/ExecutiveDashboard.jsx:159-163 | after appending, every database month is present |
| Executive.AppendNewMonthsDistinct | src/pages/ExecutiveDashboard.jsx:159-163 | only missing months are appended, so distinct months stay distinct |
| Executive.OverlaidKeepsMonths | src/pages/ExecutiveDashboard.jsx:153-156 | overlaying keeps each static row's month |
| Executive.MergedSeries | src/pages/ExecutiveDashboard.jsx:153-163 | the merged series has each month once, starts with the overlaid static rows and covers every database month |
| Executive.LoadFromDatabase | src/pages/ExecutiveDashboard.jsx:82-177 | the KPIs are `OverrideKpis` of the metrics; the trend is sorted by date and is a permutation of the static series overlaid with, then extended by, the processed month series (itself a sorted permutation of `MonthValues`); with no metrics, the static KPIs and series |
| MetricTrends.WithMonthLabel | src/components/dashboards/MetricTrendsSection.jsx:37 | `label` is `monthLabel` (absent when undefined), every other field kept |
| MetricTrends.TrendKey | src/components/dashboards/MetricTrendsSection.jsx:43-49 | a quarterly key is never integer-like, so quarterly buckets keep insertion order |
| MetricTrends.LastWithLabel | src/components/dashboards/MetricTrendsSection.jsx:60-64 | the last row of the group with only `label` replaced by the key |
| MetricTrends.AggregateData | src/components/dashboards/MetricTrendsSection.jsx:35-66 | monthly relabels row for row; otherwise one last-row bucket per key in `Object.entries` order |
| MetricTrends.BucketIsLastRow | src/components/dashboards/MetricTrendsSection.jsx:58-65 | a bucket's fields are the last input row with its key |
| MetricTrends.BucketCount | src/components/dashboards/MetricTrendsSection.jsx:40-58 | the bucket keys are exactly the distinct keys of the rows, once each |
| MetricTrends.SameQuarterKey | src/components/dashboards/MetricTrendsSection.jsx:43-46 | two dated rows share a quarterly bucket iff same calendar quarter and two-digit year |
| MetricTrends.QuarterlyFirstAppearance | src/components/dashboards/MetricTrendsSection.jsx:58 | quarterly buckets follow first appearance |
| MetricTrends.YearlyAscending | src/components/dashboards/MetricTrendsSection.jsx:58 | year buckets come out in strictly ascending year order |
| MetricTrends.ChartRow | src/components/dashboards/MetricTrendsSection.jsx:93-97 | `live_arr` and `contracted_arr` are 12 times the MRRs (NaN when `live_mrr` is undefined); other fields kept |
| MetricTrends.ProcessedChartData | src/components/dashboards/MetricTrendsSection.jsx:93-97 | one chart row per bucket, in order |
| Regional.SelectKpis | src/pages/RegionalDashboard.jsx:63 | a record of the selected country, or `{}` iff none matches |
| Regional.SelectKpisFirst | src/pages/RegionalDashboard.jsx:63 | the record chosen is the first of that country |
| Regional.RegionalKpis | src/pages/RegionalDashboard.jsx:62-96 | USD divides present money keys (null becomes 0) and present non-null targets; five fields read 'Integration In Progress' |
| Regional.LocaleLabelled | src/pages/RegionalDashboard.jsx:105-108 | the monthly label is the locale label of the date, other fields kept |
| Regional.SourceData | src/pages/RegionalDashboard.jsx:99-109 | quarterly and annual are the static arrays; otherwise the labelled monthly series |
| Regional.AggregatedTrendData | src/pages/RegionalDashboard.jsx:98-111 | exactly the source rows whose country is the selected one |
| Regional.TrendRowsKeepOrder | src/pages/RegionalDashboard.jsx:110 | the country filter respects the order of the source |
| Regional.DisplayTrendData | src/pages/RegionalDashboard.jsx:113-127 | INR is the identity; otherwise same length and keys, the present ARR columns divided (null becomes 0) |
| Regional.CountriesOnce | src/pages/RegionalDashboard.jsx:138 | each country is listed once, exactly the countries present, in first-appearance order |
| Regional.Countries | src/pages/RegionalDashboard.jsx:138 | no country twice, and a country is listed iff some record carries it |
| UploadParsing.StripCommas | src/pages/DataUploader.jsx:187 | `replace(/,/g, '')` has no comma and keeps every other character |
| UploadParsing.CommaIgnored | src/pages/DataUploader.jsx:187 | a comma anywhere reads as if absent |
| UploadParsing.StripCommasNone | src/pages/DataUploader.jsx:187 | text without commas is unchanged |
| UploadParsing.DigitRun | src/pages/DataUploader.jsx:187 | the leading run of digits, stopping at the first non-digit |
| UploadParsing.DigitRunOf | src/pages/DataUploader.jsx:187 | digits followed by a non-digit are read to their end |
| UploadParsing.Pow10 | src/pages/DataUploader.jsx:187 | a power of ten is positive |
| UploadParsing.ParseFloat | src/pages/DataUploader.jsx:187 | `parseFloat` gives a number or NaN |
| UploadParsing.ParseFloatDigits | src/pages/DataUploader.jsx:187 | digits followed by text that cannot continue a number read as the digits' value |
| UploadParsing.ParseFloatOfNat | src/pages/DataUploader.jsx:187 | `parseFloat(String(n))` is n |
| UploadParsing.ParseFloatStopsAtComma | src/pages/DataUploader.jsx:187 | unstripped, "1,234" reads as 1 |
| UploadParsing.GroupedNumber | src/pages/DataUploader.jsx:187 | stripped, "1,234" reads as 1234 |
| UploadParsing.JsParseFloat | src/pages/DataUploader.jsx:273 | `parseFloat(v)` of a number is itself, otherwise a number or NaN |
| UploadParsing.NumberField | src/pages/DataUploader.jsx:187-188 | a missing or falsy value is 0; a non-empty string is parsed with commas removed |
| UploadParsing.PeriodOf | src/pages/DataUploader.jsx:185 | no date gives no period; a date gives the first of its month |
| UploadParsing.NormaliseRow | src/pages/DataUploader.jsx:181-191 | a row fails iff its date cannot be formatted, is dropped iff it has no date, and otherwise carries the normalised fields |
| UploadParsing.ParsedRows | src/pages/DataUploader.jsx:181-191 | no more rows than input, every period the first of a month |
| UploadParsing.ParsedRowsError | src/pages/DataUploader.jsx:181-191 | the rows fail iff some row fails |
| UploadParsing.ParsedRowsUndated | src/pages/DataUploader.jsx:191 | a file whose rows all lack a date parses to no rows |
| UploadParsing.ParseRevenue | src/pages/DataUploader.jsx:172-193 | the extraction and parse outcome: never an empty success; no rows gives 'No valid data rows found in the file.'; a failed extraction gives its details or the fallback text |
| UploadParsing.LatestPeriod | src/pages/DataUploader.jsx:216 | the latest period is some row's period and no row's period is later |
| UploadParsing.MrrsOf | src/pages/DataUploader.jsx:218 | each row's MRR, falsy as 0 |
| UploadParsing.LatestMetric | src/pages/DataUploader.jsx:219 | exactly the fields metric_name 'MRR', the latest month's start, the value and currency 'INR' |
| UploadParsing.LatestMonthMrr | src/pages/DataUploader.jsx:216-218 | when every row falls in the latest period's month, the total is the sum of all rows' MRR |
| UploadParsing.EarlierRowIgnored | src/pages/DataUploader.jsx:216-218 | a row of an earlier month changes neither the latest period nor the total |
| UploadParsing.SameMonthRowAdds | src/pages/DataUploader.jsx:216-218 | a row of the latest period adds its MRR to the total |
| UploadParsing.LaterRowTakesOver | src/pages/DataUploader.jsx:216 | a row with a later period becomes the latest |
| DataUploader.RowsOf | src/pages/DataUploader.jsx:196-198 | the stored rows without their ids, in order |
| DataUploader.DeleteFirst | src/pages/DataUploader.jsx:197 | deleting the first record's id leaves exactly the rest |
| DataUploader.KeptUnique | src/pages/DataUploader.jsx:197 | deleting keeps ids unique |
| DataUploader.RevenueStore.constructor | src/pages/DataUploader.jsx:196 | the store starts empty |
| DataUploader.RevenueStore.Delete | src/pages/DataUploader.jsx:197 | removes the records with that id and nothing else |
| DataUploader.RevenueStore.BulkCreate | src/pages/DataUploader.jsx:198 | appends the rows, in order |
| DataUploader.RevenueStore.ReplaceAll | src/pages/DataUploader.jsx:196-198 | afterwards the store holds exactly the new rows |
| DataUploader.FirstMatch | src/pages/DataUploader.jsx:220-221 | the first record the query matches, none iff none does |
| DataUploader.Upserted | src/pages/DataUploader.jsx:220-222 | a match is updated in place (same count, same next id); otherwise one record is appended |
| DataUploader.UpsertedFinds | src/pages/DataUploader.jsx:220-222 | after an upsert the query finds a record with all the new fields; no other record changes |
| DataUploader.UpsertIdempotent | src/pages/DataUploader.jsx:277-287 | upserting twice equals upserting once: no duplicate is created |
| DataUploader.OnlyNamesChangedTrans | src/pages/DataUploader.jsx:260-290 | touching only some metric names composes over steps |
| DataUploader.UpsertedOnlyName | src/pages/DataUploader.jsx:277-287 | an upsert keyed on a name touches only metrics of that name |
| DataUploader.MetricStore.constructor | src/pages/DataUploader.jsx:220 | the store starts empty |
| DataUploader.MetricStore.Upsert | src/pages/DataUploader.jsx:277-287 | the new state is the upsert of the old |
| DataUploader.MetricStore.ProcessRevenueMetrics | src/pages/DataUploader.jsx:214-223 | empty data is a no-op; otherwise the MRR metric of the latest month is upserted |
| DataUploader.MetricStore.ProcessFinancialMetrics | src/pages/DataUploader.jsx:259-291 | the rows' upserts in order, stopping at the first row whose period is not a date |
| DataUploader.MrrQuery | src/pages/DataUploader.jsx:220 | the MRR metric's key (name 'MRR', latest period), which the metric matches |
| DataUploader.RevenueMetricStored | src/pages/DataUploader.jsx:214-222 | afterwards MRR of the latest month is found, with the month's total and currency 'INR' |
| DataUploader.FinancialPeriod | src/pages/DataUploader.jsx:261 | defined iff the period is an ISO date, and then the start of its month |
| DataUploader.FinancialQuery | src/pages/DataUploader.jsx:277-281 | keyed by metric name, period and region code |
| DataUploader.FinancialRecord | src/pages/DataUploader.jsx:270-275 | carries the query's fields and `parseFloat` of the value |
| DataUploader.RowUpsertsOnlyFinancial | src/pages/DataUploader.jsx:262-289 | one row's upserts touch only 'EBITDA %', 'GM %' and 'Headcount' metrics |
| DataUploader.FinancialOnlyItsMetrics | src/pages/DataUploader.jsx:259-291 | a financial upload touches only those three metrics |
| DataUploader.EmptyRowSkipped | src/pages/DataUploader.jsx:269 | a row with all three values null, undefined or '' upserts nothing |
| DataUploader.FinancialStopsAtBadPeriod | src/pages/DataUploader.jsx:260-261 | a row with an invalid period throws, and later rows are not processed |
| DataUploader.Uploader.constructor | src/pages/DataUploader.jsx:68-71 | no file, no name, IDLE, empty message |
| DataUploader.Uploader.ChooseFile | src/pages/DataUploader.jsx:73-94 | a chosen or dropped file resets status to IDLE and clears the message; no file changes nothing |
| DataUploader.Uploader.UploadClick | src/pages/DataUploader.jsx:96-103 | without a file: ERROR and 'Please select a file first.'; with one the handler runs |
| DataUploader.Uploader.SetState | src/pages/DataUploader.jsx:70-71 | sets status and message, keeps the file |
| DataUploader.UploaderPage.constructor | src/pages/DataUploader.jsx:163 | the page starts not busy |
| DataUploader.UploaderPage.HandleRevenueUpload | src/pages/DataUploader.jsx:166-212 | success: the store holds exactly the parsed rows, MRR is upserted, SUCCESS with the count; error: both stores untouched, ERROR with the message; never left busy |
| DataUploader.UploaderPage.HandleFinancialsUpload | src/pages/DataUploader.jsx:227-257 | a failed extraction stores nothing and shows ERROR with 'An error occurred: ' and its reason; an empty file stores nothing; otherwise the rows' upserts, SUCCESS, or ERROR at a bad period; never left busy |
| DataUploader.BusyDisablesButton | src/pages/DataUploader.jsx:150 | while UPLOADING or PROCESSING the button is disabled |
| DataUploader.Uploader.ButtonDisabled | src/pages/DataUploader.jsx:150 | no file or a disabled page disables the button; an enabled button has a file and a status other than UPLOADING and PROCESSING |
| DataUploader.IsSet | src/pages/DataUploader.jsx:269 | `value !== null && value !== undefined && value !== ''`: a missing value, null or the empty string is not set; a number is |
| DataUploader.FinancialExtractionError | src/pages/DataUploader.jsx:237-239 | the upload's own error, else the integration's details when non-empty, else 'Failed to extract financial data. Check file format.' |
| Pages.StripTrailingSlash | src/pages/index.jsx:54-56 | exactly one trailing '/' is removed; otherwise the URL is unchanged |
| Pages.LastSegment | src/pages/index.jsx:57 | `split('/').pop()` is no longer than the URL and holds no '/'; a URL without '/' is its own last segment |
| Pages.LastSegmentIsSlashFreeSuffix | src/pages/index.jsx:57 | `split('/').pop()` is a slash-free suffix, the whole URL or preceded by '/' |
| Pages.BeforeQuery | src/pages/index.jsx:58-60 | the part before the first '?': a prefix with no '?', ending at a '?' or the end |
| Pages.PageSegment | src/pages/index.jsx:54-60 | the segment compared has neither '/' nor '?' |
| Pages.FindPage | src/pages/index.jsx:62 | the first page name whose lower case is the target, none iff no name matches |
| Pages.CurrentPage | src/pages/index.jsx:53-64 | always a page name; a name matches case-insensitively iff one exists; otherwise the first, 'ExecutiveDashboard' |
| Pages.LowerPageNamesDistinct | src/pages/index.jsx:27-49 | no two page names match the same segment |
| Pages.NameResolvesInAnyCase | src/pages/index.jsx:62 | a path ending in any casing of a page name resolves to that page |
| Pages.SegmentAfterSlash | src/pages/index.jsx:57 | the last segment after a '/' is what follows it |
| Pages.PageNamesInitials | src/pages/index.jsx:27-49 | every page name starts with one of E, R, A, D, P, C, H |
| Pages.SegmentOfPath | src/pages/index.jsx:54-60 | the segment of `/seg` is seg |
| Pages.NoPageMatches | src/pages/index.jsx:63 | an unmatched segment (empty or starting with N) resolves to 'ExecutiveDashboard' |
| Pages.NoNameStartsWithN | src/pages/index.jsx:62 | no page name matches such a segment |
| Pages.RootResolvesToDefault | src/pages/index.jsx:63 | '/' resolves to 'ExecutiveDashboard' |
| Pages.TrailingSlashIgnored | src/pages/index.jsx:54-56 | a URL and the URL with one more '/' resolve alike |
| Pages.SecondTrailingSlashNotIgnored | src/pages/index.jsx:54-57 | only one slash is stripped: a URL ending in '//' resolves to the default |
| Pages.QueryIgnored | src/pages/index.jsx:58-60 | a query after the last segment does not change the page |
| Pages.QueryExtendsLastSegment | src/pages/index.jsx:57 | the query stays inside the last segment |
| Pages.LastSegmentAppend | src/pages/index.jsx:57 | slash-free text appended extends the last segment |
| Pages.BeforeQueryAppend | src/pages/index.jsx:58-60 | text after a '?' is dropped; the `includes` guard changes nothing |
| CustomerHealth.AtRiskAccounts | src/pages/CustomerHealth.jsx:29 | exactly the accounts with health score below 70, in order |
| CustomerHealth.Mrrs | src/pages/CustomerHealth.jsx:30 | each account's MRR, in order |
| CustomerHealth.AtRiskMrrIsWeightedSum | src/pages/CustomerHealth.jsx:30 | at-risk MRR is the sum over all accounts of MRR counted only when at risk |
| CustomerHealth.AtRiskMrr | src/pages/CustomerHealth.jsx:29-30 | with no account below 70 the at-risk MRR is 0 |
| CustomerHealth.RiskWeightedMrrBounds | src/pages/CustomerHealth.jsx:30 | for non-negative MRRs, the risk-weighted sum is between 0 and the total MRR |
| CustomerHealth.AtRiskMrrBounds | src/pages/CustomerHealth.jsx:30 | for non-negative MRRs, at-risk MRR is between 0 and the total MRR |
| CustomerHealth.SearchAccounts | src/pages/CustomerHealth.jsx:32-34 | exactly the accounts whose name contains the term, ignoring case, in order |
| CustomerHealth.EmptySearchKeepsAll | src/pages/CustomerHealth.jsx:32-34 | an empty term keeps every account |
| CustomerHealth.SearchIgnoresTermCase | src/pages/CustomerHealth.jsx:32-34 | terms equal up to case give the same result |
| CustomerHealth.PageCards | src/pages/CustomerHealth.jsx:65-67 | 'Total Accounts' is the account count, and the at-risk count never exceeds it |
| CustomerHealth.AtRiskCardCounts | src/pages/CustomerHealth.jsx:67 | 'Accounts at Risk' is the count of accounts below 70 |
| CustomerHealth.CountAtRisk | src/pages/CustomerHealth.jsx:67 | the at-risk count is at most the number of accounts, and 0 iff no account is below 70 |
| AtRiskTable.StrLtIrreflexive | src/components/csm/AtRiskAccountsTable.jsx:19 | string `<` is irreflexive |
| AtRiskTable.StrLtTransitive | src/components/csm/AtRiskAccountsTable.jsx:19 | string `<` is transitive |
| AtRiskTable.StrLtTotal | src/components/csm/AtRiskAccountsTable.jsx:19-22 | of two distinct strings one is smaller |
| AtRiskTable.KeyLtStrict | src/components/csm/AtRiskAccountsTable.jsx:19-22 | comparing on a column is a strict order |
| AtRiskTable.KeyNotLtTransitive | src/components/csm/AtRiskAccountsTable.jsx:19-22 | "not smaller" is transitive |
| AtRiskTable.CompareConsistent | src/components/csm/AtRiskAccountsTable.jsx:18-26 | the comparator is antisymmetric and transitive, as `sort` needs |
| AtRiskTable.Compare | src/components/csm/AtRiskAccountsTable.jsx:18-26 | -1, 0 or 1; 0 iff neither key is smaller; negative iff the first sorts before the second in the chosen direction |
| AtRiskTable.SortedMeansMonotone | src/components/csm/AtRiskAccountsTable.jsx:18-26 | sorted ascending is non-decreasing on the key, descending non-increasing |
| AtRiskTable.SortAccounts | src/components/csm/AtRiskAccountsTable.jsx:15-29 | sorting a copy gives a sorted permutation of the accounts |
| AtRiskTable.InsertionSort | src/components/csm/AtRiskAccountsTable.jsx:18-26 | the in-place sort leaves a sorted permutation |
| AtRiskTable.InsertLast | src/components/csm/AtRiskAccountsTable.jsx:18-26 | inserting one element extends the sorted prefix by one |
| AtRiskTable.SwapStep | src/components/csm/AtRiskAccountsTable.jsx:18-26 | a swap moves the inserted element down and keeps the rest ordered |
| AtRiskTable.InsertionDone | src/components/csm/AtRiskAccountsTable.jsx:18-26 | when the element is in place the prefix is sorted |
| AtRiskTable.Toggled | src/components/csm/AtRiskAccountsTable.jsx:31-37 | the new key is the requested one; descending iff it was that key ascending |
| AtRiskTable.ToggleTwiceFlips | src/components/csm/AtRiskAccountsTable.jsx:31-37 | requesting the same key twice flips the direction |
| AtRiskTable.AccountsTable.constructor | src/components/csm/AtRiskAccountsTable.jsx:13 | the initial sort is health score ascending |
| AtRiskTable.AccountsTable.RequestSort | src/components/csm/AtRiskAccountsTable.jsx:31-37 | the sort becomes the toggled one |
| AtRiskTable.AccountsTable.SortedAccounts | src/components/csm/AtRiskAccountsTable.jsx:15-29 | a sorted permutation under the current sort |
| AtRiskTable.HealthBadge | src/components/csm/AtRiskAccountsTable.jsx:45-49 | emerald iff score at least 70, amber iff 50 to below 70, red iff below 50 |
| AtRiskTable.BadgeClasses | src/components/csm/AtRiskAccountsTable.jsx:45-49 | the class string names the badge's colour family right after `bg-` |
| AtRiskTable.BadgeClassesDistinct | src/components/csm/AtRiskAccountsTable.jsx:45-49 | two badges get the same classes iff they are the same badge |
| AtRiskTable.BadgeMonotone | src/components/csm/AtRiskAccountsTable.jsx:45-49 | a higher score never gets a worse badge |
| AtRiskTable.AtRiskIffNotEmerald | src/components/csm/AtRiskAccountsTable.jsx:46 | an account is at risk iff its badge is not emerald |
| AtRiskTable.RiskReasonLabels | src/components/csm/AtRiskAccountsTable.jsx:102-104 | no reasons give no labels; otherwise one label per reason, in order |
| AtRiskTable.RiskReasonLabelFallback | src/components/csm/AtRiskAccountsTable.jsx:51-57 | a mapped reason shows its (different) label; an unmapped one shows itself |
| AtRiskTable.RiskReasonLabel | src/components/csm/AtRiskAccountsTable.jsx:51-57 | `riskReasonText[reason] \|\| reason`: either the reason itself or its mapped label; empty only for an empty reason |
| Alerts.FilteredAlerts | src/pages/AlertsInsights.jsx:49-54 | exactly the alerts passing both severity and search, in order |
| Alerts.Shown | src/pages/AlertsInsights.jsx:49-54 | an alert is shown iff it matches severity and search; a shown alert has a title or description and the selected severity, or the selection is 'all' |
| Alerts.EmptySearchShowsTitled | src/pages/AlertsInsights.jsx:51-52 | with 'all' and an empty term an alert is shown iff it has a title or description |
| Alerts.UntitledNeverShown | src/pages/AlertsInsights.jsx:51-52 | an alert with neither field is never shown |
| Alerts.SeverityNarrows | src/pages/AlertsInsights.jsx:50 | a severity selection shows a subset of 'all', all of that exact severity |
| Alerts.SeverityCountIsCount | src/pages/AlertsInsights.jsx:151 | the card count is the number of alerts of that exact severity |
| Alerts.SeverityCount | src/pages/AlertsInsights.jsx:151 | at most the number of alerts, and 0 iff no alert has that exact severity |
| Alerts.CardCountsDisjoint | src/pages/AlertsInsights.jsx:151-179 | the Critical, High and Medium counts add up to at most the number of alerts |
| Alerts.SelectedSeverityMatchesCard | src/pages/AlertsInsights.jsx:49-54 | for titled alerts, selecting a severity with no search shows as many as its card counts |
| Alerts.SeverityColor | src/pages/AlertsInsights.jsx:56-64 | the slate classes iff the severity is Low, missing or unknown; Critical, High and Medium have their own |
| Alerts.SeverityIcon | src/pages/AlertsInsights.jsx:66-74 | the slate bell iff the severity is missing or unknown; an alert triangle iff Critical or High |
| Alerts.FilterSameOn | src/pages/AlertsInsights.jsx:49-54 | filters that agree on every element give the same result |
| Alerts.SeverityFallback | src/pages/AlertsInsights.jsx:56-74 | unknown or missing severities are slate with the bell; the bell iff unknown; slate iff unknown or Low |
| RegionalFilter.InitialRegions | src/components/regional/RegionalFilter.jsx:13 | the active regions, or the empty list |
| RegionalFilter.ToggleRegion | src/components/regional/RegionalFilter.jsx:21-27 | a present code is removed everywhere, the rest in order; an absent code is appended |
| RegionalFilter.ToggleTwiceRestores | src/components/regional/RegionalFilter.jsx:22-26 | toggling an absent code twice restores the list |
| RegionalFilter.EmbeddedDistinct | src/components/regional/RegionalFilter.jsx:24 | an ordered selection of a repetition-free list is repetition-free |
| RegionalFilter.ToggleKeepsDistinct | src/components/regional/RegionalFilter.jsx:22-26 | toggling never introduces a duplicate |
| RegionalFilter.RegionFilter.constructor | src/components/regional/RegionalFilter.jsx:13-19 | the selection starts as the initial regions, and the mount effect reports it to `onFilterChange` |
| RegionalFilter.RegionFilter.HandleRegionToggle | src/components/regional/RegionalFilter.jsx:15-27 | the selection becomes the toggled one, stays duplicate-free, and is reported to `onFilterChange` |
| RegionalFilter.RegionFilter.ClearFilters | src/components/regional/RegionalFilter.jsx:15-31 | the selection is empty and the empty list is reported to `onFilterChange` |
| RegionalFilter.RegionFilter.ShowsClearAll | src/components/regional/RegionalFilter.jsx:41 | the Clear All button shows iff some region is selected |
| RegionalFilter.SelectThenClear | src/components/regional/RegionalFilter.jsx:12-31 | mounting without filters, selecting IN and clearing reports none, IN, none, in that order |
| Layout.EffectiveRole | src/pages/Layout.jsx:144 | `user?.role \|\| 'user'`: never empty, 'user' without a user, the role when set |
| Layout.VisibleTo | src/pages/Layout.jsx:143-145 | an entry without roles is visible to every role; one with roles is visible iff it lists the role |
| Layout.FilteredNavigation | src/pages/Layout.jsx:143-145 | exactly the entries without roles or listing the role, in order |
| Layout.Titles | src/pages/Layout.jsx:46-101 | the entries' titles, in order |
| Layout.AdminSeesAll | src/pages/Layout.jsx:46-101 | 'admin' sees all six entries |
| Layout.UserSeesDashboards | src/pages/Layout.jsx:46-101 | role 'user', or no user, sees the three dashboards |
| Layout.UserFilter | src/pages/Layout.jsx:143-145 | the 'user' filter keeps the three shared entries |
| Layout.OtherRoleSeesNothing | src/pages/Layout.jsx:143-145 | any other role sees no entry |
| Layout.LayoutState.constructor | src/pages/Layout.jsx:124-125 | no user, loading |
| Layout.LayoutState.LoadUser | src/pages/Layout.jsx:132-141 | a found user is stored, a failure keeps it, loading ends |
| Layout.FailedLookupShowsUserNavigation | src/pages/Layout.jsx:132-145 | a failed lookup on mount leaves the 'user' navigation |
| Layout.SidebarMrr | src/pages/Layout.jsx:306-309 | INR shows `mrr_inr`; otherwise the shown value times 84.5 is `mrr_inr` |
| Auth.AuthProvider.constructor | src/contexts/AuthContext.jsx:14-16 | signed out, loading, invariant holds |
| Auth.AuthProvider.Mount | src/contexts/AuthContext.jsx:19-26 | a truthy stored user restores the session; loading ends either way; invariant kept |
| Auth.AuthProvider.Login | src/contexts/AuthContext.jsx:28-32 | signed in as the user, and the storage holds the name |
| Auth.AuthProvider.Logout | src/contexts/AuthContext.jsx:34-38 | signed out, and the storage key removed |
| Auth.ReloadAfterLogin | src/contexts/AuthContext.jsx:19-32 | a non-empty login survives a reload; an empty name does not |
| Auth.ReloadAfterLogout | src/contexts/AuthContext.jsx:19-38 | after logout a reload is signed out |
| Auth.UseAuth | src/contexts/AuthContext.jsx:5-11 | the context when present; otherwise the error 'useAuth must be used within an AuthProvider' |
| Login.LoginForm.constructor | src/pages/Login.jsx:20 | empty fields, no error, not loading |
| Login.AcceptedCredentials | src/pages/Login.jsx:29 | accepted iff username and password are both 'admin' |
| Login.LoginForm.HandleSubmit | src/pages/Login.jsx:22-41 | admin/admin logs in as 'admin' and goes to '/dashboard'; otherwise 'Invalid username or password' and no login; loading ends |
| Login.LoginForm.HandleInputChange | src/pages/Login.jsx:43-49 | only that field changes and the error is cleared |
| Login.SignInAsAdmin | src/pages/Login.jsx:22-49 | typing admin/admin and submitting signs in and navigates |
| Login.WrongPasswordThenEdit | src/pages/Login.jsx:32-48 | a wrong password shows the error, and editing clears it |
| Typewriter.TypewriterText.constructor | src/components/ui/TypewriterText.jsx:9-11 | nothing shown, index 0, not started |
| Typewriter.TypewriterText.Start | src/components/ui/TypewriterText.jsx:13-19 | the start timer sets started, the text unchanged |
| Typewriter.TypewriterText.Tick | src/components/ui/TypewriterText.jsx:21-30 | while typing the index advances by exactly one; otherwise nothing changes; the shown text is always the prefix |
| Typewriter.TypewriterText.TypeToEnd | src/components/ui/TypewriterText.jsx:21-37 | ticking to the end shows the whole text and hides the cursor |

## Left out

- Rendering is not modelled:
  - charts, cards, badge markup and the sort icon;
  - `Intl.NumberFormat`, `toFixed` and the account-row navigation.
- FeatureAdoptionHeatmap is not modelled: it is random data.
- React scheduling is not modelled:
  - effects and timers are method calls in the order React runs them;
  - `setTimeout` delays and speeds are not modelled.
- Remote calls return what the parameters say and never hang:
  - `Metric.list`, `User.me`, `Alert.list`, `UploadFile` and `ExtractDataFromUploadedFile`;
  - the delete, create and update calls of `RevenueData` and `Metric` always succeed.
- `USE_DATABASE` and the fetched `allMetrics` are parameters. In the source they are a constant `false` and an empty list.
- `toLocaleString` month labels are a parameter function (`localeLabel`).
- Floating point is modelled as real arithmetic: money and ratios are reals and the rate is exact.
- `parseFloat` (`UploadParsing.ParseFloat`) reads the longest decimal prefix: an optional `+` or `-`, digits and an optional `.` fraction; the text after the prefix is ignored ("12abc" reads as 12), and text with no such prefix is NaN. Three parts of JavaScript's reading are not modelled:
  - an exponent is not read: "1e3" gives 1 here and 1000 in JavaScript;
  - leading whitespace gives NaN here, while JavaScript skips it;
  - "Infinity" gives NaN here.
- `parseISO`/`new Date` read only `YYYY-MM-DD` strings, taken as UTC.
- Case and strings are narrowed:
  - `toLowerCase` lowers ASCII letters only;
  - JavaScript string `<` is compared by character code.
- Account fields are typed. A missing or mixed-type `name`, `health_score` or `mrr` is not modelled.
- `riskReasonText` lookups of inherited object properties (such as `constructor`) are not modelled.
- The static fixture files are not modelled. The static series are parameters, required to be dated where a sort needs it.
- The Login `catch` branch ('Login failed. Please try again.') is not modelled: nothing in the `try` throws.
- AtRiskTable.SortAccounts: the result is sorted and a permutation, but stability for equal keys is not stated.
- Executive.AggregatedTrendData: the database branch is stated by `Executive.DatabaseAggregated`. This member states only the switch.
- Common.DivRate: a numeric string is not coerced. JavaScript computes `"100" / 84.5` as about 1.18; here every `Text` divides to NaN.
- Common.TimesJs: a numeric string is not coerced. JavaScript gives 60 for `"5" * 12` and 0 for `"" * 12`; here every `Text` gives NaN.
- Executive.AverageOf: a text among the values makes the average NaN. In JavaScript the sum becomes a string concatenation whose quotient may still be a number (`(0 + "5") / 1` is 5); that coercion is not modelled.
- Regional.DisplayTrendData: non-numeric text in a money column divides to NaN as in JavaScript, but that case is not separately stated.
- The region filter reports each selection once, on mount and after each change. A parent that passes a new `onFilterChange` function re-runs the effect and reports the same selection again; that is not modelled.
- Typewriter.TypewriterText.TypeToEnd: the text is fixed for the component's life. A text prop that changes mid-typing is not modelled.
