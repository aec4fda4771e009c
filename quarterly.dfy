/**
 * Accrued-MRR roll-ups on the April-start fiscal year: two fixed
 * fiscal-year windows that sum the monthly values, and fiscal quarters
 * that average them.
 */
module Quarterly {
  import opened Common
  import opened Lists
  import opened Grouping

  /**
   * One monthly input row. `date` is None when `new Date(row.date)` is an
   * invalid date; a None amount stands for `null` or `undefined`.
   */
  datatype MonthlyRow = MonthlyRow(date: Option<Date>, accruedMrr: Option<real>, accruedMrrTarget: Option<real>)

  /** An output record: only `label`, `accrued_mrr` and `accrued_mrr_target`. */
  datatype AccruedPoint = AccruedPoint(periodLabel: string, accruedMrr: real, accruedMrrTarget: Option<real>)

  /** `r.accrued_mrr || 0`. */
  function MrrOrZero(r: MonthlyRow): real
  {
    if r.accruedMrr.Some? then r.accruedMrr.value else 0.0
  }

  /** The accrued MRR of every row with null and undefined read as 0, in row order. */
  function MrrValues(rows: seq<MonthlyRow>): (r: seq<real>)
    ensures |r| == |rows|
    ensures forall i :: 0 <= i < |rows| ==> r[i] == MrrOrZero(rows[i])
  {
    seq(|rows|, i requires 0 <= i < |rows| => MrrOrZero(rows[i]))
  }

  /** `rows.map(r => r.accrued_mrr_target).filter(v => v !== null && v !== undefined)`. */
  function ValidTargets(rows: seq<MonthlyRow>): (r: seq<real>)
    ensures |r| <= |rows|
    ensures r == [] <==> forall i :: 0 <= i < |rows| ==> rows[i].accruedMrrTarget.None?
  {
    if rows == [] then []
    else
      var init, last := rows[..|rows| - 1], rows[|rows| - 1];
      assert forall i :: 0 <= i < |init| ==> init[i] == rows[i];
      ValidTargets(init) + (if last.accruedMrrTarget.Some? then [last.accruedMrrTarget.value] else [])
  }

  lemma {:induction false} ValidTargetsAppend(xs: seq<MonthlyRow>, ys: seq<MonthlyRow>)
    ensures ValidTargets(xs + ys) == ValidTargets(xs) + ValidTargets(ys)
    decreases |ys|
  {
    if ys == [] {
      assert xs + ys == xs;
    } else {
      var init := ys[..|ys| - 1];
      assert ys == init + [ys[|ys| - 1]];
      assert (xs + ys)[..|xs + ys| - 1] == xs + init;
      ValidTargetsAppend(xs, init);
    }
  }

  // ---------------------------------------------------------------------------
  // Fiscal years: two hard-coded windows
  // ---------------------------------------------------------------------------

  datatype Window = Window(name: string, start: Date, end: Date)

  const FY24: Window := Window("FY 24", Date(2024, 4, 1), Date(2025, 3, 31))
  const FY25: Window := Window("FY 25", Date(2025, 4, 1), Date(2025, 8, 31))

  /** `d >= y.start && d <= y.end`; an invalid date compares false with everything. */
  predicate InWindow(w: Window, r: MonthlyRow)
  {
    r.date.Some? && DateLe(w.start, r.date.value) && DateLe(r.date.value, w.end)
  }

  function InWindowOf(w: Window): MonthlyRow -> bool
  {
    r => InWindow(w, r)
  }

  /** The fiscal-year record of one window: summed MRR, and summed targets or null when none is set. */
  function AnnualPoint(rows: seq<MonthlyRow>, w: Window): (p: AccruedPoint)
    ensures p.periodLabel == w.name
    ensures p.accruedMrr == Sum(MrrValues(Filter(rows, InWindowOf(w))))
    ensures p.accruedMrrTarget.None? <==> forall r :: r in rows && InWindow(w, r) ==> r.accruedMrrTarget.None?
    ensures p.accruedMrrTarget.Some? ==> p.accruedMrrTarget.value == Sum(ValidTargets(Filter(rows, InWindowOf(w))))
  {
    var filtered := Filter(rows, InWindowOf(w));
    var targets := ValidTargets(filtered);
    AccruedPoint(w.name, Sum(MrrValues(filtered)), if |targets| > 0 then Some(Sum(targets)) else None)
  }

  /** `getAnnualAccruedData`: always the two fiscal years, FY 24 then FY 25. */
  function AnnualAccrued(rows: seq<MonthlyRow>): (r: seq<AccruedPoint>)
    ensures |r| == 2
    ensures r[0].periodLabel == "FY 24" && r[1].periodLabel == "FY 25"
  {
    [AnnualPoint(rows, FY24), AnnualPoint(rows, FY25)]
  }

  /** The two windows are disjoint: no row counts toward both fiscal years. */
  lemma WindowsDisjoint(r: MonthlyRow)
    ensures !(InWindow(FY24, r) && InWindow(FY25, r))
  {
  }

  /** A window containing no row yields 0 (never null) for the MRR sum and null for the target. */
  lemma EmptyWindow(rows: seq<MonthlyRow>, w: Window)
    requires forall r :: r in rows ==> !InWindow(w, r)
    ensures AnnualPoint(rows, w).accruedMrr == 0.0
    ensures AnnualPoint(rows, w).accruedMrrTarget == None
  {
    forall i | 0 <= i < |rows|
      ensures !InWindowOf(w)(rows[i])
    {
      assert rows[i] in rows;
    }
    FilterNone(rows, InWindowOf(w));
  }

  /** Appending a row extends a window's rows by that row exactly when it lies in the window. */
  lemma WindowSnoc(rows: seq<MonthlyRow>, extra: MonthlyRow, w: Window)
    ensures Filter(rows + [extra], InWindowOf(w)) ==
              Filter(rows, InWindowOf(w)) + (if InWindow(w, extra) then [extra] else [])
  {
    FilterAppend(rows, [extra], InWindowOf(w));
    if InWindow(w, extra) {
      assert Filter([extra], InWindowOf(w)) == [extra];
    } else {
      assert Filter([extra], InWindowOf(w)) == [];
    }
  }

  lemma MrrValuesSnoc(rows: seq<MonthlyRow>, extra: MonthlyRow)
    ensures Sum(MrrValues(rows + [extra])) == Sum(MrrValues(rows)) + MrrOrZero(extra)
  {
    assert MrrValues(rows + [extra]) == MrrValues(rows) + [MrrOrZero(extra)];
    SumAppend(MrrValues(rows), [MrrOrZero(extra)]);
    assert Sum([MrrOrZero(extra)]) == MrrOrZero(extra) by {
      assert [MrrOrZero(extra)][..0] == [];
    }
  }

  /** A row outside both windows, or with an invalid date, does not change the fiscal-year figures. */
  lemma AnnualIgnoresOutside(rows: seq<MonthlyRow>, extra: MonthlyRow)
    requires !InWindow(FY24, extra) && !InWindow(FY25, extra)
    ensures AnnualAccrued(rows + [extra]) == AnnualAccrued(rows)
  {
    WindowSnoc(rows, extra, FY24);
    WindowSnoc(rows, extra, FY25);
    assert Filter(rows, InWindowOf(FY24)) + [] == Filter(rows, InWindowOf(FY24));
    assert Filter(rows, InWindowOf(FY25)) + [] == Filter(rows, InWindowOf(FY25));
  }

  /** Appending a row inside FY 24 adds its MRR (null as 0) to FY 24 and leaves FY 25 alone. */
  lemma AnnualAddsRow(rows: seq<MonthlyRow>, extra: MonthlyRow)
    requires InWindow(FY24, extra)
    ensures AnnualAccrued(rows + [extra])[0].accruedMrr == AnnualAccrued(rows)[0].accruedMrr + MrrOrZero(extra)
    ensures AnnualAccrued(rows + [extra])[1] == AnnualAccrued(rows)[1]
  {
    WindowsDisjoint(extra);
    WindowSnoc(rows, extra, FY24);
    WindowSnoc(rows, extra, FY25);
    assert Filter(rows, InWindowOf(FY25)) + [] == Filter(rows, InWindowOf(FY25));
    MrrValuesSnoc(Filter(rows, InWindowOf(FY24)), extra);
  }

  // ---------------------------------------------------------------------------
  // Fiscal quarters
  // ---------------------------------------------------------------------------

  /** The fiscal quarter of a 1-based month: Apr-Jun 1, Jul-Sep 2, Oct-Dec 3, Jan-Mar 4. */
  function FiscalQuarter(month: Month): (q: int)
    ensures 1 <= q <= 4
    ensures q == 1 <==> 4 <= month <= 6
    ensures q == 2 <==> 7 <= month <= 9
    ensures q == 3 <==> 10 <= month <= 12
    ensures q == 4 <==> month <= 3
  {
    var m := month - 1;
    if m in {3, 4, 5} then 1
    else if m in {6, 7, 8} then 2
    else if m in {9, 10, 11} then 3
    else 4
  }

  /**
   * `qYear`: the calendar year for the first three quarters, and for the
   * fourth `month <= 2 ? year : year + 1` on the 0-based month.
   */
  function QuarterYear(d: Date): (y: int)
    ensures y == d.year
  {
    var m := d.month - 1;
    if FiscalQuarter(d.month) < 4 then d.year
    else if m <= 2 then d.year else d.year + 1
  }

  /**
   * The group label of a row, `Q${qIdx} '${String(qYear).slice(-2)}`. For an
   * invalid date, the month is NaN, which falls to the fourth quarter, and
   * `NaN + 1` renders as "NaN", of which the last two characters are "aN".
   */
  function QuarterLabel(r: MonthlyRow): (s: string)
    ensures r.date.Some? ==> s == "Q" + NatToString(FiscalQuarter(r.date.value.month)) + " '" + TwoDigitYear(r.date.value.year)
    ensures r.date.None? ==> s == "Q4 'aN"
  {
    match r.date
    case Some(d) => "Q" + NatToString(FiscalQuarter(d.month)) + " '" + SliceLast2(NatToString(QuarterYear(d)))
    case None => "Q" + "4" + " '" + SliceLast2("NaN")
  }

  /** The labels of valid dates are `Q`, a digit from 1 to 4, a space, an apostrophe and the year's last two digits. */
  lemma QuarterLabelShape(r: MonthlyRow)
    requires r.date.Some? && r.date.value.year >= 10
    ensures var s := QuarterLabel(r);
      |s| == 6 && s[0] == 'Q' && '1' <= s[1] <= '4' && s[2..4] == " '"
      && s[4..] == TwoDigitYear(r.date.value.year)
  {
    var q := FiscalQuarter(r.date.value.month);
    assert NatToString(q) == [DigitChar(q)];
  }

  /** Two valid dates share a group iff they have the same fiscal quarter and the same two-digit year. */
  lemma SameQuarterLabel(a: MonthlyRow, b: MonthlyRow)
    requires a.date.Some? && b.date.Some?
    ensures QuarterLabel(a) == QuarterLabel(b) <==>
      FiscalQuarter(a.date.value.month) == FiscalQuarter(b.date.value.month)
      && TwoDigitYear(a.date.value.year) == TwoDigitYear(b.date.value.year)
  {
    var qa, qb := FiscalQuarter(a.date.value.month), FiscalQuarter(b.date.value.month);
    assert NatToString(qa) == [DigitChar(qa)];
    assert NatToString(qb) == [DigitChar(qb)];
    LabelParts(DigitChar(qa), TwoDigitYear(a.date.value.year), DigitChar(qb), TwoDigitYear(b.date.value.year));
  }

  /** The record of one quarter: mean MRR over all its rows, mean of the targets that are set. */
  function QuarterPoint(lbl: string, group: seq<MonthlyRow>): (p: AccruedPoint)
    requires group != []
    ensures p.periodLabel == lbl
    ensures IsMeanOf(p.accruedMrr, MrrValues(group))
    ensures p.accruedMrrTarget.None? <==> forall i :: 0 <= i < |group| ==> group[i].accruedMrrTarget.None?
    ensures p.accruedMrrTarget.Some? ==> IsMeanOf(p.accruedMrrTarget.value, ValidTargets(group))
  {
    var mrrs, targets := MrrValues(group), ValidTargets(group);
    var m := Mean(mrrs);
    var t := if |targets| > 0 then Some(Mean(targets)) else None;
    AccruedPoint(lbl, m, t)
  }

  /** The labels of the quarterly groups, in order of first appearance. */
  function QuarterKeys(rows: seq<MonthlyRow>): seq<string>
  {
    Dedup(KeysOf(rows, QuarterLabel))
  }

  /**
   * `getQuarterlyAccruedData`: group the rows by quarter label with a
   * `forEach`, then map every group (in first-appearance order) to its record.
   */
  method QuarterlyAccrued(rows: seq<MonthlyRow>) returns (points: seq<AccruedPoint>)
    ensures |points| == |QuarterKeys(rows)|
    ensures forall i :: 0 <= i < |points| ==>
      GroupOf(rows, QuarterLabel, QuarterKeys(rows)[i]) != []
      && points[i] == QuarterPoint(QuarterKeys(rows)[i], GroupOf(rows, QuarterLabel, QuarterKeys(rows)[i]))
  {
    var labels, grouped := GroupBy(rows, QuarterLabel);
    points := seq(|labels|, i requires 0 <= i < |labels| => QuarterPoint(labels[i], grouped[labels[i]]));
  }

  /** Every row lands in exactly one quarter: the group sizes add up to the number of rows. */
  lemma QuarterGroupsPartition(rows: seq<MonthlyRow>)
    ensures TotalSize(rows, QuarterLabel, QuarterKeys(rows)) == |rows|
  {
    GroupsPartition(rows, QuarterLabel);
  }

  /** Rows with a null MRR still count in a quarter's denominator: a group of all-null rows averages 0. */
  lemma NullMrrCountsInDenominator(lbl: string, group: seq<MonthlyRow>)
    requires group != []
    requires forall i :: 0 <= i < |group| ==> group[i].accruedMrr.None?
    ensures QuarterPoint(lbl, group).accruedMrr == 0.0
  {
    SumBounds(MrrValues(group), 0.0, 0.0);
  }

  /** A quarter's MRR lies between the smallest and largest monthly value (nulls as 0). */
  lemma QuarterMrrBounds(lbl: string, group: seq<MonthlyRow>, lo: real, hi: real)
    requires group != []
    requires forall i :: 0 <= i < |group| ==> lo <= MrrOrZero(group[i]) <= hi
    ensures lo <= QuarterPoint(lbl, group).accruedMrr <= hi
  {
    MeanBounds(MrrValues(group), lo, hi);
  }
}
