/**
 * The region filter: the list of selected region codes, seeded from the
 * active filters, toggled one code at a time and cleared.
 */
module RegionalFilter {
  import opened Common
  import opened Lists
  import opened Grouping

  /** `activeFilters.regions || []`. */
  function InitialRegions(active: Option<seq<string>>): (r: seq<string>)
    ensures active.Some? ==> r == active.value
    ensures active.None? ==> r == []
  {
    match active
    case Some(regions) => regions
    case None => []
  }

  function Other(code: string): string -> bool
  {
    (r: string) => r != code
  }

  /**
   * The toggle: a selected code is removed wherever it occurs, the other
   * codes keeping their order; an unselected one is appended at the end.
   */
  function ToggleRegion(selected: seq<string>, code: string): (r: seq<string>)
    ensures code in selected ==> code !in r
    ensures code in selected ==> forall c :: c in r <==> c in selected && c != code
    ensures code in selected ==> exists idx :: Embeds(idx, r, selected)
    ensures code !in selected ==> r == selected + [code]
  {
    if code in selected then
      FilterKeepsOrder(selected, Other(code));
      Filter(selected, Other(code))
    else selected + [code]
  }

  /** Toggling an unselected code twice restores the selection. */
  lemma ToggleTwiceRestores(selected: seq<string>, code: string)
    requires code !in selected
    ensures ToggleRegion(ToggleRegion(selected, code), code) == selected
  {
    var once := selected + [code];
    assert code in once;
    FilterAppend(selected, [code], Other(code));
    FilterAll(selected, Other(code));
    assert Filter([code], Other(code)) == [];
  }

  /** Keeping an order-preserving selection of a repetition-free list has no repetitions. */
  lemma EmbeddedDistinct(r: seq<string>, xs: seq<string>, idx: seq<nat>)
    requires Embeds(idx, r, xs) && Distinct(xs)
    ensures Distinct(r)
  {
    forall i, j | 0 <= i < j < |r|
      ensures r[i] != r[j]
    {
      assert idx[i] < idx[j];
    }
  }

  /** Toggling never introduces a repeated code. */
  lemma ToggleKeepsDistinct(selected: seq<string>, code: string)
    requires Distinct(selected)
    ensures Distinct(ToggleRegion(selected, code))
  {
    var r := ToggleRegion(selected, code);
    if code in selected {
      var idx :| Embeds(idx, r, selected);
      EmbeddedDistinct(r, selected, idx);
    } else {
      assert forall i :: 0 <= i < |selected| ==> r[i] == selected[i] && r[i] != code;
    }
  }

  /**
   * The filter's state: the selected region codes, and the selections
   * handed to `onFilterChange({ regions })` so far, in order. The effect
   * runs after the first render and after every change of the selection;
   * each toggle and each clear sets a new array, so each one reports.
   */
  class RegionFilter {
    var selectedRegions: seq<string>
    var reported: seq<seq<string>>

    /** The parent has been told the current selection last. */
    predicate Reported()
      reads this
    {
      reported != [] && reported[|reported| - 1] == selectedRegions
    }

    constructor(active: Option<seq<string>>)
      ensures selectedRegions == InitialRegions(active)
      ensures reported == [InitialRegions(active)] && Reported()
    {
      selectedRegions := InitialRegions(active);
      reported := [selectedRegions];
    }

    /** `handleRegionToggle(code)`. */
    method HandleRegionToggle(code: string)
      modifies this
      ensures selectedRegions == ToggleRegion(old(selectedRegions), code)
      ensures Distinct(old(selectedRegions)) ==> Distinct(selectedRegions)
      ensures reported == old(reported) + [selectedRegions] && Reported()
    {
      if code in selectedRegions {
        selectedRegions := Filter(selectedRegions, Other(code));
      } else {
        selectedRegions := selectedRegions + [code];
      }
      reported := reported + [selectedRegions];
      if Distinct(old(selectedRegions)) {
        ToggleKeepsDistinct(old(selectedRegions), code);
      }
    }

    /** `clearFilters()`. */
    method ClearFilters()
      modifies this
      ensures selectedRegions == []
      ensures reported == old(reported) + [[]] && Reported()
    {
      selectedRegions := [];
      reported := reported + [selectedRegions];
    }

    /** The 'Clear All' button is shown while some region is selected. */
    predicate ShowsClearAll(): (shown: bool)
      reads this
      ensures shown <==> selectedRegions != []
    {
      |selectedRegions| > 0
    }
  }

  /**
   * Mounting with no active filters, selecting India and then clearing
   * reports three selections to the parent: none, India, none.
   */
  method SelectThenClear() returns (reports: seq<seq<string>>)
    ensures reports == [[], ["IN"], []]
  {
    var filter := new RegionFilter(None);
    filter.HandleRegionToggle("IN");
    assert filter.selectedRegions == [] + ["IN"] == ["IN"];
    filter.ClearFilters();
    reports := filter.reported;
  }
}
