/** components/ui/year-picker.tsx: a popover that shows twelve consecutive years, steps the
    window by twelve with Previous/Next, and recentres on the selected year while open. The
    current year (`new Date().getFullYear()`) is a parameter. */
module YearPicker {
  import opened Wrappers
  import opened Lists

  const DefaultMinYear := 1900
  const WindowSize := 12

  /** The picker's state: whether it is open, the selected year, and the first year shown. */
  datatype PickerState = PickerState(open: bool, selectedYear: int, displayRange: int)

  /** `yearsToDisplay`: the twelve years from `displayRange` on. */
  function Years(displayRange: int): (r: seq<int>)
    ensures |r| == WindowSize
    ensures forall i :: 0 <= i < |r| ==> r[i] == displayRange + i
  {
    seq(WindowSize, i => displayRange + i)
  }

  lemma YearsContain(displayRange: int, y: int)
    ensures y in Years(displayRange) <==> displayRange <= y <= displayRange + 11
  {
    if displayRange <= y <= displayRange + 11 {
      assert Years(displayRange)[y - displayRange] == y;
    }
  }

  /** The year buttons are enabled exactly for years in [minYear, maxYear]. */
  predicate YearEnabled(year: int, minYear: int, maxYear: int)
  {
    !(year < minYear || year > maxYear)
  }

  /** The years that can be picked on screen form the window cut down to [minYear, maxYear]. */
  lemma SelectableWindow(displayRange: int, minYear: int, maxYear: int, y: int)
    ensures y in Years(displayRange) && YearEnabled(y, minYear, maxYear) <==>
      Max(displayRange, minYear) <= y <= Min(displayRange + 11, maxYear)
  {
    YearsContain(displayRange, y);
  }

  predicate PreviousDisabled(displayRange: int, minYear: int)
  {
    displayRange <= minYear
  }

  /** The Next button's `disabled` test, as written. */
  predicate NextDisabled(displayRange: int, maxYear: int)
  {
    displayRange + 12 >= maxYear
  }

  /** The props' defaults: `minYear = 1900`, `maxYear = currentYear + 10`; None is an absent prop. */
  function Bounds(minYear: Option<int>, maxYear: Option<int>, currentYear: int): (r: (int, int))
    ensures r.0 == minYear.GetOr(DefaultMinYear) && r.1 == maxYear.GetOr(currentYear + 10)
  {
    (minYear.GetOr(DefaultMinYear), maxYear.GetOr(currentYear + 10))
  }

  /** The first render: closed, `value || currentYear` selected (0 counts as no value), and the
      window starting six years before the selection, so that the selection is the seventh
      year shown. */
  function Initial(value: Option<int>, currentYear: int): (r: PickerState)
    ensures !r.open
    ensures r.selectedYear == (if value.Some? && value.value != 0 then value.value else currentYear)
    ensures r.displayRange == r.selectedYear - 6 && Years(r.displayRange)[6] == r.selectedYear
  {
    var selected := if value.Some? && value.value != 0 then value.value else currentYear;
    PickerState(false, selected, selected - 6)
  }

  /** `handlePrevious`. */
  function Previous(s: PickerState, minYear: int): (r: PickerState)
    ensures r.open == s.open && r.selectedYear == s.selectedYear
    ensures r.displayRange >= minYear
    ensures !PreviousDisabled(s.displayRange, minYear) ==> r.displayRange < s.displayRange
    ensures s.displayRange - 12 >= minYear ==> r.displayRange == s.displayRange - 12
    ensures s.displayRange - 12 < minYear ==> r.displayRange == minYear
  {
    s.(displayRange := Max(minYear, s.displayRange - 12))
  }

  /** `handleNext`. */
  function Next(s: PickerState, maxYear: int): (r: PickerState)
    ensures r.open == s.open && r.selectedYear == s.selectedYear
    ensures r.displayRange <= maxYear - 11
    ensures s.displayRange < maxYear - 11 ==> r.displayRange > s.displayRange
    ensures s.displayRange + 12 <= maxYear - 11 ==> r.displayRange == s.displayRange + 12
    ensures s.displayRange + 12 > maxYear - 11 ==> r.displayRange == maxYear - 11
  {
    s.(displayRange := Min(maxYear - 11, s.displayRange + 12))
  }

  /** `handleYearSelect`: select the year and close; the window is untouched. */
  function SelectYear(s: PickerState, year: int): (r: PickerState)
    ensures r.selectedYear == year && !r.open && r.displayRange == s.displayRange
  {
    s.(selectedYear := year, open := false)
  }

  /** The `useEffect`: while open, a selection outside the window moves the window to start six
      years before it. */
  function Recentre(s: PickerState): (r: PickerState)
    ensures r.open == s.open && r.selectedYear == s.selectedYear
    ensures !s.open || s.selectedYear in Years(s.displayRange) ==> r == s
    ensures s.open ==> r.selectedYear in Years(r.displayRange)
    ensures s.open && s.selectedYear !in Years(s.displayRange) ==> r.displayRange == s.selectedYear - 6
  {
    YearsContain(s.displayRange, s.selectedYear);
    YearsContain(s.selectedYear - 6, s.selectedYear);
    if s.open && (s.selectedYear < s.displayRange || s.selectedYear > s.displayRange + 11) then
      s.(displayRange := s.selectedYear - 6)
    else s
  }

  lemma RecentreIdempotent(s: PickerState)
    ensures Recentre(Recentre(s)) == Recentre(s)
  {
    YearsContain(Recentre(s).displayRange, s.selectedYear);
  }

  /** A user event on the open or closed picker. */
  datatype Event = SetOpen(opening: bool) | PreviousClick | NextClick | YearClick(year: int)

  function Handle(s: PickerState, e: Event, minYear: int, maxYear: int): PickerState
  {
    match e
    case SetOpen(o) => s.(open := o)
    case PreviousClick => Previous(s, minYear)
    case NextClick => Next(s, maxYear)
    case YearClick(y) => SelectYear(s, y)
  }

  /** One event as the component is written: the handler, then the effect, which lists
      `displayRange` among its dependencies and so runs after every window move. */
  function Step(s: PickerState, e: Event, minYear: int, maxYear: int): PickerState
  {
    Recentre(Handle(s, e, minYear, maxYear))
  }

  /** As written, Previous on the open picker is undone at once: whenever the selected year is
      shown and the window can move back a full page, the effect moves it back to the window
      around the selection, so earlier years never come into view. */
  lemma PreviousUndoneWhileOpen(s: PickerState, minYear: int, maxYear: int)
    requires s.open && s.selectedYear in Years(s.displayRange) && s.displayRange - 12 >= minYear
    ensures Step(s, PreviousClick, minYear, maxYear).displayRange == s.selectedYear - 6
    ensures Step(s, PreviousClick, minYear, maxYear).displayRange >= s.displayRange - 6
  {
    YearsContain(s.displayRange, s.selectedYear);
    YearsContain(s.displayRange - 12, s.selectedYear);
  }

  /** The concrete case: 2026 selected in the window 2020..2031, Previous gives 2020 again. */
  lemma PreviousUndoneExample()
    ensures Step(PickerState(true, 2026, 2020), PreviousClick, 1900, 2036) == PickerState(true, 2026, 2020)
  {
    YearsContain(2020, 2026);
    PreviousUndoneWhileOpen(PickerState(true, 2026, 2020), 1900, 2036);
  }

  /** One event with the effect keyed on opening only, as the comment on the effect describes
      ("when popover opens"). */
  function StepCorrected(s: PickerState, e: Event, minYear: int, maxYear: int): PickerState
  {
    if e == SetOpen(true) then Recentre(Handle(s, e, minYear, maxYear)) else Handle(s, e, minYear, maxYear)
  }

  /** With the effect keyed on opening, Previous and Next on the open picker move the window a page
      (clamped to the bounds), and opening the picker shows the selected year. */
  lemma CorrectedNavigation(s: PickerState, minYear: int, maxYear: int)
    ensures StepCorrected(s, PreviousClick, minYear, maxYear) == Previous(s, minYear)
    ensures StepCorrected(s, NextClick, minYear, maxYear) == Next(s, maxYear)
    ensures var t := StepCorrected(s, SetOpen(true), minYear, maxYear);
      t.open && t.selectedYear in Years(t.displayRange)
    ensures s.open && s.displayRange - 12 >= minYear ==>
      StepCorrected(s, PreviousClick, minYear, maxYear).displayRange == s.displayRange - 12
  {
  }

  /** As written, the Next button is already disabled when the window ends at maxYear - 1, so the
      selectable year maxYear can be out of reach: maxYear 2036 with 2030 selected opens on
      2024..2035 with Next disabled. */
  lemma NextDisabledTooEarly()
    ensures var s := Initial(Some(2030), 2026);
      var maxYear := Bounds(None, None, 2026).1;
      NextDisabled(s.displayRange, maxYear) && YearEnabled(maxYear, DefaultMinYear, maxYear) &&
      maxYear !in Years(s.displayRange) && Recentre(s.(open := true)) == s.(open := true)
  {
    var s := Initial(Some(2030), 2026);
    YearsContain(s.displayRange, 2036);
    YearsContain(s.displayRange, 2030);
  }

  /** The Next test that matches `handleNext`'s clamp: disabled once maxYear is on screen. */
  predicate NextDisabledCorrected(displayRange: int, maxYear: int)
  {
    displayRange + 11 >= maxYear
  }

  /** With it, Next is disabled exactly when the window reaches maxYear, and otherwise moves the
      window forward; the Previous test already has the matching property for minYear. */
  lemma NextDisabledCorrectedIff(displayRange: int, minYear: int, maxYear: int)
    ensures NextDisabledCorrected(displayRange, maxYear) <==> Years(displayRange)[11] >= maxYear
    ensures !NextDisabledCorrected(displayRange, maxYear) ==>
      Next(PickerState(true, 0, displayRange), maxYear).displayRange > displayRange
    ensures PreviousDisabled(displayRange, minYear) <==> Years(displayRange)[0] <= minYear
  {
  }

  /** The component's state. */
  class Picker {
    const minYear: int
    const maxYear: int
    var open: bool
    var selectedYear: int
    var displayRange: int

    function State(): PickerState
      reads this
    {
      PickerState(open, selectedYear, displayRange)
    }

    constructor(value: Option<int>, currentYear: int, minYearProp: Option<int>, maxYearProp: Option<int>)
      ensures State() == Initial(value, currentYear)
      ensures (minYear, maxYear) == Bounds(minYearProp, maxYearProp, currentYear)
    {
      minYear := minYearProp.GetOr(DefaultMinYear);
      maxYear := maxYearProp.GetOr(currentYear + 10);
      open := false;
      var selected := if value.Some? && value.value != 0 then value.value else currentYear;
      selectedYear := selected;
      displayRange := selected - 6;
    }

    /** `onOpenChange`. */
    method SetOpen(o: bool)
      modifies this
      ensures State() == old(State()).(open := o)
    {
      open := o;
    }

    /** `handleYearSelect`; the result is the year passed to `onChange`. */
    method HandleYearSelect(year: int) returns (changed: int)
      modifies this
      ensures State() == SelectYear(old(State()), year) && changed == year
    {
      selectedYear := year;
      changed := year;
      open := false;
    }

    method HandlePrevious()
      modifies this
      ensures State() == Previous(old(State()), minYear)
    {
      displayRange := Max(minYear, displayRange - 12);
    }

    method HandleNext()
      modifies this
      ensures State() == Next(old(State()), maxYear)
    {
      displayRange := Min(maxYear - 11, displayRange + 12);
    }

    /** The effect body, run after a render whose dependencies changed. */
    method Effect()
      modifies this
      ensures State() == Recentre(old(State()))
    {
      if open && (selectedYear < displayRange || selectedYear > displayRange + 11) {
        displayRange := selectedYear - 6;
      }
    }
  }
}
