/**
 * Step 1 of the timesheet wizard: the operator picks a date and the shifts
 * to audit. Ticking a shift adds it (once), unticking removes it, and the
 * list is kept in string order; a Friday date raises a warning banner; the
 * Next button is enabled only with a date and at least one shift.
 */
module TimesheetStep1 {
  import opened Wrappers
  import opened Text
  import opened DateTimes
  import StableSort

  // ---------------------------------------------------------------------
  // The shift list
  // ---------------------------------------------------------------------

  /** Array.prototype.sort without a comparator orders the shift codes as strings. */
  function Id(s: string): string { s }

  /** The list after selectedShifts.sort(). */
  function SortShifts(s: seq<string>): seq<string>
  {
    StableSort.Sort(s, Id, StrLt)
  }

  predicate ShiftsSorted(s: seq<string>)
  {
    StableSort.Sorted(s, Id, StrLt)
  }

  predicate NoDuplicates(s: seq<string>)
  {
    forall i, j :: 0 <= i < j < |s| ==> s[i] != s[j]
  }

  lemma StrLtIsStrictTotalOrder()
    ensures StableSort.StrictTotalOrder(StrLt)
  {
    forall a ensures !StrLt(a, a) { StrLtIrreflexive(a); }
    forall a, b, c | StrLt(a, b) && StrLt(b, c) ensures StrLt(a, c) { StrLtTransitive(a, b, c); }
    forall a, b ensures a == b || StrLt(a, b) || StrLt(b, a) { StrLtTotal(a, b); }
  }

  /** The list without any occurrence of x, the rest in order (filter(s => s !== x)). */
  function Without(s: seq<string>, x: string): (r: seq<string>)
    ensures x !in r
    ensures multiset(r) == multiset(s)[x := 0]
    ensures forall y :: y in r ==> y in s
    ensures forall y :: y in s && y != x ==> y in r
  {
    if |s| == 0 then []
    else
      assert s == [s[0]] + s[1..];
      if s[0] == x then Without(s[1..], x) else [s[0]] + Without(s[1..], x)
  }

  /** handleShiftCheckbox: the selection after ticking (checked) or unticking shift. */
  function Toggled(s: seq<string>, shift: string, checked: bool): seq<string>
  {
    if checked then SortShifts(if shift in s then s else s + [shift])
    else SortShifts(Without(s, shift))
  }

  lemma SortedTail(s: seq<string>)
    requires |s| > 0 && ShiftsSorted(s)
    ensures ShiftsSorted(s[1..])
    ensures forall e :: e in s[1..] ==> !StrLt(e, s[0])
  {
    forall i, j | 0 <= i < j < |s[1..]|
      ensures !StrLt(s[1..][j], s[1..][i])
    {
      assert s[1..][j] == s[j + 1] && s[1..][i] == s[i + 1];
    }
  }

  lemma SortedCons(a: string, w: seq<string>)
    requires ShiftsSorted(w)
    requires forall e :: e in w ==> !StrLt(e, a)
    ensures ShiftsSorted([a] + w)
  {
    forall i, j | 0 <= i < j < |[a] + w|
      ensures !StrLt(([a] + w)[j], ([a] + w)[i])
    {
      assert ([a] + w)[j] == w[j - 1];
      if i > 0 {
        assert ([a] + w)[i] == w[i - 1];
      }
    }
  }

  lemma {:induction false} WithoutSorted(s: seq<string>, x: string)
    requires ShiftsSorted(s)
    ensures ShiftsSorted(Without(s, x))
    decreases |s|
  {
    if |s| > 0 {
      SortedTail(s);
      WithoutSorted(s[1..], x);
      if s[0] != x {
        SortedCons(s[0], Without(s[1..], x));
      }
    }
  }

  lemma {:induction false} WithoutWithKey(s: seq<string>, x: string, k: string)
    ensures StableSort.WithKey(Without(s, x), Id, k) == if k == x then [] else StableSort.WithKey(s, Id, k)
    decreases |s|
  {
    if |s| > 0 {
      WithoutWithKey(s[1..], x, k);
    }
  }

  /** In a list without duplicates that holds x, x is the only element with key x. */
  lemma {:induction false} WithKeyOfMember(s: seq<string>, x: string)
    requires NoDuplicates(s) && x in s
    ensures StableSort.WithKey(s, Id, x) == [x]
    decreases |s|
  {
    if s[0] == x {
      StableSort.WithKeyNone(s[1..], Id, x);
    } else {
      assert x in s[1..];
      WithKeyOfMember(s[1..], x);
    }
  }

  /** A list holds no duplicates exactly when no value occurs twice in its multiset. */
  lemma NoDuplicatesCount(s: seq<string>)
    ensures NoDuplicates(s) <==> forall y :: multiset(s)[y] <= 1
  {
    if NoDuplicates(s) {
      forall y ensures multiset(s)[y] <= 1 {
        if y in s {
          WithKeyOfMember(s, y);
          CountIsWithKey(s, y);
        }
      }
    } else {
      var i, j :| 0 <= i < j < |s| && s[i] == s[j];
      CountTwo(s, i, j);
    }
  }

  lemma SortShiftsKeeps(u: seq<string>)
    ensures ShiftsSorted(SortShifts(u))
    ensures forall y :: y in SortShifts(u) <==> y in u
    ensures NoDuplicates(u) ==> NoDuplicates(SortShifts(u))
  {
    StrLtIsStrictTotalOrder();
    StableSort.SortSorted(u, Id, StrLt);
    var t := SortShifts(u);
    forall y ensures y in t <==> y in u {
      assert y in t <==> y in multiset(t);
      assert y in u <==> y in multiset(u);
    }
    NoDuplicatesCount(u);
    NoDuplicatesCount(t);
  }

  /**
   * Whatever the old list was, the new one is in string order, holds shift
   * exactly when it was ticked, and holds every other shift exactly when
   * the old list did; a list without duplicates stays without.
   */
  lemma ToggledSelection(s: seq<string>, shift: string, checked: bool)
    ensures ShiftsSorted(Toggled(s, shift, checked))
    ensures shift in Toggled(s, shift, checked) <==> checked
    ensures forall y :: y != shift ==> (y in Toggled(s, shift, checked) <==> y in s)
    ensures NoDuplicates(s) ==> NoDuplicates(Toggled(s, shift, checked))
  {
    var u := if checked then (if shift in s then s else s + [shift]) else Without(s, shift);
    SortShiftsKeeps(u);
    if NoDuplicates(s) {
      NoDuplicatesCount(s);
      if checked && shift !in s {
        assert multiset(u) == multiset(s) + multiset{shift};
      }
      NoDuplicatesCount(u);
    }
  }

  lemma {:induction false} CountIsWithKey(s: seq<string>, x: string)
    ensures multiset(s)[x] == |StableSort.WithKey(s, Id, x)|
    decreases |s|
  {
    if |s| > 0 {
      assert s == [s[0]] + s[1..];
      assert multiset(s) == multiset{s[0]} + multiset(s[1..]);
      CountIsWithKey(s[1..], x);
    }
  }

  lemma CountTwo(t: seq<string>, i: int, j: int)
    requires 0 <= i < j < |t| && t[i] == t[j]
    ensures multiset(t)[t[i]] >= 2
  {
    assert t == t[..i] + [t[i]] + t[i + 1..j] + [t[j]] + t[j + 1..];
    assert multiset(t) == multiset(t[..i]) + multiset{t[i]} + multiset(t[i + 1..j]) + multiset{t[j]} + multiset(t[j + 1..]);
  }

  /** Ticking a shift that was not selected and unticking it again restores the list. */
  lemma ToggleOnThenOff(s: seq<string>, shift: string)
    requires ShiftsSorted(s) && shift !in s
    ensures Toggled(Toggled(s, shift, true), shift, false) == s
  {
    StrLtIsStrictTotalOrder();
    var t := SortShifts(s + [shift]);
    StableSort.SortSorted(s + [shift], Id, StrLt);
    var w := Without(t, shift);
    WithoutSorted(t, shift);
    forall k ensures StableSort.WithKey(w, Id, k) == StableSort.WithKey(s, Id, k) {
      WithoutWithKey(t, shift, k);
      if k == shift {
        StableSort.WithKeyNone(s, Id, k);
      } else {
        StableSort.SortStable(s + [shift], Id, StrLt, k);
        StableSort.WithKeyAppend(s, [shift], Id, k);
      }
    }
    StableSort.SortedUnique(w, s, Id, StrLt);
    StableSort.SortOfSorted(s, Id, StrLt);
  }

  /** Unticking a selected shift and ticking it again restores a list without duplicates. */
  lemma ToggleOffThenOn(s: seq<string>, shift: string)
    requires ShiftsSorted(s) && NoDuplicates(s) && shift in s
    ensures Toggled(Toggled(s, shift, false), shift, true) == s
  {
    StrLtIsStrictTotalOrder();
    WithoutSorted(s, shift);
    var w := Without(s, shift);
    StableSort.SortOfSorted(w, Id, StrLt);
    assert Toggled(s, shift, false) == w;
    forall k ensures StableSort.WithKey(s, Id, k) == StableSort.WithKey(w + [shift], Id, k) {
      StableSort.WithKeyAppend(w, [shift], Id, k);
      WithoutWithKey(s, shift, k);
      if k == shift {
        WithKeyOfMember(s, shift);
      }
    }
    StableSort.SortCharacterized(w + [shift], s, Id, StrLt);
  }

  // ---------------------------------------------------------------------
  // The Friday warning and the Next button
  // ---------------------------------------------------------------------

  /**
   * new Date(date + 'T00:00:00').getDay() === 5: the text is read as a
   * local date-time; text that is not a date gives an invalid Date, whose
   * getDay() is NaN and so not 5.
   */
  predicate IsFriday(date: string)
  {
    match ParseForDB(date + "T00:00:00")
    case Some(d) => Weekday(d) == 5
    case None => false
  }

  /** The value hasFriday takes for a selected date ("" stands for no date). */
  predicate FridayFlag(date: string)
  {
    date != "" && IsFriday(date)
  }

  lemma WeekdayIgnoresTime(d: DateTime, e: DateTime)
    requires d.year == e.year && d.month == e.month && d.day == e.day
    ensures Weekday(d) == Weekday(e)
  {
  }

  /** The flag is raised for the date-picker text of a day exactly when that day is a Friday. */
  lemma FridayOfDate(d: DateTime)
    requires Valid(d) && 1000 <= d.year < 10000
    ensures FridayFlag(DatePart(d)) <==> Weekday(d) == 5
  {
    var m := d.(hour := 0, minute := 0, second := 0);
    assert Pad2(0) == "00";
    assert DatePart(m) == DatePart(d);
    assert FormatForDB(m) == DatePart(d) + "T00:00:00";
    ParseForDBRoundTrip(m);
    WeekdayIgnoresTime(d, m);
    DatePartLength(d);
  }

  /** validateStep1 / renderStep1: Next is enabled with a date and at least one shift. */
  predicate NextEnabled(date: string, shifts: seq<string>)
  {
    date != "" && |shifts| > 0
  }

  /** With a date chosen, ticking any shift enables Next and unticking the only one disables it. */
  lemma NextAfterToggle(date: string, s: seq<string>, shift: string)
    requires date != ""
    ensures NextEnabled(date, Toggled(s, shift, true))
    ensures s == [shift] ==> !NextEnabled(date, Toggled(s, shift, false))
  {
    ToggledSelection(s, shift, true);
    if s == [shift] {
      assert Without(s, shift) == [];
    }
  }

  // ---------------------------------------------------------------------
  // The step-1 part of the wizard state
  // ---------------------------------------------------------------------

  /** selectedDate, selectedShifts, unitType and hasFriday of the wizard state. */
  class Selection {
    var selectedDate: string
    var selectedShifts: seq<string>
    var unitType: string
    var hasFriday: bool

    /** The initial wizard state: no date, no shift, "3 Shift", no warning. */
    constructor()
      ensures selectedDate == "" && selectedShifts == [] && unitType == "3 Shift" && !hasFriday
    {
      selectedDate := "";
      selectedShifts := [];
      unitType := "3 Shift";
      hasFriday := false;
    }

    /**
     * loadStep1: saved values replace the state when the server returned
     * any, each missing one falling back to its default; then the page is
     * rendered, which recomputes the Friday flag.
     */
    method Load(saved: Option<(Option<string>, Option<seq<string>>, Option<string>)>) returns (nextEnabled: bool)
      modifies this
      ensures saved.Some? ==> selectedDate == (if saved.value.0.Some? then saved.value.0.value else "")
      ensures saved.Some? ==> selectedShifts == (if saved.value.1.Some? then saved.value.1.value else [])
      ensures saved.Some? ==> unitType == (if saved.value.2.Some? && saved.value.2.value != "" then saved.value.2.value else "3 Shift")
      ensures saved.None? ==> selectedDate == old(selectedDate) && selectedShifts == old(selectedShifts) && unitType == old(unitType)
      ensures hasFriday == FridayFlag(selectedDate)
      ensures nextEnabled == NextEnabled(selectedDate, selectedShifts)
    {
      if saved.Some? {
        var (date, shifts, unit) := saved.value;
        selectedDate := if date.Some? then date.value else "";
        selectedShifts := if shifts.Some? then shifts.value else [];
        unitType := if unit.Some? && unit.value != "" then unit.value else "3 Shift";
      }
      hasFriday := FridayFlag(selectedDate);
      nextEnabled := NextEnabled(selectedDate, selectedShifts);
    }

    /** checkForFriday: recompute the flag and re-render when it changed. */
    method CheckForFriday() returns (rerender: bool)
      modifies this
      ensures hasFriday == FridayFlag(selectedDate)
      ensures rerender <==> hasFriday != old(hasFriday)
      ensures selectedDate == old(selectedDate) && selectedShifts == old(selectedShifts) && unitType == old(unitType)
    {
      var hadFriday := hasFriday;
      if selectedDate != "" {
        hasFriday := IsFriday(selectedDate);
      } else {
        hasFriday := false;
      }
      rerender := hadFriday != hasFriday;
    }

    /** handleDateChange: store the date (an empty input clears it), check for Friday, validate. */
    method HandleDateChange(dateString: string) returns (rerender: bool, nextEnabled: bool)
      modifies this
      ensures selectedDate == dateString
      ensures hasFriday == FridayFlag(dateString)
      ensures rerender <==> hasFriday != old(hasFriday)
      ensures nextEnabled == NextEnabled(dateString, selectedShifts)
      ensures selectedShifts == old(selectedShifts) && unitType == old(unitType)
    {
      selectedDate := dateString;
      rerender := CheckForFriday();
      nextEnabled := NextEnabled(selectedDate, selectedShifts);
    }

    /** handleShiftCheckbox: add the shift if absent or remove it, sort, validate. */
    method HandleShiftCheckbox(shift: string, isChecked: bool) returns (nextEnabled: bool)
      modifies this
      ensures ShiftsSorted(selectedShifts)
      ensures NoDuplicates(old(selectedShifts)) ==> NoDuplicates(selectedShifts)
      ensures selectedShifts == Toggled(old(selectedShifts), shift, isChecked)
      ensures shift in selectedShifts <==> isChecked
      ensures forall y :: y != shift ==> (y in selectedShifts <==> y in old(selectedShifts))
      ensures nextEnabled == NextEnabled(selectedDate, selectedShifts)
      ensures selectedDate == old(selectedDate) && unitType == old(unitType) && hasFriday == old(hasFriday)
    {
      ToggledSelection(selectedShifts, shift, isChecked);
      if isChecked {
        if shift !in selectedShifts {
          selectedShifts := selectedShifts + [shift];
        }
      } else {
        selectedShifts := Without(selectedShifts, shift);
      }
      selectedShifts := SortShifts(selectedShifts);
      nextEnabled := NextEnabled(selectedDate, selectedShifts);
    }
  }
}
