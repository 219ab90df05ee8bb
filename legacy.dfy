/**
 * The single-file version of the wizard, which knows only steps 1 and 2:
 * loadStep loads nothing for any other step and a successful step-2 save
 * only reports success. Its step-1 and trip handlers are the same code as
 * the modular version's, so the same classes model them.
 */
module LegacyTimesheet {
  import TimesheetStep1
  import TimesheetStep2
  import opened TimesheetWizard

  /** loadStep: the loader for steps 1 and 2; any other number loads nothing. */
  function LegacyLoaderFor(n: int): (l: Loader)
    ensures l.NoLoader? <==> !(1 <= n <= 2)
    ensures l == LoadStep1 <==> n == 1
    ensures l == LoadStep2 <==> n == 2
  {
    if n == 1 then LoadStep1 else if n == 2 then LoadStep2 else NoLoader
  }

  /** nextStep: only step 1 moves on (to step 2) when its save succeeds. */
  function LegacyNextTarget(step: int, saved: bool): (s: int)
    ensures s == (if step == 1 && saved then 2 else step)
  {
    if step == 1 && saved then 2 else step
  }

  function LegacyNavigate(step: int, events: seq<NavEvent>): int
    decreases |events|
  {
    if |events| == 0 then step
    else
      var s := match events[0] case Next(ok) => LegacyNextTarget(step, ok) case Back => BackTarget(step);
      LegacyNavigate(s, events[1..])
  }

  /** Starting from step 1 or 2, no run of events ever leaves steps 1 and 2. */
  lemma {:induction false} LegacyStaysInFirstTwoSteps(step: int, events: seq<NavEvent>)
    requires 1 <= step <= 2
    ensures 1 <= LegacyNavigate(step, events) <= 2
    decreases |events|
  {
    if |events| > 0 {
      var s := match events[0] case Next(ok) => LegacyNextTarget(step, ok) case Back => BackTarget(step);
      LegacyStaysInFirstTwoSteps(s, events[1..]);
    }
  }

  /** As long as no save succeeds while on step 2, the two versions move through the same steps. */
  lemma {:induction false} LegacyAgreesUntilStepTwoSaved(step: int, events: seq<NavEvent>)
    requires 1 <= step <= 2
    requires forall i :: 0 <= i < |events| ==> events[i] != Next(true) || LegacyNavigate(step, events[..i]) == 1
    ensures LegacyNavigate(step, events) == Navigate(step, events)
    decreases |events|
  {
    if |events| > 0 {
      assert events[..0] == [];
      var s := match events[0] case Next(ok) => LegacyNextTarget(step, ok) case Back => BackTarget(step);
      assert s == NavTarget(step, events[0]);
      forall i | 0 <= i < |events[1..]| && events[1..][i] == Next(true)
        ensures LegacyNavigate(s, events[1..][..i]) == 1
      {
        assert events[..i + 1] == [events[0]] + events[1..][..i];
        assert events[..i + 1][1..] == events[1..][..i];
      }
      LegacyStaysInFirstTwoSteps(s, []);
      LegacyAgreesUntilStepTwoSaved(s, events[1..]);
    }
  }

  /** The legacy wizard state: the current step and the pages of steps 1 and 2. */
  class LegacyWizard {
    var step: int
    const selection: TimesheetStep1.Selection
    const timeline: TimesheetStep2.TripTimeline

    constructor ()
      ensures step == 1
      ensures fresh(selection) && fresh(timeline)
      ensures selection.selectedDate == "" && selection.selectedShifts == [] && selection.unitType == "3 Shift"
      ensures timeline.trips == [] && timeline.editingTripId.None? && timeline.manualIdCounter == 0
    {
      step := 1;
      selection := new TimesheetStep1.Selection();
      timeline := new TimesheetStep2.TripTimeline();
    }

    /** loadStep: record the step and start its loader (steps 1 and 2 only). */
    method LoadStep(stepNumber: int) returns (loader: Loader)
      modifies this
      ensures step == stepNumber
      ensures loader == LegacyLoaderFor(stepNumber)
    {
      step := stepNumber;
      loader := LegacyLoaderFor(stepNumber);
    }

    /** goBackStep: from step 2 load step 1; on any other step do nothing. */
    method GoBackStep() returns (loader: Loader)
      modifies this
      ensures step == BackTarget(old(step))
      ensures loader == (if old(step) == 2 then LoadStep1 else NoLoader)
    {
      loader := NoLoader;
      if step == 2 {
        loader := LoadStep(1);
      }
    }

    /**
     * nextStep: step 1 saves its data and loads step 2 on success; step 2
     * saves its data and stays, whatever the answer.
     */
    method NextStep(saved: bool) returns (sent: Save, loader: Loader)
      modifies this
      ensures old(step) == 1 ==> sent == SaveStep1(selection.selectedDate, selection.selectedShifts, selection.unitType)
      ensures old(step) == 2 ==> sent == SaveStep2(timeline.equipmentNumber, timeline.operatorId, timeline.trips)
      ensures old(step) != 1 && old(step) != 2 ==> sent == NoSave
      ensures step == LegacyNextTarget(old(step), saved)
      ensures loader == (if step != old(step) then LoadStep2 else NoLoader)
    {
      sent, loader := NoSave, NoLoader;
      if step == 1 {
        sent := SaveStep1(selection.selectedDate, selection.selectedShifts, selection.unitType);
        if saved {
          loader := LoadStep(2);
        }
      } else if step == 2 {
        sent := SaveStep2(timeline.equipmentNumber, timeline.operatorId, timeline.trips);
      }
    }

    /** cancelWizard: as in the modular version, the state is kept. */
    method CancelWizard(confirmed: bool) returns (clearSent: bool)
      ensures clearSent == confirmed
    {
      clearSent := confirmed;
    }
  }
}
