/**
 * The wizard's step machine: which step is shown, which loader a step
 * change starts, what Next saves and when it moves on, Back and Cancel.
 * The state of the steps themselves lives in the step classes.
 */
module TimesheetWizard {
  import TimesheetStep1
  import TimesheetStep2
  import TimesheetStep3
  import Trips

  /** The step loader loadStep starts (each fetches its saved data, then renders). */
  datatype Loader = NoLoader | LoadStep1 | LoadStep2 | LoadStep3

  /** The body of the save request nextStep sends. */
  datatype Save =
    | NoSave
    | SaveStep1(selectedDate: string, selectedShifts: seq<string>, unitType: string)
    | SaveStep2(equipmentNumber: string, operatorId: string, trips: seq<Trips.Trip>)

  /**
   * A click on a navigation button of the page shown, with the server's
   * answer when the click saves: Next, or the page's Back button.
   */
  datatype NavEvent = Next(saved: bool) | Back

  /** loadStep: the loader for steps 1 to 3; any other number sets the step and loads nothing. */
  function LoaderFor(n: int): (l: Loader)
    ensures l.NoLoader? <==> !(1 <= n <= 3)
    ensures l == LoadStep1 <==> n == 1
    ensures l == LoadStep2 <==> n == 2
    ensures l == LoadStep3 <==> n == 3
  {
    if n == 1 then LoadStep1 else if n == 2 then LoadStep2 else if n == 3 then LoadStep3 else NoLoader
  }

  /**
   * The step after the Next button: nextStep on steps 1 and 2 moves on once
   * its save succeeds; step 3's Next only shows an alert.
   */
  function NextTarget(step: int, saved: bool): (s: int)
    ensures s == step || (saved && s == step + 1 && 1 <= step <= 2)
    ensures saved && 1 <= step <= 2 ==> s == step + 1
  {
    if step == 1 && saved then 2 else if step == 2 && saved then 3 else step
  }

  /** The step after goBackStep: only step 2 goes back (to step 1). */
  function BackTarget(step: int): (s: int)
    ensures s == (if step == 2 then 1 else step)
  {
    if step == 2 then 1 else step
  }

  /**
   * The step after the Back button of the page shown: step 2's calls
   * goBackStep, step 3's calls loadStep(2) directly; step 1 has none.
   */
  function BackButtonTarget(step: int): (s: int)
    ensures 2 <= step <= 3 ==> s == step - 1
    ensures !(2 <= step <= 3) ==> s == step
  {
    if step == 3 then 2 else BackTarget(step)
  }

  /** The step after one navigation event. */
  function NavTarget(step: int, e: NavEvent): int
  {
    match e
    case Next(ok) => NextTarget(step, ok)
    case Back => BackButtonTarget(step)
  }

  /** The step after a run of navigation events. */
  function Navigate(step: int, events: seq<NavEvent>): int
    decreases |events|
  {
    if |events| == 0 then step else Navigate(NavTarget(step, events[0]), events[1..])
  }

  /** Starting from any step, any run of Next and Back stays within steps 1 to 3. */
  lemma {:induction false} NavigateStaysInSteps(step: int, events: seq<NavEvent>)
    requires 1 <= step <= 3
    ensures 1 <= Navigate(step, events) <= 3
    decreases |events|
  {
    if |events| > 0 {
      NavigateStaysInSteps(NavTarget(step, events[0]), events[1..]);
    }
  }

  /** Navigating a run and then one more event is one more step. */
  lemma {:induction false} NavigateSnoc(step: int, events: seq<NavEvent>, e: NavEvent)
    ensures Navigate(step, events + [e]) == NavTarget(Navigate(step, events), e)
    decreases |events|
  {
    if |events| == 0 {
      assert events + [e] == [e];
    } else {
      assert (events + [e])[1..] == events[1..] + [e];
      NavigateSnoc(NavTarget(step, events[0]), events[1..], e);
    }
  }

  /** On step 3 no Next leaves it: without a Back click the wizard stays on step 3. */
  lemma {:induction false} StepThreeHeldUntilBack(events: seq<NavEvent>)
    requires Back !in events
    ensures Navigate(3, events) == 3
    decreases |events|
  {
    if |events| > 0 {
      assert events[0] != Back;
      assert Back !in events[1..] by {
        forall i | 0 <= i < |events[1..]| ensures events[1..][i] != Back {
          assert events[1..][i] == events[i + 1];
        }
      }
      StepThreeHeldUntilBack(events[1..]);
    }
  }

  /** Step 3 is left by its Back button alone, and that click lands on step 2. */
  lemma StepThreeLeftByBack(events: seq<NavEvent>, k: nat)
    requires k < |events| && events[k] == Back && Back !in events[..k]
    ensures Navigate(3, events[..k]) == 3
    ensures Navigate(3, events[..k + 1]) == 2
  {
    StepThreeHeldUntilBack(events[..k]);
    assert events[..k + 1] == events[..k] + [Back];
    NavigateSnoc(3, events[..k], Back);
  }

  /** The number of successful saves in a run of events. */
  function SuccessfulSaves(events: seq<NavEvent>): nat
    decreases |events|
  {
    if |events| == 0 then 0
    else (if events[0] == Next(true) then 1 else 0) + SuccessfulSaves(events[1..])
  }

  /** From step 1 or 2, step 3 is reached only after 3 - step successful saves (two from step 1). */
  lemma {:induction false} StepThreeNeedsSaves(step: int, events: seq<NavEvent>)
    requires 1 <= step <= 2
    requires Navigate(step, events) == 3
    ensures SuccessfulSaves(events) >= 3 - step
    decreases |events|
  {
    var s := NavTarget(step, events[0]);
    if s != 3 {
      StepThreeNeedsSaves(s, events[1..]);
    }
  }

  /** The wizard state: the current step and the state of each step's page. */
  class WizardState {
    var step: int
    const selection: TimesheetStep1.Selection
    const timeline: TimesheetStep2.TripTimeline
    const table: TimesheetStep3.Step3Table

    /** The initial state: step 1, every page empty. */
    constructor ()
      ensures step == 1
      ensures fresh(selection) && fresh(timeline) && fresh(table)
      ensures selection.selectedDate == "" && selection.selectedShifts == [] && selection.unitType == "3 Shift"
      ensures timeline.trips == [] && timeline.editingTripId.None? && timeline.manualIdCounter == 0
      ensures table.rows == []
    {
      step := 1;
      selection := new TimesheetStep1.Selection();
      timeline := new TimesheetStep2.TripTimeline();
      table := new TimesheetStep3.Step3Table();
    }

    /** loadStep: record the step and start its loader. */
    method LoadStep(stepNumber: int) returns (loader: Loader)
      modifies this
      ensures step == stepNumber
      ensures loader == LoaderFor(stepNumber)
    {
      step := stepNumber;
      loader := LoaderFor(stepNumber);
    }

    /** goBackStep: from step 2 load step 1; on any other step do nothing. */
    method GoBackStep() returns (loader: Loader)
      modifies this
      ensures step == BackTarget(old(step))
      ensures loader == (if old(step) == 2 then LoadStep1 else NoLoader)
    {
      loader := NoLoader;
      if step == 2 {
        loader := LoadStep(1);
      }
    }

    /**
     * nextStep: on step 1 save the date, shifts and unit type, on step 2
     * the equipment, operator and trips; when the save succeeds load the
     * following step, otherwise stay (the error is only shown).
     */
    method NextStep(saved: bool) returns (sent: Save, loader: Loader)
      modifies this
      ensures old(step) == 1 ==> sent == SaveStep1(selection.selectedDate, selection.selectedShifts, selection.unitType)
      ensures old(step) == 2 ==> sent == SaveStep2(timeline.equipmentNumber, timeline.operatorId, timeline.trips)
      ensures old(step) != 1 && old(step) != 2 ==> sent == NoSave
      ensures step == NextTarget(old(step), saved)
      ensures loader == (if step != old(step) then LoaderFor(step) else NoLoader)
    {
      sent, loader := NoSave, NoLoader;
      if step == 1 {
        sent := SaveStep1(selection.selectedDate, selection.selectedShifts, selection.unitType);
        if saved {
          loader := LoadStep(2);
        }
      } else if step == 2 {
        sent := SaveStep2(timeline.equipmentNumber, timeline.operatorId, timeline.trips);
        if saved {
          loader := LoadStep(3);
        }
      }
    }

    /**
     * cancelWizard: after confirmation the session is cleared on the server
     * and the start screen is shown; the state, the step included, is kept.
     */
    method CancelWizard(confirmed: bool) returns (clearSent: bool)
      ensures clearSent == confirmed
    {
      clearSent := confirmed;
    }
  }
}
