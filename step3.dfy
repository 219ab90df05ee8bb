/**
 * Step 3 of the wizard: the table of HM validation rows, the four update
 * forms opened from it (shift, previous logout HM, login HM, logout HM) and
 * the auto-validation run that executes the configured fix-up queries one
 * after another.
 */
module TimesheetStep3 {
  import opened Wrappers
  import opened Text
  import opened HmRules

  /** The row a form's index names; an index that is not a number reads no row (rows[NaN] is undefined). */
  function RowAt(rows: seq<Row>, rowIndex: Option<int>): Row
    requires rowIndex.Some? ==> 0 <= rowIndex.value < |rows|
  {
    match rowIndex
    case None => NullRow
    case Some(i) => rows[i]
  }

  /** The index check the forms make: only a number outside the table fails it; NaN passes. */
  predicate IndexRejected(rows: seq<Row>, rowIndex: Option<int>)
  {
    rowIndex.Some? && (rowIndex.value < 0 || rowIndex.value >= |rows|)
  }

  // ---------------------------------------------------------------------
  // The shift form
  // ---------------------------------------------------------------------

  datatype ShiftRefusal = NoShiftChosen | InvalidRow | MissingId | NotLoggedOut

  /** The body posted to update-shift. */
  datatype ShiftRequest = ShiftRequest(
    id: Value, nextId: Value, reportTime: Value, nextReportTime: Value, mobileId: Value,
    oprNrp: Value, hm: Value, nextHm: Value, oprShift: Value, newShift: string)

  /**
   * handleShiftUpdate's checks, in order: a shift must be chosen, the index
   * must not be outside the table, the row must have an id, and the operator
   * must have logged out (a next report time). Only then is the request sent.
   */
  function ShiftUpdateRequest(rows: seq<Row>, rowIndex: Option<int>, newShift: string): (r: Result<ShiftRequest, ShiftRefusal>)
    ensures r == Failure(NoShiftChosen) <==> newShift == ""
    ensures r == Failure(InvalidRow) <==> newShift != "" && IndexRejected(rows, rowIndex)
    ensures newShift != "" && !IndexRejected(rows, rowIndex) ==>
      var row := RowAt(rows, rowIndex);
      && (r == Failure(MissingId) <==> !Truthy(Lookup(row, "id")))
      && (r == Failure(NotLoggedOut) <==> Truthy(Lookup(row, "id")) && !Truthy(Lookup(row, "next_reporttime")))
      && (r.Success? <==> Truthy(Lookup(row, "id")) && Truthy(Lookup(row, "next_reporttime")))
    ensures r.Success? ==>
      && newShift != "" && rowIndex.Some? && 0 <= rowIndex.value < |rows|
      && var row := rows[rowIndex.value];
      && r.value.newShift == newShift && r.value.id == Lookup(row, "id") && r.value.nextId == Lookup(row, "next_id")
      && r.value.reportTime == Lookup(row, "reporttime") && r.value.nextReportTime == Lookup(row, "next_reporttime")
      && r.value.mobileId == Or(Lookup(row, "MOBILEID"), Lookup(row, "mobileid")) && r.value.oprNrp == Lookup(row, "opr_nrp")
      && r.value.hm == Lookup(row, "hm") && r.value.nextHm == Lookup(row, "next_hm")
      && r.value.oprShift == Lookup(row, "opr_shift")
    ensures rowIndex.None? && newShift != "" ==> r == Failure(MissingId)
  {
    if newShift == "" then Failure(NoShiftChosen)
    else if IndexRejected(rows, rowIndex) then Failure(InvalidRow)
    else
      var row := RowAt(rows, rowIndex);
      var id := Lookup(row, "id");
      var nextReportTime := Lookup(row, "next_reporttime");
      if !Truthy(id) then Failure(MissingId)
      else if !Truthy(nextReportTime) then Failure(NotLoggedOut)
      else
        Success(ShiftRequest(id, Lookup(row, "next_id"), Lookup(row, "reporttime"), nextReportTime,
                             Or(Lookup(row, "MOBILEID"), Lookup(row, "mobileid")), Lookup(row, "opr_nrp"),
                             Lookup(row, "hm"), Lookup(row, "next_hm"), Lookup(row, "opr_shift"), newShift))
  }

  // ---------------------------------------------------------------------
  // The three HM forms
  // ---------------------------------------------------------------------

  /** Which HM the form corrects: the previous logout, the login, or the logout. */
  datatype HmForm = PrevHm | LoginHm | LogoutHm

  datatype HmRefusal = InvalidHm | BadRow | MissingData

  /** The body posted to the form's update endpoint. */
  datatype HmRequest = HmRequest(form: HmForm, targetId: Value, oprNrp: Value, currentHm: Value, newHm: real, oprShift: Value)

  /** The id the form updates: prev_id or next_id for the outer forms, falling back to id; id for the login form. */
  function TargetId(form: HmForm, row: Row): (v: Value)
    ensures form == LoginHm ==> v == Lookup(row, "id")
    ensures form == PrevHm && !Truthy(Lookup(row, "prev_id")) ==> v == Lookup(row, "id")
    ensures form == LogoutHm && !Truthy(Lookup(row, "next_id")) ==> v == Lookup(row, "id")
    ensures Truthy(v) ==> Truthy(Lookup(row, "id")) || Truthy(Lookup(row, HmIdKey(form)))
  {
    match form
    case PrevHm => Or(Lookup(row, "prev_id"), Lookup(row, "id"))
    case LoginHm => Lookup(row, "id")
    case LogoutHm => Or(Lookup(row, "next_id"), Lookup(row, "id"))
  }

  /** The id field a form prefers. */
  function HmIdKey(form: HmForm): string
  {
    match form
    case PrevHm => "prev_id"
    case LoginHm => "id"
    case LogoutHm => "next_id"
  }

  /** The HM field a form corrects. */
  function HmKey(form: HmForm): string
  {
    match form
    case PrevHm => "prev_hm"
    case LoginHm => "hm"
    case LogoutHm => "next_hm"
  }

  /**
   * handlePrevHmUpdate, handleHmUpdate and handleNextHmUpdate: the typed
   * value must read as a number, the index must not be outside the table,
   * and the row must have a target id and an operator NRP.
   */
  function HmUpdateRequest(form: HmForm, rows: seq<Row>, rowIndex: Option<int>, input: string): (r: Result<HmRequest, HmRefusal>)
    ensures r == Failure(InvalidHm) <==> ParseFloat(Str(input)).None?
    ensures r == Failure(BadRow) <==> ParseFloat(Str(input)).Some? && IndexRejected(rows, rowIndex)
    ensures ParseFloat(Str(input)).Some? && !IndexRejected(rows, rowIndex) ==>
      var row := RowAt(rows, rowIndex);
      && (r == Failure(MissingData) <==> !Truthy(TargetId(form, row)) || !Truthy(Lookup(row, "opr_nrp")))
      && (r.Success? <==> Truthy(TargetId(form, row)) && Truthy(Lookup(row, "opr_nrp")))
    ensures r.Success? ==>
      && rowIndex.Some? && 0 <= rowIndex.value < |rows|
      && Some(r.value.newHm) == ParseFloat(Str(input)) && r.value.form == form
      && r.value.targetId == TargetId(form, rows[rowIndex.value]) && Truthy(r.value.targetId)
      && r.value.oprNrp == Lookup(rows[rowIndex.value], "opr_nrp") && Truthy(r.value.oprNrp)
      && r.value.currentHm == Lookup(rows[rowIndex.value], HmKey(form))
      && r.value.oprShift == Lookup(rows[rowIndex.value], "opr_shift")
    ensures ParseFloat(Str(input)).Some? && rowIndex.None? ==> r == Failure(MissingData)
  {
    match ParseFloat(Str(input))
    case None => Failure(InvalidHm)
    case Some(newHm) =>
      if IndexRejected(rows, rowIndex) then Failure(BadRow)
      else
        var row := RowAt(rows, rowIndex);
        var target := TargetId(form, row);
        var nrp := Lookup(row, "opr_nrp");
        if !Truthy(target) || !Truthy(nrp) then Failure(MissingData)
        else Success(HmRequest(form, target, nrp, Lookup(row, HmKey(form)), newHm, Lookup(row, "opr_shift")))
  }

  // ---------------------------------------------------------------------
  // The table
  // ---------------------------------------------------------------------

  /** The rows of step 3 (timesheetState.step3). */
  class Step3Table {
    var rows: seq<Row>

    constructor ()
      ensures rows == []
    {
      rows := [];
    }

    /** loadStep3: the rows of a successful reply (none when it has none), and no rows after a failure. */
    method Load(reply: Option<seq<Row>>)
      modifies this
      ensures reply.Some? ==> rows == reply.value
      ensures reply.None? ==> rows == []
    {
      rows := if reply.Some? then reply.value else [];
    }

    /**
     * handleShiftUpdate: when the request goes out and the server accepts
     * it, the row's opr_shift becomes the new shift; nothing else changes.
     */
    method HandleShiftUpdate(rowIndex: Option<int>, newShift: string, replyOk: bool) returns (r: Result<ShiftRequest, ShiftRefusal>)
      modifies this
      ensures r == ShiftUpdateRequest(old(rows), rowIndex, newShift)
      ensures |rows| == |old(rows)|
      ensures !(r.Success? && replyOk) ==> rows == old(rows)
      ensures r.Success? && replyOk ==>
        var i := rowIndex.value;
        && rows == old(rows)[i := SetField(old(rows)[i], "opr_shift", Str(newShift))]
        && rows[i].Obj? && Lookup(rows[i], "opr_shift") == Str(newShift)
        && (forall k :: Lower(k) != Lower("opr_shift") ==> Lookup(rows[i], k) == Lookup(old(rows)[i], k))
    {
      r := ShiftUpdateRequest(rows, rowIndex, newShift);
      if r.Success? && replyOk {
        var i := rowIndex.value;
        var row := rows[i];
        SetFieldEffect(row, "opr_shift", Str(newShift));
        rows := rows[i := SetField(row, "opr_shift", Str(newShift))];
      }
    }
  }

  // ---------------------------------------------------------------------
  // Auto validation
  // ---------------------------------------------------------------------

  /** A configured fix-up: its process name and the statement it runs. */
  datatype ValidationQuery = ValidationQuery(name: string, query: string)

  const ValidationQueries: seq<ValidationQuery> := [
    ValidationQuery("Fix Small HM Jump", "EXEC dbo.autofix_hm_001_lompat_kecil"),
    ValidationQuery("Fix Missing Comma", "EXEC dbo.autofix_hm_002_lupa_koma"),
    ValidationQuery("Fix HM Jump on Relogin", "EXEC dbo.autofix_hm_003_loncat_relogin"),
    ValidationQuery("Validate Workshop HM", "EXEC dbo.autofix_hm_004_valid_workshop"),
    ValidationQuery("Fix Backward HM Same as Previous", "EXEC dbo.autofix_hm_005_mundur_sama_prev"),
    ValidationQuery("Fix Same HM on Relogin", "EXEC dbo.autofix_hm_006_sama_relogin")
  ]

  /** The number of steps a run takes: one per configured query, or 10 placeholders when none is configured. */
  function QueryCount(queries: seq<ValidationQuery>): (n: nat)
    ensures n >= 1
    ensures |queries| > 0 ==> n == |queries|
    ensures |queries| == 0 ==> n == 10
  {
    if |queries| > 0 then |queries| else 10
  }

  /** The query run at step i: the configured one, or a numbered placeholder. */
  function QueryAt(queries: seq<ValidationQuery>, i: nat): (q: ValidationQuery)
    ensures i < |queries| ==> q == queries[i]
  {
    if i < |queries| then queries[i]
    else
      var number := NatToString(i + 1);
      ValidationQuery("Validation Process " + number, "-- Query " + number + " (to be configured)")
  }

  datatype StepStatus = Running | Completed | Failed

  /** The progress count shown for step index: the steps before it, plus this one once it has ended. */
  function ProgressCount(index: nat, status: StepStatus): (n: nat)
    ensures status == Running ==> n == index
    ensures status != Running ==> n == index + 1
  {
    index + (if status == Completed || status == Failed then 1 else 0)
  }

  /** What the progress list shows when a step ends. */
  datatype Progress = Progress(name: string, status: StepStatus, done: nat, total: nat)

  /** validationState: whether a run is going, the next step, and the number of steps. */
  class AutoValidation {
    var isRunning: bool
    var currentIndex: nat
    var totalQueries: nat

    /** The next step never passes the end, and a run has at least one step. */
    ghost predicate Valid()
      reads this
    {
      currentIndex <= totalQueries && (isRunning ==> totalQueries >= 1)
    }

    constructor ()
      ensures Valid()
      ensures !isRunning && currentIndex == 0 && totalQueries == 0
    {
      isRunning, currentIndex, totalQueries := false, 0, 0;
    }

    /** startAutoValidation: refused while a run is going; otherwise a run starts at step 0. */
    method Start() returns (started: bool)
      requires Valid()
      modifies this
      ensures Valid()
      ensures started <==> !old(isRunning)
      ensures !started ==> isRunning == old(isRunning) && currentIndex == old(currentIndex) && totalQueries == old(totalQueries)
      ensures started ==> isRunning && currentIndex == 0 && totalQueries == QueryCount(ValidationQueries)
    {
      if isRunning {
        return false;
      }
      isRunning := true;
      currentIndex := 0;
      totalQueries := QueryCount(ValidationQueries);
      started := true;
    }

    /**
     * runNextValidationQuery: past the last step the run finishes; otherwise
     * the current query runs, completing or failing, and the index moves on
     * by one either way.
     */
    method RunNext(failed: bool) returns (progress: Option<Progress>)
      requires Valid()
      modifies this
      ensures Valid()
      ensures totalQueries == old(totalQueries)
      ensures old(currentIndex) >= old(totalQueries) ==>
        !isRunning && currentIndex == old(currentIndex) && progress.None?
      ensures old(currentIndex) < old(totalQueries) ==>
        && isRunning == old(isRunning) && currentIndex == old(currentIndex) + 1
        && progress == Some(Progress(QueryAt(ValidationQueries, old(currentIndex)).name,
                                     if failed then Failed else Completed, currentIndex, totalQueries))
    {
      if currentIndex >= totalQueries {
        isRunning := false;
        return None;
      }
      var query := QueryAt(ValidationQueries, currentIndex);
      var status := if failed then Failed else Completed;
      progress := Some(Progress(query.name, status, ProgressCount(currentIndex, status), totalQueries));
      currentIndex := currentIndex + 1;
    }

    /**
     * A whole run from a fresh start: one step per query, each reporting
     * one more done step than the last, then the finishing step.
     */
    method RunToEnd(failures: seq<bool>) returns (reports: seq<Progress>)
      requires Valid() && isRunning && currentIndex == 0
      requires |failures| == totalQueries
      modifies this
      ensures Valid()
      ensures !isRunning && currentIndex == totalQueries && totalQueries == old(totalQueries)
      ensures |reports| == totalQueries
      ensures forall i :: 0 <= i < |reports| ==>
        reports[i] == Progress(QueryAt(ValidationQueries, i).name, if failures[i] then Failed else Completed, i + 1, totalQueries)
    {
      reports := [];
      while currentIndex < totalQueries
        invariant Valid() && isRunning
        invariant totalQueries == old(totalQueries)
        invariant |reports| == currentIndex
        invariant forall i :: 0 <= i < |reports| ==>
          reports[i] == Progress(QueryAt(ValidationQueries, i).name, if failures[i] then Failed else Completed, i + 1, totalQueries)
        decreases totalQueries - currentIndex
      {
        var p := RunNext(failures[currentIndex]);
        reports := reports + [p.value];
      }
      var last := RunNext(false);
    }
  }
}
