/**
 * The step-2 page state (the trips of one equipment for the chosen date and
 * shifts, the row being edited, and the counter behind manual trip ids) and
 * the handlers that change it. Each handler takes the server's reply as a
 * parameter and is modelled as if the reply arrived before anything else
 * happened.
 */
module TimesheetStep2 {
  import opened Wrappers
  import opened Text
  import DateTimes
  import opened Trips

  /** The reply to add-trip: an error, or success with the id the database assigned (if any). */
  datatype AddReply = AddFailed | AddSaved(serverId: Option<string>)

  /** The reply to the trips query: an error, or the trips found (an empty list when none came back). */
  datatype FetchReply = FetchFailed | FetchOk(trips: seq<Trip>)

  /** The query string fetchTrips sends. */
  datatype FetchRequest = FetchRequest(equipment: string, date: string, shifts: string, operator: Option<string>)

  /** Why fetchTrips sent nothing. */
  datatype FetchRefusal = MissingEquipment | StepOneIncomplete

  /** The body saveRow posts to update-trip. */
  datatype UpdateRequest = UpdateRequest(id: string, reportTime: string, loaderId: string, posName: string, distance: string)

  /** The time field of the update body: the database form, or '' for an empty input. */
  function ReportTimeField(input: Option<DateTimes.DateTime>): string
    requires input.Some? ==> DateTimes.Valid(input.value)
  {
    match input
    case None => ""
    case Some(d) => DateTimes.FormatForDB(d)
  }

  /**
   * The query fetchTrips sends: refused for a blank equipment number, then
   * for a step 1 without a date or a shift; otherwise the trimmed equipment
   * number, the date, the shifts joined with commas, and the trimmed
   * operator id when it is not blank.
   */
  function TripsQuery(equipmentInput: string, operatorInput: string, selectedDate: string, selectedShifts: seq<string>)
    : (r: Result<FetchRequest, FetchRefusal>)
    ensures Trim(JavaScript, equipmentInput) == "" <==> r == Failure(MissingEquipment)
    ensures r == Failure(StepOneIncomplete) <==> Trim(JavaScript, equipmentInput) != "" && (selectedDate == "" || |selectedShifts| == 0)
    ensures r.Success? ==>
      && r.value.equipment == Trim(JavaScript, equipmentInput) && r.value.equipment != ""
      && r.value.date == selectedDate && r.value.date != ""
      && r.value.shifts == Join(selectedShifts, ',')
    ensures r.Success? ==> (r.value.operator.None? <==> Trim(JavaScript, operatorInput) == "")
    ensures r.Success? && r.value.operator.Some? ==> r.value.operator.value == Trim(JavaScript, operatorInput)
  {
    var equipment := Trim(JavaScript, equipmentInput);
    var operator := Trim(JavaScript, operatorInput);
    if equipment == "" then Failure(MissingEquipment)
    else if selectedDate == "" || |selectedShifts| == 0 then Failure(StepOneIncomplete)
    else
      Success(FetchRequest(equipment, selectedDate, Join(selectedShifts, ','), if operator != "" then Some(operator) else None))
  }

  /** The server splits the shift parameter on commas and gets the selected shifts back. */
  lemma TripsQueryShifts(equipmentInput: string, operatorInput: string, selectedDate: string, selectedShifts: seq<string>)
    requires TripsQuery(equipmentInput, operatorInput, selectedDate, selectedShifts).Success?
    requires forall p :: p in selectedShifts ==> ',' !in p
    ensures Split(TripsQuery(equipmentInput, operatorInput, selectedDate, selectedShifts).value.shifts, ',') == selectedShifts
  {
    SplitJoin(selectedShifts, ',');
  }

  /**
   * The row a new trip copies, found the way addRowBelow finds it: below a
   * LOGIN marker the next ordinary trip in time order, above a LOGOUT marker
   * the previous one, and otherwise (or when the scan finds none) the row
   * itself.
   */
  method ChooseReference(trips: seq<Trip>, anchor: Trip, tripId: string) returns (reference: Trip)
    ensures reference == ReferenceTrip(trips, anchor, tripId)
  {
    reference := anchor;
    var kind := KindOf(anchor);
    if kind == Login || kind == Logout {
      var sorted := SortByTime(trips);
      reference := ScanAround(sorted, kind == Login, anchor, tripId);
    }
  }

  /** The two loops of addRowBelow over the trips in time order. */
  method ScanAround(sorted: seq<Trip>, forward: bool, anchor: Trip, tripId: string) returns (reference: Trip)
    ensures reference == ReferenceAround(sorted, forward, anchor, tripId)
  {
    reference := anchor;
    var currentIndex := FindIndex(sorted, tripId);
    var found: Option<nat>;
    if forward {
      found := ScanForward(sorted, currentIndex);
    } else {
      found := ScanBackward(sorted, currentIndex);
    }
    if found.Some? {
      reference := sorted[found.value];
    }
  }

  /** The operator name after a fetch reply: the first name that is not blank among the trips received, else the one shown. */
  function NameAfterReply(shown: Option<string>, reply: FetchReply): Option<string>
  {
    if reply.FetchOk? && FirstOperatorName(reply.trips).Some? then FirstOperatorName(reply.trips) else shown
  }

  class TripTimeline {
    var equipmentNumber: string
    var operatorId: string
    var operatorName: Option<string>
    var trips: seq<Trip>
    var editingTripId: Option<string>
    var manualIdCounter: nat

    /** Every report time held is a calendar date-time. */
    ghost predicate Valid()
      reads this
    {
      forall t :: t in trips ==> WellTimed(t)
    }

    /** The state before anything is fetched. */
    constructor ()
      ensures Valid()
      ensures equipmentNumber == "" && operatorId == "" && operatorName.None?
      ensures trips == [] && editingTripId.None? && manualIdCounter == 0
    {
      equipmentNumber, operatorId, operatorName := "", "", None;
      trips, editingTripId, manualIdCounter := [], None, 0;
    }

    /**
     * loadStep2: the saved equipment number, operator id and trips replace
     * the state when the server returned any, each missing one falling back
     * to empty; the editing lock, the operator name and the counter stay.
     */
    method Restore(saved: Option<(Option<string>, Option<string>, Option<seq<Trip>>)>)
      requires Valid()
      requires saved.Some? && saved.value.2.Some? ==> forall t :: t in saved.value.2.value ==> WellTimed(t)
      modifies this
      ensures Valid()
      ensures saved.Some? ==> equipmentNumber == (if saved.value.0.Some? then saved.value.0.value else "")
      ensures saved.Some? ==> operatorId == (if saved.value.1.Some? then saved.value.1.value else "")
      ensures saved.Some? ==> trips == (if saved.value.2.Some? then saved.value.2.value else [])
      ensures saved.None? ==> equipmentNumber == old(equipmentNumber) && operatorId == old(operatorId) && trips == old(trips)
      ensures operatorName == old(operatorName) && editingTripId == old(editingTripId) && manualIdCounter == old(manualIdCounter)
    {
      if saved.Some? {
        var (equipment, operator, savedTrips) := saved.value;
        equipmentNumber := if equipment.Some? then equipment.value else "";
        operatorId := if operator.Some? then operator.value else "";
        trips := if savedTrips.Some? then savedTrips.value else [];
      }
    }

    /** The statistics footer for the trips held. */
    function Stats(): Trips.Stats
      reads this
    {
      Tally(trips)
    }

    /**
     * fetchTrips: when the query is refused nothing changes. Otherwise the
     * trimmed inputs are kept and the query is sent; on success the trips
     * are replaced by the reply, and the operator name by the first
     * non-blank one in it.
     */
    method FetchTrips(equipmentInput: string, operatorInput: string, selectedDate: string, selectedShifts: seq<string>, reply: FetchReply)
      returns (r: Result<FetchRequest, FetchRefusal>)
      requires Valid()
      requires reply.FetchOk? ==> forall t :: t in reply.trips ==> WellTimed(t)
      modifies this
      ensures Valid()
      ensures r == TripsQuery(equipmentInput, operatorInput, selectedDate, selectedShifts)
      ensures editingTripId == old(editingTripId) && manualIdCounter == old(manualIdCounter)
      ensures r.Failure? ==>
        && trips == old(trips) && equipmentNumber == old(equipmentNumber)
        && operatorId == old(operatorId) && operatorName == old(operatorName)
      ensures r.Success? ==>
        && equipmentNumber == Trim(JavaScript, equipmentInput) && operatorId == Trim(JavaScript, operatorInput)
        && (reply.FetchFailed? ==> trips == old(trips) && operatorName == old(operatorName))
        && (reply.FetchOk? ==> trips == reply.trips)
        && operatorName == NameAfterReply(old(operatorName), reply)
    {
      r := TripsQuery(equipmentInput, operatorInput, selectedDate, selectedShifts);
      if r.Failure? {
        return;
      }
      equipmentNumber := Trim(JavaScript, equipmentInput);
      operatorId := Trim(JavaScript, operatorInput);
      ApplyFetchReply(reply);
    }

    /** The reply handler of fetchTrips: on success the trips and, when one is given, the operator name are taken from it. */
    method ApplyFetchReply(reply: FetchReply)
      requires Valid()
      requires reply.FetchOk? ==> forall t :: t in reply.trips ==> WellTimed(t)
      modifies this
      ensures Valid()
      ensures equipmentNumber == old(equipmentNumber) && operatorId == old(operatorId)
      ensures editingTripId == old(editingTripId) && manualIdCounter == old(manualIdCounter)
      ensures reply.FetchFailed? ==> trips == old(trips) && operatorName == old(operatorName)
      ensures reply.FetchOk? ==> trips == reply.trips
      ensures operatorName == NameAfterReply(old(operatorName), reply)
    {
      operatorName := NameAfterReply(operatorName, reply);
      if reply.FetchOk? {
        trips := reply.trips;
      }
    }

    /** clearTable: no trips and blank inputs; the edit lock and the counter stay. */
    method ClearTable()
      modifies this
      ensures Valid()
      ensures trips == [] && equipmentNumber == "" && operatorId == ""
      ensures operatorName == old(operatorName) && editingTripId == old(editingTripId) && manualIdCounter == old(manualIdCounter)
    {
      trips := [];
      equipmentNumber := "";
      operatorId := "";
    }

    /**
     * addRowBelow: for a known id, the counter advances and a manual trip
     * copying the reference row is sent; on success it joins the list, which
     * is sorted again by time. An unknown id does nothing.
     */
    method AddRowBelow(tripId: string, now: DateTimes.DateTime, reply: AddReply) returns (sent: Option<Trip>)
      requires Valid() && DateTimes.Valid(now)
      modifies this
      ensures Valid()
      ensures equipmentNumber == old(equipmentNumber) && operatorId == old(operatorId)
      ensures operatorName == old(operatorName) && editingTripId == old(editingTripId)
      ensures FindById(old(trips), tripId).None? ==>
        sent.None? && trips == old(trips) && manualIdCounter == old(manualIdCounter)
      ensures FindById(old(trips), tripId).Some? ==>
        && manualIdCounter == old(manualIdCounter) + 1
        && sent == Some(NewManualTrip(ManualId(manualIdCounter),
                          ReferenceTrip(old(trips), old(trips)[FindById(old(trips), tripId).value], tripId), now))
        && (reply.AddFailed? ==> trips == old(trips))
        && (reply.AddSaved? ==>
              && trips == SortByTime(old(trips) + [WithServerId(sent.value, reply.serverId)])
              && multiset(trips) == multiset(old(trips)) + multiset{WithServerId(sent.value, reply.serverId)}
              && Tally(trips) == Trips.Stats(Tally(old(trips)).active + 1, Tally(old(trips)).added + 1, Tally(old(trips)).deleted))
    {
      var found := FindById(trips, tripId);
      if found.None? {
        return None;
      }
      var reference := ChooseReference(trips, trips[found.value], tripId);
      manualIdCounter := manualIdCounter + 1;
      var newTrip := NewManualTrip(ManualId(manualIdCounter), reference, now);
      sent := Some(newTrip);
      if reply.AddSaved? {
        assert WellTimed(WithServerId(newTrip, reply.serverId)) by {
          ReferenceKeepsTiming(trips, trips[found.value], tripId, now);
        }
        Land(WithServerId(newTrip, reply.serverId));
      }
    }

    /** A saved manual trip joins the list, which is sorted again by time. */
    method Land(saved: Trip)
      requires Valid() && WellTimed(saved) && saved.note == Manual
      modifies this
      ensures Valid()
      ensures trips == SortByTime(old(trips) + [saved])
      ensures multiset(trips) == multiset(old(trips)) + multiset{saved}
      ensures Tally(trips) == Trips.Stats(Tally(old(trips)).active + 1, Tally(old(trips)).added + 1, Tally(old(trips)).deleted)
      ensures equipmentNumber == old(equipmentNumber) && operatorId == old(operatorId) && operatorName == old(operatorName)
      ensures editingTripId == old(editingTripId) && manualIdCounter == old(manualIdCounter)
    {
      var landed := SortByTime(trips + [saved]);
      AddedTripLanding(trips, saved);
      assert forall t :: t in landed ==> WellTimed(t) by {
        SortKeepsTiming(trips + [saved]);
      }
      trips := landed;
    }

    /** deleteRow: after confirmation, a known row is marked deleted when the server agrees. */
    method DeleteRow(tripId: string, confirmed: bool, replyOk: bool) returns (request: Option<string>)
      requires Valid()
      modifies this
      ensures Valid()
      ensures equipmentNumber == old(equipmentNumber) && operatorId == old(operatorId) && operatorName == old(operatorName)
      ensures editingTripId == old(editingTripId) && manualIdCounter == old(manualIdCounter)
      ensures !confirmed || FindById(old(trips), tripId).None? ==> request.None? && trips == old(trips)
      ensures confirmed && FindById(old(trips), tripId).Some? ==>
        && request == Some(tripId)
        && trips == (if replyOk then SetNote(old(trips), FindById(old(trips), tripId).value, Deleted) else old(trips))
    {
      if !confirmed {
        return None;
      }
      var found := FindById(trips, tripId);
      if found.None? {
        return None;
      }
      request := Some(tripId);
      if replyOk {
        SetNoteKeepsTiming(trips, found.value, Deleted);
        trips := SetNote(trips, found.value, Deleted);
      }
    }

    /** restoreRow: a known row gets an empty note back when the server agrees. */
    method RestoreRow(tripId: string, replyOk: bool) returns (request: Option<string>)
      requires Valid()
      modifies this
      ensures Valid()
      ensures equipmentNumber == old(equipmentNumber) && operatorId == old(operatorId) && operatorName == old(operatorName)
      ensures editingTripId == old(editingTripId) && manualIdCounter == old(manualIdCounter)
      ensures FindById(old(trips), tripId).None? ==> request.None? && trips == old(trips)
      ensures FindById(old(trips), tripId).Some? ==>
        && request == Some(tripId)
        && trips == (if replyOk then SetNote(old(trips), FindById(old(trips), tripId).value, Blank) else old(trips))
    {
      var found := FindById(trips, tripId);
      if found.None? {
        return None;
      }
      request := Some(tripId);
      if replyOk {
        SetNoteKeepsTiming(trips, found.value, Blank);
        trips := SetNote(trips, found.value, Blank);
      }
    }

    /** modifyRow: the edit lock moves to tripId, whether or not a row has that id. */
    method ModifyRow(tripId: string)
      requires Valid()
      modifies this
      ensures Valid()
      ensures editingTripId == Some(tripId)
      ensures trips == old(trips) && equipmentNumber == old(equipmentNumber) && operatorId == old(operatorId)
      ensures operatorName == old(operatorName) && manualIdCounter == old(manualIdCounter)
    {
      editingTripId := Some(tripId);
    }

    /** cancelEdit: no row is being edited. */
    method CancelEdit()
      requires Valid()
      modifies this
      ensures Valid()
      ensures editingTripId.None?
      ensures trips == old(trips) && equipmentNumber == old(equipmentNumber) && operatorId == old(operatorId)
      ensures operatorName == old(operatorName) && manualIdCounter == old(manualIdCounter)
    {
      editingTripId := None;
    }

    /**
     * saveRow: a known row takes the input values at once, before the server
     * answers. On success the edit lock is released and, if a time was
     * entered, the list is sorted again; on failure the new values and the
     * lock both stay.
     */
    method SaveRow(tripId: string, input: EditInput, replyOk: bool) returns (request: Option<UpdateRequest>)
      requires Valid()
      requires input.reportTime.Some? ==> DateTimes.Valid(input.reportTime.value)
      modifies this
      ensures Valid()
      ensures equipmentNumber == old(equipmentNumber) && operatorId == old(operatorId)
      ensures operatorName == old(operatorName) && manualIdCounter == old(manualIdCounter)
      ensures FindById(old(trips), tripId).None? ==>
        request.None? && trips == old(trips) && editingTripId == old(editingTripId)
      ensures FindById(old(trips), tripId).Some? ==>
        var i := FindById(old(trips), tripId).value;
        var edited := old(trips)[i := Edited(old(trips)[i], input)];
        && request == Some(UpdateRequest(tripId, ReportTimeField(input.reportTime), input.loaderId, input.posName, input.distance))
        && (replyOk ==> editingTripId.None? && trips == (if input.reportTime.Some? then SortByTime(edited) else edited))
        && (!replyOk ==> editingTripId == old(editingTripId) && trips == edited)
    {
      var found := FindById(trips, tripId);
      if found.None? {
        return None;
      }
      var i := found.value;
      var edited := trips[i := Edited(trips[i], input)];
      forall t | t in edited
        ensures WellTimed(t)
      {
        var j :| 0 <= j < |edited| && edited[j] == t;
        assert trips[j] in trips;
      }
      trips := edited;
      request := Some(UpdateRequest(tripId, ReportTimeField(input.reportTime), input.loaderId, input.posName, input.distance));
      if replyOk {
        editingTripId := None;
        if input.reportTime.Some? {
          SortKeepsTiming(trips);
          trips := SortByTime(trips);
        }
      }
    }
  }
}
