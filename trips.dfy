/**
 * The trips of one shift log as the step-2 page holds them: trip records,
 * the order they are shown in, how rows are looked up by id, which row a
 * new manual trip copies, the row actions and CSS classes, and the
 * statistics footer.
 */
module Trips {
  import opened Wrappers
  import opened Text
  import opened DateTimes
  import StableSort

  // ---------------------------------------------------------------------
  // Trip records
  // ---------------------------------------------------------------------

  /** A trip id is a number (manual rows), a string (rows from the server) or null. */
  datatype TripId = NumId(n: int) | TextId(s: string) | NullId

  /** String(trip.id), the text rows are matched on. */
  function IdText(id: TripId): string
  {
    match id
    case NumId(n) => IntToString(n)
    case TextId(s) => s
    case NullId => "null"
  }

  /** The note column: '' for an ordinary row, 'manual' for an added row, 'deleted' for a soft-deleted row. */
  datatype Note = Blank | Manual | Deleted

  datatype Trip = Trip(
    id: TripId,
    reportTime: Option<DateTime>,
    equipmentNo: string,
    operatorId: string,
    operatorName: string,
    oprShift: string,
    loaderId: string,
    posName: string,
    distance: string,
    note: Note)

  predicate WellTimed(t: Trip)
  {
    t.reportTime.Some? ==> Valid(t.reportTime.value)
  }

  /** A LOGIN or LOGOUT marker row, recognised by its upper-cased loader id, or an ordinary trip. */
  datatype LoaderKind = Login | Logout | Ordinary

  function KindOf(t: Trip): LoaderKind
  {
    var upper := Upper(t.loaderId);
    if upper == "LOGIN" then Login else if upper == "LOGOUT" then Logout else Ordinary
  }

  // ---------------------------------------------------------------------
  // Chronological order
  // ---------------------------------------------------------------------

  /** The sort key of the comparator: getTime() of the report time, or 0 when there is none. */
  function TimeKey(t: Trip): int
  {
    match t.reportTime
    case None => 0
    case Some(d) => EpochMillis(d)
  }

  function IntLt(a: int, b: int): bool
  {
    a < b
  }

  /** The trips ordered by TimeKey, trips with equal keys kept in their current order. */
  function SortByTime(s: seq<Trip>): seq<Trip>
  {
    StableSort.Sort(s, TimeKey, IntLt)
  }

  lemma IntLtIsStrictTotalOrder()
    ensures StableSort.StrictTotalOrder(IntLt)
  {
  }

  /**
   * The displayed order holds the same trips, in chronological order, and
   * trips with the same key (for example all trips without a time) keep
   * their relative order. It is the only order with these properties.
   */
  lemma SortByTimeSpec(s: seq<Trip>)
    ensures multiset(SortByTime(s)) == multiset(s)
    ensures forall i, j :: 0 <= i < j < |s| ==> TimeKey(SortByTime(s)[i]) <= TimeKey(SortByTime(s)[j])
    ensures forall k :: StableSort.WithKey(SortByTime(s), TimeKey, k) == StableSort.WithKey(s, TimeKey, k)
  {
    IntLtIsStrictTotalOrder();
    StableSort.SortSorted(s, TimeKey, IntLt);
    forall k
      ensures StableSort.WithKey(SortByTime(s), TimeKey, k) == StableSort.WithKey(s, TimeKey, k)
    {
      StableSort.SortStable(s, TimeKey, IntLt, k);
    }
  }

  /** Sorting again changes nothing. */
  lemma SortByTimeIdempotent(s: seq<Trip>)
    ensures SortByTime(SortByTime(s)) == SortByTime(s)
  {
    IntLtIsStrictTotalOrder();
    StableSort.SortSorted(s, TimeKey, IntLt);
    StableSort.SortOfSorted(SortByTime(s), TimeKey, IntLt);
  }

  // ---------------------------------------------------------------------
  // Looking a row up by id
  // ---------------------------------------------------------------------

  /** The index of the first trip whose String(id) is id (Array.prototype.find / findIndex). */
  function FindById(s: seq<Trip>, id: string): (r: Option<nat>)
    ensures r.Some? ==> r.value < |s| && IdText(s[r.value].id) == id
    ensures r.Some? ==> forall j :: 0 <= j < r.value ==> IdText(s[j].id) != id
    ensures r.None? <==> forall j :: 0 <= j < |s| ==> IdText(s[j].id) != id
  {
    if |s| == 0 then None
    else if IdText(s[0].id) == id then Some(0)
    else match FindById(s[1..], id)
      case None => None
      case Some(i) => Some(i + 1)
  }

  /** findIndex: the index, or -1 when no trip has that id. */
  function FindIndex(s: seq<Trip>, id: string): (i: int)
    ensures -1 <= i < |s|
  {
    match FindById(s, id)
    case None => -1
    case Some(i) => i
  }

  /** Changing a trip's note leaves every lookup by id as it was. */
  lemma {:induction false} FindByIdIgnoresNotes(s: seq<Trip>, i: nat, n: Note, id: string)
    requires i < |s|
    ensures FindById(s[i := s[i].(note := n)], id) == FindById(s, id)
    decreases |s|
  {
    var t := s[i := s[i].(note := n)];
    assert t[0].id == s[0].id;
    if i == 0 {
      assert t[1..] == s[1..];
    } else {
      assert t[1..] == s[1..][i - 1 := s[1..][i - 1].(note := n)];
      FindByIdIgnoresNotes(s[1..], i - 1, n, id);
    }
  }

  // ---------------------------------------------------------------------
  // The row a new manual trip copies
  // ---------------------------------------------------------------------

  predicate IsOrdinary(t: Trip)
  {
    KindOf(t) == Ordinary
  }

  /** The first ordinary trip at index from or later. */
  function NextOrdinary(s: seq<Trip>, from: nat): (r: Option<nat>)
    ensures r.Some? ==> from <= r.value < |s| && IsOrdinary(s[r.value])
    ensures r.Some? ==> forall k :: from <= k < r.value ==> !IsOrdinary(s[k])
    ensures r.None? ==> forall k :: from <= k < |s| ==> !IsOrdinary(s[k])
    decreases |s| - from
  {
    if from >= |s| then None
    else if IsOrdinary(s[from]) then Some(from)
    else NextOrdinary(s, from + 1)
  }

  /** The last ordinary trip at index from or earlier (none when from is negative). */
  function PrevOrdinary(s: seq<Trip>, from: int): (r: Option<nat>)
    requires from < |s|
    ensures r.Some? ==> r.value <= from && IsOrdinary(s[r.value])
    ensures r.Some? ==> forall k :: r.value < k <= from ==> !IsOrdinary(s[k])
    ensures r.None? ==> forall k :: 0 <= k <= from ==> !IsOrdinary(s[k])
    decreases from + 1
  {
    if from < 0 then None
    else if IsOrdinary(s[from]) then Some(from)
    else PrevOrdinary(s, from - 1)
  }

  /** The loop after a LOGIN row: walk forward from the row after it to the first ordinary trip. */
  method ScanForward(sorted: seq<Trip>, currentIndex: int) returns (found: Option<nat>)
    requires -1 <= currentIndex < |sorted|
    ensures found == NextOrdinary(sorted, currentIndex + 1)
  {
    var i := currentIndex + 1;
    while i < |sorted|
      invariant currentIndex + 1 <= i <= |sorted|
      invariant NextOrdinary(sorted, i) == NextOrdinary(sorted, currentIndex + 1)
    {
      var kind := KindOf(sorted[i]);
      if kind != Login && kind != Logout {
        return Some(i);
      }
      i := i + 1;
    }
    return None;
  }

  /** The loop after a LOGOUT row: walk back from the row before it to the first ordinary trip. */
  method ScanBackward(sorted: seq<Trip>, currentIndex: int) returns (found: Option<nat>)
    requires -1 <= currentIndex < |sorted|
    ensures found == PrevOrdinary(sorted, currentIndex - 1)
  {
    var i := currentIndex - 1;
    while i >= 0
      invariant -2 <= i <= currentIndex - 1
      invariant PrevOrdinary(sorted, i) == PrevOrdinary(sorted, currentIndex - 1)
    {
      var kind := KindOf(sorted[i]);
      if kind != Login && kind != Logout {
        return Some(i);
      }
      i := i - 1;
    }
    return None;
  }

  /**
   * The row whose report time and fields a new trip below anchor copies:
   * the anchor itself for an ordinary row; for a LOGIN row the next
   * ordinary trip in time order, for a LOGOUT row the previous one, and the
   * anchor when there is none.
   */
  function ReferenceTrip(trips: seq<Trip>, anchor: Trip, tripId: string): Trip
  {
    var kind := KindOf(anchor);
    if kind != Login && kind != Logout then anchor
    else ReferenceAround(SortByTime(trips), kind == Login, anchor, tripId)
  }

  /** The scan in time order from the anchor's row: forward to the next ordinary trip, or back to the previous one; the anchor when none. */
  function ReferenceAround(sorted: seq<Trip>, forward: bool, anchor: Trip, tripId: string): Trip
  {
    var currentIndex := FindIndex(sorted, tripId);
    var found := if forward then NextOrdinary(sorted, currentIndex + 1) else PrevOrdinary(sorted, currentIndex - 1);
    if found.Some? then sorted[found.value] else anchor
  }

  /** A LOGIN or LOGOUT anchor never lends its own fields when an ordinary trip exists on its side. */
  lemma ReferenceIsOrdinaryOrAnchor(trips: seq<Trip>, anchor: Trip, tripId: string)
    ensures var r := ReferenceTrip(trips, anchor, tripId);
      r == anchor || (IsOrdinary(r) && r in multiset(trips))
  {
    var sorted := SortByTime(trips);
    SortByTimeSpec(trips);
    var r := ReferenceTrip(trips, anchor, tripId);
    if r != anchor {
      assert r in sorted;
      assert r in multiset(sorted);
    }
  }

  /** A reference drawn from well-timed trips (or the anchor among them) is well-timed, and so is the trip copying it. */
  lemma ReferenceKeepsTiming(trips: seq<Trip>, anchor: Trip, tripId: string, now: DateTime)
    requires forall t :: t in trips ==> WellTimed(t)
    requires anchor in trips && Valid(now)
    ensures WellTimed(ReferenceTrip(trips, anchor, tripId))
    ensures forall id :: WellTimed(NewManualTrip(id, ReferenceTrip(trips, anchor, tripId), now))
  {
    ReferenceIsOrdinaryOrAnchor(trips, anchor, tripId);
    var r := ReferenceTrip(trips, anchor, tripId);
    if r != anchor {
      assert r in trips;
    }
    forall id
      ensures WellTimed(NewManualTrip(id, r, now))
    {
      NewManualTripTime(id, r, now);
    }
  }

  // ---------------------------------------------------------------------
  // New manual trips
  // ---------------------------------------------------------------------

  /** The id a manual trip gets from the counter: 10000000 + counter mod 90000000, always eight digits. */
  function ManualId(counter: nat): (id: int)
    ensures 10000000 <= id <= 99999999
  {
    10000000 + counter % 90000000
  }

  /** Two counters give the same id exactly when they are a multiple of 90000000 apart. */
  lemma ManualIdRepeats(a: nat, b: nat)
    requires a <= b
    ensures ManualId(a) == ManualId(b) <==> (b - a) % 90000000 == 0
  {
    var q, r := b / 90000000 - a / 90000000, b % 90000000 - a % 90000000;
    assert b - a == q * 90000000 + r;
    assert -90000000 < r < 90000000;
    assert (b - a) % 90000000 == 0 <==> r == 0;
  }

  /** Counters closer than 90000000 give different ids. */
  lemma ManualIdDistinct(a: nat, b: nat)
    requires a < b < a + 90000000
    ensures ManualId(a) != ManualId(b)
  {
    ManualIdRepeats(a, b);
  }

  /** The trip added below a row: the reference row's fields, one minute after its time, marked manual. */
  function NewManualTrip(id: int, reference: Trip, now: DateTime): Trip
  {
    Trip(NumId(id), Some(NextMinuteOr(reference.reportTime, now)),
      reference.equipmentNo, reference.operatorId, reference.operatorName, reference.oprShift,
      reference.loaderId, reference.posName, reference.distance, Manual)
  }

  /** The new trip sorts exactly one minute after its reference, or at the current time when the reference has none. */
  lemma NewManualTripTime(id: int, reference: Trip, now: DateTime)
    requires WellTimed(reference) && Valid(now)
    ensures var t := NewManualTrip(id, reference, now);
      && t.note == Manual && KindOf(t) == KindOf(reference) && WellTimed(t)
      && (reference.reportTime.Some? ==> TimeKey(t) == TimeKey(reference) + 60000)
      && (reference.reportTime.None? ==> TimeKey(t) == EpochMillis(now))
  {
    AddOneMinuteValidity(reference.reportTime, now);
    if reference.reportTime.Some? {
      AddOneMinuteIsNextMinute(reference.reportTime.value);
    }
  }

  /** The trip the page keeps after a successful add: the server's id replaces the counter id when the reply carries one. */
  function WithServerId(t: Trip, serverId: Option<string>): Trip
  {
    match serverId
    case Some(sid) => if sid != "" then t.(id := TextId(sid)) else t
    case None => t
  }

  /** After an add, the list holds the old trips plus the new one, in time order, with one more active and added trip. */
  lemma AddedTripLanding(s: seq<Trip>, t: Trip)
    requires t.note == Manual
    ensures multiset(SortByTime(s + [t])) == multiset(s) + multiset{t}
    ensures forall i, j :: 0 <= i < j < |s| + 1 ==> TimeKey(SortByTime(s + [t])[i]) <= TimeKey(SortByTime(s + [t])[j])
    ensures Tally(SortByTime(s + [t])) == Stats(Tally(s).active + 1, Tally(s).added + 1, Tally(s).deleted)
  {
    SortByTimeSpec(s + [t]);
    TallyPermutation(SortByTime(s + [t]), s + [t]);
    TallyAppendManual(s, t);
  }

  // ---------------------------------------------------------------------
  // Editing a row
  // ---------------------------------------------------------------------

  /** The values saveRow reads from the edit inputs; an empty time input is None. */
  datatype EditInput = EditInput(reportTime: Option<DateTime>, loaderId: string, posName: string, distance: string)

  /** The trip after saveRow copies the inputs into it; an empty time input keeps the old time. */
  function Edited(t: Trip, input: EditInput): Trip
  {
    t.(reportTime := if input.reportTime.Some? then input.reportTime else t.reportTime,
       loaderId := input.loaderId, posName := input.posName, distance := input.distance)
  }

  /** Editing touches only the time, loader, position and distance: id, note and the copied header fields stay. */
  lemma EditedKeepsIdentity(t: Trip, input: EditInput)
    ensures Edited(t, input).id == t.id && Edited(t, input).note == t.note
    ensures Edited(t, input).equipmentNo == t.equipmentNo && Edited(t, input).operatorId == t.operatorId
    ensures Edited(t, input).operatorName == t.operatorName && Edited(t, input).oprShift == t.oprShift
    ensures input.reportTime.None? ==> Edited(t, input).reportTime == t.reportTime
    ensures Contribution(Edited(t, input)) == Contribution(t)
  {
  }

  // ---------------------------------------------------------------------
  // Fetching
  // ---------------------------------------------------------------------

  /** The operator name of the first trip whose name is not blank. */
  function FirstOperatorName(s: seq<Trip>): Option<string>
    decreases |s|
  {
    if |s| == 0 then None
    else if Trim(JavaScript, s[0].operatorName) != "" then Some(s[0].operatorName)
    else FirstOperatorName(s[1..])
  }

  /** No name is found exactly when every operator name is blank. */
  lemma {:induction false} FirstOperatorNameNone(s: seq<Trip>)
    ensures FirstOperatorName(s).None? <==> forall i :: 0 <= i < |s| ==> Trim(JavaScript, s[i].operatorName) == ""
    decreases |s|
  {
    if |s| > 0 && Trim(JavaScript, s[0].operatorName) == "" {
      FirstOperatorNameNone(s[1..]);
      assert forall i :: 1 <= i < |s| ==> s[i] == s[1..][i - 1];
    }
  }

  /** When trip k holds the first operator name that is not blank, that name is the one found. */
  lemma {:induction false} FirstOperatorNameAt(s: seq<Trip>, k: nat)
    requires k < |s| && Trim(JavaScript, s[k].operatorName) != ""
    requires forall j :: 0 <= j < k ==> Trim(JavaScript, s[j].operatorName) == ""
    ensures FirstOperatorName(s) == Some(s[k].operatorName)
    decreases k
  {
    if k > 0 {
      assert Trim(JavaScript, s[0].operatorName) == "";
      assert forall j :: 0 <= j < k - 1 ==> s[1..][j] == s[j + 1];
      FirstOperatorNameAt(s[1..], k - 1);
    }
  }

  // ---------------------------------------------------------------------
  // Soft delete and restore
  // ---------------------------------------------------------------------

  function SetNote(s: seq<Trip>, i: nat, n: Note): (r: seq<Trip>)
    requires i < |s|
  {
    s[i := s[i].(note := n)]
  }

  /** Changing a note keeps every report time as it was. */
  lemma SetNoteKeepsTiming(s: seq<Trip>, i: nat, n: Note)
    requires i < |s|
    requires forall t :: t in s ==> WellTimed(t)
    ensures forall t :: t in SetNote(s, i, n) ==> WellTimed(t)
  {
    forall t | t in SetNote(s, i, n)
      ensures WellTimed(t)
    {
      var j :| 0 <= j < |s| && SetNote(s, i, n)[j] == t;
      assert WellTimed(s[j]);
    }
  }

  /** Sorting keeps the trips, so it keeps every report time a calendar date-time. */
  lemma SortKeepsTiming(s: seq<Trip>)
    requires forall t :: t in s ==> WellTimed(t)
    ensures forall t :: t in SortByTime(s) ==> WellTimed(t)
  {
    SortByTimeSpec(s);
    forall t | t in SortByTime(s)
      ensures WellTimed(t)
    {
      assert t in multiset(SortByTime(s));
    }
  }

  /** Deleting and then restoring a row gives it back with an empty note and changes nothing else. */
  lemma RestoreUndoesDelete(s: seq<Trip>, i: nat)
    requires i < |s|
    ensures SetNote(SetNote(s, i, Deleted), i, Blank) == SetNote(s, i, Blank)
    ensures s[i].note == Blank ==> SetNote(SetNote(s, i, Deleted), i, Blank) == s
  {
  }

  // ---------------------------------------------------------------------
  // The statistics footer
  // ---------------------------------------------------------------------

  datatype Stats = Stats(active: nat, added: nat, deleted: nat)

  function Contribution(t: Trip): Stats
  {
    Stats(if t.note != Deleted then 1 else 0, if t.note == Manual then 1 else 0, if t.note == Deleted then 1 else 0)
  }

  /** updateStats: active = not deleted, added = manual, deleted = deleted. */
  function Tally(s: seq<Trip>): (c: Stats)
    ensures c.active + c.deleted == |s|
    ensures c.added <= c.active
  {
    if |s| == 0 then Stats(0, 0, 0)
    else
      var rest := Tally(s[1..]);
      var here := Contribution(s[0]);
      Stats(rest.active + here.active, rest.added + here.added, rest.deleted + here.deleted)
  }

  /** Replacing one trip changes each count by that trip's old and new contribution. */
  lemma {:induction false} TallyReplace(s: seq<Trip>, i: nat, t: Trip)
    requires i < |s|
    ensures Tally(s[i := t]).active == Tally(s).active - Contribution(s[i]).active + Contribution(t).active
    ensures Tally(s[i := t]).added == Tally(s).added - Contribution(s[i]).added + Contribution(t).added
    ensures Tally(s[i := t]).deleted == Tally(s).deleted - Contribution(s[i]).deleted + Contribution(t).deleted
    decreases |s|
  {
    if i > 0 {
      assert s[i := t][1..] == s[1..][i - 1 := t];
      TallyReplace(s[1..], i - 1, t);
    } else {
      assert s[i := t][1..] == s[1..];
    }
  }

  /** Deleting an active row moves it from the active to the deleted count. */
  lemma DeleteMovesCount(s: seq<Trip>, i: nat)
    requires i < |s| && s[i].note != Deleted
    ensures Tally(SetNote(s, i, Deleted)).active == Tally(s).active - 1
    ensures Tally(SetNote(s, i, Deleted)).deleted == Tally(s).deleted + 1
  {
    TallyReplace(s, i, s[i].(note := Deleted));
  }

  /** Appending a manual trip raises the active and added counts by one. */
  lemma {:induction false} TallyAppendManual(s: seq<Trip>, t: Trip)
    requires t.note == Manual
    ensures Tally(s + [t]) == Stats(Tally(s).active + 1, Tally(s).added + 1, Tally(s).deleted)
    decreases |s|
  {
    if |s| == 0 {
      assert s + [t] == [t];
    } else {
      assert (s + [t])[1..] == s[1..] + [t];
      TallyAppendManual(s[1..], t);
    }
  }

  /** The counts do not depend on the order of the trips. */
  lemma {:induction false} TallyPermutation(s: seq<Trip>, u: seq<Trip>)
    requires multiset(s) == multiset(u)
    ensures Tally(s) == Tally(u)
    decreases |s|
  {
    if |s| > 0 {
      var x := s[0];
      assert x in multiset(u);
      var j :| 0 <= j < |u| && u[j] == x;
      var u' := RemoveAt(u, j);
      MultisetTail(s, u, u', x);
      TallyPermutation(s[1..], u');
      TallySplit(u[..j], x, u[j + 1..]);
    }
  }

  lemma MultisetTail(s: seq<Trip>, u: seq<Trip>, u': seq<Trip>, x: Trip)
    requires |s| > 0 && s[0] == x
    requires multiset(s) == multiset(u) && multiset(u') == multiset(u) - multiset{x}
    ensures multiset(s[1..]) == multiset(u')
  {
    assert s == [x] + s[1..];
  }

  /** u without its element at j; the multiset loses that element. */
  function RemoveAt(u: seq<Trip>, j: nat): (r: seq<Trip>)
    requires j < |u|
    ensures r == u[..j] + u[j + 1..]
    ensures u == u[..j] + [u[j]] + u[j + 1..]
    ensures multiset(r) == multiset(u) - multiset{u[j]}
  {
    assert u == u[..j] + [u[j]] + u[j + 1..];
    u[..j] + u[j + 1..]
  }

  lemma {:induction false} TallySplit(a: seq<Trip>, x: Trip, b: seq<Trip>)
    ensures Tally(a + [x] + b) == Stats(
      Tally(a + b).active + Contribution(x).active,
      Tally(a + b).added + Contribution(x).added,
      Tally(a + b).deleted + Contribution(x).deleted)
    decreases |a|
  {
    if |a| == 0 {
      assert a + [x] + b == [x] + b;
      assert a + b == b;
    } else {
      assert (a + [x] + b)[1..] == a[1..] + [x] + b;
      assert (a + b)[1..] == a[1..] + b;
      TallySplit(a[1..], x, b);
    }
  }

  // ---------------------------------------------------------------------
  // Row presentation: actions and CSS classes
  // ---------------------------------------------------------------------

  datatype Action = Save | Cancel | Add | Delete | Modify | Restore

  predicate IsEditing(t: Trip, editingTripId: Option<string>)
  {
    editingTripId == Some(IdText(t.id))
  }

  /** The buttons createTripRow puts in the actions cell. */
  function RowActions(t: Trip, editingTripId: Option<string>): (acts: seq<Action>)
    ensures Save in acts <==> IsEditing(t, editingTripId)
    ensures Cancel in acts <==> IsEditing(t, editingTripId)
    ensures Add in acts <==> !IsEditing(t, editingTripId) && (!IsOrdinary(t) || t.note != Deleted)
    ensures Delete in acts <==> !IsEditing(t, editingTripId) && IsOrdinary(t) && t.note != Deleted
    ensures Modify in acts <==> !IsEditing(t, editingTripId) && IsOrdinary(t) && t.note != Deleted
    ensures Restore in acts <==> !IsEditing(t, editingTripId) && IsOrdinary(t) && t.note == Deleted
  {
    if IsEditing(t, editingTripId) then [Save, Cancel]
    else if KindOf(t) == Login || KindOf(t) == Logout then [Add]
    else if t.note == Deleted then [Restore]
    else [Add, Delete, Modify]
  }

  /** cls with name added after a space, or name alone when cls is empty. */
  function AddClass(cls: string, name: string): string
  {
    cls + (if cls != "" then " " else "") + name
  }

  /** The row's class attribute, built up as createTripRow builds it. */
  function RowClass(t: Trip, editingTripId: Option<string>): string
  {
    var base := if t.note == Deleted then "deleted-row" else if t.note == Manual then "manual-row" else "";
    var withLogin := if KindOf(t) == Login then AddClass(base, "login-row") else base;
    var withLogout := if KindOf(t) == Logout then AddClass(withLogin, "logout-row") else withLogin;
    if IsEditing(t, editingTripId) then AddClass(withLogout, "editing-row") else withLogout
  }

  /** The class names that apply to a row, in attribute order. */
  function RowClassNames(t: Trip, editingTripId: Option<string>): seq<string>
  {
    (if t.note == Deleted then ["deleted-row"] else if t.note == Manual then ["manual-row"] else [])
    + (if KindOf(t) == Login then ["login-row"] else [])
    + (if KindOf(t) == Logout then ["logout-row"] else [])
    + (if IsEditing(t, editingTripId) then ["editing-row"] else [])
  }

  /** Appending a name to a list of non-empty names is what AddClass does to their joined text. */
  lemma {:induction false} JoinSnoc(names: seq<string>, name: string)
    requires forall n :: n in names ==> n != ""
    ensures (Join(names, ' ') == "") <==> |names| == 0
    ensures Join(names + [name], ' ') == AddClass(Join(names, ' '), name)
    decreases |names|
  {
    if |names| == 1 {
      assert names[0] in names;
      assert names + [name] == [names[0], name];
    } else if |names| > 1 {
      assert names[0] in names;
      assert forall n :: n in names[1..] ==> n in names;
      assert (names + [name])[1..] == names[1..] + [name];
      JoinSnoc(names[1..], name);
    }
  }

  /** The attribute is exactly the applicable class names separated by single spaces. */
  lemma RowClassIsJoinedNames(t: Trip, editingTripId: Option<string>)
    ensures RowClass(t, editingTripId) == Join(RowClassNames(t, editingTripId), ' ')
  {
    var base: seq<string> := if t.note == Deleted then ["deleted-row"] else if t.note == Manual then ["manual-row"] else [];
    var withLogin := base + (if KindOf(t) == Login then ["login-row"] else []);
    var withLogout := withLogin + (if KindOf(t) == Logout then ["logout-row"] else []);
    var all := withLogout + (if IsEditing(t, editingTripId) then ["editing-row"] else []);
    assert all == RowClassNames(t, editingTripId);
    if KindOf(t) == Login {
      JoinSnoc(base, "login-row");
    } else {
      assert withLogin == base;
    }
    if KindOf(t) == Logout {
      JoinSnoc(withLogin, "logout-row");
    } else {
      assert withLogout == withLogin;
    }
    if IsEditing(t, editingTripId) {
      JoinSnoc(withLogout, "editing-row");
    } else {
      assert all == withLogout;
    }
  }
}
