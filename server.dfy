/**
 * The server's input rules for the trip endpoints and registration: which
 * requests are refused before any database work, how the shift list is
 * read, how a database row becomes a trip, the order trips are returned
 * in, and how a report time is normalised for the stored procedures.
 * Database results are parameters.
 */
module TripServer {
  import opened Wrappers
  import opened Text
  import DateTimes
  import StableSort

  // ---------------------------------------------------------------------
  // fetch_trips: parameters and the shift list
  // ---------------------------------------------------------------------

  /** The trimmed pieces that are not blank, in order. */
  function NonBlankPieces(pieces: seq<string>): (r: seq<string>)
    ensures |r| <= |pieces|
    ensures forall i :: 0 <= i < |r| ==> r[i] != ""
  {
    if |pieces| == 0 then []
    else Kept(pieces[0]) + NonBlankPieces(pieces[1..])
  }

  /** One piece, trimmed, or nothing when it is blank. */
  function Kept(piece: string): seq<string>
  {
    if Trim(Python, piece) != "" then [Trim(Python, piece)] else []
  }

  /** Blank pieces contribute nothing: the pieces of a concatenation are those of each part. */
  lemma {:induction false} NonBlankPiecesAppend(a: seq<string>, b: seq<string>)
    ensures NonBlankPieces(a + b) == NonBlankPieces(a) + NonBlankPieces(b)
    decreases |a|
  {
    if |a| > 0 {
      assert (a + b)[0] == a[0];
      assert (a + b)[1..] == a[1..] + b;
      NonBlankPiecesAppend(a[1..], b);
      calc {
        NonBlankPieces(a + b);
        Kept(a[0]) + NonBlankPieces(a[1..] + b);
        Kept(a[0]) + (NonBlankPieces(a[1..]) + NonBlankPieces(b));
        (Kept(a[0]) + NonBlankPieces(a[1..])) + NonBlankPieces(b);
      }
    } else {
      assert a + b == b;
    }
  }

  /** No piece is kept iff every piece is blank. */
  lemma {:induction false} NonBlankPiecesEmpty(pieces: seq<string>)
    ensures NonBlankPieces(pieces) == [] <==> forall i :: 0 <= i < |pieces| ==> Trim(Python, pieces[i]) == ""
    decreases |pieces|
  {
    if |pieces| > 0 {
      var rest := pieces[1..];
      NonBlankPiecesEmpty(rest);
      assert forall i :: 0 < i < |pieces| ==> pieces[i] == rest[i - 1];
    }
  }

  /** The kept pieces are exactly the non-blank trimmed pieces. */
  lemma {:induction false} NonBlankPiecesMembers(pieces: seq<string>, x: string)
    ensures x in NonBlankPieces(pieces) <==> x != "" && exists j :: 0 <= j < |pieces| && x == Trim(Python, pieces[j])
    decreases |pieces|
  {
    if |pieces| > 0 {
      var rest := pieces[1..];
      assert NonBlankPieces(pieces) == Kept(pieces[0]) + NonBlankPieces(rest);
      NonBlankPiecesMembers(rest, x);
      if x != "" && exists j :: 0 <= j < |pieces| && x == Trim(Python, pieces[j]) {
        var j :| 0 <= j < |pieces| && x == Trim(Python, pieces[j]);
        if j > 0 {
          assert x == Trim(Python, rest[j - 1]);
        }
      }
      if x in NonBlankPieces(rest) {
        var j :| 0 <= j < |rest| && x == Trim(Python, rest[j]);
        assert x == Trim(Python, pieces[j + 1]);
      }
    }
  }

  /**
   * The shift codes of the shifts parameter: split on ',', trimmed, blanks
   * dropped; None when no piece is left, that is when every piece is blank.
   */
  function ParseShifts(shiftsText: string): (r: Option<seq<string>>)
    ensures r.Some? ==> |r.value| > 0 && forall i :: 0 <= i < |r.value| ==> r.value[i] != ""
    ensures r.None? <==> forall p :: p in Split(shiftsText, ',') ==> Trim(Python, p) == ""
    ensures r.Some? ==> forall x :: x in r.value <==> x != "" && exists p :: p in Split(shiftsText, ',') && x == Trim(Python, p)
  {
    var pieces := Split(shiftsText, ',');
    NonBlankPiecesEmpty(pieces);
    assert forall x :: x in NonBlankPieces(pieces) <==> x != "" && exists p :: p in pieces && x == Trim(Python, p) by {
      forall x ensures x in NonBlankPieces(pieces) <==> x != "" && exists p :: p in pieces && x == Trim(Python, p) {
        NonBlankPiecesMembers(pieces, x);
      }
    }
    var shifts := NonBlankPieces(pieces);
    if |shifts| == 0 then None else Some(shifts)
  }

  datatype FetchError = MissingParameters | NoShift | QueryFailed

  /** The query the request asks for: equipment, operator (None when blank), date and shift codes. */
  datatype TripQuery = TripQuery(equipment: string, operator: Option<string>, date: string, shifts: seq<string>)

  /**
   * The checks of fetch_trips on the trimmed request arguments (a missing
   * argument is ""): a blank equipment, date or shifts argument is refused,
   * then a shifts argument with no code in it.
   */
  function FetchParameters(equipment: string, operator: string, date: string, shifts: string): (r: Result<TripQuery, FetchError>)
    ensures r == Failure(MissingParameters) <==> Trim(Python, equipment) == "" || Trim(Python, date) == "" || Trim(Python, shifts) == ""
    ensures r == Failure(NoShift) <==> Trim(Python, equipment) != "" && Trim(Python, date) != "" && Trim(Python, shifts) != "" && ParseShifts(Trim(Python, shifts)).None?
    ensures r != Failure(QueryFailed)
    ensures r.Success? ==> r.value == TripQuery(Trim(Python, equipment), if Trim(Python, operator) == "" then None else Some(Trim(Python, operator)), Trim(Python, date), ParseShifts(Trim(Python, shifts)).value)
  {
    if Trim(Python, equipment) == "" || Trim(Python, date) == "" || Trim(Python, shifts) == "" then Failure(MissingParameters)
    else match ParseShifts(Trim(Python, shifts))
      case None => Failure(NoShift)
      case Some(codes) => Success(TripQuery(Trim(Python, equipment), if Trim(Python, operator) == "" then None else Some(Trim(Python, operator)), Trim(Python, date), codes))
  }

  lemma TrimBlank(s: string)
    requires forall i :: 0 <= i < |s| ==> IsSpace(Python, s[i])
    ensures Trim(Python, s) == ""
  {
    assert TrimStart(Python, s) == "";
  }

  lemma {:induction false} SplitPiecesFromText(s: string, sep: char)
    ensures forall p :: p in Split(s, sep) ==> forall i :: 0 <= i < |p| ==> p[i] in s
    decreases |s|
  {
    var i := IndexOf(s, sep);
    if i < |s| {
      SplitPiecesFromText(s[i + 1..], sep);
      forall p | p in Split(s, sep) ensures forall k :: 0 <= k < |p| ==> p[k] in s {
        if p != s[..i] {
          assert p in Split(s[i + 1..], sep);
          forall k | 0 <= k < |p| ensures p[k] in s {
            assert p[k] in s[i + 1..];
          }
        }
      }
    }
  }

  /** An argument of nothing but commas and whitespace, such as ",,", names no shift. */
  lemma CommasOnlyNameNoShift(s: string)
    requires forall i :: 0 <= i < |s| ==> s[i] == ',' || IsSpace(Python, s[i])
    ensures ParseShifts(s).None?
  {
    SplitPiecesFromText(s, ',');
    forall p | p in Split(s, ',') ensures Trim(Python, p) == "" {
      forall k | 0 <= k < |p| ensures IsSpace(Python, p[k]) {
        assert p[k] in s;
        assert ',' !in p;
      }
      TrimBlank(p);
    }
    var pieces := Split(s, ',');
    assert forall i :: 0 <= i < |pieces| ==> pieces[i] in pieces;
    NonBlankPiecesEmpty(pieces);
  }

  /** A text with no whitespace at either end is its own trim. */
  predicate Trimmed(s: string)
  {
    |s| == 0 || (!IsSpace(Python, s[0]) && !IsSpace(Python, s[|s| - 1]))
  }

  lemma {:induction false} NonBlankPiecesOfTrimmed(pieces: seq<string>)
    requires forall i :: 0 <= i < |pieces| ==> pieces[i] != "" && Trimmed(pieces[i])
    ensures NonBlankPieces(pieces) == pieces
    decreases |pieces|
  {
    if |pieces| > 0 {
      var first, rest := pieces[0], pieces[1..];
      assert Trim(Python, first) == first by { TrimOfTrimmed(Python, first); }
      assert NonBlankPieces(rest) == rest by { NonBlankPiecesOfTrimmed(rest); }
      assert NonBlankPieces(pieces) == [first] + NonBlankPieces(rest);
      assert [first] + rest == pieces;
    }
  }

  lemma {:induction false} JoinEnds(codes: seq<string>)
    requires |codes| > 0
    requires forall i :: 0 <= i < |codes| ==> codes[i] != ""
    ensures |Join(codes, ',')| > 0
    ensures Join(codes, ',')[0] == codes[0][0]
    ensures Join(codes, ',')[|Join(codes, ',')| - 1] == codes[|codes| - 1][|codes[|codes| - 1]| - 1]
    decreases |codes|
  {
    if |codes| > 1 {
      JoinEnds(codes[1..]);
    }
  }

  /**
   * The shifts argument the step-2 page sends, the selected codes joined
   * with ',', is read back as those codes when each is non-blank, has no
   * surrounding whitespace and contains no comma.
   */
  lemma ParseShiftsOfJoin(codes: seq<string>)
    requires |codes| > 0
    requires forall i :: 0 <= i < |codes| ==> codes[i] != "" && Trimmed(codes[i]) && ',' !in codes[i]
    ensures ParseShifts(Trim(Python, Join(codes, ','))) == Some(codes)
  {
    JoinEnds(codes);
    assert Trimmed(Join(codes, ','));
    TrimOfTrimmed(Python, Join(codes, ','));
    SplitJoin(codes, ',');
    NonBlankPiecesOfTrimmed(codes);
  }

  /** A requested shift as the whitelist sees it: upper-cased, then trimmed. */
  function ShiftCode(shift: string): string
  {
    Trim(Python, Upper(shift))
  }

  /** The five shift codes that are queried. */
  const AllowedShifts: seq<string> := ["S01", "S02", "S03", "S08", "S09"]

  /** Each requested shift as the whitelist sees it. */
  function Canonical(shifts: seq<string>): (r: seq<string>)
    ensures |r| == |shifts|
  {
    seq(|shifts|, i requires 0 <= i < |shifts| => ShiftCode(shifts[i]))
  }

  /** The codes of the whitelist, in order. */
  function Whitelisted(codes: seq<string>): (r: seq<string>)
    ensures |r| <= |codes|
  {
    if |codes| == 0 then []
    else (if codes[0] in AllowedShifts then [codes[0]] else []) + Whitelisted(codes[1..])
  }

  /** The codes queried, in order: each requested shift upper-cased and trimmed, those outside the whitelist skipped. */
  function QueriedShifts(shifts: seq<string>): seq<string>
  {
    Whitelisted(Canonical(shifts))
  }

  lemma {:induction false} WhitelistedMembership(codes: seq<string>, code: string)
    ensures code in Whitelisted(codes) <==> code in AllowedShifts && code in codes
    decreases |codes|
  {
    if |codes| > 0 {
      WhitelistedMembership(codes[1..], code);
      assert codes == [codes[0]] + codes[1..];
    }
  }

  /** A code is queried exactly when it is whitelisted and some requested shift, upper-cased and trimmed, is that code. */
  lemma QueriedShiftsMembership(shifts: seq<string>, code: string)
    ensures code in QueriedShifts(shifts) <==> code in AllowedShifts && exists i :: 0 <= i < |shifts| && ShiftCode(shifts[i]) == code
  {
    WhitelistedMembership(Canonical(shifts), code);
    if code in Canonical(shifts) {
      var i :| 0 <= i < |shifts| && Canonical(shifts)[i] == code;
      assert ShiftCode(shifts[i]) == code;
    }
    if exists i :: 0 <= i < |shifts| && ShiftCode(shifts[i]) == code {
      var i :| 0 <= i < |shifts| && ShiftCode(shifts[i]) == code;
      assert Canonical(shifts)[i] == code;
    }
  }

  /** The queried codes of a request are those of its first shift followed by those of the rest. */
  lemma QueriedShiftsCons(shifts: seq<string>)
    requires |shifts| > 0
    ensures QueriedShifts(shifts) == (if ShiftCode(shifts[0]) in AllowedShifts then [ShiftCode(shifts[0])] else []) + QueriedShifts(shifts[1..])
  {
    assert Canonical(shifts)[1..] == Canonical(shifts[1..]);
  }

  // ---------------------------------------------------------------------
  // Mapping a database row to a trip
  // ---------------------------------------------------------------------

  /** A column value as the database driver returns it. */
  datatype DbValue = DbNull | DbBool(b: bool) | DbInt(i: int) | DbText(s: string) | DbTime(t: DateTimes.DateTime)

  /** Python truthiness of a column value. */
  predicate DbTruthy(v: DbValue)
  {
    match v
    case DbNull => false
    case DbBool(b) => b
    case DbInt(i) => i != 0
    case DbText(s) => s != ""
    case DbTime(_) => true
  }

  /** v == 1 in Python: the integer 1 or True. */
  predicate EqualsOne(v: DbValue)
  {
    v == DbInt(1) || v == DbBool(true)
  }

  /** str(v) */
  function DbString(v: DbValue): string
    requires v.DbTime? ==> DateTimes.Valid(v.t)
  {
    match v
    case DbNull => "None"
    case DbBool(b) => if b then "True" else "False"
    case DbInt(i) => IntToString(i)
    case DbText(s) => s
    case DbTime(t) => DateTimes.DatePart(t) + " " + DateTimes.ClockPart(t) + ":" + DateTimes.Pad2(t.second)
  }

  /** Every date-time column is a calendar date-time with a four-digit year, as the database stores them. */
  predicate WellFormedRow(row: seq<DbValue>)
  {
    forall i :: 0 <= i < |row| && row[i].DbTime? ==> DateTimes.Valid(row[i].t) && 1000 <= row[i].t.year < 10000
  }

  /** A trip as fetch_trips returns it. */
  datatype ServerTrip = ServerTrip(
    id: Option<string>,
    reportTime: Option<string>,
    equipmentNo: DbValue,
    operatorId: DbValue,
    operatorName: DbValue,
    oprShift: DbValue,
    loaderId: DbValue,
    posName: DbValue,
    distance: DbValue,
    note: string,
    recordType: DbValue)

  /** The value of a column that falls back to '' when falsy. */
  function OrEmpty(v: DbValue): DbValue
  {
    if DbTruthy(v) then v else DbText("")
  }

  /**
   * The trip a row maps to. None where Python raises: a row shorter than
   * the five columns read unconditionally, or a truthy time column that is
   * not a date-time (it has no isoformat).
   */
  function MapRow(row: seq<DbValue>): (r: Option<ServerTrip>)
    requires WellFormedRow(row)
    ensures r.None? <==> |row| < 5 || (DbTruthy(row[1]) && !row[1].DbTime?)
  {
    if |row| < 5 || (DbTruthy(row[1]) && !row[1].DbTime?) then None
    else
      Some(ServerTrip(
        id := if DbTruthy(row[0]) then Some(DbString(row[0])) else None,
        reportTime := if row[1].DbTime? then Some(DateTimes.FormatForDB(row[1].t)) else None,
        equipmentNo := OrEmpty(row[2]),
        operatorId := OrEmpty(row[3]),
        operatorName := OrEmpty(row[4]),
        oprShift := if |row| > 5 && !row[5].DbNull? then row[5] else DbText(""),
        loaderId := if |row| > 6 then OrEmpty(row[6]) else DbText(""),
        posName := if |row| > 7 then OrEmpty(row[7]) else DbText(""),
        distance := if |row| > 8 && !row[8].DbNull? then row[8] else DbText(""),
        note := if |row| > 9 && EqualsOne(row[9]) && |row| > 10 && row[10] == DbText("trip") then "deleted" else "",
        recordType := if |row| > 10 then row[10] else DbText("trip")))
  }

  /**
   * A mapped trip is deleted exactly when column 9 is 1 and column 10 is
   * 'trip'; its note is otherwise empty, and a row without column 10 is
   * of record type 'trip'.
   */
  lemma MappedNote(row: seq<DbValue>)
    requires WellFormedRow(row) && MapRow(row).Some?
    ensures MapRow(row).value.note == "deleted" <==> |row| > 10 && EqualsOne(row[9]) && row[10] == DbText("trip")
    ensures MapRow(row).value.note != "deleted" ==> MapRow(row).value.note == ""
    ensures |row| <= 10 ==> MapRow(row).value.recordType == DbText("trip") && MapRow(row).value.note == ""
  {
  }

  /** The report time of a mapped trip reads back as the row's date-time; a row without one gives a trip without one. */
  lemma MappedTimeReadsBack(row: seq<DbValue>)
    requires WellFormedRow(row) && MapRow(row).Some?
    ensures MapRow(row).value.reportTime.Some? <==> row[1].DbTime?
    ensures row[1].DbTime? ==> DateTimes.ParseForDB(MapRow(row).value.reportTime.value) == Some(row[1].t)
  {
    if row[1].DbTime? {
      assert 0 <= 1 < |row| && row[1].DbTime?;
      DateTimes.ParseForDBRoundTrip(row[1].t);
    }
  }

  // ---------------------------------------------------------------------
  // Collecting and sorting
  // ---------------------------------------------------------------------

  /** The rows mapped in order; None when any of them cannot be mapped. */
  function MapRows(rows: seq<seq<DbValue>>): (r: Option<seq<ServerTrip>>)
    requires forall i :: 0 <= i < |rows| ==> WellFormedRow(rows[i])
    ensures r.Some? <==> forall i :: 0 <= i < |rows| ==> MapRow(rows[i]).Some?
    ensures r.Some? ==> |r.value| == |rows| && forall i :: 0 <= i < |rows| ==> r.value[i] == MapRow(rows[i]).value
  {
    if |rows| == 0 then Some([])
    else match (MapRow(rows[0]), MapRows(rows[1..]))
      case (Some(t), Some(ts)) => Some([t] + ts)
      case _ => None
  }

  /** The trips of a prefix followed by those of the rest, failing when the rest failed. */
  function Prepend(prefix: seq<ServerTrip>, rest: Option<seq<ServerTrip>>): (r: Option<seq<ServerTrip>>)
    ensures r.Some? <==> rest.Some?
    ensures r.Some? ==> |r.value| == |prefix| + |rest.value| && r.value[..|prefix|] == prefix && r.value[|prefix|..] == rest.value
  {
    if rest.None? then None else Some(prefix + rest.value)
  }

  /** The mapped rows each whitelisted code gives, in code order; None when any row cannot be mapped. */
  function CollectedCodes(codes: seq<string>, results: string -> seq<seq<DbValue>>): Option<seq<ServerTrip>>
    requires forall c, i :: 0 <= i < |results(c)| ==> WellFormedRow(results(c)[i])
  {
    if |codes| == 0 then Some([])
    else match MapRows(results(codes[0]))
      case None => None
      case Some(ts) => Prepend(ts, CollectedCodes(codes[1..], results))
  }

  /** The rows collected for the requested shifts, walking them in order and skipping codes outside the whitelist. */
  function Collected(shifts: seq<string>, results: string -> seq<seq<DbValue>>): Option<seq<ServerTrip>>
    requires forall c, i :: 0 <= i < |results(c)| ==> WellFormedRow(results(c)[i])
  {
    if |shifts| == 0 then Some([])
    else
      var code := ShiftCode(shifts[0]);
      if code !in AllowedShifts then Collected(shifts[1..], results)
      else match MapRows(results(code))
        case None => None
        case Some(ts) => Prepend(ts, Collected(shifts[1..], results))
  }

  /** Walking the request is querying exactly the whitelisted codes, in request order. */
  lemma {:induction false} CollectedIsQueriedCodes(shifts: seq<string>, results: string -> seq<seq<DbValue>>)
    requires forall c, i :: 0 <= i < |results(c)| ==> WellFormedRow(results(c)[i])
    ensures Collected(shifts, results) == CollectedCodes(QueriedShifts(shifts), results)
    decreases |shifts|
  {
    if |shifts| > 0 {
      var code, rest := ShiftCode(shifts[0]), shifts[1..];
      assert Collected(rest, results) == CollectedCodes(QueriedShifts(rest), results) by {
        CollectedIsQueriedCodes(rest, results);
      }
      QueriedShiftsCons(shifts);
      if code in AllowedShifts {
        var codes := QueriedShifts(shifts);
        assert codes[0] == code && codes[1..] == QueriedShifts(rest);
        assert CollectedCodes(codes, results) == match MapRows(results(code))
          case None => None
          case Some(ts) => Prepend(ts, CollectedCodes(QueriedShifts(rest), results));
      } else {
        assert QueriedShifts(shifts) == QueriedShifts(rest);
        assert Collected(shifts, results) == Collected(rest, results);
      }
    }
  }

  lemma PrependAssociates(a: seq<ServerTrip>, b: seq<ServerTrip>, rest: Option<seq<ServerTrip>>)
    ensures Prepend(a, Prepend(b, rest)) == Prepend(a + b, rest)
  {
    if rest.Some? {
      assert a + (b + rest.value) == a + b + rest.value;
    }
  }

  /** The sort key: the report time, '' when there is none. */
  function TimeKey(t: ServerTrip): string
  {
    if t.reportTime.Some? then t.reportTime.value else ""
  }

  /** list.sort(key=...): stable, by the key text. */
  function SortByReportTime(trips: seq<ServerTrip>): seq<ServerTrip>
  {
    StableSort.Sort(trips, TimeKey, StrLt)
  }

  lemma StrLtIsStrictTotalOrder()
    ensures StableSort.StrictTotalOrder(StrLt)
  {
    forall a ensures !StrLt(a, a) { StrLtIrreflexive(a); }
    forall a, b, c | StrLt(a, b) && StrLt(b, c) ensures StrLt(a, c) { StrLtTransitive(a, b, c); }
    forall a, b ensures a == b || StrLt(a, b) || StrLt(b, a) { StrLtTotal(a, b); }
  }

  /**
   * The returned order holds the same trips, ordered by their time text,
   * trips with the same text in their query order; trips without a time
   * come before every trip with one.
   */
  lemma SortByReportTimeSpec(trips: seq<ServerTrip>)
    ensures multiset(SortByReportTime(trips)) == multiset(trips)
    ensures forall i, j :: 0 <= i < j < |trips| ==> !StrLt(TimeKey(SortByReportTime(trips)[j]), TimeKey(SortByReportTime(trips)[i]))
    ensures forall k :: StableSort.WithKey(SortByReportTime(trips), TimeKey, k) == StableSort.WithKey(trips, TimeKey, k)
    ensures forall i, j :: 0 <= i < j < |trips| && SortByReportTime(trips)[j].reportTime.None? ==> TimeKey(SortByReportTime(trips)[i]) == ""
  {
    StrLtIsStrictTotalOrder();
    StableSort.SortSorted(trips, TimeKey, StrLt);
    forall k ensures StableSort.WithKey(SortByReportTime(trips), TimeKey, k) == StableSort.WithKey(trips, TimeKey, k) {
      StableSort.SortStable(trips, TimeKey, StrLt, k);
    }
    forall i, j | 0 <= i < j < |trips| && SortByReportTime(trips)[j].reportTime.None?
      ensures TimeKey(SortByReportTime(trips)[i]) == ""
    {
      StrLtTotal("", TimeKey(SortByReportTime(trips)[i]));
    }
  }

  /**
   * The query loop of fetch_trips: for each requested shift whose code is
   * whitelisted, run the query and append its mapped rows. None when a row
   * cannot be mapped (the request then fails).
   */
  method CollectTrips(shifts: seq<string>, results: string -> seq<seq<DbValue>>) returns (r: Option<seq<ServerTrip>>)
    requires forall c, i :: 0 <= i < |results(c)| ==> WellFormedRow(results(c)[i])
    ensures r == CollectedCodes(QueriedShifts(shifts), results)
  {
    CollectedIsQueriedCodes(shifts, results);
    var allTrips: seq<ServerTrip> := [];
    var k := 0;
    while k < |shifts|
      invariant 0 <= k <= |shifts|
      invariant Collected(shifts, results) == Prepend(allTrips, Collected(shifts[k..], results))
    {
      assert shifts[k..][1..] == shifts[k + 1..];
      var code := ShiftCode(shifts[k]);
      if code in AllowedShifts {
        var mapped := MapRows(results(code));
        if mapped.None? {
          return None;
        }
        PrependAssociates(allTrips, mapped.value, Collected(shifts[k + 1..], results));
        allTrips := allTrips + mapped.value;
      }
      k := k + 1;
    }
    assert shifts[k..] == [];
    assert allTrips + [] == allTrips;
    r := Some(allTrips);
  }

  /** fetch_trips: the parameter checks, the query loop, then the sort by report time. */
  method FetchTrips(equipment: string, operator: string, date: string, shifts: string, results: string -> seq<seq<DbValue>>)
    returns (r: Result<seq<ServerTrip>, FetchError>)
    requires forall c, i :: 0 <= i < |results(c)| ==> WellFormedRow(results(c)[i])
    ensures FetchParameters(equipment, operator, date, shifts).Failure? ==> r == Failure(FetchParameters(equipment, operator, date, shifts).error)
    ensures FetchParameters(equipment, operator, date, shifts).Success? ==>
      var collected := CollectedCodes(QueriedShifts(FetchParameters(equipment, operator, date, shifts).value.shifts), results);
      (collected.None? ==> r == Failure(QueryFailed)) && (collected.Some? ==> r == Success(SortByReportTime(collected.value)))
  {
    var query := FetchParameters(equipment, operator, date, shifts);
    if query.Failure? {
      return Failure(query.error);
    }
    var collected := CollectTrips(query.value.shifts, results);
    if collected.None? {
      return Failure(QueryFailed);
    }
    r := Success(SortByReportTime(collected.value));
  }

  // ---------------------------------------------------------------------
  // Report-time normalisation
  // ---------------------------------------------------------------------

  /** The white space strptime's '\s+' matches between two fields. */
  predicate WhitespaceRun(w: string)
  {
    |w| > 0 && forall i :: 0 <= i < |w| ==> IsSpace(Python, w[i])
  }

  /**
   * strptime with '%Y-%m-%d %H:%M:%S' (two-digit fields). strptime turns
   * each space of the format into '\s+', so the date and the time may be
   * separated by any non-empty run of white space.
   */
  function ParseSpaced(s: string): Option<DateTimes.DateTime>
  {
    if |s| >= 19 && WhitespaceRun(s[10..|s| - 8]) then DateTimes.ParseForDB(s[..10] + "T" + s[|s| - 8..]) else None
  }

  /** The date-time a report time names: with a 'T', the text before the first '.' read as '%Y-%m-%dT%H:%M:%S'; otherwise the space form. */
  function ParseReportTime(s: string): Option<DateTimes.DateTime>
  {
    if 'T' in s then DateTimes.ParseForDB(Split(s, '.')[0]) else ParseSpaced(s)
  }

  /** strftime('%Y-%m-%d %H:%M:%S') */
  function SqlText(d: DateTimes.DateTime): string
    requires DateTimes.Valid(d)
  {
    DateTimes.DatePart(d) + " " + DateTimes.ClockPart(d) + ":" + DateTimes.Pad2(d.second)
  }

  /** The text handed to the stored procedures, or None (a 400 reply) when the time cannot be read. */
  function NormalizeReportTime(s: string): Option<string>
  {
    match ParseReportTime(s)
    case None => None
    case Some(d) => if DateTimes.Valid(d) then Some(SqlText(d)) else None
  }

  lemma ParseForDBValid(s: string)
    requires DateTimes.ParseForDB(s).Some?
    ensures DateTimes.Valid(DateTimes.ParseForDB(s).value)
    ensures DateTimes.ParseForDB(s).value.year < 10000
  {
    var y := DateTimes.ParseForDB(s).value.year;
    assert y == DigitsValue(s[..4]);
    DigitsBound(s[..4]);
  }

  lemma {:induction false} DigitsBound(s: string)
    requires AllDigits(s)
    ensures DigitsValue(s) < Pow10(|s|)
    decreases |s|
  {
    if |s| > 0 {
      DigitsBound(s[..|s| - 1]);
    }
  }

  /** The space form of a date-time with a four-digit year, character by character. */
  function SqlCharacters(d: DateTimes.DateTime): seq<char>
    requires DateTimes.Valid(d) && 1000 <= d.year < 10000
  {
    DateTimes.ForDBCharacters(d)[10 := ' ']
  }

  lemma SqlTextIsCharacters(d: DateTimes.DateTime)
    requires DateTimes.Valid(d) && 1000 <= d.year < 10000
    ensures SqlText(d) == SqlCharacters(d)
  {
    DateTimes.DatePartCharacters(d);
    DateTimes.ClockPartCharacters(d);
    DateTimes.Pad2Digits(d.second);
  }

  /** The space form is the database form with its 'T' replaced by a space. */
  lemma SqlTextIsForDBWithSpace(d: DateTimes.DateTime)
    requires DateTimes.Valid(d) && 1000 <= d.year < 10000
    ensures |SqlText(d)| == 19 && SqlText(d)[10] == ' '
    ensures SqlText(d)[..10] + "T" + SqlText(d)[11..] == DateTimes.FormatForDB(d)
    ensures 'T' !in SqlText(d)
  {
    SqlTextIsCharacters(d);
    assert DateTimes.FormatForDB(d) == DateTimes.ForDBCharacters(d) by { DateTimes.ForDBIsCharacters(d); }
    ForDBCharactersShape(d);
    var f := DateTimes.ForDBCharacters(d);
    var s := SqlCharacters(d);
    assert s[..10] + "T" + s[11..] == f;
    assert forall i :: 0 <= i < 19 ==> s[i] != 'T';
  }

  /** The space form reads back as the date-time it was written from. */
  lemma SqlTextReadsBack(d: DateTimes.DateTime)
    requires DateTimes.Valid(d) && 1000 <= d.year < 10000
    ensures ParseReportTime(SqlText(d)) == Some(d)
  {
    SqlTextIsForDBWithSpace(d);
    var t := SqlText(d);
    assert t[10..|t| - 8] == [' '];
    assert t[|t| - 8..] == t[11..];
    DateTimes.ParseForDBRoundTrip(d);
  }

  /**
   * Any run of white space between the date and the time is accepted: the
   * text is stored as the same date-time, in the single-space form.
   */
  lemma WhitespaceRunAccepted(d: DateTimes.DateTime, w: string)
    requires DateTimes.Valid(d) && 1000 <= d.year < 10000
    requires WhitespaceRun(w)
    ensures NormalizeReportTime(SqlText(d)[..10] + w + SqlText(d)[11..]) == Some(SqlText(d))
  {
    SqlTextIsForDBWithSpace(d);
    var t := SqlText(d);
    var s := t[..10] + w + t[11..];
    assert |s| == 18 + |w|;
    assert s[..10] == t[..10];
    assert s[10..|s| - 8] == w;
    assert s[|s| - 8..] == t[11..];
    assert 'T' !in s by {
      forall i | 0 <= i < |s| ensures s[i] != 'T' {
        if i < 10 { assert s[i] == t[i]; }
        else if i < 10 + |w| { assert s[i] == w[i - 10]; }
        else { assert s[i] == t[i - |w| + 1]; }
      }
    }
    DateTimes.ParseForDBRoundTrip(d);
  }

  lemma ForDBCharactersShape(d: DateTimes.DateTime)
    requires DateTimes.Valid(d) && 1000 <= d.year < 10000
    ensures |DateTimes.ForDBCharacters(d)| == 19 && DateTimes.ForDBCharacters(d)[10] == 'T'
    ensures '.' !in DateTimes.ForDBCharacters(d)
    ensures forall i :: 0 <= i < 19 && i != 10 ==> DateTimes.ForDBCharacters(d)[i] != 'T'
  {
    var f := DateTimes.ForDBCharacters(d);
    forall i | 0 <= i < 19 ensures f[i] != '.' && (i != 10 ==> f[i] != 'T') {
      if i != 4 && i != 7 && i != 10 && i != 13 && i != 16 {
        assert IsDigit(f[i]);
      }
    }
  }

  /** The database form is 19 characters with its 'T' at index 10 and no '.'. */
  lemma ForDBShape(d: DateTimes.DateTime)
    requires DateTimes.Valid(d) && 1000 <= d.year < 10000
    ensures |DateTimes.FormatForDB(d)| == 19 && DateTimes.FormatForDB(d)[10] == 'T'
    ensures '.' !in DateTimes.FormatForDB(d)
  {
    assert DateTimes.FormatForDB(d) == DateTimes.ForDBCharacters(d) by { DateTimes.ForDBIsCharacters(d); }
    ForDBCharactersShape(d);
  }

  /** The time the page sends, "YYYY-MM-DDTHH:MM:SS", is stored as the same date-time in the space form. */
  lemma ClientTimeNormalized(d: DateTimes.DateTime)
    requires DateTimes.Valid(d) && 1000 <= d.year < 10000
    ensures NormalizeReportTime(DateTimes.FormatForDB(d)) == Some(SqlText(d))
  {
    var f := DateTimes.FormatForDB(d);
    ForDBShape(d);
    assert 'T' in f;
    assert Split(f, '.')[0] == f by { IndexOfAbsent(f, '.'); }
    assert DateTimes.ParseForDB(f) == Some(d) by { DateTimes.ParseForDBRoundTrip(d); }
  }

  /** Fractional seconds after a '.' (as toISOString or isoformat write them) are dropped. */
  lemma FractionDropped(d: DateTimes.DateTime, fraction: string)
    requires DateTimes.Valid(d) && 1000 <= d.year < 10000
    ensures NormalizeReportTime(DateTimes.FormatForDB(d) + "." + fraction) == Some(SqlText(d))
  {
    var f := DateTimes.FormatForDB(d);
    var s := f + "." + fraction;
    ForDBShape(d);
    assert 'T' in s by { assert s[10] == 'T'; }
    assert Split(s, '.')[0] == f by { IndexOfPrefix(f, '.', fraction); assert s[..|f|] == f; }
    assert DateTimes.ParseForDB(f) == Some(d) by { DateTimes.ParseForDBRoundTrip(d); }
  }

  /** Normalising a normalised time with a four-digit year changes nothing. */
  lemma NormalizeIdempotent(s: string)
    requires NormalizeReportTime(s).Some?
    requires ParseReportTime(s).value.year >= 1000
    ensures NormalizeReportTime(NormalizeReportTime(s).value) == NormalizeReportTime(s)
  {
    var d := ParseReportTime(s).value;
    if 'T' in s {
      ParseForDBValid(Split(s, '.')[0]);
    } else {
      ParseForDBValid(s[..10] + "T" + s[|s| - 8..]);
    }
    SqlTextReadsBack(d);
  }

  // ---------------------------------------------------------------------
  // add_trip, update_trip, delete_trip, restore_trip
  // ---------------------------------------------------------------------

  /** A JSON value of a request body (a missing member is JText("") or JNull). */
  datatype JsonValue = JNull | JBool(b: bool) | JNum(n: int) | JText(s: string)

  predicate JsonTruthy(v: JsonValue)
  {
    match v
    case JNull => false
    case JBool(b) => b
    case JNum(n) => n != 0
    case JText(s) => s != ""
  }

  /** x if x else None */
  function Nonempty(v: JsonValue): (r: Option<JsonValue>)
    ensures r.None? <==> !JsonTruthy(v)
    ensures r.Some? ==> r.value == v
  {
    if JsonTruthy(v) then Some(v) else None
  }

  /**
   * The refusals, all answered 400: a missing field or id, and a time the
   * handler cannot read (a time that is not text fails inside the same
   * guarded block and is refused the same way).
   */
  datatype TripError = MissingFields | MissingId | InvalidDate

  /** The arguments of the insert procedure. */
  datatype InsertParams = InsertParams(
    reportTime: string, mobileId: JsonValue, oprNrp: JsonValue,
    oprShift: Option<JsonValue>, loaderId: Option<JsonValue>, posName: Option<JsonValue>, distance: Option<JsonValue>)

  /** add_trip: required fields first, then the report time. */
  function AddTripParams(reportTime: JsonValue, equipmentNo: JsonValue, operatorId: JsonValue,
                         oprShift: JsonValue, loaderId: JsonValue, posName: JsonValue, distance: JsonValue)
    : (r: Result<InsertParams, TripError>)
    ensures r == Failure(MissingFields) <==> !JsonTruthy(reportTime) || !JsonTruthy(equipmentNo) || !JsonTruthy(operatorId)
    ensures r == Failure(InvalidDate) <==>
      JsonTruthy(reportTime) && JsonTruthy(equipmentNo) && JsonTruthy(operatorId) && (!reportTime.JText? || NormalizeReportTime(reportTime.s).None?)
    ensures r != Failure(MissingId)
    ensures r.Success? ==> Some(r.value.reportTime) == NormalizeReportTime(reportTime.s) && r.value.mobileId == equipmentNo && r.value.oprNrp == operatorId
    ensures r.Success? ==> r.value.oprShift == Nonempty(oprShift) && r.value.loaderId == Nonempty(loaderId)
    ensures r.Success? ==> r.value.posName == Nonempty(posName) && r.value.distance == Nonempty(distance)
  {
    if !JsonTruthy(reportTime) || !JsonTruthy(equipmentNo) || !JsonTruthy(operatorId) then Failure(MissingFields)
    else if !reportTime.JText? then Failure(InvalidDate)
    else match NormalizeReportTime(reportTime.s)
      case None => Failure(InvalidDate)
      case Some(rep) => Success(InsertParams(rep, equipmentNo, operatorId, Nonempty(oprShift), Nonempty(loaderId), Nonempty(posName), Nonempty(distance)))
  }

  /** A manual trip as the page sends it, with its time in the database form, is accepted with that time. */
  lemma ClientTripAccepted(d: DateTimes.DateTime, equipmentNo: string, operatorId: string,
                           oprShift: JsonValue, loaderId: JsonValue, posName: JsonValue, distance: JsonValue)
    requires DateTimes.Valid(d) && 1000 <= d.year < 10000
    requires equipmentNo != "" && operatorId != ""
    ensures AddTripParams(JText(DateTimes.FormatForDB(d)), JText(equipmentNo), JText(operatorId), oprShift, loaderId, posName, distance)
         == Success(InsertParams(SqlText(d), JText(equipmentNo), JText(operatorId), Nonempty(oprShift), Nonempty(loaderId), Nonempty(posName), Nonempty(distance)))
  {
    ForDBShape(d);
    ClientTimeNormalized(d);
    AcceptedWhenNormalized(DateTimes.FormatForDB(d), SqlText(d), equipmentNo, operatorId, oprShift, loaderId, posName, distance);
  }

  lemma AcceptedWhenNormalized(reportTime: string, normalized: string, equipmentNo: string, operatorId: string,
                               oprShift: JsonValue, loaderId: JsonValue, posName: JsonValue, distance: JsonValue)
    requires reportTime != "" && equipmentNo != "" && operatorId != ""
    requires NormalizeReportTime(reportTime) == Some(normalized)
    ensures AddTripParams(JText(reportTime), JText(equipmentNo), JText(operatorId), oprShift, loaderId, posName, distance)
         == Success(InsertParams(normalized, JText(equipmentNo), JText(operatorId), Nonempty(oprShift), Nonempty(loaderId), Nonempty(posName), Nonempty(distance)))
  {
  }

  /** The arguments of the modify procedure. */
  datatype ModifyParams = ModifyParams(
    id: JsonValue, reportTime: Option<string>, loaderId: Option<JsonValue>, posName: Option<JsonValue>, distance: Option<JsonValue>)

  /** update_trip: the id first; a time is normalised only when one is given. */
  function UpdateTripParams(id: JsonValue, reportTime: JsonValue, loaderId: JsonValue, posName: JsonValue, distance: JsonValue)
    : (r: Result<ModifyParams, TripError>)
    ensures r == Failure(MissingId) <==> !JsonTruthy(id)
    ensures r == Failure(InvalidDate) <==> JsonTruthy(id) && JsonTruthy(reportTime) && (!reportTime.JText? || NormalizeReportTime(reportTime.s).None?)
    ensures r != Failure(MissingFields)
    ensures r.Success? ==> r.value.id == id
    ensures r.Success? ==> (r.value.reportTime.None? <==> !JsonTruthy(reportTime))
    ensures r.Success? && r.value.reportTime.Some? ==> r.value.reportTime == NormalizeReportTime(reportTime.s)
    ensures r.Success? ==> r.value.loaderId == Nonempty(loaderId) && r.value.posName == Nonempty(posName) && r.value.distance == Nonempty(distance)
  {
    if !JsonTruthy(id) then Failure(MissingId)
    else if !JsonTruthy(reportTime) then Success(ModifyParams(id, None, Nonempty(loaderId), Nonempty(posName), Nonempty(distance)))
    else if !reportTime.JText? then Failure(InvalidDate)
    else match NormalizeReportTime(reportTime.s)
      case None => Failure(InvalidDate)
      case Some(rep) =>
        assert |rep| > 0;
        Success(ModifyParams(id, Some(rep), Nonempty(loaderId), Nonempty(posName), Nonempty(distance)))
  }

  /** delete_trip and restore_trip: the id handed to the procedure, refused when falsy (absent, null, 0 or ""). */
  function TripIdParam(id: JsonValue): (r: Result<JsonValue, TripError>)
    ensures r.Failure? <==> !JsonTruthy(id)
    ensures r.Failure? ==> r.error == MissingId
    ensures r.Success? ==> r.value == id
  {
    if JsonTruthy(id) then Success(id) else Failure(MissingId)
  }

  // ---------------------------------------------------------------------
  // register
  // ---------------------------------------------------------------------

  datatype RegisterOutcome =
    | FieldsRequired
    | PasswordsDiffer
    | PasswordTooShort
    | UsernameTooShort
    | UsernameTaken
    | Registered(username: string, password: string, fullname: string)

  /**
   * register on the form fields (a missing field is ""): every check runs
   * on the trimmed values, in order; the lookup of existing users is a
   * parameter. The password is hashed before it is stored (not modelled).
   */
  function Register(username: string, password: string, confirmPassword: string, fullname: string, exists_: string -> bool)
    : (r: RegisterOutcome)
    ensures r == FieldsRequired <==> Trim(Python, username) == "" || Trim(Python, password) == "" || Trim(Python, confirmPassword) == "" || Trim(Python, fullname) == ""
    ensures r == PasswordsDiffer <==> r != FieldsRequired && Trim(Python, password) != Trim(Python, confirmPassword)
    ensures r == PasswordTooShort <==> r != FieldsRequired && Trim(Python, password) == Trim(Python, confirmPassword) && |Trim(Python, password)| < 4
    ensures r == UsernameTooShort <==>
      r != FieldsRequired && Trim(Python, password) == Trim(Python, confirmPassword) && |Trim(Python, password)| >= 4 && |Trim(Python, username)| < 3
    ensures r == UsernameTaken <==>
      r != FieldsRequired && Trim(Python, password) == Trim(Python, confirmPassword) && |Trim(Python, password)| >= 4 && |Trim(Python, username)| >= 3 && exists_(Trim(Python, username))
    ensures r.Registered? ==> r == Registered(Trim(Python, username), Trim(Python, password), Upper(Trim(Python, fullname)))
  {
    var u, p, c, f := Trim(Python, username), Trim(Python, password), Trim(Python, confirmPassword), Trim(Python, fullname);
    if u == "" || p == "" || c == "" || f == "" then FieldsRequired
    else if p != c then PasswordsDiffer
    else if |p| < 4 then PasswordTooShort
    else if |u| < 3 then UsernameTooShort
    else if exists_(u) then UsernameTaken
    else Registered(u, p, Upper(f))
  }

  /**
   * A registered user has a new username of at least 3 characters, a
   * password of at least 4 that was typed twice, and a full name with no
   * lower-case letter that upper-casing again leaves alone.
   */
  lemma RegisteredUser(username: string, password: string, confirmPassword: string, fullname: string, exists_: string -> bool)
    requires Register(username, password, confirmPassword, fullname, exists_).Registered?
    ensures var user := Register(username, password, confirmPassword, fullname, exists_);
      && |user.username| >= 3 && !exists_(user.username)
      && |user.password| >= 4 && user.password == Trim(Python, confirmPassword)
      && user.fullname != ""
      && (forall i :: 0 <= i < |user.fullname| ==> !('a' <= user.fullname[i] <= 'z'))
      && Upper(user.fullname) == user.fullname
  {
  }
}
