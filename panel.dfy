/**
 * The historical-login side panel of step 3: the rows the server returns
 * for one mobile unit, with identical rows shown once, the row of the
 * clicked login highlighted, and the tanggal column as "DD Mon YY".
 */
module HistoricalPanel {
  import opened Wrappers
  import opened Text
  import DateTimes

  // ---------------------------------------------------------------------
  // Rows
  // ---------------------------------------------------------------------

  /**
   * A JSON value of a row as the page sees it: undefined, null, or any
   * other value, given by the text String() makes of it.
   */
  datatype Cell = Undefined | NullCell | Text(text: string)

  /** A row object: its fields in property order. */
  type HistoryRow = seq<(string, Cell)>

  /** String(v): "undefined" and "null" for the two missing values. */
  function StringOf(c: Cell): (s: string)
    ensures c.Text? ==> s == c.text
  {
    match c
    case Undefined => "undefined"
    case NullCell => "null"
    case Text(t) => t
  }

  /** String(v ?? ''): both missing values become "". */
  function KeyText(c: Cell): (s: string)
    ensures c.Text? ==> s == c.text
    ensures !c.Text? ==> s == ""
  {
    if c.Text? then c.text else ""
  }

  /** row[k]: the value of the first field named k, undefined when there is none. */
  function Get(row: HistoryRow, k: string): (c: Cell)
    ensures c.Undefined? || exists i :: 0 <= i < |row| && row[i] == (k, c)
    ensures (forall i :: 0 <= i < |row| ==> row[i].0 != k) ==> c.Undefined?
  {
    if |row| == 0 then Undefined
    else if row[0].0 == k then row[0].1
    else Get(row[1..], k)
  }

  /** The texts of a row's values, in property order. */
  function ValueTexts(row: HistoryRow): (r: seq<string>)
    ensures |r| == |row|
    ensures forall i :: 0 <= i < |row| ==> r[i] == KeyText(row[i].1)
  {
    if |row| == 0 then [] else [KeyText(row[0].1)] + ValueTexts(row[1..])
  }

  /** The de-duplication key: the value texts joined with '|'. */
  function RowKey(row: HistoryRow): string
  {
    Join(ValueTexts(row), '|')
  }

  // ---------------------------------------------------------------------
  // De-duplication
  // ---------------------------------------------------------------------

  /** The rows of rows whose key is neither in seen nor the key of an earlier row, in order. */
  function DedupeFrom(rows: seq<HistoryRow>, seen: set<string>): seq<HistoryRow>
    decreases |rows|
  {
    if |rows| == 0 then []
    else if RowKey(rows[0]) in seen then DedupeFrom(rows[1..], seen)
    else [rows[0]] + DedupeFrom(rows[1..], seen + {RowKey(rows[0])})
  }

  /** The rows shown: the first row of each key. */
  function Deduped(rows: seq<HistoryRow>): seq<HistoryRow>
  {
    DedupeFrom(rows, {})
  }

  function Keys(rows: seq<HistoryRow>): set<string>
  {
    set i | 0 <= i < |rows| :: RowKey(rows[i])
  }

  /** Row i is the first row of the table carrying its key. */
  predicate FirstOfKey(rows: seq<HistoryRow>, i: int)
    requires 0 <= i < |rows|
  {
    forall j :: 0 <= j < i ==> RowKey(rows[j]) != RowKey(rows[i])
  }

  /** a is b with some rows left out, the rest in their order. */
  predicate Subsequence(a: seq<HistoryRow>, b: seq<HistoryRow>)
    decreases |b|
  {
    if |a| == 0 then true
    else if |b| == 0 then false
    else (a[0] == b[0] && Subsequence(a[1..], b[1..])) || Subsequence(a, b[1..])
  }

  /** The filter with its seen set: a row passes when its key is new, and its key is then remembered. */
  method Dedupe(rows: seq<HistoryRow>) returns (uniqueRows: seq<HistoryRow>)
    ensures uniqueRows == Deduped(rows)
  {
    var seen: set<string> := {};
    uniqueRows := [];
    var i := 0;
    while i < |rows|
      invariant 0 <= i <= |rows|
      invariant seen == Keys(rows[..i])
      invariant uniqueRows + DedupeFrom(rows[i..], seen) == Deduped(rows)
    {
      var key := RowKey(rows[i]);
      assert DedupeFrom(rows[i..], seen) ==
        if key in seen then DedupeFrom(rows[i + 1..], seen) else [rows[i]] + DedupeFrom(rows[i + 1..], seen + {key}) by {
        assert rows[i..][1..] == rows[i + 1..];
      }
      assert Keys(rows[..i + 1]) == seen + {key} by {
        assert rows[..i + 1] == rows[..i] + [rows[i]];
        KeysSnoc(rows[..i], rows[i]);
      }
      if key !in seen {
        assert uniqueRows + ([rows[i]] + DedupeFrom(rows[i + 1..], seen + {key}))
          == (uniqueRows + [rows[i]]) + DedupeFrom(rows[i + 1..], seen + {key});
        seen := seen + {key};
        uniqueRows := uniqueRows + [rows[i]];
      } else {
        assert seen + {key} == seen;
      }
      i := i + 1;
    }
    assert rows[i..] == [];
  }

  lemma KeysSnoc(rows: seq<HistoryRow>, row: HistoryRow)
    ensures Keys(rows + [row]) == Keys(rows) + {RowKey(row)}
  {
    var r := rows + [row];
    assert forall i :: 0 <= i < |rows| ==> r[i] == rows[i];
    assert r[|rows|] == row;
  }

  /** No two rows shown share a key, none carries a key in seen, and each comes from the input. */
  lemma {:induction false} DedupeFromKeys(rows: seq<HistoryRow>, seen: set<string>)
    ensures forall i, j :: 0 <= i < j < |DedupeFrom(rows, seen)| ==> RowKey(DedupeFrom(rows, seen)[i]) != RowKey(DedupeFrom(rows, seen)[j])
    ensures forall i :: 0 <= i < |DedupeFrom(rows, seen)| ==> RowKey(DedupeFrom(rows, seen)[i]) !in seen
    decreases |rows|
  {
    if |rows| > 0 {
      var k := RowKey(rows[0]);
      if k in seen {
        DedupeFromKeys(rows[1..], seen);
      } else {
        DedupeFromKeys(rows[1..], seen + {k});
        var rest := DedupeFrom(rows[1..], seen + {k});
        assert DedupeFrom(rows, seen) == [rows[0]] + rest;
        forall i | 0 <= i < |[rows[0]] + rest| ensures RowKey(([rows[0]] + rest)[i]) !in seen {
          if i > 0 {
            assert ([rows[0]] + rest)[i] == rest[i - 1];
          }
        }
        forall i, j | 0 <= i < j < |[rows[0]] + rest|
          ensures RowKey(([rows[0]] + rest)[i]) != RowKey(([rows[0]] + rest)[j])
        {
          assert ([rows[0]] + rest)[j] == rest[j - 1];
          if i > 0 {
            assert ([rows[0]] + rest)[i] == rest[i - 1];
          }
        }
      }
    }
  }

  /** No two rows shown share a key. */
  lemma DedupedDistinctKeys(rows: seq<HistoryRow>)
    ensures forall i, j :: 0 <= i < j < |Deduped(rows)| ==> RowKey(Deduped(rows)[i]) != RowKey(Deduped(rows)[j])
  {
    DedupeFromKeys(rows, {});
  }

  /** The first row of every key not in seen is kept. */
  lemma {:induction false} DedupeFromKeepsFirst(rows: seq<HistoryRow>, seen: set<string>, i: int)
    requires 0 <= i < |rows| && FirstOfKey(rows, i) && RowKey(rows[i]) !in seen
    ensures rows[i] in DedupeFrom(rows, seen)
    decreases |rows|
  {
    if i > 0 {
      var k := RowKey(rows[0]);
      assert k != RowKey(rows[i]);
      assert FirstOfKey(rows[1..], i - 1) by {
        forall j | 0 <= j < i - 1 ensures RowKey(rows[1..][j]) != RowKey(rows[1..][i - 1]) {
          assert rows[1..][j] == rows[j + 1];
        }
      }
      if k in seen {
        DedupeFromKeepsFirst(rows[1..], seen, i - 1);
      } else {
        DedupeFromKeepsFirst(rows[1..], seen + {k}, i - 1);
      }
    }
  }

  /** Only first rows of their key are kept. */
  lemma {:induction false} DedupeFromOnlyFirst(rows: seq<HistoryRow>, seen: set<string>, row: HistoryRow)
    requires row in DedupeFrom(rows, seen)
    ensures exists i :: 0 <= i < |rows| && rows[i] == row && FirstOfKey(rows, i)
    decreases |rows|
  {
    var k := RowKey(rows[0]);
    if row == rows[0] && k !in seen {
      assert FirstOfKey(rows, 0);
    } else {
      var seen' := if k in seen then seen else seen + {k};
      assert row in DedupeFrom(rows[1..], seen');
      DedupeFromOnlyFirst(rows[1..], seen', row);
      var i :| 0 <= i < |rows[1..]| && rows[1..][i] == row && FirstOfKey(rows[1..], i);
      if RowKey(row) == k {
        DedupeFromKeys(rows[1..], seen');
        assert false;
      }
      assert FirstOfKey(rows, i + 1) by {
        forall j | 0 <= j < i + 1 ensures RowKey(rows[j]) != RowKey(rows[i + 1]) {
          if j > 0 {
            assert rows[j] == rows[1..][j - 1];
          }
        }
      }
    }
  }

  /** A row is shown exactly when it is the first row of its key in the reply. */
  lemma DedupedKeepsFirstRows(rows: seq<HistoryRow>, row: HistoryRow)
    ensures row in Deduped(rows) <==> exists i :: 0 <= i < |rows| && rows[i] == row && FirstOfKey(rows, i)
  {
    if row in Deduped(rows) {
      DedupeFromOnlyFirst(rows, {}, row);
    }
    if i :| 0 <= i < |rows| && rows[i] == row && FirstOfKey(rows, i) {
      DedupeFromKeepsFirst(rows, {}, i);
    }
  }

  /** The rows shown are the reply's rows with some left out, in the reply's order. */
  lemma {:induction false} DedupeFromSubsequence(rows: seq<HistoryRow>, seen: set<string>)
    ensures Subsequence(DedupeFrom(rows, seen), rows)
    decreases |rows|
  {
    if |rows| > 0 {
      var k := RowKey(rows[0]);
      if k in seen {
        DedupeFromSubsequence(rows[1..], seen);
        SubsequenceSkip(DedupeFrom(rows[1..], seen), rows);
      } else {
        DedupeFromSubsequence(rows[1..], seen + {k});
        var rest := DedupeFrom(rows[1..], seen + {k});
        assert ([rows[0]] + rest)[1..] == rest;
      }
    }
  }

  lemma SubsequenceSkip(a: seq<HistoryRow>, b: seq<HistoryRow>)
    requires |b| > 0 && Subsequence(a, b[1..])
    ensures Subsequence(a, b)
  {
  }

  /** The rows shown keep the reply's order. */
  lemma DedupedIsSubsequence(rows: seq<HistoryRow>)
    ensures Subsequence(Deduped(rows), rows)
  {
    DedupeFromSubsequence(rows, {});
  }

  // ---------------------------------------------------------------------
  // Highlight and the no-data guard
  // ---------------------------------------------------------------------

  /** The clicked login's row: String(row.id) and String(row.mobileid) equal the button's id and mobileid. */
  predicate Highlight(row: HistoryRow, id: Cell, mobileid: Cell)
  {
    StringOf(Get(row, "id")) == StringOf(id) && StringOf(Get(row, "mobileid")) == StringOf(mobileid)
  }

  /**
   * String() turns a null id into the text "null": a row whose id is null is
   * highlighted when the button passed the text "null", and a row without
   * an id when it passed "undefined".
   */
  lemma HighlightComparesText(row: HistoryRow, mobileid: Cell)
    requires StringOf(Get(row, "mobileid")) == StringOf(mobileid)
    ensures Get(row, "id").NullCell? ==> Highlight(row, Text("null"), mobileid)
    ensures (forall i :: 0 <= i < |row| ==> row[i].0 != "id") ==> Highlight(row, Text("undefined"), mobileid)
  {
  }

  /** The rows member of the reply: absent, some other JSON value, or an array. */
  datatype RowsValue = NoRows | NotAnArray | RowArray(rows: seq<HistoryRow>)

  /** What the panel content becomes. */
  datatype PanelContent = NoDataMessage | HistoryTable(rows: seq<HistoryRow>, highlighted: seq<bool>)

  /**
   * The fetch handler: an unsuccessful reply or one whose rows are not an
   * array shows the no-data message; otherwise the de-duplicated rows are
   * shown, the clicked login's row highlighted.
   */
  method ShowHistory(success: bool, rows: RowsValue, id: Cell, mobileid: Cell) returns (content: PanelContent)
    ensures content.NoDataMessage? <==> !success || !rows.RowArray?
    ensures content.HistoryTable? ==> content.rows == Deduped(rows.rows)
    ensures content.HistoryTable? ==> |content.highlighted| == |content.rows|
    ensures content.HistoryTable? ==> forall i :: 0 <= i < |content.rows| ==> (content.highlighted[i] <==> Highlight(content.rows[i], id, mobileid))
  {
    if !success || !rows.RowArray? {
      return NoDataMessage;
    }
    var uniqueRows := Dedupe(rows.rows);
    var highlighted := seq(|uniqueRows|, i requires 0 <= i < |uniqueRows| => Highlight(uniqueRows[i], id, mobileid));
    content := HistoryTable(uniqueRows, highlighted);
  }

  // ---------------------------------------------------------------------
  // Cell formatting
  // ---------------------------------------------------------------------

  /** pad: '0' before a one-digit number, the number itself otherwise. */
  function Pad(n: nat): string
  {
    if n < 10 then "0" + NatToString(n) else NatToString(n)
  }

  /** pad agrees with padStart(2, '0') on every natural number. */
  lemma PadIsPad2(n: nat)
    ensures Pad(n) == DateTimes.Pad2(n)
    ensures n < 100 ==> |Pad(n)| == 2
  {
  }

  /** The 12 month abbreviations of formatTanggal. */
  const Months: seq<string> := ["Jan", "Feb", "Mar", "Apr", "May", "Jun", "Jul", "Aug", "Sep", "Oct", "Nov", "Dec"]

  /** String(x).slice(-2): the last two characters, or all of a shorter text. */
  function LastTwo(s: string): (r: string)
    ensures |r| == if |s| >= 2 then 2 else |s|
    ensures r == s[|s| - |r|..]
  {
    if |s| >= 2 then s[|s| - 2..] else s
  }

  /** escapeHtml: the text as an HTML text node serialises it. */
  function EscapeHtml(s: string): (r: string)
    ensures '<' !in r && '>' !in r
    ensures (forall i :: 0 <= i < |s| ==> s[i] !in "&<>\U{00A0}") ==> r == s
  {
    if |s| == 0 then ""
    else
      (if s[0] == '&' then "&amp;" else if s[0] == '<' then "&lt;" else if s[0] == '>' then "&gt;"
       else if s[0] == '\U{00A0}' then "&nbsp;" else [s[0]])
      + EscapeHtml(s[1..])
  }

  /** The tanggal value as the page receives it: falsy, text no Date can be made of, or a date. */
  datatype DateValue = Falsy | Unparsable(text: string) | ADate(d: DateTimes.DateTime)

  /** formatTanggal: "" for a falsy value, the escaped text when it is not a date, otherwise "DD Mon YY". */
  function FormatTanggal(v: DateValue): (r: string)
    requires v.ADate? ==> DateTimes.Valid(v.d)
    ensures v.Falsy? ==> r == ""
    ensures v.Unparsable? ==> r == EscapeHtml(v.text)
    ensures v.ADate? && v.d.year >= 10 ==> |r| == 9 && r[2] == ' ' && r[6] == ' '
  {
    match v
    case Falsy => ""
    case Unparsable(t) => EscapeHtml(t)
    case ADate(d) =>
      assert |Pad(d.day)| == 2 by { PadIsPad2(d.day); }
      Pad(d.day) + " " + Months[d.month - 1] + " " + LastTwo(NatToString(d.year))
  }

  lemma TensDigit(y: nat)
    ensures (y % 100) / 10 == (y / 10) % 10
    ensures (y % 100) % 10 == y % 10
  {
    var t, u := y / 10, y % 10;
    var a, b := t / 10, t % 10;
    var r := 10 * b + u;
    assert y == 100 * a + r && 0 <= r < 100;
    assert y % 100 == r by { DivModUnique(y, 100, a, r); }
    assert r / 10 == b && r % 10 == u by { DivModUnique(r, 10, b, u); }
  }

  lemma LastDigit(m: nat)
    ensures NatToString(m)[|NatToString(m)| - 1] == DigitChar(m % 10)
  {
  }

  /** The last two digits of a year of two or more digits are its value modulo 100, padded. */
  lemma LastTwoOfYear(y: nat)
    requires y >= 10
    ensures LastTwo(NatToString(y)) == DateTimes.Pad2(y % 100)
  {
    var s := NatToString(y);
    assert LastTwo(s) == [DigitChar((y / 10) % 10), DigitChar(y % 10)] by {
      assert s == NatToString(y / 10) + [DigitChar(y % 10)];
      LastDigit(y / 10);
    }
    assert DateTimes.Pad2(y % 100) == [DigitChar((y / 10) % 10), DigitChar(y % 10)] by {
      DateTimes.Pad2Digits(y % 100);
      TensDigit(y);
    }
  }

  lemma TwoDigitValue(n: nat)
    requires n < 100
    ensures AllDigits([DigitChar(n / 10), DigitChar(n % 10)])
    ensures DigitsValue([DigitChar(n / 10), DigitChar(n % 10)]) == n
  {
    var s := [DigitChar(n / 10), DigitChar(n % 10)];
    DateTimes.DigitCharValue(n / 10);
    DateTimes.DigitCharValue(n % 10);
    assert s[..1] == [DigitChar(n / 10)];
    assert s[..1][..0] == [];
    assert DigitsValue(s[..1]) == n / 10;
  }

  /** The tanggal text of a date with a year of two or more digits, field by field. */
  lemma FormatTanggalFields(d: DateTimes.DateTime)
    requires DateTimes.Valid(d) && d.year >= 10
    ensures FormatTanggal(ADate(d)) == DateTimes.Pad2(d.day) + " " + Months[d.month - 1] + " " + DateTimes.Pad2(d.year % 100)
  {
    PadIsPad2(d.day);
    LastTwoOfYear(d.year);
  }

  /** The day, the month and the year modulo 100 of a date can be read back from its tanggal text. */
  lemma FormatTanggalReadsBack(d: DateTimes.DateTime)
    requires DateTimes.Valid(d) && d.year >= 10
    ensures AllDigits(FormatTanggal(ADate(d))[..2]) && DigitsValue(FormatTanggal(ADate(d))[..2]) == d.day
    ensures FormatTanggal(ADate(d))[3..6] == Months[d.month - 1]
    ensures forall j :: 0 <= j < 12 && FormatTanggal(ADate(d))[3..6] == Months[j] ==> j == d.month - 1
    ensures AllDigits(FormatTanggal(ADate(d))[7..]) && DigitsValue(FormatTanggal(ADate(d))[7..]) == d.year % 100
  {
    var r := FormatTanggal(ADate(d));
    var day, month, year := DateTimes.Pad2(d.day), Months[d.month - 1], DateTimes.Pad2(d.year % 100);
    assert r == day + " " + month + " " + year by {
      FormatTanggalFields(d);
    }
    TwoDigitField(d.day);
    TwoDigitField(d.year % 100);
    MonthsDistinct();
    FieldsAt(day, month, year);
  }

  /** A two-digit field reads back as its value. */
  lemma TwoDigitField(n: nat)
    requires n < 100
    ensures |DateTimes.Pad2(n)| == 2 && AllDigits(DateTimes.Pad2(n)) && DigitsValue(DateTimes.Pad2(n)) == n
  {
    DateTimes.Pad2Digits(n);
    TwoDigitValue(n);
  }

  /** No two months share an abbreviation, and each has three letters. */
  lemma MonthsDistinct()
    ensures forall i, j :: 0 <= i < 12 && 0 <= j < 12 && Months[i] == Months[j] ==> i == j
    ensures forall i :: 0 <= i < 12 ==> |Months[i]| == 3
  {
  }

  lemma FieldsAt(day: string, month: string, year: string)
    requires |day| == 2 && |month| == 3
    ensures (day + " " + month + " " + year)[..2] == day
    ensures (day + " " + month + " " + year)[3..6] == month
    ensures (day + " " + month + " " + year)[7..] == year
  {
  }
}
