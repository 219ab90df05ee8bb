/**
 * The hour-meter (HM) validation rules of step 3: rows arrive from the
 * server as JSON objects whose field names vary in case, fields are read
 * with a case-insensitive lookup, numbers are read the way JavaScript's
 * parseFloat reads them, and each row is classified (TOTAL HM, HM LONCAT,
 * login pattern, problem flags).
 */
module HmRules {
  import opened Wrappers
  import opened Text

  /** A JSON value as it appears in a row; HM values are exact reals. */
  datatype Value = Null | Bool(b: bool) | Num(x: real) | Str(s: string)

  /** The fields of a JSON object, in property order. */
  type Fields = seq<(string, Value)>

  /** A row of the step-3 table: an object, or a missing row (null or undefined). */
  datatype Row = NullRow | Obj(fields: Fields)

  /** JavaScript truthiness of a value. */
  predicate Truthy(v: Value)
  {
    match v
    case Null => false
    case Bool(b) => b
    case Num(x) => x != 0.0
    case Str(s) => s != ""
  }

  /** `a || b` on values: a when truthy, otherwise b. */
  function Or(a: Value, b: Value): (r: Value)
    ensures Truthy(r) <==> Truthy(a) || Truthy(b)
    ensures Truthy(a) ==> r == a
  {
    if Truthy(a) then a else b
  }

  // ---------------------------------------------------------------------
  // Field lookup
  // ---------------------------------------------------------------------

  /** The first field named exactly key (an own property of the object). */
  function FirstKey(f: Fields, key: string): (r: Option<nat>)
    ensures r.Some? ==> r.value < |f| && f[r.value].0 == key
    ensures r.Some? ==> forall j :: 0 <= j < r.value ==> f[j].0 != key
    ensures r.None? <==> forall j :: 0 <= j < |f| ==> f[j].0 != key
  {
    if |f| == 0 then None
    else if f[0].0 == key then Some(0)
    else
      match FirstKey(f[1..], key)
      case None => None
      case Some(i) => Some(i + 1)
  }

  /** The first field whose lower-case name is lowered. */
  function FirstFoldedKey(f: Fields, lowered: string): (r: Option<nat>)
    ensures r.Some? ==> r.value < |f| && Lower(f[r.value].0) == lowered
    ensures r.Some? ==> forall j :: 0 <= j < r.value ==> Lower(f[j].0) != lowered
    ensures r.None? <==> forall j :: 0 <= j < |f| ==> Lower(f[j].0) != lowered
  {
    if |f| == 0 then None
    else if Lower(f[0].0) == lowered then Some(0)
    else
      match FirstFoldedKey(f[1..], lowered)
      case None => None
      case Some(i) => Some(i + 1)
  }

  /**
   * What getVal returns: null for a missing row; the value of the property
   * named exactly key if there is one; otherwise the value of the first
   * property whose lower-case name equals key's; otherwise null.
   */
  function Lookup(row: Row, key: string): (v: Value)
    ensures v != Null ==> row.Obj? && exists i :: 0 <= i < |row.fields| && Lower(row.fields[i].0) == Lower(key) && row.fields[i].1 == v
    ensures row.Obj? && FirstKey(row.fields, key).Some? ==> v == row.fields[FirstKey(row.fields, key).value].1
  {
    match row
    case NullRow => Null
    case Obj(f) =>
      match FirstKey(f, key)
      case Some(i) => f[i].1
      case None =>
        match FirstFoldedKey(f, Lower(key))
        case Some(i) => f[i].1
        case None => Null
  }

  /**
   * getVal: the exact-name check first, then a scan of the property names
   * in order for one that matches ignoring case.
   */
  method GetVal(row: Row, key: string) returns (v: Value)
    ensures v == Lookup(row, key)
  {
    if row.NullRow? {
      return Null;
    }
    var f := row.fields;
    var exact := FirstKey(f, key);
    if exact.Some? {
      return f[exact.value].1;
    }
    var lowered := Lower(key);
    var k := 0;
    while k < |f|
      invariant 0 <= k <= |f|
      invariant forall j :: 0 <= j < k ==> Lower(f[j].0) != lowered
    {
      if Lower(f[k].0) == lowered {
        assert FirstFoldedKey(f, lowered) == Some(k);
        return f[k].1;
      }
      k := k + 1;
    }
    return Null;
  }

  /** No two property names of the object differ only in case. */
  ghost predicate CaseDistinct(f: Fields)
  {
    forall i, j :: 0 <= i < j < |f| ==> Lower(f[i].0) != Lower(f[j].0)
  }

  /** Lowering a string twice changes nothing more. */
  lemma LowerIdempotent(s: string)
    ensures Lower(Lower(s)) == Lower(s)
  {
    assert forall i :: 0 <= i < |s| ==> LowerChar(LowerChar(s[i])) == LowerChar(s[i]);
  }

  /** When no two names differ only in case, every spelling of a name reads the same field. */
  lemma LookupIgnoresCase(f: Fields, key1: string, key2: string)
    requires CaseDistinct(f)
    requires Lower(key1) == Lower(key2)
    ensures Lookup(Obj(f), key1) == Lookup(Obj(f), key2)
  {
    var lowered := Lower(key1);
    match FirstFoldedKey(f, lowered)
    case None =>
      assert FirstKey(f, key1).None? && FirstKey(f, key2).None?;
    case Some(i) =>
      forall j | 0 <= j < |f| && Lower(f[j].0) == lowered
        ensures j == i
      {
      }
      forall key | key == key1 || key == key2
        ensures Lookup(Obj(f), key) == f[i].1
      {
        match FirstKey(f, key)
        case None =>
        case Some(j) =>
          assert Lower(f[j].0) == lowered;
      }
  }

  /** JavaScript property assignment: an existing own property keeps its place, a new one goes last. */
  function SetKey(f: Fields, key: string, v: Value): (r: Fields)
    ensures |r| == |f| || |r| == |f| + 1
  {
    if |f| == 0 then [(key, v)]
    else if f[0].0 == key then [(key, v)] + f[1..]
    else [f[0]] + SetKey(f[1..], key, v)
  }

  /** After the assignment the name reads back the value assigned. */
  lemma {:induction false} SetKeyReadsBack(f: Fields, key: string, v: Value)
    ensures FirstKey(SetKey(f, key, v), key).Some?
    ensures Lookup(Obj(SetKey(f, key, v)), key) == v
  {
    if |f| > 0 && f[0].0 != key {
      SetKeyReadsBack(f[1..], key, v);
    }
  }

  /** The names of the object after an assignment: the old names, plus the new one if it was absent. */
  lemma {:induction false} SetKeyNames(f: Fields, key: string, v: Value)
    ensures forall j :: 0 <= j < |f| ==> SetKey(f, key, v)[j].0 == f[j].0
    ensures forall j :: 0 <= j < |f| && f[j].0 != key ==> SetKey(f, key, v)[j].1 == f[j].1
    ensures |SetKey(f, key, v)| == |f| + 1 ==> SetKey(f, key, v)[|f|].0 == key
  {
    if |f| > 0 && f[0].0 != key {
      SetKeyNames(f[1..], key, v);
    }
  }

  /** An assignment to key does not move the first property named other. */
  lemma {:induction false} SetKeyFirstKey(f: Fields, key: string, v: Value, other: string)
    requires other != key
    ensures FirstKey(SetKey(f, key, v), other) == FirstKey(f, other)
  {
    if |f| == 0 {
    } else if f[0].0 == key {
      assert SetKey(f, key, v)[1..] == f[1..];
    } else {
      assert SetKey(f, key, v)[1..] == SetKey(f[1..], key, v);
      SetKeyFirstKey(f[1..], key, v, other);
    }
  }

  /** An assignment to key does not move the first property whose lower-case name is lowered, for another lowered. */
  lemma {:induction false} SetKeyFirstFoldedKey(f: Fields, key: string, v: Value, lowered: string)
    requires lowered != Lower(key)
    ensures FirstFoldedKey(SetKey(f, key, v), lowered) == FirstFoldedKey(f, lowered)
  {
    if |f| == 0 {
    } else if f[0].0 == key {
      assert SetKey(f, key, v)[1..] == f[1..];
    } else {
      assert SetKey(f, key, v)[1..] == SetKey(f[1..], key, v);
      SetKeyFirstFoldedKey(f[1..], key, v, lowered);
    }
  }

  /** The assignment leaves every name whose lower-case form differs from key's reading as before. */
  lemma SetKeyKeepsOthers(f: Fields, key: string, v: Value, other: string)
    requires Lower(other) != Lower(key)
    ensures Lookup(Obj(SetKey(f, key, v)), other) == Lookup(Obj(f), other)
  {
    SetKeyNames(f, key, v);
    SetKeyFirstKey(f, key, v, other);
    SetKeyFirstFoldedKey(f, key, v, Lower(other));
    match FirstKey(f, other)
    case Some(i) =>
    case None =>
      match FirstFoldedKey(f, Lower(other))
      case None =>
      case Some(i) =>
        assert f[i].0 != key;
  }

  /** Writing a field of a row object; a missing row has no fields to write. */
  function SetField(row: Row, key: string, v: Value): Row
  {
    match row
    case NullRow => NullRow
    case Obj(f) => Obj(SetKey(f, key, v))
  }

  /** Writing a field of an object: the field reads back the value, and every field named differently, ignoring case, reads as before. */
  lemma SetFieldEffect(row: Row, key: string, v: Value)
    requires row.Obj?
    ensures SetField(row, key, v).Obj? && Lookup(SetField(row, key, v), key) == v
    ensures forall k :: Lower(k) != Lower(key) ==> Lookup(SetField(row, key, v), k) == Lookup(row, k)
  {
    SetKeyReadsBack(row.fields, key, v);
    forall k | Lower(k) != Lower(key)
      ensures Lookup(SetField(row, key, v), k) == Lookup(row, k)
    {
      SetKeyKeepsOthers(row.fields, key, v, k);
    }
  }

  // ---------------------------------------------------------------------
  // Reading numbers (Number.parseFloat)
  // ---------------------------------------------------------------------

  /** The length of the run of decimal digits at the front of s. */
  function DigitRun(s: string): (n: nat)
    ensures n <= |s| && AllDigits(s[..n])
    ensures n < |s| ==> !IsDigit(s[n])
  {
    if |s| > 0 && IsDigit(s[0]) then
      var n := 1 + DigitRun(s[1..]);
      assert s[..n] == [s[0]] + s[1..][..n - 1];
      n
    else 0
  }

  /** The power of ten an exponent part `e[+-]digits` at the front of s scales by; 1 when there is none. */
  function ExponentScale(s: string): (r: real)
    ensures r > 0.0
  {
    if |s| >= 2 && (s[0] == 'e' || s[0] == 'E') then
      var signLen := if s[1] == '+' || s[1] == '-' then 1 else 0;
      var digits := s[1 + signLen..];
      var n := DigitRun(digits);
      if n == 0 then 1.0
      else if signLen == 1 && s[1] == '-' then 1.0 / (Pow10(DigitsValue(digits[..n])) as real)
      else Pow10(DigitsValue(digits[..n])) as real
    else 1.0
  }

  /** The value of an unsigned number at the front of s: digits, an optional fraction, an optional exponent. */
  function ParseUnsigned(s: string): Option<real>
  {
    var i := DigitRun(s);
    var hasPoint := i < |s| && s[i] == '.';
    var fracStart := if hasPoint then i + 1 else i;
    var f := if hasPoint then DigitRun(s[fracStart..]) else 0;
    if i == 0 && f == 0 then None
    else
      var magnitude := DigitsValue(s[..i]) as real
                       + DigitsValue(s[fracStart..][..f]) as real / (Pow10(f) as real);
      Some(magnitude * ExponentScale(s[fracStart + f..]))
  }

  /**
   * The longest decimal prefix of s, as parseFloat reads it after skipping
   * leading white space: an optional sign, then an unsigned number; None
   * (NaN) when there is no digit before or after the point.
   */
  function ParseDecimalPrefix(s: string): Option<real>
  {
    if |s| > 0 && (s[0] == '+' || s[0] == '-') then
      match ParseUnsigned(s[1..])
      case None => None
      case Some(x) => Some(if s[0] == '-' then -x else x)
    else ParseUnsigned(s)
  }

  /** A run of digits covering the whole string. */
  lemma {:induction false} DigitRunAll(s: string)
    requires AllDigits(s)
    ensures DigitRun(s) == |s|
  {
    if |s| > 0 {
      DigitRunAll(s[1..]);
    }
  }

  /** A plain string of digits reads as its decimal value. */
  lemma UnsignedDigits(d: string)
    requires AllDigits(d) && |d| > 0
    ensures ParseUnsigned(d) == Some(DigitsValue(d) as real)
  {
    DigitRunAll(d);
    assert d[..|d|] == d;
    assert d[|d|..][..0] == "";
    assert d[|d|..] == "";
  }

  /** Number.parseFloat on a value: numbers are themselves, strings are read, anything else is NaN (None). */
  function ParseFloat(v: Value): (r: Option<real>)
    ensures v.Num? ==> r == Some(v.x)
    ensures v.Null? || v.Bool? ==> r.None?
  {
    match v
    case Num(x) => Some(x)
    case Str(s) => ParseDecimalPrefix(TrimStart(JavaScript, s))
    case _ => None
  }

  /** Text made of digits only reads as its decimal value. */
  lemma DigitTextParses(s: string)
    requires AllDigits(s) && |s| > 0
    ensures ParseFloat(Str(s)) == Some(DigitsValue(s) as real)
  {
    UnsignedText(s);
    UnsignedDigits(s);
  }

  /** Text starting with a digit is read without a sign. */
  lemma UnsignedText(s: string)
    requires |s| > 0 && IsDigit(s[0])
    ensures ParseFloat(Str(s)) == ParseUnsigned(s)
  {
    var c := s[0];
    assert !IsSpace(JavaScript, c) by { assert '0' <= c <= '9'; }
    assert TrimStart(JavaScript, s) == s;
  }

  /** The decimal text of a natural number reads back as that number. */
  lemma NatTextParses(n: nat)
    ensures ParseFloat(Str(NatToString(n))) == Some(n as real)
  {
    DigitTextParses(NatToString(n));
    NatToStringValue(n);
  }

  /** A negative integer's text reads back as that integer. */
  lemma NegativeTextParses(n: nat)
    ensures ParseFloat(Str("-" + NatToString(n))) == Some(-(n as real))
  {
    var d := NatToString(n);
    var s := "-" + d;
    assert s[0] == '-' && s[1..] == d;
    assert ParseUnsigned(d) == Some(n as real) by {
      UnsignedDigits(d);
      NatToStringValue(n);
    }
    calc {
      ParseFloat(Str(s));
      ParseDecimalPrefix(TrimStart(JavaScript, s));
      { assert !IsSpace(JavaScript, s[0]); }
      ParseDecimalPrefix(s);
      Some(-(n as real));
    }
  }

  /** Text whose first non-blank character cannot start a number is NaN. */
  lemma NonNumericTextIsNaN(s: string)
    requires |TrimStart(JavaScript, s)| == 0 || !(IsDigit(TrimStart(JavaScript, s)[0]) || TrimStart(JavaScript, s)[0] in "+-.")
    ensures ParseFloat(Str(s)).None?
  {
    var t := TrimStart(JavaScript, s);
    calc {
      ParseFloat(Str(s));
      ParseDecimalPrefix(t);
      { if |t| > 0 { assert !(t[0] == '+' || t[0] == '-'); } }
      ParseUnsigned(t);
      { assert DigitRun(t) == 0; assert |t| == 0 || t[0] != '.'; }
      None;
    }
  }

  // ---------------------------------------------------------------------
  // Derived HM figures and their classes
  // ---------------------------------------------------------------------

  /** TOTAL HM: logout HM minus login HM, defined only when both are numbers. */
  function TotalHm(row: Row): (r: Option<real>)
    ensures r.Some? <==> ParseFloat(Lookup(row, "next_hm")).Some? && ParseFloat(Lookup(row, "hm")).Some?
    ensures r.Some? ==> r.value == ParseFloat(Lookup(row, "next_hm")).value - ParseFloat(Lookup(row, "hm")).value
  {
    var next := ParseFloat(Lookup(row, "next_hm"));
    var login := ParseFloat(Lookup(row, "hm"));
    if next.Some? && login.Some? then Some(next.value - login.value) else None
  }

  /** HM LONCAT (the jump): login HM minus the previous logout HM, defined only when both are numbers. */
  function HmLoncat(row: Row): (r: Option<real>)
    ensures r.Some? <==> ParseFloat(Lookup(row, "hm")).Some? && ParseFloat(Lookup(row, "prev_hm")).Some?
    ensures r.Some? ==> r.value == ParseFloat(Lookup(row, "hm")).value - ParseFloat(Lookup(row, "prev_hm")).value
  {
    var login := ParseFloat(Lookup(row, "hm"));
    var prev := ParseFloat(Lookup(row, "prev_hm"));
    if login.Some? && prev.Some? then Some(login.value - prev.value) else None
  }

  /** The jump and the shift total together span the previous logout to this logout. */
  lemma JumpPlusTotal(row: Row)
    requires TotalHm(row).Some? && HmLoncat(row).Some?
    ensures HmLoncat(row).value + TotalHm(row).value
            == ParseFloat(Lookup(row, "next_hm")).value - ParseFloat(Lookup(row, "prev_hm")).value
  {
  }

  datatype CellClass = Good | Warn | Bad

  /** The TOTAL HM cell: no class without a value, bad above 12 hours or at or below zero, good otherwise. */
  function TotalClass(v: Option<real>): (c: Option<CellClass>)
    ensures c.None? <==> v.None?
    ensures c == Some(Good) <==> v.Some? && 0.0 < v.value <= 12.0
    ensures c != Some(Warn)
  {
    match v
    case None => None
    case Some(x) => if x > 12.0 || x <= 0.0 then Some(Bad) else Some(Good)
  }

  /** The tolerance under which a jump counts as none. */
  const Epsilon: real := 0.000000001

  /**
   * The HM LONCAT cell: good for a jump within 1e-9 of zero, warn for a
   * small forward jump below 0.4, bad for a larger forward jump or any
   * backward one; a jump of exactly 0.4 falls through every test.
   */
  function LoncatClass(v: Option<real>): (c: Option<CellClass>)
    ensures c.None? <==> v.None? || v.value == 0.4
    ensures c == Some(Good) <==> v.Some? && -Epsilon < v.value < Epsilon
    ensures c == Some(Warn) <==> v.Some? && Epsilon <= v.value < 0.4
    ensures c == Some(Bad) <==> v.Some? && (v.value > 0.4 || v.value <= -Epsilon)
  {
    match v
    case None => None
    case Some(x) =>
      if (if x < 0.0 then -x else x) < Epsilon then Some(Good)
      else if x > 0.0 && x < 0.4 then Some(Warn)
      else if x > 0.4 then Some(Bad)
      else if x < 0.0 then Some(Bad)
      else None
  }

  /** The PATTERN cell: good exactly when the pattern, ignoring case, is logout-login-logout. */
  function PatternClass(v: Value): (c: CellClass)
    ensures c == Good || c == Bad
    ensures c == Good <==> v.Str? && Lower(v.s) == "logout-login-logout"
  {
    if v.Str? && Lower(v.s) == "logout-login-logout" then Good else Bad
  }

  /** The pattern test ignores case, and a missing pattern is bad. */
  lemma PatternIgnoresCase(s: string, t: string)
    requires Lower(s) == Lower(t)
    ensures PatternClass(Str(s)) == PatternClass(Str(t))
    ensures PatternClass(Null) == Bad
  {
  }

  // ---------------------------------------------------------------------
  // Problem flags
  // ---------------------------------------------------------------------

  /** The text JavaScript's String gives a non-null, non-numeric value. */
  function ValueText(v: Value): Option<string>
  {
    match v
    case Str(s) => Some(s)
    case Bool(b) => Some(if b then "true" else "false")
    case _ => None
  }

  /**
   * flagEq: the field, trimmed and lower-cased, equals the expected text
   * trimmed and lower-cased; a null field never matches.
   */
  predicate FlagEq(v: Value, expected: string)
  {
    match ValueText(v)
    case Some(text) => Lower(Trim(JavaScript, text)) == Lower(Trim(JavaScript, expected))
    case None => false
  }

  /** A flag ignores surrounding white space and matches its own expected text; null never matches. */
  lemma FlagEqProperties(s: string, expected: string)
    ensures FlagEq(Str(" " + s), expected) == FlagEq(Str(s), expected)
    ensures FlagEq(Str(expected), expected)
    ensures !FlagEq(Null, expected)
  {
    assert TrimStart(JavaScript, " " + s) == TrimStart(JavaScript, s) by {
      assert (" " + s)[1..] == s;
    }
  }

  /** A problem check: the flag field, the text that marks the problem, the badge shown. */
  datatype Check = Check(field: string, expected: string, badge: string)

  const Checks: seq<Check> := [
    Check("is_logout", "belum logout", "belum logout"),
    Check("is_salah_shift", "salah shift", "salah shift"),
    Check("is_ftw", "tidak ftw", "tidak ftw"),
    Check("is_loncat", "hm loncat", "hm loncat"),
    Check("is_sama", "hm logout = login", "hm sama")
  ]

  /** Whether check k flags the row. */
  predicate Flags(row: Row, k: nat)
    requires k < |Checks|
  {
    FlagEq(Lookup(row, Checks[k].field), Checks[k].expected)
  }

  /** The position of a badge in the fixed order. */
  function LabelRank(badge: string): nat
  {
    if badge == "belum logout" then 0
    else if badge == "salah shift" then 1
    else if badge == "tidak ftw" then 2
    else if badge == "hm loncat" then 3
    else 4
  }

  /** Each check's badge sits at the check's own position. */
  lemma BadgeRanks()
    ensures forall j :: 0 <= j < |Checks| ==> LabelRank(Checks[j].badge) == j
  {
  }

  /** The positions from k on whose flag is set, in increasing order. */
  function SetPositions(flags: seq<bool>, k: nat): (r: seq<nat>)
    requires k <= |flags|
    ensures |r| <= |flags| - k
    ensures forall i :: 0 <= i < |r| ==> k <= r[i] < |flags| && flags[r[i]]
    ensures forall j :: k <= j < |flags| && flags[j] ==> j in r
    ensures forall i, j :: 0 <= i < j < |r| ==> r[i] < r[j]
    decreases |flags| - k
  {
    if k == |flags| then []
    else if flags[k] then [k] + SetPositions(flags, k + 1)
    else SetPositions(flags, k + 1)
  }

  /** The badges of the checks at the given positions. */
  function BadgesAt(positions: seq<nat>): (r: seq<string>)
    requires forall i :: 0 <= i < |positions| ==> positions[i] < |Checks|
    ensures |r| == |positions|
    ensures forall i :: 0 <= i < |r| ==> r[i] == Checks[positions[i]].badge
  {
    seq(|positions|, i requires 0 <= i < |positions| => Checks[positions[i]].badge)
  }

  /** Different checks carry different badges. */
  lemma BadgesDistinct(a: nat, b: nat)
    requires a < |Checks| && b < |Checks|
    requires Checks[a].badge == Checks[b].badge
    ensures a == b
  {
    BadgeRanks();
  }

  /** A check's badge appears among the badges of the set flags exactly when its flag is set. */
  lemma BadgeListed(flags: seq<bool>, k: nat)
    requires |flags| == |Checks| && k < |Checks|
    ensures Checks[k].badge in BadgesAt(SetPositions(flags, 0)) <==> flags[k]
  {
    var positions := SetPositions(flags, 0);
    var r := BadgesAt(positions);
    if flags[k] {
      var i :| 0 <= i < |positions| && positions[i] == k;
      assert r[i] == Checks[k].badge;
    }
    if Checks[k].badge in r {
      var i :| 0 <= i < |r| && r[i] == Checks[k].badge;
      BadgesDistinct(positions[i], k);
    }
  }

  /** The badges of the set flags name exactly the set flags, in check order. */
  lemma BadgesOfSetFlags(flags: seq<bool>)
    requires |flags| == |Checks|
    ensures var r := BadgesAt(SetPositions(flags, 0));
      && (forall k :: 0 <= k < |Checks| ==> (Checks[k].badge in r <==> flags[k]))
      && (forall i, j :: 0 <= i < j < |r| ==> LabelRank(r[i]) < LabelRank(r[j]))
      && (r == [] <==> forall k :: 0 <= k < |Checks| ==> !flags[k])
  {
    var positions := SetPositions(flags, 0);
    var r := BadgesAt(positions);
    BadgeRanks();
    if |r| > 0 {
      assert flags[positions[0]];
    }
    forall k | 0 <= k < |Checks|
      ensures Checks[k].badge in r <==> flags[k]
    {
      BadgeListed(flags, k);
    }
  }

  /**
   * The Problem cell: the badges of every flagged check, in the fixed order
   * belum logout, salah shift, tidak ftw, hm loncat, hm sama.
   */
  function Problems(row: Row): (r: seq<string>)
    ensures |r| <= |Checks|
    ensures forall k :: 0 <= k < |Checks| ==> (Checks[k].badge in r <==> Flags(row, k))
    ensures forall i, j :: 0 <= i < j < |r| ==> LabelRank(r[i]) < LabelRank(r[j])
    ensures r == [] <==> forall k :: 0 <= k < |Checks| ==> !Flags(row, k)
  {
    var flags := seq(|Checks|, k requires 0 <= k < |Checks| => Flags(row, k));
    BadgesOfSetFlags(flags);
    BadgesAt(SetPositions(flags, 0))
  }
}
