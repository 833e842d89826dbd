/** The row conversion of the `/api/query` handler (app.py lines 343-368):
    database rows become column-to-value maps that can be sent as JSON. The
    query execution itself is not part of this model; the column names and
    the rows arrive as inputs. */
module Rows {

  datatype Option<T> = None | Some(value: T)

  // ---------------------------------------------------------------- dates

  /** A calendar date, as Python's `datetime.date` holds it. */
  datatype Date = Date(year: int, month: int, day: int)

  predicate IsLeapYear(y: int) {
    y % 4 == 0 && (y % 100 != 0 || y % 400 == 0)
  }

  function DaysInMonth(y: int, m: int): int
    requires 1 <= m <= 12
  {
    if m == 2 then (if IsLeapYear(y) then 29 else 28)
    else if m == 4 || m == 6 || m == 9 || m == 11 then 30
    else 31
  }

  /** Python refuses to build any other date. */
  predicate ValidDate(d: Date) {
    1 <= d.year <= 9999 && 1 <= d.month <= 12 && 1 <= d.day <= DaysInMonth(d.year, d.month)
  }

  type PyDate = d: Date | ValidDate(d) witness Date(1, 1, 1)

  /** The time of day of a `datetime.datetime` without time zone. */
  datatype Time = Time(hour: int, minute: int, second: int, microsecond: int)

  predicate ValidTime(t: Time) {
    0 <= t.hour < 24 && 0 <= t.minute < 60 && 0 <= t.second < 60 && 0 <= t.microsecond < 1000000
  }

  type PyTime = t: Time | ValidTime(t) witness Time(0, 0, 0, 0)

  // ------------------------------------------------------ decimal digits

  function Pow10(n: nat): nat {
    if n == 0 then 1 else 10 * Pow10(n - 1)
  }

  predicate IsDigit(c: char) {
    '0' <= c <= '9'
  }

  predicate AllDigits(s: string) {
    forall i | 0 <= i < |s| :: IsDigit(s[i])
  }

  /** `%0<width>d` for a number that fits in `width` digits. */
  function Padded(n: nat, width: nat): (s: string)
    requires n < Pow10(width)
    ensures |s| == width && AllDigits(s)
  {
    if width == 0 then ""
    else Padded(n / 10, width - 1) + [('0' as int + n % 10) as char]
  }

  /** The number a string of decimal digits denotes. */
  function DigitsValue(s: string): nat
    requires AllDigits(s)
  {
    if s == [] then 0
    else 10 * DigitsValue(s[..|s| - 1]) + (s[|s| - 1] as int - '0' as int)
  }

  lemma {:induction false} PaddedRoundTrip(n: nat, width: nat)
    requires n < Pow10(width)
    ensures DigitsValue(Padded(n, width)) == n
  {
    if width > 0 {
      var s := Padded(n, width);
      PaddedRoundTrip(n / 10, width - 1);
      assert s[..|s| - 1] == Padded(n / 10, width - 1);
    }
  }

  // ------------------------------------------------------------ isoformat

  /** `date.isoformat()`: `YYYY-MM-DD`. */
  function IsoDate(d: PyDate): (s: string)
    ensures |s| == 10
  {
    Padded(d.year, 4) + "-" + Padded(d.month, 2) + "-" + Padded(d.day, 2)
  }

  /** The time part of `datetime.isoformat()`: `HH:MM:SS`, followed by
      `.ffffff` only when the microseconds are not zero. */
  function IsoTime(t: PyTime): (s: string)
    ensures |s| == (if t.microsecond == 0 then 8 else 15)
  {
    Padded(t.hour, 2) + ":" + Padded(t.minute, 2) + ":" + Padded(t.second, 2)
      + (if t.microsecond == 0 then "" else "." + Padded(t.microsecond, 6))
  }

  /** `datetime.isoformat()` for a naive datetime: the date, `T`, the time. */
  function IsoDateTime(d: PyDate, t: PyTime): (s: string)
    ensures |s| == (if t.microsecond == 0 then 19 else 26)
  {
    IsoDate(d) + "T" + IsoTime(t)
  }

  /** Reads back exactly the form `IsoDate` produces, `YYYY-MM-DD`; other
      spellings that Python's parser would also accept are refused. */
  function ParseIsoDate(s: string): Option<PyDate> {
    if |s| == 10 && s[4] == '-' && s[7] == '-'
      && AllDigits(s[..4]) && AllDigits(s[5..7]) && AllDigits(s[8..])
    then
      var d := Date(DigitsValue(s[..4]), DigitsValue(s[5..7]), DigitsValue(s[8..]));
      if ValidDate(d) then var valid: PyDate := d; Some(valid) else None
    else None
  }

  /** Reads back exactly the forms `IsoTime` produces, `HH:MM:SS` and
      `HH:MM:SS.ffffff`; other spellings that Python's parser would also accept
      are refused. */
  function ParseIsoTime(s: string): Option<PyTime> {
    if (|s| == 8 || (|s| == 15 && s[8] == '.' && AllDigits(s[9..])))
      && s[2] == ':' && s[5] == ':'
      && AllDigits(s[..2]) && AllDigits(s[3..5]) && AllDigits(s[6..8])
    then
      var micro := if |s| == 8 then 0 else DigitsValue(s[9..]);
      var t := Time(DigitsValue(s[..2]), DigitsValue(s[3..5]), DigitsValue(s[6..8]), micro);
      if ValidTime(t) then var valid: PyTime := t; Some(valid) else None
    else None
  }

  /** The ISO text of a date denotes that date and no other. */
  lemma IsoDateRoundTrip(d: PyDate)
    ensures ParseIsoDate(IsoDate(d)) == Some(d)
  {
    var y, m, dd := Padded(d.year, 4), Padded(d.month, 2), Padded(d.day, 2);
    var s := IsoDate(d);
    assert s == y + "-" + m + "-" + dd;
    assert s[..4] == y && s[5..7] == m && s[8..] == dd;
    PaddedRoundTrip(d.year, 4);
    PaddedRoundTrip(d.month, 2);
    PaddedRoundTrip(d.day, 2);
  }

  /** The ISO text of a time of day denotes that time and no other, with or
      without the microseconds part. */
  lemma IsoTimeRoundTrip(t: PyTime)
    ensures ParseIsoTime(IsoTime(t)) == Some(t)
  {
    PaddedRoundTrip(t.hour, 2);
    PaddedRoundTrip(t.minute, 2);
    PaddedRoundTrip(t.second, 2);
    var tail := if t.microsecond == 0 then "" else "." + Padded(t.microsecond, 6);
    if t.microsecond != 0 {
      PaddedRoundTrip(t.microsecond, 6);
      assert tail[1..] == Padded(t.microsecond, 6);
    }
    ParseClock(Padded(t.hour, 2), Padded(t.minute, 2), Padded(t.second, 2), tail, t);
  }

  /** The parser reads back three two-digit fields and an optional fraction. */
  lemma ParseClock(h: string, m: string, sec: string, tail: string, t: PyTime)
    requires |h| == 2 && |m| == 2 && |sec| == 2 && AllDigits(h) && AllDigits(m) && AllDigits(sec)
    requires DigitsValue(h) == t.hour && DigitsValue(m) == t.minute && DigitsValue(sec) == t.second
    requires (tail == "" && t.microsecond == 0)
      || (|tail| == 7 && tail[0] == '.' && AllDigits(tail[1..]) && DigitsValue(tail[1..]) == t.microsecond)
    ensures ParseIsoTime(h + ":" + m + ":" + sec + tail) == Some(t)
  {
    var clock := h + ":" + m + ":" + sec;
    var s := clock + tail;
    assert |clock| == 8 && s[..8] == clock;
    assert clock[2] == ':' && clock[5] == ':';
    assert clock[..2] == h && clock[3..5] == m && clock[6..8] == sec;
    assert s[..2] == h && s[3..5] == m && s[6..8] == sec;
    if tail != "" {
      assert s[8] == '.' && s[9..] == tail[1..];
    }
  }

  /** A datetime's ISO text is its date's ISO text, a `T` and its time's ISO
      text, and both parts read back to the values they came from. */
  lemma IsoDateTimeRoundTrip(d: PyDate, t: PyTime)
    ensures IsoDateTime(d, t)[10] == 'T'
    ensures ParseIsoDate(IsoDateTime(d, t)[..10]) == Some(d)
    ensures ParseIsoTime(IsoDateTime(d, t)[11..]) == Some(t)
  {
    var s := IsoDateTime(d, t);
    assert s == IsoDate(d) + "T" + IsoTime(t);
    assert s[..10] == IsoDate(d);
    assert s[11..] == IsoTime(t);
    IsoDateRoundTrip(d);
    IsoTimeRoundTrip(t);
  }

  // --------------------------------------------------------------- values

  /** A `decimal.Decimal`: `unscaled` times ten to the power `-scale`. */
  datatype Decimal = Decimal(unscaled: int, scale: nat)

  /** The values that reach JSON unchanged. */
  datatype Scalar = Int(i: int) | Float(r: real) | Str(s: string) | Bool(b: bool) | Null

  /** A value of a result row, as the database driver hands it over. */
  datatype SqlValue =
    | DateValue(date: PyDate)
    | DateTimeValue(date: PyDate, time: PyTime)
    | DecimalValue(dec: Decimal)
    | Other(scalar: Scalar)

  type Row = seq<SqlValue>
  type Record = map<string, Scalar>

  /** Lines 362-367: dates and datetimes (a datetime is a date to `isinstance`)
      become their ISO text, decimals go through `float`, the rest is kept. */
  function ConvertValue(v: SqlValue, toFloat: Decimal -> real): (r: Scalar)
    ensures v.Other? ==> r == v.scalar
    ensures v.DecimalValue? ==> r == Float(toFloat(v.dec))
    ensures v.DateValue? ==> r.Str? && ParseIsoDate(r.s) == Some(v.date)
    ensures v.DateTimeValue? ==>
      r.Str? && |r.s| == (if v.time.microsecond == 0 then 19 else 26) && r.s[10] == 'T'
      && ParseIsoDate(r.s[..10]) == Some(v.date) && ParseIsoTime(r.s[11..]) == Some(v.time)
  {
    match v
    case DateValue(d) => IsoDateRoundTrip(d); Str(IsoDate(d))
    case DateTimeValue(d, t) => IsoDateTimeRoundTrip(d, t); Str(IsoDateTime(d, t))
    case DecimalValue(x) => Float(toFloat(x))
    case Other(s) => s
  }

  /** The map after the first `n` columns of `row` have been stored, each
      `processed_row[col] = ...` overwriting an earlier column of the same name. */
  function RecordUpTo(columns: seq<string>, row: Row, n: nat, toFloat: Decimal -> real): Record
    requires n <= |columns| <= |row|
  {
    if n == 0 then map[]
    else RecordUpTo(columns, row, n - 1, toFloat)[columns[n - 1] := ConvertValue(row[n - 1], toFloat)]
  }

  function RowRecord(columns: seq<string>, row: Row, toFloat: Decimal -> real): Record
    requires |columns| <= |row|
  {
    RecordUpTo(columns, row, |columns|, toFloat)
  }

  /** The records of every row, in row order. */
  function Records(columns: seq<string>, rows: seq<Row>, toFloat: Decimal -> real): (data: seq<Record>)
    requires forall i | 0 <= i < |rows| :: |columns| <= |rows[i]|
    ensures |data| == |rows|
  {
    seq(|rows|, i requires 0 <= i < |rows| => RowRecord(columns, rows[i], toFloat))
  }

  /** Lines 356-368: the nested loops that fill `processed_row` column by column
      and append it to `data` row by row. */
  method ConvertRows(columns: seq<string>, rows: seq<Row>, toFloat: Decimal -> real)
      returns (data: seq<Record>)
    requires forall i | 0 <= i < |rows| :: |columns| <= |rows[i]|
    ensures data == Records(columns, rows, toFloat)
  {
    data := [];
    for i := 0 to |rows|
      invariant data == Records(columns, rows[..i], toFloat)
    {
      var row := rows[i];
      var processedRow: Record := map[];
      for idx := 0 to |columns|
        invariant processedRow == RecordUpTo(columns, row, idx, toFloat)
      {
        var col := columns[idx];
        var value := row[idx];
        if value.DateValue? {
          processedRow := processedRow[col := Str(IsoDate(value.date))];
        } else if value.DateTimeValue? {
          processedRow := processedRow[col := Str(IsoDateTime(value.date, value.time))];
        } else if value.DecimalValue? {
          processedRow := processedRow[col := Float(toFloat(value.dec))];
        } else {
          processedRow := processedRow[col := value.scalar];
        }
      }
      data := data + [processedRow];
      assert rows[..i + 1][..i] == rows[..i];
    }
    assert rows[..|rows|] == rows;
  }

  /** The keys of the record so far are the columns stored so far. */
  lemma {:induction false} RecordUpToKeys(columns: seq<string>, row: Row, n: nat, toFloat: Decimal -> real)
    requires n <= |columns| <= |row|
    ensures RecordUpTo(columns, row, n, toFloat).Keys == set j | 0 <= j < n :: columns[j]
  {
    if n > 0 {
      RecordUpToKeys(columns, row, n - 1, toFloat);
      var before := set j | 0 <= j < n - 1 :: columns[j];
      assert (set j | 0 <= j < n :: columns[j]) == before + {columns[n - 1]};
    }
  }

  /** Each key holds the converted value of the last of its columns stored so far. */
  lemma {:induction false} RecordUpToLastWins(columns: seq<string>, row: Row, n: nat, toFloat: Decimal -> real, j: int)
    requires n <= |columns| <= |row|
    requires 0 <= j < n && forall k | j < k < n :: columns[k] != columns[j]
    ensures columns[j] in RecordUpTo(columns, row, n, toFloat)
    ensures RecordUpTo(columns, row, n, toFloat)[columns[j]] == ConvertValue(row[j], toFloat)
  {
    if j < n - 1 {
      RecordUpToLastWins(columns, row, n - 1, toFloat, j);
    }
  }

  /** A record has exactly the columns as keys, and a column holds the
      converted value of the last position with that name. */
  lemma RowRecordEntries(columns: seq<string>, row: Row, toFloat: Decimal -> real, j: int)
    requires |columns| <= |row|
    requires 0 <= j < |columns| && forall k | j < k < |columns| :: columns[k] != columns[j]
    ensures RowRecord(columns, row, toFloat).Keys == set c | c in columns
    ensures RowRecord(columns, row, toFloat)[columns[j]] == ConvertValue(row[j], toFloat)
  {
    RecordUpToKeys(columns, row, |columns|, toFloat);
    RecordUpToLastWins(columns, row, |columns|, toFloat, j);
    assert (set c | c in columns) == set i | 0 <= i < |columns| :: columns[i];
  }

  /** With distinct column names, each column maps to its own converted value:
      dates to text that parses back to them, plain values unchanged. */
  lemma DistinctColumnsRecord(columns: seq<string>, row: Row, toFloat: Decimal -> real, j: int)
    requires |columns| <= |row| && 0 <= j < |columns|
    requires forall a, b | 0 <= a < b < |columns| :: columns[a] != columns[b]
    ensures columns[j] in RowRecord(columns, row, toFloat)
    ensures RowRecord(columns, row, toFloat)[columns[j]] == ConvertValue(row[j], toFloat)
    ensures row[j].Other? ==> RowRecord(columns, row, toFloat)[columns[j]] == row[j].scalar
    ensures row[j].DateValue? ==>
      var r := RowRecord(columns, row, toFloat)[columns[j]]; r.Str? && ParseIsoDate(r.s) == Some(row[j].date)
  {
    RowRecordEntries(columns, row, toFloat, j);
  }

  // ------------------------------------------------------------- response

  /** The JSON body of a successful query. */
  datatype Response = Response(success: bool, sqlQuery: string, data: seq<Record>)

  /** Lines 343-368 after the query has run: no rows give an empty list,
      otherwise the column names are read from the first row and every row is
      converted. */
  method QueryResponse(sqlQuery: string, columns: seq<string>, rows: seq<Row>, toFloat: Decimal -> real)
      returns (response: Response)
    requires forall i | 0 <= i < |rows| :: |columns| <= |rows[i]|
    ensures response.success && response.sqlQuery == sqlQuery
    ensures response.data == Records(columns, rows, toFloat)
    ensures rows == [] ==> response.data == []
    ensures |response.data| == |rows|
  {
    if rows == [] {
      return Response(true, sqlQuery, []);
    }
    var data := ConvertRows(columns, rows, toFloat);
    response := Response(true, sqlQuery, data);
  }
}
