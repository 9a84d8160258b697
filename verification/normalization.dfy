/** The type dispatch `fetch_data_from_warehouse` applies to every value the database
    driver returns, before a row is handed on as a dictionary keyed by column name. */
module Normalization {

  /** An IEEE-754 double, kept as its bit pattern: nothing here computes with floats. */
  datatype Float = Float(bits: bv64)

  /** A Python `Decimal`: coefficient * 10^exponent. */
  datatype Decimal = Decimal(coefficient: int, exponent: int)

  datatype Date = Date(year: int, month: int, day: int)

  datatype DateTime = DateTime(year: int, month: int, day: int,
                               hour: int, minute: int, second: int, microsecond: int)

  /** The kinds of Python value the model distinguishes in a query result. `PyOther` is
      any other value the driver returns (a `time`, `bytes`, ...), known only by its type
      name: the conversion passes it through like any value it does not recognise. */
  datatype Value =
    | PyNone
    | PyInt(i: int)
    | PyFloat(f: Float)
    | PyStr(s: string)
    | PyBool(b: bool)
    | PyDateTime(dt: DateTime)
    | PyDate(d: Date)
    | PyDecimal(dec: Decimal)
    | PyOther(typeName: string)

  /** A warehouse row after conversion: column name to value. */
  type Row = map<string, Value>

  /** The two floating-point, timezone-dependent conversions, left uninterpreted:
      `int(dt.timestamp() * 1000)` and `float(dec)`. */
  datatype Conversions = Conversions(epochMillis: DateTime -> int, toFloat: Decimal -> Float)

  /** `isinstance(v, datetime)`. */
  predicate IsDateTime(v: Value)
  {
    v.PyDateTime?
  }

  /** `isinstance(v, date)`: `datetime` is a subclass of `date`, so it holds for both. */
  predicate IsDate(v: Value)
  {
    v.PyDate? || v.PyDateTime?
  }

  /** Midnight of the date's day, `datetime(d.year, d.month, d.day)`. */
  function Midnight(d: Date): (r: DateTime)
    ensures r.year == d.year && r.month == d.month && r.day == d.day
    ensures r.hour == 0 && r.minute == 0 && r.second == 0 && r.microsecond == 0
  {
    DateTime(d.year, d.month, d.day, 0, 0, 0, 0)
  }

  /** One value, converted as the `isinstance` chain does: datetime first, then date,
      then Decimal; None and everything else unchanged. */
  function Normalize(v: Value, conv: Conversions): (r: Value)
    ensures !IsDate(r) && !r.PyDecimal?
    ensures IsDateTime(v) ==> r == PyInt(conv.epochMillis(v.dt))
    ensures IsDate(v) && !IsDateTime(v) ==> r == PyInt(conv.epochMillis(Midnight(v.d)))
    ensures v.PyDecimal? ==> r == PyFloat(conv.toFloat(v.dec))
    ensures !IsDate(v) && !v.PyDecimal? ==> r == v
  {
    if IsDateTime(v) then PyInt(conv.epochMillis(v.dt))
    else if IsDate(v) then PyInt(conv.epochMillis(Midnight(v.d)))
    else if v.PyDecimal? then PyFloat(conv.toFloat(v.dec))
    else if v.PyNone? then PyNone
    else v
  }

  /** A converted value is never converted again. */
  lemma NormalizeIdempotent(v: Value, conv: Conversions)
    ensures Normalize(Normalize(v, conv), conv) == Normalize(v, conv)
  {
  }

  /** A date converts to the same milliseconds as the instant at midnight of that day. */
  lemma DateIsMidnightInstant(d: Date, conv: Conversions)
    ensures Normalize(PyDate(d), conv) == Normalize(PyDateTime(Midnight(d)), conv)
  {
  }

  /** Column i is the last column carrying its name, so its value is the one a dict keeps. */
  predicate LastWithName(columns: seq<string>, i: int)
    requires 0 <= i < |columns|
  {
    forall j :: i < j < |columns| ==> columns[j] != columns[i]
  }

  predicate Distinct(columns: seq<string>)
  {
    forall i, j :: 0 <= i < j < |columns| ==> columns[i] != columns[j]
  }

  /** `row_dict[columns[i]] = ...` for i = 0, 1, ...: later assignments overwrite earlier ones. */
  function NormalizeRow(columns: seq<string>, values: seq<Value>, conv: Conversions): (r: Row)
    requires |values| == |columns|
    ensures |r| <= |columns|
    decreases |columns|
  {
    if |columns| == 0 then map[]
    else
      var n := |columns| - 1;
      NormalizeRow(columns[..n], values[..n], conv)[columns[n] := Normalize(values[n], conv)]
  }

  /** The row's keys are exactly the column names. */
  lemma {:induction false} RowKeys(columns: seq<string>, values: seq<Value>, conv: Conversions)
    requires |values| == |columns|
    ensures forall c :: c in NormalizeRow(columns, values, conv) <==> c in columns
    decreases |columns|
  {
    if |columns| > 0 {
      var n := |columns| - 1;
      RowKeys(columns[..n], values[..n], conv);
      assert forall c :: c in columns <==> c in columns[..n] || c == columns[n];
    }
  }

  /** The entry of a name holds the converted value of the last column carrying it. */
  lemma {:induction false} RowLastWins(columns: seq<string>, values: seq<Value>, conv: Conversions)
    requires |values| == |columns|
    ensures forall i :: 0 <= i < |columns| && LastWithName(columns, i) ==>
              columns[i] in NormalizeRow(columns, values, conv) &&
              NormalizeRow(columns, values, conv)[columns[i]] == Normalize(values[i], conv)
    decreases |columns|
  {
    if |columns| > 0 {
      var n := |columns| - 1;
      var front, frontValues := columns[..n], values[..n];
      RowLastWins(front, frontValues, conv);
      var m := NormalizeRow(front, frontValues, conv);
      var r := NormalizeRow(columns, values, conv);
      assert r == m[columns[n] := Normalize(values[n], conv)];
      forall i | 0 <= i < |columns| && LastWithName(columns, i)
        ensures columns[i] in r && r[columns[i]] == Normalize(values[i], conv)
      {
        if i < n {
          assert columns[i] != columns[n];
          assert front[i] == columns[i] && frontValues[i] == values[i];
          assert LastWithName(front, i);
        }
      }
    }
  }

  /** The row has one entry per column name, and the entry of a name holds the converted
      value of the last column carrying it. */
  lemma RowEntries(columns: seq<string>, values: seq<Value>, conv: Conversions)
    requires |values| == |columns|
    ensures forall c :: c in NormalizeRow(columns, values, conv) <==> c in columns
    ensures forall i :: 0 <= i < |columns| && LastWithName(columns, i) ==>
              columns[i] in NormalizeRow(columns, values, conv) &&
              NormalizeRow(columns, values, conv)[columns[i]] == Normalize(values[i], conv)
  {
    RowKeys(columns, values, conv);
    RowLastWins(columns, values, conv);
  }

  /** With distinct column names every column adds an entry of its own. */
  lemma {:induction false} DistinctRowSize(columns: seq<string>, values: seq<Value>, conv: Conversions)
    requires |values| == |columns|
    requires Distinct(columns)
    ensures |NormalizeRow(columns, values, conv)| == |columns|
    decreases |columns|
  {
    if |columns| > 0 {
      var n := |columns| - 1;
      var front, frontValues := columns[..n], values[..n];
      DistinctRowSize(front, frontValues, conv);
      RowKeys(front, frontValues, conv);
      assert columns[n] !in front;
    }
  }

  /** With distinct column names a row has exactly one entry per result column, holding
      that column's converted value. */
  lemma OneEntryPerColumn(columns: seq<string>, values: seq<Value>, conv: Conversions)
    requires |values| == |columns|
    requires Distinct(columns)
    ensures |NormalizeRow(columns, values, conv)| == |columns|
    ensures forall i :: 0 <= i < |columns| ==>
              columns[i] in NormalizeRow(columns, values, conv) &&
              NormalizeRow(columns, values, conv)[columns[i]] == Normalize(values[i], conv)
  {
    DistinctRowSize(columns, values, conv);
    RowLastWins(columns, values, conv);
    forall i | 0 <= i < |columns|
      ensures LastWithName(columns, i)
    {
    }
  }

  /** Every fetched row converted, in the order the query returned them. */
  function FetchRows(columns: seq<string>, rows: seq<seq<Value>>, conv: Conversions): (r: seq<Row>)
    requires forall i :: 0 <= i < |rows| ==> |rows[i]| == |columns|
    ensures |r| == |rows|
    ensures forall i :: 0 <= i < |r| ==> r[i] == NormalizeRow(columns, rows[i], conv)
  {
    seq(|rows|, i requires 0 <= i < |rows| => NormalizeRow(columns, rows[i], conv))
  }
}
