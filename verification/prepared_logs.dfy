/**
 * The legacy cleaner for access-log tables: blanks become 0, rows whose
 * timestamp does not parse are dropped, bytes are coerced to numbers and a
 * five-column table is derived with its own large-transfer threshold.
 */
module PreparedLogs {
  import opened Wrappers
  import opened Text
  import opened Seqs
  import opened Schema

  /** A cell of the CSV as pandas reads it. */
  datatype Cell = Blank | Number(x: real) | Str(s: string)

  /** The columns the cleaner reads; the others only pass through fillna. */
  datatype Row = Row(timestamp: Cell, status: Cell, bytes: Cell)

  datatype PreparedRow = PreparedRow(hour: nat, dayOfWeek: nat, bytes: real, isFailed: int, isLargeTransfer: int)

  const FAILED_STATUS: int := 400
  const LARGE_TRANSFER_BYTES: real := 500000.0

  /** `fillna(0)` on one cell. */
  function FillMissing(c: Cell): Cell {
    if c.Blank? then Number(0.0) else c
  }

  /** `fillna(0)` on a row: each blank cell becomes 0, the others stay. */
  function FillRow(r: Row): (f: Row)
    ensures Filled(f)
    ensures f.timestamp == (if r.timestamp.Blank? then Number(0.0) else r.timestamp)
    ensures f.status == (if r.status.Blank? then Number(0.0) else r.status)
    ensures f.bytes == (if r.bytes.Blank? then Number(0.0) else r.bytes)
  {
    Row(FillMissing(r.timestamp), FillMissing(r.status), FillMissing(r.bytes))
  }

  predicate Filled(r: Row) {
    !r.timestamp.Blank? && !r.status.Blank? && !r.bytes.Blank?
  }

  /** Filling changes exactly the rows that have a blank, and filling
      twice is filling once. */
  lemma FillRowIdempotent(r: Row)
    ensures FillRow(r) == r <==> Filled(r)
    ensures FillRow(FillRow(r)) == FillRow(r)
  {
  }

  /** Python `int(x)` on a float: truncation toward zero. */
  function Trunc(x: real): (n: int)
    ensures 0.0 <= x ==> n as real <= x < n as real + 1.0
    ensures x < 0.0 ==> n as real - 1.0 < x <= n as real
  {
    if x >= 0.0 then x.Floor else -((-x).Floor)
  }

  /** Python `int(x)` on a cell; fails on NaN and on text that is not an
      integer. */
  function PyInt(c: Cell): Option<int> {
    match c
    case Blank => None
    case Number(x) => Some(Trunc(x))
    case Str(s) => ParseInt(s)
  }

  /** `pd.to_numeric(errors="coerce").fillna(0)` on a cell. */
  function ToNumeric(c: Cell): (x: real)
    ensures c.Blank? ==> x == 0.0
    ensures c.Number? ==> x == c.x
    ensures c.Str? && ParseInt(c.s).Some? ==> x == ParseInt(c.s).value as real
    ensures c.Str? && ParseInt(c.s).None? ==> x == 0.0
  {
    match c
    case Blank => 0.0
    case Number(x) => x
    case Str(s) => if ParseInt(s).Some? then ParseInt(s).value as real else 0.0
  }

  /** Integer text written into the bytes column reads back as its value. */
  lemma ToNumericShowInt(n: int)
    ensures ToNumeric(Str(ShowInt(n))) == n as real
  {
    ParseShowInt(n);
  }

  /** The five derived columns of one kept row. */
  function PrepareRow(r: Row, t: Timestamp): (p: Result<PreparedRow, Failure>)
    requires Filled(r)
    ensures p.Success? <==> PyInt(r.status).Some?
    ensures p.Failure? ==> p.error.BadInteger?
    ensures p.Success? ==> p.value.hour == t.hour && p.value.dayOfWeek == t.dayOfWeek
    ensures p.Success? ==> p.value.bytes == ToNumeric(r.bytes)
    ensures p.Success? ==> (p.value.isFailed == 1 <==> PyInt(r.status).value >= FAILED_STATUS)
    ensures p.Success? ==> (p.value.isLargeTransfer == 1 <==> p.value.bytes > LARGE_TRANSFER_BYTES)
    ensures p.Success? ==> p.value.isFailed in {0, 1} && p.value.isLargeTransfer in {0, 1}
  {
    var status := PyInt(r.status);
    if status.None? then Failure(BadInteger(if r.status.Str? then r.status.s else ""))
    else
      var bytes := ToNumeric(r.bytes);
      Success(PreparedRow(t.hour, t.dayOfWeek, bytes,
                          if status.value >= FAILED_STATUS then 1 else 0,
                          if bytes > LARGE_TRANSFER_BYTES then 1 else 0))
  }

  /** Whether a row's timestamp, once blanks are filled, parses. */
  function TimestampParses(parseTime: Cell -> Option<Timestamp>): Row -> bool {
    (r: Row) => parseTime(FillRow(r).timestamp).Some?
  }

  /** The rows left after `fillna(0)` and dropping unparseable timestamps:
      the k-th kept row is the filled k-th row whose timestamp parses. */
  function Kept(rows: seq<Row>, parseTime: Cell -> Option<Timestamp>): (kept: seq<Row>)
    ensures |kept| == Count(rows, TimestampParses(parseTime)) <= |rows|
    ensures forall k | 0 <= k < |kept| :: kept[k] == FillRow(rows[Indices(rows, TimestampParses(parseTime))[k]])
    ensures forall k | 0 <= k < |kept| :: Filled(kept[k]) && parseTime(kept[k].timestamp).Some?
  {
    var filled := seq(|rows|, i requires 0 <= i < |rows| => FillRow(rows[i]));
    var keep := (r: Row) => Filled(r) && parseTime(r.timestamp).Some?;
    IndicesAgree(filled, keep, rows, TimestampParses(parseTime));
    Filter(filled, keep)
  }

  function PrepareAll(kept: seq<Row>, parseTime: Cell -> Option<Timestamp>): (r: Result<seq<PreparedRow>, Failure>)
    requires forall k | 0 <= k < |kept| :: Filled(kept[k]) && parseTime(kept[k].timestamp).Some?
    ensures r.Success? <==> forall k | 0 <= k < |kept| :: PyInt(kept[k].status).Some?
    ensures r.Failure? ==> r.error.BadInteger?
    ensures r.Success? ==> |r.value| == |kept|
    ensures r.Success? ==> forall k | 0 <= k < |kept| ::
              PrepareRow(kept[k], parseTime(kept[k].timestamp).value) == Success(r.value[k])
  {
    if |kept| == 0 then Success([])
    else
      var head :- PrepareRow(kept[0], parseTime(kept[0].timestamp).value);
      var rest :- PrepareAll(kept[1..], parseTime);
      assert forall k | 1 <= k < |kept| :: kept[1..][k - 1] == kept[k];
      Success([head] + rest)
  }

  /** The script: fill, convert timestamps, drop the invalid ones, derive
      the five columns. A status that `int()` rejects fails the batch, but
      only on a row that survived the timestamp filter. */
  function Prepare(rows: seq<Row>, parseTime: Cell -> Option<Timestamp>): (r: Result<seq<PreparedRow>, Failure>)
    ensures r.Success? <==> forall k | 0 <= k < |Kept(rows, parseTime)| :: PyInt(Kept(rows, parseTime)[k].status).Some?
    ensures r.Success? ==> |r.value| == |Kept(rows, parseTime)| <= |rows|
    ensures r.Success? ==> forall k | 0 <= k < |r.value| ::
              var row := Kept(rows, parseTime)[k];
              PrepareRow(row, parseTime(row.timestamp).value) == Success(r.value[k])
  {
    PrepareAll(Kept(rows, parseTime), parseTime)
  }

  /** A blank cell is read as 0 before anything is derived from it: a blank
      timestamp is handed to the parser as the number 0, a blank status
      counts as not failed and a blank bytes cell as 0 bytes. */
  lemma BlanksReadAsZero(r: Row, t: Timestamp)
    requires r.status.Blank? && r.bytes.Blank?
    ensures FillRow(r).timestamp == (if r.timestamp.Blank? then Number(0.0) else r.timestamp)
    ensures PrepareRow(FillRow(r), t).Success?
    ensures PrepareRow(FillRow(r), t).value.isFailed == 0
    ensures PrepareRow(FillRow(r), t).value.bytes == 0.0
  {
  }

  /** On a numeric status, the truncation of `int()` does not move the
      threshold: the row is failed exactly when the number is at least 400. */
  lemma NumericStatusThreshold(x: real)
    ensures PyInt(Number(x)).value >= FAILED_STATUS <==> x >= FAILED_STATUS as real
  {
  }
}
