/**
 * The shared vocabulary of the pipeline: numeric cells, timestamps, the
 * twelve-column web feature vector in its canonical order, and the ways a
 * batch can fail.
 */
module Schema {
  import opened Wrappers

  /** A numeric cell as pandas holds it: a number, or NaN for a missing
      value. Every comparison with NaN is false. */
  datatype Value = Num(x: real) | NaN

  function OfInt(n: int): Value {
    Num(n as real)
  }

  /** `== 1` on a cell. */
  predicate IsOne(v: Value) {
    v == Num(1.0)
  }

  /** `> bound` on a cell. */
  predicate Above(v: Value, bound: real) {
    v.Num? && v.x > bound
  }

  /** `(condition).astype(int)`: 1 when the condition holds, 0 otherwise. */
  function Flag(b: bool): (v: Value)
    ensures v == Num(0.0) || v == Num(1.0)
    ensures IsOne(v) <==> b
  {
    if b then Num(1.0) else Num(0.0)
  }

  /** The calendar fields pandas derives from a parsed timestamp
      (`.dt.hour`, `.dt.dayofweek`); the parsing itself is not modelled. */
  datatype Timestamp = Timestamp(hour: nat, dayOfWeek: nat)

  /** `.dt.hour`, NaN for a timestamp that did not parse (NaT). */
  function HourOf(t: Option<Timestamp>): (v: Value)
    ensures v.NaN? <==> t.None?
  {
    if t.Some? then OfInt(t.value.hour) else NaN
  }

  /** `.dt.dayofweek`, NaN for NaT. */
  function DayOf(t: Option<Timestamp>): (v: Value)
    ensures v.NaN? <==> t.None?
  {
    if t.Some? then OfInt(t.value.dayOfWeek) else NaN
  }

  /** One row of the web feature table. */
  datatype FeatureVector = FeatureVector(
    hour: Value,
    day: Value,
    bytes: Value,
    isError: Value,
    isServerError: Value,
    largeTransfer: Value,
    urlLength: Value,
    requestsPerIp: Value,
    isPost: Value,
    isGet: Value,
    isExe: Value,
    isAdmin: Value)

  /** The canonical column names, in order. */
  const FEATURE_NAMES: seq<string> := [
    "hour", "day", "bytes",
    "is_error", "is_server_error",
    "large_transfer", "url_length",
    "requests_per_ip",
    "is_post", "is_get",
    "is_exe", "is_admin"
  ]

  /** The row as it is written out: its cells in canonical column order. */
  function Values(fv: FeatureVector): (vs: seq<Value>)
    ensures |vs| == |FEATURE_NAMES|
  {
    [fv.hour, fv.day, fv.bytes, fv.isError, fv.isServerError, fv.largeTransfer,
     fv.urlLength, fv.requestsPerIp, fv.isPost, fv.isGet, fv.isExe, fv.isAdmin]
  }

  /** Reads a row back from its cells in canonical column order. */
  function FromValues(vs: seq<Value>): (fv: FeatureVector)
    requires |vs| == |FEATURE_NAMES|
    ensures Values(fv) == vs
  {
    FeatureVector(vs[0], vs[1], vs[2], vs[3], vs[4], vs[5],
                  vs[6], vs[7], vs[8], vs[9], vs[10], vs[11])
  }

  lemma FromValuesValues(fv: FeatureVector)
    ensures FromValues(Values(fv)) == fv
  {
  }

  /** `row[name]`: the cell of a row addressed by column name. */
  function Lookup(fv: FeatureVector, name: string): Option<Value> {
    match name
    case "hour" => Some(fv.hour)
    case "day" => Some(fv.day)
    case "bytes" => Some(fv.bytes)
    case "is_error" => Some(fv.isError)
    case "is_server_error" => Some(fv.isServerError)
    case "large_transfer" => Some(fv.largeTransfer)
    case "url_length" => Some(fv.urlLength)
    case "requests_per_ip" => Some(fv.requestsPerIp)
    case "is_post" => Some(fv.isPost)
    case "is_get" => Some(fv.isGet)
    case "is_exe" => Some(fv.isExe)
    case "is_admin" => Some(fv.isAdmin)
    case _ => None
  }

  /** The written cell at position `i` is the cell named `FEATURE_NAMES[i]`,
      and no other name addresses a cell. */
  lemma ValuesFollowFeatureNames(fv: FeatureVector)
    ensures forall i | 0 <= i < |FEATURE_NAMES| :: Lookup(fv, FEATURE_NAMES[i]) == Some(Values(fv)[i])
    ensures forall name :: Lookup(fv, name).Some? <==> name in FEATURE_NAMES
  {
  }

  lemma FeatureNamesDistinct()
    ensures |FEATURE_NAMES| == 12
    ensures forall i, j | 0 <= i < j < |FEATURE_NAMES| :: FEATURE_NAMES[i] != FEATURE_NAMES[j]
  {
  }

  /** A numeric table handed to a scaler or a model: one row per record. */
  type Matrix = seq<seq<Value>>

  function ToMatrix(rows: seq<FeatureVector>): (m: Matrix)
    ensures |m| == |rows|
    ensures forall i | 0 <= i < |rows| :: m[i] == Values(rows[i])
  {
    seq(|rows|, i requires 0 <= i < |rows| => Values(rows[i]))
  }

  /** The ways a batch fails as a whole. */
  datatype Failure =
    | MissingColumn(name: string)           // KeyError on an absent column
    | BadInteger(text: string)              // int() / astype(int) on non-integer text
    | Overflow(text: string)                // astype(int) on an integer outside 64 bits
    | MissingFeatures(names: seq<string>)   // the dashboard's schema check
    | EmptyBatch                            // scaler or model handed zero rows
    | LengthMismatch                        // predictions not aligned with rows
    | SchemaMismatch(fitted: seq<string>, given: seq<string>)  // scaler handed other columns than it was fitted on
    | SampleTooLarge(wanted: nat, available: nat)  // DataFrame.sample without replacement
}
