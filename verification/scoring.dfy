/**
 * The scorer's output as the scripts consume it. The scaler and the
 * isolation forest are opaque: a loaded pair is a `Detector`, and all the
 * model promises is one prediction per row.
 */
module Scoring {
  import opened Wrappers
  import opened Seqs
  import opened Schema

  /** A loaded scaler and model, applied as `model.predict(scaler.transform(X))`.
      `columns` are the column names the scaler was fitted on. */
  datatype Detector = Detector(columns: seq<string>, transform: Matrix -> Matrix, predict: Matrix -> seq<int>)

  /** Scoring a table whose columns are `names`. The scaler first checks
      the column names against those it was fitted on, then rejects a table
      with no rows; a prediction sequence that is not aligned with the rows
      cannot be assigned back to them. */
  function Predict(d: Detector, names: seq<string>, X: Matrix): (r: Result<seq<int>, Failure>)
    ensures names != d.columns <==> r == Failure(SchemaMismatch(d.columns, names))
    ensures names == d.columns ==> (|X| == 0 <==> r == Failure(EmptyBatch))
    ensures names == d.columns && |X| > 0 ==> (r.Success? <==> |d.predict(d.transform(X))| == |X|)
    ensures names == d.columns && |X| > 0 && r.Failure? ==> r.error == LengthMismatch
    ensures r.Success? ==> r.value == d.predict(d.transform(X)) && |r.value| == |X|
  {
    if names != d.columns then Failure(SchemaMismatch(d.columns, names))
    else if |X| == 0 then Failure(EmptyBatch)
    else
      var preds := d.predict(d.transform(X));
      if |preds| != |X| then Failure(LengthMismatch) else Success(preds)
  }

  /** The anomaly flag value. */
  predicate IsAnomaly(flag: int) {
    flag == 1
  }

  /** `(preds == -1).astype(int)`: the model's -1 means anomalous. */
  function Flags(preds: seq<int>): (flags: seq<int>)
    ensures |flags| == |preds|
    ensures forall i | 0 <= i < |preds| :: flags[i] == 0 || flags[i] == 1
    ensures forall i | 0 <= i < |preds| :: IsAnomaly(flags[i]) <==> preds[i] == -1
  {
    seq(|preds|, i requires 0 <= i < |preds| => if preds[i] == -1 then 1 else 0)
  }

  /** The number of flagged rows is the number of -1 predictions, so it
      lies between 0 and the number of rows. */
  lemma {:induction false} FlaggedCount(preds: seq<int>)
    ensures Count(Flags(preds), IsAnomaly) == CountEq(preds, -1) <= |preds|
  {
    if |preds| > 0 {
      var n := |preds| - 1;
      FlaggedCount(preds[..n]);
      assert Flags(preds)[..n] == Flags(preds[..n]);
    }
  }

  /** Positions of the flagged rows, in increasing order. */
  function AnomalyIndices(flags: seq<int>): (idx: seq<nat>)
    ensures |idx| == Count(flags, IsAnomaly)
    ensures forall k | 0 <= k < |idx| :: idx[k] < |flags| && IsAnomaly(flags[idx[k]])
    ensures forall k, l | 0 <= k < l < |idx| :: idx[k] < idx[l]
    ensures forall i | 0 <= i < |flags| && IsAnomaly(flags[i]) :: i in idx
  {
    Indices(flags, IsAnomaly)
  }

  /** `df[df["anomaly"] == 1]`: the flagged rows in their original order. */
  function Flagged<T>(rows: seq<T>, flags: seq<int>): (r: seq<T>)
    requires |rows| == |flags|
    ensures |r| == Count(flags, IsAnomaly)
    ensures forall k | 0 <= k < |r| :: r[k] == rows[AnomalyIndices(flags)[k]]
  {
    Select(rows, AnomalyIndices(flags))
  }
}
