/**
 * The SOC dashboard: an uploaded feature table is checked for the model's
 * columns, scored by the saved scaler and model, its flagged rows
 * explained, and a summary computed; the analyst can narrow the flagged
 * rows to chosen reasons.
 */
module Dashboard {
  import opened Wrappers
  import opened Seqs
  import opened Schema
  import opened Frames
  import opened Scoring
  import opened Explanation
  import opened Training

  /** The columns the model is scored on, in order. */
  const MODEL_FEATURES: seq<string> := [
    "hour", "day", "bytes", "is_error", "is_server_error",
    "large_transfer", "url_length", "requests_per_ip",
    "is_post", "is_get", "is_exe", "is_admin"
  ]

  /** Optional column of known labels, used to measure accuracy. */
  const GROUND_TRUTH: string := "ground_truth"

  /** The dashboard scores the columns the feature step writes, in the
      same order. */
  lemma ModelFeaturesAreFeatureNames()
    ensures MODEL_FEATURES == FEATURE_NAMES
  {
  }

  /** A flagged row: its position, all its cells and its explanation. */
  datatype Anomaly = Anomaly(row: nat, cells: seq<Value>, reason: string)

  datatype Summary = Summary(
    total: nat, flags: seq<int>, anomalies: seq<Anomaly>, rate: real, accuracy: Option<real>)

  function FlagValues(flags: seq<int>): (vs: seq<Value>)
    ensures |vs| == |flags|
    ensures forall i | 0 <= i < |flags| :: vs[i] == OfInt(flags[i])
  {
    seq(|flags|, i requires 0 <= i < |flags| => OfInt(flags[i]))
  }

  /** The share of rows whose ground truth equals the flag, when the table
      has a ground-truth column. A NaN label never agrees. */
  function Accuracy(f: Frame, flags: seq<int>): (acc: Option<real>)
    requires WellFormed(f) && |flags| == |f.rows| > 0
    ensures acc.Some? <==> GROUND_TRUTH in f.columns
    ensures acc.Some? ==> acc.value == AgreementRate(Column(f, GROUND_TRUTH).value, FlagValues(flags))
    ensures acc.Some? ==> 0.0 <= acc.value <= 1.0
    ensures acc.Some? ==> (acc.value == 1.0 <==>
      forall i | 0 <= i < |flags| :: Column(f, GROUND_TRUTH).value[i] == OfInt(flags[i]))
    ensures acc.Some? ==> (acc.value == 0.0 <==>
      forall i | 0 <= i < |flags| :: Column(f, GROUND_TRUTH).value[i] != OfInt(flags[i]))
  {
    match Column(f, GROUND_TRUTH)
    case None => None
    case Some(truth) =>
      var vs := FlagValues(flags);
      assert truth == vs <==> forall i | 0 <= i < |flags| :: truth[i] == OfInt(flags[i]);
      Some(AgreementRate(truth, vs))
  }

  /** One row of the anomalies table with its reason. */
  function ExplainRow(f: Frame, X: Matrix, i: nat): (a: Anomaly)
    requires WellFormed(f) && |X| == |f.rows| && i < |X| && |X[i]| == |MODEL_FEATURES|
    ensures a.row == i && a.cells == f.rows[i]
    ensures a.reason == Explain(FromValues(X[i]))
  {
    Anomaly(i, f.rows[i], Explain(FromValues(X[i])))
  }

  lemma EveryIndexListed(flags: seq<int>, anomalies: seq<Anomaly>)
    requires |anomalies| == |AnomalyIndices(flags)|
    requires forall k | 0 <= k < |anomalies| :: anomalies[k].row == AnomalyIndices(flags)[k]
    ensures forall i | 0 <= i < |flags| && IsAnomaly(flags[i]) :: exists k | 0 <= k < |anomalies| :: anomalies[k].row == i
  {
    var idx := AnomalyIndices(flags);
    forall i | 0 <= i < |flags| && IsAnomaly(flags[i])
      ensures exists k | 0 <= k < |anomalies| :: anomalies[k].row == i
    {
      var k :| 0 <= k < |idx| && idx[k] == i;
      assert anomalies[k].row == i;
    }
  }

  /** The flagged rows, in table order, each with the explanation of its
      model features. */
  function Explained(f: Frame, X: Matrix, flags: seq<int>): (anomalies: seq<Anomaly>)
    requires WellFormed(f) && |X| == |f.rows| == |flags|
    requires forall i | 0 <= i < |X| :: |X[i]| == |MODEL_FEATURES|
    ensures |anomalies| == Count(flags, IsAnomaly)
    ensures forall k | 0 <= k < |anomalies| ::
      anomalies[k].row < |f.rows| && IsAnomaly(flags[anomalies[k].row]) &&
      anomalies[k].cells == f.rows[anomalies[k].row] &&
      anomalies[k].reason == Explain(FromValues(X[anomalies[k].row]))
    ensures forall k, l | 0 <= k < l < |anomalies| :: anomalies[k].row < anomalies[l].row
    ensures forall i | 0 <= i < |flags| && IsAnomaly(flags[i]) :: exists k | 0 <= k < |anomalies| :: anomalies[k].row == i
  {
    var idx := AnomalyIndices(flags);
    var anomalies := seq(|idx|, k requires 0 <= k < |idx| => ExplainRow(f, X, idx[k]));
    ExplainedRows(f, X, flags, anomalies);
    anomalies
  }

  /** The explained rows, one per flagged index, keep the indices' order and
      miss none of them. */
  lemma ExplainedRows(f: Frame, X: Matrix, flags: seq<int>, anomalies: seq<Anomaly>)
    requires WellFormed(f) && |X| == |f.rows| == |flags|
    requires forall i | 0 <= i < |X| :: |X[i]| == |MODEL_FEATURES|
    requires |anomalies| == |AnomalyIndices(flags)|
    requires forall k | 0 <= k < |anomalies| :: anomalies[k] == ExplainRow(f, X, AnomalyIndices(flags)[k])
    ensures |anomalies| == Count(flags, IsAnomaly)
    ensures forall k | 0 <= k < |anomalies| ::
      anomalies[k].row < |f.rows| && IsAnomaly(flags[anomalies[k].row]) &&
      anomalies[k].cells == f.rows[anomalies[k].row] &&
      anomalies[k].reason == Explain(FromValues(X[anomalies[k].row]))
    ensures forall k, l | 0 <= k < l < |anomalies| :: anomalies[k].row < anomalies[l].row
    ensures forall i | 0 <= i < |flags| && IsAnomaly(flags[i]) :: exists k | 0 <= k < |anomalies| :: anomalies[k].row == i
  {
    var idx := AnomalyIndices(flags);
    assert forall k | 0 <= k < |anomalies| :: anomalies[k].row == idx[k];
    EveryIndexListed(flags, anomalies);
  }

  /** Every model column is among the upload's columns. */
  predicate HasModelColumns(f: Frame) {
    forall i | 0 <= i < |MODEL_FEATURES| :: MODEL_FEATURES[i] in f.columns
  }

  /** One upload: check the columns, score, explain, summarise. */
  function Run(f: Frame, d: Detector): (r: Result<Summary, Failure>)
    requires WellFormed(f)
    ensures (r.Failure? && r.error.MissingFeatures?) <==> !HasModelColumns(f)
    ensures r.Failure? && r.error.MissingFeatures? ==> r.error.names == MissingColumns(MODEL_FEATURES, f.columns)
    ensures HasModelColumns(f) && d.columns != MODEL_FEATURES ==>
      r == Failure(SchemaMismatch(d.columns, MODEL_FEATURES))
    ensures HasModelColumns(f) && d.columns == MODEL_FEATURES && |f.rows| == 0 ==> r == Failure(EmptyBatch)
    ensures r.Success? ==> d.columns == MODEL_FEATURES
    ensures r.Success? ==> r.value.total == |f.rows| > 0 && |r.value.flags| == |f.rows|
    ensures r.Success? ==> forall i | 0 <= i < |f.rows| :: r.value.flags[i] == 0 || r.value.flags[i] == 1
    ensures r.Success? ==>
      var X := Project(f, MODEL_FEATURES).value;
      |d.predict(d.transform(X))| == |f.rows| && r.value.flags == Flags(d.predict(d.transform(X)))
    ensures HasModelColumns(f) && d.columns == MODEL_FEATURES && |f.rows| > 0 ==>
      (r.Success? <==> |d.predict(d.transform(Project(f, MODEL_FEATURES).value))| == |f.rows|)
    ensures r.Success? ==> r.value.anomalies == Explained(f, Project(f, MODEL_FEATURES).value, r.value.flags)
    ensures r.Success? ==> 0.0 <= r.value.rate <= 1.0
    ensures r.Success? ==> r.value.rate == |r.value.anomalies| as real / |f.rows| as real
    ensures r.Success? ==> r.value.accuracy == Accuracy(f, r.value.flags)
  {
    var X :- Project(f, MODEL_FEATURES);
    var preds :- Predict(d, MODEL_FEATURES, X);
    Success(Summarize(f, X, preds))
  }

  /** The summary of a scored batch: flags, explained anomalies, rate and
      the optional accuracy. */
  function Summarize(f: Frame, X: Matrix, preds: seq<int>): (s: Summary)
    requires WellFormed(f) && |X| == |f.rows| == |preds| > 0
    requires forall i | 0 <= i < |X| :: |X[i]| == |MODEL_FEATURES|
    ensures s.total == |f.rows| && s.flags == Flags(preds)
    ensures s.anomalies == Explained(f, X, s.flags)
    ensures 0.0 <= s.rate <= 1.0
    ensures s.rate == |s.anomalies| as real / |f.rows| as real
    ensures s.accuracy == Accuracy(f, s.flags)
  {
    var flags := Flags(preds);
    var anomalies := Explained(f, X, flags);
    RatioBounds(|anomalies| as real, |f.rows| as real);
    Summary(|f.rows|, flags, anomalies, |anomalies| as real / |f.rows| as real, Accuracy(f, flags))
  }

  /** Whether an anomaly's reason is among the selected ones. */
  function ReasonIn(selected: seq<string>): Anomaly -> bool {
    (a: Anomaly) => a.reason in selected
  }

  /** The reason filter: no selection shows every flagged row; otherwise
      exactly those whose reason was selected, in their order. */
  function FilterByReason(anomalies: seq<Anomaly>, selected: seq<string>): (shown: seq<Anomaly>)
    ensures |shown| <= |anomalies|
    ensures |selected| == 0 ==> shown == anomalies
    ensures |selected| > 0 ==> shown == Select(anomalies, Indices(anomalies, ReasonIn(selected)))
    ensures |selected| > 0 ==> forall k | 0 <= k < |shown| :: shown[k] in anomalies && shown[k].reason in selected
    ensures |selected| > 0 ==> forall k | 0 <= k < |anomalies| && anomalies[k].reason in selected :: anomalies[k] in shown
  {
    if |selected| == 0 then anomalies else Filter(anomalies, ReasonIn(selected))
  }

  /** The scaler and model the strict training script saves are fitted on
      the dashboard's columns: an upload is never refused for its column
      names once every model column is present. */
  lemma SavedDetectorFitsDashboard<M, S>(f: Frame, run: StrictRun<M, S>, forest: Forest<M>, scaler: Standardizer<S>)
    requires WellFormed(f)
    ensures var r := Run(f, Saved(run, forest, scaler)); r.Failure? ==> !r.error.SchemaMismatch?
  {
    ModelFeaturesAreFeatureNames();
  }

  /** A flagged row meeting none of the five rules is reported as a purely
      statistical anomaly, and only such a row. */
  lemma StatisticalOnlyWithoutRules(f: Frame, d: Detector)
    requires WellFormed(f)
    ensures var r := Run(f, d);
      r.Success? ==> forall k | 0 <= k < |r.value.anomalies| ::
        var a := r.value.anomalies[k];
        a.reason == FALLBACK <==> NoRuleMet(FromValues(Project(f, MODEL_FEATURES).value[a.row]))
  {
  }

}
