/**
 * The two training scripts. Both label the feature table heuristically,
 * fit an isolation forest on a seeded sample, flag every row and compare
 * the flags with the labels. The second standardises the features first,
 * fits the scaler on the sample only, and saves the scaler and model the
 * dashboard loads. The forest, the scaler and the sampler are opaque.
 */
module Training {
  import opened Wrappers
  import opened Seqs
  import opened Schema
  import opened Scoring
  import opened Heuristics

  /** The largest training sample. */
  const TRAIN_CAP: nat := 100000
  const SEED: int := 42

  datatype ForestConfig = ForestConfig(trees: nat, contamination: real, maxSamples: nat, seed: int)

  /** `min(100_000, total_samples)`. */
  function TrainSize(total: nat): (n: nat)
    ensures n <= total && n <= TRAIN_CAP
    ensures n == total || n == TRAIN_CAP
  {
    if total < TRAIN_CAP then total else TRAIN_CAP
  }

  /** 100 trees, 3% contamination, as many samples per tree as drawn. */
  function BasicConfig(total: nat): ForestConfig {
    ForestConfig(100, 0.03, TrainSize(total), SEED)
  }

  /** 150 trees, 2% contamination, 100000 samples per tree. */
  const STRICT_CONFIG: ForestConfig := ForestConfig(150, 0.02, TRAIN_CAP, SEED)

  /** What `DataFrame.sample(size)` without replacement promises: `size`
      distinct row positions below `n`. The positions themselves depend on
      the seed and are not modelled. */
  predicate IsSample(idx: seq<nat>, n: nat, size: nat) {
    |idx| == size
    && (forall k | 0 <= k < |idx| :: idx[k] < n)
    && (forall k, l | 0 <= k < l < |idx| :: idx[k] != idx[l])
  }

  lemma {:induction false} DistinctElementsCount(idx: seq<nat>)
    requires forall k, l | 0 <= k < l < |idx| :: idx[k] != idx[l]
    ensures |set k | 0 <= k < |idx| :: idx[k]| == |idx|
  {
    if |idx| > 0 {
      var n := |idx| - 1;
      DistinctElementsCount(idx[..n]);
      var before := set k | 0 <= k < n :: idx[..n][k];
      assert (set k | 0 <= k < |idx| :: idx[k]) == before + {idx[n]};
      assert idx[n] !in before;
    }
  }

  /** The row positions `0, 1, ..., n - 1`. */
  function Positions(n: nat): (r: seq<nat>)
    ensures |r| == n && forall k | 0 <= k < n :: r[k] == k
  {
    seq(n, k requires 0 <= k < n => k)
  }

  lemma {:induction false} SubsetSize<T>(a: set<T>, b: set<T>)
    requires a <= b
    ensures |a| <= |b|
    decreases |a|
  {
    if a != {} {
      var x :| x in a;
      SubsetSize(a - {x}, b - {x});
    }
  }

  /** A sample as large as the table is a reordering of all of it: every
      row is drawn. */
  lemma FullSampleCoversAllRows(idx: seq<nat>, n: nat)
    requires IsSample(idx, n, n)
    ensures forall i | 0 <= i < n :: i in idx
  {
    var pos := Positions(n);
    var drawn := set k | 0 <= k < |idx| :: idx[k];
    var all := set k | 0 <= k < |pos| :: pos[k];
    DistinctElementsCount(idx);
    DistinctElementsCount(pos);
    forall x | x in drawn ensures x in all {
      var k :| 0 <= k < |idx| && idx[k] == x;
      assert pos[x] == x;
    }
    forall i | 0 <= i < n ensures i in idx {
      assert pos[i] == i;
      if i !in drawn {
        SubsetSize(drawn, all - {i});
        assert false;
      }
    }
  }

  /** An isolation forest: fitting gives a model, the model predicts 1 or -1 per row. */
  datatype Forest<!M> = Forest(fit: (ForestConfig, Matrix) -> M, predict: (M, Matrix) -> seq<int>)

  /** A standard scaler: fitting gives a state, the state transforms tables. */
  datatype Standardizer<!S> = Standardizer(fit: Matrix -> S, transform: (S, Matrix) -> Matrix)

  /** The figures of an evaluation report and the anomalies export. */
  datatype Evaluation = Evaluation(
    total: nat, normal: nat, suspicious: nat,
    flags: seq<int>, detected: nat, accuracy: real,
    anomalies: seq<FeatureVector>)

  /** Compares the model's predictions with the heuristic labels. */
  function Evaluate(rows: seq<FeatureVector>, labels: seq<int>, preds: seq<int>): (e: Evaluation)
    requires |rows| == |labels| == |preds| > 0
    requires forall i | 0 <= i < |labels| :: labels[i] == 0 || labels[i] == 1
    ensures e.total == |rows|
    ensures e.suspicious == CountEq(labels, 1) && e.normal == CountEq(labels, 0)
    ensures e.normal + e.suspicious == e.total
    ensures |e.flags| == |rows| && forall i | 0 <= i < |rows| :: IsAnomaly(e.flags[i]) <==> preds[i] == -1
    ensures e.detected == CountEq(preds, -1) <= e.total
    ensures 0.0 <= e.accuracy <= 1.0
    ensures e.accuracy == AgreementRate(labels, e.flags)
    ensures e.accuracy == 1.0 <==> e.flags == labels
    ensures |e.anomalies| == e.detected
    ensures e.anomalies == Flagged(rows, e.flags)
  {
    CountBinaryPartition(labels);
    var flags := Flags(preds);
    FlaggedCount(preds);
    var anomalies := Flagged(rows, flags);
    var accuracy := AgreementRate(labels, flags);
    assert accuracy == 1.0 <==> flags == labels;
    Evaluation(|rows|, CountEq(labels, 0), CountEq(labels, 1), flags,
               Count(flags, IsAnomaly), accuracy, anomalies)
  }

  /** What the first script produces: the model and its evaluation. */
  datatype BasicRun<M> = BasicRun(model: M, evaluation: Evaluation)

  /** The first script: basic labels, no scaling, a sample of
      `min(100000, n)` rows. An empty table cannot be fitted. */
  function TrainBasic<M>(rows: seq<FeatureVector>, sample: seq<nat>, forest: Forest<M>): (r: Result<BasicRun<M>, Failure>)
    requires IsSample(sample, |rows|, TrainSize(|rows|))
    ensures |rows| == 0 <==> r == Failure(EmptyBatch)
    ensures r.Success? ==>
      r.value.model == forest.fit(BasicConfig(|rows|), Select(ToMatrix(rows), sample))
    ensures r.Success? ==> r.value.evaluation.suspicious == Count(rows, BasicSuspicious)
    ensures r.Success? ==>
      |r.value.evaluation.flags| == |rows| == |forest.predict(r.value.model, ToMatrix(rows))|
    ensures r.Success? ==> forall i | 0 <= i < |rows| ::
      IsAnomaly(r.value.evaluation.flags[i]) <==> forest.predict(r.value.model, ToMatrix(rows))[i] == -1
    ensures r.Success? ==>
      r.value.evaluation == Evaluate(rows, Labels(rows, BasicSuspicious), forest.predict(r.value.model, ToMatrix(rows)))
  {
    if |rows| == 0 then Failure(EmptyBatch)
    else
      var X := ToMatrix(rows);
      var model := forest.fit(BasicConfig(|rows|), Select(X, sample));
      var preds := forest.predict(model, X);
      if |preds| != |rows| then Failure(LengthMismatch)
      else
        LabelCounts(rows, BasicSuspicious);
        Success(BasicRun(model, Evaluate(rows, Labels(rows, BasicSuspicious), preds)))
  }

  /** What the second script produces and saves. */
  datatype StrictRun<M, S> = StrictRun(model: M, scaler: S, evaluation: Evaluation)

  /** The second script: strict labels, a sample of exactly 100000 rows (a
      smaller table cannot be sampled), a scaler fitted on the sample only
      and then applied to the sample and to the whole table. */
  function TrainStrict<M, S>(rows: seq<FeatureVector>, sample: seq<nat>, forest: Forest<M>, scaler: Standardizer<S>)
    : (r: Result<StrictRun<M, S>, Failure>)
    requires |rows| >= TRAIN_CAP ==> IsSample(sample, |rows|, TRAIN_CAP)
    ensures |rows| < TRAIN_CAP <==> r == Failure(SampleTooLarge(TRAIN_CAP, |rows|))
    ensures r.Success? ==> r.value.scaler == scaler.fit(Select(ToMatrix(rows), sample))
    ensures r.Success? ==>
      r.value.model == forest.fit(STRICT_CONFIG, scaler.transform(r.value.scaler, Select(ToMatrix(rows), sample)))
    ensures r.Success? ==> r.value.evaluation.suspicious == Count(rows, StrictSuspicious)
    ensures r.Success? ==> r.value.evaluation.total == |rows|
    ensures r.Success? ==>
      |r.value.evaluation.flags| == |rows| &&
      |forest.predict(r.value.model, scaler.transform(r.value.scaler, ToMatrix(rows)))| == |rows|
    ensures r.Success? ==>
      r.value.evaluation == Evaluate(rows, Labels(rows, StrictSuspicious),
                                     forest.predict(r.value.model, scaler.transform(r.value.scaler, ToMatrix(rows))))
  {
    if |rows| < TRAIN_CAP then Failure(SampleTooLarge(TRAIN_CAP, |rows|))
    else
      var X := ToMatrix(rows);
      var train := Select(X, sample);
      var state := scaler.fit(train);
      var model := forest.fit(STRICT_CONFIG, scaler.transform(state, train));
      var preds := forest.predict(model, scaler.transform(state, X));
      if |preds| != |rows| then Failure(LengthMismatch)
      else
        LabelCounts(rows, StrictSuspicious);
        Success(StrictRun(model, state, Evaluate(rows, Labels(rows, StrictSuspicious), preds)))
  }

  /** The saved scaler and model, as the scorers load them. The scaler was
      fitted on the whole feature table, so it knows the twelve feature
      columns. */
  function Saved<M, S>(run: StrictRun<M, S>, forest: Forest<M>, scaler: Standardizer<S>): (d: Detector)
    ensures d.columns == FEATURE_NAMES
  {
    Detector(FEATURE_NAMES, X => scaler.transform(run.scaler, X), X => forest.predict(run.model, X))
  }

  /** Scoring the training table with the saved pair reproduces the flags of
      the evaluation report. */
  lemma SavedDetectorReproducesFlags<M, S>(rows: seq<FeatureVector>, sample: seq<nat>, forest: Forest<M>, scaler: Standardizer<S>)
    requires |rows| >= TRAIN_CAP ==> IsSample(sample, |rows|, TRAIN_CAP)
    ensures var r := TrainStrict(rows, sample, forest, scaler);
      r.Success? ==>
        Predict(Saved(r.value, forest, scaler), FEATURE_NAMES, ToMatrix(rows)).Success? &&
        Flags(Predict(Saved(r.value, forest, scaler), FEATURE_NAMES, ToMatrix(rows)).value) == r.value.evaluation.flags
  {
  }

  /** The scaler and the model see only the sampled rows: two tables of the
      same size that agree on them give the same scaler state and model. */
  lemma StrictFitSeesOnlySample<M, S>(a: seq<FeatureVector>, b: seq<FeatureVector>, sample: seq<nat>,
                                      forest: Forest<M>, scaler: Standardizer<S>)
    requires |a| == |b| && (|a| >= TRAIN_CAP ==> IsSample(sample, |a|, TRAIN_CAP))
    requires forall k | 0 <= k < |sample| && sample[k] < |a| :: a[sample[k]] == b[sample[k]]
    ensures var ra, rb := TrainStrict(a, sample, forest, scaler), TrainStrict(b, sample, forest, scaler);
      ra.Success? && rb.Success? ==> ra.value.scaler == rb.value.scaler && ra.value.model == rb.value.model
  {
    if |a| >= TRAIN_CAP {
      assert Select(ToMatrix(a), sample) == Select(ToMatrix(b), sample);
    }
  }

  /** On a table of at most 100000 rows the first script trains on every
      row. */
  lemma BasicTrainsOnAllRowsOfSmallTables(rows: seq<FeatureVector>, sample: seq<nat>)
    requires |rows| <= TRAIN_CAP && IsSample(sample, |rows|, TrainSize(|rows|))
    ensures forall i | 0 <= i < |rows| :: Values(rows[i]) in Select(ToMatrix(rows), sample)
  {
    FullSampleCoversAllRows(sample, |rows|);
    var train := Select(ToMatrix(rows), sample);
    forall i | 0 <= i < |rows| ensures Values(rows[i]) in train {
      assert i in sample;
      var k :| 0 <= k < |sample| && sample[k] == i;
      assert train[k] == Values(rows[i]);
    }
  }
}
