/**
 * The synthetic attack test set: 5000 sampled feature rows are rewritten to
 * look like a brute-force, admin, executable and exfiltration attack and
 * appended to the original rows, with a ground-truth column marking them.
 */
module AttackTest {
  import opened Wrappers
  import opened Text
  import opened Seqs
  import opened Schema
  import opened Frames
  import opened Heuristics
  import opened Explanation
  import opened Training
  import opened Dashboard

  const ATTACK_SAMPLES: nat := 5000

  /** The random values drawn for one attack row. */
  datatype Draw = Draw(requests: int, bytes: int, urlLength: int, serverError: int)

  /** The ranges of the draws: `randint` excludes its upper bound, and the
      server-error flag is 0 or 1. */
  predicate InRange(d: Draw) {
    3000 <= d.requests < 8000 && 20000 <= d.bytes < 90000 && 80 <= d.urlLength < 200
    && (d.serverError == 0 || d.serverError == 1)
  }

  /** A sampled row rewritten as an attack; hour and weekday are kept. */
  function AttackRow(fv: FeatureVector, d: Draw): (a: FeatureVector)
    ensures a.hour == fv.hour && a.day == fv.day
    ensures IsOne(a.isAdmin) && IsOne(a.isExe) && IsOne(a.isPost) && IsOne(a.largeTransfer)
    ensures a.isGet == OfInt(0)
    ensures a.requestsPerIp == OfInt(d.requests) && a.bytes == OfInt(d.bytes) && a.urlLength == OfInt(d.urlLength)
    ensures a.isError == a.isServerError && (IsOne(a.isServerError) <==> d.serverError == 1)
    ensures InRange(d) ==> Above(a.requestsPerIp, 1000.0) && Above(a.bytes, 10000.0)
  {
    fv.(requestsPerIp := OfInt(d.requests), isAdmin := OfInt(1), isExe := OfInt(1),
        isPost := OfInt(1), isGet := OfInt(0), bytes := OfInt(d.bytes), largeTransfer := OfInt(1),
        urlLength := OfInt(d.urlLength), isServerError := OfInt(d.serverError),
        isError := OfInt(d.serverError))
  }

  /** A row of the test set with its ground truth (1 for an attack). */
  datatype Labeled = Labeled(features: FeatureVector, groundTruth: int)

  /** The original rows, labelled 0, followed by the attack rows, labelled 1.
      A table with fewer than 5000 rows cannot be sampled. */
  function Generate(X: seq<FeatureVector>, sample: seq<nat>, draws: seq<Draw>): (r: Result<seq<Labeled>, Failure>)
    requires |X| >= ATTACK_SAMPLES ==> IsSample(sample, |X|, ATTACK_SAMPLES) && |draws| == ATTACK_SAMPLES
    ensures |X| < ATTACK_SAMPLES <==> r == Failure(SampleTooLarge(ATTACK_SAMPLES, |X|))
    ensures r.Success? ==> |r.value| == |X| + ATTACK_SAMPLES
    ensures r.Success? ==> forall i | 0 <= i < |X| :: r.value[i] == Labeled(X[i], 0)
    ensures r.Success? ==> forall k | 0 <= k < ATTACK_SAMPLES ::
      r.value[|X| + k] == Labeled(AttackRow(X[sample[k]], draws[k]), 1)
  {
    if |X| < ATTACK_SAMPLES then Failure(SampleTooLarge(ATTACK_SAMPLES, |X|))
    else
      var original := seq(|X|, i requires 0 <= i < |X| => Labeled(X[i], 0));
      var attacks := seq(ATTACK_SAMPLES, k requires 0 <= k < ATTACK_SAMPLES =>
        Labeled(AttackRow(X[sample[k]], draws[k]), 1));
      Success(original + attacks)
  }

  function GroundTruths(rows: seq<Labeled>): (y: seq<int>)
    ensures |y| == |rows| && forall i | 0 <= i < |rows| :: y[i] == rows[i].groundTruth
  {
    seq(|rows|, i requires 0 <= i < |rows| => rows[i].groundTruth)
  }

  /** The test set holds exactly 5000 attacks and every original row as normal. */
  lemma GroundTruthCounts(X: seq<FeatureVector>, sample: seq<nat>, draws: seq<Draw>)
    requires |X| >= ATTACK_SAMPLES && IsSample(sample, |X|, ATTACK_SAMPLES) && |draws| == ATTACK_SAMPLES
    ensures var y := GroundTruths(Generate(X, sample, draws).value);
      CountEq(y, 1) == ATTACK_SAMPLES && CountEq(y, 0) == |X|
  {
    var rows := Generate(X, sample, draws).value;
    var y := GroundTruths(rows);
    forall i | 0 <= i < |X| ensures y[i] == 0 {
      assert rows[i] == Labeled(X[i], 0);
    }
    forall i | |X| <= i < |y| ensures y[i] == 1 {
      assert rows[|X| + (i - |X|)].groundTruth == 1;
    }
    ZerosThenOnes(y, |X|);
  }

  lemma {:induction false} ZerosThenOnes(y: seq<int>, m: nat)
    requires m <= |y|
    requires forall i | 0 <= i < m :: y[i] == 0
    requires forall i | m <= i < |y| :: y[i] == 1
    ensures CountEq(y, 0) == m && CountEq(y, 1) == |y| - m
  {
    if |y| > 0 {
      var n := |y| - 1;
      var init := y[..n];
      assert forall i | 0 <= i < n :: init[i] == y[i];
      if m <= n {
        ZerosThenOnes(init, m);
      } else {
        ZerosThenOnes(init, n);
      }
    }
  }

  /** Every attack row is suspicious under both heuristic labellings. */
  lemma AttackRowsSuspicious(fv: FeatureVector, d: Draw)
    requires InRange(d)
    ensures BasicSuspicious(AttackRow(fv, d)) && StrictSuspicious(AttackRow(fv, d))
  {
  }

  /** The stepwise reasons of the two masks an attack row can produce, on
      any names. */
  lemma AttackMasks<T>(names: seq<T>, met: seq<bool>)
    requires |names| == |met| == 5
    requires met[0] && met[2] && met[3] && met[4]
    ensures Step(Step(Step(Step(Step([], met[0], names[0]), met[1], names[1]), met[2], names[2]), met[3], names[3]), met[4], names[4])
      == if met[1] then names else [names[0], names[2], names[3], names[4]]
  {
    if met[1] {
      assert names == [names[0], names[1], names[2], names[3], names[4]];
    }
  }

  /** The rules an attack row meets: all five when a server error was
      drawn, all but the server-error rule otherwise. */
  lemma AttackRowReasons(fv: FeatureVector, d: Draw)
    requires InRange(d)
    ensures Matched(AttackRow(fv, d)) ==
      if d.serverError == 1 then LABELS else [LABELS[0], LABELS[2], LABELS[3], LABELS[4]]
  {
    var a := AttackRow(fv, d);
    var met := RulesMet(a);
    assert met[0] && met[2] && met[3] && met[4];
    assert met[1] <==> d.serverError == 1;
    LabelsDistinct();
    MatchedUpToUnrolled(LABELS, met);
    AttackMasks(LABELS, met);
  }

  /** The dashboard explains every flagged attack row by volume, transfer,
      admin and executable access, and by the server error when one was drawn. */
  lemma AttackRowExplanation(fv: FeatureVector, d: Draw)
    requires InRange(d)
    ensures Explain(AttackRow(fv, d)) ==
      if d.serverError == 1 then
        Join(["High request volume", "Server error response", "Large data transfer",
              "Admin endpoint access", "Executable file access"], ", ")
      else
        Join(["High request volume", "Large data transfer",
              "Admin endpoint access", "Executable file access"], ", ")
  {
    AttackRowReasons(fv, d);
  }

  /** The columns of the test file: the feature columns, then the ground truth. */
  const ATTACK_COLUMNS: seq<string> := FEATURE_NAMES + [GROUND_TRUTH]

  function ToFrame(rows: seq<Labeled>): (f: Frame)
    ensures WellFormed(f) && f.columns == ATTACK_COLUMNS && |f.rows| == |rows|
  {
    Frame(ATTACK_COLUMNS, seq(|rows|, i requires 0 <= i < |rows| =>
      Values(rows[i].features) + [OfInt(rows[i].groundTruth)]))
  }

  lemma {:induction false} IndexOfDistinct(columns: seq<string>, k: nat)
    requires k < |columns| && Distinct(columns)
    ensures IndexOf(columns, columns[k]) == Some(k)
  {
    if k > 0 {
      IndexOfDistinct(columns[1..], k - 1);
    }
  }

  lemma AttackColumnsDistinct()
    ensures Distinct(ATTACK_COLUMNS)
  {
    FeatureNamesDistinct();
    assert GROUND_TRUTH !in FEATURE_NAMES;
  }

  /** Each column of the test file is found at its own position. */
  lemma AttackColumnsIndexed()
    ensures forall k | 0 <= k < |ATTACK_COLUMNS| :: IndexOf(ATTACK_COLUMNS, ATTACK_COLUMNS[k]) == Some(k)
  {
    AttackColumnsDistinct();
    forall k | 0 <= k < |ATTACK_COLUMNS| ensures IndexOf(ATTACK_COLUMNS, ATTACK_COLUMNS[k]) == Some(k) {
      IndexOfDistinct(ATTACK_COLUMNS, k);
    }
  }

  /** Each model feature is found in the test file at its own position. */
  lemma ModelFeaturesIndexed()
    ensures |MODEL_FEATURES| <= |ATTACK_COLUMNS|
    ensures forall k | 0 <= k < |MODEL_FEATURES| :: IndexOf(ATTACK_COLUMNS, MODEL_FEATURES[k]) == Some(k)
  {
    ModelFeaturesAreFeatureNames();
    AttackColumnsIndexed();
    assert forall k | 0 <= k < |FEATURE_NAMES| :: ATTACK_COLUMNS[k] == FEATURE_NAMES[k];
  }

  /** The dashboard finds every model column in the test file and reads the
      feature cells back unchanged. */
  lemma AttackFrameFeatures(rows: seq<Labeled>)
    ensures Project(ToFrame(rows), MODEL_FEATURES) == Success(ToMatrix(Features(rows)))
  {
    var f := ToFrame(rows);
    ModelFeaturesIndexed();
    ProjectLeadingColumns(f, MODEL_FEATURES);
    var p := Project(f, MODEL_FEATURES);
    var m := ToMatrix(Features(rows));
    forall i | 0 <= i < |rows| ensures p.value[i] == m[i] {
      var cells := Values(rows[i].features);
      assert f.rows[i] == cells + [OfInt(rows[i].groundTruth)];
      assert f.rows[i][..|cells|] == cells;
    }
    assert |p.value| == |m|;
    assert p.value == m;
    assert p == Success(m);
  }

  /** The dashboard reads the ground truth column of the test file back unchanged. */
  lemma AttackFrameGroundTruth(rows: seq<Labeled>)
    ensures Column(ToFrame(rows), GROUND_TRUTH) == Some(IntValues(GroundTruths(rows)))
  {
    var f := ToFrame(rows);
    AttackColumnsIndexed();
    var at := |FEATURE_NAMES|;
    assert ATTACK_COLUMNS[at] == GROUND_TRUTH;
    assert IndexOf(f.columns, GROUND_TRUTH) == Some(at);
    var column := Column(f, GROUND_TRUTH).value;
    forall i | 0 <= i < |rows| ensures column[i] == OfInt(rows[i].groundTruth) {
      assert f.rows[i] == Values(rows[i].features) + [OfInt(rows[i].groundTruth)];
    }
    assert column == IntValues(GroundTruths(rows));
  }

  function Features(rows: seq<Labeled>): (fs: seq<FeatureVector>)
    ensures |fs| == |rows| && forall i | 0 <= i < |rows| :: fs[i] == rows[i].features
  {
    seq(|rows|, i requires 0 <= i < |rows| => rows[i].features)
  }

  function IntValues(xs: seq<int>): (vs: seq<Value>)
    ensures |vs| == |xs| && forall i | 0 <= i < |xs| :: vs[i] == OfInt(xs[i])
  {
    seq(|xs|, i requires 0 <= i < |xs| => OfInt(xs[i]))
  }

  /** On the test file the dashboard reports an accuracy, and it is 100%
      exactly when the model flags the attack rows and nothing else. */
  lemma PerfectAccuracyMeansExactDetection(rows: seq<Labeled>, flags: seq<int>)
    requires |flags| == |rows| > 0
    ensures Accuracy(ToFrame(rows), flags).Some?
    ensures Accuracy(ToFrame(rows), flags).value == 1.0 <==> flags == GroundTruths(rows)
  {
    AttackFrameGroundTruth(rows);
    assert ATTACK_COLUMNS[|FEATURE_NAMES|] == GROUND_TRUTH;
    var y := GroundTruths(rows);
    if forall i | 0 <= i < |flags| :: OfInt(y[i]) == OfInt(flags[i]) {
      assert flags == y;
    }
  }
}
