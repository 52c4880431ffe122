/**
 * The dashboard's reason for a flagged row: the labels of the rules the
 * row meets, in rule order and joined by ", ", or a fallback when it meets
 * none.
 */
module Explanation {
  import opened Text
  import opened Seqs
  import opened Schema

  /** Request volume above which a row is explained by its volume. */
  const HIGH_VOLUME: real := 1000.0

  /** The rule labels, in the order the rules are tried. */
  const LABELS: seq<string> := [
    "High request volume",
    "Server error response",
    "Large data transfer",
    "Admin endpoint access",
    "Executable file access"
  ]

  const FALLBACK: string := "Statistical anomaly"
  const SEPARATOR: string := ", "

  /** Which rules the row meets, aligned with `LABELS`. */
  function RulesMet(fv: FeatureVector): (met: seq<bool>)
    ensures |met| == |LABELS|
  {
    [Above(fv.requestsPerIp, HIGH_VOLUME), IsOne(fv.isServerError), IsOne(fv.largeTransfer),
     IsOne(fv.isAdmin), IsOne(fv.isExe)]
  }

  predicate NoRuleMet(fv: FeatureVector) {
    forall j | 0 <= j < |LABELS| :: !RulesMet(fv)[j]
  }

  /** No two labels are the same. */
  predicate Distinct<T(==)>(names: seq<T>) {
    forall k, l | 0 <= k < l < |names| :: names[k] != names[l]
  }

  lemma LabelsDistinct()
    ensures Distinct(LABELS)
  {
  }

  predicate Holds(b: bool) {
    b
  }

  /** The names whose mask entry is set, among the first `n`, in order. */
  function MatchedUpTo<T(==)>(names: seq<T>, met: seq<bool>, n: nat): (chosen: seq<T>)
    requires |met| == |names| && n <= |names| && Distinct(names)
    ensures |chosen| <= n
    ensures forall k | 0 <= k < |chosen| :: chosen[k] in names[..n]
    ensures forall j | 0 <= j < n :: names[j] in chosen <==> met[j]
    ensures |chosen| == 0 <==> forall j | 0 <= j < n :: !met[j]
    ensures Distinct(chosen)
  {
    if n == 0 then []
    else
      var before := MatchedUpTo(names, met, n - 1);
      assert names[..n] == names[..n - 1] + [names[n - 1]];
      assert names[n - 1] !in names[..n - 1];
      before + (if met[n - 1] then [names[n - 1]] else [])
  }

  /** The chosen names are the names at the set positions of the mask, in
      increasing position order. */
  lemma {:induction false} MatchedUpToSelects<T>(names: seq<T>, met: seq<bool>, n: nat)
    requires |met| == |names| && n <= |names| && Distinct(names)
    ensures MatchedUpTo(names, met, n) == Select(names, Indices(met[..n], Holds))
  {
    if n > 0 {
      MatchedUpToSelects(names, met, n - 1);
      SelectedStep(names, met, n);
    }
  }

  /** Extending the mask by one entry appends that entry's name when it is
      set. */
  lemma SelectedStep<T>(names: seq<T>, met: seq<bool>, n: nat)
    requires |met| == |names| && 0 < n <= |names|
    ensures Select(names, Indices(met[..n], Holds)) ==
      Select(names, Indices(met[..n - 1], Holds)) + (if met[n - 1] then [names[n - 1]] else [])
  {
    assert met[..n][..n - 1] == met[..n - 1];
    if met[n - 1] {
      SelectSnoc(names, Indices(met[..n - 1], Holds), n - 1);
    }
  }

  /** The reasons list of a row. */
  function Matched(fv: FeatureVector): (labels: seq<string>)
    ensures forall k | 0 <= k < |labels| :: labels[k] in LABELS
    ensures forall j | 0 <= j < |LABELS| :: LABELS[j] in labels <==> RulesMet(fv)[j]
    ensures |labels| == 0 <==> NoRuleMet(fv)
    ensures Distinct(labels)
  {
    LabelsDistinct();
    MatchedUpTo(LABELS, RulesMet(fv), |LABELS|)
  }

  lemma JoinStartsWithHead(parts: seq<string>, sep: string)
    requires |parts| > 0
    ensures |Join(parts, sep)| >= |parts[0]|
    ensures Join(parts, sep)[..|parts[0]|] == parts[0]
  {
    if |parts| > 1 {
      assert Join(parts, sep) == parts[0] + (sep + Join(parts[1..], sep));
    }
  }

  /** Each label differs from the fallback in its first two characters. */
  lemma LabelsDifferFromFallbackEarly()
    ensures forall i | 0 <= i < |LABELS| :: |LABELS[i]| >= 2 && !(LABELS[i][0] == FALLBACK[0] && LABELS[i][1] == FALLBACK[1])
  {
    assert FALLBACK[0] == 'S' && FALLBACK[1] == 't';
  }

  /** Hence no joined list of labels is the fallback. */
  lemma JoinedLabelsAreNotFallback(labels: seq<string>)
    requires |labels| > 0 && labels[0] in LABELS
    ensures Join(labels, SEPARATOR) != FALLBACK
  {
    LabelsDifferFromFallbackEarly();
    JoinStartsWithHead(labels, SEPARATOR);
    var r := Join(labels, SEPARATOR);
    var head := labels[0];
    assert r[..|head|] == head;
    assert r[0] == head[0] && r[1] == head[1];
  }

  /** `explain(row)`: the met rules' labels joined by ", ", else the fallback. */
  function Explain(fv: FeatureVector): (reason: string)
    ensures |reason| > 0
    ensures reason == FALLBACK <==> NoRuleMet(fv)
  {
    var labels := Matched(fv);
    if |labels| == 0 then FALLBACK
    else
      JoinedLabelsAreNotFallback(labels);
      JoinStartsWithHead(labels, SEPARATOR);
      Join(labels, SEPARATOR)
  }

  /** One test of the reference formulation: append `name` when `holds`. */
  function Step<T>(reasons: seq<T>, holds: bool, name: T): seq<T> {
    if holds then reasons + [name] else reasons
  }

  /** The reference formulation: the five tests applied one after the
      other, each appending its label to the reasons collected so far. */
  function StepwiseReasons(fv: FeatureVector): seq<string> {
    var r1 := Step([], Above(fv.requestsPerIp, 1000.0), "High request volume");
    var r2 := Step(r1, IsOne(fv.isServerError), "Server error response");
    var r3 := Step(r2, IsOne(fv.largeTransfer), "Large data transfer");
    var r4 := Step(r3, IsOne(fv.isAdmin), "Admin endpoint access");
    Step(r4, IsOne(fv.isExe), "Executable file access")
  }

  function ExplainStepwise(fv: FeatureVector): string {
    var reasons := StepwiseReasons(fv);
    if |reasons| > 0 then Join(reasons, ", ") else "Statistical anomaly"
  }

  lemma MatchedUpToUnrolled<T>(names: seq<T>, met: seq<bool>)
    requires |names| == |met| == 5 && Distinct(names)
    ensures MatchedUpTo(names, met, 5) ==
      Step(Step(Step(Step(Step([], met[0], names[0]), met[1], names[1]), met[2], names[2]), met[3], names[3]), met[4], names[4])
  {
    assert MatchedUpTo(names, met, 1) == Step([], met[0], names[0]);
    assert MatchedUpTo(names, met, 2) == Step(MatchedUpTo(names, met, 1), met[1], names[1]);
    assert MatchedUpTo(names, met, 3) == Step(MatchedUpTo(names, met, 2), met[2], names[2]);
    assert MatchedUpTo(names, met, 4) == Step(MatchedUpTo(names, met, 3), met[3], names[3]);
  }

  lemma MatchedIsStepwise(fv: FeatureVector)
    ensures Matched(fv) == StepwiseReasons(fv)
  {
    LabelsDistinct();
    MatchedUpToUnrolled(LABELS, RulesMet(fv));
  }

  /** The explanation agrees with the stepwise formulation on every row. */
  lemma ExplainIsStepwise(fv: FeatureVector)
    ensures Explain(fv) == ExplainStepwise(fv)
  {
    MatchedIsStepwise(fv);
  }

  /** A row meeting exactly one rule is explained by that rule's label alone. */
  lemma SingleRuleExplained(fv: FeatureVector, j: nat)
    requires j < |LABELS| && RulesMet(fv)[j]
    requires forall i | 0 <= i < |LABELS| && i != j :: !RulesMet(fv)[i]
    ensures Explain(fv) == LABELS[j]
  {
    LabelsDistinct();
    var met := RulesMet(fv);
    MatchedUpToUnrolled(LABELS, met);
    assert Matched(fv) == [LABELS[j]];
  }
}
