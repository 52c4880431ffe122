/**
 * The heuristic ground truth the two training scripts score their forest
 * against. Each labels a feature row suspicious (1) or normal (0); the
 * strict labelling of the second script narrows the volume rule and adds
 * the endpoint rules.
 */
module Heuristics {
  import opened Seqs
  import opened Schema

  /** Request volume above which the basic labelling calls a row suspicious. */
  const BASIC_VOLUME: real := 500.0
  /** Request volume that, with a large transfer, the strict labelling needs. */
  const STRICT_VOLUME: real := 1000.0

  /** Server error, or large transfer, or more than 500 requests from the address. */
  predicate BasicSuspicious(fv: FeatureVector) {
    IsOne(fv.isServerError) || IsOne(fv.largeTransfer) || Above(fv.requestsPerIp, BASIC_VOLUME)
  }

  /** Server error, or a large transfer from an address with more than 1000
      requests, or an admin endpoint, or an executable. */
  predicate StrictSuspicious(fv: FeatureVector) {
    IsOne(fv.isServerError)
    || (IsOne(fv.largeTransfer) && Above(fv.requestsPerIp, STRICT_VOLUME))
    || IsOne(fv.isAdmin)
    || IsOne(fv.isExe)
  }

  /** The label column `(condition).astype(int)`. */
  function Labels(rows: seq<FeatureVector>, suspicious: FeatureVector -> bool): (y: seq<int>)
    ensures |y| == |rows|
    ensures forall i | 0 <= i < |rows| :: (y[i] == 0 || y[i] == 1) && (y[i] == 1 <==> suspicious(rows[i]))
  {
    seq(|rows|, i requires 0 <= i < |rows| => if suspicious(rows[i]) then 1 else 0)
  }

  /** The normal and suspicious counts of a report add up to the number of
      rows, and the suspicious count is the number of rows the rule holds for. */
  lemma {:induction false} LabelCounts(rows: seq<FeatureVector>, suspicious: FeatureVector -> bool)
    ensures CountEq(Labels(rows, suspicious), 1) == Count(rows, suspicious)
    ensures CountEq(Labels(rows, suspicious), 0) + CountEq(Labels(rows, suspicious), 1) == |rows|
  {
    var y := Labels(rows, suspicious);
    CountBinaryPartition(y);
    if |rows| > 0 {
      var n := |rows| - 1;
      LabelCounts(rows[..n], suspicious);
      assert y[..n] == Labels(rows[..n], suspicious);
    }
  }

  /** A large transfer from an address with between 501 and 1000 requests
      and nothing else notable is suspicious under the basic labelling only;
      so is one with 500 requests or fewer. */
  lemma LargeTransferAloneDisagrees(fv: FeatureVector)
    requires IsOne(fv.largeTransfer) && !Above(fv.requestsPerIp, STRICT_VOLUME)
    requires !IsOne(fv.isServerError) && !IsOne(fv.isAdmin) && !IsOne(fv.isExe)
    ensures BasicSuspicious(fv) && !StrictSuspicious(fv)
  {
  }

  /** Apart from the endpoint rules, the strict labelling only narrows the
      basic one. */
  lemma StrictWithoutEndpointsIsBasic(fv: FeatureVector)
    requires StrictSuspicious(fv) && !IsOne(fv.isAdmin) && !IsOne(fv.isExe)
    ensures BasicSuspicious(fv)
  {
  }

  /** An admin or executable request is suspicious under the strict
      labelling whatever its volume, while the basic labelling can still call
      it normal. */
  lemma EndpointsOnlyStrict(fv: FeatureVector)
    requires IsOne(fv.isAdmin) || IsOne(fv.isExe)
    requires !IsOne(fv.isServerError) && !IsOne(fv.largeTransfer) && !Above(fv.requestsPerIp, BASIC_VOLUME)
    ensures StrictSuspicious(fv) && !BasicSuspicious(fv)
  {
  }
}
