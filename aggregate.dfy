/**
 * Label aggregation: `mode(predictions)` picks the most frequent cluster label (the
 * smallest one among equally frequent labels, as scipy.stats.mode does), and the fixed
 * `cluster_to_risk` table names its risk tier.
 */
module Aggregate {
  import opened Base

  /** Occurrences of `x` in `labels`. */
  function Count(labels: seq<int>, x: int): nat {
    multiset(labels)[x]
  }

  /**
   * `m` is scipy's mode of `labels`: it occurs, no label occurs more often, and every
   * label that occurs as often is at least `m`.
   */
  predicate IsMode(labels: seq<int>, m: int) {
    && m in labels
    && (forall x :: x in labels ==> Count(labels, x) <= Count(labels, m))
    && (forall x :: x in labels && Count(labels, x) == Count(labels, m) ==> m <= x)
  }

  /** A sequence has at most one mode. */
  lemma ModeUnique(labels: seq<int>, m1: int, m2: int)
    requires IsMode(labels, m1) && IsMode(labels, m2)
    ensures m1 == m2
  {
  }

  /**
   * `int(mode(predictions, keepdims=False).mode)`, counting the labels in one pass.
   * On no labels scipy yields NaN and `int` raises ValueError.
   */
  method Mode(labels: seq<int>) returns (r: Result<int>)
    ensures r.Err? <==> |labels| == 0
    ensures r.Err? ==> r.error == ValueError
    ensures r.Ok? ==> IsMode(labels, r.value)
  {
    if |labels| == 0 {
      return Err(ValueError);
    }
    var counts: map<int, nat> := map[];
    var best, bestCount := labels[0], 0;
    for i := 0 to |labels|
      invariant forall x :: x in counts <==> x in labels[..i]
      invariant forall x :: x in counts ==> counts[x] == Count(labels[..i], x)
      invariant i == 0 ==> best == labels[0] && bestCount == 0
      invariant i > 0 ==> IsMode(labels[..i], best) && bestCount == Count(labels[..i], best)
    {
      var x := labels[i];
      var c := if x in counts then counts[x] + 1 else 1;
      counts := counts[x := c];
      assert labels[..i + 1] == labels[..i] + [x];
      if c > bestCount || (c == bestCount && x < best) {
        best, bestCount := x, c;
      }
    }
    assert labels[..|labels|] == labels;
    return Ok(best);
  }

  /** `cluster_to_risk`. */
  const ClusterToRisk: map<int, string> := map[0 := "Low Risk", 1 := "Medium Risk", 2 := "High Risk"]

  /** `cluster_to_risk[mode_cluster]`: the tier name, or KeyError for a label the table lacks. */
  function RiskTier(cluster: int): (r: Result<string>)
    ensures r.Ok? <==> 0 <= cluster <= 2
    ensures r.Err? ==> r.error == KeyError(cluster)
    ensures cluster == 0 ==> r == Ok("Low Risk")
    ensures cluster == 1 ==> r == Ok("Medium Risk")
    ensures cluster == 2 ==> r == Ok("High Risk")
  {
    if cluster in ClusterToRisk then Ok(ClusterToRisk[cluster]) else Err(KeyError(cluster))
  }

  /** Ties go to the smallest label: the mode of [0, 0, 1, 1] is 0, not 1. */
  lemma TieGoesToSmallest()
    ensures IsMode([0, 0, 1, 1], 0)
    ensures !IsMode([0, 0, 1, 1], 1)
  {
  }
}
