/**
 * The body of the alert script: normalize the fetched feeds, classify every row, take
 * the mode label and its tier, build the writeback payload from the latest row, then
 * build the email.  Fetching, posting and mailing stay outside; the run's outcome says
 * what would be handed to each.
 */
module Alert {
  import opened Base
  import opened Feed
  import opened Aggregate
  import opened Report

  /**
   * The pretrained `scaler` -> `pca` -> `model` chain as one function from a finite
   * feature row (in the order of `Features`) to a cluster label.
   */
  type Classifier = seq<real> -> int

  /** Every reading of every row is finite. */
  predicate AllFinite(rows: seq<Row>) {
    forall i, k :: 0 <= i < |rows| && 0 <= k < |ReadingFields| ==> Features(rows[i])[k].Finite?
  }

  /** The values of a row of finite readings. */
  function Values(v: seq<Float>): (r: seq<real>)
    requires forall k :: 0 <= k < |v| ==> v[k].Finite?
    ensures |r| == |v| && forall k :: 0 <= k < |v| ==> v[k] == Finite(r[k])
  {
    seq(|v|, k requires 0 <= k < |v| => v[k].value)
  }

  /**
   * `model.predict(pca.transform(scaler.transform(X)))`. The input validation of the
   * transforms rejects the whole matrix with ValueError when a reading is an infinity
   * (`scaler.transform`) or NaN (`pca.transform`); otherwise there is one label per row,
   * in row order.
   */
  function Predictions(rows: seq<Row>, predict: Classifier): (r: Result<seq<int>>)
    ensures r.Err? <==> !AllFinite(rows)
    ensures r.Err? ==> r.error == ValueError
    ensures r.Ok? ==> |r.value| == |rows|
    ensures r.Ok? ==> forall i :: 0 <= i < |rows| ==> r.value[i] == predict(Values(FeatureMatrix(rows)[i]))
  {
    if !AllFinite(rows) then Err(ValueError)
    else Ok(seq(|rows|, i requires 0 <= i < |rows| => predict(Values(FeatureMatrix(rows)[i]))))
  }

  /** How one run of the script ends. */
  datatype Outcome =
    | NoData                                        // "No data found. Exiting."
    | Aborted(error: Error)                         // raised before the writeback
    | Sent(writeback: Payload, email: Result<Email>) // writeback posted; the email, or why it was not built

  /** The labels of a feed list whose readings are all finite, as the run computes them. */
  function FeedLabels(feeds: seq<FeedRecord>, parse: FloatParser, predict: Classifier): seq<int>
    requires AllFinite(Rows(feeds, parse))
  {
    Predictions(Rows(feeds, parse), predict).value
  }

  /**
   * What a run may end with: "no data" exactly for an empty feed list; ValueError when a
   * reading is NaN or infinite; otherwise a KeyError for a mode label that has no tier,
   * or the writeback of the latest row with the mode label and its tier, together with
   * the email built for them.
   */
  predicate IsRunOutcome(feeds: seq<FeedRecord>, parse: FloatParser, predict: Classifier, out: Outcome) {
    && (out.NoData? <==> |feeds| == 0)
    && (|feeds| > 0 && !AllFinite(Rows(feeds, parse)) ==> out == Aborted(ValueError))
    && (out.Aborted? && AllFinite(Rows(feeds, parse)) ==>
          && out.error.KeyError?
          && IsMode(FeedLabels(feeds, parse, predict), out.error.key)
          && RiskTier(out.error.key).Err?)
    && (out.Sent? ==>
          var latest := NormalizeRecord(feeds[|feeds| - 1], parse);
          && AllFinite(Rows(feeds, parse))
          && IsMode(FeedLabels(feeds, parse, predict), out.writeback.field7)
          && RiskTier(out.writeback.field7) == Ok(out.writeback.field8)
          && PayloadReadings(out.writeback) == Features(latest)
          && out.email == BuildEmailText(out.writeback.field8, out.writeback.field7, latest))
  }

  /** The script from the empty-feed check to the email construction. */
  method Run(feeds: seq<FeedRecord>, parse: FloatParser, predict: Classifier) returns (out: Outcome)
    ensures IsRunOutcome(feeds, parse, predict, out)
  {
    if |feeds| == 0 {
      return NoData;
    }
    var rows := BuildRows(feeds, parse);
    assert rows == Rows(feeds, parse);
    var predictions := Predictions(rows, predict);
    if predictions.Err? {
      return Aborted(predictions.error);
    }
    var mode := Mode(predictions.value);
    if mode.Err? {
      assert false;
      return Aborted(ValueError);
    }
    var modeCluster := mode.value;
    var modeRisk := RiskTier(modeCluster);
    if modeRisk.Err? {
      return Aborted(modeRisk.error);
    }
    var latest := rows[|rows| - 1];
    var updatePayload := UpdatePayload(latest, modeCluster, modeRisk.value);
    var email := BuildEmailText(modeRisk.value, modeCluster, latest);
    return Sent(updatePayload, email);
  }

  /**
   * A non-empty run with finite readings ends in exactly one of two ways, decided by the
   * mode label alone: the writeback is sent when the tier table has that label, and the
   * run aborts with KeyError otherwise.
   */
  lemma RunDecidedByMode(feeds: seq<FeedRecord>, parse: FloatParser, predict: Classifier, m: int, out: Outcome)
    requires IsRunOutcome(feeds, parse, predict, out)
    requires |feeds| > 0 && AllFinite(Rows(feeds, parse)) && IsMode(FeedLabels(feeds, parse, predict), m)
    ensures out.Sent? <==> m in ClusterToRisk
    ensures out.Sent? ==> out.writeback.field7 == m
    ensures out.Aborted? ==> out.error == KeyError(m)
  {
  }
}
