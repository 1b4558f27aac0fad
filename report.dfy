/**
 * Report assembly: the ThingSpeak writeback payload built from the latest row and the
 * aggregated label, and the email built by `build_email_text`.
 */
module Report {
  import opened Base
  import opened Feed
  import opened Ist

  /** `update_payload` without its `api_key`, which comes from the environment. */
  datatype Payload = Payload(
    field1: Float, field2: Float, field3: Float, field4: Float, field5: Float, field6: Float,
    field7: int, field8: string)

  /** The six readings `field1` .. `field6` of a payload, in field order. */
  function PayloadReadings(p: Payload): seq<Float> {
    [p.field1, p.field2, p.field3, p.field4, p.field5, p.field6]
  }

  /** The payload posted for the latest row, the mode label and its tier. */
  function UpdatePayload(latest: Row, modeCluster: int, modeRisk: string): (p: Payload)
    ensures PayloadReadings(p) == Features(latest)
    ensures p.field7 == modeCluster && p.field8 == modeRisk
  {
    Payload(latest.temp, latest.humidity, latest.pressure, latest.dust, latest.co2, latest.tvoc,
            modeCluster, modeRisk)
  }

  /** The subject prefix; the dash is U+2013 EN DASH. */
  const SubjectPrefix := "Infection Risk Update \U{2013} "

  /**
   * The email handed to the mail transport: its subject, and the parts of the body that
   * carry information (the risk tier, the IST time and the six readings of the latest row).
   */
  datatype Email = Email(subject: string, risk: string, sensorTime: string, readings: seq<Float>)

  /** The tier named by a subject line, if it has the expected prefix. */
  function SubjectTier(subject: string): Option<string> {
    if |SubjectPrefix| <= |subject| && subject[..|SubjectPrefix|] == SubjectPrefix
    then Some(subject[|SubjectPrefix|..]) else None
  }

  /**
   * `build_email_text(mode_risk, mode_cluster, latest)`: fails exactly when `to_ist` of the
   * latest `created_at` fails, with the same error; otherwise the subject names the tier
   * and the body carries the IST time and the latest readings.
   */
  function BuildEmailText(modeRisk: string, modeCluster: int, latest: Row): (r: Result<Email>)
    ensures r.Err? <==> ToIst(latest.createdAt).Err?
    ensures r.Err? ==> r.error == ToIst(latest.createdAt).error
    ensures r.Ok? ==> SubjectTier(r.value.subject) == Some(modeRisk) && r.value.risk == modeRisk
    ensures r.Ok? ==> r.value.sensorTime == ToIst(latest.createdAt).value && r.value.readings == Features(latest)
  {
    var sensorTimeIst :- ToIst(latest.createdAt);
    var subject := SubjectPrefix + modeRisk;
    assert subject[..|SubjectPrefix|] == SubjectPrefix;
    Ok(Email(subject, modeRisk, sensorTimeIst, Features(latest)))
  }
}
