/**
 * Feed normalization: each ThingSpeak feed record becomes a row of six readings
 * (`safe_float` of `field1` .. `field6`) plus its untouched `created_at` value.
 */
module Feed {
  import opened Base

  /**
   * A Python float: a finite value (taken as an exact real), NaN, or an infinity.
   * `float("nan")`, `float("inf")` and `float("1e400")` return the non-finite ones
   * without raising, and the JSON literals `NaN` and `Infinity` decode to them.
   */
  datatype Float = Finite(value: real) | NaN | Inf(negative: bool)

  /** A JSON value of a feed record; `Composite` stands for arrays and objects. */
  datatype Json = Null | Bool(b: bool) | Number(x: Float) | Text(s: string) | Composite

  /** One element of the `feeds` list: a JSON object. */
  type FeedRecord = map<string, Json>

  /**
   * Python's `float()` grammar for strings, as a partial parser supplied from outside:
   * `Some(v)` when the text converts (possibly to NaN or an infinity), `None` when
   * `float` raises.
   */
  type FloatParser = string -> Option<Float>

  /** `f.get(key)`: a missing key reads as `None`, like a JSON null. */
  function Get(f: FeedRecord, key: string): (v: Json)
    ensures key in f ==> v == f[key]
    ensures key !in f ==> v == Null
  {
    if key in f then f[key] else Null
  }

  /** `float(v)`: `None` where Python raises (TypeError for None and containers, ValueError for bad text). */
  function ToFloat(v: Json, parse: FloatParser): (r: Option<Float>)
    ensures r.None? <==> v.Null? || v.Composite? || (v.Text? && parse(v.s).None?)
    ensures v.Bool? ==> r == Some(Finite(if v.b then 1.0 else 0.0))
    ensures v.Number? ==> r == Some(v.x)
  {
    match v
    case Null => None
    case Bool(b) => Some(Finite(if b then 1.0 else 0.0))
    case Number(x) => Some(x)
    case Text(s) => parse(s)
    case Composite => None
  }

  /** The `0.0` that `safe_float` substitutes. */
  const Zero := Finite(0.0)

  /**
   * `safe_float(v)`: the converted value (NaN and infinities included), or 0.0 whenever
   * the conversion raises.
   */
  function SafeFloat(v: Json, parse: FloatParser): (r: Float)
    ensures ToFloat(v, parse) == Some(r) || (ToFloat(v, parse) == None && r == Zero)
    ensures v.Null? || v.Composite? ==> r == Zero
    ensures v.Number? ==> r == v.x
    ensures v.Text? && parse(v.s).None? ==> r == Zero
    ensures v.Text? && parse(v.s).Some? ==> r == parse(v.s).value
  {
    match ToFloat(v, parse)
    case Some(x) => x
    case None => Zero
  }

  /** A row of the DataFrame built at the top of the run. */
  datatype Row = Row(createdAt: Json, temp: Float, humidity: Float, pressure: Float, dust: Float, co2: Float, tvoc: Float)

  /** The feed fields that carry the six readings, in the order of the row's columns. */
  const ReadingFields: seq<string> := ["field1", "field2", "field3", "field4", "field5", "field6"]

  /** `df[["temp", "humidity", "pressure", "dust", "co2", "tvoc"]]` for one row: the model's input order. */
  function Features(row: Row): (v: seq<Float>)
    ensures |v| == |ReadingFields|
  {
    [row.temp, row.humidity, row.pressure, row.dust, row.co2, row.tvoc]
  }

  /** The row appended for one feed record. */
  function NormalizeRecord(f: FeedRecord, parse: FloatParser): (row: Row)
    ensures row.createdAt == Get(f, "created_at")
    ensures forall k :: 0 <= k < |ReadingFields| ==> Features(row)[k] == SafeFloat(Get(f, ReadingFields[k]), parse)
  {
    Row(Get(f, "created_at"),
        SafeFloat(Get(f, "field1"), parse), SafeFloat(Get(f, "field2"), parse),
        SafeFloat(Get(f, "field3"), parse), SafeFloat(Get(f, "field4"), parse),
        SafeFloat(Get(f, "field5"), parse), SafeFloat(Get(f, "field6"), parse))
  }

  /** The rows of a feed list: one per record, in feed order. */
  function Rows(feeds: seq<FeedRecord>, parse: FloatParser): (rows: seq<Row>)
    ensures |rows| == |feeds|
    ensures forall i :: 0 <= i < |feeds| ==> rows[i] == NormalizeRecord(feeds[i], parse)
  {
    seq(|feeds|, i requires 0 <= i < |feeds| => NormalizeRecord(feeds[i], parse))
  }

  /** The `for f in feeds: rows.append(...)` loop. */
  method BuildRows(feeds: seq<FeedRecord>, parse: FloatParser) returns (rows: seq<Row>)
    ensures |rows| == |feeds|
    ensures forall i :: 0 <= i < |feeds| ==> rows[i] == NormalizeRecord(feeds[i], parse)
  {
    rows := [];
    for i := 0 to |feeds|
      invariant |rows| == i
      invariant forall j :: 0 <= j < i ==> rows[j] == NormalizeRecord(feeds[j], parse)
    {
      rows := rows + [NormalizeRecord(feeds[i], parse)];
    }
  }

  /** The feature matrix `X`: one six-column row per feed record, in feed order. */
  function FeatureMatrix(rows: seq<Row>): (x: seq<seq<Float>>)
    ensures |x| == |rows|
    ensures forall i :: 0 <= i < |rows| ==> x[i] == Features(rows[i])
  {
    seq(|rows|, i requires 0 <= i < |rows| => Features(rows[i]))
  }

  /**
   * When all six fields of a record convert, its feature row holds exactly the converted
   * values of field1 .. field6, in that order.
   */
  lemma NormalizeRoundTrip(f: FeedRecord, parse: FloatParser, values: seq<Float>)
    requires |values| == |ReadingFields|
    requires forall k :: 0 <= k < |ReadingFields| ==> ToFloat(Get(f, ReadingFields[k]), parse) == Some(values[k])
    ensures Features(NormalizeRecord(f, parse)) == values
  {
  }

  /** A record whose readings are all missing or unusable still yields a row, of zeros. */
  lemma DegenerateRecord(f: FeedRecord, parse: FloatParser)
    requires forall k :: 0 <= k < |ReadingFields| ==> ToFloat(Get(f, ReadingFields[k]), parse).None?
    ensures Features(NormalizeRecord(f, parse)) == [Zero, Zero, Zero, Zero, Zero, Zero]
  {
  }
}
