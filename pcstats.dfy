/** The metric value type of the store and the agent (internal/pcstats/metric.go).

    A Metric carries an ID, a type name and two pointers, `Delta *int64` for
    counters and `Value *float64` for gauges. The pointers are kept: a
    pointee is an `Int64Cell` or a `Float64Cell` object, so updating a metric
    writes through the pointer and two metrics may share one pointee, as
    they do in Go. */
module PcStats {
  import opened Wrappers
  import opened GoLib

  const Gauge: string := "gauge"
  const Counter: string := "counter"

  /** The int64 a `*int64` points to. */
  class Int64Cell {
    var val: Int64

    constructor (v: Int64)
      ensures val == v
    {
      val := v;
    }
  }

  /** The float64 a `*float64` points to. */
  class Float64Cell {
    var val: Float64

    constructor (v: Float64)
      ensures val == v
    {
      val := v;
    }
  }

  datatype Metric = Metric(id: string, mType: string, delta: Int64Cell?, value: Float64Cell?)

  /** A metric with its pointers followed: what its JSON encoding
      `{"id", "type", "delta", "value"}` carries (an absent field is None). */
  datatype Record = Record(id: string, mType: string, delta: Option<Int64>, value: Option<Float64>)

  /** The pointees a metric refers to. */
  function Cells(m: Metric): set<object?> {
    {m.delta, m.value}
  }

  function View(m: Metric): Record
    reads Cells(m)
  {
    Record(m.id, m.mType,
      if m.delta == null then None else Some(m.delta.val),
      if m.value == null then None else Some(m.value.val))
  }

  /** The names of a slice of metrics, in order. */
  function Ids(ms: seq<Metric>): (ids: seq<string>)
    ensures |ids| == |ms| && forall i :: 0 <= i < |ms| ==> ids[i] == ms[i].id
  {
    seq(|ms|, i requires 0 <= i < |ms| => ms[i].id)
  }

  // ---------------------------------------------------------------- checks

  function CheckMetricName(name: string): (err: GoError)
    ensures err == Nil <==> name != ""
  {
    if name == "" then Error("ivalid metric name: " + name) else Nil
  }

  function CheckMetricType(typeName: string): (err: GoError)
    ensures err == Nil <==> typeName == Gauge || typeName == Counter
  {
    if typeName == Counter || typeName == Gauge then Nil
    else Error("invalid metric type: " + typeName)
  }

  function CheckMetricValueGauge(value: Float64Cell?): (err: GoError)
    ensures err == Nil <==> value != null
  {
    if value == null then Error("metric type is Gauge and no value provided for Gauge") else Nil
  }

  function CheckMetricValueCounter(value: Int64Cell?): (err: GoError)
    ensures err == Nil <==> value != null
  {
    if value == null then Error("metric type is Counter and no value provided for Counter") else Nil
  }

  // ---------------------------------------------------------- construction

  /** NewMetric: validates name, type and the pointer the type uses, and keeps
      only that pointer. */
  function NewMetric(typeName: string, name: string, gaugeValue: Float64Cell?, counterValue: Int64Cell?): (r: Result<Metric>)
    ensures r.Ok? <==>
      name != "" &&
      ((typeName == Gauge && gaugeValue != null) || (typeName == Counter && counterValue != null))
    ensures r.Ok? && typeName == Gauge ==> r.value == Metric(name, Gauge, null, gaugeValue)
    ensures r.Ok? && typeName == Counter ==> r.value == Metric(name, Counter, counterValue, null)
  {
    if CheckMetricName(name).Error? then Err(CheckMetricName(name).msg)
    else if CheckMetricType(typeName).Error? then Err(CheckMetricType(typeName).msg)
    else if typeName == Gauge then
      if CheckMetricValueGauge(gaugeValue).Error? then Err(CheckMetricValueGauge(gaugeValue).msg)
      else Ok(Metric(name, typeName, null, gaugeValue))
    else
      if CheckMetricValueCounter(counterValue).Error? then Err(CheckMetricValueCounter(counterValue).msg)
      else Ok(Metric(name, typeName, counterValue, null))
  }

  /** StoI64: the parsed int64 in a freshly allocated pointee. */
  method StoI64(value: string) returns (r: Result<Int64Cell>)
    ensures r.Ok? <==> ParseInt(value).Some?
    ensures r.Ok? ==> fresh(r.value) && r.value.val == ParseInt(value).value
    ensures r.Err? ==> r.msg == ParseIntError(value)
  {
    match ParseInt(value)
    case None =>
      r := Err(ParseIntError(value));
    case Some(v) =>
      var cell := new Int64Cell(v);
      r := Ok(cell);
  }

  /** StoF64: the parsed float64 in a freshly allocated pointee. */
  method StoF64(value: string, codec: FloatCodec) returns (r: Result<Float64Cell>)
    ensures r.Ok? <==> codec.parse(value).Some?
    ensures r.Ok? ==> fresh(r.value) && r.value.val == codec.parse(value).value
    ensures r.Err? ==> r.msg == ParseFloatError(codec, value)
  {
    match codec.parse(value)
    case None =>
      r := Err(ParseFloatError(codec, value));
    case Some(v) =>
      var cell := new Float64Cell(v);
      r := Ok(cell);
  }

  /** NewMetricFromString: like NewMetric, with the value given as text and
      parsed into a fresh pointee. */
  method NewMetricFromString(typeName: string, name: string, value: string, codec: FloatCodec)
    returns (r: Result<Metric>)
    ensures r.Ok? <==>
      name != "" &&
      ((typeName == Gauge && codec.parse(value).Some?) || (typeName == Counter && ParseInt(value).Some?))
    ensures r.Ok? && typeName == Counter ==>
      && r.value.id == name && r.value.mType == Counter && r.value.value == null
      && r.value.delta != null && fresh(r.value.delta) && r.value.delta.val == ParseInt(value).value
    ensures r.Ok? && typeName == Gauge ==>
      && r.value.id == name && r.value.mType == Gauge && r.value.delta == null
      && r.value.value != null && fresh(r.value.value) && r.value.value.val == codec.parse(value).value
    ensures r.Err? && name != "" && typeName == Counter ==> r.msg == ParseIntError(value)
    ensures r.Err? && name != "" && typeName == Gauge ==> r.msg == ParseFloatError(codec, value)
  {
    if CheckMetricName(name).Error? {
      return Err(CheckMetricName(name).msg);
    }
    if CheckMetricType(typeName).Error? {
      return Err(CheckMetricType(typeName).msg);
    }
    if typeName == Gauge {
      var parsed := StoF64(value, codec);
      if parsed.Err? {
        return Err(parsed.msg);
      }
      r := Ok(Metric(name, typeName, null, parsed.value));
    } else {
      var parsed := StoI64(value);
      if parsed.Err? {
        return Err(parsed.msg);
      }
      r := Ok(Metric(name, typeName, parsed.value, null));
    }
  }

  // -------------------------------------------------------------- updates

  /** UpdateGauge: refused for a counter or a nil Value; otherwise the pointee
      of Value takes the new value. */
  method UpdateGauge(m: Metric, value: Float64) returns (err: GoError)
    modifies m.value
    ensures err == Nil <==> m.mType != Counter && m.value != null
    ensures m.value != null ==> m.value.val == if err == Nil then value else old(m.value.val)
  {
    if m.mType == Counter {
      return Error("cannot update gauge in counter metric");
    }
    if m.value != null {
      m.value.val := value;
      return Nil;
    }
    return Error("metric value is nil");
  }

  /** IncrementCounter: refused for a gauge or a nil Delta; otherwise the
      pointee of Delta grows by `value` (int64 wrap-around). */
  method IncrementCounter(m: Metric, value: Int64) returns (err: GoError)
    modifies m.delta
    ensures err == Nil <==> m.mType != Gauge && m.delta != null
    ensures m.delta != null ==>
      m.delta.val == if err == Nil then AddWrap(old(m.delta.val), value) else old(m.delta.val)
  {
    if m.mType == Gauge {
      return Error("cannot update gauge in counter metric");
    }
    if m.delta != null {
      m.delta.val := AddWrap(m.delta.val, value);
      return Nil;
    }
    return Error("metric value is nil");
  }

  // ------------------------------------------------------------- accessors

  /** GetGauge: the Value pointer, possibly nil, exactly when the type is gauge. */
  function GetGauge(m: Metric): (r: Result<Float64Cell?>)
    ensures r.Ok? <==> m.mType == Gauge
    ensures r.Ok? ==> r.value == m.value
  {
    if m.mType == Gauge then Ok(m.value)
    else Err("metric of type " + m.mType + " has no Counter value")
  }

  /** GetCounter: the Delta pointer, possibly nil, exactly when the type is counter. */
  function GetCounter(m: Metric): (r: Result<Int64Cell?>)
    ensures r.Ok? <==> m.mType == Counter
    ensures r.Ok? ==> r.value == m.delta
  {
    if m.mType == Counter then Ok(m.delta)
    else Err("metric of type " + m.mType + " has no Gauge value")
  }

  /** The pointer a metric's type uses is set (GetStringValue dereferences it). */
  predicate Renderable(m: Metric) {
    (m.mType == Gauge ==> m.value != null) && (m.mType == Counter ==> m.delta != null)
  }

  /** GetStringValue: the value as text, for gauges and counters only.
      A nil pointer of the metric's own type would be dereferenced (a panic),
      hence the requirement. */
  function GetStringValue(m: Metric, codec: FloatCodec): (r: Result<string>)
    requires Renderable(m)
    reads Cells(m)
    ensures r.Ok? <==> m.mType == Gauge || m.mType == Counter
    ensures m.mType == Gauge ==> r == Ok(codec.formatShortest(m.value.val))
    ensures m.mType == Counter ==> r == Ok(FormatInt(m.delta.val))
    ensures r.Err? ==> r.msg == "unhandled error"
  {
    if m.mType == Gauge then Ok(codec.formatShortest(m.value.val))
    else if m.mType == Counter then Ok(FormatInt(m.delta.val))
    else Err("unhandled error")
  }

  /** A counter's text reads back as the counter's value. */
  lemma CounterTextParses(m: Metric, codec: FloatCodec)
    requires m.mType == Counter && m.delta != null
    ensures GetStringValue(m, codec).Ok?
    ensures ParseInt(GetStringValue(m, codec).value) == Some(m.delta.val)
  {
    ParseFormatInt(m.delta.val);
  }

  /** Canonical decimal counter text round-trips: a counter holding what
      StoI64 parsed from canonical text prints that same text. */
  lemma CounterTextRoundTrip(text: string, m: Metric, codec: FloatCodec)
    requires CanonicalDecimal(text) && ParseInt(text).Some?
    requires m.mType == Counter && m.delta != null && m.delta.val == ParseInt(text).value
    ensures GetStringValue(m, codec) == Ok(text)
  {
    FormatParseInt(text);
  }
}
