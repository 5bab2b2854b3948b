/** The JSON bridge of the string-valued metric
    (internal/metric/metricconnector.go): MConnector is the JSON shape, with
    a pointer to an int64 for a counter and to a float64 for a gauge; a nil
    pointer is None. Encoding an MConnector to JSON is not part of this
    module. */
module MetricConnector {
  import opened Wrappers
  import opened GoLib
  import opened StringMetric

  datatype MConnector = MConnector(id: string, mType: string, delta: Option<Int64>, value: Option<Float64>)

  /** MConnect of a metric holding `name`, `mType` and `value`: the name
      and type unchanged; a counter's text as an int64 Delta, a gauge's as
      a float64 Value; another type gets neither. Text that does not parse
      is an error. */
  function MConnect(name: string, mType: string, value: string, codec: FloatCodec): (r: Result<MConnector>)
    ensures r.Ok? <==>
      && (mType == Counter ==> ParseInt(value).Some?)
      && (mType == Gauge ==> codec.parse(value).Some?)
    ensures r.Ok? ==> r.value.id == name && r.value.mType == mType
    ensures r.Ok? ==> (r.value.delta.Some? <==> mType == Counter) && (r.value.value.Some? <==> mType == Gauge)
    ensures r.Ok? && mType == Counter ==> r.value.delta == ParseInt(value)
    ensures r.Ok? && mType == Gauge ==> r.value.value == codec.parse(value)
    ensures r.Err? && mType == Counter ==> r.msg == ParseIntError(value)
    ensures r.Err? && mType == Gauge ==> r.msg == ParseFloatError(codec, value)
  {
    var mc := MConnector(name, mType, None, None);
    if mType == Counter then
      match ParseInt(value)
      case None => Err(ParseIntError(value))
      case Some(d) => Ok(mc.(delta := Some(d)))
    else if mType == Gauge then
      match codec.parse(value)
      case None => Err(ParseFloatError(codec, value))
      case Some(v) => Ok(mc.(value := Some(v)))
    else Ok(mc)
  }

  /** Whatever NewMetric accepts MConnect converts. */
  lemma AcceptableConnects(name: string, mType: string, value: string, codec: FloatCodec)
    requires Acceptable(name, mType, value, codec)
    ensures MConnect(name, mType, value, codec).Ok?
  {
  }

  /** What comes of MDisConnect as written: the fields of the metric it
      builds, an error, or a nil-pointer panic. */
  datatype DisConnection = Built(r: Result<(string, string, string)>) | NilDereference

  /** MDisConnect as written: a counter's `*mC.Delta` and a gauge's
      `*mC.Value` are dereferenced without a nil check. */
  function MDisConnectAsWritten(mc: MConnector, codec: FloatCodec): DisConnection {
    if mc.id == "" then Built(Err("bad metric name"))
    else if mc.mType == Counter then
      if mc.delta.None? then NilDereference else Built(DisConnected(mc, codec))
    else if mc.mType == Gauge then
      if mc.value.None? then NilDereference else Built(DisConnected(mc, codec))
    else Built(Err("bad metric value"))
  }

  /** A counter line with no "delta" (or a gauge line with no "value")
      decodes to a nil pointer, and MDisConnect as written panics on it. */
  lemma MDisConnectNilDelta(codec: FloatCodec)
    ensures MDisConnectAsWritten(MConnector("PollCount", Counter, None, None), codec) == NilDereference
    ensures MDisConnectAsWritten(MConnector("Alloc", Gauge, None, None), codec) == NilDereference
  {
  }

  /** MDisConnect with the missing nil checks: the name, type and value
      text of the metric it builds, or its error. A counter's value is
      FormatInt of its Delta, a gauge's FormatFloat(v, 'f', 10, 64) of its
      Value, which must parse back. */
  function DisConnected(mc: MConnector, codec: FloatCodec): (r: Result<(string, string, string)>)
    ensures r.Ok? <==>
      && mc.id != "" && (mc.mType == Counter || mc.mType == Gauge)
      && (mc.mType == Counter ==> mc.delta.Some?)
      && (mc.mType == Gauge ==> mc.value.Some? && codec.parse(codec.formatFixed10(mc.value.value)).Some?)
    ensures r.Ok? ==> r.value.0 == mc.id && r.value.1 == mc.mType
    ensures r.Ok? && mc.mType == Counter ==> ParseInt(r.value.2) == mc.delta
    ensures r.Ok? ==> Acceptable(r.value.0, r.value.1, r.value.2, codec)
  {
    if mc.id == "" then Err("bad metric name")
    else if mc.mType == Counter then
      if mc.delta.None? then Err("bad counter value")
      else
        ParseFormatInt(mc.delta.value);
        Ok((mc.id, Counter, FormatInt(mc.delta.value)))
    else if mc.mType == Gauge then
      if mc.value.None? then Err("bad gauge value")
      else
        var value := codec.formatFixed10(mc.value.value);
        if codec.parse(value).None? then Err("bad counter value") else Ok((mc.id, Gauge, value))
    else Err("bad metric value")
  }

  /** Where the pointers its type needs are present, the corrected
      MDisConnect does what the code does. */
  lemma MDisConnectAgrees(mc: MConnector, codec: FloatCodec)
    requires mc.mType == Counter ==> mc.delta.Some?
    requires mc.mType == Gauge ==> mc.value.Some?
    ensures MDisConnectAsWritten(mc, codec) == Built(DisConnected(mc, codec))
  {
  }

  /** MDisConnect: a fresh metric with DisConnected's fields, or its error. */
  method MDisConnect(mc: MConnector, codec: FloatCodec) returns (m: Metric?, err: GoError)
    ensures err == Nil <==> DisConnected(mc, codec).Ok?
    ensures err == Nil ==> m != null && fresh(m) && m.GetParams() == DisConnected(mc, codec).value
    ensures err != Nil ==> m == null
  {
    var r := DisConnected(mc, codec);
    if r.Err? {
      return null, Error(r.msg);
    }
    m := new Metric(r.value.0, r.value.1, r.value.2);
    err := Nil;
  }

  /** A counter survives the bridge both ways: MConnect of what MDisConnect
      builds is the connector again (without a Value). */
  lemma CounterRoundTrip(mc: MConnector, codec: FloatCodec)
    requires mc.id != "" && mc.mType == Counter && mc.delta.Some?
    ensures DisConnected(mc, codec).Ok?
    ensures var (name, mType, value) := DisConnected(mc, codec).value;
      MConnect(name, mType, value, codec) == Ok(mc.(value := None))
  {
  }

  /** Canonical counter text survives the other way round: MDisConnect of
      what MConnect gives is the metric's own text. */
  lemma CounterTextRoundTrip(name: string, value: string, codec: FloatCodec)
    requires name != "" && CanonicalDecimal(value) && ParseInt(value).Some?
    ensures MConnect(name, Counter, value, codec).Ok?
    ensures DisConnected(MConnect(name, Counter, value, codec).value, codec) == Ok((name, Counter, value))
  {
    FormatParseInt(value);
  }
}
