/** The string-valued metric of the older server store
    (internal/metric/metric.go): a name, a type and the value as text.

    A value is accepted when it is a float64 (gauge) or an int64 (counter)
    in Go's syntax; parsing a float is the parameter `codec.parse`, while
    int64 text is GoLib's exact ParseInt / FormatInt. */
module StringMetric {
  import opened Wrappers
  import opened GoLib

  const Counter: string := "counter"
  const Gauge: string := "gauge"

  /** checkGaugeValue: the value must parse as a float64. */
  function CheckGaugeValue(value: string, codec: FloatCodec): (err: GoError)
    ensures err == Nil <==> codec.parse(value).Some?
    ensures err != Nil ==> err == Error(ParseFloatError(codec, value))
  {
    if codec.parse(value).Some? then Nil else Error(ParseFloatError(codec, value))
  }

  /** checkCounterValue: the value must parse as a base-10 int64. */
  function CheckCounterValue(value: string): (err: GoError)
    ensures err == Nil <==> ParseInt(value).Some?
    ensures err != Nil ==> err == Error(ParseIntError(value))
  {
    if ParseInt(value).Some? then Nil else Error(ParseIntError(value))
  }

  /** Whether NewMetric accepts these fields: a non-empty name (the only
      thing checkMetricName asks), a gauge whose text parses as a float64 or
      a counter whose text parses as an int64. */
  predicate Acceptable(name: string, mType: string, value: string, codec: FloatCodec) {
    && name != ""
    && ((mType == Gauge && codec.parse(value).Some?) || (mType == Counter && ParseInt(value).Some?))
  }

  /** The error NewMetric returns: the name is checked first, then the type,
      then the value for that type. */
  function NewMetricError(name: string, mType: string, value: string, codec: FloatCodec): (err: GoError)
    ensures err == Nil <==> Acceptable(name, mType, value, codec)
    ensures name == "" ==> err == Error("error metric name: " + name)
    ensures name != "" && mType != Gauge && mType != Counter ==> err == Error("error metric type: " + mType)
    ensures name != "" && mType == Gauge && err != Nil ==> err == Error(ParseFloatError(codec, value))
    ensures name != "" && mType == Counter && err != Nil ==> err == Error(ParseIntError(value))
  {
    if name == "" then Error("error metric name: " + name)
    else if mType == Gauge then CheckGaugeValue(value, codec)
    else if mType == Counter then CheckCounterValue(value)
    else Error("error metric type: " + mType)
  }

  /** The text UpdateMetric leaves in a metric of type `mType` holding
      `stored` when asked to apply `value`, or the error it returns. */
  function Updated(mType: string, stored: string, value: string, codec: FloatCodec): (r: Result<string>)
    ensures r.Ok? <==>
      && (mType == Gauge ==> codec.parse(value).Some?)
      && (mType == Counter ==> ParseInt(value).Some? && ParseInt(stored).Some?)
    ensures r.Ok? && mType == Gauge ==> r.value == value
    ensures r.Ok? && mType == Counter ==>
      ParseInt(r.value) == Some(AddWrap(ParseInt(stored).value, ParseInt(value).value))
    ensures r.Ok? && mType != Gauge && mType != Counter ==> r.value == stored
    ensures r.Err? && mType == Gauge ==> r.msg == ParseFloatError(codec, value)
    ensures r.Err? && mType == Counter ==>
      r.msg == if ParseInt(value).None? then ParseIntError(value) else ParseIntError(stored)
  {
    if mType == Gauge then
      if CheckGaugeValue(value, codec) == Nil then Ok(value) else Err(CheckGaugeValue(value, codec).msg)
    else if mType == Counter then
      if CheckCounterValue(value) != Nil then Err(CheckCounterValue(value).msg)
      else match ParseInt(stored)
        case None => Err(ParseIntError(stored))
        case Some(counter) =>
          var sum := AddWrap(counter, ParseInt(value).value);
          ParseFormatInt(sum);
          Ok(FormatInt(sum))
    else Ok(stored)
  }

  /** What NewMetric accepts UpdateMetric keeps acceptable: a successful
      update leaves text NewMetric would accept again. */
  lemma UpdatedStaysAcceptable(name: string, mType: string, stored: string, value: string, codec: FloatCodec)
    requires Acceptable(name, mType, stored, codec) && Updated(mType, stored, value, codec).Ok?
    ensures Acceptable(name, mType, Updated(mType, stored, value, codec).value, codec)
  {
  }

  /** The message strconv gives for "x": the input quoted, and the reason. */
  lemma QuotedXText()
    ensures NumErrorText("ParseInt", "x", SyntaxFailure) == "strconv.ParseInt: parsing \"x\": invalid syntax"
  {
    QuotePlain("x");
  }

  /** Counter text that is not a number is refused with Go's own message,
      the input quoted. */
  lemma CounterSyntaxErrorText(codec: FloatCodec)
    ensures NewMetricError("a", Counter, "x", codec) == Error("strconv.ParseInt: parsing \"x\": invalid syntax")
  {
    ParseIntSyntaxFailure("x", 0);
    ParseIntScanAgrees("x");
    var e := ParseIntError("x");
    assert e == NumErrorText("ParseInt", "x", SyntaxFailure);
    QuotedXText();
  }

  /** Updating a counter holding "40" by "40" leaves "80". */
  lemma CounterFortyPlusForty(codec: FloatCodec)
    ensures Updated(Counter, "40", "40", codec) == Ok("80")
  {
    assert DigitsValue("40") == 40 by {
      assert "40"[..1] == "4" && "4"[..0] == "";
    }
    assert ParseInt("40") == Some(40);
    assert FormatNat(80) == "80" by {
      assert FormatNat(8) == "8";
    }
  }

  /** A `*Metric`. */
  class Metric {
    var mType: string
    var mName: string
    var mValue: string

    /** `&Metric{mType: ..., mName: ..., mValue: ...}`. */
    constructor (name: string, t: string, v: string)
      ensures mName == name && mType == t && mValue == v
    {
      mName := name;
      mType := t;
      mValue := v;
    }

    function GetName(): string
      reads this
    {
      mName
    }

    function GetType(): string
      reads this
    {
      mType
    }

    function GetValue(): string
      reads this
    {
      mValue
    }

    /** GetParams: name, type and value, in that order. */
    function GetParams(): (string, string, string)
      reads this
    {
      (mName, mType, mValue)
    }

    /** UpdateMetric: the new value for a gauge, the sum for a counter,
        nothing for another type; an argument or stored text that does not
        parse is an error and changes nothing. */
    method UpdateMetric(value: string, codec: FloatCodec) returns (err: GoError)
      modifies this
      ensures mName == old(mName) && mType == old(mType)
      ensures err == Nil <==> Updated(old(mType), old(mValue), value, codec).Ok?
      ensures mValue == if err == Nil then Updated(old(mType), old(mValue), value, codec).value else old(mValue)
      ensures err != Nil ==> err == Error(Updated(old(mType), old(mValue), value, codec).msg)
    {
      if mType == Gauge {
        err := CheckGaugeValue(value, codec);
        if err != Nil {
          return;
        }
        mValue := value;
      } else if mType == Counter {
        err := CheckCounterValue(value);
        if err != Nil {
          return;
        }
        var counter := ParseInt(mValue);
        if counter.None? {
          return Error(ParseIntError(mValue));
        }
        var counterIncrement := ParseInt(value).value;
        mValue := FormatInt(AddWrap(counter.value, counterIncrement));
      }
      err := Nil;
    }
  }

  /** NewMetric: a fresh metric holding the three strings verbatim, or
      NewMetricError's error and no metric. */
  method NewMetric(name: string, mType: string, value: string, codec: FloatCodec) returns (m: Metric?, err: GoError)
    ensures err == NewMetricError(name, mType, value, codec)
    ensures err == Nil ==> m != null && fresh(m) && m.GetParams() == (name, mType, value)
    ensures err != Nil ==> m == null
  {
    err := NewMetricError(name, mType, value, codec);
    if err != Nil {
      return null, err;
    }
    m := new Metric(name, mType, value);
  }
}
