/** The earlier numeric server store (internal/storages/memstorage/memstorage.go):
    a float64 per gauge name and an int64 per counter name, updated from
    text. The Go zero value of the store has nil maps, which Init replaces
    by empty ones; writing to a nil map panics, so the maps here are
    Options with None for nil. The RWMutex is not part of the model. */
module NumericStorage {
  import opened Wrappers
  import opened GoLib

  /** How an update ends: it returns its error, or it panics writing to a
      nil map (the store was never initialised). */
  datatype Outcome = Finished(err: GoError) | NilMapWrite

  /** checkGaugeValue: the float64 the text parses to, or the parse error. */
  function CheckGaugeValue(value: string, codec: FloatCodec): (r: Result<Float64>)
    ensures r.Ok? <==> codec.parse(value).Some?
    ensures r.Ok? ==> r.value == codec.parse(value).value
    ensures r.Err? ==> r.msg == ParseFloatError(codec, value)
  {
    match codec.parse(value)
    case None => Err(ParseFloatError(codec, value))
    case Some(f) => Ok(f)
  }

  /** checkCounterValue: the int64 the text parses to in base 10, or the
      parse error. */
  function CheckCounterValue(value: string): (r: Result<Int64>)
    ensures r.Ok? <==> ParseInt(value).Some?
    ensures r.Ok? ==> r.value == ParseInt(value).value
    ensures r.Err? ==> r.msg == ParseIntError(value)
  {
    match ParseInt(value)
    case None => Err(ParseIntError(value))
    case Some(n) => Ok(n)
  }

  /** The gauge map after `gauge[name] = value`. */
  function SetGauge(g: map<string, Float64>, name: string, v: Float64): (r: map<string, Float64>)
    ensures r.Keys == g.Keys + {name} && r[name] == v
    ensures forall k :: k in g && k != name ==> r[k] == g[k]
  {
    g[name := v]
  }

  /** The counter map after adding `v` under `name`: `val + v` (wrapping)
      when the name is present, `v` when it is absent. */
  function AddCount(c: map<string, Int64>, name: string, v: Int64): (r: map<string, Int64>)
    ensures r.Keys == c.Keys + {name}
    ensures r[name] == if name in c then AddWrap(c[name], v) else v
    ensures forall k :: k in c && k != name ==> r[k] == c[k]
  {
    if name in c then c[name := AddWrap(c[name], v)] else c[name := v]
  }

  /** UpdateGauge's effect on the gauge map and its outcome: the name is
      checked first, then the value, and only then is the map written. */
  function GaugeUpdate(g: Option<map<string, Float64>>, name: string, value: string, codec: FloatCodec)
    : (r: (Option<map<string, Float64>>, Outcome))
    ensures r.1 == Finished(Nil) <==> name != "" && codec.parse(value).Some? && g.Some?
    ensures r.1 != Finished(Nil) ==> r.0 == g
    ensures name == "" ==> r.1 == Finished(Error("invalid gauge metric name"))
    ensures name != "" && codec.parse(value).None? ==> r.1 == Finished(Error(ParseFloatError(codec, value)))
    ensures name != "" && codec.parse(value).Some? && g.None? ==> r.1 == NilMapWrite
    ensures r.1 == Finished(Nil) ==> r.0 == Some(SetGauge(g.value, name, codec.parse(value).value))
  {
    if name == "" then (g, Finished(Error("invalid gauge metric name")))
    else
      match CheckGaugeValue(value, codec)
      case Err(msg) => (g, Finished(Error(msg)))
      case Ok(f) =>
        match g
        case None => (g, NilMapWrite)
        case Some(m) => (Some(m[name := f]), Finished(Nil))
  }

  /** UpdateCounter's effect on the counter map and its outcome. */
  function CounterUpdate(c: Option<map<string, Int64>>, name: string, value: string)
    : (r: (Option<map<string, Int64>>, Outcome))
    ensures r.1 == Finished(Nil) <==> name != "" && ParseInt(value).Some? && c.Some?
    ensures r.1 != Finished(Nil) ==> r.0 == c
    ensures name == "" ==> r.1 == Finished(Error("invalid counter metric name"))
    ensures name != "" && ParseInt(value).None? ==> r.1 == Finished(Error(ParseIntError(value)))
    ensures name != "" && ParseInt(value).Some? && c.None? ==> r.1 == NilMapWrite
    ensures r.1 == Finished(Nil) ==> r.0 == Some(AddCount(c.value, name, ParseInt(value).value))
  {
    if name == "" then (c, Finished(Error("invalid counter metric name")))
    else
      match CheckCounterValue(value)
      case Err(msg) => (c, Finished(Error(msg)))
      case Ok(n) =>
        match c
        case None => (c, NilMapWrite)
        case Some(m) => (Some(if name in m then m[name := AddWrap(m[name], n)] else m[name := n]), Finished(Nil))
  }

  /** Two int64 additions in either order give the same int64. */
  lemma AddWrapSwap(x: Int64, v: Int64, w: Int64)
    ensures AddWrap(AddWrap(x, v), w) == AddWrap(AddWrap(x, w), v)
  {
    WrapAddWrap(x + v, w);
    WrapAddWrap(x + w, v);
    assert x + v + w == x + w + v;
  }

  /** Counter updates commute: the map two increments leave does not depend
      on the order they were made in, so concurrent requests serialised by
      the lock in either order agree. */
  lemma AddCountCommutes(c: map<string, Int64>, a: string, v: Int64, b: string, w: Int64)
    ensures AddCount(AddCount(c, a, v), b, w) == AddCount(AddCount(c, b, w), a, v)
  {
    if a == b {
      if a in c {
        AddWrapSwap(c[a], v, w);
      } else {
        AddWrapSwap(0, v, w);
      }
    } else {
      var left := AddCount(AddCount(c, a, v), b, w);
      var right := AddCount(AddCount(c, b, w), a, v);
      assert left.Keys == right.Keys;
      assert forall k :: k in left ==> left[k] == right[k];
    }
  }

  /** The total of the increments made to a name. */
  function Total(incs: seq<(string, Int64)>, name: string): int {
    if incs == [] then 0
    else
      var n := |incs| - 1;
      Total(incs[..n], name) + (if incs[n].0 == name then incs[n].1 as int else 0)
  }

  lemma {:induction false} TotalAbsent(incs: seq<(string, Int64)>, name: string)
    requires forall i :: 0 <= i < |incs| ==> incs[i].0 != name
    ensures Total(incs, name) == 0
  {
    if incs != [] {
      var n := |incs| - 1;
      assert forall i :: 0 <= i < n ==> incs[..n][i] == incs[i];
      TotalAbsent(incs[..n], name);
    }
  }

  /** A series of increments applied in order. */
  function AddAll(c: map<string, Int64>, incs: seq<(string, Int64)>): map<string, Int64> {
    if incs == [] then c else AddCount(AddAll(c, incs[..|incs| - 1]), incs[|incs| - 1].0, incs[|incs| - 1].1)
  }

  /** From an initialised empty map, a counter holds the wrapped total of
      its increments, and exactly the names incremented at least once are
      present. */
  lemma {:induction false} AddAllTotal(incs: seq<(string, Int64)>, name: string)
    ensures name in AddAll(map[], incs) <==> exists i :: 0 <= i < |incs| && incs[i].0 == name
    ensures name in AddAll(map[], incs) ==> AddAll(map[], incs)[name] == Wrap(Total(incs, name))
  {
    if incs != [] {
      var n := |incs| - 1;
      var before := AddAll(map[], incs[..n]);
      AddAllTotal(incs[..n], name);
      if incs[n].0 == name {
        if name in before {
          WrapAddWrap(Total(incs[..n], name), incs[n].1);
        } else {
          TotalAbsent(incs[..n], name);
        }
      } else {
        if name in AddAll(map[], incs) {
          var i :| 0 <= i < |incs| && incs[i].0 == name;
          assert i < n && incs[..n][i] == incs[i];
        }
      }
      if exists i :: 0 <= i < n && incs[i].0 == name {
        var i :| 0 <= i < n && incs[i].0 == name;
        assert incs[..n][i] == incs[i];
      }
    }
  }

  /** Updating by "40" twice reads back 80. */
  lemma CounterFortyTwice(name: string)
    requires name != ""
    ensures var (c1, o1) := CounterUpdate(Some(map[]), name, "40");
      var (c2, o2) := CounterUpdate(c1, name, "40");
      o1 == o2 == Finished(Nil) && c2 == Some(map[name := 80])
  {
    assert DigitsValue("40") == 40 by {
      assert "40"[..1] == "4" && "4"[..0] == "";
    }
    assert ParseInt("40") == Some(40);
    var c1 := map[name := 40];
    assert CounterUpdate(Some(map[]), name, "40") == (Some(c1), Finished(Nil));
    assert AddCount(c1, name, 40) == map[name := 80];
  }

  class InMemoryStorage {
    var gauge: Option<map<string, Float64>>
    var counter: Option<map<string, Int64>>

    /** `InMemoryStorage{}`: the zero value, with nil maps. */
    constructor ()
      ensures gauge == None && counter == None
    {
      gauge := None;
      counter := None;
    }

    /** Init: empty gauge and counter maps, replacing whatever was held. */
    method Init()
      modifies this
      ensures gauge == Some(map[]) && counter == Some(map[])
    {
      gauge := Some(map[]);
      counter := Some(map[]);
    }

    /** UpdateGauge: GaugeUpdate's change to the gauge map, the counter map
        untouched. */
    method UpdateGauge(name: string, value: string, codec: FloatCodec) returns (outcome: Outcome)
      modifies this
      ensures (gauge, outcome) == GaugeUpdate(old(gauge), name, value, codec)
      ensures counter == old(counter)
    {
      if name == "" {
        return Finished(Error("invalid gauge metric name"));
      }
      var float64Value := CheckGaugeValue(value, codec);
      if float64Value.Err? {
        return Finished(Error(float64Value.msg));
      }
      if gauge.None? {
        return NilMapWrite;
      }
      gauge := Some(gauge.value[name := float64Value.value]);
      return Finished(Nil);
    }

    /** UpdateCounter: CounterUpdate's change to the counter map, the gauge
        map untouched. */
    method UpdateCounter(name: string, value: string) returns (outcome: Outcome)
      modifies this
      ensures (counter, outcome) == CounterUpdate(old(counter), name, value)
      ensures gauge == old(gauge)
    {
      if name == "" {
        return Finished(Error("invalid counter metric name"));
      }
      var int64Value := CheckCounterValue(value);
      if int64Value.Err? {
        return Finished(Error(int64Value.msg));
      }
      if counter.None? {
        return NilMapWrite;
      }
      var m := counter.value;
      if name in m {
        counter := Some(m[name := AddWrap(m[name], int64Value.value)]);
      } else {
        counter := Some(m[name := int64Value.value]);
      }
      return Finished(Nil);
    }
  }
}
