/** The ordering of `pcstats.Metrics` (internal/pcstats/sorting.go) and the
    two renderers that sort a slice with it before printing it
    (MetricSliceToString and MetricSliceToJSON, internal/pcstats/metric.go).

    Less compares the type names first and the IDs only on a tie, so the
    order is the lexicographic order on (MType, ID) pairs. */
module PcStatsSorting {
  import opened Wrappers
  import opened GoLib
  import opened PcStats
  import GoSort

  type Key = (string, string)

  /** What Less looks at. */
  function SortKey(m: Metric): Key {
    (m.mType, m.id)
  }

  /** Less on sort keys, branch for branch as the method is written. */
  predicate KeyLess(a: Key, b: Key) {
    if StrLess(a.0, b.0) then true
    else if StrLess(b.0, a.0) then false
    else StrLess(a.1, b.1)
  }

  /** `Metrics.Less(i, j)`. */
  predicate Less(m: seq<Metric>, i: int, j: int)
    requires 0 <= i < |m| && 0 <= j < |m|
  {
    KeyLess(SortKey(m[i]), SortKey(m[j]))
  }

  /** Less is the lexicographic order on (type, name): the type decides, and
      the name decides only between metrics of the same type. */
  lemma LessIsTypeThenName(m: seq<Metric>, i: int, j: int)
    requires 0 <= i < |m| && 0 <= j < |m|
    ensures Less(m, i, j) <==>
      StrLess(m[i].mType, m[j].mType) ||
      (m[i].mType == m[j].mType && StrLess(m[i].id, m[j].id))
  {
    var a, b := m[i].mType, m[j].mType;
    if a != b {
      StrLessTotal(a, b);
      if StrLess(b, a) {
        StrLessAsymmetric(b, a);
      }
    } else {
      StrLessIrreflexive(a);
    }
  }

  lemma KeyLessIrreflexive(a: Key)
    ensures !KeyLess(a, a)
  {
    StrLessIrreflexive(a.0);
    StrLessIrreflexive(a.1);
  }

  lemma KeyLessTransitive(a: Key, b: Key, c: Key)
    requires KeyLess(a, b) && KeyLess(b, c)
    ensures KeyLess(a, c)
  {
    KeyLessSplit(a, b);
    KeyLessSplit(b, c);
    KeyLessSplit(a, c);
    StrLessIrreflexive(a.0);
    StrLessIrreflexive(b.0);
    if a.0 == b.0 && b.0 == c.0 {
      StrLessTransitive(a.1, b.1, c.1);
    } else if a.0 == b.0 {
      assert StrLess(b.0, c.0);
    } else if b.0 == c.0 {
      assert StrLess(a.0, b.0);
    } else {
      StrLessTransitive(a.0, b.0, c.0);
    }
  }

  lemma KeyLessTotal(a: Key, b: Key)
    requires a != b
    ensures KeyLess(a, b) || KeyLess(b, a)
  {
    KeyLessSplit(a, b);
    KeyLessSplit(b, a);
    if a.0 != b.0 {
      StrLessTotal(a.0, b.0);
    } else {
      StrLessTotal(a.1, b.1);
    }
  }

  /** KeyLess on pairs as the lexicographic order. */
  lemma KeyLessSplit(a: Key, b: Key)
    ensures KeyLess(a, b) <==> StrLess(a.0, b.0) || (a.0 == b.0 && StrLess(a.1, b.1))
  {
    if a.0 != b.0 {
      StrLessTotal(a.0, b.0);
      if StrLess(b.0, a.0) {
        StrLessAsymmetric(b.0, a.0);
      }
    } else {
      StrLessIrreflexive(a.0);
    }
  }

  /** Less is a strict total order on (type, name) pairs, so in particular
      the strict weak order sort.Sort needs. */
  lemma KeyLessIsStrictWeakOrder()
    ensures GoSort.StrictWeakOrder(KeyLess)
  {
    forall x: Key, y: Key | KeyLess(x, y) ensures !KeyLess(y, x) {
      if KeyLess(y, x) {
        KeyLessTransitive(x, y, x);
        KeyLessIrreflexive(x);
      }
    }
    forall x: Key, y: Key, z: Key | !KeyLess(y, x) && !KeyLess(z, y) ensures !KeyLess(z, x) {
      if KeyLess(z, x) {
        if x == y {
        } else {
          KeyLessTotal(x, y);
          KeyLessTransitive(z, x, y);
        }
      }
    }
  }

  /** "counter" < "gauge": every counter sorts before every gauge, whatever
      their names. */
  lemma CountersBeforeGauges(m: seq<Metric>, i: int, j: int)
    requires 0 <= i < |m| && 0 <= j < |m|
    requires m[i].mType == Counter && m[j].mType == Gauge
    ensures Less(m, i, j) && !Less(m, j, i)
  {
    assert StrLess(Counter, Gauge);
    StrLessAsymmetric(Counter, Gauge);
  }

  /** In a slice sorted by Less, no gauge comes before a counter. */
  lemma SortedCountersFirst(s: seq<Metric>, i: int, j: int)
    requires GoSort.Sorted(s, SortKey, KeyLess)
    requires 0 <= i < j < |s| && s[j].mType == Counter
    ensures s[i].mType != Gauge
  {
    if s[i].mType == Gauge {
      CountersBeforeGauges(s, j, i);
    }
  }

  // ------------------------------------------------------------ rendering

  /** Every pointee the metrics of a slice refer to. */
  function CellsOf(ms: seq<Metric>): set<object?> {
    (set i | 0 <= i < |ms| :: ms[i].delta as object?) + (set i | 0 <= i < |ms| :: ms[i].value as object?)
  }

  predicate AllRenderable(ms: seq<Metric>) {
    forall i :: 0 <= i < |ms| ==> Renderable(ms[i])
  }

  /** The text MetricSliceToString emits for one metric: `name: value` and a
      newline, or nothing when GetStringValue fails. */
  function TextLine(m: Metric, codec: FloatCodec): string
    requires Renderable(m)
    reads Cells(m)
  {
    var v := GetStringValue(m, codec);
    if v.Ok? then m.id + ": " + v.value + "\n" else ""
  }

  /** The text of a slice, metric after metric in slice order. */
  function Text(ms: seq<Metric>, codec: FloatCodec): string
    requires AllRenderable(ms)
    reads CellsOf(ms)
  {
    if ms == [] then ""
    else Text(ms[..|ms| - 1], codec) + TextLine(ms[|ms| - 1], codec)
  }

  /** The bytes MetricSliceToJSON emits for one metric: its encoding and a
      newline, or nothing when encoding fails. */
  function JSONLine(m: Metric, marshal: Record -> Option<seq<Byte>>): seq<Byte>
    reads Cells(m)
  {
    var data := marshal(View(m));
    if data.Some? then data.value + [10 as Byte] else []
  }

  function JSONText(ms: seq<Metric>, marshal: Record -> Option<seq<Byte>>): seq<Byte>
    reads CellsOf(ms)
  {
    if ms == [] then []
    else JSONText(ms[..|ms| - 1], marshal) + JSONLine(ms[|ms| - 1], marshal)
  }

  /** The text of a slice is the texts of its parts, in order. */
  lemma {:induction false} TextAppend(s: seq<Metric>, t: seq<Metric>, codec: FloatCodec)
    requires AllRenderable(s) && AllRenderable(t)
    ensures AllRenderable(s + t)
    ensures Text(s + t, codec) == Text(s, codec) + Text(t, codec)
    decreases |t|
  {
    if t != [] {
      var n := |t| - 1;
      assert (s + t)[..|s + t| - 1] == s + t[..n];
      TextAppend(s, t[..n], codec);
    } else {
      assert s + t == s;
    }
  }

  /** A metric whose type is neither gauge nor counter leaves no trace in the
      text; a gauge or counter contributes exactly one line that starts with
      its name. */
  lemma TextLineShape(m: Metric, codec: FloatCodec)
    requires Renderable(m)
    ensures m.mType != Gauge && m.mType != Counter ==> TextLine(m, codec) == ""
    ensures m.mType == Gauge || m.mType == Counter ==>
      exists v :: TextLine(m, codec) == m.id + ": " + v + "\n" && GetStringValue(m, codec) == Ok(v)
  {
    if m.mType == Gauge || m.mType == Counter {
      var v := GetStringValue(m, codec).value;
      assert TextLine(m, codec) == m.id + ": " + v + "\n";
    }
  }

  /** The JSON of a slice is the JSON of its parts, in order. */
  lemma {:induction false} JSONTextAppend(s: seq<Metric>, t: seq<Metric>, marshal: Record -> Option<seq<Byte>>)
    ensures JSONText(s + t, marshal) == JSONText(s, marshal) + JSONText(t, marshal)
    decreases |t|
  {
    if t != [] {
      var n := |t| - 1;
      assert (s + t)[..|s + t| - 1] == s + t[..n];
      JSONTextAppend(s, t[..n], marshal);
    } else {
      assert s + t == s;
    }
  }

  /** Reordering a slice keeps every metric renderable. */
  lemma RenderablePermutation(s: seq<Metric>, t: seq<Metric>)
    requires multiset(s) == multiset(t) && AllRenderable(s)
    ensures AllRenderable(t)
  {
    forall i | 0 <= i < |t| ensures Renderable(t[i]) {
      assert t[i] in multiset(s);
    }
  }

  /** MetricSliceToString: sorts the slice in place by (type, name), then
      prints every metric GetStringValue accepts, one line each. */
  method MetricSliceToString(metrics: array<Metric>, codec: FloatCodec) returns (out: string)
    requires AllRenderable(metrics[..])
    modifies metrics
    ensures GoSort.Sorted(metrics[..], SortKey, KeyLess)
    ensures multiset(metrics[..]) == old(multiset(metrics[..]))
    ensures AllRenderable(metrics[..])
    ensures out == Text(metrics[..], codec)
  {
    KeyLessIsStrictWeakOrder();
    ghost var before := metrics[..];
    GoSort.Sort(metrics, SortKey, KeyLess);
    RenderablePermutation(before, metrics[..]);
    out := TextOfSlice(metrics, codec);
  }

  /** The emitting loop of MetricSliceToString, over the sorted slice. */
  method TextOfSlice(metrics: array<Metric>, codec: FloatCodec) returns (out: string)
    requires AllRenderable(metrics[..])
    ensures out == Text(metrics[..], codec)
  {
    out := "";
    var i := 0;
    while i < metrics.Length
      invariant 0 <= i <= metrics.Length
      invariant out == Text(metrics[..i], codec)
    {
      assert metrics[..i + 1][..i] == metrics[..i];
      assert Text(metrics[..i + 1], codec) == out + TextLine(metrics[i], codec);
      var value := GetStringValue(metrics[i], codec);
      if value.Ok? {
        out := out + metrics[i].id + ": " + value.value;
        out := out + "\n";
      }
      i := i + 1;
    }
    assert metrics[..metrics.Length] == metrics[..];
  }

  /** MetricSliceToJSON: sorts the slice in place by (type, name), then emits
      every metric that encodes, each followed by a newline. */
  method MetricSliceToJSON(metrics: array<Metric>, marshal: Record -> Option<seq<Byte>>) returns (out: seq<Byte>)
    modifies metrics
    ensures GoSort.Sorted(metrics[..], SortKey, KeyLess)
    ensures multiset(metrics[..]) == old(multiset(metrics[..]))
    ensures out == JSONText(metrics[..], marshal)
  {
    KeyLessIsStrictWeakOrder();
    GoSort.Sort(metrics, SortKey, KeyLess);
    out := JSONOfSlice(metrics, marshal);
  }

  /** The emitting loop of MetricSliceToJSON, over the sorted slice. */
  method JSONOfSlice(metrics: array<Metric>, marshal: Record -> Option<seq<Byte>>) returns (out: seq<Byte>)
    ensures out == JSONText(metrics[..], marshal)
  {
    out := [];
    var i := 0;
    while i < metrics.Length
      invariant 0 <= i <= metrics.Length
      invariant out == JSONText(metrics[..i], marshal)
    {
      assert metrics[..i + 1][..i] == metrics[..i];
      var data := marshal(View(metrics[i]));
      if data.Some? {
        out := out + data.value;
        out := out + [10 as Byte];
      }
      i := i + 1;
    }
    assert metrics[..metrics.Length] == metrics[..];
  }
}
