/** The server's metric store (internal/storage/memorystorage/memorystorage.go).

    Two maps, gauge name to float64 and counter name to int64. Save
    overwrites a gauge and adds to a counter; Get and GetAll read the maps
    back as pcstats metrics holding fresh pointees; a restore at start-up
    replays a file of JSON lines; in synchronized mode every Save, and in
    ticker mode every tick and the cancellation, writes the whole store to
    the file.

    The file is the sequence of byte strings handed to `FileSaver.Save`
    (`written`); what the file system does with them is not modelled.
    JSON encoding and decoding of one metric are parameters (`marshal`,
    `unmarshal`). The store's RWMutex is not part of this class, which
    behaves as the code would with a lock that lets Save call GetAll; the
    lock protocol as written is modelled in module StoreLocks. */
module MemoryStorage {
  import opened Wrappers
  import opened GoLib
  import opened PcStats
  import opened PcStatsSorting
  import GoSort
  import opened FileSaver

  /** The two maps of the store. */
  datatype Maps = Maps(gauge: map<string, Float64>, counter: map<string, Int64>)

  const Empty: Maps := Maps(map[], map[])

  /** `s.counter[name]`: an absent name reads as 0. */
  function CounterOr0(counter: map<string, Int64>, name: string): Int64 {
    if name in counter then counter[name] else 0
  }

  // ---------------------------------------------------------------- checks
  // The store repeats the checks of pcstats on its own (same rules; the nil
  // gauge message is the counter one).

  function CheckName(name: string): (err: GoError)
    ensures err == Nil <==> name != ""
  {
    if name == "" then Error("ivalid metric name: " + name) else Nil
  }

  function CheckType(typeName: string): (err: GoError)
    ensures err == Nil <==> typeName == Gauge || typeName == Counter
  {
    if typeName == Counter || typeName == Gauge then Nil
    else Error("invalid metric type: " + typeName)
  }

  function CheckValueGauge(value: Float64Cell?): (err: GoError)
    ensures err == Nil <==> value != null
  {
    if value == null then Error("metric type is counter and no value provided for counter") else Nil
  }

  function CheckValueCounter(value: Int64Cell?): (err: GoError)
    ensures err == Nil <==> value != null
  {
    if value == null then Error("metric type is counter and no value provided for counter") else Nil
  }

  /** checkMetric: a non-empty name, type gauge or counter, and a non-nil
      pointer for that type; the other pointer is not looked at. */
  function CheckMetric(m: Metric): (err: GoError)
    ensures err == Nil <==>
      m.id != "" && ((m.mType == Gauge && m.value != null) || (m.mType == Counter && m.delta != null))
  {
    if CheckName(m.id).Error? then CheckName(m.id)
    else if CheckType(m.mType).Error? then CheckType(m.mType)
    else if m.mType == Counter then CheckValueCounter(GetCounter(m).value)
    else CheckValueGauge(GetGauge(m).value)
  }

  // ----------------------------------------------------------------- Save

  /** What a successful Save does to the maps, given the metric its
      pointers followed: a gauge is overwritten, a counter grows by the
      delta (int64 wrap-around), an absent counter counting as 0. */
  function Saved(st: Maps, r: Record): Maps {
    if r.mType == Gauge && r.value.Some? then
      st.(gauge := st.gauge[r.id := r.value.value])
    else if r.mType == Counter && r.delta.Some? then
      st.(counter := st.counter[r.id := AddWrap(CounterOr0(st.counter, r.id), r.delta.value)])
    else st
  }

  /** A saved gauge reads back as saved; nothing else changes. */
  lemma SavedGauge(st: Maps, name: string, v: Float64)
    ensures Saved(st, Record(name, Gauge, None, Some(v))).gauge[name] == v
    ensures forall k :: k != name && k in st.gauge ==>
      k in Saved(st, Record(name, Gauge, None, Some(v))).gauge &&
      Saved(st, Record(name, Gauge, None, Some(v))).gauge[k] == st.gauge[k]
    ensures Saved(st, Record(name, Gauge, None, Some(v))).counter == st.counter
  {
  }

  /** Saving a counter twice adds both deltas: saving 40 twice to an absent
      counter reads back 80. */
  lemma SavedCounterTwice(st: Maps, name: string, d: Int64)
    requires name !in st.counter
    requires -0x4000_0000_0000_0000 <= d < 0x4000_0000_0000_0000
    ensures Saved(Saved(st, Record(name, Counter, Some(d), None)), Record(name, Counter, Some(d), None)).counter[name] == 2 * d
  {
    var once := Saved(st, Record(name, Counter, Some(d), None));
    assert once.counter[name] == d;
  }

  /** Saving counters never loses a delta: the stored total is the wrapped
      sum of the previous total and every delta saved since. */
  lemma {:induction false} SavedCounterSum(st: Maps, name: string, deltas: seq<Int64>)
    ensures CounterOr0(SaveAll(st, name, deltas).counter, name) == Wrap(CounterOr0(st.counter, name) + Sum(deltas))
    ensures SaveAll(st, name, deltas).gauge == st.gauge
  {
    if deltas != [] {
      var n := |deltas| - 1;
      SavedCounterSum(st, name, deltas[..n]);
      var prev := SaveAll(st, name, deltas[..n]);
      WrapAddWrap(CounterOr0(st.counter, name) + Sum(deltas[..n]), deltas[n]);
    } else {
      assert Wrap(CounterOr0(st.counter, name)) == CounterOr0(st.counter, name);
    }
  }

  function Sum(deltas: seq<Int64>): int {
    if deltas == [] then 0 else Sum(deltas[..|deltas| - 1]) + deltas[|deltas| - 1]
  }

  /** Counter saves of `deltas`, in order, for one name. */
  function SaveAll(st: Maps, name: string, deltas: seq<Int64>): Maps {
    if deltas == [] then st
    else Saved(SaveAll(st, name, deltas[..|deltas| - 1]), Record(name, Counter, Some(deltas[|deltas| - 1]), None))
  }

  // -------------------------------------------------------------- restore

  /** One decoded line of the file applied to the maps: a gauge or counter
      record replaces the stored value (a counter is not added to); a record
      without the pointer its type needs, or of another type, is skipped. */
  function RestoreRecord(st: Maps, r: Record): Maps {
    if r.mType == Gauge then
      if r.value.Some? then st.(gauge := st.gauge[r.id := r.value.value]) else st
    else if r.mType == Counter then
      if r.delta.Some? then st.(counter := st.counter[r.id := r.delta.value]) else st
    else st
  }

  /** One line: a line that does not decode is skipped. */
  function RestoreLine(st: Maps, line: seq<Byte>, unmarshal: seq<Byte> -> Option<Record>): Maps {
    match unmarshal(line)
    case None => st
    case Some(r) => RestoreRecord(st, r)
  }

  /** The restore loop over the lines of the file, in order. */
  function Restore(st: Maps, lines: seq<seq<Byte>>, unmarshal: seq<Byte> -> Option<Record>): Maps {
    if lines == [] then st
    else RestoreLine(Restore(st, lines[..|lines| - 1], unmarshal), lines[|lines| - 1], unmarshal)
  }

  /** The gauges a file sets: for each name, the value of its last gauge
      line that carries a value. */
  function FileGauges(lines: seq<seq<Byte>>, unmarshal: seq<Byte> -> Option<Record>): map<string, Float64> {
    if lines == [] then map[]
    else
      var rest := FileGauges(lines[..|lines| - 1], unmarshal);
      var r := unmarshal(lines[|lines| - 1]);
      if r.Some? && r.value.mType == Gauge && r.value.value.Some? then rest[r.value.id := r.value.value.value]
      else rest
  }

  /** The counters a file sets: for each name, the delta of its last
      counter line that carries one. */
  function FileCounters(lines: seq<seq<Byte>>, unmarshal: seq<Byte> -> Option<Record>): map<string, Int64> {
    if lines == [] then map[]
    else
      var rest := FileCounters(lines[..|lines| - 1], unmarshal);
      var r := unmarshal(lines[|lines| - 1]);
      if r.Some? && r.value.mType == Counter && r.value.delta.Some? then rest[r.value.id := r.value.delta.value]
      else rest
  }

  /** Restoring overrides the maps with what the file sets, the last line
      for a name winning; values already stored for other names stay. */
  lemma {:induction false} RestoreIsOverride(st: Maps, lines: seq<seq<Byte>>, unmarshal: seq<Byte> -> Option<Record>)
    ensures Restore(st, lines, unmarshal) ==
      Maps(st.gauge + FileGauges(lines, unmarshal), st.counter + FileCounters(lines, unmarshal))
  {
    if lines != [] {
      var n := |lines| - 1;
      RestoreIsOverride(st, lines[..n], unmarshal);
      var g, c := FileGauges(lines[..n], unmarshal), FileCounters(lines[..n], unmarshal);
      match unmarshal(lines[n])
      case None =>
      case Some(r) =>
        if r.mType == Gauge && r.value.Some? {
          MapOverrideUpdate(st.gauge, g, r.id, r.value.value);
        } else if r.mType == Counter && r.delta.Some? {
          MapOverrideUpdate(st.counter, c, r.id, r.delta.value);
        }
    } else {
      assert st.gauge + map[] == st.gauge;
      assert st.counter + map[] == st.counter;
    }
  }

  lemma MapOverrideUpdate<V>(a: map<string, V>, b: map<string, V>, k: string, v: V)
    ensures (a + b)[k := v] == a + b[k := v]
  {
  }

  /** Restoring the same file twice is the same as restoring it once. */
  lemma RestoreIdempotent(st: Maps, lines: seq<seq<Byte>>, unmarshal: seq<Byte> -> Option<Record>)
    ensures Restore(Restore(st, lines, unmarshal), lines, unmarshal) == Restore(st, lines, unmarshal)
  {
    var once := Restore(st, lines, unmarshal);
    RestoreIsOverride(st, lines, unmarshal);
    RestoreIsOverride(once, lines, unmarshal);
    assert once.gauge + FileGauges(lines, unmarshal) == once.gauge;
    assert once.counter + FileCounters(lines, unmarshal) == once.counter;
  }

  /** The outcome of the restore loop as written. */
  datatype Restored = Restored(contents: Maps) | NilDereference(line: nat)

  /** One record as the loop is written: GetGauge and GetCounter report no
      error for a nil pointer, so a gauge or counter line without its value
      is dereferenced (Go panics). */
  function RestoreRecordAsWritten(st: Maps, r: Record): Option<Maps> {
    if r.mType == Gauge then
      if r.value.Some? then Some(st.(gauge := st.gauge[r.id := r.value.value])) else None
    else if r.mType == Counter then
      if r.delta.Some? then Some(st.(counter := st.counter[r.id := r.delta.value])) else None
    else Some(st)
  }

  function RestoreAsWritten(st: Maps, lines: seq<seq<Byte>>, unmarshal: seq<Byte> -> Option<Record>): Restored {
    if lines == [] then Restored(st)
    else
      var n := |lines| - 1;
      match RestoreAsWritten(st, lines[..n], unmarshal)
      case NilDereference(k) => NilDereference(k)
      case Restored(prev) =>
        match unmarshal(lines[n])
        case None => Restored(prev)
        case Some(r) =>
          match RestoreRecordAsWritten(prev, r)
          case None => NilDereference(n)
          case Some(next) => Restored(next)
  }

  /** A line that decodes to a gauge or counter without its value. */
  predicate MissingPointer(line: seq<Byte>, unmarshal: seq<Byte> -> Option<Record>) {
    var r := unmarshal(line);
    r.Some? && ((r.value.mType == Gauge && r.value.value.None?) || (r.value.mType == Counter && r.value.delta.None?))
  }

  /** The loop as written panics on a gauge line without a value, where the
      corrected loop skips it. */
  lemma RestoreNilGaugePanics(st: Maps, line: seq<Byte>, unmarshal: seq<Byte> -> Option<Record>)
    requires unmarshal(line) == Some(Record("x", Gauge, None, None))
    ensures RestoreAsWritten(st, [line], unmarshal) == NilDereference(0)
    ensures Restore(st, [line], unmarshal) == st
  {
    assert [line][..0] == [];
  }

  /** Without such lines the two loops agree. */
  lemma {:induction false} RestoreAsWrittenAgrees(st: Maps, lines: seq<seq<Byte>>, unmarshal: seq<Byte> -> Option<Record>)
    requires forall i :: 0 <= i < |lines| ==> !MissingPointer(lines[i], unmarshal)
    ensures RestoreAsWritten(st, lines, unmarshal) == Restored(Restore(st, lines, unmarshal))
  {
    if lines != [] {
      RestoreAsWrittenAgrees(st, lines[..|lines| - 1], unmarshal);
      assert !MissingPointer(lines[|lines| - 1], unmarshal);
    }
  }

  // ------------------------------------------------------------ snapshots

  function RecKey(r: Record): Key {
    (r.mType, r.id)
  }

  /** `r` is how GetAll reports one entry of the maps. */
  predicate IsEntry(r: Record, st: Maps) {
    || (r.mType == Gauge && r.id != "" && r.id in st.gauge && r.delta.None? && r.value == Some(st.gauge[r.id]))
    || (r.mType == Counter && r.id != "" && r.id in st.counter && r.value.None? && r.delta == Some(st.counter[r.id]))
  }

  /** Every entry with a non-empty name is reported. */
  predicate Covers(recs: seq<Record>, st: Maps) {
    && (forall k :: k in st.gauge && k != "" ==> exists i :: 0 <= i < |recs| && RecKey(recs[i]) == (Gauge, k))
    && (forall k :: k in st.counter && k != "" ==> exists i :: 0 <= i < |recs| && RecKey(recs[i]) == (Counter, k))
  }

  predicate DistinctKeys(recs: seq<Record>) {
    forall i, j :: 0 <= i < j < |recs| ==> RecKey(recs[i]) != RecKey(recs[j])
  }

  /** A listing of the store: each entry with a non-empty name exactly once,
      in some order. */
  predicate IsListing(recs: seq<Record>, st: Maps) {
    && (forall i :: 0 <= i < |recs| ==> IsEntry(recs[i], st))
    && Covers(recs, st)
    && DistinctKeys(recs)
  }

  predicate StrictlySorted(recs: seq<Record>) {
    forall i, j :: 0 <= i < j < |recs| ==> KeyLess(RecKey(recs[i]), RecKey(recs[j]))
  }

  /** What a save writes: the listing sorted by (type, name). */
  predicate IsDump(recs: seq<Record>, st: Maps) {
    IsListing(recs, st) && StrictlySorted(recs)
  }

  /** MetricSliceToJSON on records: each record that encodes, followed by a
      newline. */
  function RecordsJSON(recs: seq<Record>, marshal: Record -> Option<seq<Byte>>): seq<Byte> {
    if recs == [] then []
    else
      var data := marshal(recs[|recs| - 1]);
      RecordsJSON(recs[..|recs| - 1], marshal) + (if data.Some? then data.value + [NewLine] else [])
  }

  /** `data` is what saving a store holding `st` writes. */
  ghost predicate IsDumpData(data: seq<Byte>, st: Maps, marshal: Record -> Option<seq<Byte>>) {
    exists recs :: IsDump(recs, st) && data == RecordsJSON(recs, marshal)
  }

  /** Two records reporting the same entry are equal. */
  lemma EntryDetermined(a: Record, b: Record, st: Maps)
    requires IsEntry(a, st) && IsEntry(b, st) && RecKey(a) == RecKey(b)
    ensures a == b
  {
  }

  /** Strictly sorted sequences with the same elements are equal. */
  lemma {:induction false} StrictlySortedUnique(s: seq<Record>, t: seq<Record>)
    requires StrictlySorted(s) && StrictlySorted(t)
    requires forall x :: x in s <==> x in t
    ensures s == t
    decreases |s|
  {
    KeyLessIsStrictWeakOrder();
    assert s != [] ==> s[0] in s;
    assert t != [] ==> t[0] in t;
    if s != [] && t != [] {
      assert s[0] in s && t[0] in t;
      assert s[0] == t[0];
      forall x ensures x in s[1..] <==> x in t[1..] {
        if x in s[1..] {
          var i :| 1 <= i < |s| && s[i] == x;
          assert KeyLess(RecKey(s[0]), RecKey(s[i]));
          KeyLessIrreflexive(RecKey(s[0]));
          assert x in t && x != t[0];
          var j :| 0 <= j < |t| && t[j] == x;
          assert t[1..][j - 1] == x;
        }
        if x in t[1..] {
          var i :| 1 <= i < |t| && t[i] == x;
          assert KeyLess(RecKey(t[0]), RecKey(t[i]));
          KeyLessIrreflexive(RecKey(t[0]));
          assert x in s && x != s[0];
          var j :| 0 <= j < |s| && s[j] == x;
          assert s[1..][j - 1] == x;
        }
      }
      StrictlySortedUnique(s[1..], t[1..]);
      assert s == [s[0]] + s[1..] && t == [t[0]] + t[1..];
    }
  }

  /** What a save writes depends only on the store's contents, although
      GetAll lists the maps in no fixed order. */
  lemma DumpUnique(r1: seq<Record>, r2: seq<Record>, st: Maps)
    requires IsDump(r1, st) && IsDump(r2, st)
    ensures r1 == r2
  {
    forall x ensures x in r1 <==> x in r2 {
      if x in r1 {
        SameEntries(r1, r2, st, x);
      }
      if x in r2 {
        SameEntries(r2, r1, st, x);
      }
    }
    StrictlySortedUnique(r1, r2);
  }

  lemma SameEntries(r1: seq<Record>, r2: seq<Record>, st: Maps, x: Record)
    requires IsListing(r1, st) && IsListing(r2, st) && x in r1
    ensures x in r2
  {
    var i :| 0 <= i < |r1| && r1[i] == x;
    assert IsEntry(x, st);
    var j :| 0 <= j < |r2| && RecKey(r2[j]) == RecKey(x);
    EntryDetermined(r2[j], x, st);
  }

  /** Every record of the file reports an entry of `st` (as a dump's do). */
  predicate LinesOfEntries(lines: seq<seq<Byte>>, unmarshal: seq<Byte> -> Option<Record>, st: Maps) {
    forall i :: 0 <= i < |lines| ==> unmarshal(lines[i]).Some? && IsEntry(unmarshal(lines[i]).value, st)
  }

  /** The gauges set by lines that all report entries of `st`: exactly the
      names of those lines, each with its value in `st`. */
  lemma {:induction false} FileGaugesOfEntries(lines: seq<seq<Byte>>, unmarshal: seq<Byte> -> Option<Record>, st: Maps)
    requires LinesOfEntries(lines, unmarshal, st)
    ensures forall k :: k in FileGauges(lines, unmarshal) ==>
      k != "" && k in st.gauge && FileGauges(lines, unmarshal)[k] == st.gauge[k]
    ensures forall i :: 0 <= i < |lines| && unmarshal(lines[i]).value.mType == Gauge ==>
      unmarshal(lines[i]).value.id in FileGauges(lines, unmarshal)
  {
    if lines != [] {
      var n := |lines| - 1;
      assert LinesOfEntries(lines[..n], unmarshal, st) by {
        forall i | 0 <= i < n ensures lines[..n][i] == lines[i] {
        }
      }
      FileGaugesOfEntries(lines[..n], unmarshal, st);
      forall i | 0 <= i < n && unmarshal(lines[i]).value.mType == Gauge
        ensures unmarshal(lines[i]).value.id in FileGauges(lines, unmarshal)
      {
        assert lines[..n][i] == lines[i];
      }
    }
  }

  /** The counters set by lines that all report entries of `st`: exactly the
      names of those lines, each with its value in `st`. */
  lemma {:induction false} FileCountersOfEntries(lines: seq<seq<Byte>>, unmarshal: seq<Byte> -> Option<Record>, st: Maps)
    requires LinesOfEntries(lines, unmarshal, st)
    ensures forall k :: k in FileCounters(lines, unmarshal) ==>
      k != "" && k in st.counter && FileCounters(lines, unmarshal)[k] == st.counter[k]
    ensures forall i :: 0 <= i < |lines| && unmarshal(lines[i]).value.mType == Counter ==>
      unmarshal(lines[i]).value.id in FileCounters(lines, unmarshal)
  {
    if lines != [] {
      var n := |lines| - 1;
      assert LinesOfEntries(lines[..n], unmarshal, st) by {
        forall i | 0 <= i < n ensures lines[..n][i] == lines[i] {
        }
      }
      FileCountersOfEntries(lines[..n], unmarshal, st);
      forall i | 0 <= i < n && unmarshal(lines[i]).value.mType == Counter
        ensures unmarshal(lines[i]).value.id in FileCounters(lines, unmarshal)
      {
        assert lines[..n][i] == lines[i];
      }
    }
  }

  /** The lines a dump consists of, one encoded record each. */
  function EncodedLines(recs: seq<Record>, marshal: Record -> Option<seq<Byte>>): seq<seq<Byte>>
    requires forall i :: 0 <= i < |recs| ==> marshal(recs[i]).Some?
  {
    if recs == [] then []
    else EncodedLines(recs[..|recs| - 1], marshal) + [marshal(recs[|recs| - 1]).value]
  }

  lemma {:induction false} EncodedLinesShape(recs: seq<Record>, marshal: Record -> Option<seq<Byte>>)
    requires forall i :: 0 <= i < |recs| ==> marshal(recs[i]).Some?
    ensures |EncodedLines(recs, marshal)| == |recs|
    ensures forall i :: 0 <= i < |recs| ==> EncodedLines(recs, marshal)[i] == marshal(recs[i]).value
    ensures RecordsJSON(recs, marshal) == Terminated(EncodedLines(recs, marshal))
  {
    if recs != [] {
      var n := |recs| - 1;
      EncodedLinesShape(recs[..n], marshal);
      assert EncodedLines(recs, marshal)[..n] == EncodedLines(recs[..n], marshal);
    }
  }

  /** Maps with the same keys and the same value at each key are equal. */
  lemma SameMap<V>(a: map<string, V>, b: map<string, V>)
    requires forall k :: k in b ==> k in a
    requires forall k :: k in a ==> k in b && a[k] == b[k]
    ensures a == b
  {
  }

  /** The gauges a dump's lines set are the store's gauges with non-empty names. */
  lemma DumpGauges(recs: seq<Record>, lines: seq<seq<Byte>>, st: Maps, unmarshal: seq<Byte> -> Option<Record>)
    requires (forall i :: 0 <= i < |recs| ==> IsEntry(recs[i], st)) && Covers(recs, st) && |lines| == |recs|
    requires forall i :: 0 <= i < |recs| ==> unmarshal(lines[i]) == Some(recs[i])
    ensures FileGauges(lines, unmarshal) == st.gauge - {""}
  {
    assert LinesOfEntries(lines, unmarshal, st) by {
      forall i | 0 <= i < |lines| ensures unmarshal(lines[i]).Some? && IsEntry(unmarshal(lines[i]).value, st) {
        assert unmarshal(lines[i]) == Some(recs[i]);
      }
    }
    FileGaugesOfEntries(lines, unmarshal, st);
    GaugesCovered(recs, lines, st, unmarshal);
    SameMap(FileGauges(lines, unmarshal), st.gauge - {""});
  }

  lemma GaugesCovered(recs: seq<Record>, lines: seq<seq<Byte>>, st: Maps, unmarshal: seq<Byte> -> Option<Record>)
    requires forall k :: k in st.gauge && k != "" ==> exists i :: 0 <= i < |recs| && RecKey(recs[i]) == (Gauge, k)
    requires |lines| == |recs| && forall i :: 0 <= i < |recs| ==> unmarshal(lines[i]) == Some(recs[i])
    requires forall i :: 0 <= i < |lines| && unmarshal(lines[i]).value.mType == Gauge ==>
      unmarshal(lines[i]).value.id in FileGauges(lines, unmarshal)
    ensures forall k :: k in st.gauge - {""} ==> k in FileGauges(lines, unmarshal)
  {
    forall k | k in st.gauge - {""} ensures k in FileGauges(lines, unmarshal) {
      var i :| 0 <= i < |recs| && RecKey(recs[i]) == (Gauge, k);
      assert unmarshal(lines[i]).value == recs[i];
    }
  }

  /** The counters a dump's lines set are the store's counters with non-empty names. */
  lemma DumpCounters(recs: seq<Record>, lines: seq<seq<Byte>>, st: Maps, unmarshal: seq<Byte> -> Option<Record>)
    requires (forall i :: 0 <= i < |recs| ==> IsEntry(recs[i], st)) && Covers(recs, st) && |lines| == |recs|
    requires forall i :: 0 <= i < |recs| ==> unmarshal(lines[i]) == Some(recs[i])
    ensures FileCounters(lines, unmarshal) == st.counter - {""}
  {
    assert LinesOfEntries(lines, unmarshal, st) by {
      forall i | 0 <= i < |lines| ensures unmarshal(lines[i]).Some? && IsEntry(unmarshal(lines[i]).value, st) {
        assert unmarshal(lines[i]) == Some(recs[i]);
      }
    }
    FileCountersOfEntries(lines, unmarshal, st);
    CountersCovered(recs, lines, st, unmarshal);
    SameMap(FileCounters(lines, unmarshal), st.counter - {""});
  }

  lemma CountersCovered(recs: seq<Record>, lines: seq<seq<Byte>>, st: Maps, unmarshal: seq<Byte> -> Option<Record>)
    requires forall k :: k in st.counter && k != "" ==> exists i :: 0 <= i < |recs| && RecKey(recs[i]) == (Counter, k)
    requires |lines| == |recs| && forall i :: 0 <= i < |recs| ==> unmarshal(lines[i]) == Some(recs[i])
    requires forall i :: 0 <= i < |lines| && unmarshal(lines[i]).value.mType == Counter ==>
      unmarshal(lines[i]).value.id in FileCounters(lines, unmarshal)
    ensures forall k :: k in st.counter - {""} ==> k in FileCounters(lines, unmarshal)
  {
    forall k | k in st.counter - {""} ensures k in FileCounters(lines, unmarshal) {
      var i :| 0 <= i < |recs| && RecKey(recs[i]) == (Counter, k);
      assert unmarshal(lines[i]).value == recs[i];
    }
  }

  /** Saving and restoring round-trip: a store restored from what saving a
      store holding `st` wrote holds the entries of `st` with non-empty
      names, provided decoding inverts encoding and encodings are single
      lines. */
  lemma DumpRestores(recs: seq<Record>, st: Maps, marshal: Record -> Option<seq<Byte>>, unmarshal: seq<Byte> -> Option<Record>)
    requires IsDump(recs, st)
    requires forall i :: 0 <= i < |recs| ==>
      marshal(recs[i]).Some? && PlainLine(marshal(recs[i]).value) && unmarshal(marshal(recs[i]).value) == Some(recs[i])
    ensures Restore(Empty, ScanLines(RecordsJSON(recs, marshal)), unmarshal) ==
      Maps(st.gauge - {""}, st.counter - {""})
  {
    var lines := EncodedLines(recs, marshal);
    DumpLines(recs, marshal);
    DumpMaps(recs, st, marshal, unmarshal);
    RestoreFromEmpty(lines, st.gauge - {""}, st.counter - {""}, unmarshal);
  }

  /** Restoring into an empty store yields exactly what the file sets. */
  lemma RestoreFromEmpty(lines: seq<seq<Byte>>, g: map<string, Float64>, c: map<string, Int64>, unmarshal: seq<Byte> -> Option<Record>)
    requires FileGauges(lines, unmarshal) == g && FileCounters(lines, unmarshal) == c
    ensures Restore(Empty, lines, unmarshal) == Maps(g, c)
  {
    RestoreIsOverride(Empty, lines, unmarshal);
    assert map[] + g == g && map[] + c == c;
  }

  /** A dump reads back as its encoded lines. */
  lemma DumpLines(recs: seq<Record>, marshal: Record -> Option<seq<Byte>>)
    requires forall i :: 0 <= i < |recs| ==> marshal(recs[i]).Some? && PlainLine(marshal(recs[i]).value)
    ensures ScanLines(RecordsJSON(recs, marshal)) == EncodedLines(recs, marshal)
  {
    EncodedLinesShape(recs, marshal);
    ScanTerminated(EncodedLines(recs, marshal));
  }

  /** The maps a dump's lines set. */
  lemma DumpMaps(recs: seq<Record>, st: Maps, marshal: Record -> Option<seq<Byte>>, unmarshal: seq<Byte> -> Option<Record>)
    requires IsDump(recs, st)
    requires forall i :: 0 <= i < |recs| ==>
      marshal(recs[i]).Some? && unmarshal(marshal(recs[i]).value) == Some(recs[i])
    ensures FileGauges(EncodedLines(recs, marshal), unmarshal) == st.gauge - {""}
    ensures FileCounters(EncodedLines(recs, marshal), unmarshal) == st.counter - {""}
  {
    var lines := EncodedLines(recs, marshal);
    EncodedLinesShape(recs, marshal);
    DumpGauges(recs, lines, st, unmarshal);
    DumpCounters(recs, lines, st, unmarshal);
  }

  /** Two dumps of the same contents are the same bytes. */
  lemma DumpDataUnique(d1: seq<Byte>, d2: seq<Byte>, st: Maps, marshal: Record -> Option<seq<Byte>>)
    requires IsDumpData(d1, st, marshal) && IsDumpData(d2, st, marshal)
    ensures d1 == d2
  {
    var r1 :| IsDump(r1, st) && d1 == RecordsJSON(r1, marshal);
    var r2 :| IsDump(r2, st) && d2 == RecordsJSON(r2, marshal);
    DumpUnique(r1, r2, st);
  }

  /** Restoring what a save wrote gives back the store (its entries with
      non-empty names), when every entry encodes on one line shorter than
      the scanner's 64 KiB limit and decodes back to itself. */
  lemma DumpDataRestores(data: seq<Byte>, st: Maps, marshal: Record -> Option<seq<Byte>>, unmarshal: seq<Byte> -> Option<Record>)
    requires IsDumpData(data, st, marshal)
    requires forall r :: IsEntry(r, st) ==>
      marshal(r).Some? && PlainLine(marshal(r).value) && unmarshal(marshal(r).value) == Some(r)
    ensures Restore(Empty, ScanLines(data), unmarshal) == Maps(st.gauge - {""}, st.counter - {""})
  {
    var recs :| IsDump(recs, st) && data == RecordsJSON(recs, marshal);
    DumpRestores(recs, st, marshal, unmarshal);
  }

  /** A line of 64 KiB or more in the file (the record of a metric with a
      very long name, say) ends the restore there without an error: the
      lines after it are not restored. */
  lemma LongLineEndsRestore(st: Maps, lines: seq<seq<Byte>>, long: seq<Byte>, rest: seq<Byte>,
                            unmarshal: seq<Byte> -> Option<Record>)
    requires forall i :: 0 <= i < |lines| ==> PlainLine(lines[i])
    requires NewLine !in long && |long| >= MaxScanTokenSize
    ensures Restore(st, ScanLines(Terminated(lines) + (long + [NewLine] + rest)), unmarshal) == Restore(st, lines, unmarshal)
  {
    ScanStopsAtLongLine(lines, long, rest);
  }

  // ------------------------------------------------------ metric listings

  /** The records of a slice of metrics, pointers followed. */
  function Views(ms: seq<Metric>): (rs: seq<Record>)
    reads CellsOf(ms)
    ensures |rs| == |ms|
    ensures forall i :: 0 <= i < |ms| ==> rs[i] == View(ms[i])
  {
    if ms == [] then [] else Views(ms[..|ms| - 1]) + [View(ms[|ms| - 1])]
  }

  /** MetricSliceToJSON on metrics emits what RecordsJSON emits on their records. */
  lemma {:induction false} JSONTextIsRecordsJSON(ms: seq<Metric>, marshal: Record -> Option<seq<Byte>>)
    ensures JSONText(ms, marshal) == RecordsJSON(Views(ms), marshal)
  {
    if ms != [] {
      var n := |ms| - 1;
      JSONTextIsRecordsJSON(ms[..n], marshal);
      assert Views(ms)[..n] == Views(ms[..n]);
    }
  }

  /** What GetAll promises about its slice: a report of each entry with a
      non-empty name, exactly once. */
  ghost predicate ListsStore(ms: seq<Metric>, st: Maps)
    reads CellsOf(ms)
  {
    && (forall i :: 0 <= i < |ms| ==> IsEntry(View(ms[i]), st))
    && (forall k :: k in st.gauge && k != "" ==> exists i :: 0 <= i < |ms| && SortKey(ms[i]) == (Gauge, k))
    && (forall k :: k in st.counter && k != "" ==> exists i :: 0 <= i < |ms| && SortKey(ms[i]) == (Counter, k))
    && (forall i, j :: 0 <= i < j < |ms| ==> SortKey(ms[i]) != SortKey(ms[j]))
  }

  /** Where one of GetAll's loops over the names `all` stands, with `keys`
      still to visit: each visited non-empty name listed once, nothing
      else. */
  predicate Listed(ids: seq<string>, all: set<string>, keys: set<string>) {
    && keys <= all
    && (forall i :: 0 <= i < |ids| ==> ids[i] in all && ids[i] !in keys && ids[i] != "")
    && (forall k :: k in all && k !in keys && k != "" ==> k in ids)
    && (forall i, j :: 0 <= i < j < |ids| ==> ids[i] != ids[j])
  }

  /** Visiting one more name lists it unless it is empty. */
  lemma ListedStep(ids: seq<string>, all: set<string>, keys: set<string>, name: string)
    requires Listed(ids, all, keys) && name in keys
    ensures name != "" ==> Listed(ids + [name], all, keys - {name})
    ensures name == "" ==> Listed(ids, all, keys - {name})
  {
    if name != "" {
      var ids' := ids + [name];
      forall k | k in all && k !in keys - {name} && k != "" ensures k in ids' {
        if k != name {
          assert k in ids;
          var i :| 0 <= i < |ids| && ids[i] == k;
          assert ids'[i] == k;
        } else {
          assert ids'[|ids|] == k;
        }
      }
    }
  }

  /** ListsStore on metrics is IsListing on their records. */
  lemma ListsStoreIsListing(ms: seq<Metric>, st: Maps)
    requires ListsStore(ms, st)
    ensures IsListing(Views(ms), st)
  {
    var rs := Views(ms);
    forall k | k in st.gauge && k != "" ensures exists i :: 0 <= i < |rs| && RecKey(rs[i]) == (Gauge, k) {
      var i :| 0 <= i < |ms| && SortKey(ms[i]) == (Gauge, k);
      assert RecKey(rs[i]) == SortKey(ms[i]);
    }
    forall k | k in st.counter && k != "" ensures exists i :: 0 <= i < |rs| && RecKey(rs[i]) == (Counter, k) {
      var i :| 0 <= i < |ms| && SortKey(ms[i]) == (Counter, k);
      assert RecKey(rs[i]) == SortKey(ms[i]);
    }
    forall i, j | 0 <= i < j < |rs| ensures RecKey(rs[i]) != RecKey(rs[j]) {
      assert RecKey(rs[i]) == SortKey(ms[i]) && RecKey(rs[j]) == SortKey(ms[j]);
    }
  }

  /** No two metrics of a slice with distinct keys are equal, so each
      occurs once. */
  lemma {:induction false} DistinctKeysOnce(ms: seq<Metric>)
    requires forall i, j :: 0 <= i < j < |ms| ==> SortKey(ms[i]) != SortKey(ms[j])
    ensures forall x :: multiset(ms)[x] <= 1
  {
    if ms != [] {
      var n := |ms| - 1;
      DistinctKeysOnce(ms[..n]);
      assert ms == ms[..n] + [ms[n]];
      forall i | 0 <= i < n ensures ms[..n][i] != ms[n] {
        assert SortKey(ms[i]) != SortKey(ms[n]);
      }
      assert ms[n] !in multiset(ms[..n]);
    }
  }

  /** Elements occurring at most once are at one position only. */
  lemma OnceAtOnePosition<T>(s: seq<T>, i: int, j: int)
    requires 0 <= i < j < |s| && multiset(s)[s[i]] <= 1
    ensures s[i] != s[j]
  {
    assert s == s[..j] + [s[j]] + s[j + 1..];
    assert s[..j][i] == s[i];
    assert multiset(s) == multiset(s[..j]) + multiset{s[j]} + multiset(s[j + 1..]);
  }

  /** Sorting a listing yields the dump: the same reports, each key once,
      in strictly increasing (type, name) order. */
  lemma SortedListingIsDump(ms: seq<Metric>, sorted: seq<Metric>, st: Maps)
    requires ListsStore(ms, st)
    requires multiset(ms) == multiset(sorted)
    requires GoSort.Sorted(sorted, SortKey, KeyLess)
    ensures IsDump(Views(sorted), st)
  {
    forall i | 0 <= i < |sorted| ensures exists j :: 0 <= j < |ms| && ms[j] == sorted[i] {
      assert sorted[i] in multiset(ms);
    }
    assert ListsStore(sorted, st) by {
      forall i | 0 <= i < |sorted| ensures IsEntry(View(sorted[i]), st) {
        var j :| 0 <= j < |ms| && ms[j] == sorted[i];
      }
      forall k | k in st.gauge && k != "" ensures exists i :: 0 <= i < |sorted| && SortKey(sorted[i]) == (Gauge, k) {
        var j :| 0 <= j < |ms| && SortKey(ms[j]) == (Gauge, k);
        assert ms[j] in multiset(sorted);
      }
      forall k | k in st.counter && k != "" ensures exists i :: 0 <= i < |sorted| && SortKey(sorted[i]) == (Counter, k) {
        var j :| 0 <= j < |ms| && SortKey(ms[j]) == (Counter, k);
        assert ms[j] in multiset(sorted);
      }
      forall i, j | 0 <= i < j < |sorted| ensures SortKey(sorted[i]) != SortKey(sorted[j]) {
        DistinctKeysOnce(ms);
        OnceAtOnePosition(sorted, i, j);
        var p :| 0 <= p < |ms| && ms[p] == sorted[i];
        var q :| 0 <= q < |ms| && ms[q] == sorted[j];
        assert p < q ==> SortKey(ms[p]) != SortKey(ms[q]);
        assert q < p ==> SortKey(ms[q]) != SortKey(ms[p]);
      }
    }
    ListsStoreIsListing(sorted, st);
    var rs := Views(sorted);
    forall i, j | 0 <= i < j < |rs| ensures KeyLess(RecKey(rs[i]), RecKey(rs[j])) {
      assert RecKey(rs[i]) == SortKey(sorted[i]) && RecKey(rs[j]) == SortKey(sorted[j]);
      KeyLessTotal(SortKey(sorted[i]), SortKey(sorted[j]));
    }
  }

  /** MetricSliceToJSON on a slice of its own holding `metrics`: the bytes
      of the sorted records. */
  method SortedJSON(metrics: seq<Metric>, marshal: Record -> Option<seq<Byte>>) returns (data: seq<Byte>, ghost sorted: seq<Metric>)
    ensures multiset(sorted) == multiset(metrics)
    ensures GoSort.Sorted(sorted, SortKey, KeyLess)
    ensures data == RecordsJSON(Views(sorted), marshal)
  {
    var slice := new Metric[|metrics|](i requires 0 <= i < |metrics| => metrics[i]);
    assert slice[..] == metrics;
    data := MetricSliceToJSON(slice, marshal);
    sorted := slice[..];
    JSONTextIsRecordsJSON(sorted, marshal);
  }

  /** Encoding a listing of the store gives the store's dump. */
  method ListingJSON(metrics: seq<Metric>, ghost st: Maps, marshal: Record -> Option<seq<Byte>>) returns (data: seq<Byte>)
    requires ListsStore(metrics, st)
    ensures IsDumpData(data, st, marshal)
  {
    ghost var sorted;
    data, sorted := SortedJSON(metrics, marshal);
    SortedListingIsDump(metrics, sorted, st);
    ghost var recs := Views(sorted);
    assert IsDump(recs, st) && data == RecordsJSON(recs, marshal);
  }

  /** How Run reports the end of RunFileSaver: it returns at once in
      synchronized mode, returns after the cancellation, is still running
      when the events run out, or dereferences a nil ticker. */
  datatype RunOutcome = Synchronized | Stopped | StillRunning | NilTickerPanic

  // ---------------------------------------------------------------- store

  class MemoryStorage {
    var gauge: map<string, Float64>
    var counter: map<string, Int64>
    /** The store's own copy of the configuration's FileSaver. */
    var fileSaver: Settings
    /** Every byte string handed to `FileSaver.Save`, oldest first. */
    var written: seq<seq<Byte>>

    function Contents(): Maps
      reads this
    {
      Maps(gauge, counter)
    }

    /** NewMemoryStorage: empty maps, then the restore from the file's
        contents (`file` is None when the file cannot be opened). */
    constructor (fs: Settings, file: Option<seq<Byte>>, unmarshal: seq<Byte> -> Option<Record>)
      ensures fileSaver == fs && written == []
      ensures Contents() ==
        if fs.restore && file.Some? then Restore(Empty, ScanLines(file.value), unmarshal) else Empty
    {
      gauge := map[];
      counter := map[];
      fileSaver := fs;
      written := [];
      new;
      LoadStorageFromFile(file, unmarshal);
    }

    /** loadStorageFromFile: when the restore flag is set, applies the file
        line by line (a line that does not decode, or lacks the value its
        type needs, is skipped). */
    method LoadStorageFromFile(file: Option<seq<Byte>>, unmarshal: seq<Byte> -> Option<Record>)
      modifies this
      ensures fileSaver == old(fileSaver) && written == old(written)
      ensures Contents() ==
        if fileSaver.restore && file.Some? then Restore(old(Contents()), ScanLines(file.value), unmarshal)
        else old(Contents())
    {
      if !fileSaver.restore || file.None? {
        return;
      }
      var lines := ScanLines(file.value);
      var i := 0;
      while i < |lines|
        invariant 0 <= i <= |lines|
        invariant fileSaver == old(fileSaver) && written == old(written)
        invariant Contents() == Restore(old(Contents()), lines[..i], unmarshal)
      {
        assert lines[..i + 1][..i] == lines[..i];
        var metric := unmarshal(lines[i]);
        if metric.Some? {
          var m := metric.value;
          if m.mType == Gauge {
            if m.value.Some? {
              gauge := gauge[m.id := m.value.value];
            }
          } else if m.mType == Counter {
            if m.delta.Some? {
              counter := counter[m.id := m.delta.value];
            }
          }
        }
        i := i + 1;
      }
      assert lines[..|lines|] == lines;
    }

    /** Save: refused, with checkMetric's error, unless the metric is valid;
        otherwise the gauge is overwritten or the counter grows, and in
        synchronized mode the whole store is written out. */
    method Save(metric: Metric, marshal: Record -> Option<seq<Byte>>) returns (err: GoError)
      modifies this
      ensures err == CheckMetric(metric)
      ensures fileSaver == old(fileSaver)
      ensures Contents() == if err == Nil then Saved(old(Contents()), View(metric)) else old(Contents())
      ensures err == Nil && fileSaver.synchronizedSaving ==>
        && |written| == |old(written)| + 1 && written[..|old(written)|] == old(written)
        && IsDumpData(written[|old(written)|], Contents(), marshal)
      ensures !(err == Nil && fileSaver.synchronizedSaving) ==> written == old(written)
    {
      err := CheckMetric(metric);
      if err != Nil {
        return;
      }
      if metric.mType == Gauge {
        // GetGauge cannot fail on a gauge, and checkMetric saw the pointer.
        var value := GetGauge(metric).value;
        gauge := gauge[metric.id := value.val];
      } else {
        var value := GetCounter(metric).value;
        counter := counter[metric.id := AddWrap(CounterOr0(counter, metric.id), value.val)];
      }
      if fileSaver.synchronizedSaving {
        SaveToFile(marshal);
      }
    }

    /** Get: the entry of the given type and name as a metric with a fresh
        pointee, or the error for an empty name, an unknown type or a
        missing entry. */
    method Get(typeName: string, name: string) returns (r: Result<Metric>)
      ensures r.Ok? <==> name != "" && ((typeName == Gauge && name in gauge) || (typeName == Counter && name in counter))
      ensures r.Ok? ==> SortKey(r.value) == (typeName, name) && IsEntry(View(r.value), Contents())
      ensures r.Ok? && typeName == Gauge ==> r.value.value != null && fresh(r.value.value) && r.value.delta == null
      ensures r.Ok? && typeName == Counter ==> r.value.delta != null && fresh(r.value.delta) && r.value.value == null
      ensures name == "" ==> r == Err("ivalid metric name: ")
      ensures name != "" && typeName != Gauge && typeName != Counter ==> r == Err("invalid metric type: " + typeName)
      ensures name != "" && ((typeName == Gauge && name !in gauge) || (typeName == Counter && name !in counter)) ==>
        r == Err("metric not found")
    {
      var err := CheckName(name);
      if err.Error? {
        return Err(err.msg);
      }
      if typeName == Gauge {
        if name in gauge {
          var value := new Float64Cell(gauge[name]);
          return NewMetric(typeName, name, value, null);
        }
        return Err("metric not found");
      } else if typeName == Counter {
        if name in counter {
          var value := new Int64Cell(counter[name]);
          return NewMetric(typeName, name, null, value);
        }
        return Err("metric not found");
      }
      return Err("invalid metric type: " + typeName);
    }

    /** One gauge of GetAll: NewMetric with a fresh zero pointee, then
        UpdateGauge with the stored value. Only an empty name is refused. */
    static method GaugeEntry(name: string, v: Float64) returns (r: Result<Metric>)
      ensures r.Ok? <==> name != ""
      ensures r.Ok? ==> && r.value.id == name && r.value.mType == Gauge && r.value.delta == null
                        && r.value.value != null && fresh(r.value.value) && r.value.value.val == v
    {
      var value := new Float64Cell(PositiveZero);
      r := NewMetric(Gauge, name, value, null);
      if r.Ok? {
        var err := UpdateGauge(r.value, v);
      }
    }

    /** One counter of GetAll: NewMetric with a fresh zero pointee, then
        IncrementCounter by the stored value. */
    static method CounterEntry(name: string, d: Int64) returns (r: Result<Metric>)
      ensures r.Ok? <==> name != ""
      ensures r.Ok? ==> && r.value.id == name && r.value.mType == Counter && r.value.value == null
                        && r.value.delta != null && fresh(r.value.delta) && r.value.delta.val == d
    {
      var value := new Int64Cell(0);
      r := NewMetric(Counter, name, null, value);
      if r.Ok? {
        var err := IncrementCounter(r.value, d);
      }
    }

    /** The gauge half of GetAll: one metric per gauge with a non-empty
        name, in the map's (unspecified) iteration order. */
    method GaugeMetrics() returns (ms: seq<Metric>)
      ensures forall i :: 0 <= i < |ms| ==>
        ms[i].mType == Gauge && ms[i].delta == null && ms[i].value != null && IsEntry(View(ms[i]), Contents())
      ensures Listed(Ids(ms), gauge.Keys, {})
    {
      var keys := gauge.Keys;
      ms := [];
      while keys != {}
        invariant Listed(Ids(ms), gauge.Keys, keys)
        invariant forall i :: 0 <= i < |ms| ==>
          ms[i].mType == Gauge && ms[i].delta == null && ms[i].value != null && IsEntry(View(ms[i]), Contents())
        decreases keys
      {
        var name :| name in keys;
        ListedStep(Ids(ms), gauge.Keys, keys, name);
        keys := keys - {name};
        var metric := GaugeEntry(name, gauge[name]);
        if metric.Err? {
          continue;
        }
        assert Ids(ms + [metric.value]) == Ids(ms) + [name];
        ms := ms + [metric.value];
      }
    }

    /** The counter half of GetAll. */
    method CounterMetrics() returns (ms: seq<Metric>)
      ensures forall i :: 0 <= i < |ms| ==>
        ms[i].mType == Counter && ms[i].value == null && ms[i].delta != null && IsEntry(View(ms[i]), Contents())
      ensures Listed(Ids(ms), counter.Keys, {})
    {
      var keys := counter.Keys;
      ms := [];
      while keys != {}
        invariant Listed(Ids(ms), counter.Keys, keys)
        invariant forall i :: 0 <= i < |ms| ==>
          ms[i].mType == Counter && ms[i].value == null && ms[i].delta != null && IsEntry(View(ms[i]), Contents())
        decreases keys
      {
        var name :| name in keys;
        ListedStep(Ids(ms), counter.Keys, keys, name);
        keys := keys - {name};
        var metric := CounterEntry(name, counter[name]);
        if metric.Err? {
          continue;
        }
        assert Ids(ms + [metric.value]) == Ids(ms) + [name];
        ms := ms + [metric.value];
      }
    }

    /** GetAll: every entry with a non-empty name, once, gauges first. */
    method GetAll() returns (ms: seq<Metric>)
      ensures ListsStore(ms, Contents())
      ensures forall i, j :: 0 <= i < j < |ms| && ms[i].mType == Counter ==> ms[j].mType == Counter
    {
      var gauges := GaugeMetrics();
      var counters := CounterMetrics();
      ms := gauges + counters;
      forall k | k in gauge && k != "" ensures exists i :: 0 <= i < |ms| && SortKey(ms[i]) == (Gauge, k) {
        assert k in Ids(gauges);
        var i :| 0 <= i < |gauges| && Ids(gauges)[i] == k;
        assert ms[i] == gauges[i];
      }
      forall k | k in counter && k != "" ensures exists i :: 0 <= i < |ms| && SortKey(ms[i]) == (Counter, k) {
        assert k in Ids(counters);
        var i :| 0 <= i < |counters| && Ids(counters)[i] == k;
        assert ms[|gauges| + i] == counters[i];
      }
      forall i, j | 0 <= i < j < |ms| ensures SortKey(ms[i]) != SortKey(ms[j]) {
        if j < |gauges| {
          assert Ids(gauges)[i] != Ids(gauges)[j];
        } else if i >= |gauges| {
          assert Ids(counters)[i - |gauges|] != Ids(counters)[j - |gauges|];
        }
      }
    }

    /** What Save and the ticker do to write the store out: GetAll, sort
        and encode (MetricSliceToJSON), hand the bytes to FileSaver.Save. */
    method SaveToFile(marshal: Record -> Option<seq<Byte>>)
      modifies this
      ensures gauge == old(gauge) && counter == old(counter) && fileSaver == old(fileSaver)
      ensures |written| == |old(written)| + 1 && written[..|old(written)|] == old(written)
      ensures IsDumpData(written[|old(written)|], Contents(), marshal)
    {
      var metrics := GetAll();
      var data := ListingJSON(metrics, Contents(), marshal);
      written := written + [data];
    }

    /** RunFileSaver, driven by the events its `select` receives: nothing in
        synchronized mode; otherwise one save per tick and one more on
        cancellation, after which it returns. Without a ticker the `select`
        dereferences nil. */
    method RunFileSaver(events: seq<Event>, marshal: Record -> Option<seq<Byte>>) returns (outcome: RunOutcome)
      modifies this
      ensures gauge == old(gauge) && counter == old(counter) && fileSaver == old(fileSaver)
      ensures fileSaver.synchronizedSaving ==> outcome == Synchronized && written == old(written)
      ensures !fileSaver.synchronizedSaving && fileSaver.saveTicker.None? ==>
        outcome == NilTickerPanic && written == old(written)
      ensures !fileSaver.synchronizedSaving && fileSaver.saveTicker.Some? ==>
        && |written| == |old(written)| + Handled(events) && written[..|old(written)|] == old(written)
        && (forall k :: |old(written)| <= k < |written| ==> IsDumpData(written[k], Contents(), marshal))
        && (outcome == Stopped <==> Cancel in events)
        && (outcome == StillRunning <==> Cancel !in events)
    {
      if fileSaver.synchronizedSaving {
        return Synchronized;
      }
      if fileSaver.saveTicker.None? {
        return NilTickerPanic;
      }
      var i := 0;
      while i < |events|
        invariant 0 <= i <= |events| && Cancel !in events[..i]
        invariant gauge == old(gauge) && counter == old(counter) && fileSaver == old(fileSaver)
        invariant |written| == |old(written)| + i && written[..|old(written)|] == old(written)
        invariant forall k :: |old(written)| <= k < |written| ==> IsDumpData(written[k], Contents(), marshal)
      {
        ghost var before := written;
        SaveToFile(marshal);
        assert written[..|old(written)|] == before[..|old(written)|];
        assert forall k :: |old(written)| <= k < |before| ==> written[k] == before[k];
        if events[i] == Cancel {
          HandledFirstCancel(events, i);
          return Stopped;
        }
        assert events[..i + 1] == events[..i] + [events[i]];
        i := i + 1;
      }
      assert events[..i] == events;
      HandledFirstCancel(events, i);
      return StillRunning;
    }
  }
}
