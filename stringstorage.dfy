/** The string-valued server store (internal/storage/memstorage/memstorage.go).

    Two maps from name to the value's text. UpdateMetric stores a gauge's
    text verbatim and keeps a counter as decimal text, adding by parse, add
    (int64, wrapping) and format; the read operations return the text, a
    sorted plain-text listing, a string metric, or a JSON line per entry; a
    restore at start-up replays a file of JSON lines; in synchronized mode
    every update writes the JSON lines out.

    The file is the sequence of byte strings handed to `FileSaver.Save`
    (`written`). Encoding and decoding an MConnector as JSON are parameters
    (`marshal`, `unmarshal`), parsing a float64 is `codec.parse`. The
    store's RWMutex is not part of this class, which behaves as the code
    would with the Unlock on every path out of UpdateMetric's critical
    section; the lock protocol as written is modelled in module
    StoreLocks. */
module StringStorage {
  import opened Wrappers
  import opened GoLib
  import opened StringMetric
  import opened MetricConnector
  import opened FileSaver
  import GoSort

  /** The two maps of the store. */
  datatype Texts = Texts(gauge: map<string, string>, counter: map<string, string>)

  /** `strconv.ParseInt(s.counter[name], 10, 64)`, 0 when that fails, as it
      does for an absent name (Go reads "" for it). */
  function StoredCount(counter: map<string, string>, name: string): Int64 {
    match ParseInt(if name in counter then counter[name] else "")
    case Some(v) => v
    case None => 0
  }

  /** UpdateMetric's effect on the maps. */
  function AfterUpdate(st: Texts, name: string, mType: string, value: string): (r: Texts)
    ensures mType == Gauge ==>
      && r.counter == st.counter && r.gauge.Keys == st.gauge.Keys + {name} && r.gauge[name] == value
      && forall k :: k in st.gauge && k != name ==> r.gauge[k] == st.gauge[k]
    ensures mType == Counter && ParseInt(value).Some? ==>
      && r.gauge == st.gauge && r.counter.Keys == st.counter.Keys + {name}
      && ParseInt(r.counter[name]) == Some(AddWrap(StoredCount(st.counter, name), ParseInt(value).value))
      && CanonicalDecimal(r.counter[name])
      && forall k :: k in st.counter && k != name ==> r.counter[k] == st.counter[k]
    ensures (mType == Counter && ParseInt(value).None?) || (mType != Gauge && mType != Counter) ==> r == st
  {
    if mType == Gauge then st.(gauge := st.gauge[name := value])
    else if mType == Counter then
      match ParseInt(value)
      case None => st
      case Some(inc) =>
        var sum := AddWrap(StoredCount(st.counter, name), inc);
        ParseFormatInt(sum);
        FormatIntCanonical(sum);
        st.(counter := st.counter[name := FormatInt(sum)])
    else st
  }

  /** A positive number prints without a leading zero. */
  lemma FormatNatLead(m: nat)
    requires m >= 1
    ensures FormatNat(m)[0] != '0'
  {
    if m < 10 {
      assert FormatNat(m) == [DigitChar(m)];
    }
  }

  /** FormatInt prints canonical decimal text. */
  lemma FormatIntCanonical(n: Int64)
    ensures CanonicalDecimal(FormatInt(n))
  {
    if n < 0 {
      var m: nat := -(n as int);
      FormatNatLead(m);
      assert FormatInt(n) == "-" + FormatNat(m);
      assert FormatInt(n)[1..] == FormatNat(m);
    } else if n > 0 {
      FormatNatLead(n);
    }
  }

  /** Counter text the store wrote reads back as the running total: an
      update by `inc` moves it from `n` to `n + inc` (wrapping). */
  lemma CounterAccumulates(st: Texts, name: string, inc: Int64)
    requires name in st.counter && ParseInt(st.counter[name]).Some?
    ensures ParseInt(AfterUpdate(st, name, Counter, FormatInt(inc)).counter[name]) ==
      Some(AddWrap(ParseInt(st.counter[name]).value, inc))
  {
    ParseFormatInt(inc);
  }

  /** "40" twice into an empty store reads back as "80". */
  lemma CounterFortyTwice()
    ensures var st := AfterUpdate(AfterUpdate(Texts(map[], map[]), "PollCount", Counter, "40"), "PollCount", Counter, "40");
      "PollCount" in st.counter && st.counter["PollCount"] == "80"
  {
    assert DigitsValue("40") == 40 by {
      assert "40"[..1] == "4" && "4"[..0] == "";
    }
    assert ParseInt("40") == Some(40);
    assert ParseInt("") == None;
    assert FormatNat(40) == "40" by {
      assert FormatNat(4) == "4";
    }
    assert FormatNat(80) == "80" by {
      assert FormatNat(8) == "8";
    }
  }

  // ------------------------------------------------------- sorted listing

  predicate Distinct(s: seq<string>) {
    forall i, j :: 0 <= i < j < |s| ==> s[i] != s[j]
  }

  /** `names` lists `keys`, each once. */
  predicate Enumerates(names: seq<string>, keys: set<string>) {
    && Distinct(names)
    && (forall i :: 0 <= i < |names| ==> names[i] in keys)
    && (forall k :: k in keys ==> k in names)
  }

  /** `names` lists `keys` in increasing order. */
  predicate SortedNames(names: seq<string>, keys: set<string>) {
    && (forall i, j :: 0 <= i < j < |names| ==> StrLess(names[i], names[j]))
    && (forall i :: 0 <= i < |names| ==> names[i] in keys)
    && (forall k :: k in keys ==> k in names)
  }

  function Self(s: string): string {
    s
  }

  /** Go's `<` on strings is an order sort.Strings can sort by. */
  lemma StrLessIsStrictWeakOrder()
    ensures GoSort.StrictWeakOrder(StrLess)
  {
    forall x: string, y: string | StrLess(x, y) ensures !StrLess(y, x) {
      StrLessAsymmetric(x, y);
    }
    forall x: string, y: string, z: string | !StrLess(y, x) && !StrLess(z, y) ensures !StrLess(z, x) {
      if x != y {
        StrLessTotal(x, y);
      }
      if y != z {
        StrLessTotal(y, z);
      }
      if x == y && y == z {
        StrLessIrreflexive(x);
      } else if x == y {
        StrLessAsymmetric(x, z);
      } else if y == z {
        StrLessAsymmetric(x, z);
      } else {
        StrLessTransitive(x, y, z);
        StrLessAsymmetric(x, z);
      }
    }
  }

  lemma {:induction false} DistinctOnce(s: seq<string>, x: string)
    requires Distinct(s)
    ensures multiset(s)[x] <= 1
  {
    if |s| > 0 {
      var n := |s| - 1;
      assert s == s[..n] + [s[n]];
      DistinctOnce(s[..n], x);
      if x == s[n] {
        assert x !in s[..n];
      }
    }
  }

  lemma Twice(s: seq<string>, i: int, j: int)
    requires 0 <= i < j < |s| && s[i] == s[j]
    ensures multiset(s)[s[i]] >= 2
  {
    assert s == s[..j] + [s[j]] + s[j + 1..];
    assert s[i] in s[..j];
  }

  /** The keys of a map in increasing order: appended in the map's
      iteration order, then `sort.Strings`. */
  method SortedKeys(keys: set<string>) returns (names: seq<string>)
    ensures SortedNames(names, keys)
  {
    var rest := keys;
    var list: seq<string> := [];
    while rest != {}
      invariant Enumerates(list, keys - rest) && rest <= keys
      decreases rest
    {
      var k :| k in rest;
      list := list + [k];
      rest := rest - {k};
    }
    var a := new string[|list|](i requires 0 <= i < |list| => list[i]);
    assert a[..] == list;
    StrLessIsStrictWeakOrder();
    GoSort.Sort(a, Self, StrLess);
    names := a[..];
    forall i, j | 0 <= i < j < |names| ensures StrLess(names[i], names[j]) {
      if names[i] == names[j] {
        Twice(names, i, j);
        DistinctOnce(list, names[i]);
        assert false;
      }
      StrLessTotal(names[i], names[j]);
    }
    forall i | 0 <= i < |names| ensures names[i] in keys {
      assert names[i] in multiset(names);
    }
    assert keys - rest == keys;
    forall k | k in keys ensures k in names {
      assert k in list;
      assert k in multiset(list);
    }
  }

  /** Two increasing listings of the same names are the same listing. */
  lemma {:induction false} SortedNamesUnique(a: seq<string>, b: seq<string>, keys: set<string>)
    requires SortedNames(a, keys) && SortedNames(b, keys)
    ensures a == b
    decreases |a|
  {
    if a != [] {
      assert a[0] in b;
      assert b != [];
      if a[0] != b[0] {
        var j :| 0 <= j < |b| && b[j] == a[0];
        var i :| 0 <= i < |a| && a[i] == b[0];
        assert StrLess(b[0], a[0]) && StrLess(a[0], b[0]);
        StrLessAsymmetric(b[0], a[0]);
      }
      var rest := keys - {a[0]};
      forall k | k in rest ensures k in a[1..] {
        var i :| 0 <= i < |a| && a[i] == k;
        assert i != 0;
      }
      forall k | k in rest ensures k in b[1..] {
        var i :| 0 <= i < |b| && b[i] == k;
        assert i != 0;
      }
      forall i | 1 <= i < |a| ensures a[i] != a[0] {
        StrLessIrreflexive(a[0]);
      }
      forall i | 1 <= i < |b| ensures b[i] != b[0] {
        StrLessIrreflexive(b[0]);
      }
      SortedNamesUnique(a[1..], b[1..], rest);
      assert a == [a[0]] + a[1..] && b == [b[0]] + b[1..];
    }
  }

  /** One line of ReadAllMetrics: `fmt.Sprintf("%s: %s\n", key, value)`. */
  function Line(name: string, value: string): string {
    name + ": " + value + "\n"
  }

  /** The lines of `names`, in that order. */
  function Lines(names: seq<string>, m: map<string, string>): string
    requires forall i :: 0 <= i < |names| ==> names[i] in m
  {
    if names == [] then "" else Lines(names[..|names| - 1], m) + Line(names[|names| - 1], m[names[|names| - 1]])
  }

  /** One half of ReadAllMetrics: the lines of a map in increasing name
      order. */
  method ListLines(m: map<string, string>) returns (out: string, ghost names: seq<string>)
    ensures SortedNames(names, m.Keys) && out == Lines(names, m)
  {
    out := "";
    var keys := SortedKeys(m.Keys);
    for i := 0 to |keys|
      invariant out == Lines(keys[..i], m)
    {
      assert keys[..i + 1][..i] == keys[..i];
      out := out + Line(keys[i], m[keys[i]]);
    }
    assert keys[..|keys|] == keys;
    names := keys;
  }

  /** The plain-text listing of a store, with `g` and `c` its gauge and
      counter names in increasing order. */
  ghost predicate IsListing(out: string, st: Texts) {
    exists g: seq<string>, c: seq<string> {:trigger SortedNames(g, st.gauge.Keys), SortedNames(c, st.counter.Keys)} ::
      && SortedNames(g, st.gauge.Keys) && SortedNames(c, st.counter.Keys)
      && out == Lines(g, st.gauge) + Lines(c, st.counter)
  }

  /** A store has one listing. */
  lemma ListingUnique(out1: string, out2: string, st: Texts)
    requires IsListing(out1, st) && IsListing(out2, st)
    ensures out1 == out2
  {
    var g1, c1 :| SortedNames(g1, st.gauge.Keys) && SortedNames(c1, st.counter.Keys)
      && out1 == Lines(g1, st.gauge) + Lines(c1, st.counter);
    var g2, c2 :| SortedNames(g2, st.gauge.Keys) && SortedNames(c2, st.counter.Keys)
      && out2 == Lines(g2, st.gauge) + Lines(c2, st.counter);
    SortedNamesUnique(g1, g2, st.gauge.Keys);
    SortedNamesUnique(c1, c2, st.counter.Keys);
  }

  // --------------------------------------------------------- JSON lines

  /** The JSON line ReadAllMetricsJSON writes for one entry: nothing when
      ReadEntireMetric (that is NewMetric), MConnect or the encoder fails. */
  function JSONEntry(name: string, mType: string, value: string, codec: FloatCodec,
                     marshal: MConnector -> Option<seq<Byte>>): seq<Byte>
  {
    if !Acceptable(name, mType, value, codec) then []
    else
      match MConnect(name, mType, value, codec)
      case Err(_) => []
      case Ok(mc) =>
        match marshal(mc)
        case None => []
        case Some(data) => data + [NewLine]
  }

  /** The JSON lines of `names`, in that order. */
  function JSONLines(names: seq<string>, mType: string, m: map<string, string>, codec: FloatCodec,
                     marshal: MConnector -> Option<seq<Byte>>): seq<Byte>
    requires forall i :: 0 <= i < |names| ==> names[i] in m
  {
    if names == [] then []
    else
      var n := |names| - 1;
      JSONLines(names[..n], mType, m, codec, marshal) + JSONEntry(names[n], mType, m[names[n]], codec, marshal)
  }

  /** What ReadAllMetricsJSON may return for a store: the gauges' lines,
      then the counters', each half in some order of its map. */
  ghost predicate IsJSONDump(data: seq<Byte>, st: Texts, codec: FloatCodec, marshal: MConnector -> Option<seq<Byte>>) {
    exists g: seq<string>, c: seq<string> {:trigger Enumerates(g, st.gauge.Keys), Enumerates(c, st.counter.Keys)} ::
      && Enumerates(g, st.gauge.Keys) && Enumerates(c, st.counter.Keys)
      && data == JSONLines(g, Gauge, st.gauge, codec, marshal) + JSONLines(c, Counter, st.counter, codec, marshal)
  }

  // ------------------------------------------------------------ restore

  /** What one line of the file restores: the fields of the metric
      MDisConnect builds from its decoded connector, if both steps succeed. */
  function LineEntry(line: seq<Byte>, unmarshal: seq<Byte> -> Option<MConnector>, codec: FloatCodec)
    : Option<(string, string, string)>
  {
    match unmarshal(line)
    case None => None
    case Some(mc) =>
      match DisConnected(mc, codec)
      case Err(_) => None
      case Ok(p) => Some(p)
  }

  /** One restored entry stored verbatim under its type; any other type is
      skipped. */
  function RestoreEntry(st: Texts, p: (string, string, string)): Texts {
    if p.1 == Gauge then st.(gauge := st.gauge[p.0 := p.2])
    else if p.1 == Counter then st.(counter := st.counter[p.0 := p.2])
    else st
  }

  /** The restore loop over the lines of the file, in order. */
  function Restore(st: Texts, lines: seq<seq<Byte>>, unmarshal: seq<Byte> -> Option<MConnector>, codec: FloatCodec): Texts {
    if lines == [] then st
    else
      var n := |lines| - 1;
      var before := Restore(st, lines[..n], unmarshal, codec);
      match LineEntry(lines[n], unmarshal, codec)
      case None => before
      case Some(p) => RestoreEntry(before, p)
  }

  /** A line of 64 KiB or more in the file ends the restore there without
      an error: the lines after it are not restored. */
  lemma LongLineEndsRestore(st: Texts, lines: seq<seq<Byte>>, long: seq<Byte>, rest: seq<Byte>,
                            unmarshal: seq<Byte> -> Option<MConnector>, codec: FloatCodec)
    requires forall i :: 0 <= i < |lines| ==> PlainLine(lines[i])
    requires NewLine !in long && |long| >= MaxScanTokenSize
    ensures Restore(st, ScanLines(Terminated(lines) + (long + [NewLine] + rest)), unmarshal, codec) ==
      Restore(st, lines, unmarshal, codec)
  {
    ScanStopsAtLongLine(lines, long, rest);
  }


  /** The entries a file sets: for each name and type, the text of its
      last line that restores. */
  function FileTexts(lines: seq<seq<Byte>>, unmarshal: seq<Byte> -> Option<MConnector>, codec: FloatCodec): Texts {
    if lines == [] then Texts(map[], map[])
    else
      var n := |lines| - 1;
      var before := FileTexts(lines[..n], unmarshal, codec);
      match LineEntry(lines[n], unmarshal, codec)
      case None => before
      case Some(p) => RestoreEntry(before, p)
  }

  /** Every entry a restore writes is one NewMetric would accept: a counter
      as FormatInt of the line's delta, a gauge as the line's value printed
      with ten decimals. */
  lemma LineEntryAcceptable(line: seq<Byte>, unmarshal: seq<Byte> -> Option<MConnector>, codec: FloatCodec)
    requires LineEntry(line, unmarshal, codec).Some?
    ensures var (name, mType, text) := LineEntry(line, unmarshal, codec).value;
      && Acceptable(name, mType, text, codec)
      && mType == unmarshal(line).value.mType && name == unmarshal(line).value.id
      && (mType == Counter ==> text == FormatInt(unmarshal(line).value.delta.value))
      && (mType == Gauge ==> text == codec.formatFixed10(unmarshal(line).value.value.value))
  {
  }

  /** Restoring overrides the maps with what the file sets, the last line
      for a name winning over earlier lines and over what was stored: a
      restored counter replaces the stored text, it is not added to it. */
  lemma {:induction false} RestoreIsOverride(st: Texts, lines: seq<seq<Byte>>,
                                             unmarshal: seq<Byte> -> Option<MConnector>, codec: FloatCodec)
    ensures var f := FileTexts(lines, unmarshal, codec);
      Restore(st, lines, unmarshal, codec) == Texts(st.gauge + f.gauge, st.counter + f.counter)
  {
    if lines != [] {
      var n := |lines| - 1;
      RestoreIsOverride(st, lines[..n], unmarshal, codec);
      var f := FileTexts(lines[..n], unmarshal, codec);
      match LineEntry(lines[n], unmarshal, codec)
      case None =>
      case Some(p) =>
        assert (st.gauge + f.gauge)[p.0 := p.2] == st.gauge + f.gauge[p.0 := p.2];
        assert (st.counter + f.counter)[p.0 := p.2] == st.counter + f.counter[p.0 := p.2];
    } else {
      assert st.gauge + map[] == st.gauge;
      assert st.counter + map[] == st.counter;
    }
  }

  /** Restoring the same file twice is restoring it once. */
  lemma RestoreIdempotent(st: Texts, lines: seq<seq<Byte>>, unmarshal: seq<Byte> -> Option<MConnector>, codec: FloatCodec)
    ensures Restore(Restore(st, lines, unmarshal, codec), lines, unmarshal, codec) == Restore(st, lines, unmarshal, codec)
  {
    var once := Restore(st, lines, unmarshal, codec);
    var f := FileTexts(lines, unmarshal, codec);
    RestoreIsOverride(st, lines, unmarshal, codec);
    RestoreIsOverride(once, lines, unmarshal, codec);
    assert once.gauge + f.gauge == once.gauge;
    assert once.counter + f.counter == once.counter;
  }

  /** How RunFileSaver ends: at once in synchronized mode, never in ticker
      mode (it ranges over the ticker's channel), or with a nil-pointer
      panic when ticker mode has no ticker. */
  datatype SaverOutcome = Synchronized | StillRunning | NilTickerPanic

  // ---------------------------------------------------------------- store

  class InMemoryStorage {
    var gauge: map<string, string>
    var counter: map<string, string>
    /** The store's copy of the configuration's FileSaver. */
    var fileSaver: Settings
    /** Every byte string handed to `FileSaver.Save`, oldest first. */
    var written: seq<seq<Byte>>

    function Contents(): Texts
      reads this
    {
      Texts(gauge, counter)
    }

    /** NewInMemoryStorage: empty maps, then the restore from the file's
        contents (`file` is None when the file cannot be opened). The
        saver goroutine it starts is RunFileSaver. */
    constructor (fs: Settings, file: Option<seq<Byte>>, unmarshal: seq<Byte> -> Option<MConnector>, codec: FloatCodec)
      ensures fileSaver == fs && written == []
      ensures Contents() ==
        if fs.restore && file.Some? then Restore(Texts(map[], map[]), ScanLines(file.value), unmarshal, codec)
        else Texts(map[], map[])
    {
      gauge := map[];
      counter := map[];
      fileSaver := fs;
      written := [];
      new;
      LoadStorageFromFile(file, unmarshal, codec);
    }

    /** loadStorageFromFile: when the restore flag is set, each line that
        decodes and converts stores its text under its type. */
    method LoadStorageFromFile(file: Option<seq<Byte>>, unmarshal: seq<Byte> -> Option<MConnector>, codec: FloatCodec)
      modifies this
      ensures fileSaver == old(fileSaver) && written == old(written)
      ensures Contents() ==
        if fileSaver.restore && file.Some? then Restore(old(Contents()), ScanLines(file.value), unmarshal, codec)
        else old(Contents())
    {
      if !fileSaver.restore || file.None? {
        return;
      }
      var lines := ScanLines(file.value);
      var i := 0;
      while i < |lines|
        invariant 0 <= i <= |lines|
        invariant fileSaver == old(fileSaver) && written == old(written)
        invariant Contents() == Restore(old(Contents()), lines[..i], unmarshal, codec)
      {
        assert lines[..i + 1][..i] == lines[..i];
        var mC := unmarshal(lines[i]);
        i := i + 1;
        if mC.None? {
          continue;
        }
        var m, err := MDisConnect(mC.value, codec);
        if err != Nil {
          continue;
        }
        if m.GetType() == Gauge {
          gauge := gauge[m.GetName() := m.GetValue()];
        } else if m.GetType() == Counter {
          counter := counter[m.GetName() := m.GetValue()];
        }
      }
      assert lines[..|lines|] == lines;
    }

    /** ReadMetricValue: the stored text; an absent name and an unknown
        type both give the "invalid metric type" error. */
    method ReadMetricValue(mType: string, mName: string) returns (value: string, err: GoError)
      ensures err == Nil <==> (mType == Gauge && mName in gauge) || (mType == Counter && mName in counter)
      ensures err == Nil && mType == Gauge ==> value == gauge[mName]
      ensures err == Nil && mType == Counter ==> value == counter[mName]
      ensures err != Nil ==> value == "" && err == Error("invalid metric type " + mType)
    {
      if mType == Gauge {
        if mName in gauge {
          return gauge[mName], Nil;
        }
      } else if mType == Counter {
        if mName in counter {
          return counter[mName], Nil;
        }
      }
      return "", Error("invalid metric type " + mType);
    }

    /** ReadAllMetrics: the gauges in increasing name order, then the
        counters, one "name: value" line each. */
    method ReadAllMetrics() returns (out: string)
      ensures IsListing(out, Contents())
    {
      var gauges, g := ListLines(gauge);
      var counters, c := ListLines(counter);
      out := gauges + counters;
      assert SortedNames(g, gauge.Keys) && SortedNames(c, counter.Keys);
    }

    /** ReadEntireMetric: a fresh string metric holding the stored text;
        an error for an absent name, for text NewMetric refuses, and for an
        unknown type. */
    method ReadEntireMetric(mType: string, mName: string, codec: FloatCodec) returns (m: Metric?, err: GoError)
      ensures err == Nil <==>
        || (mType == Gauge && mName in gauge && Acceptable(mName, Gauge, gauge[mName], codec))
        || (mType == Counter && mName in counter && Acceptable(mName, Counter, counter[mName], codec))
      ensures err == Nil ==>
        m != null && fresh(m) && m.GetParams() == (mName, mType, if mType == Gauge then gauge[mName] else counter[mName])
      ensures err != Nil ==> m == null
      ensures mType != Gauge && mType != Counter ==> err == Error("invalid metric type " + mType)
      ensures (mType == Gauge && mName !in gauge) || (mType == Counter && mName !in counter) ==>
        err == Error("metric " + mType + " not found")
    {
      if mType == Gauge || mType == Counter {
        var stored := if mType == Gauge then gauge else counter;
        if mName in stored {
          m, err := NewMetric(mName, mType, stored[mName], codec);
          if err != Nil {
            return null, Error("cannot return metric: " + mName);
          }
          return m, Nil;
        }
        return null, Error("metric " + mType + " not found");
      }
      return null, Error("invalid metric type " + mType);
    }

    /** One half of ReadAllMetricsJSON: a JSON line per entry of the given
        type, in the map's (unspecified) iteration order. */
    method JSONHalf(mType: string, codec: FloatCodec, marshal: MConnector -> Option<seq<Byte>>)
      returns (out: seq<Byte>, ghost names: seq<string>)
      requires mType == Gauge || mType == Counter
      ensures var m := if mType == Gauge then gauge else counter;
        Enumerates(names, m.Keys) && out == JSONLines(names, mType, m, codec, marshal)
    {
      var stored := if mType == Gauge then gauge else counter;
      var rest := stored.Keys;
      out, names := [], [];
      while rest != {}
        invariant Enumerates(names, stored.Keys - rest) && rest <= stored.Keys
        invariant out == JSONLines(names, mType, stored, codec, marshal)
        decreases rest
      {
        var name :| name in rest;
        rest := rest - {name};
        assert (names + [name])[..|names|] == names;
        ghost var line := JSONEntry(name, mType, stored[name], codec, marshal);
        names := names + [name];
        var m, err := ReadEntireMetric(mType, name, codec);
        if err != Nil {
          continue;
        }
        var mC := MConnect(m.mName, m.mType, m.mValue, codec);
        if mC.Err? {
          continue;
        }
        var jsonData := marshal(mC.value);
        if jsonData.None? {
          continue;
        }
        out := out + jsonData.value + [NewLine];
      }
    }

    /** ReadAllMetricsJSON: the gauges' JSON lines, then the counters'. */
    method ReadAllMetricsJSON(codec: FloatCodec, marshal: MConnector -> Option<seq<Byte>>) returns (out: seq<Byte>)
      ensures IsJSONDump(out, Contents(), codec, marshal)
    {
      var gauges, g := JSONHalf(Gauge, codec, marshal);
      var counters, c := JSONHalf(Counter, codec, marshal);
      out := gauges + counters;
      assert Enumerates(g, gauge.Keys) && Enumerates(c, counter.Keys);
    }

    /** UpdateMetric: AfterUpdate's change to the maps, then, in
        synchronized mode, one save of the JSON lines, whatever the update
        did; a failed save is only logged. */
    method UpdateMetric(m: Metric, codec: FloatCodec, marshal: MConnector -> Option<seq<Byte>>)
      modifies this
      ensures fileSaver == old(fileSaver)
      ensures Contents() == AfterUpdate(old(Contents()), m.mName, m.mType, m.mValue)
      ensures fileSaver.synchronizedSaving ==>
        |written| == |old(written)| + 1 && written[..|old(written)|] == old(written) &&
        IsJSONDump(written[|old(written)|], Contents(), codec, marshal)
      ensures !fileSaver.synchronizedSaving ==> written == old(written)
    {
      var (mName, mType, mValue) := m.GetParams();
      if mType == Gauge {
        gauge := gauge[mName := mValue];
      } else if mType == Counter {
        var tempCVal: Int64 := StoredCount(counter, mName);
        var counterIncrement := ParseInt(mValue);
        if counterIncrement.Some? {
          counter := counter[mName := FormatInt(AddWrap(tempCVal, counterIncrement.value))];
        }
      }
      if fileSaver.synchronizedSaving {
        var data := ReadAllMetricsJSON(codec, marshal);
        written := written + [data];
      }
    }

    /** SetFileSaver. */
    method SetFileSaver(fs: Settings)
      modifies this
      ensures fileSaver == fs && Contents() == old(Contents()) && written == old(written)
    {
      fileSaver := fs;
    }

    /** RunFileSaver, after `ticks` ticks: in ticker mode one save per
        tick, with no way to stop; nothing in synchronized mode. */
    method RunFileSaver(ticks: nat, codec: FloatCodec, marshal: MConnector -> Option<seq<Byte>>) returns (outcome: SaverOutcome)
      modifies this
      ensures Contents() == old(Contents()) && fileSaver == old(fileSaver)
      ensures fileSaver.synchronizedSaving ==> outcome == Synchronized && written == old(written)
      ensures !fileSaver.synchronizedSaving && fileSaver.saveTicker.None? ==>
        outcome == NilTickerPanic && written == old(written)
      ensures !fileSaver.synchronizedSaving && fileSaver.saveTicker.Some? ==>
        && outcome == StillRunning
        && |written| == |old(written)| + ticks && written[..|old(written)|] == old(written)
        && forall k :: |old(written)| <= k < |written| ==> IsJSONDump(written[k], Contents(), codec, marshal)
    {
      if fileSaver.synchronizedSaving {
        return Synchronized;
      }
      if fileSaver.saveTicker.None? {
        return NilTickerPanic;
      }
      for i := 0 to ticks
        invariant Contents() == old(Contents()) && fileSaver == old(fileSaver)
        invariant |written| == |old(written)| + i && written[..|old(written)|] == old(written)
        invariant forall k :: |old(written)| <= k < |written| ==> IsJSONDump(written[k], Contents(), codec, marshal)
      {
        var data := ReadAllMetricsJSON(codec, marshal);
        written := written + [data];
      }
      return StillRunning;
    }
  }
}
