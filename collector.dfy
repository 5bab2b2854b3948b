/** The agent's metric collector (internal/collector/collector.go).

    The collector keeps a table from metric name to a pcstats metric whose
    pointee it updates in place. What `runtime.ReadMemStats` and reflection
    yield is the `sample` parameter: for each MemStats field whose value is a
    float or an unsigned integer, that value as a float64 (the conversion is
    not modelled). `rand.NormFloat64` is the `draws` parameter, the stream of
    values it would return. The collector's RWMutex is not modelled. */
module Collector {
  import opened Wrappers
  import opened GoLib
  import opened PcStats

  const RandomValue: string := "RandomValue"

  // ---------------------------------------------------------- random draws

  /** How many draws the redraw loop would accept (the non-zero ones). */
  function NonZeroCount(s: seq<Float64>): nat {
    if s == [] then 0 else (if IsZero(s[0]) then 0 else 1) + NonZeroCount(s[1..])
  }

  /** The first draw the redraw loop accepts. */
  function FirstNonZero(s: seq<Float64>): (f: Float64)
    requires NonZeroCount(s) > 0
    ensures !IsZero(f) && f in s
  {
    if IsZero(s[0]) then FirstNonZero(s[1..]) else s[0]
  }

  /** The draws left once the redraw loop has accepted one. */
  function AfterFirstNonZero(s: seq<Float64>): (rest: seq<Float64>)
    requires NonZeroCount(s) > 0
    ensures NonZeroCount(rest) == NonZeroCount(s) - 1
  {
    if IsZero(s[0]) then AfterFirstNonZero(s[1..]) else s[1..]
  }

  /** The draws left after `n` accepted ones. */
  function Skip(s: seq<Float64>, n: nat): (rest: seq<Float64>)
    requires NonZeroCount(s) >= n
    ensures NonZeroCount(rest) == NonZeroCount(s) - n
  {
    if n == 0 then s else AfterFirstNonZero(Skip(s, n - 1))
  }

  /** The `n`-th accepted draw, counting from 0. */
  function Accepted(s: seq<Float64>, n: nat): Float64
    requires NonZeroCount(s) > n
  {
    FirstNonZero(Skip(s, n))
  }

  /** Each stage of the draws is what the redraw loop leaves of the one
      before. */
  predicate Chain(stages: seq<seq<Float64>>) {
    forall i :: 0 <= i < |stages| - 1 ==>
      NonZeroCount(stages[i]) > 0 && stages[i + 1] == AfterFirstNonZero(stages[i])
  }

  /** The draws left after 0, 1, ..., `n` accepted ones. */
  function Stages(s: seq<Float64>, n: nat): (st: seq<seq<Float64>>)
    requires NonZeroCount(s) >= n
    ensures |st| == n + 1 && Chain(st)
    ensures forall i :: 0 <= i <= n ==> st[i] == Skip(s, i)
  {
    seq(n + 1, i requires 0 <= i <= n => Skip(s, i))
  }

  /** Where the redraw loops stand after `count` accepted draws: `rest` is
      what is left and `last` the latest accepted draw. */
  predicate DrawnAt(stages: seq<seq<Float64>>, count: nat, rest: seq<Float64>, last: Option<Float64>) {
    && count < |stages|
    && rest == stages[count]
    && (count == 0 ==> last == None)
    && (count > 0 ==> NonZeroCount(stages[count - 1]) > 0 && last == Some(FirstNonZero(stages[count - 1])))
  }

  /** Skipping `a` accepted draws and then `b` more is skipping `a + b`. */
  lemma {:induction false} SkipSkip(s: seq<Float64>, a: nat, b: nat)
    requires NonZeroCount(s) >= a + b
    ensures Skip(Skip(s, a), b) == Skip(s, a + b)
    decreases b
  {
    if b > 0 {
      SkipSkip(s, a, b - 1);
    }
  }

  /** The `b`-th draw accepted after `a` accepted ones is the `a + b`-th. */
  lemma AcceptedAfterSkip(s: seq<Float64>, a: nat, b: nat)
    requires NonZeroCount(s) > a + b
    ensures Accepted(Skip(s, a), b) == Accepted(s, a + b)
    ensures !IsZero(Accepted(s, a + b))
  {
    SkipSkip(s, a, b);
  }

  // ------------------------------------------------------------ the table

  /** The shape NewCollector gives an entry: a gauge with a Value pointer
      and no Delta, or a counter the other way round. */
  predicate Entry(m: Metric) {
    || (m.mType == Gauge && m.value != null && m.delta == null)
    || (m.mType == Counter && m.delta != null && m.value == null)
  }

  /** A template NewCollector does not skip. */
  predicate IsTemplate(t: Metric) {
    t.mType == Gauge || t.mType == Counter
  }

  /** The type each name gets from the templates: the last template of that
      name wins. */
  function Table(templates: seq<Metric>): map<string, string> {
    if templates == [] then map[]
    else
      var t := templates[|templates| - 1];
      var rest := Table(templates[..|templates| - 1]);
      if IsTemplate(t) then rest[t.id := t.mType] else rest
  }

  /** The table has an entry for exactly the names of gauge and counter
      templates. */
  lemma {:induction false} TableKeys(templates: seq<Metric>)
    ensures forall k :: k in Table(templates) <==>
      exists i :: 0 <= i < |templates| && IsTemplate(templates[i]) && templates[i].id == k
  {
    if templates != [] {
      var n := |templates| - 1;
      TableKeys(templates[..n]);
      forall k ensures k in Table(templates) <==>
        exists i :: 0 <= i < |templates| && IsTemplate(templates[i]) && templates[i].id == k
      {
        if k in Table(templates[..n]) {
          var i :| 0 <= i < n && IsTemplate(templates[..n][i]) && templates[..n][i].id == k;
          assert templates[i] == templates[..n][i];
        }
        if exists i :: 0 <= i < |templates| && IsTemplate(templates[i]) && templates[i].id == k {
          var i :| 0 <= i < |templates| && IsTemplate(templates[i]) && templates[i].id == k;
          if i < n {
            assert templates[..n][i] == templates[i];
          }
        }
      }
    }
  }

  /** Each entry has the type of the last template of its name. */
  lemma {:induction false} TableLast(templates: seq<Metric>, i: nat)
    requires i < |templates| && IsTemplate(templates[i])
    requires forall j :: i < j < |templates| && IsTemplate(templates[j]) ==> templates[j].id != templates[i].id
    ensures templates[i].id in Table(templates) && Table(templates)[templates[i].id] == templates[i].mType
  {
    var n := |templates| - 1;
    if i < n {
      assert templates[..n][i] == templates[i];
      assert forall j :: i < j < n ==> templates[..n][j] == templates[j];
      TableLast(templates[..n], i);
    }
  }

  /** The record of a freshly created entry: zero in the pointer its type uses. */
  function Zero(k: string, mType: string): Record {
    if mType == Gauge then Record(k, Gauge, None, Some(PositiveZero)) else Record(k, Counter, Some(0), None)
  }

  /** A zero counter: Delta at 0, no Value. */
  lemma ZeroCounter(k: string)
    ensures Zero(k, Counter) == Record(k, Counter, Some(0), None)
  {
    assert Counter != Gauge;
  }

  /** The table NewCollector builds from a name-to-type table. */
  function Zeroed(table: map<string, string>): (t: map<string, Record>)
    ensures t.Keys == table.Keys
  {
    map k | k in table :: Zero(k, table[k])
  }

  /** NewCollector's table: one zero entry per name of a gauge or counter
      template, of the type of the last such template of that name. */
  lemma NewTableEntries(templates: seq<Metric>, k: string)
    ensures k in Zeroed(Table(templates)) <==>
      exists i :: 0 <= i < |templates| && IsTemplate(templates[i]) && templates[i].id == k
    ensures forall i :: (0 <= i < |templates| && IsTemplate(templates[i]) && templates[i].id == k &&
      (forall j :: i < j < |templates| && IsTemplate(templates[j]) ==> templates[j].id != k)) ==>
      Zeroed(Table(templates))[k] == Zero(k, templates[i].mType)
  {
    TableKeys(templates);
    forall i | 0 <= i < |templates| && IsTemplate(templates[i]) && templates[i].id == k &&
      (forall j :: i < j < |templates| && IsTemplate(templates[j]) ==> templates[j].id != k)
      ensures Zeroed(Table(templates))[k] == Zero(k, templates[i].mType)
    {
      TableLast(templates, i);
    }
  }

  /** What one Collect does to the entry for `k`: a counter grows by 1;
      RandomValue, a gauge, takes the accepted draw `rnd`; another gauge takes
      its runtime field when there is one; nothing else changes. */
  function Collected(k: string, r: Record, sample: map<string, Float64>, rnd: Float64): Record {
    if r.mType == Counter then
      if r.delta.Some? then r.(delta := Some(AddWrap(r.delta.value, 1))) else r
    else if r.mType == Gauge && r.value.Some? then
      if k == RandomValue then r.(value := Some(rnd))
      else if k in sample then r.(value := Some(sample[k]))
      else r
    else r
  }

  /** UpdateGauge on a record: a non-counter with a Value pointer takes `v`. */
  function WithGauge(r: Record, v: Float64): Record {
    if r.mType != Counter && r.value.Some? then r.(value := Some(v)) else r
  }

  /** IncrementCounter(1) on a counter record with a Delta pointer. */
  function Incremented(r: Record): Record {
    if r.mType == Counter && r.delta.Some? then r.(delta := Some(AddWrap(r.delta.value, 1))) else r
  }

  /** Collect's runtime field and counter steps on one record. */
  function Touched(k: string, r: Record, sample: map<string, Float64>): Record {
    Incremented(if k in sample then WithGauge(r, sample[k]) else r)
  }

  /** Collect's steps, one key after the other, amount to Collected on each
      entry of NewCollector's shape. */
  lemma CollectedSplit(k: string, r: Record, sample: map<string, Float64>, rnd: Float64)
    requires r.mType == Gauge || r.mType == Counter
    ensures k != RandomValue ==> Collected(k, r, sample, rnd) == Touched(k, r, sample)
    ensures k == RandomValue ==> Collected(k, r, sample, rnd) == WithGauge(Touched(k, r, sample), rnd)
  {
  }

  /** Collect on a whole table: every entry as Collected says, with the
      last accepted draw for RandomValue. */
  function CollectedTable(t: map<string, Record>, sample: map<string, Float64>, rnd: Float64): (t': map<string, Record>)
    ensures t'.Keys == t.Keys
  {
    map k | k in t :: Collected(k, t[k], sample, rnd)
  }

  /** The table part way through Collect: the keys in `touched` have had
      their runtime field and counter steps, and RandomValue holds the last
      accepted draw once there is one. */
  function Progress(start: map<string, Record>, touched: set<string>, sample: map<string, Float64>, rnd: Option<Float64>): map<string, Record> {
    map k | k in start :: Stage(k, start[k], k in touched, sample, rnd)
  }

  function Stage(k: string, r: Record, touched: bool, sample: map<string, Float64>, rnd: Option<Float64>): Record {
    var t := if touched then Touched(k, r, sample) else r;
    if k == RandomValue && rnd.Some? then WithGauge(t, rnd.value) else t
  }

  /** One more key of Collect's loop. */
  lemma ProgressStep(start: map<string, Record>, touched: set<string>, key: string, sample: map<string, Float64>,
                     rnd: Option<Float64>, next: Float64)
    requires key in start && key !in touched && RandomValue in start
    ensures Visited(Progress(start, touched, sample, rnd), key, sample, next) == Progress(start, touched + {key}, sample, Some(next))
  {
    var q' := Visited(Progress(start, touched, sample, rnd), key, sample, next);
    var p' := Progress(start, touched + {key}, sample, Some(next));
    forall k | k in start ensures q'[k] == p'[k] {
      if k == RandomValue {
        TouchedWithRandom(k, start[k], sample, rnd, key, touched, next);
      }
    }
  }

  lemma TouchedWithRandom(k: string, r: Record, sample: map<string, Float64>, rnd: Option<Float64>,
                          key: string, touched: set<string>, next: Float64)
    requires k == RandomValue && key !in touched
    ensures
      var p := Stage(k, r, k in touched, sample, rnd);
      var q := if k == key then Touched(key, p, sample) else p;
      WithGauge(q, next) == Stage(k, r, k in touched + {key}, sample, Some(next))
  {
  }

  /** Once every key is done, the table is Collect's whole effect. The
      entries must be gauges or counters, as NewCollector makes them. */
  lemma ProgressDone(start: map<string, Record>, sample: map<string, Float64>, rnd: Float64)
    requires forall k :: k in start ==> start[k].mType == Gauge || start[k].mType == Counter
    ensures Progress(start, start.Keys, sample, Some(rnd)) == CollectedTable(start, sample, rnd)
  {
    forall k | k in start
      ensures Progress(start, start.Keys, sample, Some(rnd))[k] == CollectedTable(start, sample, rnd)[k]
    {
      CollectedSplit(k, start[k], sample, rnd);
    }
  }

  /** One round of Collect's loop on a table. */
  function Visited(t: map<string, Record>, key: string, sample: map<string, Float64>, rnd: Float64): map<string, Record>
    requires key in t
  {
    var q := t[key := Touched(key, t[key], sample)];
    if RandomValue in q then q[RandomValue := WithGauge(q[RandomValue], rnd)] else q
  }

  /** Where Collect's loop over the keys stands: `count` keys `done`, the
      rest of `all` still to visit. */
  predicate Round(all: set<string>, keys: set<string>, done: set<string>, count: nat) {
    keys !! done && keys + done == all && |done| == count && count + |keys| == |all|
  }

  /** Moving a key from the keys still to visit to those done. */
  lemma MoveKey(all: set<string>, keys: set<string>, done: set<string>, count: nat, key: string)
    requires Round(all, keys, done, count) && key in keys
    ensures Round(all, keys - {key}, done + {key}, count + 1) && |keys - {key}| < |keys|
  {
  }

  /** A finished loop has visited every key. */
  lemma RoundDone(all: set<string>, done: set<string>, count: nat)
    requires Round(all, {}, done, count)
    ensures done == all && count == |all|
  {
  }

  /** Where Collect's loop stands: `count` keys of `all` are `done` and
      `keys` are left; `rest` is what the draws have left and `last` the
      latest accepted one; `cur`, the table, is `start` with every done key
      stepped. */
  predicate LoopState(all: set<string>, start: map<string, Record>, sample: map<string, Float64>, stages: seq<seq<Float64>>,
                      keys: set<string>, done: set<string>, count: nat, rest: seq<Float64>, last: Option<Float64>,
                      cur: map<string, Record>)
  {
    && start.Keys == all
    && |stages| == |all| + 1 && Chain(stages)
    && Round(all, keys, done, count)
    && (count > 0 ==> RandomValue in all)
    && DrawnAt(stages, count, rest, last)
    && cur == Progress(start, done, sample, last)
  }

  lemma LoopStarts(all: set<string>, start: map<string, Record>, sample: map<string, Float64>, stages: seq<seq<Float64>>)
    requires start.Keys == all && |stages| == |all| + 1 && Chain(stages)
    ensures LoopState(all, start, sample, stages, all, {}, 0, stages[0], None, start)
  {
    assert Progress(start, {}, sample, None) == start;
  }

  /** A key is left, so a draw is left for it. */
  lemma LoopDraws(all: set<string>, start: map<string, Record>, sample: map<string, Float64>, stages: seq<seq<Float64>>,
                  keys: set<string>, done: set<string>, count: nat, rest: seq<Float64>, last: Option<Float64>,
                  cur: map<string, Record>, key: string)
    requires LoopState(all, start, sample, stages, keys, done, count, rest, last, cur) && key in keys
    ensures NonZeroCount(rest) > 0 && key in cur
  {
    assert keys != {};
    assert count < |stages| - 1;
  }

  /** One round of the loop, done without a panic, keeps its state. */
  lemma LoopStep(all: set<string>, start: map<string, Record>, sample: map<string, Float64>, stages: seq<seq<Float64>>,
                 keys: set<string>, done: set<string>, count: nat, rest: seq<Float64>, last: Option<Float64>,
                 cur: map<string, Record>, key: string)
    requires LoopState(all, start, sample, stages, keys, done, count, rest, last, cur) && key in keys
    requires RandomValue in all
    ensures NonZeroCount(rest) > 0 && key in cur
    ensures |keys - {key}| < |keys|
    ensures LoopState(all, start, sample, stages, keys - {key}, done + {key}, count + 1,
                      AfterFirstNonZero(rest), Some(FirstNonZero(rest)), Visited(cur, key, sample, FirstNonZero(rest)))
  {
    MoveKey(all, keys, done, count, key);
    assert keys != {};
    assert count < |stages| - 1;
    ProgressStep(start, done, key, sample, last, FirstNonZero(rest));
  }

  lemma LoopEnds(all: set<string>, start: map<string, Record>, sample: map<string, Float64>, stages: seq<seq<Float64>>,
                 done: set<string>, count: nat, rest: seq<Float64>, last: Option<Float64>, cur: map<string, Record>)
    requires LoopState(all, start, sample, stages, {}, done, count, rest, last, cur)
    ensures Round(all, {}, done, count) && DrawnAt(stages, count, rest, last) && cur == Progress(start, done, sample, last)
    ensures all != {} ==> RandomValue in all
  {
    RoundDone(all, done, count);
  }

  /** Collect's loop starts with no key visited, and the draws staged for
      one accepted draw per key. */
  lemma StartCollect(start: map<string, Record>, sample: map<string, Float64>, draws: seq<Float64>)
    requires NonZeroCount(draws) >= |start|
    ensures Progress(start, {}, sample, None) == start
    ensures Round(start.Keys, start.Keys, {}, 0)
    ensures |start.Keys| == |start|
  {
    assert Progress(start, {}, sample, None) == start;
  }

  /** When Collect's loop has visited every key, the table is Collect's
      whole effect, with the last of its accepted draws in RandomValue, and
      the draws left are those after one accepted draw per key. */
  lemma FinishCollect(start: map<string, Record>, sample: map<string, Float64>, draws: seq<Float64>,
                      stages: seq<seq<Float64>>, done: set<string>, count: nat, rest: seq<Float64>, last: Option<Float64>)
    requires NonZeroCount(draws) >= |start| && stages == Stages(draws, |start|)
    requires Round(start.Keys, {}, done, count) && DrawnAt(stages, count, rest, last)
    requires forall k :: k in start ==> start[k].mType == Gauge || start[k].mType == Counter
    ensures count == |start| && rest == Skip(draws, |start|)
    ensures start != map[] ==>
      Progress(start, done, sample, last) == CollectedTable(start, sample, Accepted(draws, |start| - 1))
  {
    RoundDone(start.Keys, done, count);
    assert |start| == |start.Keys|;
    FinishedDraws(draws, stages, count, rest, last);
    if start != map[] {
      ProgressDone(start, sample, Accepted(draws, count - 1));
    }
  }

  /** After one accepted draw per key, what is left of the draws and the
      latest one. */
  lemma FinishedDraws(draws: seq<Float64>, stages: seq<seq<Float64>>, n: nat, rest: seq<Float64>, last: Option<Float64>)
    requires NonZeroCount(draws) >= n && stages == Stages(draws, n) && DrawnAt(stages, n, rest, last)
    ensures rest == Skip(draws, n)
    ensures n > 0 ==> last == Some(Accepted(draws, n - 1))
  {
    if n > 0 {
      assert stages[n - 1] == Skip(draws, n - 1);
    }
  }

  // ------------------------------------------------------------ polling

  /** The draws are enough for `n` polls of a table of `per` entries: each
      poll finds `per` non-zero draws in what the polls before it left. */
  predicate Enough(draws: seq<Float64>, per: nat, n: nat)
    decreases n, 0
  {
    n == 0 || (Enough(draws, per, n - 1) && NonZeroCount(Left(draws, per, n - 1)) >= per)
  }

  /** The draws left after `n` polls of a table of `per` entries. */
  function Left(draws: seq<Float64>, per: nat, n: nat): (rest: seq<Float64>)
    requires Enough(draws, per, n)
    decreases n, 1
  {
    if n == 0 then draws else Skip(Left(draws, per, n - 1), per)
  }

  /** Enough draws for `e` polls are enough for fewer. */
  lemma {:induction false} EnoughFewer(draws: seq<Float64>, per: nat, e: nat, i: nat)
    requires Enough(draws, per, e) && i <= e
    ensures Enough(draws, per, i)
    decreases e
  {
    if i < e {
      EnoughFewer(draws, per, e - 1, i);
    }
  }

  /** How many draws `n` polls of `per` entries accept. */
  function PollDraws(per: nat, n: nat): nat {
    if n == 0 then 0 else PollDraws(per, n - 1) + per
  }

  /** That is `n * per`. */
  lemma {:induction false} PollDrawsIsProduct(per: nat, n: nat)
    ensures PollDraws(per, n) == n * per
  {
    if n > 0 {
      PollDrawsIsProduct(per, n - 1);
      assert n * per == (n - 1) * per + per;
    }
  }

  /** Polls use up draws as one long stream: after `n` polls, the draws
      left are those after the first PollDraws(per, n) accepted ones. */
  lemma {:induction false} LeftIsSkip(draws: seq<Float64>, per: nat, n: nat)
    requires Enough(draws, per, n)
    ensures NonZeroCount(draws) >= PollDraws(per, n) && Left(draws, per, n) == Skip(draws, PollDraws(per, n))
    decreases n
  {
    if n > 0 {
      LeftIsSkip(draws, per, n - 1);
      SkipSkip(draws, PollDraws(per, n - 1), per);
    }
  }

  /** The draw each of `n` polls of `per` entries leaves in RandomValue: the
      last of the `per` it accepts. */
  function RandomDraws(draws: seq<Float64>, per: nat, n: nat): (rnds: seq<Float64>)
    requires per > 0 && Enough(draws, per, n)
    ensures |rnds| == n
  {
    if n == 0 then [] else RandomDraws(draws, per, n - 1) + [Accepted(Left(draws, per, n - 1), per - 1)]
  }

  /** Poll `i` (from 0) of `n` leaves the last of its draws in RandomValue. */
  lemma {:induction false} RandomDrawsAt(draws: seq<Float64>, per: nat, n: nat, i: nat)
    requires per > 0 && Enough(draws, per, n) && i < n
    ensures Enough(draws, per, i + 1) && RandomDraws(draws, per, n)[i] == Accepted(Left(draws, per, i), per - 1)
    decreases n
  {
    if i < n - 1 {
      RandomDrawsAt(draws, per, n - 1, i);
    }
  }

  /** Poll `i` (from 0) leaves the `(i + 1) * per`-th accepted draw of the
      whole stream, counting from 1, and that draw is non-zero. */
  lemma RandomDrawsInStream(draws: seq<Float64>, per: nat, n: nat, i: nat)
    requires per > 0 && Enough(draws, per, n) && i < n
    ensures NonZeroCount(draws) >= (i + 1) * per >= 1
    ensures RandomDraws(draws, per, n)[i] == Accepted(draws, (i + 1) * per - 1)
    ensures !IsZero(RandomDraws(draws, per, n)[i])
  {
    var a := PollDraws(per, i);
    RandomDrawsAt(draws, per, n, i);
    LeftIsSkip(draws, per, i);
    assert NonZeroCount(draws) > a + (per - 1) by {
      assert NonZeroCount(Left(draws, per, i)) >= per;
    }
    AcceptedAfterSkip(draws, a, per - 1);
    PollDrawsIsProduct(per, i + 1);
    assert PollDraws(per, i + 1) - 1 == a + (per - 1);
  }

  /** An entry after `n` Collects, the `i`-th (from 0) with runtime sample
      `samples[i]` and `rnds[i]` as its last accepted draw. */
  function PolledEntry(k: string, r: Record, samples: seq<map<string, Float64>>, rnds: seq<Float64>, n: nat): Record
    requires n <= |samples| && n <= |rnds|
  {
    if n == 0 then r else Collected(k, PolledEntry(k, r, samples, rnds, n - 1), samples[n - 1], rnds[n - 1])
  }

  /** A table after `n` Collects: each entry on its own, as PolledEntry says. */
  function Polled(t: map<string, Record>, samples: seq<map<string, Float64>>, rnds: seq<Float64>, n: nat): (r: map<string, Record>)
    requires n <= |samples| && n <= |rnds|
    ensures r.Keys == t.Keys
  {
    map k | k in t :: PolledEntry(k, t[k], samples, rnds, n)
  }

  /** One more Collect on a polled table is one more poll. */
  lemma PolledNext(t: map<string, Record>, samples: seq<map<string, Float64>>, rnds: seq<Float64>, n: nat)
    requires n < |samples| && n < |rnds|
    ensures CollectedTable(Polled(t, samples, rnds, n), samples[n], rnds[n]) == Polled(t, samples, rnds, n + 1)
  {
  }

  /** Where `i` of `n` polls of a table of `per` entries leave the draws:
      `left` is what they leave and `rnds` the draws each poll ends with. */
  predicate PollFacts(draws: seq<Float64>, per: nat, n: nat, rnds: seq<Float64>, i: nat, left: seq<Float64>) {
    && i <= n && Enough(draws, per, n) && Enough(draws, per, i) && left == Left(draws, per, i)
    && (per > 0 ==> rnds == RandomDraws(draws, per, n))
  }

  /** One more poll finds its draws in what the others left. */
  lemma PollFactsNext(draws: seq<Float64>, per: nat, n: nat, rnds: seq<Float64>, i: nat, left: seq<Float64>)
    requires i < n && PollFacts(draws, per, n, rnds, i, left)
    ensures Enough(draws, per, i + 1) && NonZeroCount(left) >= per
    ensures PollFacts(draws, per, n, rnds, i + 1, Skip(left, per))
  {
    EnoughFewer(draws, per, n, i + 1);
  }

  /** Collect on a table polled `i` times, with the draws the polls left,
      polls it once more. */
  lemma PollStep(start: map<string, Record>, samples: seq<map<string, Float64>>, draws: seq<Float64>, per: nat, n: nat,
                 rnds: seq<Float64>, i: nat, left: seq<Float64>, before: map<string, Record>, after: map<string, Record>)
    requires per > 0 && i < n <= |samples| && Enough(draws, per, n) && Enough(draws, per, i + 1)
    requires rnds == RandomDraws(draws, per, n) && before == Polled(start, samples, rnds, i)
    requires left == Left(draws, per, i) && after == CollectedTable(before, samples[i], Accepted(left, per - 1))
    ensures after == Polled(start, samples, rnds, i + 1)
  {
    RandomDrawsAt(draws, per, n, i);
    PolledNext(start, samples, rnds, i);
  }

  /** "gauge" and "counter" differ. */
  lemma GaugeIsNotCounter()
    ensures Gauge != Counter
  {
  }

  /** Collect adds 1 to a counter with a Delta pointer. */
  lemma CollectedCounter(k: string, r: Record, sample: map<string, Float64>, rnd: Float64)
    requires r.mType == Counter && r.delta.Some?
    ensures Collected(k, r, sample, rnd) == r.(delta := Some(AddWrap(r.delta.value, 1)))
  {
  }

  /** Collect keeps a gauge with a Value pointer one, and gives it the
      accepted draw if it is RandomValue. */
  lemma CollectedGauge(k: string, r: Record, sample: map<string, Float64>, rnd: Float64)
    requires r.mType == Gauge && r.value.Some?
    ensures Collected(k, r, sample, rnd).id == r.id && Collected(k, r, sample, rnd).mType == Gauge
    ensures Collected(k, r, sample, rnd).value.Some?
    ensures k == RandomValue ==> Collected(k, r, sample, rnd).value == Some(rnd)
  {
    GaugeIsNotCounter();
  }

  /** Polls keep a gauge with a Value pointer one. */
  lemma {:induction false} PolledGauge(k: string, r: Record, samples: seq<map<string, Float64>>, rnds: seq<Float64>, n: nat)
    requires n <= |samples| && n <= |rnds| && r.mType == Gauge && r.value.Some?
    ensures PolledEntry(k, r, samples, rnds, n).id == r.id && PolledEntry(k, r, samples, rnds, n).mType == Gauge
    ensures PolledEntry(k, r, samples, rnds, n).value.Some?
  {
    if n > 0 {
      PolledGauge(k, r, samples, rnds, n - 1);
      CollectedGauge(k, PolledEntry(k, r, samples, rnds, n - 1), samples[n - 1], rnds[n - 1]);
    }
  }

  /** After `n` polls a counter has grown by `n` (int64 wrap-around). */
  lemma {:induction false} PolledCounter(k: string, r: Record, samples: seq<map<string, Float64>>, rnds: seq<Float64>, n: nat)
    requires n <= |samples| && n <= |rnds| && r.mType == Counter && r.delta.Some?
    ensures PolledEntry(k, r, samples, rnds, n) == r.(delta := Some(Wrap(r.delta.value + n)))
  {
    if n > 0 {
      PolledCounter(k, r, samples, rnds, n - 1);
      CollectedCounter(k, PolledEntry(k, r, samples, rnds, n - 1), samples[n - 1], rnds[n - 1]);
      WrapAddWrap(r.delta.value + (n - 1), 1);
    }
  }

  /** A counter NewCollector created reads the number of polls, as long as
      that fits in an int64. */
  lemma PollCountCountsPolls(t: map<string, Record>, samples: seq<map<string, Float64>>, rnds: seq<Float64>, n: nat, k: string)
    requires n <= |samples| && n <= |rnds|
    requires k in t && t[k] == Zero(k, Counter) && n < TwoTo63
    ensures Polled(t, samples, rnds, n)[k].delta == Some(n as Int64)
  {
    ZeroCounter(k);
    PolledCounter(k, t[k], samples, rnds, n);
  }

  /** After at least one poll, RandomValue, when it is a gauge with a
      value, holds the last poll's draw. */
  lemma PolledRandomValue(t: map<string, Record>, samples: seq<map<string, Float64>>, rnds: seq<Float64>, n: nat)
    requires 0 < n <= |samples| && n <= |rnds|
    requires RandomValue in t && t[RandomValue].mType == Gauge && t[RandomValue].value.Some?
    ensures Polled(t, samples, rnds, n)[RandomValue].value == Some(rnds[n - 1])
  {
    var r := t[RandomValue];
    PolledGauge(RandomValue, r, samples, rnds, n - 1);
    CollectedGauge(RandomValue, PolledEntry(RandomValue, r, samples, rnds, n - 1), samples[n - 1], rnds[n - 1]);
  }

  /** Two tables without keys are equal. */
  lemma NoKeys(a: map<string, Record>, b: map<string, Record>)
    requires a.Keys == {} && b.Keys == {}
    ensures a == b
  {
  }

  /** Entering a name into the table gives it the zero record of its type. */
  lemma ZeroedUpdate(table: map<string, string>, k: string, mType: string)
    ensures Zeroed(table[k := mType]) == Zeroed(table)[k := Zero(k, mType)]
  {
  }

  /** The table after the templates before `i` and the one at `i`. */
  lemma TableNext(templates: seq<Metric>, i: nat)
    requires i < |templates|
    ensures Table(templates[..i + 1]) ==
      if IsTemplate(templates[i]) then Table(templates[..i])[templates[i].id := templates[i].mType]
      else Table(templates[..i])
  {
    assert templates[..i + 1][..i] == templates[..i];
  }

  // -------------------------------------------------------- GetMetrics

  /** Where a loop over the names `all` stands, with `keys` still to visit:
      each visited name listed exactly once, nothing else. */
  predicate Gathered(ids: seq<string>, all: set<string>, keys: set<string>) {
    && keys <= all
    && (forall i :: 0 <= i < |ids| ==> ids[i] in all && ids[i] !in keys)
    && (forall k :: k in all && k !in keys ==> k in ids)
    && (forall i, j :: 0 <= i < j < |ids| ==> ids[i] != ids[j])
  }

  /** Visiting one more name lists it. */
  lemma GatheredStep(ids: seq<string>, all: set<string>, keys: set<string>, name: string)
    requires Gathered(ids, all, keys) && name in keys
    ensures Gathered(ids + [name], all, keys - {name})
  {
    var ids' := ids + [name];
    forall k | k in all && k !in keys - {name} ensures k in ids' {
      if k != name {
        var i :| 0 <= i < |ids| && ids[i] == k;
        assert ids'[i] == k;
      } else {
        assert ids'[|ids|] == k;
      }
    }
  }

  /** A finished loop has listed every name once. */
  lemma GatheredAll(ids: seq<string>, all: set<string>, k: string)
    requires Gathered(ids, all, {}) && k in all
    ensures exists i :: 0 <= i < |ids| && ids[i] == k
  {
    assert k in ids;
  }

  /** A Collect changes every counter's record. */
  lemma CollectedChangesCounter(t: map<string, Record>, sample: map<string, Float64>, rnd: Float64, k: string)
    requires k in t && t[k].mType == Counter && t[k].delta.Some?
    ensures CollectedTable(t, sample, rnd)[k] != t[k]
  {
    CollectedCounter(k, t[k], sample, rnd);
    WrapDifferent(t[k].delta.value);
  }

  /** How Run ends: on cancellation, with the events exhausted, or in a panic. */
  datatype RunEnd = Cancelled | EventsExhausted | RunPanicked(reason: string)

  class Collector {
    var stats: map<string, Metric>

    /** The pointees of the table. */
    ghost var Repr: set<object?>

    /** The name of the entry each pointee belongs to. */
    ghost var Owner: map<object?, string>

    /** The records the table points to. */
    ghost var table: map<string, Record>

    /** `&Collector{stats: make(map[string]*pcstats.Metric)}`. */
    constructor ()
      ensures Valid() && stats == map[] && Repr == {} && Owner == map[] && table == map[]
    {
      stats := map[];
      Repr := {};
      Owner := map[];
      table := map[];
    }

    /** Every entry is filed under its name, has NewCollector's shape, and
        has pointees of its own, all in Repr: no two entries share one. */
    ghost predicate Valid()
      reads this, Repr
    {
      this !in Repr && table.Keys == stats.Keys && forall k :: k in stats ==> Filed(k)
    }

    /** The entry `k` is filed under its name, has NewCollector's shape, its
        pointees are in Repr and belong to it, and `table` holds its record. */
    ghost predicate Filed(k: string)
      reads this, Repr
    {
      && k in stats && k in table
      && stats[k].id == k && Entry(stats[k]) && Cells(stats[k]) <= Repr
      && (stats[k].value != null ==> stats[k].value in Owner && Owner[stats[k].value] == k)
      && (stats[k].delta != null ==> stats[k].delta in Owner && Owner[stats[k].delta] == k)
      && table[k] == View(stats[k])
    }

    /** `c.stats[key].UpdateGauge(v)`. */
    method GaugeAt(key: string, v: Float64)
      requires Valid() && key in stats
      modifies this, stats[key].value
      ensures Valid() && stats == old(stats) && Repr == old(Repr) && Owner == old(Owner)
      ensures table == old(table)[key := WithGauge(old(table)[key], v)]
    {
      var err := UpdateGauge(stats[key], v);
      table := table[key := WithGauge(table[key], v)];
      forall k | k in stats ensures Filed(k) {
        if k != key {
          assert View(stats[k]) == old(View(stats[k]));
        }
      }
    }

    /** `c.stats[key].IncrementCounter(1)`. */
    method IncrementAt(key: string)
      requires Valid() && key in stats
      modifies this, stats[key].delta
      ensures Valid() && stats == old(stats) && Repr == old(Repr) && Owner == old(Owner)
      ensures table == old(table)[key := Incremented(old(table)[key])]
    {
      var err := IncrementCounter(stats[key], 1);
      table := table[key := Incremented(table[key])];
      forall k | k in stats ensures Filed(k) {
        if k != key {
          assert View(stats[k]) == old(View(stats[k]));
        }
      }
    }

    /** The runtime field and counter steps of Collect for one key. */
    method Touch(key: string, sample: map<string, Float64>)
      requires Valid() && key in stats
      modifies this, stats[key].value, stats[key].delta
      ensures Valid() && stats == old(stats) && Repr == old(Repr) && Owner == old(Owner)
      ensures table == old(table)[key := Touched(key, old(table)[key], sample)]
    {
      if key in sample {
        GaugeAt(key, sample[key]);
      }
      if stats[key].mType == Counter {
        IncrementAt(key);
      }
    }

    /** `c.stats["RandomValue"].UpdateGauge(randomValue)`. */
    method SetRandom(randomValue: Float64)
      requires Valid() && RandomValue in stats
      modifies this, stats[RandomValue].value
      ensures Valid() && stats == old(stats) && Repr == old(Repr) && Owner == old(Owner)
      ensures table == old(table)[RandomValue := WithGauge(old(table)[RandomValue], randomValue)]
    {
      GaugeAt(RandomValue, randomValue);
    }

    /** One round of Collect's loop: the key's runtime field and counter
        steps, then redraws until a non-zero value and stores it in
        RandomValue, which is a nil dereference when the table lacks it. */
    method Visit(key: string, sample: map<string, Float64>, draws: seq<Float64>) returns (rest: seq<Float64>, outcome: Completion)
      requires Valid() && key in stats && NonZeroCount(draws) > 0
      modifies this, Repr
      ensures Valid() && stats == old(stats) && Repr == old(Repr) && rest == AfterFirstNonZero(draws)
      ensures outcome.Panicked? <==> RandomValue !in stats
      ensures outcome == Returned ==> table == Visited(old(table), key, sample, FirstNonZero(draws))
    {
      ghost var before := table;
      Touch(key, sample);
      ghost var touched := table;
      rest := draws;
      while IsZero(rest[0])
        invariant NonZeroCount(rest) > 0
        invariant FirstNonZero(rest) == FirstNonZero(draws)
        invariant AfterFirstNonZero(rest) == AfterFirstNonZero(draws)
        decreases |rest|
      {
        rest := rest[1..];
      }
      var randomValue := rest[0];
      rest := rest[1..];
      if RandomValue !in stats {
        return rest, Panicked("invalid memory address or nil pointer dereference");
      }
      SetRandom(randomValue);
      outcome := Returned;
    }

    /** Collect's loop state, over the table as it is now. */
    ghost predicate Inv(all: set<string>, start: map<string, Record>, sample: map<string, Float64>, stages: seq<seq<Float64>>,
                        keys: set<string>, done: set<string>, count: nat, rest: seq<Float64>, last: Option<Float64>)
      reads this, Repr
    {
      Valid() && LoopState(all, start, sample, stages, keys, done, count, rest, last, table)
    }

    /** Visit as one round of Collect's loop. */
    method Step(key: string, sample: map<string, Float64>, rest: seq<Float64>,
                 ghost all: set<string>, ghost start: map<string, Record>, ghost stages: seq<seq<Float64>>,
                 ghost keys: set<string>, ghost done: set<string>, ghost count: nat, ghost last: Option<Float64>)
      returns (left: seq<Float64>, outcome: Completion)
      requires key in keys && Inv(all, start, sample, stages, keys, done, count, rest, last)
      modifies this, Repr
      ensures Valid() && stats == old(stats) && Repr == old(Repr) && |keys - {key}| < |keys|
      ensures outcome.Panicked? <==> RandomValue !in stats
      ensures outcome == Returned ==> NonZeroCount(rest) > 0
      ensures outcome == Returned ==>
        Inv(all, start, sample, stages, keys - {key}, done + {key}, count + 1, left, Some(FirstNonZero(rest)))
    {
      ghost var cur := table;
      LoopDraws(all, start, sample, stages, keys, done, count, rest, last, cur, key);
      left, outcome := Visit(key, sample, rest);
      if outcome == Returned {
        LoopStep(all, start, sample, stages, keys, done, count, rest, last, cur, key);
      }
    }

    /** Collect's loop over the keys, from the state LoopStarts gives.
        `stages` are the draws left after each accepted draw, from `draws`
        on. */
    method CollectLoop(sample: map<string, Float64>, draws: seq<Float64>,
                       ghost start: map<string, Record>, ghost stages: seq<seq<Float64>>)
      returns (outcome: Completion, left: seq<Float64>, ghost done: set<string>, ghost count: nat, ghost last: Option<Float64>)
      requires Inv(stats.Keys, start, sample, stages, stats.Keys, {}, 0, draws, None)
      modifies this, Repr
      ensures Valid() && stats == old(stats) && Repr == old(Repr)
      ensures outcome.Panicked? ==> |stats| > 0 && RandomValue !in stats
      ensures outcome == Returned ==> Inv(stats.Keys, start, sample, stages, {}, done, count, left, last)
    {
      var keys := stats.Keys;
      ghost var all := keys;
      outcome, left := Returned, draws;
      done, count, last := {}, 0, None;
      while keys != {}
        invariant outcome == Returned && stats == old(stats) && Repr == old(Repr)
        invariant Inv(all, start, sample, stages, keys, done, count, left, last)
        decreases |keys|
      {
        var key :| key in keys;
        ghost var rest := left;
        left, outcome := Step(key, sample, left, all, start, stages, keys, done, count, last);
        if outcome.Panicked? {
          return;
        }
        keys := keys - {key};
        done := done + {key};
        count := count + 1;
        last := Some(FirstNonZero(rest));
      }
    }

    /** `c.stats[metric.GetName()] = metric`, for a metric of NewCollector's
        shape whose pointees belong to no entry yet. */
    method Put(m: Metric)
      requires Valid() && Entry(m)
      requires m.delta != null ==> m.delta !in Owner
      requires m.value != null ==> m.value !in Owner
      modifies this
      ensures Valid() && stats == old(stats)[m.id := m] && Repr == old(Repr) + Cells(m)
      ensures table == old(table)[m.id := View(m)]
    {
      stats := stats[m.id := m];
      table := table[m.id := View(m)];
      Repr, Owner := Repr + Cells(m), Owner[m.delta := m.id][m.value := m.id];
      forall k | k in stats ensures Filed(k) {
        if k != m.id {
          assert stats[k] == old(stats)[k];
        }
      }
    }

    /** GetMetrics as written: one metric per entry, each a copy of the
        entry's struct, so it shares the entry's Value and Delta pointers. */
    method GetMetrics() returns (out: seq<Metric>)
      requires Valid()
      ensures |out| == |stats|
      ensures forall i :: 0 <= i < |out| ==> out[i].id in stats && out[i] == stats[out[i].id]
      ensures forall k :: k in stats ==> exists i :: 0 <= i < |out| && out[i].id == k
      ensures forall i, j :: 0 <= i < j < |out| ==> out[i].id != out[j].id
    {
      var keys := stats.Keys;
      out := [];
      while keys != {}
        invariant Gathered(Ids(out), stats.Keys, keys)
        invariant |out| + |keys| == |stats|
        invariant forall i :: 0 <= i < |out| ==> out[i] == stats[out[i].id]
        decreases keys
      {
        var key :| key in keys;
        GatheredStep(Ids(out), stats.Keys, keys, key);
        assert Ids(out + [stats[key]]) == Ids(out) + [key];
        out := out + [stats[key]];
        keys := keys - {key};
      }
      forall k | k in stats ensures exists i :: 0 <= i < |out| && out[i].id == k {
        GatheredAll(Ids(out), stats.Keys, k);
      }
    }

    /** GetMetrics with the pointees copied as well, so that the result is
        a value: one record per entry, the entry's record. */
    method GetMetricsCopy() returns (out: seq<Record>)
      requires Valid()
      ensures |out| == |stats|
      ensures forall i :: 0 <= i < |out| ==> out[i].id in stats && out[i] == table[out[i].id]
      ensures forall k :: k in stats ==> exists i :: 0 <= i < |out| && out[i].id == k
      ensures forall i, j :: 0 <= i < j < |out| ==> out[i].id != out[j].id
    {
      var keys := stats.Keys;
      out := [];
      ghost var ids := [];
      while keys != {}
        invariant Gathered(ids, stats.Keys, keys)
        invariant |out| == |ids| && |out| + |keys| == |stats|
        invariant forall i :: 0 <= i < |out| ==> ids[i] == out[i].id && out[i] == table[ids[i]]
        decreases keys
      {
        var key :| key in keys;
        GatheredStep(ids, stats.Keys, keys, key);
        out := out + [View(stats[key])];
        ids := ids + [key];
        keys := keys - {key};
      }
      forall k | k in stats ensures exists i :: 0 <= i < |out| && out[i].id == k {
        GatheredAll(ids, stats.Keys, k);
      }
    }

    /** Collect: for every entry, its runtime field if it has one, +1 if it
        is a counter, then a new non-zero RandomValue. A table without
        RandomValue is dereferenced at nil on the first entry (a panic).
        `left` is what the draws have left for the next Collect. */
    method Collect(sample: map<string, Float64>, draws: seq<Float64>) returns (outcome: Completion, left: seq<Float64>)
      requires Valid()
      requires NonZeroCount(draws) >= |stats|
      modifies this, Repr
      ensures Valid() && stats == old(stats) && Repr == old(Repr)
      ensures outcome.Panicked? <==> |stats| > 0 && RandomValue !in stats
      ensures outcome == Returned ==> left == Skip(draws, |stats|)
      ensures outcome == Returned && |stats| > 0 ==>
        table == CollectedTable(old(table), sample, Accepted(draws, |stats| - 1))
    {
      ghost var start := table;
      StartCollect(start, sample, draws);
      ghost var stages := Stages(draws, |stats|);
      LoopStarts(stats.Keys, start, sample, stages);
      ghost var done, count, last;
      outcome, left, done, count, last := CollectLoop(sample, draws, start, stages);
      if outcome == Returned {
        LoopEnds(stats.Keys, start, sample, stages, done, count, left, last, table);
        FinishCollect(start, sample, draws, stages, done, count, left, last);
      }
    }

    /** Run: `time.NewTicker(pollInterval)`, which panics on a non-positive
        interval, then one Collect per tick until the first Cancel. Tick `i`
        reads the runtime sample `samples[i]`; the draws of all the
        Collects come one after another from `draws`. */
    method Run(pollInterval: Int64, events: seq<Event>, samples: seq<map<string, Float64>>, draws: seq<Float64>)
      returns (end: RunEnd, collected: nat)
      requires Valid()
      requires |samples| >= |events| && Enough(draws, |stats|, |events|)
      modifies this, Repr
      ensures Valid() && stats == old(stats) && Repr == old(Repr)
      ensures end.RunPanicked? <==>
        pollInterval <= 0 || (|stats| > 0 && RandomValue !in stats && TicksBeforeCancel(events) > 0)
      ensures pollInterval <= 0 ==> end == RunPanicked("non-positive interval for NewTicker") && table == old(table)
      ensures end == Cancelled <==> !end.RunPanicked? && Cancel in events
      ensures end.RunPanicked? ==> collected == 0
      ensures !end.RunPanicked? ==> collected == TicksBeforeCancel(events)
      ensures !end.RunPanicked? && |stats| > 0 ==>
        table == Polled(old(table), samples, RandomDraws(draws, |stats|, |events|), collected)
    {
      if pollInterval <= 0 {
        return RunPanicked("non-positive interval for NewTicker"), 0;
      }
      end, collected := Ticks(events, samples, draws);
    }

    /** Run's loop over the ticker's channel and the context's. */
    method Ticks(events: seq<Event>, samples: seq<map<string, Float64>>, draws: seq<Float64>)
      returns (end: RunEnd, collected: nat)
      requires Valid()
      requires |samples| >= |events| && Enough(draws, |stats|, |events|)
      modifies this, Repr
      ensures Valid() && stats == old(stats) && Repr == old(Repr)
      ensures end.RunPanicked? <==> |stats| > 0 && RandomValue !in stats && TicksBeforeCancel(events) > 0
      ensures end == Cancelled <==> !end.RunPanicked? && Cancel in events
      ensures end.RunPanicked? ==> collected == 0
      ensures !end.RunPanicked? ==> collected == TicksBeforeCancel(events)
      ensures !end.RunPanicked? && |stats| > 0 ==>
        table == Polled(old(table), samples, RandomDraws(draws, |stats|, |events|), collected)
    {
      ghost var start := table;
      ghost var per := |stats|;
      ghost var rnds := if per > 0 then RandomDraws(draws, per, |events|) else [];
      var left := draws;
      var i := 0;
      end := EventsExhausted;
      while i < |events|
        invariant i <= |events| && forall j :: 0 <= j < i ==> events[j] == Tick
        invariant Valid() && stats == old(stats) && Repr == old(Repr)
        invariant i > 0 && per > 0 ==> RandomValue in stats
        invariant PollFacts(draws, per, |events|, rnds, i, left)
        invariant per > 0 ==> table == Polled(start, samples, rnds, i)
      {
        if events[i] == Cancel {
          end := Cancelled;
          break;
        }
        PollFactsNext(draws, per, |events|, rnds, i, left);
        if per > 0 {
          PollStep(start, samples, draws, per, |events|, rnds, i, left, table,
                   CollectedTable(table, samples[i], Accepted(left, per - 1)));
        }
        var outcome, rest := Collect(samples[i], left);
        if outcome.Panicked? {
          end := RunPanicked(outcome.reason);
          break;
        }
        left := rest;
        i := i + 1;
      }
      TicksFirstCancel(events, i);
      collected := if end.RunPanicked? then 0 else i;
    }
  }

  /** NewCollector: a zero entry per gauge or counter template, keyed by its
      name, with a new pointee for the pointer its type uses; templates of
      other types are skipped. A template with an empty name makes NewMetric
      fail, and the logger's Fatal ends the process. */
  method NewCollector(allowed: seq<Metric>) returns (c: Collector, outcome: Completion)
    ensures fresh(c) && c.Valid()
    ensures outcome.Panicked? <==> exists i :: 0 <= i < |allowed| && IsTemplate(allowed[i]) && allowed[i].id == ""
    ensures outcome == Returned ==> c.table == Zeroed(Table(allowed))
  {
    c := new Collector();
    var i := 0;
    while i < |allowed|
      invariant 0 <= i <= |allowed|
      invariant fresh(c) && c.Valid()
      invariant forall j :: 0 <= j < i && IsTemplate(allowed[j]) ==> allowed[j].id != ""
      invariant c.table == Zeroed(Table(allowed[..i]))
    {
      var t := allowed[i];
      TableNext(allowed, i);
      if t.mType == Gauge {
        var cell := new Float64Cell(PositiveZero);
        var r := NewMetric(t.mType, t.id, cell, null);
        if r.Err? {
          return c, Panicked(r.msg);
        }
        c.Put(r.value);
        ZeroedUpdate(Table(allowed[..i]), t.id, Gauge);
      } else if t.mType == Counter {
        var cell := new Int64Cell(0);
        var r := NewMetric(t.mType, t.id, null, cell);
        if r.Err? {
          return c, Panicked(r.msg);
        }
        c.Put(r.value);
        ZeroCounter(t.id);
        ZeroedUpdate(Table(allowed[..i]), t.id, Counter);
      }
      i := i + 1;
    }
    assert allowed[..i] == allowed;
    return c, Returned;
  }

  /** GetMetrics, then a Collect: the earlier result follows the table, now
      the collected one. */
  method CollectAfterGetMetrics(c: Collector, sample: map<string, Float64>, draws: seq<Float64>)
    returns (earlier: seq<Metric>)
    requires c.Valid() && RandomValue in c.stats && NonZeroCount(draws) >= |c.stats|
    modifies c, c.Repr
    ensures c.Valid() && c.stats == old(c.stats)
    ensures forall i :: 0 <= i < |earlier| ==> earlier[i].id in c.stats && View(earlier[i]) == c.table[earlier[i].id]
  {
    earlier := c.GetMetrics();
    var outcome, left := c.Collect(sample, draws);
    forall i | 0 <= i < |earlier| ensures View(earlier[i]) == c.table[earlier[i].id] {
      assert earlier[i] == c.stats[earlier[i].id];
    }
  }

  /** GetMetricsCopy, then a Collect: the earlier result keeps the table as
      it was. */
  method CollectAfterGetMetricsCopy(c: Collector, sample: map<string, Float64>, draws: seq<Float64>)
    returns (earlier: seq<Record>)
    requires c.Valid() && RandomValue in c.stats && NonZeroCount(draws) >= |c.stats|
    modifies c, c.Repr
    ensures c.Valid() && c.stats == old(c.stats)
    ensures forall i :: 0 <= i < |earlier| ==> earlier[i].id in c.stats && earlier[i] == old(c.table)[earlier[i].id]
  {
    earlier := c.GetMetricsCopy();
    var outcome, left := c.Collect(sample, draws);
  }
}
